# Bid-announcement poller and live-bids list, modelled in Dafny

This project models the sequential logic under two Python scripts of a public-procurement
bid service (나라장터, the Korean public procurement portal):

- `fetch_naraget_gdrive.py`, a polling script. `fetch_naraget_data` pages through the bid-announcement API with
  pages 1, 2, 3, … of 100 rows each. It appends every non-empty page's items and stops at the first
  empty page or the first error. `save_to_google_drive` wraps the items in a JSON envelope.
  `main` checks the two settings, authenticates, fetches and saves only when something was fetched.
- `nala.py`, a dashboard. `format_won` prints an amount with thousands separators and `원`.
  The live-bids tab offers the categories, filters the rows by category, keyword and posting date,
  sorts them on the chosen column, and cuts out a page of 10 rows (`paginate_dataframe`, `total_pages`).

Modules, one per component:

| file | module | models |
|---|---|---|
| `fetch.dfy` | `Fetch` | the page loop (a method with a `while` loop), the upload envelope, `main` |
| `won_format.dfy` | `WonFormat` | `format_won`, with Python's `int()` grammar and `f"{n:,}"` |
| `pagination.dfy` | `Pagination` | `paginate_dataframe` with Python slice semantics, `total_pages` |
| `live_bids.dfy` | `LiveBids` | category options, the three filters, the sort, and the tab's step-by-step pipeline (a method) |
| `seqs.dfy` | `Seqs` | list concatenation and order-preserving filtering, shared by the others |
| `wrappers.dfy` | `Wrappers` | `Option`, for `None` and for NaN or NaT in numeric and date columns |

The remote API is a finite list of page outcomes. The k-th request of a run is answered by the
k-th outcome, and a request past the end of the list gets an empty item list. So the loop's
`while True` terminates in the model. In the real system it terminates only if the server eventually
sends an empty page or fails. An outcome is an item list (an empty list also stands for a null or
`""` value), a transport error (any `RequestException`, JSON decoding included), a missing
`response`/`body`/`items` key (`KeyError`), or any other exception. Only the last one is not caught by the loop.

Points where the code behaves differently from what one might expect of it, modelled as written:

- The code keeps no watermark and no keyed store: every request recomputes the window
  "now − 5 minutes … now" in `fetch_naraget_gdrive.py`, and the result is uploaded as one new file.
- Only transport and missing-key errors keep the pages already fetched. Any other exception escapes
  the loop, `main` only logs it, and nothing is saved (`Fetch.RunPoller`, case `FetchRaised`).
- The sort-order radio maps the label `오름차순` ("ascending") to `ascending=False`. So that label
  gives a non-increasing list and `내림차순` ("descending") a non-decreasing one. The model keeps this
  as written (`LiveBids.AscendingFlag`, `LiveBids.LabelledOrder`).

## Model

| member | source | states |
|---|---|---|
| `Fetch.FetchNaragetData` | fetch_naraget_gdrive.py:57-98 | requests pages 1, 2, 3, … with no gap, all with the API key, 100 rows and `inqryDiv` 1. The answer to every request but the last continued the loop, and the answer to the last did not. The result is exactly `Collected(server)`, and empty when page 1 is empty or fails. The stop reason is the one of the last page |
| `Fetch.ReadStep` | fetch_naraget_gdrive.py:90-96 | one loop turn: a non-empty page adds its items and moves to the next page; an empty page or an error ends the collection |
| `Fetch.PagesReadStops` | fetch_naraget_gdrive.py:90-96 | every page before the stopping page had a non-empty item list, and the stopping page did not |
| `Fetch.CollectedIsConcatenation` | fetch_naraget_gdrive.py:90-98 | the returned list is the in-order concatenation of the item lists of every page before the stopping page |
| `Fetch.LaterPagesIrrelevant` | fetch_naraget_gdrive.py:90-92 | no page after the stopping page is consulted: servers agreeing up to that page give the same result and the same stopping page |
| `Fetch.ErrorKeepsEarlierPages` | fetch_naraget_gdrive.py:79-98 | a transport or missing-key error after k non-empty pages stops the loop there and keeps all items of those k pages, with the stop reason of that error (request failed, or malformed response) |
| `Fetch.SavedPayload` | fetch_naraget_gdrive.py:109-113 | the saved envelope's `count` equals the number of its `items`, which are the fetched data |
| `Fetch.RunPoller` | fetch_naraget_gdrive.py:132-157 | an empty API key or folder id ends the run before anything is fetched; failed authentication fetches nothing; save is called exactly when the fetch did not raise and returned a non-empty list, with a positive count; whenever the page loop ran, the requests are pages 1 … k+1, each with the API key, 100 rows and inquiry division 1 |
| `WonFormat.FormatWon` | nala.py:83-88 | the output is `공고 참조` exactly when the comma-free input does not parse as a Python integer, and otherwise ends in `원` |
| `WonFormat.GroupedDigits` | nala.py:86 | deleting the commas of the grouped form of n gives the plain decimal numeral of n |
| `WonFormat.GroupedShape` | nala.py:86 | commas stand exactly where a positive multiple of three digits follows, so every group after the first has three digits, and all other characters are digits |
| `WonFormat.DecimalDigitsShape` | nala.py:86 | the numeral has no leading zero unless n is 0, and at most three digits below 1000 |
| `WonFormat.DecimalDigitsValue` | nala.py:85-86 | reading back the numeral of n gives n |
| `WonFormat.DecimalDigitsSplit` | nala.py:86 | the numeral of q·1000 + r is that of q followed by the three digits of r |
| `WonFormat.ParseNumeral` | nala.py:85 | `int()` parses the numeral of n to n, and with a leading minus to −n |
| `WonFormat.ParseInt` | nala.py:85 | Python's `int()` on a string: strip whitespace, an optional sign, ASCII digits with single underscores between them; `None` where `int()` raises ValueError. Its contract is stated by `ParseNumeral`, `SeparatorNotStripped` and `NoBreakSpaceStripped` |
| `WonFormat.WithThousandsRoundTrip` | nala.py:85-86 | parsing `f"{n:,}"` with its commas deleted gives back n, negative n included |
| `WonFormat.FormatWonRoundTrip` | nala.py:85-86 | the output of `format_won`, without `원` and commas, parses back to the integer the input denoted |
| `WonFormat.FormatWonDeterminedByValue` | nala.py:85-88 | two inputs give the same output exactly when they parse to the same integer after comma removal (or both fail), so comma placement in the input does not matter |
| `WonFormat.RemoveCommas` | nala.py:85 | the result contains no comma and is no longer than the input |
| `WonFormat.SeparatorNotStripped` | nala.py:85-88 | `int()` does not strip a leading U+001C separator, so `"\x1c12"` gives `공고 참조` |
| `WonFormat.NoBreakSpaceStripped` | nala.py:85 | `int()` strips a leading non-breaking space, so `"\xa012"` parses to 12 |
| `Pagination.PageWindow` | nala.py:182-185 | page p ≥ 0 of size s is exactly the rows at `[p·s, min((p+1)·s, n))`, in order: at most s rows, none once p·s ≥ n |
| `Pagination.Paginate` | nala.py:182-185 | `paginate_dataframe`: the `iloc` slice `[p·s:(p+1)·s]` under Python slice semantics. Its contract is stated by `PageWindow`, `PageMinusOneEmpty`, `NegativePageCountsFromEnd` and `PagesPartitionRows` |
| `Pagination.PageMinusOneEmpty` | nala.py:182-185 | page −1 is the slice `[-s:0]`, which is empty |
| `Pagination.NegativePageCountsFromEnd` | nala.py:182-185 | page −(k+2) shows the rows `[n − (k+2)·s, n − (k+1)·s)` counted from the end (Python's negative slice bounds), not an empty page |
| `Pagination.TotalPagesIsCeiling` | nala.py:179-192 | `total_pages` is the ceiling of n / 10, and zero exactly when there are no rows |
| `Pagination.TotalPages` | nala.py:192 | `total_pages = (n + 9) // 10`. Its contract is stated by `TotalPagesIsCeiling`, `NonEmptyPages` and `RowOnExactlyOnePage` |
| `Pagination.RowOnExactlyOnePage` | nala.py:179-193 | row i lies in the window of exactly one page, i / 10. That page is below `total_pages`, and the row shows on it at position i % 10 |
| `Pagination.NonEmptyPages` | nala.py:179-193 | a page p ≥ 0 has rows exactly when p < `total_pages` |
| `Pagination.PagesPartitionRows` | nala.py:179-193 | pages 0 … `total_pages` − 1, concatenated in order, are exactly the rows |
| `Pagination.SliceBound` | nala.py:185 | a slice bound becomes an index in `[0, n]`; a non-negative bound is clipped to n |
| `LiveBids.CategoryOptions` | nala.py:131 | the offered categories are distinct, and are exactly the non-empty, non-missing categories of some row |
| `LiveBids.Unique` | nala.py:131 | `unique()` keeps every value, and each value once |
| `LiveBids.UniqueFirstAppearance` | nala.py:131 | `unique()` keeps the order of first appearance: of two kept values, the earlier occurs in the column before the later one first does |
| `LiveBids.TruthyValues` | nala.py:131 | the comprehension keeps exactly the non-empty present values, and keeps them distinct |
| `LiveBids.FilteredRowsSpec` | nala.py:145-164 | filtering keeps the relative order and never adds a row. Each kept row is in the selection when the selection is non-empty, contains the keyword case-insensitively in title or institution when the keyword is non-empty, and has start ≤ posting date ≤ end. Every row meeting all three is kept, with all its occurrences |
| `LiveBids.ContainsIgnoringCase` | nala.py:156-157 | `str.contains(keyword, case=False, na=False, regex=False)`: the upper-cased keyword is a contiguous substring of the upper-cased cell, and a missing cell does not match. `FilteredRowsSpec` states its role in the filter |
| `LiveBids.OnlyDateRangeWhenUnconstrained` | nala.py:147-164 | with an empty selection and an empty keyword, only the date-range filter removes rows |
| `LiveBids.AbsentCategoryGivesNoRows` | nala.py:147-164 | selecting only categories that no row has leaves no row |
| `LiveBids.SortRows` | nala.py:169-173 | the sorted list is a permutation of its input, ordered on the column in the requested direction with missing values last |
| `LiveBids.SortRowsStable` | nala.py:169-173 | the sort is stable: for any class of rows tied on the sort keys, the sorted list holds them in their input order |
| `LiveBids.PostDateSortKeepsTies` | nala.py:171 | the two-column sort (here and in the initial sort at line 126) by `게시일` and `게시시간`, in either direction, keeps rows with the same date and time in their input order, as numpy's `lexsort` does |
| `LiveBids.FilterKeepsTies` | nala.py:145-164 | filtering two lists whose date-and-time tie classes agree leaves tie classes that still agree |
| `LiveBids.InsertPermutes` | nala.py:169-173 | inserting a row adds exactly that row |
| `LiveBids.InsertSorted` | nala.py:169-173 | inserting into a sorted list keeps it sorted |
| `LiveBids.RowBeforeTransitive` | nala.py:169-173 | the sort order is transitive |
| `LiveBids.RowBeforeTotal` | nala.py:169-173 | any two rows are comparable |
| `LiveBids.LabelledOrder` | nala.py:166-173 | under `오름차순` the sort column never increases down the list; under any other label it never decreases; rows missing the column come after all rows that have it |
| `LiveBids.AscendingFlag` | nala.py:167 | `ascending` is false exactly for the label `오름차순` and true for any other label. `LabelledOrder` states what this means for the shown order |
| `LiveBids.PostTimeBreaksTies` | nala.py:170-171 | sorting by posting date orders rows of the same date by posting time, in the same direction, with missing times last |
| `LiveBids.SameCategories` | nala.py:126-131 | reordering the table (the initial newest-first sort) does not change which categories occur |
| `LiveBids.LiveBidList` | nala.py:115-193 | the options are the distinct truthy categories of the loaded rows. The result is a permutation of the one-pass reference filtering, produced by three conditional filter steps, and it is sorted on the chosen column under the inverted order flag. When sorting by `게시일`, rows with the same posting date and time keep the order they had in the loaded rows, as pandas' two-column sorts (stable `lexsort`) keep them. The page count and the page shown are those of `total_pages` and `paginate_dataframe` |
| `Seqs.FilterRespectsPermutation` | nala.py:126-164 | filtering the newest-first sorted table gives a permutation of filtering the loaded rows |
| `Seqs.FilterFilter` | nala.py:145-164 | two filter steps in a row select what one filter on the conjunction selects |

## Left out

- Streamlit rendering, tabs, columns, buttons, autorefresh, the detail view and `st.session_state`
  navigation, including the initialisation of `current_page` to 0 (nala.py:100-220). These are UI. The current
  page is a parameter of `LiveBids.LiveBidList`.
- BigQuery credentials and queries (nala.py:9-60). Google Drive authentication, temporary files,
  file naming and upload (fetch_naraget_gdrive.py:25-55, 104-130). These are foreign I/O. Authentication success is a
  parameter of `Fetch.RunPoller`, and the upload is recorded only as "save was called with this envelope".
- `convert_to_won_format` (nala.py:65-81): it depends on float division and `:.1f` rounding.
- The request window "now − 5 minutes … now", `strftime` and `isoformat` timestamps, and pandas
  `to_datetime`. These are clock and library behaviour. Dates and times are abstract integers, and the envelope
  timestamp is a parameter.
- URL encoding, the `type` flag, JSON decoding and logging (fetch_naraget_gdrive.py:64-82).
- A persisted watermark and a keyed upsert store: neither exists in the code.
- WonFormat.ParseInt: non-ASCII decimal digits (such as full-width `１２３`), which Python's `int()` accepts, are rejected.
- WonFormat.ParseInt: CPython's limit of 4300 digits per integer conversion is not modelled. It depends on interpreter configuration.
- WonFormat.FormatWon: takes only strings. In the source a non-string amount (`None`, NaN) raises
  `AttributeError`, which `format_won` does not catch.
- LiveBids.CategoryOptions: a missing category is `None` (a NULL in the text column). A NaN category is
  not modelled: in Python it is truthy, so it would be offered as an option and kept by `isin` under the
  default selection, whereas the model never offers a missing category and drops it under any non-empty selection.
- LiveBids.ContainsIgnoringCase: Python's `str.upper`, which pandas applies to both sides, is a parameter `upper`. Unicode case mapping is left out.
- LiveBids.SortRows: is stable for every column. For the two-column `게시일` sort this matches pandas, which sorts with the stable `lexsort`. For the one-column sorts on `마감일` and `금액`, pandas' default quicksort does not promise an order among ties, so `LiveBids.LiveBidList` states the tie order only for the `게시일` sort.
- LiveBids.Bid: the amount column is modelled as a number. Its stored type is not visible in the code.
- LiveBids.LiveBidList: the widgets limit the selection to the offered categories and the sort
  column to three choices. The model takes any selection, and the three columns as a datatype.
