/** The data path of the live-bids tab: the category options offered for selection, the
    category, keyword and posting-date filters, the sort on the chosen column, and the page
    cut shown. A table row is a `Bid`; dates and times are abstract ordered numbers. */
module LiveBids {
  import opened Wrappers
  import opened Seqs
  import Pagination

  /** One row after the column projection of the tab, limited to the columns the list logic
      reads. `None` is a missing cell: `None` (a NULL) in the text columns, NaN or NaT in
      the numeric and date columns. */
  datatype Bid = Bid(
    noticeNo: string,             // 공고번호
    title: Option<string>,        // 공고명
    institution: Option<string>,  // 공고기관
    category: Option<string>,     // 분류
    amount: Option<int>,          // 금액
    postDate: Option<int>,        // 게시일, as a day number
    closeDate: Option<int>,       // 마감일, as a day number
    postTime: Option<int>)        // 게시시간

  // ------------------------------------------------------------ category options

  /** Python truthiness of a category cell: `None` and the empty string are false. */
  predicate Truthy(c: Option<string>)
  {
    c.Some? && c.value != ""
  }

  predicate Distinct<T(==)>(s: seq<T>)
  {
    forall i, j :: 0 <= i < j < |s| ==> s[i] != s[j]
  }

  /** `Series.unique()`: each value once, in order of first appearance. */
  function Unique(s: seq<Option<string>>): (r: seq<Option<string>>)
    ensures forall x :: x in r <==> x in s
    ensures Distinct(r)
  {
    if s == [] then []
    else
      var u := Unique(s[..|s| - 1]);
      var x := s[|s| - 1];
      assert forall y :: y in s <==> y in s[..|s| - 1] || y == x by {
        assert s == s[..|s| - 1] + [x];
      }
      if x in u then u else u + [x]
  }

  /** `a` occurs in `s` before `b` first does. */
  predicate OccursFirst(s: seq<Option<string>>, a: Option<string>, b: Option<string>)
  {
    exists k :: 0 <= k < |s| && s[k] == a && b !in s[..k]
  }

  /** `Unique` keeps the order of first appearance: of two kept values, the earlier one
      occurs in `s` before the later one first does. */
  lemma {:induction false} UniqueFirstAppearance(s: seq<Option<string>>)
    ensures forall i, j :: 0 <= i < j < |Unique(s)| ==> OccursFirst(s, Unique(s)[i], Unique(s)[j])
  {
    if s != [] {
      var t, x := s[..|s| - 1], s[|s| - 1];
      UniqueFirstAppearance(t);
      var u, r := Unique(t), Unique(s);
      forall i, j | 0 <= i < j < |r|
        ensures OccursFirst(s, r[i], r[j])
      {
        assert r[i] == u[i] && r[i] in t;
        if j < |u| {
          assert r[j] == u[j] && OccursFirst(t, u[i], u[j]);
          var k :| 0 <= k < |t| && t[k] == u[i] && u[j] !in t[..k];
          assert s[k] == t[k] && s[..k] == t[..k];
        } else {
          assert r[j] == x && x !in u && x !in t;
          var k :| 0 <= k < |t| && t[k] == u[i];
          assert s[k] == t[k] && s[..k] == t[..k];
          assert forall m :: 0 <= m < k ==> s[..k][m] == t[m];
        }
      }
    }
  }

  /** The category column. */
  function Categories(rows: seq<Bid>): seq<Option<string>>
  {
    seq(|rows|, i requires 0 <= i < |rows| => rows[i].category)
  }

  /** The comprehension `[cat for cat in cats if cat]`. */
  function TruthyValues(cs: seq<Option<string>>): (r: seq<string>)
    ensures forall c :: c in r <==> c != "" && Some(c) in cs
    ensures Distinct(cs) ==> Distinct(r)
  {
    if cs == [] then []
    else
      var rest := TruthyValues(cs[1..]);
      assert forall x :: x in cs <==> x == cs[0] || x in cs[1..] by {
        assert cs == [cs[0]] + cs[1..];
      }
      if Truthy(cs[0]) then [cs[0].value] + rest else rest
  }

  /** `unique_categories`: the choices offered by the category multiselect. */
  function CategoryOptions(rows: seq<Bid>): (opts: seq<string>)
    ensures Distinct(opts)
    ensures forall c :: c in opts <==> c != "" && exists i :: 0 <= i < |rows| && rows[i].category == Some(c)
  {
    var cs := Categories(rows);
    assert |cs| == |rows| && forall i :: 0 <= i < |rows| ==> cs[i] == rows[i].category;
    assert forall c :: Some(c) in cs <==> exists i :: 0 <= i < |rows| && rows[i].category == Some(c);
    TruthyValues(Unique(cs))
  }

  // ------------------------------------------------------------------ filters

  /** `df["분류"].isin(selected_cls)`. */
  predicate InSelection(b: Bid, selection: seq<string>)
  {
    b.category.Some? && b.category.value in selection
  }

  /** `p in s` for strings: `p` occurs in `s` at some position. */
  predicate IsSubstring(p: string, s: string)
  {
    p <= s || (s != [] && IsSubstring(p, s[1..]))
  }

  /** `col.str.contains(keyword, case=False, na=False, regex=False)`: pandas compares
      `keyword.upper()` with the cell's `upper()`; `upper` stands for Python's `str.upper`.
      A missing cell does not match. */
  predicate ContainsIgnoringCase(cell: Option<string>, keyword: string, upper: string -> string)
  {
    cell.Some? && IsSubstring(upper(keyword), upper(cell.value))
  }

  /** The keyword occurs in the title or in the institution. */
  predicate MatchesKeyword(b: Bid, keyword: string, upper: string -> string)
  {
    ContainsIgnoringCase(b.title, keyword, upper) || ContainsIgnoringCase(b.institution, keyword, upper)
  }

  /** `start_date <= 게시일 <= end_date`; a missing date compares false. */
  predicate PostedWithin(b: Bid, start: int, end: int)
  {
    b.postDate.Some? && start <= b.postDate.value <= end
  }

  /** The conditions a row must meet to stay in the list: the category filter applies only
      to a non-empty selection, the keyword filter only to a non-empty keyword, and the date
      range always. */
  predicate Kept(b: Bid, selection: seq<string>, keyword: string, start: int, end: int, upper: string -> string)
  {
    && (selection != [] ==> InSelection(b, selection))
    && (keyword != "" ==> MatchesKeyword(b, keyword, upper))
    && PostedWithin(b, start, end)
  }

  /** Reference definition of the filtering: one pass keeping the rows that meet `Kept`. */
  function FilteredRows(rows: seq<Bid>, selection: seq<string>, keyword: string, start: int, end: int,
                        upper: string -> string): seq<Bid>
  {
    Filter(rows, b => Kept(b, selection, keyword, start, end, upper))
  }

  /** Filtering keeps the relative order, never adds a row, keeps only rows meeting all three
      conditions, and keeps every occurrence of each such row. */
  lemma FilteredRowsSpec(rows: seq<Bid>, selection: seq<string>, keyword: string, start: int, end: int,
                         upper: string -> string)
    ensures var r := FilteredRows(rows, selection, keyword, start, end, upper);
      && IsSubsequence(r, rows)
      && (forall i :: 0 <= i < |r| ==>
            && (selection != [] ==> InSelection(r[i], selection))
            && (keyword != "" ==> MatchesKeyword(r[i], keyword, upper))
            && PostedWithin(r[i], start, end))
      && (forall b :: multiset(r)[b] == if Kept(b, selection, keyword, start, end, upper) then multiset(rows)[b] else 0)
  {
    var p := b => Kept(b, selection, keyword, start, end, upper);
    FilterIsSubsequence(rows, p);
    forall b ensures multiset(Filter(rows, p))[b] == if p(b) then multiset(rows)[b] else 0 {
      FilterCount(rows, p, b);
    }
  }

  /** With no category selected and no keyword, only the date range removes rows. */
  lemma OnlyDateRangeWhenUnconstrained(rows: seq<Bid>, start: int, end: int, upper: string -> string)
    ensures FilteredRows(rows, [], "", start, end, upper) == Filter(rows, b => PostedWithin(b, start, end))
  {
    FilterExtensional(rows, b => Kept(b, [], "", start, end, upper), b => PostedWithin(b, start, end));
  }

  /** Selecting only categories no row has leaves the list empty. */
  lemma AbsentCategoryGivesNoRows(rows: seq<Bid>, selection: seq<string>, keyword: string, start: int, end: int,
                                  upper: string -> string)
    requires selection != []
    requires forall i :: 0 <= i < |rows| ==> !InSelection(rows[i], selection)
    ensures FilteredRows(rows, selection, keyword, start, end, upper) == []
  {
    FilteredRowsSpec(rows, selection, keyword, start, end, upper);
  }

  // -------------------------------------------------------------------- sorting

  /** The sort-column choices `게시일`, `마감일` and `금액`. */
  datatype SortColumn = PostDate | CloseDate | Amount

  /** `x` may stand before `y` under one key: present values in the requested direction,
      missing values last in both directions (pandas' `na_position="last"`). */
  predicate KeyBefore(x: Option<int>, y: Option<int>, ascending: bool)
  {
    match (x, y)
    case (Some(a), Some(b)) => if ascending then a <= b else a >= b
    case (Some(_), None) => true
    case (None, Some(_)) => false
    case (None, None) => true
  }

  /** The value of the sort column in a row. */
  function SortKey(b: Bid, col: SortColumn): Option<int>
  {
    match col
    case PostDate => b.postDate
    case CloseDate => b.closeDate
    case Amount => b.amount
  }

  /** Row `a` may stand before row `b`: by the sort column, and when sorting by posting date
      (`by=["게시일", "게시시간"]`) by posting time among rows of the same date. */
  predicate RowBefore(a: Bid, b: Bid, col: SortColumn, ascending: bool)
  {
    if col == PostDate && a.postDate == b.postDate then KeyBefore(a.postTime, b.postTime, ascending)
    else KeyBefore(SortKey(a, col), SortKey(b, col), ascending)
  }

  predicate SortedBy(rows: seq<Bid>, col: SortColumn, ascending: bool)
  {
    forall i, j :: 0 <= i < j < |rows| ==> RowBefore(rows[i], rows[j], col, ascending)
  }

  /** `h` may stand before every row of `s`. */
  predicate BeforeAll(h: Bid, s: seq<Bid>, col: SortColumn, ascending: bool)
  {
    forall k :: 0 <= k < |s| ==> RowBefore(h, s[k], col, ascending)
  }

  lemma RowBeforeTotal(a: Bid, b: Bid, col: SortColumn, ascending: bool)
    ensures RowBefore(a, b, col, ascending) || RowBefore(b, a, col, ascending)
  {
  }

  lemma RowBeforeTransitive(a: Bid, b: Bid, c: Bid, col: SortColumn, ascending: bool)
    requires RowBefore(a, b, col, ascending) && RowBefore(b, c, col, ascending)
    ensures RowBefore(a, c, col, ascending)
  {
  }

  lemma SortedCons(h: Bid, s: seq<Bid>, col: SortColumn, ascending: bool)
    requires BeforeAll(h, s, col, ascending) && SortedBy(s, col, ascending)
    ensures SortedBy([h] + s, col, ascending)
  {
    var r := [h] + s;
    forall i, j | 0 <= i < j < |r| ensures RowBefore(r[i], r[j], col, ascending) {
      if i == 0 {
        assert r[j] == s[j - 1];
      } else {
        assert r[i] == s[i - 1] && r[j] == s[j - 1];
      }
    }
  }

  /** Inserts `b` into a sorted list before the first row it may precede. */
  function Insert(b: Bid, sorted: seq<Bid>, col: SortColumn, ascending: bool): seq<Bid>
  {
    if sorted == [] then [b]
    else if RowBefore(b, sorted[0], col, ascending) then [b] + sorted
    else [sorted[0]] + Insert(b, sorted[1..], col, ascending)
  }

  lemma {:induction false} InsertPermutes(b: Bid, sorted: seq<Bid>, col: SortColumn, ascending: bool)
    ensures multiset(Insert(b, sorted, col, ascending)) == multiset(sorted) + multiset{b}
  {
    if sorted != [] && !RowBefore(b, sorted[0], col, ascending) {
      InsertPermutes(b, sorted[1..], col, ascending);
      assert sorted == [sorted[0]] + sorted[1..];
    }
  }

  lemma BeforeAllInsert(h: Bid, b: Bid, s: seq<Bid>, col: SortColumn, ascending: bool)
    requires BeforeAll(h, s, col, ascending) && RowBefore(h, b, col, ascending)
    ensures BeforeAll(h, Insert(b, s, col, ascending), col, ascending)
  {
    var r := Insert(b, s, col, ascending);
    InsertPermutes(b, s, col, ascending);
    forall k | 0 <= k < |r| ensures RowBefore(h, r[k], col, ascending) {
      assert r[k] in multiset(r);
      if r[k] != b {
        assert r[k] in multiset(s);
        var m :| 0 <= m < |s| && s[m] == r[k];
      }
    }
  }

  lemma {:induction false} InsertSorted(b: Bid, sorted: seq<Bid>, col: SortColumn, ascending: bool)
    requires SortedBy(sorted, col, ascending)
    ensures SortedBy(Insert(b, sorted, col, ascending), col, ascending)
  {
    if sorted == [] {
    } else if RowBefore(b, sorted[0], col, ascending) {
      forall k | 0 <= k < |sorted| ensures RowBefore(b, sorted[k], col, ascending) {
        if k > 0 {
          RowBeforeTransitive(b, sorted[0], sorted[k], col, ascending);
        }
      }
      SortedCons(b, sorted, col, ascending);
    } else {
      var h, t := sorted[0], sorted[1..];
      assert sorted == [h] + t;
      assert SortedBy(t, col, ascending) && BeforeAll(h, t, col, ascending) by {
        forall i, j | 0 <= i < j < |t| ensures RowBefore(t[i], t[j], col, ascending) {
          assert t[i] == sorted[i + 1] && t[j] == sorted[j + 1];
        }
        forall k | 0 <= k < |t| ensures RowBefore(h, t[k], col, ascending) {
          assert t[k] == sorted[k + 1];
        }
      }
      InsertSorted(b, t, col, ascending);
      RowBeforeTotal(b, h, col, ascending);
      BeforeAllInsert(h, b, t, col, ascending);
      SortedCons(h, Insert(b, t, col, ascending), col, ascending);
    }
  }

  lemma FirstAndRest(rows: seq<Bid>)
    requires rows != []
    ensures multiset(rows) == multiset(rows[1..]) + multiset{rows[0]}
  {
    assert rows == [rows[0]] + rows[1..];
  }

  /** The sort: a permutation of its input, sorted on the column in the requested direction.
      Rows with equal keys keep their input order (`SortRowsStable`). */
  function SortRows(rows: seq<Bid>, col: SortColumn, ascending: bool): (r: seq<Bid>)
    ensures multiset(r) == multiset(rows)
    ensures SortedBy(r, col, ascending)
  {
    if rows == [] then []
    else
      var rest := SortRows(rows[1..], col, ascending);
      InsertPermutes(rows[0], rest, col, ascending);
      InsertSorted(rows[0], rest, col, ascending);
      FirstAndRest(rows);
      Insert(rows[0], rest, col, ascending)
  }

  /** Any two rows that `p` selects may stand in either order: they tie on the sort keys. */
  ghost predicate Tied(p: Bid -> bool, col: SortColumn, ascending: bool)
  {
    forall a, c :: p(a) && p(c) ==> RowBefore(a, c, col, ascending)
  }

  /** Inserting `b` puts it before every row it ties with. */
  lemma {:induction false} InsertStable(b: Bid, sorted: seq<Bid>, col: SortColumn, ascending: bool, p: Bid -> bool)
    requires Tied(p, col, ascending)
    ensures Filter(Insert(b, sorted, col, ascending), p) == Filter([b] + sorted, p)
  {
    if sorted != [] && !RowBefore(b, sorted[0], col, ascending) {
      var h, t := sorted[0], sorted[1..];
      InsertStable(b, t, col, ascending, p);
      assert !(p(b) && p(h));
      assert ([h] + Insert(b, t, col, ascending))[1..] == Insert(b, t, col, ascending);
      assert ([b] + sorted)[1..] == sorted && ([b] + t)[1..] == t && sorted[1..] == t;
    }
  }

  /** The sort is stable: the rows of a tie class come out in the order they went in. */
  lemma {:induction false} SortRowsStable(rows: seq<Bid>, col: SortColumn, ascending: bool, p: Bid -> bool)
    requires Tied(p, col, ascending)
    ensures Filter(SortRows(rows, col, ascending), p) == Filter(rows, p)
  {
    if rows != [] {
      var rest := SortRows(rows[1..], col, ascending);
      SortRowsStable(rows[1..], col, ascending, p);
      InsertStable(rows[0], rest, col, ascending, p);
      assert ([rows[0]] + rest)[1..] == rest;
    }
  }

  /** The rows with the same posting date and time as `x`: a tie class of the `게시일` sort. */
  function SameDateTimeAs(x: Bid): Bid -> bool
  {
    (b: Bid) => b.postDate == x.postDate && b.postTime == x.postTime
  }

  /** The rows of `rows` that tie with `x` under the `게시일` sort, in order. */
  function TiesOf(rows: seq<Bid>, x: Bid): seq<Bid>
  {
    Filter(rows, SameDateTimeAs(x))
  }

  /** Sorting by posting date in either direction keeps every date-and-time tie class in order. */
  lemma PostDateSortKeepsTies(rows: seq<Bid>, ascending: bool, x: Bid)
    ensures TiesOf(SortRows(rows, PostDate, ascending), x) == TiesOf(rows, x)
  {
    SortRowsStable(rows, PostDate, ascending, SameDateTimeAs(x));
  }

  /** Filtering two lists with the same tie classes leaves them with the same tie classes. */
  lemma FilterKeepsTies(s: seq<Bid>, t: seq<Bid>, q: Bid -> bool, x: Bid)
    requires TiesOf(s, x) == TiesOf(t, x)
    ensures TiesOf(Filter(s, q), x) == TiesOf(Filter(t, q), x)
  {
    var both := b => q(b) && SameDateTimeAs(x)(b);
    FilterFilter(s, q, SameDateTimeAs(x), both);
    FilterFilter(s, SameDateTimeAs(x), q, both);
    FilterFilter(t, q, SameDateTimeAs(x), both);
    FilterFilter(t, SameDateTimeAs(x), q, both);
  }

  /** The radio-button label that is shown as "ascending". */
  const AscendingLabel: string := "오름차순"

  /** `ascending = False if sort_order == "오름차순" else True`. */
  function AscendingFlag(sortOrder: string): bool
  {
    sortOrder != AscendingLabel
  }

  /** What the order means for a sorted list: under the label `오름차순` the sort column does
      not increase down the list, under any other label it does not decrease, and rows
      whose sort column is missing come after every row where it is present. */
  lemma LabelledOrder(rows: seq<Bid>, col: SortColumn, sortOrder: string, i: nat, j: nat)
    requires SortedBy(rows, col, AscendingFlag(sortOrder))
    requires i < j < |rows|
    ensures var x, y := SortKey(rows[i], col), SortKey(rows[j], col);
      && (x.Some? && y.Some? && sortOrder == AscendingLabel ==> x.value >= y.value)
      && (x.Some? && y.Some? && sortOrder != AscendingLabel ==> x.value <= y.value)
      && (x.None? ==> y.None?)
  {
    assert RowBefore(rows[i], rows[j], col, AscendingFlag(sortOrder));
  }

  /** Sorting by posting date breaks ties on the date by posting time, in the same direction,
      with missing times last. */
  lemma PostTimeBreaksTies(rows: seq<Bid>, ascending: bool, i: nat, j: nat)
    requires SortedBy(rows, PostDate, ascending)
    requires i < j < |rows|
    requires rows[i].postDate == rows[j].postDate
    ensures rows[i].postTime.Some? && rows[j].postTime.Some? && ascending ==> rows[i].postTime.value <= rows[j].postTime.value
    ensures rows[i].postTime.Some? && rows[j].postTime.Some? && !ascending ==> rows[i].postTime.value >= rows[j].postTime.value
    ensures rows[i].postTime.None? ==> rows[j].postTime.None?
  {
    assert RowBefore(rows[i], rows[j], PostDate, ascending);
  }

  /** Two permutations of each other offer the same categories. */
  lemma SameCategories(s: seq<Bid>, t: seq<Bid>, c: string)
    requires multiset(s) == multiset(t)
    ensures (exists i :: 0 <= i < |s| && s[i].category == Some(c)) <==> (exists i :: 0 <= i < |t| && t[i].category == Some(c))
  {
    if i :| 0 <= i < |s| && s[i].category == Some(c) {
      assert s[i] in multiset(t);
      var k :| 0 <= k < |t| && t[k] == s[i];
    }
    if i :| 0 <= i < |t| && t[i].category == Some(c) {
      assert t[i] in multiset(s);
      var k :| 0 <= k < |s| && s[k] == t[i];
    }
  }

  // ------------------------------------------------------------------- the tab

  /** The live-bids tab from the loaded rows to the page shown: sort by posting date and
      time, newest first; offer the categories; apply the category, keyword and date filters
      one after another; sort on the chosen column; count the pages and cut out the current one. */
  method LiveBidList(bids: seq<Bid>, keyword: string, selection: seq<string>, start: int, end: int,
                     sortCol: SortColumn, sortOrder: string, currentPage: int, upper: string -> string)
    returns (options: seq<string>, filtered: seq<Bid>, totalPages: nat, shown: seq<Bid>)
    ensures Distinct(options)
    ensures forall c :: c in options <==> c != "" && exists i :: 0 <= i < |bids| && bids[i].category == Some(c)
    ensures multiset(filtered) == multiset(FilteredRows(bids, selection, keyword, start, end, upper))
    ensures SortedBy(filtered, sortCol, AscendingFlag(sortOrder))
    ensures sortCol == PostDate ==>
              forall x :: TiesOf(filtered, x) == TiesOf(FilteredRows(bids, selection, keyword, start, end, upper), x)
    ensures totalPages == Pagination.TotalPages(|filtered|)
    ensures shown == Pagination.Paginate(filtered, currentPage, Pagination.PageSize)
  {
    var table := SortRows(bids, PostDate, false);
    options := CategoryOptions(table);
    forall c ensures (exists i :: 0 <= i < |table| && table[i].category == Some(c)) <==>
                     (exists i :: 0 <= i < |bids| && bids[i].category == Some(c)) {
      SameCategories(table, bids, c);
    }

    // Each step, applied or skipped, is a filter on the condition it stands for.
    var bySelection := b => selection != [] ==> InSelection(b, selection);
    var byKeyword := b => keyword != "" ==> MatchesKeyword(b, keyword, upper);
    var byDate := b => PostedWithin(b, start, end);
    if selection != [] {
      filtered := Filter(table, b => InSelection(b, selection));
      FilterExtensional(table, b => InSelection(b, selection), bySelection);
    } else {
      filtered := table;
      FilterAll(table, bySelection);
    }
    ghost var afterSelection := filtered;
    if keyword != "" {
      filtered := Filter(filtered, b => MatchesKeyword(b, keyword, upper));
      FilterExtensional(afterSelection, b => MatchesKeyword(b, keyword, upper), byKeyword);
    } else {
      FilterAll(filtered, byKeyword);
    }
    filtered := Filter(filtered, byDate);

    // Together they select what the one-pass reference definition selects.
    var bySelectionAndKeyword := b => bySelection(b) && byKeyword(b);
    FilterFilter(table, bySelection, byKeyword, bySelectionAndKeyword);
    FilterFilter(table, bySelectionAndKeyword, byDate, b => Kept(b, selection, keyword, start, end, upper));
    assert filtered == FilteredRows(table, selection, keyword, start, end, upper);
    FilterRespectsPermutation(table, bids, b => Kept(b, selection, keyword, start, end, upper));

    // Both sorts by posting date keep rows of equal date and time in their loaded order.
    ghost var unsorted := filtered;
    filtered := SortRows(filtered, sortCol, AscendingFlag(sortOrder));
    if sortCol == PostDate {
      forall x ensures TiesOf(filtered, x) == TiesOf(FilteredRows(bids, selection, keyword, start, end, upper), x) {
        PostDateSortKeepsTies(bids, false, x);
        FilterKeepsTies(table, bids, b => Kept(b, selection, keyword, start, end, upper), x);
        PostDateSortKeepsTies(unsorted, AscendingFlag(sortOrder), x);
      }
    }
    totalPages := Pagination.TotalPages(|filtered|);
    shown := Pagination.Paginate(filtered, currentPage, Pagination.PageSize);
  }
}
