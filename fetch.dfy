/** The polling script: the page loop of `fetch_naraget_data`, the JSON envelope
    that `save_to_google_drive` writes, and the guards and dispatch of `main`.
    The remote bid-announcement API is a finite list of page outcomes: the k-th
    request of a run is answered by `server[k - 1]`, and a request past the end
    of the list gets an empty item list. */
module Fetch {
  import opened Seqs

  /** `numOfRows`: every request asks for pages of 100 items. */
  const PageRows: nat := 100
  /** `inqryDiv`: the query-mode flag sent with every request. */
  const InquiryDiv: nat := 1

  /** The query parameters of one request that the loop varies or fixes
      (the begin/end timestamps and the response format are left out). */
  datatype Request = Request(serviceKey: string, pageNo: nat, numOfRows: nat, inquiryDiv: nat)

  /** What one round trip for one page yields. */
  datatype PageOutcome<T> =
    | Items(items: seq<T>)  // `response.body.items`; an empty list also stands for a null or "" value
    | TransportError        // `requests` raised a RequestException (JSON decoding included)
    | MissingKey            // `response`, `body` or `items` absent: KeyError
    | Unexpected            // any other exception: it is not caught inside the loop

  /** Why the loop stopped. */
  datatype Stop = NoMoreData | RequestFailed | MalformedResponse | Raised

  /** The answer to the request for page `pageNo` (pages count from 1). */
  function Respond<T>(server: seq<PageOutcome<T>>, pageNo: nat): PageOutcome<T>
  {
    if 1 <= pageNo <= |server| then server[pageNo - 1] else Items([])
  }

  /** A page after which the loop asks for the next one: a non-empty item list. */
  predicate Continues<T>(o: PageOutcome<T>)
  {
    o.Items? && o.items != []
  }

  function StopReason<T>(o: PageOutcome<T>): Stop
  {
    match o
    case Items(_) => NoMoreData
    case TransportError => RequestFailed
    case MissingKey => MalformedResponse
    case Unexpected => Raised
  }

  /** Number of pages that continue the loop before it stops; the loop stops at page `PagesRead(server) + 1`. */
  function PagesRead<T>(server: seq<PageOutcome<T>>): nat
  {
    if server != [] && Continues(server[0]) then 1 + PagesRead(server[1..]) else 0
  }

  /** The items the loop collects: those of every page before the stopping page, in order. */
  function Collected<T>(server: seq<PageOutcome<T>>): seq<T>
  {
    if server != [] && Continues(server[0]) then server[0].items + Collected(server[1..]) else []
  }

  /** The item lists of the first `n` pages. */
  function ItemLists<T>(server: seq<PageOutcome<T>>, n: nat): seq<seq<T>>
    requires n <= |server|
    requires forall k :: 0 <= k < n ==> server[k].Items?
  {
    seq(n, k requires 0 <= k < n => server[k].items)
  }

  /** `fetch_naraget_data`: request pages 1, 2, 3, ... with 100 rows each, append each
      non-empty page's items, and stop at the first empty page or the first error.
      `info` is what the function returns; when `stop == Raised` the function does not
      return at all and `info` is only what had been gathered when the exception escaped. */
  method FetchNaragetData<T>(apiKey: string, server: seq<PageOutcome<T>>)
    returns (info: seq<T>, requested: seq<Request>, stop: Stop)
    ensures |requested| == PagesRead(server) + 1
    ensures forall i :: 0 <= i < |requested| ==> requested[i] == Request(apiKey, i + 1, PageRows, InquiryDiv)
    ensures forall k :: 1 <= k < |requested| ==> Continues(Respond(server, k))
    ensures !Continues(Respond(server, |requested|))
    ensures stop == StopReason(Respond(server, |requested|))
    ensures info == Collected(server)
    ensures !Continues(Respond(server, 1)) ==> info == []
  {
    var num: nat := 1;
    info := [];
    requested := [];
    while true
      invariant 1 <= num <= |server| + 1
      invariant PagesRead(server) == num - 1 + PagesRead(server[num - 1..])
      invariant Collected(server) == info + Collected(server[num - 1..])
      invariant |requested| == num - 1
      invariant forall i :: 0 <= i < |requested| ==> requested[i] == Request(apiKey, i + 1, PageRows, InquiryDiv)
      invariant forall k :: 1 <= k <= |requested| ==> Continues(Respond(server, k))
      decreases |server| + 1 - num
    {
      requested := requested + [Request(apiKey, num, PageRows, InquiryDiv)];
      var response := Respond(server, num);
      ReadStep(server, num);
      match response {
        case TransportError =>
          stop := RequestFailed;
          break;
        case MissingKey =>
          stop := MalformedResponse;
          break;
        case Unexpected =>
          stop := Raised;
          return;
        case Items(items) =>
          if items == [] {
            stop := NoMoreData;
            break;
          }
          info := info + items;
          num := num + 1;
      }
    }
  }

  /** One turn of the loop in terms of the pages still ahead of it. */
  lemma ReadStep<T>(server: seq<PageOutcome<T>>, num: nat)
    requires 1 <= num <= |server| + 1
    ensures Continues(Respond(server, num)) ==>
      && num <= |server|
      && PagesRead(server[num - 1..]) == 1 + PagesRead(server[num..])
      && Collected(server[num - 1..]) == Respond(server, num).items + Collected(server[num..])
    ensures !Continues(Respond(server, num)) ==>
      PagesRead(server[num - 1..]) == 0 && Collected(server[num - 1..]) == []
  {
    var rest := server[num - 1..];
    if num <= |server| {
      assert rest[0] == server[num - 1] && rest[1..] == server[num..];
    } else {
      assert rest == [];
    }
  }

  /** Every page before the stopping page continued the loop, and the stopping page did not. */
  lemma {:induction false} PagesReadStops<T>(server: seq<PageOutcome<T>>)
    ensures forall k :: 1 <= k <= PagesRead(server) ==> Continues(Respond(server, k))
    ensures !Continues(Respond(server, PagesRead(server) + 1))
  {
    if server != [] && Continues(server[0]) {
      PagesReadStops(server[1..]);
      forall k | 2 <= k <= PagesRead(server) + 1
        ensures Respond(server, k) == Respond(server[1..], k - 1)
      {
      }
    }
  }

  /** The collected items are the in-order concatenation of the item lists of the
      pages before the stopping page. */
  lemma {:induction false} CollectedIsConcatenation<T>(server: seq<PageOutcome<T>>)
    ensures PagesRead(server) <= |server|
    ensures forall k :: 0 <= k < PagesRead(server) ==> server[k].Items?
    ensures Collected(server) == Flatten(ItemLists(server, PagesRead(server)))
  {
    if server != [] && Continues(server[0]) {
      var tail := server[1..];
      CollectedIsConcatenation(tail);
      var n := PagesRead(tail);
      assert ItemLists(server, n + 1) == [server[0].items] + ItemLists(tail, n);
      FlattenCons(server[0].items, ItemLists(tail, n));
    } else {
      assert ItemLists(server, 0) == [];
    }
  }

  /** Pages after the stopping page are never consulted: two servers that agree up to and
      including that page make the loop collect the same items and stop at the same page. */
  lemma {:induction false} LaterPagesIrrelevant<T>(server: seq<PageOutcome<T>>, other: seq<PageOutcome<T>>)
    requires forall k :: 1 <= k <= PagesRead(server) + 1 ==> Respond(other, k) == Respond(server, k)
    ensures PagesRead(other) == PagesRead(server)
    ensures Collected(other) == Collected(server)
  {
    assert Respond(other, 1) == Respond(server, 1);
    if server != [] && Continues(server[0]) {
      assert other != [] && other[0] == server[0];
      forall k | 1 <= k <= PagesRead(server[1..]) + 1
        ensures Respond(other[1..], k) == Respond(server[1..], k)
      {
        assert Respond(other, k + 1) == Respond(server, k + 1);
      }
      LaterPagesIrrelevant(server[1..], other[1..]);
    } else {
      assert other == [] || !Continues(other[0]);
    }
  }

  /** A transport or envelope error at page `k + 1`, after `k` non-empty pages, ends the loop
      with every item of those `k` pages kept. */
  lemma {:induction false} ErrorKeepsEarlierPages<T>(server: seq<PageOutcome<T>>, k: nat)
    requires k < |server|
    requires forall j :: 0 <= j < k ==> server[j].Items? && server[j].items != []
    requires server[k] == TransportError || server[k] == MissingKey
    ensures PagesRead(server) == k
    ensures Collected(server) == Flatten(ItemLists(server, k))
    ensures StopReason(Respond(server, k + 1)) == (if server[k] == TransportError then RequestFailed else MalformedResponse)
  {
    if k == 0 {
      assert ItemLists(server, 0) == [];
    } else {
      ErrorKeepsEarlierPages(server[1..], k - 1);
      assert ItemLists(server, k) == [server[0].items] + ItemLists(server[1..], k - 1);
      FlattenCons(server[0].items, ItemLists(server[1..], k - 1));
    }
  }

  /** The JSON document `save_to_google_drive` writes: a timestamp, a count and the items. */
  datatype Payload<T> = Payload(timestamp: string, count: nat, items: seq<T>)

  /** The envelope built for upload; its `count` is the number of its items. */
  function SavedPayload<T>(timestamp: string, data: seq<T>): (p: Payload<T>)
    ensures p.count == |p.items|
    ensures p.items == data && p.timestamp == timestamp
  {
    Payload(timestamp, |data|, data)
  }

  /** What one run of `main` did. */
  datatype Run<T> =
    | MissingApiKey                                         // returned before anything else
    | MissingFolderId                                       // returned before anything else
    | AuthFailed                                            // authentication raised; caught and logged
    | FetchRaised(requested: seq<Request>)                  // the page loop raised; caught and logged
    | NothingCollected(requested: seq<Request>)             // "no data collected" logged; nothing saved
    | SaveCalled(requested: seq<Request>, payload: Payload<T>)  // save_to_google_drive was called

  /** `main`: check the two settings, authenticate, fetch, and save only when something
      was fetched. Authentication succeeding is a parameter; the upload itself is left out. */
  method RunPoller<T>(apiKey: string, folderId: string, authOk: bool, server: seq<PageOutcome<T>>, timestamp: string)
    returns (run: Run<T>)
    ensures run == MissingApiKey <==> apiKey == ""
    ensures run == MissingFolderId <==> apiKey != "" && folderId == ""
    ensures run == AuthFailed <==> apiKey != "" && folderId != "" && !authOk
    ensures run.FetchRaised? <==> apiKey != "" && folderId != "" && authOk && StopReason(Respond(server, PagesRead(server) + 1)) == Raised
    ensures run.SaveCalled? <==> (apiKey != "" && folderId != "" && authOk &&
                                  StopReason(Respond(server, PagesRead(server) + 1)) != Raised && Collected(server) != [])
    ensures run.SaveCalled? ==> run.payload == SavedPayload(timestamp, Collected(server)) && run.payload.count > 0
    ensures (run.FetchRaised? || run.NothingCollected? || run.SaveCalled?) ==>
              |run.requested| == PagesRead(server) + 1 &&
              forall i :: 0 <= i < |run.requested| ==> run.requested[i] == Request(apiKey, i + 1, PageRows, InquiryDiv)
  {
    if apiKey == "" {
      return MissingApiKey;
    }
    if folderId == "" {
      return MissingFolderId;
    }
    if !authOk {
      return AuthFailed;
    }
    var data, requested, stop := FetchNaragetData(apiKey, server);
    if stop == Raised {
      return FetchRaised(requested);
    }
    if data != [] {
      run := SaveCalled(requested, SavedPayload(timestamp, data));
    } else {
      run := NothingCollected(requested);
    }
  }
}
