/**
 * The page walk of `main`: request pages one after another, following each
 * page's cursor, and collect the entries whose ids are not known, stopping
 * at the first known id. The ids found are never added to the known set.
 */
module Walker {
  import opened Results
  import opened Catalog
  import opened Fetcher

  /** What one `fetchPage` call settled to. */
  type Response = Result<Page, FetchError>

  /** The scan of one page: the records collected and whether the stop flag was set. */
  datatype Scan = Scan(items: seq<Item>, stop: bool)

  /**
   * The `for` loop over one page's entries: every entry is projected until
   * the first one whose id is known, which sets the stop flag and drops the
   * rest of the page.
   */
  function ScanPage(known: set<int>, entries: seq<Entry>): (s: Scan)
    ensures |s.items| <= |entries|
    ensures forall i :: 0 <= i < |s.items| ==>
              entries[i].id !in known && s.items[i] == Project(entries[i])
    ensures s.stop <==> |s.items| < |entries|
    ensures s.stop ==> entries[|s.items|].id in known
    decreases |entries|
  {
    if |entries| == 0 then Scan([], false)
    else if entries[0].id in known then Scan([], true)
    else
      var rest := ScanPage(known, entries[1..]);
      Scan([Project(entries[0])] + rest.items, rest.stop)
  }

  /** The stop flag is set exactly when the page holds a known id. */
  lemma StopIffKnownId(known: set<int>, entries: seq<Entry>)
    ensures ScanPage(known, entries).stop <==> exists i :: 0 <= i < |entries| && entries[i].id in known
  {
  }

  /** Why a walk ended. */
  datatype End =
    | Exhausted           // the last page's cursor was empty or missing
    | Boundary            // the last page held a known id
    | Failed(error: FetchError)  // `fetchPage` raised: `main` rejects
    | Unfinished          // the responses given ran out while the walk went on

  /** A walk: the records collected, the cursor of each request in order, and why it ended. */
  datatype Walk = Walk(items: seq<Item>, cursors: seq<string>, end: End)

  /** The records a response contributes: the scan of its page, nothing for a failure. */
  function PageItems(known: set<int>, r: Response): seq<Item>
  {
    if r.Success? then ScanPage(known, Entries(r.value)).items else []
  }

  /** The records of several responses, page by page in request order. */
  function Gathered(known: set<int>, rs: seq<Response>): seq<Item>
    decreases |rs|
  {
    if |rs| == 0 then [] else PageItems(known, rs[0]) + Gathered(known, rs[1..])
  }

  /** The `do ... while (cursor && !stop)` test after a response: request another page. */
  predicate Proceeds(known: set<int>, r: Response)
  {
    r.Success? && !ScanPage(known, Entries(r.value)).stop && HasNext(r.value)
  }

  /** The loop goes on exactly when the page has a non-empty cursor and no known id. */
  lemma ProceedsIff(known: set<int>, r: Response)
    ensures Proceeds(known, r) <==>
              && r.Success?
              && NextCursor(r.value) != ""
              && (forall i :: 0 <= i < |Entries(r.value)| ==> Entries(r.value)[i].id !in known)
  {
  }

  /** Why the walk ends after a response that does not proceed. */
  function Verdict(known: set<int>, r: Response): End
    requires !Proceeds(known, r)
  {
    match r
    case Failure(e) => Failed(e)
    case Success(p) => if ScanPage(known, Entries(p)).stop then Boundary else Exhausted
  }

  /**
   * The walk from a request with `cursor`, `responses[k]` being what the
   * k-th request from here settles to.
   */
  function WalkFrom(known: set<int>, responses: seq<Response>, cursor: string): (w: Walk)
    ensures |w.cursors| <= |responses|
    ensures |w.cursors| == 0 <==> |responses| == 0
    ensures |responses| > 0 ==> w.cursors[0] == cursor
    decreases |responses|
  {
    if |responses| == 0 then Walk([], [], Unfinished)
    else
      var r := responses[0];
      if !Proceeds(known, r) then Walk(PageItems(known, r), [cursor], Verdict(known, r))
      else
        var rest := WalkFrom(known, responses[1..], NextCursor(r.value));
        Walk(PageItems(known, r) + rest.items, [cursor] + rest.cursors, rest.end)
  }

  /** Request k + 1 is made only when response k proceeds, and it carries that page's cursor. */
  lemma {:induction false} WalkCursors(known: set<int>, responses: seq<Response>, cursor: string)
    ensures var w := WalkFrom(known, responses, cursor);
            forall k :: 0 <= k < |w.cursors| - 1 ==>
              Proceeds(known, responses[k]) && w.cursors[k + 1] == NextCursor(responses[k].value)
    decreases |responses|
  {
    if |responses| > 0 && Proceeds(known, responses[0]) {
      var next := NextCursor(responses[0].value);
      WalkCursors(known, responses[1..], next);
      var w := WalkFrom(known, responses, cursor);
      var rest := WalkFrom(known, responses[1..], next);
      forall k | 0 < k < |w.cursors| - 1
        ensures Proceeds(known, responses[k]) && w.cursors[k + 1] == NextCursor(responses[k].value)
      {
        assert responses[1..][k - 1] == responses[k];
        assert w.cursors[k + 1] == rest.cursors[k];
      }
    }
  }

  /**
   * The walk ends at the first response that does not proceed, for that
   * response's reason, and is unfinished only when the responses run out.
   */
  lemma {:induction false} WalkEnd(known: set<int>, responses: seq<Response>, cursor: string)
    ensures var w := WalkFrom(known, responses, cursor);
            && (w.end == Unfinished <==>
                  |responses| == 0 || (|w.cursors| == |responses| && Proceeds(known, responses[|responses| - 1])))
            && (w.end != Unfinished ==>
                  !Proceeds(known, responses[|w.cursors| - 1]) && w.end == Verdict(known, responses[|w.cursors| - 1]))
    decreases |responses|
  {
    if |responses| > 0 && Proceeds(known, responses[0]) {
      WalkEnd(known, responses[1..], NextCursor(responses[0].value));
    }
  }

  /** The walk's records are those of the pages it requested, page by page. */
  lemma {:induction false} WalkItems(known: set<int>, responses: seq<Response>, cursor: string)
    ensures var w := WalkFrom(known, responses, cursor);
            w.items == Gathered(known, responses[..|w.cursors|])
    decreases |responses|
  {
    if |responses| > 0 {
      var r := responses[0];
      if !Proceeds(known, r) {
        assert responses[..1] == [r];
      } else {
        var rest := WalkFrom(known, responses[1..], NextCursor(r.value));
        WalkItems(known, responses[1..], NextCursor(r.value));
        assert responses[..1 + |rest.cursors|][1..] == responses[1..][..|rest.cursors|];
      }
    }
  }

  /** `main`'s walk: the first request carries no cursor. */
  function WalkAll(known: set<int>, responses: seq<Response>): (w: Walk)
    ensures |responses| > 0 ==> |w.cursors| > 0 && w.cursors[0] == "" && RequestUrl(w.cursors[0]) == BaseUrl
  {
    WalkFrom(known, responses, "")
  }

  /** Gathering splits over consecutive runs of responses: records keep page order. */
  lemma {:induction false} GatheredAppend(known: set<int>, a: seq<Response>, b: seq<Response>)
    ensures Gathered(known, a + b) == Gathered(known, a) + Gathered(known, b)
    decreases |a|
  {
    if |a| == 0 {
      assert a + b == b;
    } else {
      assert (a + b)[0] == a[0];
      assert (a + b)[1..] == a[1..] + b;
      GatheredAppend(known, a[1..], b);
      calc {
        Gathered(known, a + b);
        PageItems(known, a[0]) + Gathered(known, a[1..] + b);
        PageItems(known, a[0]) + (Gathered(known, a[1..]) + Gathered(known, b));
        (PageItems(known, a[0]) + Gathered(known, a[1..])) + Gathered(known, b);
      }
    }
  }

  /** No gathered record has an id of the known set. */
  lemma {:induction false} GatheredIdsUnknown(known: set<int>, rs: seq<Response>)
    ensures forall i :: 0 <= i < |Gathered(known, rs)| ==> Gathered(known, rs)[i].id !in known
    decreases |rs|
  {
    if |rs| > 0 {
      GatheredIdsUnknown(known, rs[1..]);
    }
  }

  /** Every record a walk collects has an id that was not known when it started. */
  lemma WalkItemsAreNew(known: set<int>, responses: seq<Response>)
    ensures forall i :: 0 <= i < |WalkAll(known, responses).items| ==>
              WalkAll(known, responses).items[i].id !in known
  {
    var w := WalkAll(known, responses);
    WalkItems(known, responses, "");
    GatheredIdsUnknown(known, responses[..|w.cursors|]);
  }

  /**
   * A walk that ends at a known id keeps the records of the pages before the
   * last one, then only the entries of the last page that come before its
   * first known id.
   */
  lemma BoundaryDropsRestOfPage(known: set<int>, responses: seq<Response>)
    requires WalkAll(known, responses).end == Boundary
    ensures var w := WalkAll(known, responses);
            && 0 < |w.cursors| <= |responses|
            && responses[|w.cursors| - 1].Success?
            && ScanPage(known, Entries(responses[|w.cursors| - 1].value)).stop
            && w.items == Gathered(known, responses[..|w.cursors| - 1])
                          + ScanPage(known, Entries(responses[|w.cursors| - 1].value)).items
  {
    var w := WalkAll(known, responses);
    WalkEnd(known, responses, "");
    var n := |w.cursors|;
    var last := responses[n - 1];
    assert Verdict(known, last) == Boundary;
    assert last.Success?;
    var s := ScanPage(known, Entries(last.value));
    assert s.stop;
    assert PageItems(known, last) == s.items;
    WalkItems(known, responses, "");
    GatheredUpTo(known, responses, n);
  }

  /** The records of the first `n` responses: those of the first `n - 1`, then the n-th's. */
  lemma GatheredUpTo(known: set<int>, rs: seq<Response>, n: nat)
    requires 0 < n <= |rs|
    ensures Gathered(known, rs[..n]) == Gathered(known, rs[..n - 1]) + PageItems(known, rs[n - 1])
  {
    assert rs[..n] == rs[..n - 1] + [rs[n - 1]];
    GatheredLast(known, rs[..n - 1], rs[n - 1]);
  }

  /** The records of a run of responses, then those of one more response. */
  lemma GatheredLast(known: set<int>, rs: seq<Response>, r: Response)
    ensures Gathered(known, rs + [r]) == Gathered(known, rs) + PageItems(known, r)
  {
    GatheredAppend(known, rs, [r]);
    assert [r][1..] == [];
    assert Gathered(known, [r]) == PageItems(known, r) + [];
    assert PageItems(known, r) + [] == PageItems(known, r);
  }

  /**
   * The first request goes to the bare endpoint; every later one appends the
   * cursor of the page before it.
   */
  lemma RequestsFollowCursors(known: set<int>, responses: seq<Response>)
    requires |responses| > 0
    ensures RequestUrl(WalkAll(known, responses).cursors[0]) == BaseUrl
    ensures forall k :: 0 < k < |WalkAll(known, responses).cursors| ==>
              responses[k - 1].Success? &&
              RequestUrl(WalkAll(known, responses).cursors[k])
              == BaseUrl + "&Cursor=" + NextCursor(responses[k - 1].value)
  {
    var w := WalkAll(known, responses);
    WalkCursors(known, responses, "");
    forall k | 0 < k < |w.cursors|
      ensures responses[k - 1].Success? && RequestUrl(w.cursors[k]) == BaseUrl + "&Cursor=" + NextCursor(responses[k - 1].value)
    {
      assert Proceeds(known, responses[k - 1]);
    }
  }

  /** Once the walk has ended, responses after its last request are never consulted. */
  lemma {:induction false} WalkIgnoresLaterResponses(known: set<int>, rs: seq<Response>, more: seq<Response>, cursor: string)
    requires WalkFrom(known, rs, cursor).end != Unfinished
    ensures WalkFrom(known, rs + more, cursor) == WalkFrom(known, rs, cursor)
    decreases |rs|
  {
    assert (rs + more)[0] == rs[0];
    if Proceeds(known, rs[0]) {
      assert (rs + more)[1..] == rs[1..] + more;
      WalkIgnoresLaterResponses(known, rs[1..], more, NextCursor(rs[0].value));
    }
  }

  /**
   * A page without entries (its `data` missing, `null` or empty) adds nothing
   * and does not stop the walk, which goes on to the page's cursor.
   */
  lemma EmptyPageAdvances(known: set<int>, responses: seq<Response>, cursor: string)
    requires |responses| > 0 && responses[0].Success?
    requires Entries(responses[0].value) == [] && HasNext(responses[0].value)
    ensures var rest := WalkFrom(known, responses[1..], NextCursor(responses[0].value));
            WalkFrom(known, responses, cursor) == Walk(rest.items, [cursor] + rest.cursors, rest.end)
  {
  }

  /**
   * If the first record a walk collects has an id in `known'`, the same
   * responses walked with `known'` stop at that record and collect nothing.
   */
  lemma {:induction false} FirstItemKnownStops(known: set<int>, known': set<int>, rs: seq<Response>, cursor: string)
    requires |WalkFrom(known, rs, cursor).items| > 0
    requires WalkFrom(known, rs, cursor).items[0].id in known'
    ensures WalkFrom(known', rs, cursor).items == []
    ensures WalkFrom(known', rs, cursor).end == Boundary
    decreases |rs|
  {
    var w := WalkFrom(known, rs, cursor);
    var r := rs[0];
    assert r.Success?;
    var es := Entries(r.value);
    var s := ScanPage(known, es);
    if |s.items| > 0 {
      assert w.items[0] == s.items[0] == Project(es[0]);
      assert ScanPage(known', es) == Scan([], true);
    } else {
      assert !s.stop;
      assert |es| == 0;
      assert Proceeds(known, r);
      FirstItemKnownStops(known, known', rs[1..], NextCursor(r.value));
    }
  }

  /**
   * The source's loop as written: a `do ... while (cursor && !stop)` around a
   * `for` loop that breaks at the first known id. It computes the walk.
   */
  method WalkPages(known: set<int>, responses: seq<Response>) returns (w: Walk)
    ensures w == WalkAll(known, responses)
  {
    var cursor := "";
    var items: seq<Item> := [];
    var cursors: seq<string> := [];
    var k := 0;
    assert responses[0..] == responses;
    while true
      invariant 0 <= k <= |responses|
      invariant WalkAll(known, responses) == Extend(items, cursors, WalkFrom(known, responses[k..], cursor))
      decreases |responses| - k
    {
      if k == |responses| {
        return Walk(items, cursors, Unfinished);
      }
      var r := responses[k];
      WalkStep(known, responses, k, cursor);
      if r.Failure? {
        return Walk(items, cursors + [cursor], Failed(r.error));
      }
      var found, stop := ScanEntries(known, Entries(r.value));
      ExtendTwice(items, cursors, found, [cursor], WalkFrom(known, responses[k + 1..], NextCursor(r.value)));
      items := items + found;
      cursors := cursors + [cursor];
      cursor := NextCursor(r.value);
      if !(HasNext(r.value) && !stop) {
        return Walk(items, cursors, if stop then Boundary else Exhausted);
      }
      k := k + 1;
    }
  }

  /** One step of the walk: the request at `k`, then the rest when its response proceeds. */
  lemma WalkStep(known: set<int>, rs: seq<Response>, k: nat, cursor: string)
    requires k < |rs|
    ensures WalkFrom(known, rs[k..], cursor) ==
              if Proceeds(known, rs[k]) then Extend(PageItems(known, rs[k]), [cursor], WalkFrom(known, rs[k + 1..], NextCursor(rs[k].value)))
              else Walk(PageItems(known, rs[k]), [cursor], Verdict(known, rs[k]))
  {
    assert rs[k..][0] == rs[k] && rs[k..][1..] == rs[k + 1..];
  }

  /** Prefixing twice is prefixing once with the concatenations. */
  lemma ExtendTwice(a: seq<Item>, b: seq<string>, c: seq<Item>, d: seq<string>, w: Walk)
    ensures Extend(a, b, Extend(c, d, w)) == Extend(a + c, b + d, w)
  {
    assert a + (c + w.items) == (a + c) + w.items;
    assert b + (d + w.cursors) == (b + d) + w.cursors;
  }

  /** The source's `for` loop over one page's entries, with its `break`. */
  method ScanEntries(known: set<int>, entries: seq<Entry>) returns (found: seq<Item>, stop: bool)
    ensures Scan(found, stop) == ScanPage(known, entries)
  {
    found := [];
    stop := false;
    var i := 0;
    assert entries[0..] == entries;
    while i < |entries|
      invariant 0 <= i <= |entries|
      invariant ScanPage(known, entries) == Prefix(found, ScanPage(known, entries[i..]))
    {
      ScanStep(known, entries, i);
      if entries[i].id in known {
        stop := true;
        break;
      }
      PrefixTwice(found, [Project(entries[i])], ScanPage(known, entries[i + 1..]));
      found := found + [Project(entries[i])];
      i := i + 1;
    }
  }

  /** A scan prefixed by the records collected before it. */
  function Prefix(found: seq<Item>, s: Scan): Scan
  {
    Scan(found + s.items, s.stop)
  }

  /** One step of the scan: the entry at `i`, then the rest when its id is unknown. */
  lemma ScanStep(known: set<int>, entries: seq<Entry>, i: nat)
    requires i < |entries|
    ensures ScanPage(known, entries[i..]) ==
              if entries[i].id in known then Scan([], true)
              else Prefix([Project(entries[i])], ScanPage(known, entries[i + 1..]))
  {
    assert entries[i..][0] == entries[i] && entries[i..][1..] == entries[i + 1..];
  }

  /** Prefixing twice is prefixing once with the concatenation. */
  lemma PrefixTwice(a: seq<Item>, b: seq<Item>, s: Scan)
    ensures Prefix(a, Prefix(b, s)) == Prefix(a + b, s)
  {
    assert a + (b + s.items) == (a + b) + s.items;
  }

  /** A walk prefixed by the records and requests made before it. */
  function Extend(items: seq<Item>, cursors: seq<string>, w: Walk): Walk
  {
    Walk(items + w.items, cursors + w.cursors, w.end)
  }
}
