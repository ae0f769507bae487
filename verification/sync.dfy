/**
 * `main` as a whole: load the known emotes, walk the pages, and write the
 * new records in front of the old ones when there is at least one.
 * The file is a value going in and a value coming out.
 */
module Sync {
  import opened Results
  import opened Catalog
  import opened Fetcher
  import opened Walker

  /** The state of `emotes.json`. */
  datatype Stored =
    | Missing                  // no file: start from nothing
    | Unreadable               // `JSON.parse` throws, or the parsed value is not an array
    | Parsed(items: seq<Item>)

  /** The records the run starts from: none when the file is missing. */
  function Existing(stored: Stored): (items: seq<Item>)
    ensures stored.Parsed? ==> items == stored.items
    ensures !stored.Parsed? ==> items == []
  {
    if stored.Parsed? then stored.items else []
  }

  /**
   * The write decision: the new records followed by the existing ones,
   * or nothing to write when no record is new.
   */
  function Merge(newItems: seq<Item>, existing: seq<Item>): (r: Option<seq<Item>>)
    ensures r.Some? <==> |newItems| > 0
    ensures r.Some? ==> |r.value| == |newItems| + |existing|
    ensures r.Some? ==> r.value[..|newItems|] == newItems && r.value[|newItems|..] == existing
    ensures r.Some? ==> multiset(r.value) == multiset(newItems) + multiset(existing)
  {
    if |newItems| > 0 then Some(newItems + existing) else None
  }

  /** The network answers every attempt of every page request. */
  predicate Answered(network: seq<seq<Attempt>>)
  {
    forall k :: 0 <= k < |network| ==> |network[k]| > Retries
  }

  /** What each page request settles to, `network[k]` being the attempts of the k-th. */
  function Settle(network: seq<seq<Attempt>>): (rs: seq<Response>)
    requires Answered(network)
    ensures |rs| == |network|
    ensures forall k :: 0 <= k < |network| ==> rs[k] == FetchPage(network[k], Retries).result
    decreases |network|
  {
    if |network| == 0 then []
    else [FetchPage(network[0], Retries).result] + Settle(network[1..])
  }

  /** How a run ends. */
  datatype Status =
    | Wrote(added: nat)          // "Added <n> new emotes."
    | NothingNew                 // "No new emotes found."
    | LoadFailed                 // `JSON.parse` threw: `main` rejects before any request
    | FetchFailed(error: FetchError)  // `fetchPage` raised: `main` rejects, nothing is written
    | Pending                    // the network given ran out before the walk ended

  /** A run's status and the state of the file after it. */
  datatype Report = Report(status: Status, after: Stored)

  /** One run of `main` against the file `stored` and the network `network`. */
  function Run(stored: Stored, network: seq<seq<Attempt>>): (r: Report)
    requires Answered(network)
    ensures !r.status.Wrote? ==> r.after == stored
    ensures stored.Unreadable? <==> r.status == LoadFailed
    ensures r.status.Wrote? ==>
              && r.status.added > 0
              && r.after.Parsed?
              && |r.after.items| == r.status.added + |Existing(stored)|
              && r.after.items[r.status.added..] == Existing(stored)
              && (forall i :: 0 <= i < r.status.added ==> r.after.items[i].id !in Ids(Existing(stored)))
  {
    if stored.Unreadable? then Report(LoadFailed, stored)
    else
      var existing := Existing(stored);
      var known := Ids(existing);
      var w := WalkAll(known, Settle(network));
      WalkItemsAreNew(known, Settle(network));
      match w.end
      case Failed(e) => Report(FetchFailed(e), stored)
      case Unfinished => Report(Pending, stored)
      case _ =>
        match Merge(w.items, existing)
        case None => Report(NothingNew, stored)
        case Some(updated) => Report(Wrote(|w.items|), Parsed(updated))
  }

  /**
   * A run writes exactly when its walk ends at a known id or an empty cursor
   * with at least one new record, and then writes those records, in walk
   * order, in front of the existing ones.
   */
  lemma RunWritesWalk(stored: Stored, network: seq<seq<Attempt>>)
    requires Answered(network)
    requires !stored.Unreadable?
    ensures var w := WalkAll(Ids(Existing(stored)), Settle(network));
            var r := Run(stored, network);
            && (r.status.Wrote? <==> (w.end == Boundary || w.end == Exhausted) && |w.items| > 0)
            && (r.status.Wrote? ==> r.after == Parsed(w.items + Existing(stored)))
            && (r.status == NothingNew <==> (w.end == Boundary || w.end == Exhausted) && w.items == [])
            && (w.end.Failed? <==> r.status.FetchFailed?)
            && (w.end.Failed? ==> r.status == FetchFailed(w.end.error))
            && (w.end == Unfinished <==> r.status == Pending)
  {
  }

  /**
   * Running again against the same network after a run that wrote finds
   * nothing new: its first request meets the first record written.
   */
  lemma RerunAddsNothing(stored: Stored, network: seq<seq<Attempt>>)
    requires Answered(network)
    requires Run(stored, network).status.Wrote?
    ensures Run(Run(stored, network).after, network) == Report(NothingNew, Run(stored, network).after)
  {
    var rs := Settle(network);
    var known := Ids(Existing(stored));
    var w := WalkAll(known, rs);
    RunWritesWalk(stored, network);
    var after := Run(stored, network).after;
    assert after.items[0] == w.items[0];
    assert w.items[0].id in Ids(Existing(after));
    FirstItemKnownStops(known, Ids(Existing(after)), rs, "");
  }
}
