/** Concrete runs that pin down the edge cases of the walk. */
module Scenarios {
  import opened Results
  import opened Catalog
  import opened Fetcher
  import opened Walker
  import opened Sync

  /** An entry that differs from the others only in its id. */
  function Emote(id: int): Entry
  {
    Entry(id, Present("emote"), Present("creator"), Null, Absent)
  }

  /** A request answered 200 at the first attempt. */
  function Serves(p: Page): seq<Attempt>
  {
    [Answered(200, Json(p)), Unreachable, Unreachable, Unreachable]
  }

  /**
   * The same id on two pages of one walk is collected twice: ids found are
   * not added to the known set.
   */
  lemma RepeatedIdIsCollectedTwice()
    ensures var p1 := Page(Present([Emote(7)]), Present("next"));
            var p2 := Page(Present([Emote(7)]), Null);
            WalkAll({}, [Success(p1), Success(p2)])
            == Walk([Project(Emote(7)), Project(Emote(7))], ["", "next"], Exhausted)
  {
  }

  /** Requests answered at the first attempt settle to their pages. */
  lemma ServedPagesSettle(p1: Page, p2: Page)
    ensures Settle([Serves(p1), Serves(p2)]) == [Success(p1), Success(p2)]
  {
    FirstSuccessWins(Serves(p1), Retries, 0);
    FirstSuccessWins(Serves(p2), Retries, 0);
  }

  /** So a run from no file writes two records with id 7. */
  lemma RepeatedIdIsKeptTwice()
    ensures var p1 := Page(Present([Emote(7)]), Present("next"));
            var p2 := Page(Present([Emote(7)]), Null);
            Run(Missing, [Serves(p1), Serves(p2)]) == Report(Wrote(2), Parsed([Project(Emote(7)), Project(Emote(7))]))
  {
    var p1 := Page(Present([Emote(7)]), Present("next"));
    var p2 := Page(Present([Emote(7)]), Null);
    var network := [Serves(p1), Serves(p2)];
    ServedPagesSettle(p1, p2);
    assert Ids(Existing(Missing)) == {};
    RepeatedIdIsCollectedTwice();
    RunWritesWalk(Missing, network);
    var items := [Project(Emote(7)), Project(Emote(7))];
    assert Existing(Missing) == [] && items + [] == items;
  }

  /**
   * Page 2 holds one new id followed by three known ones: the walk keeps the
   * new one, drops the rest of the page and never requests page 3.
   */
  lemma StopsAtFirstKnownId()
    ensures var p1 := Page(Present([Emote(1)]), Present("a"));
            var p2 := Page(Present([Emote(2), Emote(10), Emote(11), Emote(12)]), Present("b"));
            var p3 := Page(Present([Emote(3)]), Absent);
            WalkAll({10, 11, 12}, [Success(p1), Success(p2), Success(p3)])
            == Walk([Project(Emote(1)), Project(Emote(2))], ["", "a"], Boundary)
  {
  }

  /** A request that always meets HTTP 500 fails after four attempts with that status. */
  lemma ServerErrorExhaustsBudget()
    ensures FetchPage([Answered(500, Malformed), Answered(500, Malformed), Answered(500, Malformed), Answered(500, Malformed)], Retries)
            == Fetched(Failure(HttpStatus(500)), 4)
  {
  }
}
