/**
 * `fetchPage`: one GET of the search endpoint, retried on any failure while
 * the retry budget lasts. The network is abstracted to the outcome of each
 * attempt; the delay between attempts has no effect on the data.
 */
module Fetcher {
  import opened Results
  import opened Catalog

  /** The search endpoint every page request starts from. */
  const BaseUrl: string :=
    "https://catalog.roblox.com/v1/search/items/details?Category=12&Subcategory=38&Limit=30&SortType=3"

  /** The default `retries` argument, the one every page request of a run uses. */
  const Retries: nat := 3

  /** The URL requested for a cursor: the bare endpoint for the empty cursor. */
  function RequestUrl(cursor: string): (url: string)
    ensures BaseUrl <= url
    ensures cursor == "" <==> url == BaseUrl
    ensures cursor != "" ==> url[|BaseUrl|..] == "&Cursor=" + cursor
  {
    if cursor != "" then BaseUrl + "&Cursor=" + cursor else BaseUrl
  }

  /** Distinct cursors are requested through distinct URLs. */
  lemma RequestUrlInjective(a: string, b: string)
    requires RequestUrl(a) == RequestUrl(b)
    ensures a == b
  {
    if a != "" && b != "" {
      var suffix := RequestUrl(a)[|BaseUrl|..];
      assert suffix == "&Cursor=" + a == "&Cursor=" + b;
      assert a == suffix[8..] == b;
    }
  }

  /** The body of a response as `res.json()` sees it. */
  datatype Body = Malformed | Json(page: Page)

  /** What the network does with one attempt. */
  datatype Attempt =
    | Unreachable                          // `fetch` itself rejects
    | Answered(status: int, body: Body)    // an HTTP response arrives

  /** Why an attempt failed. */
  datatype FetchError =
    | NetworkError          // the rejection of `fetch`
    | HttpStatus(code: int) // `HTTP <status>` for a response that is not ok
    | InvalidJson           // the rejection of `res.json()`

  /** One attempt: only a 2xx response whose body parses yields a page. */
  function AttemptResult(a: Attempt): (r: Result<Page, FetchError>)
    ensures r.Success? <==> a.Answered? && 200 <= a.status <= 299 && a.body.Json?
    ensures r.Success? ==> r.value == a.body.page
    ensures a.Answered? && !(200 <= a.status <= 299) ==> r == Failure(HttpStatus(a.status))
  {
    match a
    case Unreachable => Failure(NetworkError)
    case Answered(status, body) =>
      if !(200 <= status <= 299) then Failure(HttpStatus(status))
      else if body.Malformed? then Failure(InvalidJson)
      else Success(body.page)
  }

  /** What `fetchPage` settles to, and how many attempts it made. */
  datatype Fetched = Fetched(result: Result<Page, FetchError>, attempts: nat)

  /**
   * `fetchPage(cursor, retries)` with `outcomes[k]` the outcome of its k-th
   * attempt. Every attempt goes to the same URL, `RequestUrl(cursor)`: the
   * retry passes the cursor on unchanged, so the cursor is left out here.
   * `outcomes` holds one outcome for each of the `retries + 1` attempts the
   * budget allows; later ones are never consulted.
   */
  function FetchPage(outcomes: seq<Attempt>, retries: nat): (f: Fetched)
    requires |outcomes| > retries
    ensures 1 <= f.attempts <= retries + 1
    ensures f.result == AttemptResult(outcomes[f.attempts - 1])
    ensures forall j :: 0 <= j < f.attempts - 1 ==> AttemptResult(outcomes[j]).Failure?
    ensures f.result.Failure? ==> f.attempts == retries + 1
    decreases retries
  {
    var first := AttemptResult(outcomes[0]);
    if first.Success? || retries == 0 then Fetched(first, 1)
    else
      var rest := FetchPage(outcomes[1..], retries - 1);
      Fetched(rest.result, rest.attempts + 1)
  }

  /** The first successful attempt within the budget decides the result. */
  lemma FirstSuccessWins(outcomes: seq<Attempt>, retries: nat, k: nat)
    requires |outcomes| > retries && k <= retries
    requires AttemptResult(outcomes[k]).Success?
    requires forall j :: 0 <= j < k ==> AttemptResult(outcomes[j]).Failure?
    ensures FetchPage(outcomes, retries) == Fetched(Success(outcomes[k].body.page), k + 1)
  {
  }

  /** When every attempt of the budget fails, the last attempt's error is raised. */
  lemma AllAttemptsFail(outcomes: seq<Attempt>, retries: nat)
    requires |outcomes| > retries
    requires forall j :: 0 <= j <= retries ==> AttemptResult(outcomes[j]).Failure?
    ensures FetchPage(outcomes, retries) == Fetched(AttemptResult(outcomes[retries]), retries + 1)
  {
  }

  /** Outcomes past the budget never change what `fetchPage` settles to. */
  lemma {:induction false} FetchIgnoresLaterOutcomes(outcomes: seq<Attempt>, more: seq<Attempt>, retries: nat)
    requires |outcomes| > retries
    ensures FetchPage(outcomes + more, retries) == FetchPage(outcomes, retries)
  {
    assert (outcomes + more)[0] == outcomes[0];
    if retries > 0 && AttemptResult(outcomes[0]).Failure? {
      assert (outcomes + more)[1..] == outcomes[1..] + more;
      FetchIgnoresLaterOutcomes(outcomes[1..], more, retries - 1);
    }
  }

  /** With the default budget a page request makes at most four attempts. */
  lemma DefaultBudget(outcomes: seq<Attempt>)
    requires |outcomes| > Retries
    ensures FetchPage(outcomes, Retries).attempts <= 4
    ensures FetchPage(outcomes, Retries).result.Failure? ==>
              FetchPage(outcomes, Retries) == Fetched(AttemptResult(outcomes[3]), 4)
  {
  }
}
