# snipe-x emote poller: a Dafny model

`fetch.js` polls the Roblox catalog search endpoint for emotes. It reads the
records already saved in `emotes.json` and collects their ids into a known set.
It then walks the result pages newest first and follows each page's
`nextPageCursor`. Every entry whose id is not known becomes a record. The walk
stops at the first known id. At the end the new records are written in front of
the old ones, but only when at least one record is new. Each page request goes
through `fetchPage`, which retries a failed attempt up to three times.

The model is purely functional. The network, the file and the delays become values.

- `results.dfy`, module `Results`: `Result` for a settled promise and `Option`.
- `catalog.dfy`, module `Catalog`: the JSON shapes.
  - A member is `Absent`, `Null` or `Present`.
  - An entry has `id`, `name`, `creatorName`, `price` and `created`. A page has `data` and `nextPageCursor`.
  - `Project` makes the saved record. It copies five fields and renames `creatorName` to `creator`.
- `fetcher.dfy`, module `Fetcher`: `fetchPage`.
  - Each attempt is an `Attempt`: unreachable, or answered with a status and a body that may not parse.
  - `FetchPage` is given the outcome of each attempt that the `retries + 1` budget allows.
- `walker.dfy`, module `Walker`: the `do ... while` walk of `main`.
  - `ScanPage` is the `for` loop over one page. `WalkFrom` and `WalkAll` are the walk.
  - The walk is given `responses[k]`, what the k-th `fetchPage` call settles to.
  - `WalkPages` and `ScanEntries` are the loops as written in the source. They are proved equal to the functional definitions.
- `sync.dfy`, module `Sync`: a whole run.
  - `Stored` is the state of `emotes.json` before and after the run.
  - `Run` chains the pieces: load, settle each request through `FetchPage`, walk, and decide whether to write.
- `scenarios.dfy`, module `Scenarios`: concrete runs for the edge cases.

Ids found during the walk are never added to the known set (fetch.js:52 only
pushes). So the same id on two pages of one run, or twice on one page, is
collected twice. The model does not claim the new records are distinct.
`Scenarios.RepeatedIdIsKeptTwice` shows a run that writes two records with id 7.

How `main` ends in the cases that do not write:

- An `emotes.json` that does not parse makes `main` reject before any request (`LoadFailed`). Nothing is written.
- A page request that still fails after its retries makes `main` reject (`FetchFailed`). The records collected so far are discarded and nothing is written.
- The first known id always ends the walk, even when the page has a next cursor.
- The wait between attempts is a constant 2000 ms. It does not grow with the attempt number.
- The written file is a bare JSON array of records.

## Model

| member | source | states |
|---|---|---|
| Fetcher.RequestUrl | fetch.js:3-9 | The empty cursor requests the bare endpoint. A non-empty cursor is appended to it as `&Cursor=<cursor>`. |
| Fetcher.RequestUrlInjective | fetch.js:9 | Two cursors that give the same URL are equal, so each request names its cursor unambiguously. |
| Catalog.Project | fetch.js:52-58 | The saved record keeps everything of its entry: `Unproject` recovers the entry. So `id`, `name`, `price` and `created` are copied unchanged and `creatorName` is saved as `creator`. `Walker.ScanPage`'s ensures say which entries are projected. |
| Catalog.ProjectInjective | fetch.js:52-58 | Two entries saved as the same record are the same entry. |
| Catalog.Entries | fetch.js:46 | A page is scanned over its `data` array when one is present. A missing or `null` `data` gives no entries. |
| Catalog.NextCursor | fetch.js:61-64 | The cursor read from a page is non-empty exactly when the page's `nextPageCursor` is truthy (`HasNext`). It is then the page's own cursor. |
| Catalog.Ids | fetch.js:31-36 | The known set holds the id of every saved record and nothing else. |
| Fetcher.AttemptResult | fetch.js:12-19 | An attempt yields a page exactly when the response status is 2xx and the body parses. A non-2xx status fails with `HTTP <status>`. |
| Fetcher.FetchPage | fetch.js:8-28 | It makes between 1 and `retries + 1` attempts. Every attempt before the last one failed. The result is the last attempt's outcome. A failure means the whole budget was spent. |
| Fetcher.FirstSuccessWins | fetch.js:18-24 | When attempt k is the first success within the budget, the call returns that attempt's page after k + 1 attempts. |
| Fetcher.AllAttemptsFail | fetch.js:20-26 | When all `retries + 1` attempts fail, the call raises the last attempt's error after exactly `retries + 1` attempts. |
| Fetcher.FetchIgnoresLaterOutcomes | fetch.js:21-26 | Outcomes beyond the budget never change the result: no attempt is made after the budget is spent. |
| Fetcher.DefaultBudget | fetch.js:8-26 | With the default `retries = 3`, a request makes at most 4 attempts. If it fails, it made 4 and raised the fourth attempt's error. |
| Walker.ScanPage | fetch.js:46-59 | The records are the projections of the page's leading entries with unknown ids, in order. The stop flag is set exactly when an entry is left over, and that entry's id is known. |
| Walker.StopIffKnownId | fetch.js:46-50 | The stop flag is set if and only if some entry of the page has a known id. |
| Walker.ProceedsIff | fetch.js:46-64 | The loop requests another page exactly when the response is a page, its cursor is non-empty, and none of its entries has a known id. |
| Walker.ScanEntries | fetch.js:46-59 | The `for` loop with its `break` computes the same records and stop flag as `ScanPage`. |
| Walker.WalkFrom | fetch.js:43-64 | The walk makes at most one request per response given and at least one if any is given. Its first request carries the starting cursor. |
| Walker.WalkCursors | fetch.js:39-64 | Request k + 1 is made only when page k had no known id and a non-empty cursor, and it carries that cursor. |
| Walker.WalkEnd | fetch.js:43-64 | The walk ends at the first page that fails, holds a known id or has no cursor, and its end reason says which. Otherwise it ends only when the responses run out. |
| Walker.WalkItems | fetch.js:43-61 | The walk's records are those of the pages it requested, concatenated page by page in request order. |
| Walker.WalkAll | fetch.js:39-44 | `main`'s first request carries the empty cursor, so it goes to the bare endpoint. |
| Walker.BoundaryDropsRestOfPage | fetch.js:46-64 | A walk that ends at a known id keeps all records of the earlier pages. From the last page it keeps only the records before that page's first known id. No later page is requested. |
| Walker.GatheredAppend | fetch.js:43-59 | Records from consecutive runs of pages concatenate in page order. |
| Walker.GatheredIdsUnknown | fetch.js:46-51 | No collected record has an id from the known set. |
| Walker.WalkItemsAreNew | fetch.js:32-59 | Every record of the walk has an id that was not among the known ids when the walk started. |
| Walker.RequestsFollowCursors | fetch.js:39-64 | The first request goes to the bare endpoint. Each later request appends the previous page's `nextPageCursor`. |
| Walker.WalkIgnoresLaterResponses | fetch.js:61-64 | Once the walk has ended, appending further responses does not change it. No later page is requested. |
| Walker.EmptyPageAdvances | fetch.js:46-64 | A page whose `data` is missing, `null` or empty adds nothing and does not stop the walk. The next request uses that page's cursor. |
| Walker.FirstItemKnownStops | fetch.js:47-50 | If the first record a walk collects is known to a second walk over the same responses, the second walk collects nothing and ends at that entry. |
| Walker.WalkPages | fetch.js:39-64 | The `do ... while (cursor && !stop)` loop as written computes `WalkAll`: the same records, requests and end. |
| Sync.Merge | fetch.js:66-68 | Something is written exactly when some record is new. What is written is the new records followed by the existing ones, each unchanged and in order. |
| Sync.Existing | fetch.js:31-35 | The run starts from the saved records when the file parsed, and from no records when the file is missing. |
| Sync.Settle | fetch.js:44 | The k-th page request settles to what `FetchPage` with the default three retries gives for that request's attempts. |
| Sync.Run | fetch.js:30-72 | A run that does not write leaves the file unchanged. A file that does not parse is exactly the `LoadFailed` case. A run that writes adds at least one record. All added records come first and have ids not in the old file, and the old records follow unchanged. |
| Sync.RunWritesWalk | fetch.js:66-72 | A run writes exactly when its walk ends at a known id or an empty cursor with new records, and it writes those records before the existing ones. With no new records it writes nothing. A fetch failure is reported as one. |
| Sync.RerunAddsNothing | fetch.js:34-72 | Running again against the same network after a run that wrote finds nothing new and leaves the file as the first run wrote it. |
| Scenarios.RepeatedIdIsCollectedTwice | fetch.js:46-58 | Take one id on two consecutive pages with no known ids. The walk collects it once per page and ends at the second page's missing cursor. |
| Scenarios.RepeatedIdIsKeptTwice | fetch.js:46-58 | One id on two pages of a run is written twice. The new records are not deduplicated among themselves. |
| Scenarios.StopsAtFirstKnownId | fetch.js:43-64 | Take a second page with one new id followed by three known ids. The walk keeps that one record, drops the rest of the page and never requests a third page. |
| Scenarios.ServerErrorExhaustsBudget | fetch.js:18-26 | A request that always meets HTTP 500 fails with `HTTP 500` after four attempts. |

## Left out

- The HTTP request itself, the `User-Agent` header and `res.json()` are out of scope. Each attempt is an `Attempt` value: unreachable, or a status with a body that parsed or did not.
- `existsSync`, `readFileSync`, `writeFileSync`, `JSON.parse` and `JSON.stringify` are out of scope. The file is a `Stored` value going in and coming out. Pretty-printing has no effect on the data.
- The `setTimeout` delays (2000 ms between attempts, 1250 ms between pages) and all `console.log` output are timing and logging only.
- `main().catch(console.error)` is process plumbing. A rejection of `main` is the `LoadFailed` or `FetchFailed` status.
- A server whose cursors never run out makes the source loop forever. The model walks a finite sequence of responses and reports `Pending` when that sequence runs out before the walk ends.
- Fetcher.FetchPage: takes no cursor. The retry passes the cursor on unchanged, so every attempt requests `RequestUrl(cursor)`. Its contract therefore does not state the URL.
- Sync.Run: the network must answer all `retries + 1` attempts of every request (`Answered`). The outcome list covers every attempt the budget allows. The source itself needs no such condition.
- JSON values of unexpected types are not modelled: a non-integer `id`, a `data` that is not an array, a `null` response body, or saved array elements that are not records. A 2xx body that parses to an array, number, string or boolean has no `data` and no `nextPageCursor`. It can be written as `Json(Page(Absent, Absent))`: it adds nothing and ends the walk. A `null` body makes `data.data` throw, which is not modelled. Saved elements without an `id` add `undefined` to the known set. The model's ids are integers, so that value is not representable.
- Prices are integers. The source copies `price` without looking at it, so its type does not matter.
