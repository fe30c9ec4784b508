# Zendesk-to-knowledge-base import: a Dafny model of its core

The repository is a small Node.js service (`app.js`) that lists help-center
articles (by crawling a sitemap or paging the help-center API), fetches each
article, converts it to text, writes it to a staging directory, and uploads it
to a knowledge-base endpoint through a queue. A process-wide failure counter
stops the run once too many failures happen.

This project models the sequential logic of that pipeline:

- **Failure tracker** (`tracker.dfy`, module `Tracker`): `failureCount` and
  `shouldContinue` as an immutable `RunState`, `handleFailure`, the success
  branch of the queue worker, and the reset at run start. `MAX_FAILURES` is an
  `Option<nat>`: `None` stands for a missing or non-numeric environment value,
  for which the comparison is always false.
- **Listing filters** (`listing.dfy`, module `Listing`): the filter, map and
  `shift` of `parseSitemap` and the filter and map of `getAllArticles`.
  Timestamps are integers and the recency cutoff is a parameter. `force` is a
  `ForceArg`, since only the boolean `true` forces.
- **Staging** (`staging.dfy`, module `Staging`): the file name (the last path
  segment plus `.txt`), the article id of `/\/(\d+)-/` (leftmost match,
  greedy digit group), the rule that the body must be longer than 3
  characters, the staged content `title + "\n\n" + body`, and the task handed
  to the queue. String helpers (`includes`, `lastIndexOf`, `\d`) are in
  `strings.dfy`, module `Strings`.
- **Run orchestrator** (`orchestrator.dfy`, module `Orchestrator`): the main
  loop of `fetchZendeskArticles` as a fold over the listed articles:
  - the `shouldContinue` check before each article;
  - the task buffer, flushed at 5 tasks or at the last index;
  - the wait for each flushed batch to drain;
  - staging exceptions counted as failures;
  - the returned string.

  The loop takes each article's staging outcome as input. It takes the upload
  outcome of each batch, in completion order, as a function
  `uploads(batch, slot)`, which stands in for the queue's concurrency.

External calls become inputs. Each listed `Article` carries:
- its fetch result (the converted, trimmed title and body, or a failure);
- its write result.

The listing itself is `None` when it threw.

## Model

| member | source | states |
|---|---|---|
| `Tracker.HandleFailure` | app.js:133-138 | the count goes up by one; the flag drops once the new count reaches `MAX_FAILURES`, is otherwise unchanged, and is never raised |
| `Tracker.HandleSuccess` | app.js:142-144 | a resolved upload zeroes the count and leaves the flag as it was |
| `Tracker.Record` | app.js:140-150 | a settled upload either zeroes the count (success) or adds one to it (failure), and never raises the flag |
| `Tracker.RecordAll` | app.js:140-150 | once the flag is down, no sequence of task outcomes raises it again |
| `Tracker.RecordAllFromInitial` | app.js:133-144 | from the run-start reset, the count equals the failures since the last success, and the flag is down exactly when some failure brought that streak to `MAX_FAILURES`, whatever successes follow it |
| `Tracker.RunningBelowLimit` | app.js:133-138 | while the flag is up, a non-zero count is below the limit |
| `Tracker.SuccessDoesNotRearm` | app.js:142-144 | a success after tripping gives count 0 with the flag still down, so the flag is not `failureCount >= MAX_FAILURES` |
| `Tracker.NoLimitNeverTrips` | app.js:135 | with no usable `MAX_FAILURES` the run never trips |
| `Strings.ContainsIff` | app.js:172 | `includes` holds exactly when the filter occurs at some position of the location |
| `Strings.Contains` | app.js:172 | the empty path filter is in every location, and no filter longer than the location is in it |
| `Strings.LastIndexOf` | app.js:332 | `lastIndexOf` gives the last position holding the character, or -1 when there is none |
| `Strings.AfterLast` | app.js:332 | the text after the last `/` is the longest suffix without `/`, preceded by a `/` unless it is the whole URL |
| `Strings.AfterLastOfJoin` | app.js:332 | whatever comes before the last `/` is cut off |
| `Strings.DigitRun` | app.js:330 | the greedy `\d+` run is all digits and ends at a non-digit or at the end |
| `Listing.KeptLocs` | app.js:170-175 | the filter keeps at most one location per entry, and every kept location contains the path filter |
| `Listing.ArticleUrls` | app.js:221-226 | the API filter lists at most one URL per article |
| `Listing.ParseSitemap` | app.js:170-177 | the result is the kept locations without the first one; `shift` on an empty list leaves it empty |
| `Listing.KeptLocsMembership` | app.js:170-175 | a location is kept exactly when some entry with it was modified at or after the cutoff (or `force` is `true`) and contains the path filter |
| `Listing.KeptLocsAppend` | app.js:170-175 | filtering keeps the listing order: filtering a concatenation concatenates the filtered parts |
| `Listing.ParseSitemapDropsFirstKept` | app.js:170-177 | the URL `shift` removes is the first one the filter keeps; all later kept ones are returned |
| `Listing.ArticleUrlsMembership` | app.js:214-226 | an API article is listed exactly when it was edited at or after the cutoff or `force` is `true` |
| `Listing.ForcedListsEverything` | app.js:214-226 | with `force` the boolean `true`, every article is listed, in order |
| `Listing.OnlyBooleanTrueForces` | app.js:214-216 | any other `force` (the string "true" of an environment variable included) filters like `false` |
| `Listing.SitemapWithoutFilterIsApiListing` | app.js:221-226 | both listings use the same recency rule: the sitemap filter with an empty path filter keeps exactly what the API filter keeps |
| `Staging.Filename` | app.js:332-334 | the name is a suffix of the URL with no `/`, plus `.txt` |
| `Staging.FilenameOfPath` | app.js:332-334 | for `path/segment` the name is `segment.txt` |
| `Staging.MatchesAtIff` | app.js:330 | the greedy test at a position agrees with the regular expression there, and the captured digit group is the only one possible |
| `Staging.FirstMatch` | app.js:330-331 | finds the leftmost matching position, or reports that none exists |
| `Staging.ArticleId` | app.js:330-335 | a found id is a non-empty string of digits |
| `Staging.ArticleIdIsLeftmostMatch` | app.js:330-335 | an id is found exactly when `/<digits>-` occurs; it is the digit group of the leftmost occurrence |
| `Staging.Content` | app.js:362-365 | the staged content is the title, then a blank line, then the body |
| `Staging.SplitContent` | app.js:362-365 | what is read back from a staged file reassembles into that file |
| `Staging.ContentRoundTrip` | app.js:353-365 | for a title with no blank line in it (trimmed), reading the staged file back gives the title and the body |
| `Staging.Stage` | app.js:329-388 | a returned task always comes with its written file, under the task's file name; returning nothing writes nothing |
| `Staging.StageOutcomes` | app.js:329-388 | a task only for a URL with an id, a fetched body longer than 3, a successful write and the flag still up; it carries the file name and credentials unchanged and the file holds exactly the content; a missing id or short body returns nothing and records no failure; fetch errors, write errors and a lowered flag throw |
| `Orchestrator.StageAll` | app.js:283 | each article is staged once, in list order, with the flag up |
| `Orchestrator.StageNextAccounts` | app.js:283-297 | staging one article moves to the next index, pushes nothing, adds its task to the buffer and its file to the staged files, and records one failure exactly when staging throws |
| `Orchestrator.FlushKeepsTaskOrder` | app.js:287-291 | a flush pushes the whole buffer as the next batch and empties it, so no task is lost, duplicated or reordered; the tracker receives that batch's upload outcomes, and no file changes |
| `Orchestrator.ProcessCases` | app.js:283-297 | one loop body, by the flush test: a flush empties the buffer, pushes it with the new task as the next batch and records that batch's upload outcomes; otherwise the task stays buffered and only a staging exception is recorded |
| `Orchestrator.Process` | app.js:282-298 | one loop body moves to the next index and never raises the flag |
| `Orchestrator.StagingErrorCostsOneFailure` | app.js:293-298 | a staging exception costs exactly one `handleFailure`, moves on, and skips the flush test even at the last index (with `DEBUG` on, only in the corrected catch; see Findings) |
| `Orchestrator.Iterate` | app.js:275-300 | the loop ends at the end of the list or with the flag down |
| `Orchestrator.FetchZendeskArticles` | app.js:243-316 | a listing exception ends the run as an error; an empty listing returns the "No Article to fetch" message and stages nothing; any other listing returns 'KB has been updated', aborted or not (with `DEBUG` on, only in the corrected catch; see Findings) |
| `Orchestrator.ProcessAccountsForStaging` | app.js:283-291 | every task staged so far is pushed exactly once, in order, or is still buffered |
| `Orchestrator.ProcessRecordsFiles` | app.js:283-291 | every file staged so far is recorded exactly once, in order |
| `Orchestrator.ProcessRecordsSignals` | app.js:140-150 | the tracker is always the result of the staging failures and upload outcomes it received, in order |
| `Orchestrator.ProcessKeepsBatched` | app.js:284-292 | the buffer stays below 5, and is empty once the last article has been staged without an exception; each pushed batch has 1 to 5 tasks; all batches but one pushed at the last index are full |
| `Orchestrator.ProcessKeepsInv` | app.js:282-298 | one loop body preserves the whole loop invariant |
| `Orchestrator.IterateKeepsInv` | app.js:275-300 | the invariant holds when the loop stops |
| `Orchestrator.IterateIsSteps` | app.js:275-300 | the loop is the body run a number of times in a row |
| `Orchestrator.IterateStopsAtFirstTrip` | app.js:275-278 | articles are visited in list order; every check before a visited article saw the flag up; the loop stops at the first check that sees it down, and no later article is staged |
| `Orchestrator.StepsNeverRearm` | app.js:276-278 | once the flag is down it stays down for any number of further loop bodies |
| `Orchestrator.RunAccountsOnce` | app.js:267-308 | a run over a non-empty listing stops at the end of the list or with the flag down, having pushed or buffered every staged task and recorded every written file exactly once, in list order |
| `Orchestrator.RunBatchShapes` | app.js:275-300 | pushed batches hold one to five tasks, all but the last exactly five; fewer than five tasks stay buffered, and none when the last article was staged without an exception |
| `Orchestrator.RunTracker` | app.js:133-150 | the count a run leaves is the trailing run of failures it recorded, and the flag is down exactly when some failure reached the limit |
| `Orchestrator.ProcessFeedsTracker` | app.js:140-150 | one loop body hands the tracker one failure when staging threw, the outcomes of the pushed batch when it flushed, and nothing otherwise; the tracker takes exactly those signals |
| `Orchestrator.RunFeedsTracker` | app.js:133-150 | over a run (the loop from the reset over the staging outcomes of the listing), the tracker receives, article by article in list order, one failure per staging exception and the outcomes of the b-th pushed batch at the article that flushed it, and nothing else; that feed is determined by the staging outcomes and the upload outcomes alone |
| `Orchestrator.RunFlushCount` | app.js:284-291 | a run pushes exactly as many batches as flushes the staging outcomes call for |
| `Orchestrator.RunTrackerFollowsFeed` | app.js:133-150 | the tracker a run leaves is the result of the signals it was fed, in order, from the reset |
| `Orchestrator.BreakLeavesBufferUnpushed` | app.js:275-298 | with `MAX_FAILURES` 3, one task then three staging exceptions: four articles are visited, the tracker trips on the fourth, the check before the fifth breaks the loop, and the buffered task is never pushed |
| `Orchestrator.LastStagingErrorSkipsFinalFlush` | app.js:282-298 | an exception at the last index leaves the buffered task unpushed though the whole list was visited |
| `Orchestrator.ProcessAsWritten` | app.js:282-298 | the body as written can hang only at the last index with an empty buffer, and otherwise moves to the next index |
| `Orchestrator.IterateAsWritten` | app.js:275-300 | when the loop as written ends, it ends at the end of the list or with the flag down |
| `Orchestrator.ProcessAsWrittenHangsOnEmptyFlush` | app.js:287-289 | the body as written hangs exactly at a last index that yields nothing with an empty buffer; otherwise it equals the corrected body |
| `Orchestrator.AsWrittenAgreesUnlessHung` | app.js:275-300 | whenever the loop as written finishes, it finishes like the corrected loop |
| `Orchestrator.HangsOnSkippedLastArticle` | app.js:287-289 | a one-URL listing without an article id hangs as written, while the corrected run returns 'KB has been updated' |
| `Orchestrator.IterateDebugAsWritten` | app.js:275-300 | with `DEBUG` on, when the loop as written ends, it ends at the end of the list or with the flag down, and no article visited on the way threw while staging |
| `Orchestrator.FetchAsWritten` | app.js:243-316 | with `DEBUG` off, `FetchAsWritten` (which keeps the empty-flush correction) equals `FetchZendeskArticles`; a listing exception is an error; an empty listing returns the "No Article to fetch" message; any finished run over a non-empty listing returns 'KB has been updated' |
| `Orchestrator.DebugAsWrittenExitsOnStagingError` | app.js:293-297 | with `DEBUG` on, the loop as written exits exactly when the corrected loop visits an article whose staging throws, and otherwise ends as the corrected loop does |
| `Orchestrator.DebugAsWrittenRun` | app.js:293-315 | with `DEBUG` off, `FetchAsWritten` (which keeps the empty-flush correction) equals `FetchZendeskArticles`; with it on, the run ends as an error (`process.exit(1)`) exactly when the corrected run counts a staging exception |
| `Orchestrator.DebugExitsOnFailedFetch` | app.js:293-315 | one article whose fetch fails: with `DEBUG` on the run as written exits with status 1 and counts no failure, while the corrected run counts one failure and returns 'KB has been updated' |

## Findings

| source | as written | input that shows it | evidently intended | confidence | as-written member | corrected member |
|---|---|---|---|---|---|---|
| app.js:287-289 | At the last index the buffer is flushed even when it is empty. Nothing is pushed, but `queue.drain(resolve)` is still awaited. The queue fires its drain event only after a pushed task completes, so the promise never settles and the run never returns. | A listing whose last URL yields no task while the buffer is empty, e.g. the single URL `/hc`, which has no `/<digits>-`. | When nothing was pushed, skip the wait, so that the run finishes and returns 'KB has been updated'. | not executed; medium: relies on the drain-event behaviour of version 3 of the `async` package, and the package manifest is not part of this model | `Orchestrator.ProcessAsWritten`, shown by `Orchestrator.HangsOnSkippedLastArticle` | `Orchestrator.Process`, related by `Orchestrator.AsWrittenAgreesUnlessHung` |
| app.js:293-297 | The catch around staging binds the exception to `error` but logs `err`. No `err` is in scope there: the only other one is the parameter of the outer catch (app.js:310), a sibling block. With `DEBUG` set to 'true', the first staging exception throws a `ReferenceError` out of the loop before `handleFailure` runs. The outer catch then exits the process with status 1, and the buffered tasks are never pushed. | `DEBUG` 'true' and a listing whose first URL, `/12-a`, has an article id but whose fetch fails. | Log `error`, count the failure and go on with the next article, as happens with `DEBUG` off. | not executed; high: reading an undeclared name throws in JavaScript, and app.js declares no other `err` in that scope | `Orchestrator.FetchAsWritten` with `Orchestrator.IterateDebugAsWritten`, shown by `Orchestrator.DebugExitsOnFailedFetch` | `Orchestrator.FetchZendeskArticles` with `Orchestrator.Process`, related by `Orchestrator.DebugAsWrittenRun` |

The rest of the model (`Iterate`, `FetchZendeskArticles`) uses the corrected
bodies. Each as-written member keeps the other slip corrected, so that each
finding is shown on its own.

Three facts about the code that are easy to misread:
- The flag is not `failureCount >= MAX_FAILURES`. A success after the run
  tripped zeroes the count and leaves the flag down
  (`Tracker.SuccessDoesNotRearm`).
- A run returns 'KB has been updated' whether it went through the whole
  list or stopped on too many failures. Only the spinner message differs.
- An article is staged only when its body is longer than 3 characters
  (`body.length > 3`).

## Left out

- HTTP routes, the cron schedule, the interactive prompt, the health probes and the spinner: these are trigger and display plumbing.
- The network and text conversion: the sitemap parser, `getAllPages` paging, the article fetch and `html-to-text` conversion with `trim`. They are foreign calls; their results are inputs (`SitemapEntry`, `ApiArticle`, `Fetch`).
- `executePostRequest` (the upload, the `DEBUG` skip of the request, the `KEEP_DOCS` unlink): its outcome is an input `Signal` per completion.
- The double `callback` when `unlink` fails: not modelled.
- Filesystem calls (`existsSync`, `mkdirSync`, `writeFile`, `createReadStream`): a write is a given `Write` result, and a successful write is recorded as a `StagedFile`.
- `sleepWait`: the delays affect timing only.
- The queue's concurrency of 5 and the interleaving of uploads: replaced by a given completion order within each batch.
- Concurrent runs sharing the global state, the queue and the staging file names: out of scope. Within one run the `shouldContinue` test after the write (app.js:372) always sees the flag up, so `Orchestrator.StageAll` stages with the flag up. `Staging.Stage` keeps the test.
- Date arithmetic (`new Date`, `setDate`, the `previousDays` default): a timestamp is an `int` and the cutoff is a parameter. An unparsable date is not modelled.
- How the environment is read: the `apiKey` default (app.js:238-240), the sitemap filter and URL defaults, and the choice between sitemap and API mode (app.js:245-265). The listing arrives as a given sequence of articles.
- `parseInt` of the article id: the id only builds the fetch URL, and the fetch is an input.
- Staging.Stage: `body.length` counts UTF-16 code units in JavaScript, while the model counts Dafny characters. The two differ only for characters outside the Basic Multilingual Plane.
- `process.exit` in `finally`: it ends the process after every run, so no caller ever sees the returned string. The model gives the value the function returns. `Errored` stands for the `process.exit(1)` of the listing-error path.
- `ecosystem.config.cjs`: a deployment descriptor with no logic.
