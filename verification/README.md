# GitHub repository commit counter — Dafny model

This project models the core of `src/github_api.py`: a small client that
lists a GitHub user's repositories page by page, counts each repository's
commits page by page, records 0 for a repository whose count fails, and
renders one `Repo: <name> Number of commits: <count>` line per repository.

The HTTP session becomes data:

- Each endpoint is a finite queue of responses (`seq<Response>`), consumed
  one per page request, as the tests' fake session does.
- A response is a status and a JSON body. The body is a list of items or
  something else.
- Repository listing reads one queue (`repos`). The commits of repository
  `name` come from its own queue, `commits(name)`.
- A queue that runs out is the `Exhausted` failure. It stands for the fake
  session's `AssertionError` and for a loop the finite model cannot follow
  further. It is not a `GitHubAPIError`, so the aggregator does not absorb it.
- Every walk also returns the page numbers it requested. They are proved to
  be 1, 2, ..., n.

Modules:

- `Wrappers`: `Option` and `Result`.
- `Responses`: the response model, the (name, count) pair, `_get` and the list-shape check.
- `Lister`: `list_user_repos`.
- `Counter`: `count_commits`.
- `StopRules`: compares the two stop conditions.
- `Aggregator`: `repo_commit_counts`.
- `Formatter`: `format_repo_counts`, with a reader for the text it produces.
- `Report`: `repos_and_commits_for_user`.
- `Scenarios`: the scenarios of the repository's tests.

Each loop is a recursive function. It is paired with an independent
description of where the loop stops:

- `FirstEmptyAt` and `FirstShortAt`: the first stopping page.
- `FirstBadAt`: the first rejected page.
- `NeverStops` and `NeverShort`: no page stops the loop.

The lemmas show that the loop's outcome is exactly the one that
description selects.

## Model

| member | source | states |
|---|---|---|
| Responses.Get | src/github_api.py:26-34 | A response fails exactly when its status is 400 or more. The error carries that status. Any other response's body is handed back unchanged. |
| Responses.ListPayload | src/github_api.py:43-47 | A page is accepted exactly when its status is below 400 and its body is a list. An error status takes precedence over the shape check. A non-list body under a good status is the not-a-list error. |
| Lister.ListFrom | src/github_api.py:40-51 | The walk requests consecutive pages from the start page. It runs out only after asking for one more page than the queue holds. Names already gathered stay a prefix of the result. |
| Lister.ListUserRepos | src/github_api.py:36-52 | Requests pages 1, 2, ... in order. Fails with `Exhausted` exactly when it asked for one page more than were queued. |
| Lister.PageNames | src/github_api.py:50 | The names one page contributes: at most one per item. With `PageNamesAppend` (names of concatenated pages concatenate, in order) and `PageNamesAllObjects` (on an all-dict page the i-th name is the i-th item's "name", or "") and `PageNamesNonObjects` (a page without dicts gives no name), every dict gives exactly its name and every other item gives none. |
| Lister.PageNamesAppend | src/github_api.py:50 | The names of two concatenated item lists are the concatenation of their names. The order of items is kept. |
| Lister.PageNamesAllObjects | src/github_api.py:50 | On a page of dicts, the i-th name is the i-th item's "name", or "" when the item has none. Nothing is dropped. |
| Lister.PageNamesNonObjects | src/github_api.py:50 | A page none of whose items is a dict contributes no name: the `isinstance(item, dict)` filter drops every other item. |
| Lister.ListFromFirstEmpty | src/github_api.py:40-51 | When page k+1 is the first empty page and every earlier page is a non-empty list, the walk returns the names gathered so far followed by the names of the first k pages. It requests exactly k+1 pages. |
| Lister.ListSucceedsAtFirstEmpty | src/github_api.py:36-52 | The listing returns the concatenated names of all pages before the first empty one, in page order. It requests pages 1..k+1. |
| Lister.ListFromFirstBad | src/github_api.py:43-47 | When the first rejected page comes before any empty page, the walk fails with that page's error. Names gathered so far are discarded. The rejected page is the last one requested. |
| Lister.ListFailsAtFirstBad | src/github_api.py:43-47 | The listing fails with the first rejected page's `GitHubAPIError` and returns no names. |
| Lister.ListFromNeverStops | src/github_api.py:42-51 | When every queued page is a non-empty list, the walk runs past the queue. |
| Lister.StopIndexIsTheStop | src/github_api.py:42-51 | The first empty or rejected page is unique. It is the first page that does not let the loop go on. |
| Lister.ListOutcomes | src/github_api.py:36-52 | The listing succeeds iff some page is the first empty one. It fails with a `GitHubAPIError` iff some page is the first rejected one. It runs out iff every queued page is a non-empty list. |
| Counter.CountFrom | src/github_api.py:57-68 | The walk requests consecutive pages. It runs out only after one more page than the queue holds. A success is at least the running total plus 100 for every page before the last. |
| Counter.CountCommits | src/github_api.py:54-69 | Requests pages 1, 2, ... in order. A count spanning n pages is at least 100·(n-1). |
| Counter.CountFromFirstShort | src/github_api.py:59-68 | When page m+1 is the first page with fewer than 100 items and every earlier page is full, the walk adds the lengths of pages 1..m+1 to its total. It requests exactly m+1 pages. |
| Counter.FullPagesBound | src/github_api.py:64-66 | Full pages are list pages, and n of them hold at least 100·n items. |
| Counter.CountSucceedsAtFirstShort | src/github_api.py:54-69 | The count is the total length of the pages up to and including the first short one. That is at least 100 per earlier page. |
| Counter.ItemsInStep | src/github_api.py:64-65 | Adding one more accepted page adds exactly its length to the total. |
| Counter.CountFromFirstBad | src/github_api.py:60-63 | When the first rejected page comes before any short page, the walk fails with that page's error. |
| Counter.CountFailsAtFirstBad | src/github_api.py:60-63 | The count fails with the first rejected page's `GitHubAPIError`. |
| Counter.CountFromNeverShort | src/github_api.py:59-68 | When every queued page is full, the walk runs past the queue. |
| Counter.StopIndexIsTheStop | src/github_api.py:59-68 | The first short or rejected page is unique. It is the first page that is not full. |
| Counter.CountOutcomes | src/github_api.py:54-69 | The count succeeds iff some page is the first short one. It fails with a `GitHubAPIError` iff some page is the first rejected one. It runs out iff every queued page is full. |
| StopRules.CounterStopsNoLaterThanLister | src/github_api.py:48-67 | On the same pages the counter's stop m is never after the lister's stop k. They coincide exactly when page m+1 is empty. The lister requests k+1 pages and the counter m+1. |
| Aggregator.CountOrZero | src/github_api.py:76-80 | One repository's recorded count is the total length of its pages up to the first short page. It is 0 when an error status or a non-list body comes first. It fails, with `Exhausted`, exactly when every queued page is full, so only a queue that runs out escapes. |
| Aggregator.CountEach | src/github_api.py:75-81 | One pair per name, in name order, after the pairs already built. Each pair holds that name and its count-or-0. Only `Exhausted` fails the loop. |
| Aggregator.RepoCommitCounts | src/github_api.py:71-82 | A listing failure propagates unchanged. On success there is one pair per listed repository. |
| Aggregator.CountEachFails | src/github_api.py:75-81 | The loop fails iff some repository's commit queue runs out. |
| Aggregator.CountsPerRepository | src/github_api.py:71-82 | After a successful listing the result is each listed name, in list order, with its commit count, or 0 where counting raised. It fails iff some repository's queue runs out. |
| Aggregator.FailureIsIsolated | src/github_api.py:75-81 | Changing one repository's responses changes no other repository's pair. |
| Formatter.NatToString | src/github_api.py:87 | A count renders as decimal digits without a leading zero. |
| Formatter.NatToStringRoundTrip | src/github_api.py:87 | The decimal text of a count reads back as that count. |
| Formatter.Join | src/github_api.py:87 | Joining no lines gives "", and a joined text is at least as long as its first line. With `SplitJoin`, splitting the joined text at its newlines gives the lines back whenever no line holds a newline. |
| Formatter.NewlineIndex | src/github_api.py:87 | The index of the first newline, or the length when there is none. |
| Formatter.SplitJoin | src/github_api.py:87 | Splitting newline-joined lines that contain no newline gives the lines back. |
| Formatter.RenderLine | src/github_api.py:87 | A line starts with "Repo: ", is longer than the prefix, the name and the count label together, and ends in a digit. With `ParseRenderLine`, the line reads back as exactly its name and count. |
| Formatter.RenderLines | src/github_api.py:87 | One line per pair, in order, the i-th line rendering the i-th pair. |
| Formatter.FormatRepoCounts | src/github_api.py:85-87 | The text is empty exactly when there are no pairs. Otherwise its last character is a digit, so there is no trailing newline. |
| Formatter.ParseRenderLine | src/github_api.py:87 | A rendered line reads back as its name and count, whatever characters the name contains. |
| Formatter.DigitsValueRoundTrip | src/github_api.py:87 | A numeral with no leading zero (or "0" itself) is the decimal text of its own value, so `str` of a count writes exactly one numeral per value. |
| Formatter.ParseLineIsExact | src/github_api.py:87 | Any line that reads back as a pair is exactly that pair's rendered line. With `ParseRenderLine` the reader and the f-string are inverse on rendered lines. |
| Formatter.ParseRenderLines | src/github_api.py:87 | Rendered lines read back as the pairs they came from. |
| Formatter.FormatRoundTrip | src/github_api.py:85-87 | When no name contains a newline, the text of one or more pairs splits at its newlines into exactly the rendered lines, one per pair, in order, and reads back as the original pairs, none lost, merged or reordered. |
| Report.ReposAndCommitsForUser | src/github_api.py:90-98 | A listing failure propagates unchanged. The helper succeeds exactly when the aggregation does. |
| Report.ReportReadsBack | src/github_api.py:90-98 | When the listing succeeds, no name holds a newline and no commit queue runs out, the text is empty iff there are no repositories. It has one line per repository. It reads back as each listed name with its count, or 0 where counting raised. |
| Scenarios.ListingPaginates | tests/test_github_api.py:30-37 | Two named repositories and an empty page 2 list as ["alpha", "beta"] after requests for pages 1 and 2. |
| Scenarios.OneRepository | tests/test_github_api_mocked.py:33-47 | Whatever follows, a page naming one repository then an empty page lists that one name after exactly two requests. |
| Scenarios.CountingPaginates | tests/test_github_api.py:39-46 | A full page of 100 commits then a page of 1 counts 101 after two requests. |
| Scenarios.ListingErrorBubblesUp | tests/test_github_api.py:48-52 | A 404 on the first listing page fails the listing and the whole report with that status. |
| Scenarios.NotAListFails | tests/test_github_api_mocked.py:15-30 | A non-list body fails both the listing and the count with the not-a-list error. |
| Scenarios.FailingRepositoryCountsZero | tests/test_github_api_mocked.py:51-61 | A repository whose commits request fails is recorded with 0. When it is the last repository, the one before it keeps its count. When it is the first, the next repository is still counted. |
| Scenarios.TwoCounts | src/github_api.py:71-82 | Two listed repositories give their two pairs in list order, each with its recorded count. |
| Scenarios.MalformedCommitsCountZero | tests/test_github_api_mocked.py:51-61 | A non-list commits body is absorbed as 0 too. |
| Scenarios.FormatMatchesAssignment | tests/test_github_api.py:65-67 | The two assignment pairs render as their two lines joined by one newline. |
| Scenarios.EndToEnd | src/github_api.py:90-98 | "repoA" with 2 commits and "repoB" with 1 render as their two lines. |
| Scenarios.SharedQueueCounts | tests/test_github_api.py:18-26 | With one queue for every request, a listing failure propagates. On success each pair carries the listed name. |
| Scenarios.SharedCountEach | src/github_api.py:75-81 | Models the `for` loop over one shared queue, where each count starts where the previous one stopped. Its contract: one pair per name, in order, after the pairs already built, and only `Exhausted` fails the loop. |
| Scenarios.SkipErrorFixtureAsWritten | tests/test_github_api.py:54-63 | Through one shared queue, the fixture's responses fail the listing with the 500. |
| Scenarios.SkipErrorFixtureCorrected | tests/test_github_api.py:54-63 | With the empty listing page added, the responses give [("ok", 2), ("bad", 0)]. Per-endpoint queues give the same. |
| Scenarios.TopLevelFixtureAsWritten | tests/test_github_api.py:71-79 | Through one shared queue, the listing reads four names, "gamma" and three empty ones, and counting then runs out of responses. |
| Scenarios.TopLevelFixtureCorrected | tests/test_github_api.py:71-79 | With the empty listing page placed before the commit page, the helper renders the single "gamma" line with 3 commits. |

## Left out

- The HTTP session, URL construction, query parameters, headers, timeout and JSON decoding are not modelled. A response is given directly as a status and a decoded body.
- The text of exception messages (URL, status, reason phrase) is not modelled. Only the cause is kept: the status, or "not a list".
- `count_commits`'s `user` and `repo` arguments only choose the URL. They are represented by choosing the commit queue `commits(name)`.
- `list_user_repos` only passes its `user` argument into the URL, so that argument is not modelled.
- Lister.ListUserRepos: a server that never sends an empty page cannot be represented. A queue that runs out ends the walk with `Exhausted`, the counterpart of the fake session's `AssertionError`.
- Counter.CountCommits: likewise for a server that never sends a short page.
- A transport error (a `requests` timeout or connection failure) and a JSON decoding error are not modelled. Neither is a `GitHubAPIError`, so the `except` of `repo_commit_counts` would not catch them and the whole report would fail, as it does for `Exhausted`.
- A "name" whose value is not a string is not modelled. Names are strings or absent.
- Formatter.FormatRepoCounts: counts are natural numbers, so a negative count (which Python would render as "-1") is not modelled. Every caller passes a page total or 0.
- `src/main.py` reads a username and prints the report; it is I/O only and is not part of this model.
- The code raises `GitHubAPIError` both for an error status (src/github_api.py:33) and for a non-list body (lines 47 and 63). So both are `ApiError` here, and the aggregator absorbs both as 0.
- A rejected page after the first empty (or short) page is never requested. So "any page is not a list" fails the walk only when that page comes before the stop, as `FirstBadAt` states.

## Findings

| source | as written | input that shows it | evidently intended | confidence | as-written member | corrected member |
|---|---|---|---|---|---|---|
| tests/test_github_api.py:54-63 | One fake session serves both the listing and the commit requests. The queue lacks the empty listing page that `list_user_repos` needs to stop. | Queue [200 [{"name":"ok"},{"name":"bad"}], 200 [{}]*2, 500]. The listing reads the commit page as page 2 and the 500 as page 3, so `repo_commit_counts` raises instead of returning [("ok", 2), ("bad", 0)]. | An empty listing page precedes the commit responses. | not executed | Scenarios.SkipErrorFixtureAsWritten | Scenarios.SkipErrorFixtureCorrected |
| tests/test_github_api.py:71-79 | The queue puts the commit page before the empty page, so the lister consumes it. | Queue [200 [{"name":"gamma"}], 200 [{}]*3, 200 []]. The listing gives ["gamma", "", "", ""] and counting "gamma" finds no response left. | The empty listing page comes before the commit page, giving "Repo: gamma Number of commits: 3". | not executed | Scenarios.TopLevelFixtureAsWritten | Scenarios.TopLevelFixtureCorrected |
