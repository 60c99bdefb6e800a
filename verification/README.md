# Jenkins MCP server: verified core

A Dafny model of the stateful and concurrent core of the Jenkins MCP server, with
proofs of what that core promises. Jenkins itself is an abstract server: it answers
probes, listings, reports and logs as already decoded data, and it changes over time
where the property allows it to.

| file | what it models |
|---|---|
| `JobPath.dfy` | job paths and their nested `/job/a/job/b` form |
| `CacheKey.dfy` | the cache file name of a build log, and the finished-log check |
| `CacheDir.dfy` | the cache directory: one `Fetch` and one eviction, with file-system failures |
| `CacheLru.dfy` | sequential runs of `Fetch` refine a plain least-recently-used list, whatever the file system refuses |
| `CacheTimes.dfy` | modification times as last uses, and when a log just stored is still there |
| `CacheProtocol.dfy` | all interleavings of concurrent `Fetch` calls while Jenkins changes |
| `CacheRuns.dfy` | what a `Fetch` on which nothing fails achieves: the log is stored, then read back |
| `FanOut.dfy` | the bounded fan-out with its semaphore and wait group, and the build sample it runs over |
| `FolderWalk.dfy` | the capped recursive folder walk |
| `Tail.dfy` | progressive tailing of a running build's console |
| `GreenWalk.dfy` | the walk back to the last green build, and the commit lists rendered from it |
| `Flips.dfy` | the two counts of a test's status flips |
| `FlipCounts.dfy` | what those counts mean on the cases of the reports and on positions of a state sequence |
| `BuildDiff.dfy` | parameter, test and stage differences of two builds |
| `Ginkgo.dfy` | the scanner for Ginkgo failure summaries |
| `Sequences.dfy` | options, filtering, first occurrences, sorting, string order |

`dafny verify dfyconfig.toml` checks the whole project.

## What the proofs rest on

The cache code does not guarantee the following by itself, so it is assumed, and each
assumption is visible in the steps or in a `requires`:

- a cache file is written in one step (`os.WriteFile` is not atomic, and readers hold no lock);
- while a `Fetch` stands between its timestamp probe and its body request, Jenkins does not
  replace or delete the probed build, and a build that is replayed into a slot gets a
  timestamp that slot never had;
- a log that passes the finished check does not change any more;
- job paths in use that share a slug name the same job, as `x` and `x/` do;
  `CacheKey.SlugsCanCollide` shows that the jobs `a/b` and `a__b` share one,
  `CacheKey.SlugIsUnsharedExactly` says which jobs share their slug with no other, and
  `CacheKey.SlugTellsJobsApart` names a wider class of job paths whose slugs differ among
  themselves;
- apart from that Jenkins is free: `CacheRuns.JenkinsIsFree` shows that builds can start, be replaced,
  be deleted and grow;
- the byte cap is not negative (`main.go:395-400` admits positive caps only).

Where the code and its comments differ, the code is modelled. The comment at
`internal/jenkins/cache.go:79-80` says a response is written only if the body contains the
`Finished: <result>` marker line, and the comment at lines 21-23 makes that marker the last
line. The code looks at the last 256 bytes only: `CacheKey.FinishedCheckExact` says which
bodies pass, and `CacheKey.FinishedCheckCanAcceptWithoutMarkerLine` gives a body that passes
although no line of it is a marker.

Some promises hold only under a condition, which is proved to be the exact one, with an input
on which the promise fails:

- a job has a slug of its own if and only if its trimmed path is shorter than 180 characters
  and made of safe characters other than underscores (`CacheKey.SlugIsUnsharedExactly`,
  `CacheKey.SlugsCanCollide`);
- a log just stored, with no other listed file of the same time, can be read at the returned path
  if and only if the eviction does not list it, may not remove it, or it fits the cap together
  with the listed files that cannot be removed or are newer; if it is the newest file and every
  listed file can be removed, that means it fits by itself (`CacheTimes.StoredLogStays`,
  `CacheTimes.NewestLogStays`, `CacheTimes.OversizedLogGoes`, `CacheTimes.ClockStepLosesNewLog`;
  among files of one time the sort order is open, and `CacheTimes.StoredLogBounds` says what
  holds either way);
- the sample of completed builds is the latest one if and only if at most five of the listed
  builds are in progress or no build beyond them is completed (`FanOut.SampleIsLatest`,
  `FanOut.SixInProgressHideTheLatest`);
- the printed match count covers all commits if and only if no change set behind one that
  overran the cap holds a match (`GreenWalk.MatchedCountsAll`, `GreenWalk.MatchedCanMissSome`);
- the two flip counters see a test alike in a report if and only if it has no case there, or the
  state of its first case is known and is the last known one (`Flips.PairedExactly`,
  `Flips.DuplicatesSplitTheTools`).

## Model

| member | source | states |
|---|---|---|
| JobPath.JobAPIPath | internal/jenkins/client.go:288-298 | the loop over the trimmed, split path gives `/job/` before each non-empty segment of the untrimmed path: outer and doubled slashes do not matter |
| JobPath.ApiPathJoin | internal/jenkins/client.go:285-298 | the API path of `a/b` is the API path of `a` followed by that of `b`, for any strings |
| JobPath.ApiPathOfChild | internal/jenkins/client.go:288-298 | a slash-free name below a folder adds exactly `/job/<name>` |
| JobPath.ApiPathReadsBack | internal/jenkins/client.go:285-298 | the non-empty segments can be read back from the API path, even when a job is itself called `job` |
| JobPath.ApiPathIdentity | internal/jenkins/client.go:285-298 | two job paths share an API path if and only if they have the same segments |
| JobPath.TrimIsPiece | internal/tools/jobs.go:82 | trimming cuts off exactly the slashes at both ends |
| CacheKey.Slug | internal/jenkins/cache.go:60-64 | at most 180 characters, all from the safe alphabet, for any job path |
| CacheKey.UnsafeRunLeavesOneUnderscore | internal/jenkins/cache.go:61 | a maximal run of unsafe characters becomes one underscore and what follows is treated on its own |
| CacheKey.SlugIdempotent | internal/jenkins/cache.go:59-64 | a slug is its own slug |
| CacheKey.SlugIgnoresOuterSlashes | internal/jenkins/cache.go:60 | any number of leading and trailing slashes leaves the slug unchanged |
| CacheKey.SlugsCanCollide | internal/jenkins/cache.go:60-61 | job `b` in folder `a` and job `a__b` have one slug although they are different jobs |
| CacheKey.SlugIsUnsharedExactly | internal/jenkins/cache.go:60-64 | a job shares its slug with no other if and only if its trimmed path has fewer than 180 characters, all safe and none an underscore |
| CacheKey.SlugTellsJobsApart | internal/jenkins/cache.go:60-64 | a class of paths, underscores and folders included, without shared slugs among themselves: on safe names without an underscore before an underscore or slash, and short enough, equal slugs mean equal trimmed paths |
| CacheKey.FileNameReadsBack | internal/jenkins/cache.go:65 | slug, positive number and any timestamp, negative ones included, can be read back from the file name, whatever dashes and digits the slug holds |
| CacheKey.FileNameIdentity | internal/jenkins/cache.go:53-66 | two builds share a cache file if and only if slug, number and timestamp all agree |
| CacheKey.FileNameIsFlat | internal/jenkins/cache.go:57-65 | the file name has no slash and is none of "", "." and ".." |
| CacheKey.FinishedCheckExact | internal/jenkins/cache.go:111 | a body passes if and only if a marker stands in its last 256 bytes, at a line start or exactly on the cut |
| CacheKey.MarkerReads | internal/jenkins/cache.go:24 | a marker reads `Finished: `, one of the five results, and blanks up to the end of a line or of the text |
| CacheKey.AcceptedBodyHasMarker | internal/jenkins/cache.go:21-24 | an accepted body holds a marker line, or its marker stands exactly on the cut, behind a character that is no line feed |
| CacheKey.FinishedCheckCanAcceptWithoutMarkerLine | internal/jenkins/cache.go:194-199 | a 257-byte body that passes although none of its lines is a marker |
| CacheDir.ConsoleCache.Fetch | internal/jenkins/cache.go:81-126 | reply and new directory in every case: hit, store with eviction, unfinished log, no number, failed probe, read, download or write |
| CacheDir.ConsoleCache.EvictIfOverCap | internal/jenkins/cache.go:149-192 | only listed, removable files go, oldest first, no further than needed, and it ends within the cap or with every listed file tried, whatever the file system refuses |
| CacheDir.ConsoleCache.ListFiles | internal/jenkins/cache.go:150-171 | every readable file once with its size and time, and the total of their sizes |
| CacheDir.TriedRemoves | internal/jenkins/cache.go:180-187 | after each successful removal the running total is again the summed size of the listed files still present |
| CacheDir.RemovedIsNeeded | internal/jenkins/cache.go:175-187 | before a removal the total is over the cap, and nothing removed so far is newer than the file removed |
| CacheDir.TriedEnough | internal/jenkins/cache.go:175-187 | when the loop ends, its bookkeeping implies the whole eviction contract under arbitrary removal failures |
| CacheLru.EvictionIsShrink | internal/jenkins/cache.go:149-187 | evicting by modification time tries the entries of the list from the least recently used one on, skips what is unlisted or refused, and stops when the listed rest fits |
| CacheLru.ShrinkFits | internal/jenkins/cache.go:147-187 | when nothing is refused, what remains is the longest list of most recently used entries that fits the cap |
| CacheLru.FetchRefinesLru | internal/jenkins/cache.go:81-126 | one `Fetch` on the directory is one fetch on the list, with the same reply, whatever reads, refreshes, writes, listings and removals are refused |
| CacheLru.RunRefinesLru | internal/jenkins/cache.go:32-34 | every sequential run from an empty directory with a strictly increasing clock gives the list's replies and leaves exactly its logs, times ordered by last use |
| CacheTimes.MtimeIsLastUse | internal/jenkins/cache.go:94-98 | as long as refreshing times works, each cached file's time is that of the last call that hit or wrote it |
| CacheTimes.EvictedIsLeastRecentlyUsed | internal/jenkins/cache.go:175-187 | an evicted file was last used no later than any listed, removable file that survives |
| CacheTimes.StoredLogBounds | internal/jenkins/cache.go:113-118 | under any clock and any refusals: a stored log that is gone did not fit the cap with the listed files that cannot be removed or are not older, and one that an eviction could have removed but stayed fits with those that cannot be removed or are newer |
| CacheTimes.StoredLogStays | internal/jenkins/cache.go:113-118 | without a tie in time, a stored log is still at the returned path if and only if it is not listed, not removable, or fits the cap with the listed files that cannot be removed or are newer |
| CacheTimes.NewestLogStays | internal/jenkins/cache.go:113-118 | the newest log, when listed files can be removed, stays if and only if it is not listed or fits the cap on its own |
| CacheTimes.ClockStepLosesNewLog | internal/jenkins/cache.go:175-187 | after a backward clock step, a log that fits the cap is evicted by its own store while an older use survives |
| CacheTimes.OversizedLogGoes | internal/jenkins/cache.go:115-118 | a log over the cap stored in an empty directory is returned with a path that holds nothing |
| CacheProtocol.RunAgrees | internal/jenkins/cache.go:81-126 | in every interleaved run each file on disk and each body in flight to it is the finished log of the run its name stands for |
| CacheProtocol.CacheIsTransparent | internal/jenkins/cache.go:81-126 | in every interleaved run from an empty directory, a body read from disk equals what consoleText would return for that build at that moment |
| CacheProtocol.DiskHoldsFinishedLogs | internal/jenkins/cache.go:21-24 | in every such run every file on disk passes the finished check |
| CacheProtocol.RunBounded | internal/jenkins/cache.go:111-118 | the lock invariant and the size bound that goes with each stage of its holder hold in every reachable state, with refused removals |
| CacheProtocol.CapacityHolds | internal/jenkins/cache.go:111-187 | the directory exceeds the limit (the cap, or what cannot be removed if that is more) only while one `Fetch` is between write and end of eviction, by at most the body it wrote; no two hold the lock |
| CacheProtocol.NothingStuck | internal/jenkins/cache.go:179-187 | when every removal succeeds, that limit is the cap |
| CacheProtocol.NoDeadlock | internal/jenkins/cache.go:81-126 | from any directory, while some `Fetch` is under way, some `Fetch` can take a step on which nothing fails: a cached file is read and refreshed, an answered download used, a write made, a file removed |
| CacheProtocol.StepsRunOut | internal/jenkins/cache.go:81-126 | each step after the probe lowers a lexicographic measure, so a `Fetch` takes finitely many steps |
| CacheRuns.FinishedLogCanBeStored | internal/jenkins/cache.go:81-126 | from any state with the lock free, an idle `Fetch` of a build whose log is finished and fits the cap has a run of its own steps to the reply with that log and its path, and the file then holds the log |
| CacheRuns.StoredLogCanBeRead | internal/jenkins/cache.go:86-99 | an idle `Fetch` of a build whose file is there has a run of its own steps that reads the bytes, refreshes the time and returns them, with no download between |
| CacheRuns.StoredThenRead | internal/jenkins/cache.go:81-126 | both in sequence: the second `Fetch` reads from disk what the first one stored |
| CacheRuns.OnlyUnfinishedSkipsDisk | internal/jenkins/cache.go:111-125 | a `Fetch` that knows its timestamp goes from the miss straight to its answer only with a body that fails the finished check, and leaves the disk alone |
| FanOut.AtMostSixInFlight | internal/tools/common.go:154-169 | in every schedule the number of tasks between acquire and release equals the semaphore count and is at most 6 |
| FanOut.WritesOwnSlotOnce | internal/tools/common.go:160-165 | a task's step changes no other task's result and no result already written |
| FanOut.NeverStuck | internal/tools/common.go:154-169 | from every state the invariant allows, a step is possible until the call returned |
| FanOut.ReturnsAfterExactly | internal/tools/common.go:154-169 | every schedule returns after exactly 5n + 1 steps, never earlier, and has no further step |
| FanOut.ReturnsSequentialMap | internal/tools/common.go:150-169 | whatever the schedule, result i is fetchFn of item i |
| FanOut.DiscoverCompletedBuilds | internal/tools/common.go:121-148 | the loop returns the first sampleSize completed builds of the requested window |
| FanOut.SampleIsExact | internal/tools/common.go:121-148 | those are, read at increasing positions, the builds with a result among the newest sampleSize + 5, up to the sampleSize-th such |
| FanOut.SampleIsLatest | internal/tools/common.go:117-148 | that is the latest sampleSize completed builds of the whole history if and only if at most five of the listed builds are in progress or no build beyond them is completed |
| FanOut.BufferAbsorbsFive | internal/tools/common.go:87-89 | on a long enough history the sample is full if and only if at most five of the listed builds are in progress |
| FanOut.SixInProgressHideTheLatest | internal/tools/common.go:87-89 | six builds in progress hide the completed build behind them from a sample of one |
| FolderWalk.Walker.EmitRow | internal/tools/jobs.go:175-191 | appends the row of a matching entry below the cap and sets hitCap with the 500th, else changes nothing |
| FolderWalk.Walker.Walk | internal/tools/jobs.go:145-199 | requests and rows are the uncapped pre-order trace cut at the cap or at the first failed request, which is also what the result reports |
| FolderWalk.TraceIsFlat | internal/tools/jobs.go:145-199 | the uncapped trace is the folder's request, broken off if it fails, and then for each entry of the listing its row, if its name matches, and its request, if the walk is recursive and it is a folder |
| FolderWalk.ListingIsPreOrder | internal/tools/jobs.go:170-196 | the listing holds every entry that a trail of positions through folders reaches, exactly once, an entry before what lies below it and that before later siblings |
| FolderWalk.TraceHasListing | internal/tools/jobs.go:170-196 | the rows of the uncapped trace are the matching entries of the pre-order listing |
| FolderWalk.WalkIsCappedListing | internal/tools/jobs.go:141-199 | when the walk reaches no failed request the rows are the first 500 of the full filtered listing, and hitCap if and only if it has at least 500 |
| FolderWalk.ListJobs | internal/tools/jobs.go:77-85 | from the trimmed folder path, fails exactly when a failed request comes before the 500th row; else the rows show, field by field and at increasing positions, the first 500 matching entries of the listing, and the cap flag says whether there are 500 |
| FolderWalk.ContinueBreaks | internal/tools/jobs.go:157-196 | the walk fails if and only if a failed request comes before the 500th row |
| FolderWalk.NoRequestAfterCap | internal/tools/jobs.go:176-193 | the last event of a capped walk is its 500th row, so no folder is requested after it |
| FolderWalk.RequestsIgnoreFilter | internal/tools/jobs.go:67-71 | folders are entered whatever the filter: the uncapped walk's requests are the same for any two filters |
| FolderWalk.ChildIsRequestedBelowParent | internal/tools/jobs.go:153-173 | a child folder is requested at its parent's API path plus `/job/<name>` |
| FolderWalk.ListedPathsAreDistinct | internal/tools/jobs.go:170-178 | with distinct, non-empty, slash-free sibling names in the listings the walk may request, all listed job paths differ, across all levels |
| Tail.TailRunningBuild | internal/tools/console.go:172-237 | rejects exactly the empty job path and negative offsets and reports a failed request; else the chunk is the log between the two offsets, full-sized unless it reaches the end |
| Tail.ChunksReassemble | internal/tools/console.go:167-208 | after every call of a session on a growing log, the chunks so far are the log up to the next offset, with any caps |
| Tail.NoMoreMeansWholeLog | internal/tools/console.go:206-208 | a session told `more=false` has received the whole log of a finished build |
| Tail.CallsNeededIsCeiling | internal/tools/console.go:199-208 | the number of calls below is the least n of at least 1 with n * max at least the bytes left |
| Tail.DrainTakesExactly | internal/tools/console.go:199-208 | against a finished build, call number max(1, ceil(left / max)) is the first to say `more=false` |
| GreenWalk.PathIsTheWalk | internal/tools/scm.go:379-410 | the visited builds are the one sequence that follows the pointers, above g, without repetition, and stops only where it must |
| GreenWalk.WalkIsBounded | internal/tools/scm.go:377-384 | on any build graph, cycles and upward pointers included, no more builds are visited than there are |
| GreenWalk.WalkChangesSinceLastGreen | internal/tools/scm.go:363-412 | fails exactly when a visited build cannot be fetched; else the commits along the walk read at exactly the positions whose id no earlier commit carries, and the number of builds visited |
| GreenWalk.AlongIsFlat | internal/tools/scm.go:397-405 | the commits along the walk are those of every visited build in visiting order, of each change set in order |
| GreenWalk.VisitsCompletedDescending | internal/tools/scm.go:272-275 | when each pointer names the greatest completed build below, exactly the completed builds in (g, c] are visited, newest first |
| GreenWalk.FilterCommitsByPath | internal/tools/scm.go:166-180 | with a filter, the commits read at increasing positions, exactly those with some file that matches; all of them without a filter |
| GreenWalk.ChangesSinceLastGreen | internal/tools/scm.go:276-340 | every outcome: missing builds, errors, all green, or the first max_commits of the filtered deduplicated commits with the exact truncation flag |
| GreenWalk.WellBehavedReport | internal/tools/scm.go:308-323 | when each pointer names the greatest completed build below, the tool shows the first max_commits of the filtered, deduplicated commits of the completed builds in (g, c], newest build first |
| GreenWalk.GetSCMContext | internal/tools/scm.go:113-142 | renders the first max_commits matching commits over all change sets, truncated if and only if there are more, and counts the sets it looked at |
| GreenWalk.ContextShowsFirst | internal/tools/scm.go:113-142 | what is rendered is the first max_commits of the flat list of all change sets, filtered position by position, and truncated says whether any are left |
| GreenWalk.MatchedCountsAll | internal/tools/scm.go:113-146 | the printed match count covers all matches if and only if no change set behind one that overran the cap holds a match |
| GreenWalk.MatchedCanMissSome | internal/tools/scm.go:113-146 | on two change sets with two and one matches under a cap of one, every outcome says two although three match |
| Flips.SkippingNeverAddsFlips | internal/tools/flaky.go:148-177 | on any state sequence, dropping SKIPPED never adds a flip |
| Flips.StatesWithoutSkips | internal/tools/flaky.go:148-158 | without include_skipped a test's sequence is the one with it, SKIPPED dropped, and holds only passes and failures |
| Flips.IgnoringSkipsAddsNoFlips | internal/tools/flaky.go:136-184 | over the same builds, a test's row without include_skipped has no more flips than the row with it, and the same passes and failures |
| Flips.IgnoringSkipsAddsNoRows | internal/tools/flaky.go:148-163 | every test with a row without include_skipped has one with it |
| Flips.RowsAreBounded | internal/tools/flaky.go:136-184 | the flips of every row without include_skipped are at most passes + failures - 1 and at most twice either tally |
| Flips.FlipBounds | internal/tools/flaky.go:165-178 | on any pass/fail sequence flips are at most passes + failures - 1 and at most twice the smaller tally, and odd if and only if first and last state differ |
| Flips.FetchOneFlakyResult | internal/tools/flaky.go:107-131 | the last known state under each full name; empty without a report; marked as failed on any other request error and on an unreadable report |
| Flips.Gather | internal/tools/flaky.go:147-163 | the map holds exactly the observed tests, with their states in build order and newest build, whatever the order of map iteration |
| Flips.CountStates | internal/tools/flaky.go:166-178 | one pass counts passes, failures and adjacent changes |
| Flips.AggregateFlaky | internal/tools/flaky.go:136-184 | one row per observed test with its statistics over a sorted permutation of the results |
| Flips.SelectFlaky | internal/tools/flaky.go:186-201 | exactly the rows with enough flips, ranked by flips, failures and name |
| Flips.RankingIsUnique | internal/tools/flaky.go:193-201 | the ranking does not depend on the order in which map iteration hands out the rows |
| Flips.RankingIsDetermined | internal/tools/flaky.go:136-201 | two rankings over the same distinct-numbered builds are equal, whatever order results arrive in and maps are walked in |
| Flips.FetchOneTestHistory | internal/tools/test_history.go:125-157 | state, duration and error head of the first case with that full name, whether there was a report and a case, and whether the request or its parsing failed |
| Flips.FirstLine | internal/tools/scm.go:208-214 | one line without line breaks, empty if and only if the text is blank |
| Flips.FirstLineIsExact | internal/tools/scm.go:208-214 | that line is the piece of the text from its first character that is not blank to the next line break with more text behind it, or to the last one that is not blank |
| Flips.GetFlakyCandidates | internal/tools/flaky.go:65-105 | too few builds, the first failed report request, or the ranking of the aggregated rows with enough flips |
| Flips.GetTestHistory | internal/tools/test_history.go:67-99 | no builds, the first failed report request, a test not seen, or the summary and the visible timeline, newest first |
| Flips.RenderTestHistory | internal/tools/test_history.go:159-220 | tallies, flips in chronological order and the timeline, newest first, without skipped entries unless asked for |
| Flips.SortedResultsPair | internal/tools/test_history.go:197-200 | whatever order two fan-outs deliver in, sorting pairs up what the two tools saw of a test build by build |
| Flips.CountersAgree | internal/tools/flaky.go:123-184 | the flaky row and the test history give equal passes, failures and flips for either include_skipped; a test without a row has none |
| Flips.PairedExactly | internal/tools/flaky.go:123-129 | both tools see a test alike in a build if and only if its report has no such case, or the first case's state is known and is the last known one |
| Flips.ToolsAgree | internal/tools/test_history.go:142-215 | for a slash-free name seen alike in every report, its flaky row repeats the history's counts, and it has a row if and only if the history counts at least min_flips |
| Flips.SlashFreeNameIsKept | internal/tools/test_history.go:67 | a test name is looked up unchanged if and only if it has no slash |
| Flips.DuplicatesSplitTheTools | internal/tools/test_history.go:142-155 | when a report lists a test as passed and then failed, and the next one as passed, the flaky row has one failure and one flip, the history none |
| FlipCounts.FlipsAreChangePoints | internal/tools/flaky.go:174-176 | the flips of a state sequence are the number of positions whose state differs from the one before |
| FlipCounts.NormalizeReads | internal/tools/junit_status.go:38-49 | which status strings stand for passed, failed, skipped and unknown |
| FlipCounts.FlakyStatesAt | internal/tools/flaky.go:147-163 | a test's states are those its last known case shows in each build, at increasing positions, and no build that shows one that counts is left out |
| FlipCounts.RowCounts | internal/tools/flaky.go:136-184 | every row counts, over the states shown by the builds from oldest to newest, the positions that change, that pass and that fail, and names the newest build that shows one |
| FlipCounts.RowsAreSeenTests | internal/tools/flaky.go:147-163 | there is a row for a test if and only if some build shows a state of it that counts, and one row for each |
| FlipCounts.RankedExactly | internal/tools/flaky.go:187-201 | the kept rows are exactly those with enough flips; more flips come first, then more failures, then the smaller name |
| FlipCounts.HistoryStatesAt | internal/tools/test_history.go:199-208 | the history's states are those of the test's first case in each build, at increasing positions, and no build that shows one that counts is left out |
| FlipCounts.HistoryRow | internal/tools/test_history.go:125-157 | every field of a build's row, from the first case with that full name or without one |
| FlipCounts.SummaryCounts | internal/tools/test_history.go:171-218 | the summary counts the builds whose first case passed, failed or was skipped, and the changes from one state to the next over the builds from oldest to newest |
| Sequences.LexIsByteOrder | internal/tools/flaky.go:200 | a name comes first if and only if it is a prefix of the other, or smaller at the first position where they differ |
| FlipCounts.TimelineExactly | internal/tools/test_history.go:159-195 | the timeline holds the row of every build but an ignored SKIPPED one, newest build first |
| BuildDiff.CollectParams | internal/tools/compare.go:231-241 | the last value of each named parameter over all actions |
| BuildDiff.CollectedHoldsLast | internal/tools/compare.go:231-241 | exactly the parameters with a name, each with the value at its last position over the actions and their parameters |
| BuildDiff.RenderParamsDiff | internal/tools/compare.go:186-229 | three sorted, duplicate-free sections that hold exactly the removed, added and changed parameters |
| BuildDiff.LinesAreExact | internal/tools/compare.go:190-209 | which lines are printed, with which values, said on the two builds' parameters |
| BuildDiff.PatchGivesB | internal/tools/compare.go:190-209 | applying the printed lines to A's parameters gives B's, as shown |
| BuildDiff.NoDiffMeansSame | internal/tools/compare.go:211-213 | "(no diff)" if and only if both builds show the same parameters |
| BuildDiff.SwapSwapsLines | internal/tools/compare.go:190-209 | swapping the builds swaps added with removed and the two sides of each change |
| BuildDiff.DiffTextIsDetermined | internal/tools/compare.go:215-227 | the printed lines do not depend on map iteration order |
| BuildDiff.CollectTests | internal/tools/compare.go:360-371 | exactly the full names of the cases, each with the state of its last case, unknown states included |
| BuildDiff.RenderTestsDiff | internal/tools/compare.go:386-419 | four sorted lists that hold exactly the tests of each bucket, new ones under their label |
| BuildDiff.BucketsAreExact | internal/tools/compare.go:389-414 | which tests are listed as passed then failed, failed then passed, and removed |
| BuildDiff.BucketsAreDisjoint | internal/tools/compare.go:389-414 | no test name is in two of the three unlabelled lists, and a test only build B has is in none |
| BuildDiff.NewTestsAreLabelled | internal/tools/compare.go:391-401 | the labels listed as new are exactly those of the tests only build B has, one for each |
| BuildDiff.SwapSwapsBuckets | internal/tools/compare.go:389-419 | swapping the builds swaps the transition lists and turns removed tests into new ones |
| BuildDiff.TestsDiffIsDetermined | internal/tools/compare.go:389-419 | the lists do not depend on map iteration order |
| BuildDiff.RenderStagesDiff | internal/tools/compare.go:307-343 | the names are those of B's then A's stages at their first positions; the reported changes are, in that order, exactly the names whose last statuses differ or that one build lacks, each with the status of its last stage in either build |
| BuildDiff.OrderedNames | internal/tools/compare.go:316-329 | every stage name of either build once: B's names in first-occurrence order, then those only A has |
| BuildDiff.ChangesAreExact | internal/tools/compare.go:331-343 | the reported stages are exactly the names whose last status differs or that one build lacks, in list order, with both sides |
| Ginkgo.ParseGinkgoFailures | internal/tools/failures.go:41-82 | the last summary line, its announced total, and one failure per [FAIL] line up to the first block end after it; nothing without a summary |
| Ginkgo.EndsBlockExact | internal/tools/failures.go:62 | a line ends the block if and only if both "Ran " and " Specs" occur in it |
| Ginkgo.ScanBlock | internal/tools/failures.go:53-80 | the forward scan with its open record yields the failures of the block's [FAIL] lines, each with the first reference before the next one |
| Ginkgo.FailLinesExact | internal/tools/failures.go:60-73 | the [FAIL] lines are exactly the matching lines of the block, in increasing order |
| Ginkgo.FailuresMatchLines | internal/tools/failures.go:60-73 | line numbers lie in the block, strictly increase, and each failure carries the header of its line |
| Ginkgo.EveryFailIsReported | internal/tools/failures.go:60-73 | every [FAIL] line of the block has its failure |
| Ginkgo.FirstRefExact | internal/tools/failures.go:74-78 | the reference is that of the first detail line that has one, and empty if and only if none has |
| Ginkgo.FailureRefIsFirst | internal/tools/failures.go:60-80 | every reported failure carries the first reference between its line and the next header or block end, and none if and only if there is none |
| Ginkgo.DetailsHoldNoFail | internal/tools/failures.go:60-78 | the lines searched for a reference reach from the [FAIL] line to the next one or the block end and hold no other |

## Left out

- HTTP transport, authentication, crumb caching, JSON and XML decoding, MCP registration, environment settings and debug logging: responses are decoded data.
- Regular expressions other than the slug alphabet and the `Finished:` marker: name filters, path filters and the Ginkgo line patterns are arbitrary functions. A file reference is taken to be non-empty, since its pattern starts with a slash.
- Bytes and text encoding: logs, names and paths are sequences of characters.
- Go's 64-bit integers: numbers, sizes and timestamps are unbounded.
- Partial file writes: a failed `os.WriteFile` leaves the directory unchanged and a successful one is a single step.
- Least-recently-used order under concurrency: it is proved for sequential runs. The concurrent model leaves modification times open and covers transparency, capacity, mutual exclusion and progress.
- CacheProtocol.CapacityHolds: takes directory listings to succeed and to show every file; removals may be refused for any fixed set of files. The sequential eviction allows any refusal.
- CacheProtocol.StepsRunOut: the wait for the mutex depends on the scheduler; that a waiting `Fetch` is served in the end needs fairness and is not stated.
- FanOut.ReturnsSequentialMap: the fetch function is taken to depend on its item only.
- FanOut.DiscoverCompletedBuilds: requires a positive sample size, which both call sites ensure (`internal/tools/flaky.go:69-75`, `internal/tools/test_history.go:60-66`).
- FolderWalk.Walker.Walk: requires that the cap is not reached yet, which is how every call site in the source calls it. A failed request and an unreadable listing are one case.
- Tail.TailRunningBuild: the `X-Text-Size` header is taken to equal the log length and to be readable; the display newline and the footer are not modelled. Past the end of the log Jenkins is taken to answer with an empty body.
- Flips.CountersAgree: needs distinct build numbers; on a report that the two tools see differently (`Flips.PairedExactly`) nothing is claimed.
- Flips.FirstLine: blanks are the ASCII ones.
- Flips.GetFlakyCandidates: starts from the completed builds found; that the fan-out's results are those of a loop over them is `FanOut.ReturnsSequentialMap`.
- BuildDiff.RenderParamsDiff: how a parameter value is shown is an arbitrary function. Header and change-set differences, and the builds without tests or stages, are not modelled.
- BuildDiff.NewTestsAreLabelled: speaks of names; a printed label such as `x [FAILED]` can equal the name of another test.
- BuildDiff.RenderTestsDiff: the printed lists are cut after 100 names, the model has them whole.
- `StripANSI`, `HeadTail`, `truncate`, `padRight`, error snippets and console search windows: functions from one string to another that remove colour codes, cut a text at its head and tail, shorten or pad it, or quote lines around a match.
- Column formatting, headings, hints and footers.
- Wall-clock polling, per-job timeouts and permission probes.
- The build, node, plugin, queue, branch, pull-request, pipeline, health, test-search and recent-failure tools: they fetch, filter and print.
