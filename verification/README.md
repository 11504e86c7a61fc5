# Verification of the submission judge

A Dafny model, with proofs, of the parts of this repository that decide who passes and that
no submission is lost.

- **Grading of one submission** (`src/sandbox`). Tests are bundled into named groups that depend
  on each other. A depth-first search rejects graphs with missing names or cycles and yields an
  order; grading walks that order under a two-bit skip policy and fills insert-only result maps.
- **The pool of workers** (`src/grader`). Three submission pools, each a queue plus an index with
  lazy deletion, and worker threads that go IDLE, NEW, BUSY, DONE, IDLE, or TERMINATED.
- **The text routines under them**: the whitespace-insensitive output comparison, the expansion of
  `{}` in path templates and the parser of lists such as `1,3,4-5`.

## How it is built

| file | content |
|---|---|
| `Sequences.dfy` | options, duplicate-free sequences |
| `KeyOrder.dfy` | the order in which a `std::map` with string keys is iterated |
| `GroupGraph.dfy` | groups, paths, the search as a function, its soundness and completeness |
| `SearchOrder.dfy` | which topological order the search finds, without reference to the search |
| `TopoSearch.dfy` | the search as the source runs it, over mutable sets and an output vector |
| `Verdicts.dfy` | case results, the severity order, the verdict of one group |
| `Grading.dfy` | what `grade` leaves behind at every point of an order |
| `SkipPolicy.dfy` | skip policies against GRADE_ALL |
| `OrderFree.dfy` | contents of the result maps, independence of the order |
| `SubmissionConfig.dfy` | `TestResult`, `grade_group`, `SubmissionConfig` as objects and loops |
| `SubmissionPool.dfy` | the queue-plus-index pool, as functions and as an object |
| `PoolProtocol.dfy` | the pool of workers as a transition system, and its invariant |
| `PoolRuns.dfy`, `PoolDrains.dfy` | safety over all runs; progress under fairness |
| `PoolKills.dfy`, `PoolFates.dfy` | which kills take a submission out of circulation; which submissions can still be graded |
| `SchedulerPass.dfy` | one undisturbed pass of the scheduler in closed form |
| `GraderPool.dfy` | `Grader` and `GraderPool` as objects whose methods are runs of the protocol |
| `EqualString.dfy`, `StringFormatter.dfy`, `ItemList.dfy` | the text routines |
| `ReplacementLoop.dfy` | for which values the template loop ends on every template |

`dafny verify dfyconfig.toml` checks everything.

## Reading notes

- `std::map` iterates in ascending key order (`KeyOrder.MapOrder`; characters are compared as
  unsigned bytes). The search is proved for every duplicate-free order of the keys; grading uses
  the map's own (`TopoSearch.CodeOrder`). Which order the search finds is stated twice: by the
  search itself and, independently, by the relation `SearchOrder.Precedes`.
- Running a test is a total function from test id to result (`Judge`) that never answers SKIP.
  Because each test runs at most once in a run (`OrderFree.EachTestRunsOnce`), a function loses
  nothing, however unpredictable the tested program is. `EqualString.CheckingJudge` builds such a
  function from what the output checker sees.
- A case result is copied by value into the maps, so it is a datatype; `CaseResult::add`, which
  overwrites a local accumulator, is an assignment of the pointwise maximum.
- In the protocol every test and every statement of the scheduler's loop body
  (`src/grader/grader_pool.cpp:32-43`) is a step of its own, and steps of the scheduler, the
  workers, the REST side and kills interleave freely. A kill of a worker waits until it is not
  BUSY, as the source does, and may otherwise fall anywhere, also between a test and the statement
  it guards. Accepted ids are distinct. Workers start after their initialisation, which cannot fail
  (`src/grader/grader.cpp:59-63`).
- Single steps are atomic. Each of these pairs of a test and a write in `src/grader/grader.cpp` is
  one step: in `grade`, the test of the status and the write of the new one (`:44-54`); in the
  worker's loop, the test of NEW and the write of BUSY (`:110-111`); in a kill, the end of the wait
  for BUSY and the write of TERMINATED (`:72-87`).
- A submission is *out of circulation* (`PoolKills.Taken`) if its worker was killed with it, or was
  killed while the submission was on its way to it.

### Findings

- **`get_first` discards live entries.** The loop test at `src/grader/submission_pool.cpp:25` skips
  entries that *are* in the index, although its only caller, `src/grader/grader_pool.cpp:39`, needs
  one that is. As written, no submission is ever dispatched: the first attempt unwraps an empty
  optional (`PoolRuns.AsWrittenNothingIsGraded`). The two readings of the loop agree exactly on the
  empty queue (`SubmissionPools.LoopsAgreeIffEmpty`). The pool results below are about the loop that
  stops at the first entry still in the index.
- **Skipping can change a verdict when test lists overlap.** A test that two groups list is graded
  by the first of them only; if that one is skipped, the test falls to the other
  (`SkipPolicy.SharedTestEscapes`). `SkipPolicy.SkipPreservesVerdictsIff` gives the exact condition
  on a configuration under which SKIP agrees with GRADE_ALL for every judge; disjoint lists meet it.
  In the other direction skipping is always safe: it never turns a failure into a pass.
- **A failed node of the search would be accepted if it were asked again**
  (`GroupGraph.FailureIsForgotten`); the search is right because it stops at the first false.
- **A kill can take a submission out of circulation.** If a worker is killed after it was found
  idle and before the hand-over, `grade` ignores the call (`src/grader/grader.cpp:43-57`): the
  submission stays in the grading pool and no worker holds it (`PoolKills.StrandedIff`, exact for
  all runs; `PoolKills.KillCanStrand` gives a schedule). If it is killed while NEW, or while DONE
  before the scheduler has seen that, its submission stays with it. In both cases the submission
  is never graded and ends up reported as GRADING for ever (`PoolKills.TakenForever`). Kills at any
  other moment cost no submission (`PoolKills.TakenIff`), and while a worker is alive everything
  else can still be graded (`PoolFates.CanBeGradedIff`).
- **A status query consists of three reads.** Asking the later pool first is right for states
  between the scheduler's statements, but if statements fall between the reads, an accepted id can
  be reported NOT_EXISTS (`PoolRuns.SplitQueryCanMiss`), exactly when it passed from not filed to
  off the grading pool between the first two reads, or left the waiting pool between the last two
  (`PoolRuns.SplitQueryMissesIff`). Reading in the opposite order cannot miss
  (`PoolRuns.ForwardReadsNeverMiss`).
- **Replacing and searching again is one pass over the template exactly for clean values**: not
  empty, without `{}`, not starting with `}` and not ending in `{`
  (`StringFormatter.RescanIsOnePassIffClean`). The loop ends on every template exactly for values
  that hold no `{}` and do not lie between `}}` and `{{` (`ReplacementLoop.EndsOnEveryTemplateIff`);
  the value `}}{{` makes it run forever on the template `{{}`. No caller passes such a value: the
  call sites, `src/sandbox/run/equal_string.cpp:44` and `:61`, pass a test id printed by
  `std::to_string`, which is clean (`ItemLists.PrintedIdsAreClean`).

## Model

| member | source | states |
|---|---|---|
| GroupGraph.FindTopoCorrect | src/sandbox/submission_config.cpp:14-44 | the search answers true iff every named dependency exists and no group depends on itself, for every iteration order; its order then lists each group once, after all its dependencies |
| GroupGraph.RejectionHasWitness | src/sandbox/submission_config.cpp:41-43 | on false there is a concrete path from a group into a missing name or back into itself, although failed nodes stay visited |
| GroupGraph.VisitFails | src/sandbox/submission_config.cpp:20-39 | when parent is the current call path, a false answer extends that path to a bad one |
| GroupGraph.VisitSound | src/sandbox/submission_config.cpp:20-39 | a true answer keeps the finished nodes in topological order and finishes the node asked for |
| GroupGraph.VisitRestoresParent | src/sandbox/submission_config.cpp:28-32 | parent is the call path again after every query, successful or not |
| GroupGraph.TopoOrderImpliesValid | src/sandbox/submission_config.cpp:115-120 | a graph that has a topological order has no missing name and no cycle |
| GroupGraph.FailureIsForgotten | src/sandbox/submission_config.cpp:22-24 | a failed group, asked again outside its own call, is accepted |
| SearchOrder.SearchOrderIsUnique | src/sandbox/submission_config.cpp:14-44 | in an accepted graph the order found is the only listing of all groups in which u stands before v whenever an earlier key is or needs u first, or the same key does and, if it is neither, its dependencies in turn put u first |
| SearchOrder.VisitAllAddsInOrder | src/sandbox/submission_config.cpp:28-36 | the same for what the search adds for any list of names, from any state of a search without failure |
| SearchOrder.EarlierNameFirst | src/sandbox/submission_config.cpp:41-43 | what an earlier key is or needs stands before whatever only later keys lead to |
| KeyOrder.LessIff | src/sandbox/group.hpp:28 | a key is smaller iff it is a proper prefix of the other, or has the smaller character at the first index where they differ |
| KeyOrder.MapOrderIsUnique | src/sandbox/group.hpp:28 | the order in which a map of groups is iterated is determined by its keys |
| TopoSearch.Finder.ValidFrom | src/sandbox/submission_config.cpp:20-39 | the closure over mutable sets and optional vector terminates and does what the search function says; after a success the groups it added are those its name is or needs, dependencies in turn, the name itself last |
| TopoSearch.FindTopoOrder | src/sandbox/submission_config.cpp:14-44 | true iff the graph is valid, the same with and without an output vector; the vector is the one topological order that takes the map's keys, and below them the dependencies, in turn |
| SubmissionConfigs.SubmissionConfig.Validate | src/sandbox/submission_config.cpp:46-48 | true iff the groups form a valid graph |
| SubmissionConfigs.SubmissionConfig.UpdateGroups | src/sandbox/submission_config.cpp:73-81 | group_order stays a duplicate-free list of exactly the groups, new names appended in order of first mention; each group becomes what its entries say; a list that no entry sets stays, and is empty for a new group |
| SubmissionConfigs.LastEntryWins | src/sandbox/submission_config.cpp:79 | the last entry that sets a group's tests or dependencies decides them |
| Verdicts.JoinIsMaximum | src/sandbox/run/run.cpp:37-41 | the running fold is an attained maximum of severity, time and memory, and never SKIP |
| Verdicts.VerdictSumsUp | src/sandbox/run/run.hpp:12-22 | a group's status is SYSTEM_ERROR iff one of its tests has it, otherwise RUNTIME_ERROR iff one has that, then MEMORY_ERROR, TIMEOUT, FAILED, and else OK; time and memory are the largest recorded |
| Verdicts.FreshKeepsOrder | src/sandbox/submission_config.cpp:88-92 | the tests left to a group are graded in the order in which its list first mentions them |
| Verdicts.VerdictOkIffPasses | src/sandbox/submission_config.cpp:85-101 | under either policy a graded group is OK iff every test left to it passes, and it is never SKIP |
| Verdicts.SkipTestShape | src/sandbox/submission_config.cpp:94-98 | under SKIP_TEST: a run of OK, at most one real bad result, then only SKIP; the verdict is that first bad status or OK |
| Verdicts.WithoutSkipTestShape | src/sandbox/submission_config.cpp:94 | without SKIP_TEST every test left to the group is run and recorded |
| SubmissionConfigs.GradeGroupInto | src/sandbox/submission_config.cpp:85-101 | the loop with skip flag and running maximum yields the declaratively specified results for the tests not recorded before, and a group result that sums them up by severity, time and memory |
| SubmissionConfigs.SkipIsAbsorbed | src/sandbox/run/run.hpp:12-22 | joining a SKIP never changes a group's verdict |
| SubmissionConfigs.AnyDependencyFailed | src/sandbox/submission_config.cpp:127-129 | true iff some dependency's recorded result is not OK |
| SubmissionConfigs.TestResult.SetTestResult | src/sandbox/test_result.hpp:46-48 | inserts the result under its test, keeping an entry that is already there and all others |
| SubmissionConfigs.TestResult.SetGroupResult | src/sandbox/test_result.hpp:50-52 | inserts the result under its group, keeping an entry that is already there and all others |
| SubmissionConfigs.SubmissionConfig.Grade | src/sandbox/submission_config.cpp:103-138 | finishes iff validate would accept; all results are those of the specification for the very order found by the search; a skipped group has a SKIP of 0 and 0, any other group's result sums up the recorded results of the tests it got to grade; with disjoint lists the results are the order-free ones; without groups, tests 1 to n and one result that sums them up |
| Grading.SkippedIff | src/sandbox/submission_config.cpp:125-133 | a dependency's result is always present when it is read; a group is skipped iff the policy says so and a direct dependency did not end OK |
| Grading.GroupResultKept | src/sandbox/test_result.hpp:50-52 | a recorded group result never changes |
| Grading.RecordedIff | src/sandbox/submission_config.cpp:89-97 | a test is recorded iff a group that was not skipped lists it |
| SkipPolicy.SkipExactlyBelowFailure | src/sandbox/submission_config.cpp:122-135 | a group ends SKIP iff, under SKIP_GROUP, some near or far dependency was graded and ended worse than OK |
| SkipPolicy.SkipTestAloneKeepsVerdicts | src/sandbox/submission_config.cpp:94-98 | under SKIP_TEST alone a group is OK iff it is under GRADE_ALL, however test lists overlap |
| SkipPolicy.SkipNeverFlatters | src/sandbox/submission_config.cpp:103-138 | a group that is OK under SKIP_GROUP or SKIP is OK, with all it depends on, under GRADE_ALL, however test lists overlap |
| SkipPolicy.SkipPreservesVerdictsIff | src/sandbox/submission_config.cpp:85-138 | for every judge each group is OK under SKIP iff it and all it depends on are OK under GRADE_ALL, if and only if no test can escape from a skipped group to a later one |
| SkipPolicy.DisjointTestsPreserveVerdicts | src/sandbox/submission_config.cpp:85-138 | with disjoint test lists SKIP preserves every verdict |
| SkipPolicy.EscapeChangesVerdict | src/sandbox/submission_config.cpp:90-92 | a test that can escape makes the verdicts of a concrete judge differ |
| SkipPolicy.SharedTestEscapes | src/sandbox/submission_config.cpp:90-92 | a concrete configuration on which, in the very order that the search yields, SKIP changes a verdict |
| OrderFree.EachTestRunsOnce | src/sandbox/submission_config.cpp:88-99 | no test runs twice; what ran is recorded as graded, everything else as SKIP |
| OrderFree.TestResultKept | src/sandbox/test_result.hpp:46-48 | a recorded test result never changes |
| OrderFree.GradeAllRecordsEverything | src/sandbox/submission_config.cpp:85-101 | under GRADE_ALL the test map is the judge restricted to all listed tests, even with overlaps |
| OrderFree.GroupResultSumsUp | src/sandbox/submission_config.cpp:99-100 | in every run the result of a group that is not skipped sums up the final results of the tests it got to grade |
| OrderFree.GroupResultClosedForm | src/sandbox/submission_config.cpp:115-137 | with disjoint lists a group's result is SKIP below an own-failing dependency and its own verdict otherwise, whatever the order |
| OrderFree.TestResultClosedForm | src/sandbox/submission_config.cpp:115-137 | the same for every test's recorded result |
| OrderFree.OrderDoesNotMatter | src/sandbox/submission_config.cpp:115-137 | with disjoint lists any two topological orders give the same test and group results |
| OrderFree.RunsEndAsExpected | src/sandbox/submission_config.cpp:103-138 | with disjoint lists every run over a topological order ends with exactly the order-free result for every group and every listed test, and nothing else recorded |
| SubmissionPools.AddAppendsIff | src/grader/submission_pool.cpp:7-10 | add appends to the FIFO of live entries iff no stale entry carries the id |
| SubmissionPools.RemoveDeletes | src/grader/submission_pool.cpp:12-14 | remove deletes by key from that FIFO and keeps the order |
| SubmissionPools.PopUntilIs | src/grader/submission_pool.cpp:16-28 | with either test exactly the entries up to the first that meets it are popped |
| SubmissionPools.GetFirstTakesHead | src/grader/submission_pool.cpp:16-28 | with the intended test get_first takes the head of that FIFO and fails only when it is empty |
| SubmissionPools.AsWrittenNeverYieldsLive | src/grader/submission_pool.cpp:19-25 | the loop as written never yields a live entry, and empties a queue of live entries |
| SubmissionPools.LoopsAgreeIffEmpty | src/grader/submission_pool.cpp:25 | written and intended loop agree iff the queue is empty |
| SubmissionPools.SubmissionPool.GetFirst | src/grader/submission_pool.cpp:16-28 | the loop, for either test, takes the first entry that meets it, drops those before it and leaves those after it; none, and an empty queue, iff no entry meets it |
| SubmissionPools.SubmissionPool.AddSubmission | src/grader/submission_pool.cpp:7-10 | appends to the queue; the index gains the id and keeps an entry that was there |
| SubmissionPools.SubmissionPool.RemoveSubmission | src/grader/submission_pool.cpp:12-14 | erases the id from the index only; queue and other entries stay |
| PoolProtocol.StepInv | src/grader/grader_pool.cpp:30-45 | every test and statement of the scheduler, every step of a worker, acceptance and kill, wherever it falls, keeps the invariant that fixes each id's indexes and runs by its place |
| PoolProtocol.DispatchTakesOldest | src/grader/grader_pool.cpp:38-39 | at the call site every queued entry is live, so the oldest is taken and the optional is never empty |
| PoolRuns.IndexesPartition | src/grader/grader_pool.cpp:30-56 | in every run the three indexes list exactly the accepted ids, each once except during a hand-over |
| PoolRuns.EntriesAreAccepted | include/grader/submission_pool.hpp:21-25 | what the destructors free are the accepted submissions, under their own ids |
| PoolRuns.GradingIsWorkerSlots | src/grader/grader_pool.cpp:30-45 | the grading index is exactly what workers hold or were killed with, plus the one in hand and those stranded; no two workers hold the same |
| PoolRuns.GradedOnce | src/grader/grader.cpp:108-116 | each submission is passed to grade_submission at most once, and every graded one was |
| PoolRuns.DispatchIsFifo | src/grader/grader_pool.cpp:38-42 | dispatch order is acceptance order; a positive size guarantees a submission; the scheduler never crashes |
| PoolRuns.StatusMeans | src/grader/grader_pool.cpp:58-63 | in every run GRADED is reported iff the id has been filed in the graded pool, GRADING iff it is in the grading pool and not filed, WAITING iff it was accepted and is in neither, NOT_EXISTS iff it was never accepted |
| PoolRuns.StatusMonotone | src/grader/grader_pool.cpp:58-63 | reported status never goes back along a run, and is NOT_EXISTS exactly for ids never accepted |
| PoolRuns.SplitQueryMissesIff | src/grader/grader_pool.cpp:58-63 | with steps between the three reads an accepted id is reported NOT_EXISTS iff it was filed and unlisted between the first two reads, or was still waiting at the second and had left the waiting pool by the third |
| PoolRuns.SplitQueryCanMiss | src/grader/grader_pool.cpp:58-63 | a concrete schedule on which that happens |
| PoolRuns.ForwardReadsNeverMiss | src/grader/grader_pool.cpp:58-63 | reading waiting, grading, graded in that order never misses an accepted id |
| PoolKills.StrandedIff | src/grader/grader_pool.cpp:38-42 | in every run a submission sits in the grading pool with no worker, alive or killed, and without being in the scheduler's hand, iff its hand-over is over and some kill hit its worker after it was found idle for it and before the hand-over |
| PoolKills.TakenIff | src/grader/grader_pool.cpp:30-45 | in every run a submission is out of circulation iff some kill hit the worker it was on its way to, or the worker that held it before the scheduler saw that worker DONE |
| PoolKills.TakenForever | src/grader/grader.cpp:81-93 | out of circulation is final along every continuation, further accepts and kills included: never graded, never run again, and reported as being graded once it is with a killed worker or stranded |
| PoolKills.StrandedForever | src/grader/grader.cpp:43-57 | such a submission is never run and is reported as being graded along every continuation |
| PoolKills.KillCanStrand | src/grader/grader_pool.cpp:38-42 | a concrete schedule on which a kill strands a submission |
| PoolFates.CanBeGradedIff | src/grader/grader_pool.cpp:90-103 | while a worker is alive, an accepted submission can still become GRADED on some schedule iff it is not out of circulation |
| PoolFates.BeyondGradingIff | src/grader/grader_pool.cpp:90-103 | after any run that leaves a worker alive, an accepted submission can never be graded iff one of the run's kills took it |
| PoolRuns.AsWrittenNothingIsGraded | src/grader/submission_pool.cpp:19-25 | with the loop as written no run dispatches or grades anything, and the first attempt crashes, whatever falls between the test and the pop |
| PoolDrains.UsefulStepsAreBounded | src/grader/grader_pool.cpp:30-45 | useful steps are bounded by a weight that each of them lowers, under any interleaving |
| PoolDrains.SomethingToDo | src/grader/grader_pool.cpp:30-45 | while something is not settled and a worker is alive, a worker has a step to take, or the scheduler has one now or at a later position of its round |
| PoolDrains.FairRunsSettle | src/grader/grader_pool.cpp:90-103 | from every state that meets the invariant and has a worker alive, as many fair rounds as the total weight leave every accepted submission graded, killed with its worker, or stranded |
| PoolDrains.FairRunsDrain | src/grader/grader_pool.cpp:90-103 | if no worker was killed, those rounds end with everything graded |
| PoolDrains.EveryRunCanFinish | src/grader/grader_pool.cpp:90-103 | after any run that leaves a worker alive, kills included, that many fair rounds settle everything accepted in it, and grade it all if nobody was killed |
| GraderPools.Grader.Grade | src/grader/grader.cpp:43-57 | hand-over from IDLE to NEW, release from DONE to IDLE; BUSY, NEW and TERMINATED workers ignore the call |
| GraderPools.Grader.Terminate | src/grader/grader.cpp:81-93 | a worker that is not BUSY ends TERMINATED |
| GraderPools.GraderPool.AddSubmission | src/grader/grader_pool.cpp:47-56 | pushes on the waiting pool and answers 0 while running, otherwise changes nothing and answers 1; for a new id this is the acceptance step of the protocol |
| GraderPools.GraderPool.GetSubmissionStatus | src/grader/grader_pool.cpp:58-63 | GRADED iff in the graded pool, GRADING iff in the grading pool only, WAITING iff accepted and in neither, NOT_EXISTS iff never accepted |
| GraderPools.GraderPool.AssignSubmissionToGrader | src/grader/grader_pool.cpp:30-45 | one undisturbed pass is a run of the protocol: finished submissions are filed in the order of the workers; the k-th worker that was IDLE or DONE gets the k-th oldest waiting submission, as far as they go; the other DONE ones become IDLE; nothing else changes |
| GraderPools.GraderPool.Kill | src/grader/grader_pool.cpp:112-128 | called while the scheduler stands anywhere: every worker ends TERMINATED after finishing what it grades, the pool stops accepting, and the three pools keep every submission |
| EqualString.WordsOfLayout | src/sandbox/run/equal_string.cpp:80-91 | however words are laid out, extraction yields those words |
| EqualString.EveryTextIsALayout | src/sandbox/run/equal_string.cpp:80-91 | every text is a layout of its words, so nothing but whitespace is ignored |
| EqualString.SixSpaces | src/sandbox/run/equal_string.cpp:83-84 | whitespace is space, tab, newline, vertical tab, form feed and carriage return |
| EqualString.Reader.Read | src/sandbox/run/equal_string.cpp:83-84 | formatted string extraction with its end-of-file and fail flags takes the next word |
| EqualString.CheckOutput | src/sandbox/run/equal_string.cpp:76-95 | the checker terminates; signal 11 gives MEMORY_ERROR, 24 TIMEOUT, any other RUNTIME_ERROR; after an exit OK iff the words are equal and FAILED iff they differ, whichever stream ends first |
| EqualString.GradeTest | src/sandbox/run/equal_string.cpp:20-103 | the statuses of the check with the run's own time and memory; a failed pipe or fork, a missing solution file, missing usage figures or a dead checker (`src/sandbox/run/run.cpp:119-131`) give SYSTEM_ERROR with 0 and 0 |
| EqualString.GroupPassesIffOutputsMatch | src/sandbox/run/equal_string.cpp:20-103 | end to end, under every policy: a group passes iff every test that it or, under SKIP_GROUP, a group it needs is the first to list exited and printed the solution's words, provided no test can escape under SKIP_GROUP |
| EqualString.DisjointGroupPassesIffOutputsMatch | src/sandbox/run/equal_string.cpp:20-103 | with disjoint lists, under every policy: a group passes iff its tests and, under SKIP_GROUP, those of all groups it needs exited and printed the solution's words |
| StringFormatter.GetString | src/sandbox/utility.hpp:29-37 | wherever the source loop ends, the method yields the placeholder-free string it ends with; for a clean value that is the text between the placeholders with the value for each of them |
| StringFormatter.SubstituteFillsIn | src/sandbox/utility.hpp:29-37 | on text with a placeholder after each part but the last, one pass gives the same parts with the value between them |
| StringFormatter.TemplateIsGlued | src/sandbox/utility.hpp:33 | every template is such a text |
| StringFormatter.RescanIsOnePassIffClean | src/sandbox/utility.hpp:33-35 | on every template the replace-and-search-again loop ends with the result of one left-to-right pass, iff the value is clean; one pass leaves no placeholder on any template iff the value is clean |
| StringFormatter.HoleInValueNeverEnds | src/sandbox/utility.hpp:33-35 | a value that holds a placeholder leaves one after any number of replacements, on every template that has one |
| ReplacementLoop.EndsOnEveryTemplateIff | src/sandbox/utility.hpp:33-35 | the loop ends on every template iff the value holds no placeholder and does not both start with two closing and end in two opening braces |
| ReplacementLoop.CrossedBracesNeverEnd | src/sandbox/utility.hpp:33-35 | a value between `}}` and `{{` leaves a placeholder after any number of replacements, on every template that has `{{}` or `{}}` in it |
| ReplacementLoop.AnyOrder | src/sandbox/utility.hpp:33-35 | the number of replacements needed does not depend on which placeholder is replaced first |
| ItemLists.JoinSplit | src/sandbox/group.cpp:40-46 | the pieces rejoined with commas give the text back |
| ItemLists.ConvertItemList | src/sandbox/group.cpp:30-52 | the loop treats exactly the comma-free pieces, in order: the result is all their lists chained, or, if the first piece that is no list is invalid, empty, and otherwise that piece's error |
| ItemLists.PushRange | src/sandbox/group.cpp:18-20 | the counting loop yields t - s + 1 numbers, the k-th being s + k, none if t < s, and runs past the int maximum iff the range ends there |
| ItemLists.StoiReads | src/sandbox/group.cpp:16-22 | stoi skips whitespace, takes a sign and digits, ignores the rest, and refuses what does not fit an int |
| ItemLists.StoiRefuses | src/sandbox/group.cpp:16-22 | without a digit after whitespace and an optional sign stoi refuses |
| ItemLists.TestItemIs | src/sandbox/group.cpp:12-24 | a piece is cut at its first dash; it is invalid or out of range if its left part is, then if its right part is, and otherwise the number or the range |
| ItemLists.ListRoundTrip | src/sandbox/group.cpp:12-52 | a rendered non-empty list of numbers and spans is parsed to its expansion, in order |
| ItemLists.DocumentedExamples | src/sandbox/group.cpp:12-52 | "1,4-10" is 1 and 4 to 10; "1,x" is the empty list |
| ItemLists.NamesAreThePieces | src/sandbox/group.cpp:26-28 | a list of names is its pieces |
| ItemLists.ParsedIdsAreNonNegative | src/sandbox/group.cpp:12-24 | no text, however malformed, yields a negative test id |
| ItemLists.PrintedIdsAreClean | src/sandbox/run/equal_string.cpp:22 | every printed non-negative test id is a clean template value |
| ItemLists.PrintIsShortest | src/sandbox/run/equal_string.cpp:22 | a printed number has no leading zero |

## Left out

- Processes, pipes, resource limits and seccomp: what they deliver is the result of a test, an argument of the model.
- Grading a whole submission in a workspace (`src/grader/grade_script.cpp`): one opaque step between BUSY and DONE.
- The REST server and the decoding of JSON and YAML: configurations and submissions are taken as decoded records.
- The C++ memory model: the code reads and writes status fields and maps without locks; each step of the protocol is assumed atomic.
- GraderPools.GraderPool.AddSubmission: for an id accepted before it states the new waiting pool (`index.insert` silently keeps the first entry) but not that the invariant survives; acceptance of a known id is not a step of the protocol.
- GraderPools.GraderPool.Kill: one call with no other thread between the terminations of the workers; kills that interleave with the scheduler and the REST side are the protocol's runs, one `Kill` step for each worker.
- GraderPools.GraderPool.AssignSubmissionToGrader: one pass with no other thread inside it; passes that interleave with workers, kills and queries are the protocol's runs, whose statements `File`, `Unlist`, `Release`, `Pop`, `List`, `Claim` and `Hand` are methods of their own.
- The outer loop of `GraderPool::start` and thread creation: the scheduler's passes follow each other in the protocol instead.
- A missing run configuration (a null pointer when no `run` key was given): grading starts from a given one.
- The statuses INIT and ERROR of a worker: initialisation always succeeds in the source.
- ItemLists.PushRange: counting past the largest int is undefined in the source; the model reports it as `Overflow`.
- Printing of results, and the copies of groups and group order that `TestResult` keeps for it; logging, paths and the rounding of time limits.
- Decoding of a group's entry: its lists arrive parsed; `ConvertItemList` is the parser.
