/** Case results and their severity order (src/sandbox/run/run.hpp, run.cpp), and the
    verdict of one group as a function of the tests it gets to grade. */
module Verdicts {
  import opened Sequences

  // Ordered by precedence, from least to most severe.
  datatype Status = Skip | Ok | Failed | Timeout | MemoryError | RuntimeError | SystemError

  function Rank(s: Status): nat {
    match s
    case Skip => 0
    case Ok => 1
    case Failed => 2
    case Timeout => 3
    case MemoryError => 4
    case RuntimeError => 5
    case SystemError => 6
  }

  datatype CaseResult = CaseResult(status: Status, timeMs: int, memoryKb: int) {
    /** CaseResult::add: the pointwise maximum. */
    function Add(other: CaseResult): CaseResult {
      CaseResult(if Rank(status) < Rank(other.status) then other.status else status,
                 Max(timeMs, other.timeMs), Max(memoryKb, other.memoryKb))
    }
  }

  function Max(a: int, b: int): int { if a < b then b else a }

  const OK_RESULT := CaseResult(Ok, 0, 0)
  const SKIP_RESULT := CaseResult(Skip, 0, 0)
  const SYSTEM_ERROR_RESULT := CaseResult(SystemError, 0, 0)

  /** What grading a test yields in one run; a test that is run never ends SKIP. */
  type Judge = f: int -> CaseResult | forall t: int :: f(t).status != Skip
    witness (t: int) => OK_RESULT

  datatype Policy = Policy(skipTest: bool, skipGroup: bool)

  const GRADE_ALL := Policy(false, false)
  const SKIP_TEST := Policy(true, false)
  const SKIP := Policy(true, true)

  /** The tests of a list that are not recorded yet, first occurrences only, in list order. */
  function Fresh(tests: seq<int>, recorded: set<int>): (f: seq<int>)
    ensures NoDup(f)
    ensures forall t :: t in f <==> t in tests && t !in recorded
  {
    if tests == [] then []
    else
      var last := tests[|tests| - 1];
      var f := Fresh(tests[..|tests| - 1], recorded);
      assert tests == tests[..|tests| - 1] + [last];
      if last in recorded || last in f then f else f + [last]
  }

  /** They are in the order in which the list first mentions them. */
  lemma {:induction false} FreshKeepsOrder(tests: seq<int>, recorded: set<int>)
    ensures ListedInOrder(tests, Fresh(tests, recorded))
  {
    if tests != [] {
      var init, last := tests[..|tests| - 1], tests[|tests| - 1];
      var f := Fresh(init, recorded);
      FreshKeepsOrder(init, recorded);
      LongerListKeepsOrder(tests, f);
      if last !in recorded && last !in f {
        FirstListedPrefix(tests);
        assert Fresh(tests, recorded) == f + [last] && last !in init;
      }
    }
  }

  ghost predicate Passes(judge: Judge, tests: seq<int>) {
    forall t :: t in tests ==> judge(t).status == Ok
  }

  /** Position of the first test that is not OK, or the length of the list. */
  function FirstFailure(judge: Judge, tests: seq<int>): (k: nat)
    ensures k <= |tests|
    ensures forall i :: 0 <= i < k ==> judge(tests[i]).status == Ok
    ensures k < |tests| ==> judge(tests[k]).status != Ok
  {
    if tests == [] || judge(tests[0]).status != Ok then 0 else 1 + FirstFailure(judge, tests[1..])
  }

  /** The fresh tests that are really run: all of them, or those up to the first failure. */
  function Ran(judge: Judge, skipTest: bool, todo: seq<int>): (r: seq<int>) {
    var k := FirstFailure(judge, todo);
    if skipTest && k < |todo| then todo[..k + 1] else todo
  }

  function Outcomes(judge: Judge, todo: seq<int>, ran: seq<int>): (m: map<int, CaseResult>) {
    map t | t in todo :: if t in ran then judge(t) else SKIP_RESULT
  }

  /** What is recorded for the fresh tests. */
  function Recorded(judge: Judge, skipTest: bool, todo: seq<int>): (m: map<int, CaseResult>)
  {
    Outcomes(judge, todo, Ran(judge, skipTest, todo))
  }

  function JoinAll(judge: Judge, tests: seq<int>): CaseResult {
    if tests == [] then OK_RESULT
    else JoinAll(judge, tests[..|tests| - 1]).Add(judge(tests[|tests| - 1]))
  }

  function GroupVerdict(judge: Judge, skipTest: bool, todo: seq<int>): CaseResult {
    JoinAll(judge, Ran(judge, skipTest, todo))
  }

  // ---------- Facts about the fold ----------

  ghost predicate IsJoin(judge: Judge, tests: seq<int>, v: CaseResult) {
    && v.status != Skip && v.timeMs >= 0 && v.memoryKb >= 0
    && (forall t :: t in tests ==> Rank(judge(t).status) <= Rank(v.status) &&
                                   judge(t).timeMs <= v.timeMs && judge(t).memoryKb <= v.memoryKb)
    && (v.status == Ok || exists t :: t in tests && judge(t).status == v.status)
    && (v.timeMs == 0 || exists t :: t in tests && judge(t).timeMs == v.timeMs)
    && (v.memoryKb == 0 || exists t :: t in tests && judge(t).memoryKb == v.memoryKb)
  }

  /** The fold is an upper bound that is attained: its status is Ok or that of some test, and
      no test is worse; time and memory never fall below zero. */
  lemma {:induction false} JoinIsMaximum(judge: Judge, tests: seq<int>)
    ensures IsJoin(judge, tests, JoinAll(judge, tests))
  {
    if tests != [] {
      var init, last := tests[..|tests| - 1], tests[|tests| - 1];
      JoinIsMaximum(judge, init);
      assert tests == init + [last];
      assert judge(last).status != Skip;
      assert last in tests && forall t :: t in init ==> t in tests;
    }
  }

  lemma JoinOkIffPasses(judge: Judge, tests: seq<int>)
    ensures JoinAll(judge, tests).status == Ok <==> Passes(judge, tests)
  {
    JoinIsMaximum(judge, tests);
    forall t | t in tests ensures judge(t).status != Skip {}
  }

  // ---------- The severity order, without ranks ----------

  /** Some test of the list has this status in m. */
  ghost predicate Has(m: map<int, CaseResult>, tests: seq<int>, status: Status) {
    exists t :: t in tests && t in m && m[t].status == status
  }

  /** The most severe status among the tests: system errors come first, then runtime errors, memory
      errors, timeouts and failures; tests that passed or were skipped leave it OK. */
  ghost predicate WorstStatus(m: map<int, CaseResult>, tests: seq<int>, status: Status) {
    if Has(m, tests, SystemError) then status == SystemError
    else if Has(m, tests, RuntimeError) then status == RuntimeError
    else if Has(m, tests, MemoryError) then status == MemoryError
    else if Has(m, tests, Timeout) then status == Timeout
    else if Has(m, tests, Failed) then status == Failed
    else status == Ok
  }

  /** The least number that is not negative and not below any of the tests' numbers. */
  ghost predicate Largest(tests: seq<int>, number: int -> int, n: int) {
    n >= 0 && (forall t :: t in tests ==> number(t) <= n) && (n == 0 || exists t :: t in tests && number(t) == n)
  }

  /** v sums up what m records for the tests. */
  ghost predicate SumsUp(m: map<int, CaseResult>, tests: seq<int>, v: CaseResult) {
    && (forall t :: t in tests ==> t in m)
    && WorstStatus(m, tests, v.status)
    && Largest(tests, t => if t in m then m[t].timeMs else 0, v.timeMs)
    && Largest(tests, t => if t in m then m[t].memoryKb else 0, v.memoryKb)
  }

  /** The verdict of a group sums up what is recorded for the tests that it gets to grade, run or
      skipped. */
  lemma VerdictSumsUp(judge: Judge, skipTest: bool, todo: seq<int>)
    ensures SumsUp(Recorded(judge, skipTest, todo), todo, GroupVerdict(judge, skipTest, todo))
  {
    var ran, m := Ran(judge, skipTest, todo), Recorded(judge, skipTest, todo);
    var v := GroupVerdict(judge, skipTest, todo);
    RanWithin(judge, skipTest, todo);
    JoinIsMaximum(judge, ran);
    forall t | t in todo ensures t in m && m[t] == if t in ran then judge(t) else SKIP_RESULT {}
    hide JoinAll, Ran, Outcomes, Recorded, GroupVerdict;
    RunOrSkipped(judge, m, todo, ran, v);
  }

  lemma RunOrSkipped(judge: Judge, m: map<int, CaseResult>, todo: seq<int>, ran: seq<int>, v: CaseResult)
    requires (forall t :: t in ran ==> t in todo)
    requires forall t :: t in todo ==> t in m && m[t] == if t in ran then judge(t) else SKIP_RESULT
    requires IsJoin(judge, ran, v)
    ensures SumsUp(m, todo, v)
  {
    assert v.status == Ok || Has(m, todo, v.status);
    WorstIsAttained(m, todo, v.status);
    hide WorstStatus, Has;
    var time, memory := t => if t in m then m[t].timeMs else 0, t => if t in m then m[t].memoryKb else 0;
    assert Largest(todo, time, v.timeMs);
    assert Largest(todo, memory, v.memoryKb);
  }

  lemma WorstIsAttained(m: map<int, CaseResult>, tests: seq<int>, status: Status)
    requires forall t :: t in tests ==> t in m && Rank(m[t].status) <= Rank(status)
    requires status != Skip && (status == Ok || Has(m, tests, status))
    ensures WorstStatus(m, tests, status)
  {}

  lemma SumsUpAgrees(a: map<int, CaseResult>, b: map<int, CaseResult>, tests: seq<int>, more: seq<int>, v: CaseResult)
    requires SumsUp(a, tests, v) && forall t :: t in tests <==> t in more
    requires forall t :: t in tests ==> t in b && b[t] == a[t]
    ensures SumsUp(b, more, v)
  {
    forall status ensures Has(a, tests, status) <==> Has(b, more, status) {
      if t :| t in tests && t in a && a[t].status == status { assert t in more && t in b; }
      if t :| t in more && t in b && b[t].status == status { assert t in tests && t in a; }
    }
    var aTime, bTime := t => if t in a then a[t].timeMs else 0, t => if t in b then b[t].timeMs else 0;
    var aMemory, bMemory := t => if t in a then a[t].memoryKb else 0, t => if t in b then b[t].memoryKb else 0;
    hide Has;
    LargestAgrees(tests, more, aTime, bTime, v.timeMs);
    LargestAgrees(tests, more, aMemory, bMemory, v.memoryKb);
  }

  lemma LargestAgrees(tests: seq<int>, more: seq<int>, a: int -> int, b: int -> int, n: int)
    requires Largest(tests, a, n) && (forall t :: t in tests <==> t in more)
    requires forall t :: t in tests ==> a(t) == b(t)
    ensures Largest(more, b, n)
  {}

  /** Without SKIP_TEST every test that the group gets to grade is run and recorded. */
  lemma WithoutSkipTestShape(judge: Judge, todo: seq<int>)
    ensures Recorded(judge, false, todo) == map t | t in todo :: judge(t)
    ensures Ran(judge, false, todo) == todo
  {}

  /** A group's verdict is OK exactly when every test it may grade passes, under either policy,
      and it is never SKIP. */
  lemma VerdictOkIffPasses(judge: Judge, skipTest: bool, todo: seq<int>)
    ensures GroupVerdict(judge, skipTest, todo).status == Ok <==> Passes(judge, todo)
    ensures GroupVerdict(judge, skipTest, todo).status != Skip
  {
    var k := FirstFailure(judge, todo);
    var ran := Ran(judge, skipTest, todo);
    JoinIsMaximum(judge, ran);
    JoinOkIffPasses(judge, ran);
    if k < |todo| {
      assert ran[k] == todo[k];
      assert todo[k] in todo && !Passes(judge, todo);
    } else {
      assert Passes(judge, todo);
    }
  }

  /** Under SKIP_TEST the results of the fresh tests are a run of OK, then at most one real
      result that is not OK, then only SKIP; the verdict is that first bad status, or OK. */
  lemma SkipTestShape(judge: Judge, todo: seq<int>)
    requires NoDup(todo)
    ensures var k := FirstFailure(judge, todo);
            var m := Recorded(judge, true, todo);
            && (forall i :: 0 <= i < k ==> m[todo[i]].status == Ok)
            && (k < |todo| ==> m[todo[k]] == judge(todo[k]) && m[todo[k]].status !in {Ok, Skip})
            && (forall i :: k < i < |todo| ==> m[todo[i]] == SKIP_RESULT)
            && GroupVerdict(judge, true, todo).status ==
               if k < |todo| then judge(todo[k]).status else Ok
  {
    var k, ran := FirstFailure(judge, todo), Ran(judge, true, todo);
    forall i | 0 <= i < |todo| ensures todo[i] in ran <==> i <= k {
      if i <= k { assert ran[i] == todo[i]; }
    }
    assert forall i :: 0 <= i < |todo| ==> todo[i] in todo;
    if k < |todo| { assert judge(todo[k]).status != Skip; }
    SkipTestStatus(judge, todo);
  }

  lemma SkipTestStatus(judge: Judge, todo: seq<int>)
    ensures var k := FirstFailure(judge, todo);
            GroupVerdict(judge, true, todo).status == if k < |todo| then judge(todo[k]).status else Ok
  {
    var k := FirstFailure(judge, todo);
    if k < |todo| {
      var ran, before := todo[..k + 1], todo[..k];
      assert ran[..|ran| - 1] == before && ran[|ran| - 1] == todo[k];
      assert judge(todo[k]).status != Skip;
      assert Passes(judge, before);
      JoinOkIffPasses(judge, before);
    } else {
      VerdictOkIffPasses(judge, true, todo);
    }
  }

  // ---------- One more test, for the loop that grades a group ----------

  lemma FirstFailureSnoc(judge: Judge, f: seq<int>, t: int)
    ensures var k := FirstFailure(judge, f);
            FirstFailure(judge, f + [t]) ==
              if k < |f| then k else if judge(t).status == Ok then |f| + 1 else |f|
  {
    var k, k' := FirstFailure(judge, f), FirstFailure(judge, f + [t]);
    assert forall i :: 0 <= i < |f| ==> (f + [t])[i] == f[i];
    assert (f + [t])[|f|] == t;
  }

  lemma RanSnoc(judge: Judge, skipTest: bool, f: seq<int>, t: int)
    ensures var skipped := skipTest && FirstFailure(judge, f) < |f|;
            && Ran(judge, skipTest, f + [t]) == (if skipped then Ran(judge, skipTest, f) else f + [t])
            && (!skipped ==> Ran(judge, skipTest, f) == f)
  {
    FirstFailureSnoc(judge, f, t);
    hide FirstFailure;
    var k, longer := FirstFailure(judge, f), f + [t];
    assert k < |f| ==> longer[..k + 1] == f[..k + 1];
    assert longer[..|longer|] == longer;
  }

  lemma RecordedSnoc(judge: Judge, skipTest: bool, f: seq<int>, t: int)
    requires t !in f
    ensures var skipped := skipTest && FirstFailure(judge, f) < |f|;
            Recorded(judge, skipTest, f + [t]) ==
              Recorded(judge, skipTest, f)[t := if skipped then SKIP_RESULT else judge(t)]
  {
    RanSnoc(judge, skipTest, f, t);
    RanWithin(judge, skipTest, f);
    OutcomesSnoc(judge, f, Ran(judge, skipTest, f), t, !(skipTest && FirstFailure(judge, f) < |f|));
  }

  lemma OutcomesSnoc(judge: Judge, f: seq<int>, ran: seq<int>, t: int, run: bool)
    requires t !in f && t !in ran
    ensures Outcomes(judge, f + [t], if run then ran + [t] else ran) ==
            Outcomes(judge, f, ran)[t := if run then judge(t) else SKIP_RESULT]
  {}

  lemma RanWithin(judge: Judge, skipTest: bool, f: seq<int>)
    ensures forall x :: x in Ran(judge, skipTest, f) ==> x in f
  {}
}
