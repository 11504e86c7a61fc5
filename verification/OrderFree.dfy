/** What a finished grading run contains, and that with disjoint test lists it does not
    depend on which topological order was taken. */
module OrderFree {
  import opened Sequences
  import opened GroupGraph
  import opened Verdicts
  import opened Grading
  import opened SkipPolicy

  // ---------- Each test runs at most once ----------

  /** Runs are never repeated; what ran is recorded as graded, the rest as SKIP. */
  ghost predicate Faithful(judge: Judge, st: Results) {
    && NoDup(st.log)
    && (forall t :: t in st.log ==> t in st.tests)
    && (forall t :: t in st.tests ==> st.tests[t] == if t in st.log then judge(t) else SKIP_RESULT)
  }

  lemma GradeGroupFaithful(judge: Judge, skipTest: bool, name: string, tests: seq<int>, st: Results)
    requires Faithful(judge, st)
    ensures Faithful(judge, GradeGroup(judge, skipTest, name, tests, st))
    ensures !skipTest ==> Elems(GradeGroup(judge, skipTest, name, tests, st).log) ==
                          Elems(st.log) + Elems(Fresh(tests, st.tests.Keys))
  {
    var todo := Fresh(tests, st.tests.Keys);
    var ran := Ran(judge, skipTest, todo);
    RanWithin(judge, skipTest, todo);
    assert NoDup(ran);
    assert forall t :: t in st.log + ran <==> t in st.log || t in ran;
    forall t | t in st.log ensures t !in ran {}
    NoDupConcat(st.log, ran);
  }

  /** In every run, at every point: no test has run twice, every recorded result is the judge's
      or SKIP, and it is the judge's for exactly the tests that ran; without SKIP_TEST every
      recorded test ran. */
  lemma {:induction false} EachTestRunsOnce(s: Session, k: nat)
    requires s.Valid() && k <= |s.order|
    ensures Faithful(s.judge, s.At(k))
    ensures !s.policy.skipTest ==> Elems(s.At(k).log) == s.At(k).tests.Keys
  {
    if k > 0 {
      EachTestRunsOnce(s, k - 1);
      assert Placed(s.groups, s.order, k - 1);
      GradeGroupFaithful(s.judge, s.policy.skipTest, s.order[k - 1], s.groups[s.order[k - 1]].tests, s.At(k - 1));
    }
  }

  lemma StepKeepsTests(groups: Groups, judge: Judge, policy: Policy, name: string, st: Results)
    requires name in groups
    ensures st.log <= GradeStep(groups, judge, policy, name, st).log
    ensures forall t :: t in st.tests ==> t in GradeStep(groups, judge, policy, name, st).tests &&
                                          GradeStep(groups, judge, policy, name, st).tests[t] == st.tests[t]
  {}

  /** A recorded test result never changes, and runs are never taken back. */
  lemma {:induction false} TestResultKept(s: Session, k: nat, m: nat)
    requires s.Valid() && k <= m <= |s.order|
    ensures s.At(k).log <= s.At(m).log
    ensures forall t :: t in s.At(k).tests ==> t in s.At(m).tests && s.At(m).tests[t] == s.At(k).tests[t]
    decreases m
  {
    hide GradeStep;
    if k < m {
      TestResultKept(s, k, m - 1);
      assert Placed(s.groups, s.order, m - 1);
      StepKeepsTests(s.groups, s.judge, s.policy, s.order[m - 1], s.At(m - 1));
    }
  }

  /** Under GRADE_ALL the test map is the judge restricted to all listed tests, even when the
      lists overlap. */
  lemma GradeAllRecordsEverything(s: Session, t: int)
    requires s.Valid() && s.policy == GRADE_ALL
    ensures t in s.Final().tests <==> exists g :: g in s.groups && t in s.groups[g].tests
    ensures t in s.Final().tests ==> s.Final().tests[t] == s.judge(t)
  {
    EachTestRunsOnce(s, |s.order|);
    RecordedIff(s, |s.order|, t);
    assert t in s.Final().tests ==> t in Elems(s.Final().log);
    if g :| g in s.groups && t in s.groups[g].tests {
      assert Lists(s.groups, s.order, IndexOf(s.order, g), t);
    }
  }

  /** The result of a group that is not skipped sums up the final results of the tests that it got
      to grade. */
  lemma GroupResultSumsUp(s: Session, i: nat)
    requires s.Valid() && i < |s.order| && !s.Skipped(i)
    ensures s.order[i] in s.Final().groups
    ensures SumsUp(s.Final().tests, s.Todo(i), s.Final().groups[s.order[i]])
  {
    StepResult(s, i);
    VerdictSumsUp(s.judge, s.policy.skipTest, s.Todo(i));
    var recorded := Recorded(s.judge, s.policy.skipTest, s.Todo(i));
    hide SumsUp, Recorded, Fresh, GradeStep, DependencyFailed;
    TestResultKept(s, i + 1, |s.order|);
    forall t | t in s.Todo(i) ensures t in s.Final().tests && s.Final().tests[t] == recorded[t] {
      StepRecords(s, i, t);
    }
    SumsUpAgrees(recorded, s.Final().tests, s.Todo(i), s.Todo(i), s.Final().groups[s.order[i]]);
  }

  /** A skipped group has a SKIP with no time and no memory; any other sums up its tests. */
  ghost predicate AllSumUp(s: Session, st: Results)
    requires s.Valid()
  {
    forall i: nat | i < |s.order| ::
      && s.order[i] in st.groups
      && if s.Skipped(i) then st.groups[s.order[i]] == CaseResult(Skip, 0, 0)
         else SumsUp(st.tests, s.Todo(i), st.groups[s.order[i]])
  }

  lemma EveryRunSumsUp(s: Session)
    requires s.Valid()
    ensures AllSumUp(s, s.Final())
  {
    hide SumsUp;
    forall i: nat | i < |s.order|
      ensures s.order[i] in s.Final().groups
      ensures if s.Skipped(i) then s.Final().groups[s.order[i]] == CaseResult(Skip, 0, 0)
              else SumsUp(s.Final().tests, s.Todo(i), s.Final().groups[s.order[i]])
    {
      StepResult(s, i);
      if !s.Skipped(i) { GroupResultSumsUp(s, i); }
    }
  }

  // ---------- A closed form for disjoint test lists ----------

  function OwnVerdict(groups: Groups, judge: Judge, policy: Policy, g: string): CaseResult
    requires g in groups
  {
    GroupVerdict(judge, policy.skipTest, Fresh(groups[g].tests, {}))
  }

  /** Some group below g would fail on its own. */
  ghost predicate BelowFailure(groups: Groups, judge: Judge, policy: Policy, g: string) {
    policy.skipGroup &&
    exists d :: d in groups && DependsOn(groups, g, d) && OwnVerdict(groups, judge, policy, d).status != Ok
  }

  /** The result of g, without reference to any order. */
  ghost function Expected(groups: Groups, judge: Judge, policy: Policy, g: string): CaseResult
    requires g in groups
  {
    if BelowFailure(groups, judge, policy, g) then SKIP_RESULT else OwnVerdict(groups, judge, policy, g)
  }

  lemma {:induction false} FreshAgrees(tests: seq<int>, a: set<int>, b: set<int>)
    requires forall t :: t in tests ==> (t in a <==> t in b)
    ensures Fresh(tests, a) == Fresh(tests, b)
  {
    if tests != [] {
      var init, last := tests[..|tests| - 1], tests[|tests| - 1];
      assert last in tests && forall t :: t in init ==> t in tests;
      FreshAgrees(init, a, b);
    }
  }

  lemma DisjointTodo(s: Session, i: nat)
    requires s.Valid() && DisjointTests(s.groups) && i < |s.order| && s.order[i] in s.groups
    ensures s.Todo(i) == Fresh(s.groups[s.order[i]].tests, {})
  {
    var tests := s.groups[s.order[i]].tests;
    forall t | t in tests ensures t !in s.At(i).tests {
      RecordedIff(s, i, t);
      assert forall k: nat | k < i :: s.order[k] != s.order[i];
    }
    FreshAgrees(tests, s.At(i).tests.Keys, {});
  }

  lemma EitherSkipOrOwn(s: Session, g: string)
    requires s.Valid() && DisjointTests(s.groups) && g in s.groups
    ensures g in s.Final().groups
    ensures s.Final().groups[g] == if s.Status(g) == Skip then SKIP_RESULT
                                   else OwnVerdict(s.groups, s.judge, s.policy, g)
    ensures OwnVerdict(s.groups, s.judge, s.policy, g).status != Skip
  {
    var i := IndexOf(s.order, g);
    StepResult(s, i);
    DisjointTodo(s, i);
    VerdictOkIffPasses(s.judge, s.policy.skipTest, s.Todo(i));
  }

  /** grade refines the order-free specification. */
  lemma GroupResultClosedForm(s: Session, g: string)
    requires s.Valid() && DisjointTests(s.groups) && g in s.groups
    ensures g in s.Final().groups
    ensures s.Final().groups[g] == Expected(s.groups, s.judge, s.policy, g)
  {
    EitherSkipOrOwn(s, g);
    SkipExactlyBelowFailure(s, g);
    if s.Status(g) == Skip {
      var d :| d in s.groups && DependsOn(s.groups, g, d) && GradedAndFailed(s, d);
      EitherSkipOrOwn(s, d);
      assert BelowFailure(s.groups, s.judge, s.policy, g);
    } else if s.policy.skipGroup {
      forall d | d in s.groups && DependsOn(s.groups, g, d)
        ensures OwnVerdict(s.groups, s.judge, s.policy, d).status == Ok
      {
        GradedMeansNeededOk(s, IndexOf(s.order, g), d);
        EitherSkipOrOwn(s, d);
      }
    }
  }

  /** The result of test t of group g, without reference to any order. */
  ghost predicate TestAsExpected(groups: Groups, judge: Judge, policy: Policy, st: Results, g: string, t: int)
    requires g in groups
  {
    var recorded := Recorded(judge, policy.skipTest, Fresh(groups[g].tests, {}));
    if BelowFailure(groups, judge, policy, g) then t !in st.tests
    else t in st.tests && t in recorded && st.tests[t] == recorded[t]
  }

  /** The results of the tests of g, without reference to any order. */
  lemma TestResultClosedForm(s: Session, g: string, t: int)
    requires s.Valid() && DisjointTests(s.groups) && g in s.groups && t in s.groups[g].tests
    ensures TestAsExpected(s.groups, s.judge, s.policy, s.Final(), g, t)
  {
    hide GradeStep, DependencyFailed, BelowFailure, Recorded;
    var i := IndexOf(s.order, g);
    SkippedIffBelowFailure(s, i);
    if s.Skipped(i) { NotRecordedIfSkipped(s, i, t); } else { RecordedIfGraded(s, i, t); }
  }

  lemma RecordedIfGraded(s: Session, i: nat, t: int)
    requires s.Valid() && DisjointTests(s.groups) && i < |s.order| && !s.Skipped(i)
    requires Lists(s.groups, s.order, i, t)
    ensures var recorded := Recorded(s.judge, s.policy.skipTest, Fresh(s.groups[s.order[i]].tests, {}));
            t in s.Final().tests && t in recorded && s.Final().tests[t] == recorded[t]
  {
    DisjointTodo(s, i);
    StepRecords(s, i, t);
    hide *;
    TestResultKept(s, i + 1, |s.order|);
  }

  lemma SkippedIffBelowFailure(s: Session, i: nat)
    requires s.Valid() && DisjointTests(s.groups) && i < |s.order| && s.order[i] in s.groups
    ensures s.Skipped(i) <==> BelowFailure(s.groups, s.judge, s.policy, s.order[i])
  {
    GroupResultClosedForm(s, s.order[i]);
    EitherSkipOrOwn(s, s.order[i]);
    StepResult(s, i);
    VerdictOkIffPasses(s.judge, s.policy.skipTest, s.Todo(i));
  }

  lemma NotRecordedIfSkipped(s: Session, i: nat, t: int)
    requires s.Valid() && DisjointTests(s.groups) && i < |s.order| && s.Skipped(i)
    requires Lists(s.groups, s.order, i, t)
    ensures t !in s.Final().tests
  {
    RecordedIff(s, |s.order|, t);
    forall k: nat | k < |s.order| && !s.Skipped(k) ensures !Lists(s.groups, s.order, k, t) {
      assert s.order[k] != s.order[i];
    }
  }

  lemma StepRecords(s: Session, i: nat, t: int)
    requires s.Valid() && i < |s.order| && !s.Skipped(i) && t in s.Todo(i)
    ensures t in s.At(i + 1).tests && t in Recorded(s.judge, s.policy.skipTest, s.Todo(i))
    ensures s.At(i + 1).tests[t] == Recorded(s.judge, s.policy.skipTest, s.Todo(i))[t]
  {
    assert Placed(s.groups, s.order, i);
  }

  /** The whole result of a run, without reference to any order. */
  ghost predicate AsExpected(groups: Groups, judge: Judge, policy: Policy, st: Results) {
    && st.groups.Keys == groups.Keys
    && (forall g :: g in groups ==> st.groups[g] == Expected(groups, judge, policy, g))
    && (forall g, t :: g in groups && t in groups[g].tests ==> TestAsExpected(groups, judge, policy, st, g, t))
    && (forall t :: t in st.tests ==> exists g :: g in groups && t in groups[g].tests)
  }

  /** With disjoint test lists every run ends as expected. */
  lemma RunsEndAsExpected(s: Session)
    requires s.Valid() && DisjointTests(s.groups)
    ensures AsExpected(s.groups, s.judge, s.policy, s.Final())
  {
    hide TestAsExpected, Expected;
    ResultKeys(s, |s.order|);
    assert s.order[..|s.order|] == s.order;
    forall g | g in s.groups ensures s.Final().groups[g] == Expected(s.groups, s.judge, s.policy, g) {
      GroupResultClosedForm(s, g);
    }
    forall g, t | g in s.groups && t in s.groups[g].tests
      ensures TestAsExpected(s.groups, s.judge, s.policy, s.Final(), g, t)
    {
      TestResultClosedForm(s, g, t);
    }
    forall t | t in s.Final().tests ensures exists g :: g in s.groups && t in s.groups[g].tests {
      RecordedIff(s, |s.order|, t);
    }
  }

  /** Any two topological orders give the same test and group results. */
  lemma OrderDoesNotMatter(a: Session, b: Session)
    requires a.Valid() && b.Valid() && DisjointTests(a.groups)
    requires b == a.(order := b.order)
    ensures a.Final().groups == b.Final().groups
    ensures a.Final().tests == b.Final().tests
  {
    ResultKeys(a, |a.order|);
    ResultKeys(b, |b.order|);
    assert a.order[..|a.order|] == a.order && b.order[..|b.order|] == b.order;
    forall g | g in a.groups ensures a.Final().groups[g] == b.Final().groups[g] {
      GroupResultClosedForm(a, g);
      GroupResultClosedForm(b, g);
    }
    forall t ensures t in a.Final().tests <==> t in b.Final().tests
      ensures t in a.Final().tests ==> a.Final().tests[t] == b.Final().tests[t]
    {
      SameTest(a, b, t);
      SameTest(b, a, t);
    }
  }

  lemma SameTest(a: Session, b: Session, t: int)
    requires a.Valid() && b.Valid() && DisjointTests(a.groups)
    requires b.groups == a.groups && b.judge == a.judge && b.policy == a.policy
    ensures t in a.Final().tests ==> t in b.Final().tests && b.Final().tests[t] == a.Final().tests[t]
  {
    RecordedIff(a, |a.order|, t);
    if t in a.Final().tests {
      var k: nat :| k < |a.order| && !a.Skipped(k) && Lists(a.groups, a.order, k, t);
      TestResultClosedForm(a, a.order[k], t);
      TestResultClosedForm(b, a.order[k], t);
    }
  }
}
