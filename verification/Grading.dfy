/** What grade() leaves behind (src/sandbox/submission_config.cpp:85-138), as a function of the
    groups, the judge, the policy and the order, and what holds of it in every run. */
module Grading {
  import opened Sequences
  import opened GroupGraph
  import opened Verdicts

  /** The two insert-only maps of a TestResult, and the tests that were really run, in order. */
  datatype Results = Results(tests: map<int, CaseResult>, groups: map<string, CaseResult>, log: seq<int>)

  const NO_RESULTS := Results(map[], map[], [])

  /** std::map::insert keeps an entry that is already there. */
  function Insert<K, V>(m: map<K, V>, k: K, v: V): map<K, V> {
    if k in m then m else m[k := v]
  }

  /** grade_group. */
  function GradeGroup(judge: Judge, skipTest: bool, name: string, tests: seq<int>, st: Results): Results {
    var todo := Fresh(tests, st.tests.Keys);
    Results(st.tests + Recorded(judge, skipTest, todo),
            Insert(st.groups, name, GroupVerdict(judge, skipTest, todo)),
            st.log + Ran(judge, skipTest, todo))
  }

  predicate DependencyFailed(deps: seq<string>, st: Results) {
    exists d :: d in deps && (d !in st.groups || st.groups[d].status != Ok)
  }

  /** One pass through the loop of grade. */
  function GradeStep(groups: Groups, judge: Judge, policy: Policy, name: string, st: Results): Results
    requires name in groups
  {
    if policy.skipGroup && DependencyFailed(groups[name].dependency, st)
    then st.(groups := Insert(st.groups, name, SKIP_RESULT))
    else GradeGroup(judge, policy.skipTest, name, groups[name].tests, st)
  }

  /** A call of grade() on a graph that passed the search. */
  datatype Session = Session(groups: Groups, judge: Judge, policy: Policy, order: seq<string>) {
    ghost predicate Valid() { TopoOrder(groups, order) }

    /** The state before group number k of the order is treated. */
    ghost function At(k: nat): Results
      requires Valid() && k <= |order|
    {
      if k == 0 then NO_RESULTS
      else assert Placed(groups, order, k - 1); GradeStep(groups, judge, policy, order[k - 1], At(k - 1))
    }

    ghost function Final(): Results
      requires Valid()
    {
      At(|order|)
    }

    /** Group i is passed over because a dependency did not end OK. */
    ghost predicate Skipped(i: nat)
      requires Valid() && i < |order|
    {
      assert Placed(groups, order, i);
      policy.skipGroup && DependencyFailed(groups[order[i]].dependency, At(i))
    }

    /** The tests group i gets to grade if it is not skipped. */
    ghost function Todo(i: nat): seq<int>
      requires Valid() && i < |order|
    {
      assert Placed(groups, order, i);
      Fresh(groups[order[i]].tests, At(i).tests.Keys)
    }

    /** The status finally recorded for a group. */
    ghost function Status(g: string): Verdicts.Status
      requires Valid() && g in groups
    {
      ResultKeys(this, |order|);
      assert order[..|order|] == order;
      Final().groups[g].status
    }
  }

  // ---------- What every step keeps ----------

  lemma StepKeys(groups: Groups, judge: Judge, policy: Policy, name: string, st: Results)
    requires name in groups
    ensures GradeStep(groups, judge, policy, name, st).groups.Keys == st.groups.Keys + {name}
  {}

  /** Before step k exactly the first k groups have a result. */
  lemma {:induction false} ResultKeys(s: Session, k: nat)
    requires s.Valid() && k <= |s.order|
    ensures s.At(k).groups.Keys == Elems(s.order[..k])
  {
    hide GradeStep;
    if k > 0 {
      ResultKeys(s, k - 1);
      StepKeys(s.groups, s.judge, s.policy, s.order[k - 1], s.At(k - 1));
      assert Placed(s.groups, s.order, k - 1);
      assert s.order[..k] == s.order[..k - 1] + [s.order[k - 1]];
    }
  }

  lemma StepKeepsGroups(groups: Groups, judge: Judge, policy: Policy, name: string, st: Results, g: string)
    requires name in groups && g in st.groups
    ensures GradeStep(groups, judge, policy, name, st).groups[g] == st.groups[g]
  {}

  /** A recorded group result never changes. */
  lemma {:induction false} GroupResultKept(s: Session, k: nat, m: nat, g: string)
    requires s.Valid() && k <= m <= |s.order| && g in s.At(k).groups
    ensures g in s.At(m).groups && s.At(m).groups[g] == s.At(k).groups[g]
    decreases m
  {
    hide GradeStep;
    if k < m {
      GroupResultKept(s, k, m - 1, g);
      assert Placed(s.groups, s.order, m - 1);
      StepKeys(s.groups, s.judge, s.policy, s.order[m - 1], s.At(m - 1));
      StepKeepsGroups(s.groups, s.judge, s.policy, s.order[m - 1], s.At(m - 1), g);
    }
  }

  /** What group i finally gets. */
  lemma StepResult(s: Session, i: nat)
    requires s.Valid() && i < |s.order|
    ensures s.order[i] in s.groups && s.order[i] in s.Final().groups
    ensures s.Final().groups[s.order[i]] ==
            if s.Skipped(i) then SKIP_RESULT else GroupVerdict(s.judge, s.policy.skipTest, s.Todo(i))
  {
    assert Placed(s.groups, s.order, i);
    ResultKeys(s, i);
    ResultKeys(s, i + 1);
    assert s.order[i] in s.order[..i + 1];
    GroupResultKept(s, i + 1, |s.order|, s.order[i]);
  }

  /** A group is skipped exactly when the policy says so and some direct dependency did not
      end OK; the .value() taken of a dependency's result is always there. */
  lemma SkippedIff(s: Session, i: nat)
    requires s.Valid() && i < |s.order|
    ensures s.order[i] in s.groups
    ensures forall d :: d in s.groups[s.order[i]].dependency ==>
                          d in s.groups && d in s.At(i).groups && s.At(i).groups[d].status == s.Status(d)
    ensures s.Skipped(i) <==>
            s.policy.skipGroup && exists d :: d in s.groups[s.order[i]].dependency && s.Status(d) != Ok
  {
    assert Placed(s.groups, s.order, i);
    ResultKeys(s, i);
    forall d | d in s.groups[s.order[i]].dependency
      ensures d in s.groups && d in s.At(i).groups && s.At(i).groups[d].status == s.Status(d)
    {
      assert d in s.order[..i];
      assert Placed(s.groups, s.order, IndexOf(s.order, d));
      GroupResultKept(s, i, |s.order|, d);
    }
  }

  // ---------- Which tests are recorded ----------

  ghost predicate Lists(groups: Groups, order: seq<string>, i: nat, t: int)
    requires i < |order|
  {
    order[i] in groups && t in groups[order[i]].tests
  }

  /** Some group before position i lists test t. */
  ghost predicate ListedBefore(groups: Groups, order: seq<string>, i: nat, t: int)
    requires i <= |order|
  {
    exists k: nat :: k < i && Lists(groups, order, k, t)
  }

  /** Group i is the first one in the order to list test t. */
  ghost predicate Owns(groups: Groups, order: seq<string>, i: nat, t: int)
    requires i < |order|
  {
    Lists(groups, order, i, t) && !ListedBefore(groups, order, i, t)
  }

  lemma StepTests(s: Session, i: nat, t: int)
    requires s.Valid() && i < |s.order|
    ensures t in s.At(i + 1).tests <==>
            t in s.At(i).tests || (!s.Skipped(i) && Lists(s.groups, s.order, i, t))
  {
    assert Placed(s.groups, s.order, i);
  }

  /** A test is recorded exactly when some group that was not skipped lists it. */
  lemma {:induction false} RecordedIff(s: Session, k: nat, t: int)
    requires s.Valid() && k <= |s.order|
    ensures t in s.At(k).tests <==>
            exists i: nat :: i < k && !s.Skipped(i) && Lists(s.groups, s.order, i, t)
  {
    hide GradeStep, DependencyFailed;
    if k > 0 {
      RecordedIff(s, k - 1, t);
      StepTests(s, k - 1, t);
    }
  }
}
