/** Skipping work must not change who passes: the exact extent to which it does not.
    Policies are compared on the same groups, the same grader and the same order. */
module SkipPolicy {
  import opened Sequences
  import opened GroupGraph
  import opened KeyOrder
  import opened Verdicts
  import opened Grading

  // ---------- Walking the dependency relation ----------

  lemma Transitive(groups: Groups, a: string, b: string, c: string)
    requires DependsOnOrIs(groups, a, b) && DependsOn(groups, b, c)
    ensures DependsOn(groups, a, c)
  {
    if a != b {
      var p :| PathFromTo(groups, p, a, b) && |p| >= 2;
      var q :| PathFromTo(groups, q, b, c) && |q| >= 2;
      var r := p + q[1..];
      forall i: nat | i + 1 < |r| ensures StepAt(groups, r, i) {
        if i + 1 < |p| { assert StepAt(groups, p, i); }
        else { assert StepAt(groups, q, i + 1 - |p|); }
      }
      assert PathFromTo(groups, r, a, c);
    }
  }

  // ---------- Single groups ----------

  /** The tests that a group is the first to list all pass. */
  ghost predicate OwnTestsPass(groups: Groups, order: seq<string>, i: nat, judge: Judge)
    requires i < |order|
  {
    forall t :: Owns(groups, order, i, t) ==> judge(t).status == Ok
  }

  lemma OkMeansOwnTestsPass(s: Session, i: nat)
    requires s.Valid() && i < |s.order| && s.order[i] in s.groups && s.Status(s.order[i]) == Ok
    ensures OwnTestsPass(s.groups, s.order, i, s.judge)
  {
    StepResult(s, i);
    VerdictOkIffPasses(s.judge, s.policy.skipTest, s.Todo(i));
    forall t | Owns(s.groups, s.order, i, t) ensures s.judge(t).status == Ok {
      RecordedIff(s, i, t);
      assert t in s.Todo(i);
    }
  }

  /** Without SKIP_GROUP a group ends OK exactly when the tests it is the first to list pass,
      so SKIP_TEST alone changes no verdict, however the test lists overlap. */
  lemma OkIffOwnTestsPass(s: Session, i: nat)
    requires s.Valid() && i < |s.order| && s.order[i] in s.groups && !s.policy.skipGroup
    ensures s.Status(s.order[i]) == Ok <==> OwnTestsPass(s.groups, s.order, i, s.judge)
  {
    StepResult(s, i);
    VerdictOkIffPasses(s.judge, s.policy.skipTest, s.Todo(i));
    if OwnTestsPass(s.groups, s.order, i, s.judge) {
      forall t | t in s.Todo(i) ensures s.judge(t).status == Ok {
        RecordedIff(s, i, t);
        assert forall k: nat | k < i :: !s.Skipped(k);
        assert Owns(s.groups, s.order, i, t);
      }
    } else if s.Status(s.order[i]) == Ok {
      OkMeansOwnTestsPass(s, i);
    }
  }

  lemma SkipTestAloneKeepsVerdicts(groups: Groups, judge: Judge, order: seq<string>, g: string)
    requires TopoOrder(groups, order) && g in groups
    ensures Session(groups, judge, SKIP_TEST, order).Status(g) == Ok <==>
            Session(groups, judge, GRADE_ALL, order).Status(g) == Ok
  {
    var i := IndexOf(order, g);
    OkIffOwnTestsPass(Session(groups, judge, SKIP_TEST, order), i);
    OkIffOwnTestsPass(Session(groups, judge, GRADE_ALL, order), i);
  }

  // ---------- SKIP_GROUP ----------

  /** A group that was graded at all has all its dependencies, near and far, OK. */
  lemma {:induction false} GradedMeansNeededOk(s: Session, i: nat, x: string)
    requires s.Valid() && s.policy.skipGroup && i < |s.order| && s.order[i] in s.groups
    requires s.Status(s.order[i]) != Skip && DependsOn(s.groups, s.order[i], x)
    ensures x in s.groups && s.Status(x) == Ok
    decreases i
  {
    StepResult(s, i);
    SkippedIff(s, i);
    DependsOnUnfold(s.groups, s.order[i], x);
    var c :| c in s.groups[s.order[i]].dependency && DependsOnOrIs(s.groups, c, x);
    if c != x {
      assert Placed(s.groups, s.order, i);
      var j :| 0 <= j < i && s.order[j] == c;
      GradedMeansNeededOk(s, j, x);
    }
  }

  /** The group was graded and ended worse than OK. */
  ghost predicate GradedAndFailed(s: Session, d: string)
    requires s.Valid() && d in s.groups
  {
    s.Status(d) != Ok && s.Status(d) != Skip
  }

  lemma {:induction false} SkippedHasCulprit(s: Session, i: nat) returns (d: string)
    requires s.Valid() && i < |s.order| && s.order[i] in s.groups && s.Status(s.order[i]) == Skip
    ensures d in s.groups && DependsOn(s.groups, s.order[i], d) && GradedAndFailed(s, d)
    decreases i
  {
    StepResult(s, i);
    VerdictOkIffPasses(s.judge, s.policy.skipTest, s.Todo(i));
    SkippedIff(s, i);
    var c :| c in s.groups[s.order[i]].dependency && s.Status(c) != Ok;
    d := c;
    if s.Status(c) == Skip {
      assert Placed(s.groups, s.order, i);
      var j :| 0 <= j < i && s.order[j] == c;
      d := SkippedHasCulprit(s, j);
    }
    DependsOnUnfold(s.groups, s.order[i], d);
    assert DependsOnOrIs(s.groups, c, d);
  }

  /** SKIP is the result of a group exactly when some dependency, near or far, was graded and
      ended worse than OK; without SKIP_GROUP no group ends SKIP. */
  lemma SkipExactlyBelowFailure(s: Session, g: string)
    requires s.Valid() && g in s.groups
    ensures s.Status(g) == Skip <==>
            s.policy.skipGroup && exists d :: d in s.groups && DependsOn(s.groups, g, d) && GradedAndFailed(s, d)
  {
    var i := IndexOf(s.order, g);
    if s.Status(g) == Skip {
      var d := SkippedHasCulprit(s, i);
      StepResult(s, i);
      VerdictOkIffPasses(s.judge, s.policy.skipTest, s.Todo(i));
    } else if s.policy.skipGroup {
      forall d | d in s.groups && DependsOn(s.groups, g, d) ensures !GradedAndFailed(s, d) {
        GradedMeansNeededOk(s, i, d);
      }
    }
  }

  // ---------- SKIP_GROUP against GRADE_ALL ----------

  /** g and everything it depends on, near or far, end OK. */
  ghost predicate AllNeededOk(s: Session, g: string)
    requires s.Valid()
  {
    forall d :: d in s.groups && DependsOnOrIs(s.groups, g, d) ==> s.Status(d) == Ok
  }

  /** Skipping never turns a failure into a pass, however the test lists overlap. */
  lemma SkipNeverFlatters(groups: Groups, judge: Judge, policy: Policy, order: seq<string>, g: string)
    requires TopoOrder(groups, order) && g in groups && policy.skipGroup
    requires Session(groups, judge, policy, order).Status(g) == Ok
    ensures AllNeededOk(Session(groups, judge, GRADE_ALL, order), g)
  {
    var s, all := Session(groups, judge, policy, order), Session(groups, judge, GRADE_ALL, order);
    forall d | d in groups && DependsOnOrIs(groups, g, d) ensures all.Status(d) == Ok {
      if d != g { GradedMeansNeededOk(s, IndexOf(order, g), d); }
      OkMeansOwnTestsPass(s, IndexOf(order, d));
      OkIffOwnTestsPass(all, IndexOf(order, d));
    }
  }

  ghost predicate OwnsSome(groups: Groups, order: seq<string>, x: string)
    requires x in order
  {
    exists t :: Owns(groups, order, IndexOf(order, x), t)
  }

  /** Whenever group k, which lists a test, is skipped, so is group i: everything k depends on
      that has a test of its own is also needed by i. */
  ghost predicate SkippedTogether(groups: Groups, order: seq<string>, k: nat, i: nat)
    requires k < |order| && i < |order|
  {
    forall x :: x in order && DependsOn(groups, order[k], x) && OwnsSome(groups, order, x) ==>
                  DependsOnOrIs(groups, order[i], x)
  }

  /** No test can escape from an earlier group to a later one because the earlier was skipped. */
  ghost predicate NoEscapingTest(groups: Groups, order: seq<string>)
  {
    forall i: nat, t | i < |order| && Lists(groups, order, i, t) && ListedBefore(groups, order, i, t) ::
      TestStays(groups, order, i, t)
  }

  ghost predicate TestStays(groups: Groups, order: seq<string>, i: nat, t: int)
    requires i < |order|
  {
    exists k: nat :: k < i && Lists(groups, order, k, t) && SkippedTogether(groups, order, k, i)
  }

  /** Under the policy each group passes exactly when it and all it needs pass under GRADE_ALL. */
  ghost predicate VerdictsPreserved(groups: Groups, order: seq<string>, policy: Policy, judge: Judge)
    requires TopoOrder(groups, order)
  {
    forall g :: g in groups ==>
                  (Session(groups, judge, policy, order).Status(g) == Ok <==>
                   AllNeededOk(Session(groups, judge, GRADE_ALL, order), g))
  }

  /** All groups that i needs have their own tests passing. */
  ghost predicate NeededOwnTestsPass(groups: Groups, order: seq<string>, i: nat, judge: Judge)
    requires i < |order|
  {
    forall j: nat | j < |order| && DependsOnOrIs(groups, order[i], order[j]) ::
      OwnTestsPass(groups, order, j, judge)
  }

  lemma AllNeededOkIff(groups: Groups, judge: Judge, order: seq<string>, i: nat)
    requires TopoOrder(groups, order) && i < |order|
    ensures AllNeededOk(Session(groups, judge, GRADE_ALL, order), order[i]) <==>
            NeededOwnTestsPass(groups, order, i, judge)
  {
    var all := Session(groups, judge, GRADE_ALL, order);
    forall j: nat | j < |order|
      ensures order[j] in groups && (all.Status(order[j]) == Ok <==> OwnTestsPass(groups, order, j, judge))
    {
      assert order[j] in order;
      OkIffOwnTestsPass(all, j);
    }
    if NeededOwnTestsPass(groups, order, i, judge) {
      forall d | d in groups && DependsOnOrIs(groups, order[i], d) ensures all.Status(d) == Ok {
        var j := IndexOf(order, d);
        assert OwnTestsPass(groups, order, j, judge);
      }
    }
  }

  /** If i's needed groups pass their own tests, so do those of every group i depends on. */
  lemma NeededIsInherited(groups: Groups, order: seq<string>, i: nat, j: nat, judge: Judge)
    requires i < |order| && j < |order| && NeededOwnTestsPass(groups, order, i, judge)
    requires DependsOnOrIs(groups, order[i], order[j])
    ensures NeededOwnTestsPass(groups, order, j, judge)
  {
    forall m: nat | m < |order| && DependsOnOrIs(groups, order[j], order[m])
      ensures OwnTestsPass(groups, order, m, judge)
    {
      if order[j] != order[m] { Transitive(groups, order[i], order[j], order[m]); }
    }
  }

  /** Sufficiency, by induction along the order. */
  lemma {:induction false} PassesWhenNothingEscapes(s: Session, i: nat)
    requires s.Valid() && s.policy.skipGroup && i < |s.order| && s.order[i] in s.groups
    requires NoEscapingTest(s.groups, s.order) && NeededOwnTestsPass(s.groups, s.order, i, s.judge)
    ensures s.Status(s.order[i]) == Ok
    decreases i
  {
    var g := s.order[i];
    NotSkippedWhenNothingEscapes(s, i, i);
    StepResult(s, i);
    VerdictOkIffPasses(s.judge, s.policy.skipTest, s.Todo(i));
    forall t | t in s.Todo(i) ensures s.judge(t).status == Ok {
      RecordedIff(s, i, t);
      if ListedBefore(s.groups, s.order, i, t) {
        assert Lists(s.groups, s.order, i, t);
        assert TestStays(s.groups, s.order, i, t);
        var k: nat :| k < i && Lists(s.groups, s.order, k, t) && SkippedTogether(s.groups, s.order, k, i);
        NotSkippedWhenNothingEscapes(s, i, k);
        assert false;
      } else {
        assert Owns(s.groups, s.order, i, t);
        assert DependsOnOrIs(s.groups, s.order[i], s.order[i]);
      }
    }
  }

  lemma {:induction false} NotSkippedWhenNothingEscapes(s: Session, i: nat, k: nat)
    requires s.Valid() && s.policy.skipGroup && k <= i < |s.order|
    requires NoEscapingTest(s.groups, s.order) && NeededOwnTestsPass(s.groups, s.order, i, s.judge)
    requires k == i || SkippedTogether(s.groups, s.order, k, i)
    ensures !s.Skipped(k)
    decreases k, 0
  {
    SkippedIff(s, k);
    forall d | d in s.groups[s.order[k]].dependency ensures s.Status(d) == Ok {
      assert Placed(s.groups, s.order, k);
      var j: nat :| j < k && s.order[j] == d;
      assert DependsOnOrIs(s.groups, d, d);
      DependsOnUnfold(s.groups, s.order[k], d);
      if k == i {
        NeededIsInherited(s.groups, s.order, i, j, s.judge);
      } else {
        NeededOfCompanion(s.groups, s.order, i, k, j, s.judge);
      }
      PassesWhenNothingEscapes(s, j);
    }
  }

  /** What a group skipped together with i needs passes its own tests, or has none. */
  lemma NeededOfCompanion(groups: Groups, order: seq<string>, i: nat, k: nat, j: nat, judge: Judge)
    requires NoDup(order) && k < |order| && i < |order| && j < |order|
    requires SkippedTogether(groups, order, k, i) && NeededOwnTestsPass(groups, order, i, judge)
    requires DependsOn(groups, order[k], order[j])
    ensures NeededOwnTestsPass(groups, order, j, judge)
  {
    forall m: nat | m < |order| && DependsOnOrIs(groups, order[j], order[m])
      ensures OwnTestsPass(groups, order, m, judge)
    {
      if order[j] != order[m] { Transitive(groups, order[k], order[j], order[m]); }
      forall t | Owns(groups, order, m, t) ensures judge(t).status == Ok {
        assert IndexOf(order, order[m]) == m;
        assert OwnsSome(groups, order, order[m]);
      }
    }
  }

  /** The judge that passes exactly the tests owned by groups that i needs. */
  ghost function Adversary(groups: Groups, order: seq<string>, i: nat): Judge
    requires i < |order|
  {
    (t: int) =>
      if exists j: nat :: j < |order| && DependsOnOrIs(groups, order[i], order[j]) && Owns(groups, order, j, t)
      then OK_RESULT else CaseResult(Failed, 0, 0)
  }

  lemma OwnerIsUnique(groups: Groups, order: seq<string>, i: nat, j: nat, t: int)
    requires i < |order| && j < |order| && Owns(groups, order, i, t) && Owns(groups, order, j, t)
    ensures i == j
  {}

  lemma {:induction false} FirstLister(groups: Groups, order: seq<string>, i: nat, t: int) returns (k: nat)
    requires i <= |order| && ListedBefore(groups, order, i, t)
    ensures k < i && Owns(groups, order, k, t)
    decreases i
  {
    k :| k < i && Lists(groups, order, k, t);
    if ListedBefore(groups, order, k, t) { k := FirstLister(groups, order, k, t); }
  }

  /** Necessity: a test that can escape makes some grader's verdicts differ. */
  lemma EscapeChangesVerdict(groups: Groups, order: seq<string>, policy: Policy, i: nat, t: int)
    requires TopoOrder(groups, order) && policy.skipGroup && i < |order|
    requires Lists(groups, order, i, t) && ListedBefore(groups, order, i, t) && !TestStays(groups, order, i, t)
    ensures !VerdictsPreserved(groups, order, policy, Adversary(groups, order, i))
  {
    var judge := Adversary(groups, order, i);
    var s := Session(groups, judge, policy, order);
    AllNeededOkIff(groups, judge, order, i);
    assert NeededOwnTestsPass(groups, order, i, judge);
    if s.Status(order[i]) == Ok {
      StepResult(s, i);
      VerdictOkIffPasses(judge, policy.skipTest, s.Todo(i));
      forall k: nat | k < i && Lists(groups, order, k, t) ensures s.Skipped(k) {
        AdversarySkips(s, i, k, t);
      }
      RecordedIff(s, i, t);
      assert t in s.Todo(i);
      AdversaryFails(groups, order, i, t);
      assert false;
    }
  }

  lemma AdversarySkips(s: Session, i: nat, k: nat, t: int)
    requires s.Valid() && s.policy.skipGroup && k < i < |s.order|
    requires Lists(s.groups, s.order, k, t) && !SkippedTogether(s.groups, s.order, k, i)
    requires s.judge == Adversary(s.groups, s.order, i)
    ensures s.Skipped(k)
  {
    var x :| x in s.order && DependsOn(s.groups, s.order[k], x) && OwnsSome(s.groups, s.order, x)
             && !DependsOnOrIs(s.groups, s.order[i], x);
    var m := IndexOf(s.order, x);
    var u :| Owns(s.groups, s.order, m, u);
    forall j: nat | j < |s.order| && Owns(s.groups, s.order, j, u) ensures j == m {
      OwnerIsUnique(s.groups, s.order, j, m, u);
    }
    assert s.judge(u).status == Failed;
    StepResult(s, k);
    if !s.Skipped(k) {
      VerdictOkIffPasses(s.judge, s.policy.skipTest, s.Todo(k));
      GradedMeansNeededOk(s, k, x);
      OkMeansOwnTestsPass(s, m);
      assert false;
    }
  }

  lemma AdversaryFails(groups: Groups, order: seq<string>, i: nat, t: int)
    requires TopoOrder(groups, order) && i < |order|
    requires Lists(groups, order, i, t) && ListedBefore(groups, order, i, t) && !TestStays(groups, order, i, t)
    ensures Adversary(groups, order, i)(t).status == Failed
  {
    var k := FirstLister(groups, order, i, t);
    forall j: nat | j < |order| && DependsOnOrIs(groups, order[i], order[j]) && Owns(groups, order, j, t)
      ensures false
    {
      OwnerIsUnique(groups, order, j, k, t);
      forall x | x in order && DependsOn(groups, order[k], x) ensures DependsOnOrIs(groups, order[i], x) {
        Transitive(groups, order[i], order[k], x);
      }
      assert SkippedTogether(groups, order, k, i);
    }
  }

  /** Main result. With SKIP_GROUP (alone or with SKIP_TEST) the verdicts are those of GRADE_ALL
      for every grader if and only if no test can escape from an earlier group to a later one. */
  lemma SkipPreservesVerdictsIff(groups: Groups, order: seq<string>, policy: Policy)
    requires TopoOrder(groups, order) && policy.skipGroup
    ensures NoEscapingTest(groups, order) <==>
            forall judge: Judge :: VerdictsPreserved(groups, order, policy, judge)
  {
    if NoEscapingTest(groups, order) {
      forall judge: Judge ensures VerdictsPreserved(groups, order, policy, judge) {
        var s, all := Session(groups, judge, policy, order), Session(groups, judge, GRADE_ALL, order);
        forall g | g in groups ensures s.Status(g) == Ok <==> AllNeededOk(all, g) {
          var i := IndexOf(order, g);
          AllNeededOkIff(groups, judge, order, i);
          if s.Status(g) == Ok {
            SkipNeverFlatters(groups, judge, policy, order, g);
          } else if AllNeededOk(all, g) {
            PassesWhenNothingEscapes(s, i);
          }
        }
      }
    } else {
      var i: nat, t :| i < |order| && Lists(groups, order, i, t) && ListedBefore(groups, order, i, t)
                       && !TestStays(groups, order, i, t);
      EscapeChangesVerdict(groups, order, policy, i, t);
    }
  }

  // ---------- Disjoint test lists ----------

  ghost predicate DisjointTests(groups: Groups) {
    forall a, b, t :: a in groups && b in groups && a != b && t in groups[a].tests ==> t !in groups[b].tests
  }

  lemma DisjointOwner(groups: Groups, order: seq<string>, i: nat, t: int)
    requires TopoOrder(groups, order) && DisjointTests(groups) && i < |order| && Lists(groups, order, i, t)
    ensures Owns(groups, order, i, t)
  {
    forall k: nat | k < i ensures !Lists(groups, order, k, t) { assert order[k] != order[i]; }
  }

  lemma DisjointNothingEscapes(groups: Groups, order: seq<string>)
    requires TopoOrder(groups, order) && DisjointTests(groups)
    ensures NoEscapingTest(groups, order)
  {
    forall i: nat, t | i < |order| && Lists(groups, order, i, t) ensures !ListedBefore(groups, order, i, t) {
      DisjointOwner(groups, order, i, t);
    }
  }

  /** With disjoint test lists nothing can escape, so SKIP preserves every verdict. */
  lemma DisjointTestsPreserveVerdicts(groups: Groups, order: seq<string>, policy: Policy, judge: Judge)
    requires TopoOrder(groups, order) && policy.skipGroup && DisjointTests(groups)
    ensures VerdictsPreserved(groups, order, policy, judge)
  {
    DisjointNothingEscapes(groups, order);
    SkipPreservesVerdictsIff(groups, order, policy);
  }

  // ---------- Overlapping test lists ----------

  // a and b share test 1; only a depends on c.
  const SHARED: Groups := map["a" := Group([1], ["c"]), "b" := Group([1], []), "c" := Group([2], [])]
  const SHARED_ORDER: seq<string> := ["c", "a", "b"]

  /** A configuration on which SKIP does change a verdict, in the very order in which it is graded:
      when c fails, a is skipped and test 1 falls to b, which GRADE_ALL had spared it. */
  lemma SharedTestEscapes()
    ensures TopoOrder(SHARED, SHARED_ORDER) && SHARED_ORDER == FindTopo(SHARED, KeyList(SHARED.Keys)).search.order
    ensures !NoEscapingTest(SHARED, SHARED_ORDER)
    ensures exists judge: Judge :: !VerdictsPreserved(SHARED, SHARED_ORDER, SKIP, judge)
  {
    SharedIsOrdered();
    SharedTestDoesNotStay();
    SharedIsSearched();
    SkipPreservesVerdictsIff(SHARED, SHARED_ORDER, SKIP);
  }

  lemma SharedIsSearched()
    ensures SHARED_ORDER == FindTopo(SHARED, KeyList(SHARED.Keys)).search.order
  {
    var keys := ["a", "b", "c"];
    assert Elems(keys) == SHARED.Keys;
    assert MapOrder(keys, SHARED.Keys);
    MapOrderIsUnique(keys, KeyList(SHARED.Keys), SHARED.Keys);
    hide KeyList, MapOrder;
    var afterB := Search({"a", "b", "c"}, {}, SHARED_ORDER);
    SearchFromA();
    SearchFromB();
    assert Visit(SHARED, "c", afterB) == Answer(true, afterB);
    hide Visit;
    assert VisitAll(SHARED, [], afterB) == Answer(true, afterB);
    assert keys[1..] == ["b", "c"] && ["b", "c"][1..] == ["c"] && ["c"][1..] == [];
    assert VisitAll(SHARED, ["c"], afterB) == Answer(true, afterB);
    assert VisitAll(SHARED, ["b", "c"], Search({"a", "c"}, {}, ["c", "a"])) == Answer(true, afterB);
    assert VisitAll(SHARED, keys, EMPTY_SEARCH) == Answer(true, afterB);
  }

  lemma SearchFromA()
    ensures Visit(SHARED, "a", EMPTY_SEARCH) == Answer(true, Search({"a", "c"}, {}, ["c", "a"]))
  {
    var inA := Search({"a"}, {"a"}, []);
    var inC := Search({"a", "c"}, {"a", "c"}, []);
    var afterC := Search({"a", "c"}, {"a"}, ["c"]);
    hide Visit;
    assert VisitAll(SHARED, [], inC) == Answer(true, inC);
    VisitEnters(SHARED, "c", inA, inC, afterC);
    assert ["c"][1..] == [] && VisitAll(SHARED, [], afterC) == Answer(true, afterC);
    assert VisitAll(SHARED, ["c"], inA) == Answer(true, afterC);
    VisitEnters(SHARED, "a", EMPTY_SEARCH, inA, Search({"a", "c"}, {}, ["c", "a"]));
  }

  lemma SearchFromB()
    ensures Visit(SHARED, "b", Search({"a", "c"}, {}, ["c", "a"])) ==
            Answer(true, Search({"a", "b", "c"}, {}, SHARED_ORDER))
  {
    var inB := Search({"a", "b", "c"}, {"b"}, ["c", "a"]);
    hide Visit;
    assert VisitAll(SHARED, [], inB) == Answer(true, inB);
    VisitEnters(SHARED, "b", Search({"a", "c"}, {}, ["c", "a"]), inB, Search({"a", "b", "c"}, {}, SHARED_ORDER));
  }

  // One step of the search: name is new, and its dependencies all succeed.
  lemma VisitEnters(groups: Groups, name: string, s: Search, entered: Search, left: Search)
    requires name in groups && name !in s.parent && name !in s.visited
    requires entered == Search(s.visited + {name}, s.parent + {name}, s.order)
    requires exists done: Search ::
               VisitAll(groups, groups[name].dependency, entered) == Answer(true, done) &&
               left == Search(done.visited, done.parent - {name}, done.order + [name])
    ensures Visit(groups, name, s) == Answer(true, left)
  {}

  lemma SharedIsOrdered()
    ensures TopoOrder(SHARED, SHARED_ORDER)
  {
    var groups, order := SHARED, SHARED_ORDER;
    assert Elems(order) == groups.Keys;
    assert order[..1] == ["c"];
    forall i: nat | i < |order| ensures Placed(groups, order, i) {
      if i == 1 { assert "c" in order[..1]; }
    }
  }

  lemma SharedTestDoesNotStay()
    requires TopoOrder(SHARED, SHARED_ORDER)
    ensures !NoEscapingTest(SHARED, SHARED_ORDER)
  {
    var groups, order := SHARED, SHARED_ORDER;
    assert Lists(groups, order, 2, 1) && Lists(groups, order, 1, 1);
    forall k: nat | k < 2 && Lists(groups, order, k, 1) ensures !SkippedTogether(groups, order, k, 2) {
      assert order[k] == "a" && IndexOf(order, "c") == 0;
      assert Owns(groups, order, 0, 2) && OwnsSome(groups, order, "c");
      DependsOnUnfold(groups, "a", "c");
      assert "c" in groups["a"].dependency && DependsOnOrIs(groups, "c", "c");
      DependsOnUnfold(groups, "b", "c");
    }
    assert !TestStays(groups, order, 2, 1);
  }
}
