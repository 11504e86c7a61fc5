/** Test results, grading of groups and the submission configuration, as the source updates
    them in place (src/sandbox/test_result.hpp, src/sandbox/submission_config.cpp). */
module SubmissionConfigs {
  import opened Sequences
  import opened GroupGraph
  import opened KeyOrder
  import opened SearchOrder
  import opened TopoSearch
  import opened Verdicts
  import opened Grading
  import opened OrderFree
  import opened SkipPolicy

  class TestResult {
    var testResult: map<int, CaseResult>
    var groupResult: map<string, CaseResult>
    // The tests that were really run, in order.
    ghost var log: seq<int>

    ghost function View(): Results
      reads this
    {
      Results(testResult, groupResult, log)
    }

    constructor ()
      ensures View() == NO_RESULTS
    {
      testResult, groupResult, log := map[], map[], [];
    }

    function GetTestResult(t: int): Option<CaseResult>
      reads this
    {
      if t in testResult then Some(testResult[t]) else None
    }

    function GetGroupResult(g: string): Option<CaseResult>
      reads this
    {
      if g in groupResult then Some(groupResult[g]) else None
    }

    method SetTestResult(t: int, r: CaseResult)
      modifies this`testResult
      ensures testResult.Keys == old(testResult).Keys + {t}
      ensures forall x :: x in old(testResult) ==> testResult[x] == old(testResult)[x]
      ensures t !in old(testResult) ==> testResult[t] == r
      ensures testResult == Insert(old(testResult), t, r)
    {
      if t !in testResult { testResult := testResult[t := r]; }
    }

    method SetGroupResult(g: string, r: CaseResult)
      modifies this`groupResult
      ensures groupResult.Keys == old(groupResult).Keys + {g}
      ensures forall x :: x in old(groupResult) ==> groupResult[x] == old(groupResult)[x]
      ensures g !in old(groupResult) ==> groupResult[g] == r
      ensures groupResult == Insert(old(groupResult), g, r)
    {
      if g !in groupResult { groupResult := groupResult[g := r]; }
    }
  }

  /** The results after one more test, run or skipped. */
  function Tested(st: Results, t: int, r: CaseResult, skip: bool): Results {
    st.(tests := st.tests[t := r], log := if skip then st.log else st.log + [t])
  }

  /** Grades one test, or skips it, and records the result; a real run is noted in the log. */
  method GradeTest(judge: Judge, t: int, skip: bool, result: TestResult) returns (r: CaseResult)
    requires t !in result.testResult
    modifies result
    ensures r == if skip then CaseResult(Skip, 0, 0) else judge(t)
    ensures result.View() == Tested(old(result.View()), t, r, skip)
  {
    if skip {
      r := SKIP_RESULT;
    } else {
      r := judge(t);
      result.log := result.log + [t];
    }
    result.SetTestResult(t, r);
  }

  /** Adding a SKIP never changes a group's verdict. */
  lemma SkipIsAbsorbed(judge: Judge, tests: seq<int>)
    ensures JoinAll(judge, tests).Add(SKIP_RESULT) == JoinAll(judge, tests)
  {
    JoinIsMaximum(judge, tests);
  }

  lemma JoinSnoc(judge: Judge, tests: seq<int>, t: int)
    ensures JoinAll(judge, tests + [t]) == JoinAll(judge, tests).Add(judge(t))
  {
    assert (tests + [t])[..|tests|] == tests;
  }

  /** Where the loop of grade_group stands after the fresh tests todo: the results, its running
      maximum and its skip flag. */
  ghost predicate Progress(judge: Judge, skipTest: bool, todo: seq<int>, start: Results,
                           st: Results, verdict: CaseResult, skip: bool)
  {
    && st.tests == start.tests + Recorded(judge, skipTest, todo)
    && st.log == start.log + Ran(judge, skipTest, todo)
    && st.groups == start.groups
    && verdict == JoinAll(judge, Ran(judge, skipTest, todo))
    && skip == (skipTest && FirstFailure(judge, todo) < |todo|)
  }

  lemma ProgressStart(judge: Judge, skipTest: bool, start: Results)
    ensures Progress(judge, skipTest, Fresh([], start.tests.Keys), start, start, OK_RESULT, false)
  {}

  lemma ProgressStep(judge: Judge, skipTest: bool, todo: seq<int>, start: Results,
                     st: Results, verdict: CaseResult, skip: bool, t: int, r: CaseResult)
    requires Progress(judge, skipTest, todo, start, st, verdict, skip) && t !in todo
    requires r == if skip then SKIP_RESULT else judge(t)
    ensures Progress(judge, skipTest, todo + [t], start, Tested(st, t, r, skip),
                     verdict.Add(r), skip || (skipTest && r.status != Ok))
  {
    RanSnoc(judge, skipTest, todo, t);
    RecordedSnoc(judge, skipTest, todo, t);
    FirstFailureSnoc(judge, todo, t);
    PlusUpdate(start.tests, Recorded(judge, skipTest, todo), t, r);
    if skip {
      SkipIsAbsorbed(judge, Ran(judge, skipTest, todo));
    } else {
      JoinSnoc(judge, todo, t);
      assert (start.log + todo) + [t] == start.log + (todo + [t]);
    }
  }

  lemma PlusUpdate<K, V>(a: map<K, V>, b: map<K, V>, k: K, v: V)
    ensures (a + b)[k := v] == a + b[k := v]
  {}

  /** Fresh, one test at a time, as the loop sees it: known already or not. */
  lemma FreshStep(judge: Judge, skipTest: bool, tests: seq<int>, k: nat, start: Results,
                  st: Results, verdict: CaseResult, skip: bool)
    requires k < |tests|
    requires Progress(judge, skipTest, Fresh(tests[..k], start.tests.Keys), start, st, verdict, skip)
    ensures var todo := Fresh(tests[..k], start.tests.Keys);
            Fresh(tests[..k + 1], start.tests.Keys) ==
              if tests[k] in st.tests then todo else todo + [tests[k]]
    ensures tests[k] !in st.tests ==> tests[k] !in Fresh(tests[..k], start.tests.Keys)
  {
    assert tests[..k + 1][..k] == tests[..k];
  }

  lemma ProgressDone(judge: Judge, skipTest: bool, name: string, tests: seq<int>, start: Results,
                     st: Results, verdict: CaseResult, skip: bool)
    requires Progress(judge, skipTest, Fresh(tests, start.tests.Keys), start, st, verdict, skip)
    ensures st.(groups := Insert(st.groups, name, verdict)) == GradeGroup(judge, skipTest, name, tests, start)
  {}

  lemma GradeGroupSumsUp(judge: Judge, skipTest: bool, name: string, tests: seq<int>, st: Results)
    requires name !in st.groups
    ensures var r := GradeGroup(judge, skipTest, name, tests, st);
            name in r.groups && SumsUp(r.tests, Fresh(tests, st.tests.Keys), r.groups[name])
  {
    var todo := Fresh(tests, st.tests.Keys);
    VerdictSumsUp(judge, skipTest, todo);
    SumsUpAgrees(Recorded(judge, skipTest, todo), st.tests + Recorded(judge, skipTest, todo), todo, todo,
                 GroupVerdict(judge, skipTest, todo));
  }

  /** grade_group: the loop with its skip flag and running maximum does what the specification
      says of the fresh tests as a whole, and the group's result sums up what is recorded for them. */
  method GradeGroupInto(name: string, tests: seq<int>, judge: Judge, policy: Policy, result: TestResult)
    modifies result
    ensures result.View() == GradeGroup(judge, policy.skipTest, name, tests, old(result.View()))
    ensures name !in old(result.groupResult) ==>
              name in result.groupResult &&
              SumsUp(result.testResult, Fresh(tests, old(result.testResult).Keys), result.groupResult[name])
  {
    hide Progress, Fresh, GradeGroup, SumsUp;
    ghost var start := result.View();
    if name !in result.groupResult { GradeGroupSumsUp(judge, policy.skipTest, name, tests, start); }
    ProgressStart(judge, policy.skipTest, start);
    assert tests[..0] == [];
    var skip, groupResult := false, OK_RESULT;
    for k := 0 to |tests|
      invariant Progress(judge, policy.skipTest, Fresh(tests[..k], start.tests.Keys), start,
                         result.View(), groupResult, skip)
    {
      var t := tests[k];
      FreshStep(judge, policy.skipTest, tests, k, start, result.View(), groupResult, skip);
      if result.GetTestResult(t).Some? {
        continue;
      }
      ghost var todo, before := Fresh(tests[..k], start.tests.Keys), result.View();
      var r := GradeTest(judge, t, skip, result);
      ProgressStep(judge, policy.skipTest, todo, start, before, groupResult, skip, t, r);
      skip := skip || (policy.skipTest && r.status != Ok);
      groupResult := groupResult.Add(r);
    }
    assert tests[..|tests|] == tests;
    ProgressDone(judge, policy.skipTest, name, tests, start, result.View(), groupResult, skip);
    result.SetGroupResult(name, groupResult);
  }

  /** std::any_of over the dependencies; every result read is there. */
  method AnyDependencyFailed(deps: seq<string>, result: TestResult) returns (failed: bool)
    requires forall d :: d in deps ==> d in result.groupResult
    ensures failed <==> DependencyFailed(deps, result.View())
  {
    failed := false;
    var i := 0;
    while !failed && i < |deps|
      invariant 0 <= i <= |deps|
      invariant failed ==> DependencyFailed(deps, result.View())
      invariant !failed ==> forall j :: 0 <= j < i ==> result.groupResult[deps[j]].status == Ok
    {
      assert deps[i] in deps;
      failed := result.GetGroupResult(deps[i]).value.status != Ok;
      i := i + 1;
    }
  }

  // Finished; exit(1) on an invalid topology; or a vector of negative size was asked for.
  datatype GradeOutcome = Finished | InvalidTopology | InvalidCaseCount

  /** A group's part of a configuration file; absent keys keep the old value. */
  datatype GroupEntry = GroupEntry(name: string, tests: Option<seq<int>>, deps: Option<seq<string>>)

  function EntryNames(entries: seq<GroupEntry>): set<string> {
    set e | e in entries :: e.name
  }

  function UpdatedGroup(before: Group, e: GroupEntry): Group {
    Group(if e.tests.Some? then e.tests.value else before.tests,
          if e.deps.Some? then e.deps.value else before.dependency)
  }

  /** The names that are not known yet, in order of first mention. */
  function FirstMentions(entries: seq<GroupEntry>, known: set<string>): (r: seq<string>)
    ensures NoDup(r)
    ensures forall g :: g in r <==> g in EntryNames(entries) && g !in known
  {
    if entries == [] then []
    else
      var r, name := FirstMentions(entries[..|entries| - 1], known), entries[|entries| - 1].name;
      assert entries == entries[..|entries| - 1] + [entries[|entries| - 1]];
      if name in known || name in r then r else r + [name]
  }

  /** The names of the entries, in file order. */
  function NamesOf(entries: seq<GroupEntry>): (names: seq<string>)
    ensures |names| == |entries| && forall i :: 0 <= i < |names| ==> names[i] == entries[i].name
  {
    seq(|entries|, i requires 0 <= i < |entries| => entries[i].name)
  }

  lemma {:induction false} FirstMentionsKeepOrder(entries: seq<GroupEntry>, known: set<string>)
    ensures ListedInOrder(NamesOf(entries), FirstMentions(entries, known))
  {
    if entries != [] {
      var init, names := entries[..|entries| - 1], NamesOf(entries);
      var r := FirstMentions(init, known);
      FirstMentionsKeepOrder(init, known);
      assert names[..|names| - 1] == NamesOf(init);
      forall name ensures name in EntryNames(init) <==> name in NamesOf(init) {
        if e :| e in init && e.name == name { assert e.name in NamesOf(init); }
        if i :| 0 <= i < |init| && NamesOf(init)[i] == name { assert init[i] in init; }
      }
      LongerListKeepsOrder(names, r);
    }
  }

  /** Some entry for the group has a list of tests. */
  ghost predicate SetsTests(entries: seq<GroupEntry>, name: string) {
    exists e :: e in entries && e.name == name && e.tests.Some?
  }

  ghost predicate SetsDependencies(entries: seq<GroupEntry>, name: string) {
    exists e :: e in entries && e.name == name && e.deps.Some?
  }

  /** What no entry sets stays. */
  lemma {:induction false} UnsetIsKept(group: Group, entries: seq<GroupEntry>, name: string)
    ensures !SetsTests(entries, name) ==> UpdatedBy(group, entries, name).tests == group.tests
    ensures !SetsDependencies(entries, name) ==> UpdatedBy(group, entries, name).dependency == group.dependency
  {
    if entries != [] {
      UnsetIsKept(group, entries[..|entries| - 1], name);
      assert entries == entries[..|entries| - 1] + [entries[|entries| - 1]];
    }
  }

  function GroupOrDefault(groups: Groups, name: string): Group {
    if name in groups then groups[name] else Group([], [])
  }

  class SubmissionConfig {
    var numberCases: int
    var gradePolicy: Policy
    var groups: Groups
    var groupOrder: seq<string>

    /** group_order lists every group once. */
    ghost predicate Valid()
      reads this
    {
      Enumerates(groupOrder, groups.Keys)
    }

    constructor ()
      ensures Valid() && numberCases == 0 && gradePolicy == GRADE_ALL && groups == map[]
    {
      numberCases, gradePolicy, groups, groupOrder := 0, GRADE_ALL, map[], [];
    }

    /** The groups part of update. */
    method UpdateGroups(entries: seq<GroupEntry>)
      requires Valid()
      modifies this`groups, this`groupOrder
      ensures Valid() && groups.Keys == old(groups).Keys + EntryNames(entries)
      ensures groupOrder == old(groupOrder) + FirstMentions(entries, old(groups).Keys)
      ensures forall g :: g in groups ==>
                            groups[g] == UpdatedBy(GroupOrDefault(old(groups), g), entries, g)
      ensures forall g :: g in groups && !SetsTests(entries, g) ==>
                            groups[g].tests == if g in old(groups) then old(groups)[g].tests else []
      ensures forall g :: g in groups && !SetsDependencies(entries, g) ==>
                            groups[g].dependency == if g in old(groups) then old(groups)[g].dependency else []
      ensures ListedInOrder(NamesOf(entries), groupOrder[|old(groupOrder)|..])
    {
      hide UpdatedBy, UpdatedGroup, EntryNames, FirstMentions;
      NoEntries();
      assert entries[..0] == [];
      for i := 0 to |entries|
        invariant Valid() && groupOrder == old(groupOrder) + FirstMentions(entries[..i], old(groups).Keys)
        invariant groups.Keys == old(groups).Keys + EntryNames(entries[..i])
        invariant forall g :: g in groups ==>
                                groups[g] == UpdatedBy(GroupOrDefault(old(groups), g), entries[..i], g)
      {
        var e := entries[i];
        assert entries[..i + 1] == entries[..i] + [e];
        OneMoreEntry(entries[..i], e, old(groups).Keys);
        UpdatedByOthers(GroupOrDefault(old(groups), e.name), entries[..i], e.name);
        if e.name !in groups {
          assert e.name !in Elems(groupOrder);
          groupOrder := groupOrder + [e.name];
        }
        groups := groups[e.name := UpdatedGroup(GroupOrDefault(groups, e.name), e)];
      }
      assert entries[..|entries|] == entries;
      forall g | g in groups
        ensures !SetsTests(entries, g) ==> groups[g].tests == GroupOrDefault(old(groups), g).tests
        ensures !SetsDependencies(entries, g) ==> groups[g].dependency == GroupOrDefault(old(groups), g).dependency
      {
        UnsetIsKept(GroupOrDefault(old(groups), g), entries, g);
      }
      FirstMentionsKeepOrder(entries, old(groups).Keys);
    }

    method Validate() returns (ok: bool)
      ensures ok <==> ValidDag(groups)
    {
      var order;
      ok, order := FindTopoOrder(groups, false);
    }

    /** grade() finishes exactly when validate would accept; it then leaves the results of the
        specification for the order found by the search, and with disjoint test lists the
        order-free results. judge is the run configuration, one result per test. */
    method Grade(judge: Judge) returns (outcome: GradeOutcome, result: TestResult)
      ensures fresh(result)
      ensures groups == map[] ==> outcome == if numberCases < 0 then InvalidCaseCount else Finished
      ensures groups == map[] && numberCases >= 0 ==>
                result.View() == GradeGroup(judge, gradePolicy.skipTest, "",
                                            seq(numberCases, i => i + 1), NO_RESULTS) &&
                (forall t :: t in result.testResult <==> 1 <= t <= numberCases) && result.groupResult.Keys == {""} &&
                SumsUp(result.testResult, seq(numberCases, i => i + 1), result.groupResult[""])
      ensures groups != map[] ==> outcome == if ValidDag(groups) then Finished else InvalidTopology
      ensures groups != map[] && outcome == Finished ==>
                TopoOrder(groups, CodeOrder(groups)) &&
                InSearchOrder(groups, KeyList(groups.Keys), CodeOrder(groups)) &&
                result.View() == Session(groups, judge, gradePolicy, CodeOrder(groups)).Final() &&
                AllSumUp(Session(groups, judge, gradePolicy, CodeOrder(groups)), result.View())
      ensures groups != map[] && outcome == Finished && DisjointTests(groups) ==>
                AsExpected(groups, judge, gradePolicy, result.View())
    {
      hide GradeGroup, SumsUp, AllSumUp, AsExpected, Fresh, DependencyFailed;
      hide InSearchOrder, CodeOrder, ValidDag, DisjointTests;
      result := new TestResult();
      if groups == map[] {
        if numberCases < 0 { return InvalidCaseCount, result; }
        CasesFromOne(judge, gradePolicy.skipTest, numberCases);
        GradeGroupInto("", seq(numberCases, i => i + 1), judge, gradePolicy, result);
        return Finished, result;
      }
      var ok, found := FindTopoOrder(groups, true);
      if !ok { return InvalidTopology, result; }
      ghost var s := Session(groups, judge, gradePolicy, found);
      for k := 0 to |found|
        invariant result.View() == s.At(k) && fresh(result)
      {
        assert Placed(groups, found, k);
        GradeOrSkip(found[k], judge, result, s, k);
      }
      outcome := Finished;
      EveryRunSumsUp(s);
      if DisjointTests(groups) { RunsEndAsExpected(s); }
    }

    /** The body of the loop over the order. */
    method GradeOrSkip(name: string, judge: Judge, result: TestResult, ghost s: Session, ghost k: nat)
      requires s.Valid() && k < |s.order| && name == s.order[k] && name in groups
      requires s == Session(groups, judge, gradePolicy, s.order) && result.View() == s.At(k)
      modifies result
      ensures result.View() == s.At(k + 1)
    {
      hide GradeGroup, SumsUp, Fresh, DependencyFailed;
      assert Placed(groups, s.order, k);
      SkippedIff(s, k);
      var failed := false;
      if gradePolicy.skipGroup {
        failed := AnyDependencyFailed(groups[name].dependency, result);
      }
      if failed {
        result.SetGroupResult(name, SKIP_RESULT);
      } else {
        GradeGroupInto(name, groups[name].tests, judge, gradePolicy, result);
      }
    }
  }

  lemma GradeGroupKeys(judge: Judge, skipTest: bool, name: string, tests: seq<int>, st: Results)
    ensures var r := GradeGroup(judge, skipTest, name, tests, st);
            && (forall t :: t in r.tests <==> t in st.tests || t in tests)
            && r.groups.Keys == st.groups.Keys + {name}
  {
    hide Ran, JoinAll, FirstFailure;
  }

  lemma CasesFromOne(judge: Judge, skipTest: bool, n: nat)
    ensures var cases := seq(n, i => i + 1);
            var r := GradeGroup(judge, skipTest, "", cases, NO_RESULTS);
            && (forall t :: t in r.tests <==> 1 <= t <= n) && r.groups.Keys == {""}
            && SumsUp(r.tests, cases, r.groups[""])
  {
    var cases := seq(n, i => i + 1);
    var r := GradeGroup(judge, skipTest, "", cases, NO_RESULTS);
    forall t ensures t in cases <==> 1 <= t <= n {
      if 1 <= t <= n { assert cases[t - 1] == t; }
    }
    GradeGroupSumsUp(judge, skipTest, "", cases, NO_RESULTS);
    GradeGroupKeys(judge, skipTest, "", cases, NO_RESULTS);
    hide SumsUp, Fresh, GradeGroup;
    assert NO_RESULTS.tests.Keys == {};
    SumsUpAgrees(r.tests, r.tests, Fresh(cases, {}), cases, r.groups[""]);
  }

  /** A group after all entries that name it, in file order. */
  function UpdatedBy(group: Group, entries: seq<GroupEntry>, name: string): Group {
    if entries == [] then group
    else
      var before := UpdatedBy(group, entries[..|entries| - 1], name);
      if entries[|entries| - 1].name == name then UpdatedGroup(before, entries[|entries| - 1]) else before
  }

  lemma {:induction false} UpdatedByOthers(group: Group, entries: seq<GroupEntry>, name: string)
    ensures name !in EntryNames(entries) ==> UpdatedBy(group, entries, name) == group
  {
    if entries != [] {
      UpdatedByOthers(group, entries[..|entries| - 1], name);
      assert forall e :: e in entries[..|entries| - 1] ==> e in entries;
      assert entries[|entries| - 1] in entries;
    }
  }

  lemma NoEntries()
    ensures EntryNames([]) == {} && forall known :: FirstMentions([], known) == []
    ensures forall group, name :: UpdatedBy(group, [], name) == group
  {}

  lemma OneMoreEntry(entries: seq<GroupEntry>, e: GroupEntry, known: set<string>)
    ensures FirstMentions(entries + [e], known) ==
            FirstMentions(entries, known) + if e.name in known + EntryNames(entries) then [] else [e.name]
    ensures EntryNames(entries + [e]) == EntryNames(entries) + {e.name}
    ensures forall group, name :: UpdatedBy(group, entries + [e], name) ==
              if e.name == name then UpdatedGroup(UpdatedBy(group, entries, name), e)
              else UpdatedBy(group, entries, name)
  {
    assert (entries + [e])[..|entries|] == entries;
  }

  /** The last entry that sets a key wins. */
  lemma {:induction false} LastEntryWins(group: Group, entries: seq<GroupEntry>, name: string, i: nat)
    requires i < |entries| && entries[i].name == name
    ensures var later := set j | i < j < |entries| && entries[j].name == name;
            && (entries[i].tests.Some? && (forall j :: j in later ==> entries[j].tests == None) ==>
                  UpdatedBy(group, entries, name).tests == entries[i].tests.value)
            && (entries[i].deps.Some? && (forall j :: j in later ==> entries[j].deps == None) ==>
                  UpdatedBy(group, entries, name).dependency == entries[i].deps.value)
    decreases |entries|
  {
    if i < |entries| - 1 {
      LastEntryWins(group, entries[..|entries| - 1], name, i);
    }
  }
}
