/** The dependency graph of the test groups (src/sandbox/group.hpp) and the
    depth-first search of src/sandbox/submission_config.cpp:14-44. */
module GroupGraph {
  import opened Sequences

  datatype Group = Group(tests: seq<int>, dependency: seq<string>)

  type Groups = map<string, Group>

  // ---------- Paths, missing names, cycles ----------

  /** p[i] names a group that lists p[i+1] as a dependency. */
  ghost predicate StepAt(groups: Groups, p: seq<string>, i: nat)
    requires i + 1 < |p|
  {
    p[i] in groups && p[i + 1] in groups[p[i]].dependency
  }

  ghost predicate IsPath(groups: Groups, p: seq<string>) {
    p != [] && forall i: nat | i + 1 < |p| :: StepAt(groups, p, i)
  }

  ghost predicate PathFromTo(groups: Groups, p: seq<string>, a: string, b: string) {
    IsPath(groups, p) && p[0] == a && p[|p| - 1] == b
  }

  /** b is a dependency of a, or a dependency of a dependency, and so on. */
  ghost predicate DependsOn(groups: Groups, a: string, b: string) {
    exists p :: PathFromTo(groups, p, a, b) && |p| >= 2
  }

  ghost predicate DependsOnOrIs(groups: Groups, a: string, b: string) {
    a == b || DependsOn(groups, a, b)
  }

  ghost predicate NoMissingName(groups: Groups) {
    forall g, d :: g in groups && d in groups[g].dependency ==> d in groups
  }

  /** What validate promises: every named dependency exists and no group depends on itself. */
  ghost predicate ValidDag(groups: Groups) {
    NoMissingName(groups) && forall g :: g in groups ==> !DependsOn(groups, g, g)
  }

  /** A concrete reason to reject: a path that runs into a missing name or back into itself. */
  ghost predicate BadPath(groups: Groups, p: seq<string>) {
    IsPath(groups, p) && (p[|p| - 1] !in groups || p[|p| - 1] in p[..|p| - 1])
  }

  lemma Prepend(groups: Groups, g: string, p: seq<string>)
    requires IsPath(groups, p) && g in groups && p[0] in groups[g].dependency
    ensures IsPath(groups, [g] + p)
  {
    var q := [g] + p;
    forall i: nat | i + 1 < |q| ensures StepAt(groups, q, i) {
      if i > 0 { assert StepAt(groups, p, i - 1); }
    }
  }

  lemma DependsOnUnfold(groups: Groups, g: string, x: string)
    requires g in groups
    ensures DependsOn(groups, g, x) <==>
            exists c :: c in groups[g].dependency && DependsOnOrIs(groups, c, x)
  {
    if c :| c in groups[g].dependency && DependsOnOrIs(groups, c, x) {
      var p := if c == x then [c] else var p :| PathFromTo(groups, p, c, x) && |p| >= 2; p;
      Prepend(groups, g, p);
      assert PathFromTo(groups, [g] + p, g, x);
    }
    if DependsOn(groups, g, x) {
      var p :| PathFromTo(groups, p, g, x) && |p| >= 2;
      var q := p[1..];
      assert StepAt(groups, p, 0);
      forall i: nat | i + 1 < |q| ensures StepAt(groups, q, i) { assert StepAt(groups, p, i + 1); }
      assert PathFromTo(groups, q, q[0], x);
      assert q[0] in groups[g].dependency && DependsOnOrIs(groups, q[0], x);
    }
  }

  // ---------- The search ----------

  datatype Search = Search(visited: set<string>, parent: set<string>, order: seq<string>)
  datatype Answer = Answer(ok: bool, search: Search)

  /** The recursive closure valid_DAG. A failed node stays in visited and has left parent. */
  function Visit(groups: Groups, name: string, s: Search): (r: Answer)
    ensures s.visited <= r.search.visited
    decreases groups.Keys - s.visited, 0
  {
    if name !in groups || name in s.parent then Answer(false, s)
    else if name in s.visited then Answer(true, s)
    else
      var entered := Search(s.visited + {name}, s.parent + {name}, s.order);
      var r := VisitAll(groups, groups[name].dependency, entered);
      Answer(r.ok, Search(r.search.visited, r.search.parent - {name}, r.search.order + [name]))
  }

  /** std::all_of over a range of names: stops at the first false. */
  function VisitAll(groups: Groups, names: seq<string>, s: Search): (r: Answer)
    ensures s.visited <= r.search.visited
    decreases groups.Keys - s.visited, 1 + |names|
  {
    if names == [] then Answer(true, s)
    else
      var r := Visit(groups, names[0], s);
      if r.ok then VisitAll(groups, names[1..], r.search) else r
  }

  const EMPTY_SEARCH := Search({}, {}, [])

  /** find_topo_order; keys is the iteration order of the std::map. */
  function FindTopo(groups: Groups, keys: seq<string>): Answer {
    VisitAll(groups, keys, EMPTY_SEARCH)
  }

  // ---------- Topological orders ----------

  /** Every dependency of order[i] stands before position i. */
  ghost predicate Placed(groups: Groups, order: seq<string>, i: nat)
    requires i < |order|
  {
    order[i] in groups && forall d :: d in groups[order[i]].dependency ==> d in order[..i]
  }

  ghost predicate Closed(groups: Groups, order: seq<string>) {
    NoDup(order) && forall i: nat | i < |order| :: Placed(groups, order, i)
  }

  ghost predicate TopoOrder(groups: Groups, order: seq<string>) {
    Closed(groups, order) && Elems(order) == groups.Keys
  }

  lemma ClosedSnoc(groups: Groups, order: seq<string>, g: string)
    requires Closed(groups, order) && g !in order
    requires g in groups && forall d :: d in groups[g].dependency ==> d in order
    ensures Closed(groups, order + [g])
  {
    var longer := order + [g];
    forall i: nat | i < |longer| ensures Placed(groups, longer, i) {
      if i < |order| {
        assert Placed(groups, order, i);
        assert longer[..i] == order[..i];
      } else {
        assert longer[..i] == order;
      }
    }
  }

  /** Along any path inside a topological order the position strictly falls. */
  lemma {:induction false} PathGoesBack(groups: Groups, order: seq<string>, p: seq<string>, i: nat) returns (j: nat)
    requires Closed(groups, order) && IsPath(groups, p) && i < |order| && p[0] == order[i]
    ensures j <= i && order[j] == p[|p| - 1] && (|p| >= 2 ==> j < i)
    decreases |p|
  {
    if |p| == 1 {
      j := i;
    } else {
      var q := p[1..];
      assert StepAt(groups, p, 0) && Placed(groups, order, i);
      var k :| 0 <= k < i && order[k] == q[0];
      forall n: nat | n + 1 < |q| ensures StepAt(groups, q, n) { assert StepAt(groups, p, n + 1); }
      j := PathGoesBack(groups, order, q, k);
    }
  }

  lemma TopoOrderImpliesValid(groups: Groups, order: seq<string>)
    requires TopoOrder(groups, order)
    ensures ValidDag(groups)
  {
    forall g, d | g in groups && d in groups[g].dependency ensures d in groups {
      assert g in order;
      assert Placed(groups, order, IndexOf(order, g));
    }
    forall g | g in groups ensures !DependsOn(groups, g, g) {
      assert g in order;
      if p :| PathFromTo(groups, p, g, g) && |p| >= 2 {
        var i := IndexOf(order, g);
        var j := PathGoesBack(groups, order, p, i);
        assert false;
      }
    }
  }

  // ---------- A positive answer is right ----------

  /** While every answer so far was positive, order is a topological order of the finished nodes. */
  ghost predicate Sound(groups: Groups, s: Search) {
    Closed(groups, s.order) && s.parent <= s.visited && Elems(s.order) == s.visited - s.parent
  }

  lemma {:induction false} VisitSound(groups: Groups, name: string, s: Search)
    requires Sound(groups, s)
    ensures var r := Visit(groups, name, s);
            r.search.parent == s.parent &&
            (r.ok ==> Sound(groups, r.search) && name in r.search.order && s.order <= r.search.order)
    decreases groups.Keys - s.visited, 0
  {
    if name in groups && name !in s.parent && name !in s.visited {
      var entered := Search(s.visited + {name}, s.parent + {name}, s.order);
      assert Sound(groups, entered);
      VisitAllSound(groups, groups[name].dependency, entered);
      var t := VisitAll(groups, groups[name].dependency, entered);
      if t.ok {
        ClosedSnoc(groups, t.search.order, name);
        assert Elems(t.search.order + [name]) == Elems(t.search.order) + {name};
      }
    }
  }

  lemma {:induction false} VisitAllSound(groups: Groups, names: seq<string>, s: Search)
    requires Sound(groups, s)
    ensures var r := VisitAll(groups, names, s);
            r.search.parent == s.parent &&
            (r.ok ==> Sound(groups, r.search) && s.order <= r.search.order &&
                      forall d :: d in names ==> d in r.search.order)
    decreases groups.Keys - s.visited, 1 + |names|
  {
    if names != [] {
      VisitSound(groups, names[0], s);
      var r := Visit(groups, names[0], s);
      if r.ok {
        VisitAllSound(groups, names[1..], r.search);
        var rest := VisitAll(groups, names[1..], r.search);
        assert rest.ok ==> names[0] in rest.search.order;
        assert names == [names[0]] + names[1..];
      }
    }
  }

  /** parent is restored by every query, whether it succeeds or fails. */
  lemma {:induction false} VisitRestoresParent(groups: Groups, name: string, s: Search)
    ensures Visit(groups, name, s).search.parent == s.parent
    decreases groups.Keys - s.visited, 0
  {
    if name in groups && name !in s.parent && name !in s.visited {
      VisitAllRestoresParent(groups, groups[name].dependency,
                             Search(s.visited + {name}, s.parent + {name}, s.order));
    }
  }

  lemma {:induction false} VisitAllRestoresParent(groups: Groups, names: seq<string>, s: Search)
    ensures VisitAll(groups, names, s).search.parent == s.parent
    decreases groups.Keys - s.visited, 1 + |names|
  {
    if names != [] {
      VisitRestoresParent(groups, names[0], s);
      var r := Visit(groups, names[0], s);
      if r.ok { VisitAllRestoresParent(groups, names[1..], r.search); }
    }
  }

  // ---------- A negative answer is right ----------

  lemma PathSnoc(groups: Groups, path: seq<string>, next: string)
    requires path != [] ==> IsPath(groups, path) && path[|path| - 1] in groups &&
                            next in groups[path[|path| - 1]].dependency
    ensures IsPath(groups, path + [next])
  {
    var p := path + [next];
    forall i: nat | i + 1 < |p| ensures StepAt(groups, p, i) {
      if i + 1 < |path| { assert StepAt(groups, path, i); }
    }
  }

  /** When parent is the current call path, a false answer exhibits a bad path that extends it. */
  lemma {:induction false} VisitFails(groups: Groups, name: string, s: Search, path: seq<string>)
    returns (bad: seq<string>)
    requires s.parent == Elems(path) && IsPath(groups, path + [name])
    requires !Visit(groups, name, s).ok
    ensures BadPath(groups, bad) && path + [name] <= bad
    decreases groups.Keys - s.visited, 0
  {
    bad := path + [name];
    if name in groups && name !in s.parent {
      bad := VisitAllFails(groups, groups[name].dependency,
                           Search(s.visited + {name}, s.parent + {name}, s.order), path + [name]);
    } else {
      assert bad[..|bad| - 1] == path;
    }
  }

  lemma {:induction false} VisitAllFails(groups: Groups, names: seq<string>, s: Search, path: seq<string>)
    returns (bad: seq<string>)
    requires path != [] && s.parent == Elems(path) && IsPath(groups, path) && path[|path| - 1] in groups
    requires forall d :: d in names ==> d in groups[path[|path| - 1]].dependency
    requires !VisitAll(groups, names, s).ok
    ensures BadPath(groups, bad) && path <= bad
    decreases groups.Keys - s.visited, 1 + |names|
  {
    var r := Visit(groups, names[0], s);
    assert names[0] in names && forall d :: d in names[1..] ==> d in names;
    if !r.ok {
      PathSnoc(groups, path, names[0]);
      bad := VisitFails(groups, names[0], s, path);
    } else {
      VisitRestoresParent(groups, names[0], s);
      bad := VisitAllFails(groups, names[1..], r.search, path);
    }
  }

  /** The outer loop over all groups: a false answer exhibits a bad path starting at a group. */
  lemma {:induction false} RejectionHasWitness(groups: Groups, names: seq<string>, s: Search) returns (bad: seq<string>)
    requires s.parent == {} && !VisitAll(groups, names, s).ok
    ensures BadPath(groups, bad) && bad[0] in names
    decreases |names|
  {
    var r := Visit(groups, names[0], s);
    if !r.ok {
      PathSnoc(groups, [], names[0]);
      bad := VisitFails(groups, names[0], s, []);
      assert bad[0] == ([] + [names[0]])[0];
    } else {
      VisitRestoresParent(groups, names[0], s);
      bad := RejectionHasWitness(groups, names[1..], r.search);
    }
  }

  lemma BadPathRefutesValid(groups: Groups, bad: seq<string>)
    requires BadPath(groups, bad) && bad[0] in groups
    ensures !ValidDag(groups)
  {
    var last := |bad| - 1;
    if bad[last] !in groups {
      assert StepAt(groups, bad, last - 1);
    } else {
      var j :| 0 <= j < last && bad[j] == bad[last];
      var cycle := bad[j..];
      forall i: nat | i + 1 < |cycle| ensures StepAt(groups, cycle, i) { assert StepAt(groups, bad, j + i); }
      assert PathFromTo(groups, cycle, bad[j], bad[j]);
      assert StepAt(groups, bad, j);
    }
  }

  // ---------- Main results on the search ----------

  /** The search answers true exactly on valid graphs, for every iteration order of the map;
      its order then lists every group once, each after all of its dependencies. */
  lemma FindTopoCorrect(groups: Groups, keys: seq<string>)
    requires Enumerates(keys, groups.Keys)
    ensures FindTopo(groups, keys).ok <==> ValidDag(groups)
    ensures FindTopo(groups, keys).ok ==> TopoOrder(groups, FindTopo(groups, keys).search.order)
  {
    var r := FindTopo(groups, keys);
    VisitAllSound(groups, keys, EMPTY_SEARCH);
    if r.ok {
      VisitedAreGroups(groups, keys, EMPTY_SEARCH);
      assert Elems(r.search.order) == groups.Keys;
      TopoOrderImpliesValid(groups, r.search.order);
    } else {
      var bad := RejectionHasWitness(groups, keys, EMPTY_SEARCH);
      BadPathRefutesValid(groups, bad);
    }
  }

  lemma {:induction false} VisitedAreGroups(groups: Groups, names: seq<string>, s: Search)
    requires Sound(groups, s)
    ensures VisitAll(groups, names, s).ok ==>
              forall g :: g in VisitAll(groups, names, s).search.order ==> g in groups
  {
    VisitAllSound(groups, names, s);
    var order := VisitAll(groups, names, s).search.order;
    if VisitAll(groups, names, s).ok {
      forall g | g in order ensures g in groups {
        assert Placed(groups, order, IndexOf(order, g));
      }
    }
  }

  /** A failed node is remembered as visited: asked again outside its own call, it would be
      accepted. The correctness of the search therefore rests on stopping at the first false. */
  lemma FailureIsForgotten(groups: Groups, name: string, s: Search)
    requires name in groups && name !in s.parent && !Visit(groups, name, s).ok
    ensures Visit(groups, name, Visit(groups, name, s).search).ok
  {
    VisitRestoresParent(groups, name, s);
  }
}
