/** Which topological order the search finds, without reference to the search: the names are taken
    in turn, and of two groups the one comes first that an earlier name is or needs first. */
module SearchOrder {
  import opened Sequences
  import opened GroupGraph

  /** The first of the names that is x or needs x; their number if none does. */
  ghost function FirstTo(groups: Groups, names: seq<string>, x: string): (i: nat)
    ensures i <= |names| && forall k :: 0 <= k < i ==> !DependsOnOrIs(groups, names[k], x)
    ensures i < |names| ==> DependsOnOrIs(groups, names[i], x)
  {
    if names == [] || DependsOnOrIs(groups, names[0], x) then 0 else 1 + FirstTo(groups, names[1..], x)
  }

  /** u comes before v: an earlier name leads to it; or the same name leads to both first, and v is
      that name, or neither is and its dependencies, taken in turn, put u before v. The groups
      above are those whose dependencies are being taken. */
  ghost predicate Precedes(groups: Groups, names: seq<string>, u: string, v: string, above: set<string>)
    decreases groups.Keys - above
  {
    var i, j := FirstTo(groups, names, u), FirstTo(groups, names, v);
    i < j ||
    (i == j < |names| && u != names[i] &&
     (v == names[i] ||
      (names[i] in groups && names[i] !in above &&
       Precedes(groups, groups[names[i]].dependency, u, v, above + {names[i]}))))
  }

  /** The order lists every group once, the earlier ones first. */
  ghost predicate InSearchOrder(groups: Groups, keys: seq<string>, order: seq<string>) {
    && Enumerates(order, groups.Keys)
    && forall i, j :: 0 <= i < j < |order| ==> Precedes(groups, keys, order[i], order[j], {})
  }

  lemma {:induction false} PrecedesIsStrict(groups: Groups, names: seq<string>, u: string, v: string,
                                            above: set<string>)
    requires Precedes(groups, names, u, v, above)
    ensures !Precedes(groups, names, v, u, above)
    decreases groups.Keys - above
  {
    var i, j := FirstTo(groups, names, u), FirstTo(groups, names, v);
    if i == j && v != names[i] {
      PrecedesIsStrict(groups, groups[names[i]].dependency, u, v, above + {names[i]});
    }
  }

  /** Two listings of the same groups that both put the earlier ones first are equal. */
  lemma {:induction false} SortedIsUnique(groups: Groups, keys: seq<string>, a: seq<string>, b: seq<string>)
    requires NoDup(a) && NoDup(b) && Elems(a) == Elems(b)
    requires forall i, j :: 0 <= i < j < |a| ==> Precedes(groups, keys, a[i], a[j], {})
    requires forall i, j :: 0 <= i < j < |b| ==> Precedes(groups, keys, b[i], b[j], {})
    ensures a == b
    decreases |a|
  {
    hide Precedes;
    if b != [] { assert b[0] in Elems(a); }
    if a != [] {
      assert a[0] in Elems(a);
      assert a[0] in b;
      assert b[0] in Elems(b);
      var k: nat :| k < |b| && b[k] == a[0];
      var m: nat :| m < |a| && a[m] == b[0];
      if k > 0 { PrecedesIsStrict(groups, keys, b[0], a[0], {}); }
      TailElems(a);
      TailElems(b);
      SortedIsUnique(groups, keys, a[1..], b[1..]);
      assert a == [a[0]] + a[1..] && b == [b[0]] + b[1..];
    }
  }

  lemma TailElems(a: seq<string>)
    requires NoDup(a) && a != []
    ensures Elems(a[1..]) == Elems(a) - {a[0]}
  {
    assert a == [a[0]] + a[1..];
  }

  // ---------- What one visit adds ----------

  /** Finished groups have everything that they need finished. */
  lemma FinishedAreClosed(groups: Groups, order: seq<string>, g: string, x: string)
    requires Closed(groups, order) && g in order && DependsOnOrIs(groups, g, x)
    ensures x in order
  {
    if g != x {
      var p :| PathFromTo(groups, p, g, x) && |p| >= 2;
      var j := PathGoesBack(groups, order, p, IndexOf(order, g));
    }
  }

  /** The groups after position n are in the order in which the names lead to them. */
  ghost predicate SortedFrom(groups: Groups, names: seq<string>, order: seq<string>, n: nat, above: set<string>) {
    forall i, j :: n <= i < j < |order| ==> Precedes(groups, names, order[i], order[j], above)
  }

  /** The groups after position n are needed by a name, or are one. */
  ghost predicate NeededFrom(groups: Groups, names: seq<string>, order: seq<string>, n: nat) {
    forall i :: n <= i < |order| ==> FirstTo(groups, names, order[i]) < |names|
  }

  lemma FirstToUnfold(groups: Groups, names: seq<string>, x: string)
    requires names != []
    ensures DependsOnOrIs(groups, names[0], x) ==> FirstTo(groups, names, x) == 0
    ensures !DependsOnOrIs(groups, names[0], x) ==>
              FirstTo(groups, names, x) == 1 + FirstTo(groups, names[1..], x)
  {}

  /** What a visit adds is what its group needs, in the order of its dependencies, and the group
      itself last. */
  lemma {:induction false} VisitAddsInOrder(groups: Groups, name: string, s: Search)
    requires Sound(groups, s) && Visit(groups, name, s).ok
    ensures var t := Visit(groups, name, s).search;
            && s.order <= t.order
            && NeededFrom(groups, [name], t.order, |s.order|)
            && SortedFrom(groups, [name], t.order, |s.order|, s.parent)
    decreases groups.Keys - s.visited, 0
  {
    VisitSound(groups, name, s);
    if name !in s.visited {
      var deps := groups[name].dependency;
      var entered := Search(s.visited + {name}, s.parent + {name}, s.order);
      VisitAllSound(groups, deps, entered);
      VisitAllAddsInOrder(groups, deps, entered);
      var t := VisitAll(groups, deps, entered).search;
      assert name !in t.order;
      hide Visit, VisitAll, Sound;
      forall i | |s.order| <= i < |t.order| ensures DependsOnOrIs(groups, name, t.order[i]) {
        var k := FirstTo(groups, deps, t.order[i]);
        assert deps[k] in deps;
        DependsOnUnfold(groups, name, t.order[i]);
      }
      LastIsName(groups, name, t.order, |s.order|, s.parent);
    }
  }

  lemma LastIsName(groups: Groups, name: string, order: seq<string>, n: nat, above: set<string>)
    requires name in groups && name !in order && name !in above && n <= |order|
    requires forall i :: n <= i < |order| ==> DependsOnOrIs(groups, name, order[i])
    requires SortedFrom(groups, groups[name].dependency, order, n, above + {name})
    ensures NeededFrom(groups, [name], order + [name], n)
    ensures SortedFrom(groups, [name], order + [name], n, above)
  {
    hide DependsOn;
    var longer := order + [name];
    forall i | n <= i < |longer| ensures FirstTo(groups, [name], longer[i]) == 0 {
      assert DependsOnOrIs(groups, name, longer[i]);
    }
    forall i, j | n <= i < j < |longer| ensures Precedes(groups, [name], longer[i], longer[j], above) {
      assert longer[i] == order[i];
    }
  }

  lemma {:induction false} VisitAllAddsInOrder(groups: Groups, names: seq<string>, s: Search)
    requires Sound(groups, s) && VisitAll(groups, names, s).ok
    ensures var t := VisitAll(groups, names, s).search;
            && s.order <= t.order
            && NeededFrom(groups, names, t.order, |s.order|)
            && SortedFrom(groups, names, t.order, |s.order|, s.parent)
    decreases groups.Keys - s.visited, 1 + |names|
  {
    if names != [] {
      VisitSound(groups, names[0], s);
      VisitAddsInOrder(groups, names[0], s);
      var r := Visit(groups, names[0], s).search;
      VisitAllSound(groups, names[1..], r);
      VisitAllAddsInOrder(groups, names[1..], r);
      var t := VisitAll(groups, names[1..], r).search;
      hide Visit, VisitAll;
      forall x ensures DependsOnOrIs(groups, names[0], x) ==> x in r.order {
        if DependsOnOrIs(groups, names[0], x) { FinishedAreClosed(groups, r.order, names[0], x); }
      }
      Append(groups, names, t.order, |s.order|, |r.order|, s.parent);
    }
  }

  /** Up to position m the first name has led to the groups, and after it the others have. */
  lemma Append(groups: Groups, names: seq<string>, order: seq<string>, n: nat, m: nat, above: set<string>)
    requires names != [] && n <= m <= |order| && NoDup(order)
    requires forall x :: DependsOnOrIs(groups, names[0], x) ==> x in order[..m]
    requires NeededFrom(groups, [names[0]], order[..m], n) && SortedFrom(groups, [names[0]], order[..m], n, above)
    requires NeededFrom(groups, names[1..], order, m) && SortedFrom(groups, names[1..], order, m, above)
    ensures NeededFrom(groups, names, order, n) && SortedFrom(groups, names, order, n, above)
  {
    hide DependsOn, DependsOnOrIs, Precedes;
    forall i | n <= i < |order|
      ensures if i < m then FirstTo(groups, names, order[i]) == 0 && FirstTo(groups, [names[0]], order[i]) == 0
              else FirstTo(groups, names, order[i]) == 1 + FirstTo(groups, names[1..], order[i])
    {
      FirstToUnfold(groups, names, order[i]);
      if i < m {
        assert order[..m][i] == order[i];
      } else {
        assert order[i] !in order[..m];
      }
    }
    forall i, j | n <= i < j < |order| ensures Precedes(groups, names, order[i], order[j], above) {
      if j < m {
        assert order[..m][i] == order[i] && order[..m][j] == order[j];
        SameFirst(groups, [names[0]], names, order[i], order[j], above, 0);
      } else if i < m {
        EarlierPrecedes(groups, names, order[i], order[j], above);
      } else {
        SameFirst(groups, names[1..], names, order[i], order[j], above, 1);
      }
    }
  }

  lemma EarlierPrecedes(groups: Groups, names: seq<string>, u: string, v: string, above: set<string>)
    requires FirstTo(groups, names, u) < FirstTo(groups, names, v)
    ensures Precedes(groups, names, u, v, above)
  {}

  /** Names in front that lead to neither group, and names behind, change nothing. */
  lemma SameFirst(groups: Groups, few: seq<string>, names: seq<string>, u: string, v: string, above: set<string>,
                  d: nat)
    requires Precedes(groups, few, u, v, above) && FirstTo(groups, few, u) < |few|
    requires d + |few| <= |names| && forall k :: 0 <= k < |few| ==> names[d + k] == few[k]
    requires FirstTo(groups, names, u) == d + FirstTo(groups, few, u)
    requires FirstTo(groups, names, v) == d + FirstTo(groups, few, v)
    ensures Precedes(groups, names, u, v, above)
  {
    hide *;
    SameName(groups, few, names, u, v, above, d, FirstTo(groups, few, u));
  }

  lemma SameName(groups: Groups, few: seq<string>, names: seq<string>, u: string, v: string, above: set<string>,
                 d: nat, k: nat)
    requires Precedes(groups, few, u, v, above) && FirstTo(groups, few, u) == k < |few|
    requires FirstTo(groups, names, u) == d + k && FirstTo(groups, names, v) == d + FirstTo(groups, few, v)
    requires d + k < |names| && names[d + k] == few[k]
    ensures Precedes(groups, names, u, v, above)
  {
    hide FirstTo, DependsOn;
  }

  // ---------- Main results ----------

  /** What an earlier name is or needs comes before what only later names lead to. */
  lemma EarlierNameFirst(groups: Groups, keys: seq<string>, order: seq<string>, i: nat, j: nat)
    requires InSearchOrder(groups, keys, order) && i < |order| && j < |order|
    requires FirstTo(groups, keys, order[i]) < FirstTo(groups, keys, order[j])
    ensures i < j
  {
    EarlierPrecedes(groups, keys, order[i], order[j], {});
    if j < i { PrecedesIsStrict(groups, keys, order[i], order[j], {}); }
  }

  /** In an accepted graph the order found is the only one that puts the earlier groups first. */
  lemma SearchOrderIsUnique(groups: Groups, keys: seq<string>, order: seq<string>)
    requires Enumerates(keys, groups.Keys) && ValidDag(groups)
    ensures InSearchOrder(groups, keys, order) <==> order == FindTopo(groups, keys).search.order
  {
    FindTopoCorrect(groups, keys);
    VisitAllAddsInOrder(groups, keys, EMPTY_SEARCH);
    var found := FindTopo(groups, keys).search.order;
    if InSearchOrder(groups, keys, order) { SortedIsUnique(groups, keys, order, found); }
  }
}
