/** find_topo_order as the source runs it: one closure over mutable visited and parent sets and
    an optional output vector (src/sandbox/submission_config.cpp:14-48). */
module TopoSearch {
  import opened GroupGraph
  import opened KeyOrder
  import opened SearchOrder

  class Finder {
    const groups: Groups
    const wantOrder: bool
    var visited: set<string>
    var parent: set<string>
    var order: seq<string>
    // The nodes finished so far, kept even when no output vector was passed.
    ghost var finished: seq<string>

    ghost predicate Valid()
      reads this
    {
      order == if wantOrder then finished else []
    }

    ghost function View(): Search
      reads this
    {
      Search(visited, parent, finished)
    }

    constructor (groups: Groups, wantOrder: bool)
      ensures Valid() && View() == EMPTY_SEARCH
      ensures this.groups == groups && this.wantOrder == wantOrder
    {
      this.groups, this.wantOrder := groups, wantOrder;
      visited, parent, order, finished := {}, {}, [], [];
    }

    method ValidFrom(name: string) returns (ok: bool)
      requires Valid()
      modifies this
      ensures Valid() && Answer(ok, View()) == Visit(groups, name, old(View()))
      ensures ok && Sound(groups, old(View())) ==>
                && old(finished) <= finished
                && NeededFrom(groups, [name], finished, |old(finished)|)
                && SortedFrom(groups, [name], finished, |old(finished)|, old(parent))
      decreases groups.Keys - visited, 0
    {
      if Sound(groups, View()) && Visit(groups, name, View()).ok { VisitAddsInOrder(groups, name, View()); }
      hide SortedFrom, NeededFrom, Sound;
      if name !in groups { return false; }
      if name in parent { return false; }
      if name in visited { return true; }
      visited := visited + {name};
      parent := parent + {name};
      ok := AllValid(groups[name].dependency);
      parent := parent - {name};
      if wantOrder { order := order + [name]; }
      finished := finished + [name];
    }

    /** std::all_of over the names. */
    method AllValid(names: seq<string>) returns (ok: bool)
      requires Valid()
      modifies this
      ensures Valid() && Answer(ok, View()) == VisitAll(groups, names, old(View()))
      decreases groups.Keys - visited, 1
    {
      ok := true;
      var i := 0;
      while ok && i < |names|
        invariant Valid() && 0 <= i <= |names| && old(visited) <= visited
        invariant VisitAll(groups, names, old(View())) ==
                  if ok then VisitAll(groups, names[i..], View()) else Answer(false, View())
      {
        ghost var before := View();
        ok := ValidFrom(names[i]);
        assert names[i..][0] == names[i] && names[i..][1..] == names[i + 1..];
        assert Answer(ok, View()) == Visit(groups, names[i], before);
        i := i + 1;
      }
    }
  }

  /** The order that the source grades the groups in. */
  ghost function CodeOrder(groups: Groups): seq<string> {
    FindTopo(groups, KeyList(groups.Keys)).search.order
  }

  /** The answer is true exactly on valid graphs, whether or not an output vector is passed; the
      vector is then a topological order, the only one that puts the groups first that earlier
      keys of the map, and then earlier dependencies, lead to. */
  method FindTopoOrder(groups: Groups, wantOrder: bool) returns (ok: bool, order: seq<string>)
    ensures ok <==> ValidDag(groups)
    ensures ok && wantOrder ==> TopoOrder(groups, order) && order == CodeOrder(groups)
    ensures ok && wantOrder ==> InSearchOrder(groups, KeyList(groups.Keys), order)
    ensures !wantOrder ==> order == []
  {
    var keys := ListKeys(groups.Keys);
    var finder := new Finder(groups, wantOrder);
    ok := finder.AllValid(keys);
    order := finder.order;
    MapOrderEnumerates(keys, groups.Keys);
    FindTopoCorrect(groups, keys);
    if ok { SearchOrderIsUnique(groups, keys, finder.finished); }
  }
}
