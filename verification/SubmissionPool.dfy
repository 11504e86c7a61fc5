/** The queue-plus-index pool with lazy deletion (include/grader/submission_pool.hpp,
    src/grader/submission_pool.cpp). */
module SubmissionPools {
  import opened Sequences

  datatype Submission = Submission(id: string, taskId: string, version: string, option: string, filename: string)

  datatype Pool = Pool(order: seq<Submission>, index: map<string, Submission>)

  const EMPTY_POOL := Pool([], map[])

  function Add(p: Pool, s: Submission): Pool {
    Pool(p.order + [s], if s.id in p.index then p.index else p.index[s.id := s])
  }

  function Remove(p: Pool, id: string): Pool {
    Pool(p.order, p.index - {id})
  }

  datatype Picked = Picked(found: Option<Submission>, order: seq<Submission>)

  /** Pops entries until one is met whose presence in the index equals live. The loop in the
      source stops at the first entry that is NOT in the index (live == false), although its only
      caller needs the first entry that still is (live == true). */
  function PopUntil(order: seq<Submission>, index: map<string, Submission>, live: bool): Picked {
    if order == [] then Picked(None, [])
    else if (order[0].id in index) == live then Picked(Some(order[0]), order[1..])
    else PopUntil(order[1..], index, live)
  }

  // ---------- The pool as a FIFO with deletion by key ----------

  /** The entries that are still in the index, oldest first. */
  function Live(order: seq<Submission>, index: map<string, Submission>): (r: seq<Submission>) {
    if order == [] then []
    else (if order[0].id in index then [order[0]] else []) + Live(order[1..], index)
  }

  lemma {:induction false} LiveConcat(a: seq<Submission>, b: seq<Submission>, index: map<string, Submission>)
    ensures Live(a + b, index) == Live(a, index) + Live(b, index)
  {
    if a == [] {
      assert a + b == b;
    } else {
      assert (a + b)[1..] == a[1..] + b;
      LiveConcat(a[1..], b, index);
    }
  }

  lemma {:induction false} LiveAgrees(order: seq<Submission>, a: map<string, Submission>, b: map<string, Submission>)
    requires forall x :: x in order ==> (x.id in a <==> x.id in b)
    ensures Live(order, a) == Live(order, b)
  {
    if order != [] {
      assert order[0] in order && forall x :: x in order[1..] ==> x in order;
      LiveAgrees(order[1..], a, b);
    }
  }

  /** Making one more key live brings back every stale entry with that key. */
  lemma {:induction false} StaleComesBack(order: seq<Submission>, index: map<string, Submission>, s: Submission)
    requires s.id !in index
    ensures |Live(order, index)| <= |Live(order, index[s.id := s])|
    ensures (exists x :: x in order && x.id == s.id) ==>
              |Live(order, index)| < |Live(order, index[s.id := s])|
  {
    if order != [] {
      StaleComesBack(order[1..], index, s);
      if x :| x in order && x.id == s.id && order[0].id != s.id { assert x in order[1..]; }
    }
  }

  /** add appends to the FIFO exactly when no stale entry carries the same id. */
  lemma AddAppendsIff(p: Pool, s: Submission)
    ensures var q := Add(p, s);
            Live(q.order, q.index) == Live(p.order, p.index) + [s] <==>
            s.id in p.index || forall x :: x in p.order ==> x.id != s.id
  {
    var q := Add(p, s);
    LiveConcat(p.order, [s], q.index);
    assert Live([s], q.index) == [s];
    if s.id !in p.index {
      StaleComesBack(p.order, p.index, s);
      if forall x :: x in p.order ==> x.id != s.id { LiveAgrees(p.order, p.index, q.index); }
    }
  }

  function Without(subs: seq<Submission>, id: string): seq<Submission> {
    if subs == [] then []
    else (if subs[0].id == id then [] else [subs[0]]) + Without(subs[1..], id)
  }

  /** remove deletes by key and keeps the order of the rest. */
  lemma {:induction false} RemoveDeletes(order: seq<Submission>, index: map<string, Submission>, id: string)
    ensures Live(order, index - {id}) == Without(Live(order, index), id)
  {
    if order != [] {
      RemoveDeletes(order[1..], index, id);
      var rest := Live(order[1..], index);
      assert ([order[0]] + rest)[1..] == rest && [] + rest == rest;
    }
  }

  /** Everything up to the first entry with the presence asked for is popped, and nothing else. */
  lemma {:induction false} PopUntilIs(order: seq<Submission>, index: map<string, Submission>, live: bool)
    ensures var r := PopUntil(order, index, live);
            && (r.found.None? ==> r.order == [] && forall x :: x in order ==> (x.id in index) != live)
            && (r.found.Some? ==>
                  var k := |order| - |r.order| - 1;
                  && 0 <= k && r.order == order[k + 1..] && r.found.value == order[k]
                  && (order[k].id in index) == live
                  && forall j :: 0 <= j < k ==> (order[j].id in index) != live)
  {
    if order != [] {
      PopUntilIs(order[1..], index, live);
      assert order == [order[0]] + order[1..];
    }
  }

  /** With the intended loop get_first takes the head of the FIFO, and fails only when it is empty. */
  lemma {:induction false} GetFirstTakesHead(order: seq<Submission>, index: map<string, Submission>)
    ensures var r := PopUntil(order, index, true);
            if Live(order, index) == [] then r == Picked(None, [])
            else r.found == Some(Live(order, index)[0]) && Live(r.order, index) == Live(order, index)[1..]
  {
    if order != [] { GetFirstTakesHead(order[1..], index); }
  }

  /** The loop as written never yields an entry that is still in the index, and when every entry
      is, it empties the queue and yields nothing. */
  lemma {:induction false} AsWrittenNeverYieldsLive(order: seq<Submission>, index: map<string, Submission>)
    ensures var r := PopUntil(order, index, false);
            (r.found.Some? ==> r.found.value in order && r.found.value.id !in index) &&
            (r.found.None? <==> forall x :: x in order ==> x.id in index) &&
            (r.found.None? ==> r.order == [])
  {
    if order != [] {
      AsWrittenNeverYieldsLive(order[1..], index);
      assert order == [order[0]] + order[1..];
      assert order[0] in order;
    }
  }

  lemma {:induction false} IntendedYieldsLive(order: seq<Submission>, index: map<string, Submission>)
    ensures var r := PopUntil(order, index, true);
            (r.found.Some? ==> r.found.value in order && r.found.value.id in index) &&
            (r.found.None? <==> forall x :: x in order ==> x.id !in index)
  {
    if order != [] {
      IntendedYieldsLive(order[1..], index);
      assert order == [order[0]] + order[1..];
      assert order[0] in order;
    }
  }

  /** The two loops give the same answer exactly on the empty queue. */
  lemma LoopsAgreeIffEmpty(order: seq<Submission>, index: map<string, Submission>)
    ensures PopUntil(order, index, true).found == PopUntil(order, index, false).found <==> order == []
  {
    AsWrittenNeverYieldsLive(order, index);
    IntendedYieldsLive(order, index);
    if order != [] { assert order[0] in order; }
  }

  // ---------- The class ----------

  class SubmissionPool {
    var order: seq<Submission>
    var index: map<string, Submission>

    function View(): Pool
      reads this
    {
      Pool(order, index)
    }

    constructor ()
      ensures View() == EMPTY_POOL
    {
      order, index := [], map[];
    }

    method AddSubmission(s: Submission)
      modifies this
      ensures View() == Add(old(View()), s)
      ensures order == old(order) + [s] && index.Keys == old(index).Keys + {s.id}
      ensures forall id :: id in old(index) ==> index[id] == old(index)[id]
      ensures s.id !in old(index) ==> index[s.id] == s
    {
      order := order + [s];
      if s.id !in index { index := index[s.id := s]; }
    }

    method RemoveSubmission(id: string)
      modifies this
      ensures View() == Remove(old(View()), id)
      ensures order == old(order) && index.Keys == old(index).Keys - {id}
      ensures forall other :: other in index ==> index[other] == old(index)[other]
    {
      index := index - {id};
    }

    /** get_first; live selects the loop test, false being the one in the source. */
    method GetFirst(live: bool) returns (found: Option<Submission>)
      modifies this`order
      ensures Picked(found, order) == PopUntil(old(order), index, live)
      ensures found == None ==> order == [] && forall x :: x in old(order) ==> (x.id in index) != live
      ensures found != None ==>
                |order| < |old(order)| && order == old(order)[|old(order)| - |order|..] &&
                found.value == old(order)[|old(order)| - |order| - 1] && (found.value.id in index) == live &&
                forall j :: 0 <= j < |old(order)| - |order| - 1 ==> (old(order)[j].id in index) != live
    {
      PopUntilIs(order, index, live);
      while true
        invariant PopUntil(order, index, live) == PopUntil(old(order), index, live)
        decreases |order|
      {
        if order == [] { return None; }
        var first := order[0];
        order := order[1..];
        if (first.id in index) == live { return Some(first); }
      }
    }

    function Get(id: string): (r: Option<Submission>)
      reads this
      ensures r == None <==> id !in index
      ensures r != None ==> r.value == index[id]
    {
      if id in index then Some(index[id]) else None
    }

    /** Counts the queue, stale entries included, not the index. */
    function Size(): (n: nat)
      reads this
      ensures n == |View().order|
    {
      |order|
    }
  }
}
