/** What holds of the pool of graders over every run: conservation, at-most-once grading, FIFO
    dispatch, monotone status; and what the loop of get_first does as it is written. */
module PoolRuns {
  import opened Sequences
  import opened SubmissionPools
  import opened PoolProtocol

  lemma {:induction false} RunInv(s: State, ls: seq<Label>)
    requires Inv(s)
    ensures Inv(Exec(s, ls, true))
  {
    if ls != [] {
      RunInv(s, ls[..|ls| - 1]);
      StepInv(Exec(s, ls[..|ls| - 1], true), ls[|ls| - 1]);
    }
  }

  lemma {:induction false} ExecConcat(s: State, a: seq<Label>, b: seq<Label>, live: bool)
    ensures Exec(s, a + b, live) == Exec(Exec(s, a, live), b, live)
  {
    if b == [] {
      assert a + b == a;
    } else {
      var ab := a + b;
      assert ab[..|ab| - 1] == a + b[..|b| - 1];
      ExecConcat(s, a, b[..|b| - 1], live);
    }
  }

  /** A schedule continued by one more step. */
  lemma ExecSnoc(s: State, ls: seq<Label>, l: Label, live: bool)
    ensures Exec(s, ls + [l], live) == Apply(Exec(s, ls, live), l, live)
    ensures Exec(s, [], live) == s
  {
    assert (ls + [l])[..|ls|] == ls;
  }

  // ---------- Conservation ----------

  /** In every reachable state the three indexes together list exactly the accepted ids; an id
      is in two of them only between the add to the next pool and the remove from the previous
      one. So the three owning destructors free every accepted submission exactly once. */
  lemma IndexesPartition(n: nat, ls: seq<Label>)
    ensures var s := Exec(Initial(n), ls, true);
            && s.waiting.index.Keys + s.grading.index.Keys + s.graded.index.Keys == Ids(s.accepted)
            && s.waiting.index.Keys !! s.graded.index.Keys
            && (!s.pc.Listed? ==> s.waiting.index.Keys !! s.grading.index.Keys)
            && (!s.pc.Filed? ==> s.grading.index.Keys !! s.graded.index.Keys)
  {
    hide Inv, Exec;
    InitialInv(n);
    RunInv(Initial(n), ls);
    var s := Exec(Initial(n), ls, true);
    forall id
      ensures id in s.waiting.index || id in s.grading.index || id in s.graded.index <==> id in Ids(s.accepted)
    {
      IdIsOnce(s, id);
    }
    forall id ensures id in s.waiting.index ==> id !in s.graded.index { IdIsOnce(s, id); }
    forall id ensures id in s.waiting.index && id in s.grading.index ==> s.pc.Listed? { IdIsOnce(s, id); }
    forall id ensures id in s.grading.index && id in s.graded.index ==> s.pc.Filed? { IdIsOnce(s, id); }
  }

  /** id is in no index, in one, or in two at a hand-over. */
  ghost predicate IdOnce(s: State, id: string) {
    && (id in s.waiting.index || id in s.grading.index || id in s.graded.index <==> id in Ids(s.accepted))
    && (id in s.waiting.index ==> id !in s.graded.index)
    && (id in s.waiting.index && id in s.grading.index ==> s.pc.Listed?)
    && (id in s.grading.index && id in s.graded.index ==> s.pc.Filed?)
  }

  lemma IdIsOnce(s: State, id: string)
    requires Inv(s)
    ensures IdOnce(s, id)
  {
    assert IdOk(s, id);
    KnownIffAccepted(s, id);
  }

  lemma KnownIffAccepted(s: State, id: string)
    requires Inv(s)
    ensures id in Ids(s.accepted) <==> PlaceOf(s, id) != Nowhere
  {
    assert IdOk(s, id);
    assert forall x :: x in s.accepted <==> x in s.dispatched || x in s.waiting.order;
    assert id in s.tickets ==> s.tickets[id].sub in s.accepted;
  }

  /** The pool objects' entries are the accepted submissions themselves. */
  lemma EntriesAreAccepted(n: nat, ls: seq<Label>, id: string)
    ensures var s := Exec(Initial(n), ls, true);
            && (id in s.waiting.index ==> s.waiting.index[id] in s.accepted && s.waiting.index[id].id == id)
            && (id in s.grading.index ==> s.grading.index[id] in s.accepted && s.grading.index[id].id == id)
            && (id in s.graded.index ==> s.graded.index[id] in s.accepted && s.graded.index[id].id == id)
  {
    InitialInv(n);
    RunInv(Initial(n), ls);
    var s := Exec(Initial(n), ls, true);
    assert IdOk(s, id);
    assert forall x :: x in s.accepted <==> x in s.dispatched || x in s.waiting.order;
  }

  // ---------- Worker slots ----------

  ghost predicate HeldBy(s: State, i: nat, id: string) {
    Holds(s, i) && s.workers[i].submission.Some? && s.workers[i].submission.value.id == id
  }

  /** The grading index is exactly what the workers hold in NEW, BUSY or DONE or were killed with,
      plus the submission on its way to a worker, plus those whose worker was killed before it
      could take them; no two workers hold the same submission. */
  lemma GradingIsWorkerSlots(n: nat, ls: seq<Label>)
    ensures var s := Exec(Initial(n), ls, true);
            && (forall id :: id in s.grading.index <==>
                  (exists i: nat :: HeldBy(s, i, id)) || (Carries(s.pc, id) && !s.pc.Popped?) || id in s.lost)
            && (forall i: nat, j: nat, id :: HeldBy(s, i, id) && HeldBy(s, j, id) ==> i == j)
            && (forall i: nat :: i < |s.workers| && s.workers[i].status == Terminated ==>
                  s.workers[i].diedAs in {Idle, New, Done})
  {
    InitialInv(n);
    RunInv(Initial(n), ls);
    var s := Exec(Initial(n), ls, true);
    forall i: nat, id | HeldBy(s, i, id) ensures id in s.tickets && PlaceOf(s, id) == AtWorker(i) {
      HeldPlace(s, i, id);
    }
    forall i: nat | i < |s.workers| ensures s.workers[i].diedAs in {Idle, New, Done} { assert WorkerOk(s, i); }
    forall id ensures id in s.grading.index <==> (exists i: nat :: HeldBy(s, i, id)) ||
                                                  (Carries(s.pc, id) && !s.pc.Popped?) || id in s.lost
    {
      SlotOf(s, id);
    }
  }

  lemma HeldPlace(s: State, i: nat, id: string)
    requires Inv(s) && HeldBy(s, i, id)
    ensures id in s.tickets && PlaceOf(s, id) == AtWorker(i) && id !in s.lost && !Carries(s.pc, id)
  {
    assert WorkerOk(s, i);
  }

  lemma SlotOf(s: State, id: string)
    requires Inv(s)
    ensures id in s.grading.index <==>
            (exists i: nat :: HeldBy(s, i, id)) || (Carries(s.pc, id) && !s.pc.Popped?) || id in s.lost
    ensures Carries(s.pc, id) ==> id !in s.lost
  {
    assert IdOk(s, id);
    if PlaceOf(s, id).AtWorker? { assert HeldBy(s, PlaceOf(s, id).i, id); }
    forall i: nat | HeldBy(s, i, id) ensures PlaceOf(s, id) == AtWorker(i) { HeldPlace(s, i, id); }
  }

  /** Each submission is passed to grade_submission at most once; only accepted ones are, and
      every graded one was. */
  lemma GradedOnce(n: nat, ls: seq<Label>)
    ensures var s := Exec(Initial(n), ls, true);
            && NoDup(s.runs)
            && (forall id :: id in s.runs ==> id in Ids(s.accepted))
            && (forall id :: id in s.graded.index ==> id in s.runs)
  {
    InitialInv(n);
    RunInv(Initial(n), ls);
    var s := Exec(Initial(n), ls, true);
    forall id ensures id in s.runs ==> id in Ids(s.accepted) ensures id in s.graded.index ==> id in s.runs {
      assert IdOk(s, id);
      KnownIffAccepted(s, id);
    }
  }

  /** Submissions are dispatched in the order in which they were accepted, the optional taken
      from get_first is never empty, and a positive size means there is one to take. */
  lemma DispatchIsFifo(n: nat, ls: seq<Label>)
    ensures var s := Exec(Initial(n), ls, true);
            && s.dispatched + s.waiting.order == s.accepted
            && !s.pc.Crashed?
            && (s.waiting.order != [] ==>
                  PopUntil(s.waiting.order, s.waiting.index, true).found == Some(s.waiting.order[0]))
  {
    InitialInv(n);
    RunInv(Initial(n), ls);
    var s := Exec(Initial(n), ls, true);
    if s.waiting.order != [] { assert s.waiting.order[0] in s.waiting.order; }
  }

  // ---------- Reported status ----------

  datatype Reported = NotExists | Waiting | Grading | Graded

  /** get_submission_status: the later pool is asked first. */
  function ReportedStatus(s: State, id: string): Reported {
    if id in s.graded.index then Graded
    else if id in s.grading.index then Grading
    else if id in s.waiting.index then Waiting
    else NotExists
  }

  /** In every run: GRADED exactly for what has been filed in the graded pool, GRADING for what is
      in the grading pool and not filed, WAITING for what was accepted and is in neither. */
  lemma StatusMeans(n: nat, ls: seq<Label>, id: string)
    ensures var s := Exec(Initial(n), ls, true);
            && (ReportedStatus(s, id) == Graded <==> id in s.graded.index)
            && (ReportedStatus(s, id) == Grading <==> id in s.grading.index && id !in s.graded.index)
            && (ReportedStatus(s, id) == Waiting <==>
                  id in Ids(s.accepted) && id !in s.grading.index && id !in s.graded.index)
            && (ReportedStatus(s, id) == NotExists <==> id !in Ids(s.accepted))
  {
    InitialInv(n);
    RunInv(Initial(n), ls);
    StatusMeansInv(Exec(Initial(n), ls, true), id);
  }

  lemma StatusMeansInv(s: State, id: string)
    requires Inv(s)
    ensures ReportedStatus(s, id) == Graded <==> id in s.graded.index
    ensures ReportedStatus(s, id) == Grading <==> id in s.grading.index && id !in s.graded.index
    ensures ReportedStatus(s, id) == Waiting <==>
              id in Ids(s.accepted) && id !in s.grading.index && id !in s.graded.index
    ensures ReportedStatus(s, id) == NotExists <==> id !in Ids(s.accepted)
  {
    IdIsOnce(s, id);
    hide Inv;
  }

  function Stage(r: Reported): nat {
    match r
    case NotExists => 0
    case Waiting => 1
    case Grading => 2
    case Graded => 3
  }

  lemma StatusStep(s: State, l: Label, id: string)
    requires Inv(s)
    ensures Stage(ReportedStatus(s, id)) <= Stage(ReportedStatus(Apply(s, l, true), id))
  {
    if l.Sched? && !s.pc.Crashed? { StatusSched(s, id); }
  }

  lemma StatusSched(s: State, id: string)
    requires Inv(s)
    ensures Stage(ReportedStatus(s, id)) <= Stage(ReportedStatus(SchedStep(s, true), id))
  {
    assert IdOk(s, id);
    hide PopUntil;
    match s.pc
    case Due(i) => assert WorkerOk(s, i);
    case Filed(i) => assert WorkerOk(s, i);
    case Chosen(i) => DispatchTakesOldest(s, i);
    case _ =>
  }

  lemma {:induction false} StatusGrows(s: State, ls: seq<Label>, id: string)
    requires Inv(s)
    ensures Stage(ReportedStatus(s, id)) <= Stage(ReportedStatus(Exec(s, ls, true), id))
  {
    if ls != [] {
      var init := ls[..|ls| - 1];
      StatusGrows(s, init, id);
      RunInv(s, init);
      StatusStep(Exec(s, init, true), ls[|ls| - 1], id);
    }
  }

  /** Along every run the reported status never goes back, also between the statements of the
      scheduler, and it is NOT_EXISTS exactly for ids that were never accepted. */
  lemma StatusMonotone(n: nat, ls: seq<Label>, more: seq<Label>, id: string)
    ensures var s, t := Exec(Initial(n), ls, true), Exec(Initial(n), ls + more, true);
            && Stage(ReportedStatus(s, id)) <= Stage(ReportedStatus(t, id))
            && (ReportedStatus(s, id) == NotExists <==> id !in Ids(s.accepted))
  {
    InitialInv(n);
    RunInv(Initial(n), ls);
    ExecConcat(Initial(n), ls, more, true);
    StatusGrows(Exec(Initial(n), ls, true), more, id);
    var s := Exec(Initial(n), ls, true);
    assert IdOk(s, id);
    KnownIffAccepted(s, id);
  }

  // ---------- A status query is three reads ----------

  /** The query when the three reads fall into three successive states. */
  function SplitStatus(a: State, b: State, c: State, id: string): Reported {
    if id in a.graded.index then Graded
    else if id in b.grading.index then Grading
    else if id in c.waiting.index then Waiting
    else NotExists
  }

  lemma AcceptedStays(s: State, ls: seq<Label>, id: string)
    requires Inv(s) && id in Ids(s.accepted)
    ensures id in Ids(Exec(s, ls, true).accepted)
  {
    RunInv(s, ls);
    StatusGrows(s, ls, id);
    IdIsOnce(s, id);
    IdIsOnce(Exec(s, ls, true), id);
  }

  /** If steps fall between the reads, an accepted id is reported NOT_EXISTS exactly when it was
      filed and taken off the grading pool between the first two reads, or was still waiting at
      the second and had left the waiting pool by the third. */
  lemma SplitQueryMissesIff(s: State, ls: seq<Label>, more: seq<Label>, id: string)
    requires Inv(s) && id in Ids(s.accepted)
    ensures var b := Exec(s, ls, true);
            var c := Exec(b, more, true);
            SplitStatus(s, b, c, id) == NotExists <==>
              (id !in s.graded.index && id in b.graded.index && id !in b.grading.index) ||
              (ReportedStatus(b, id) == Waiting && id !in c.waiting.index)
  {
    hide Exec, Inv, Ids;
    var b := Exec(s, ls, true);
    RunInv(s, ls);
    RunInv(b, more);
    StatusGrows(s, ls, id);
    StatusGrows(b, more, id);
    AcceptedStays(s, ls, id);
    IdIsOnce(s, id);
    IdIsOnce(b, id);
    IdIsOnce(Exec(b, more, true), id);
  }

  const FIVE_SCHEDS := [Sched, Sched, Sched, Sched, Sched]

  /** Five steps of the scheduler take the only submission from the waiting pool. */
  lemma FiveSteps(x: Submission) returns (s: State, t: State)
    ensures s == Exec(Initial(1), [Accept(x)], true) && t == Exec(s, FIVE_SCHEDS, true)
    ensures x.id in Ids(s.accepted) && s.graded.index == map[] && s.grading.index == map[]
    ensures t.pc == Claimed(0, x) && t.waiting.index == map[] && t.grading.index == map[x.id := x]
    ensures t.workers == Initial(1).workers
  {
    s := Apply(Initial(1), Accept(x), true);
    assert x in s.accepted;
    ExecSnoc(Initial(1), [], Accept(x), true);
    assert [] + [Accept(x)] == [Accept(x)];
    FiveApplies(s);
    t := Exec(s, FIVE_SCHEDS, true);
    FiveStates(x, s);
  }

  function Twice(s: State): State {
    Apply(Apply(s, Sched, true), Sched, true)
  }

  lemma FiveApplies(s: State)
    ensures Exec(s, FIVE_SCHEDS, true) ==
            Twice(Twice(Apply(s, Sched, true)))
  {
    hide Exec, Apply;
    ExecSnoc(s, [], Sched, true);
    ExecSnoc(s, [] + [Sched], Sched, true);
    ExecSnoc(s, [] + [Sched] + [Sched], Sched, true);
    ExecSnoc(s, [] + [Sched] + [Sched] + [Sched], Sched, true);
    ExecSnoc(s, [] + [Sched] + [Sched] + [Sched] + [Sched], Sched, true);
    assert FIVE_SCHEDS == [] + [Sched] + [Sched] + [Sched] + [Sched] + [Sched];
  }

  lemma FiveStates(x: Submission, s: State)
    requires s == Initial(1).(waiting := Pool([x], map[x.id := x]), accepted := [x])
    ensures var t := Twice(Twice(Apply(s, Sched, true)));
            && t.pc == Claimed(0, x) && t.waiting.index == map[] && t.grading.index == map[x.id := x]
            && t.workers == s.workers
  {
    var a := s.(pc := Second(0));
    var chosen := a.(pc := Chosen(0));
    var b := a.(waiting := Pool([], map[x.id := x]), pc := Popped(0, x), dispatched := [x],
                tickets := map[x.id := Ticket(x, 0)]);
    var c := b.(grading := Pool([x], map[x.id := x]), pc := Listed(0, x));
    assert Apply(s, Sched, true) == a;
    assert Apply(a, Sched, true) == chosen;
    assert Apply(chosen, Sched, true) == b;
    assert Apply(b, Sched, true) == c;
  }

  /** That does happen: the order of the reads follows the adds instead of opposing them. */
  lemma SplitQueryCanMiss(x: Submission)
    ensures var s := Exec(Initial(1), [Accept(x)], true);
            x.id in Ids(s.accepted) && SplitStatus(s, s, Exec(s, FIVE_SCHEDS, true), x.id) == NotExists
  {
    var s, t := FiveSteps(x);
  }

  /** Asking the waiting pool first and the graded pool last never misses an accepted id. */
  lemma ForwardReadsNeverMiss(s: State, ls: seq<Label>, more: seq<Label>, id: string)
    requires Inv(s) && id in Ids(s.accepted)
    ensures var b := Exec(s, ls, true);
            id in s.waiting.index || id in b.grading.index || id in Exec(b, more, true).graded.index
  {
    var b := Exec(s, ls, true);
    RunInv(s, ls);
    StatusGrows(s, ls, id);
    StatusGrows(b, more, id);
    assert IdOk(s, id);
    KnownIffAccepted(s, id);
  }

  // ---------- The loop of get_first as it is written ----------

  /** Nothing was ever dispatched. */
  ghost predicate NeverStarted(s: State) {
    && s.dispatched == [] && s.runs == [] && s.grading == EMPTY_POOL && s.graded == EMPTY_POOL
    && (s.pc.Top? || s.pc.Second? || s.pc.Chosen? || s.pc.Crashed?)
    && (forall w :: w in s.workers ==> w.status == Idle || w.status == Terminated)
    && (forall x :: x in s.waiting.order ==> x.id in s.waiting.index)
  }

  lemma NeverStartedStep(s: State, l: Label)
    requires NeverStarted(s)
    ensures NeverStarted(Apply(s, l, false))
    ensures s.pc.Second? && CanDispatch(s, s.pc.i) ==> Apply(s, Sched, false).pc.Chosen?
    ensures s.pc.Chosen? ==> Apply(s, Sched, false).pc.Crashed?
  {
    AsWrittenNeverYieldsLive(s.waiting.order, s.waiting.index);
    hide PopUntil;
    assert forall i: nat | i < |s.workers| :: s.workers[i] in s.workers;
  }

  /** With the loop test as written no submission is ever dispatched or graded, in any run: the
      scheduler unwraps an empty optional the first time it finds one waiting and a worker idle. */
  lemma {:induction false} AsWrittenNothingIsGraded(n: nat, ls: seq<Label>)
    ensures NeverStarted(Exec(Initial(n), ls, false))
    ensures var s := Exec(Initial(n), ls, false);
            && (s.pc.Second? && CanDispatch(s, s.pc.i) ==> Apply(s, Sched, false).pc.Chosen?)
            && (s.pc.Chosen? ==> Apply(s, Sched, false).pc.Crashed?)
  {
    if ls != [] {
      AsWrittenNothingIsGraded(n, ls[..|ls| - 1]);
      NeverStartedStep(Exec(Initial(n), ls[..|ls| - 1], false), ls[|ls| - 1]);
    }
    NeverStartedStep(Exec(Initial(n), ls, false), Sched);
  }
}
