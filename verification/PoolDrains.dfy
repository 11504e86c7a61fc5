/** The pool of graders drains: useful steps are bounded by a measure, and every fair schedule
    without further submissions or kills ends with everything graded that no kill has taken out
    of circulation, as long as one worker is alive. */
module PoolDrains {
  import opened Sequences
  import opened SubmissionPools
  import opened PoolProtocol
  import opened PoolRuns
  import opened PoolKills

  // ---------- The measure ----------

  function WorkerWeight(w: Worker): nat {
    match w.status
    case New => 6
    case Busy => 5
    case Done => 4
    case _ => 0
  }

  function WorkersWeight(ws: seq<Worker>): nat {
    if ws == [] then 0 else WorkerWeight(ws[0]) + WorkersWeight(ws[1..])
  }

  /** A submission weighs less at every station on its way from waiting (11) to graded (0). */
  function PcWeight(s: State): int {
    match s.pc
    case Chosen(_) => -1
    case Popped(_, _) => 9
    case Listed(_, _) => 8
    case Claimed(_, _) => 7
    case Due(i) => if i < |s.workers| && s.workers[i].status == Done then -1 else 3
    case Filed(i) => if i < |s.workers| && s.workers[i].status == Done then -2 else 2
    case Unlisted(i) => if i < |s.workers| && s.workers[i].status == Done then -3 else 1
    case _ => 0
  }

  function Total(s: State): int {
    11 * |s.waiting.order| + PcWeight(s) + WorkersWeight(s.workers)
  }

  lemma {:induction false} WeightUpdate(ws: seq<Worker>, i: nat, w: Worker)
    requires i < |ws|
    ensures WorkersWeight(ws[i := w]) == WorkersWeight(ws) - WorkerWeight(ws[i]) + WorkerWeight(w)
    ensures WorkerWeight(ws[i]) <= WorkersWeight(ws)
  {
    if i > 0 {
      assert ws[i := w][1..] == ws[1..][i - 1 := w];
      WeightUpdate(ws[1..], i - 1, w);
    } else {
      assert ws[i := w][1..] == ws[1..];
    }
  }

  lemma TotalNonNegative(s: State)
    requires Inv(s)
    ensures Total(s) >= 0
  {
    if s.pc.Due? || s.pc.Filed? || s.pc.Unlisted? {
      WeightUpdate(s.workers, s.pc.i, s.workers[s.pc.i]);
    }
  }

  // ---------- Useful steps ----------

  /** The scheduler only looks: no branch is taken. */
  predicate Polls(s: State) {
    (s.pc.Top? && !(s.pc.i < |s.workers| && s.workers[s.pc.i].status == Done)) ||
    (s.pc.Second? && !CanDispatch(s, s.pc.i))
  }

  predicate Internal(l: Label) { l.Sched? || l.Begin? || l.Finish? }

  predicate Useful(s: State, l: Label) {
    Internal(l) && Enabled(s, l) && !(l.Sched? && Polls(s))
  }

  /** Every useful step strictly lowers the total. */
  lemma UsefulLowers(s: State, l: Label)
    requires Inv(s) && Useful(s, l)
    ensures Total(Apply(s, l, true)) < Total(s)
  {
    hide WorkersWeight, SchedStep;
    match l
    case Begin(i) => WeightUpdate(s.workers, i, s.workers[i].(status := Busy));
    case Finish(i) => WeightUpdate(s.workers, i, s.workers[i].(status := Done));
    case Sched => SchedLowers(s);
  }

  lemma SchedLowers(s: State)
    requires Inv(s) && !Polls(s)
    ensures Total(SchedStep(s, true)) < Total(s)
  {
    hide WorkersWeight, IdOk, PopUntil;
    match s.pc
    case Due(i) => assert WorkerOk(s, i);
    case Filed(i) => assert WorkerOk(s, i);
    case Unlisted(i) => WeightUpdate(s.workers, i, Released(s.workers[i]));
    case Chosen(i) => DispatchTakesOldest(s, i);
    case Claimed(i, sub) =>
      WeightUpdate(s.workers, i, s.workers[i].(status := New, submission := Some(sub)));
    case _ =>
  }

  /** The next thing the scheduler looks at. */
  function NextPc(s: State): Pc {
    match s.pc
    case Top(i) => if i >= |s.workers| then Top(0) else Second(i)
    case Second(i) => Top(i + 1)
    case _ => s.pc
  }

  /** A useless internal step changes nothing but where the scheduler looks next. */
  lemma UselessKeeps(s: State, l: Label)
    requires Inv(s) && Internal(l) && !Useful(s, l)
    ensures Apply(s, l, true) == if l.Sched? then s.(pc := NextPc(s)) else s
    ensures l.Sched? ==> Polls(s)
    ensures Total(Apply(s, l, true)) == Total(s)
  {
  }

  ghost predicate AllInternal(ls: seq<Label>) {
    forall l :: l in ls ==> Internal(l)
  }

  function UsefulCount(s: State, ls: seq<Label>): nat
    decreases ls
  {
    if ls == [] then 0
    else (if Useful(s, ls[0]) then 1 else 0) + UsefulCount(Apply(s, ls[0], true), ls[1..])
  }

  lemma ExecCons(s: State, ls: seq<Label>, live: bool)
    requires ls != []
    ensures Exec(s, ls, live) == Exec(Apply(s, ls[0], live), ls[1..], live)
  {
    assert [ls[0]] + ls[1..] == ls;
    ExecConcat(s, [ls[0]], ls[1..], live);
    assert Exec(s, [ls[0]], live) == Apply(s, ls[0], live) by { assert [ls[0]][..0] == []; }
  }

  /** However the threads interleave, there are at most Total useful steps until a new
      submission or a kill. */
  lemma {:induction false} UsefulStepsAreBounded(s: State, ls: seq<Label>)
    requires Inv(s) && AllInternal(ls)
    ensures UsefulCount(s, ls) + Total(Exec(s, ls, true)) <= Total(s)
    decreases |ls|
  {
    if ls != [] {
      var l, t := ls[0], Apply(s, ls[0], true);
      assert l in ls && forall x :: x in ls[1..] ==> x in ls;
      ExecCons(s, ls, true);
      StepInv(s, l);
      if Useful(s, l) { UsefulLowers(s, l); } else { UselessKeeps(s, l); }
      UsefulStepsAreBounded(t, ls[1..]);
    }
  }

  // ---------- Fairness ----------

  function SchedCount(ls: seq<Label>): nat {
    if ls == [] then 0 else (if ls[0].Sched? then 1 else 0) + SchedCount(ls[1..])
  }

  /** Every worker gets its turn, and the scheduler enough of them to look at every worker twice. */
  ghost predicate FairRound(n: nat, ls: seq<Label>) {
    && AllInternal(ls)
    && (forall i: nat | i < n :: Begin(i) in ls && Finish(i) in ls)
    && SchedCount(ls) > 2 * n + 1
  }

  /** A worker step that is enabled and scheduled makes progress. */
  lemma {:induction false} WorkerProgress(s: State, ls: seq<Label>, l: Label)
    requires Inv(s) && AllInternal(ls) && l in ls && !l.Sched? && Enabled(s, l)
    ensures Total(Exec(s, ls, true)) < Total(s)
    decreases |ls|
  {
    var t := Apply(s, ls[0], true);
    assert ls[0] in ls && forall x :: x in ls[1..] ==> x in ls;
    ExecCons(s, ls, true);
    StepInv(s, ls[0]);
    UsefulStepsAreBounded(t, ls[1..]);
    if Useful(s, ls[0]) {
      UsefulLowers(s, ls[0]);
    } else {
      UselessKeeps(s, ls[0]);
      assert ls[0] != l;
      assert l in ls[1..];
      PcOkMeansRunning(t);
      WorkerProgress(t, ls[1..], l);
    }
  }

  lemma PcOkMeansRunning(s: State)
    requires Inv(s)
    ensures !s.pc.Crashed?
  {}

  /** Positions of the scheduler's round: Top(0), Second(0), Top(1), ..., Top(n). */
  function Position(pc: Pc): nat
    requires pc.Top? || pc.Second?
  {
    if pc.Top? then 2 * pc.i else 2 * pc.i + 1
  }

  /** The scheduler takes a branch when it gets to position q. */
  predicate WorkAt(s: State, q: nat) {
    if q % 2 == 0 then q / 2 < |s.workers| && s.workers[q / 2].status == Done else CanDispatch(s, q / 2)
  }

  function Distance(n: nat, p: nat, q: nat): int {
    if p <= q then q - p else q + 2 * n + 1 - p
  }

  lemma LookingGetsCloser(s: State, q: nat)
    requires Inv(s) && Polls(s) && WorkAt(s, q)
    ensures var next := NextPc(s);
            (next.Top? || next.Second?) &&
            Distance(|s.workers|, Position(next), q) == Distance(|s.workers|, Position(s.pc), q) - 1
    ensures forall pc :: WorkAt(s.(pc := pc), q)
  {
    assert Position(s.pc) != q;
  }

  /** If there is work for the scheduler, one round of looking finds it. */
  lemma {:induction false} SchedulerProgress(s: State, ls: seq<Label>, q: nat)
    requires Inv(s) && AllInternal(ls) && WorkAt(s, q)
    requires SchedCount(ls) > if s.pc.Top? || s.pc.Second? then Distance(|s.workers|, Position(s.pc), q) else 0
    ensures Total(Exec(s, ls, true)) < Total(s)
    decreases |ls|
  {
    var l, t := ls[0], Apply(s, ls[0], true);
    assert l in ls && forall x :: x in ls[1..] ==> x in ls;
    ExecCons(s, ls, true);
    StepInv(s, l);
    UsefulStepsAreBounded(t, ls[1..]);
    if Useful(s, l) {
      UsefulLowers(s, l);
    } else {
      UselessKeeps(s, l);
      if l.Sched? { LookingGetsCloser(s, q); }
      SchedulerProgress(t, ls[1..], q);
    }
  }

  /** Nothing more will happen to it (PoolKills.TakenForever): it is graded, or it was killed with
      its worker, or stranded by a kill during its hand-over. */
  ghost predicate Settled(s: State, id: string) {
    id in s.graded.index || Abandoned(s, id) || id in s.lost
  }

  ghost predicate AllSettled(s: State) {
    forall x :: x in s.accepted ==> Settled(s, x.id)
  }

  ghost predicate AllGraded(s: State) {
    forall x :: x in s.accepted ==> x.id in s.graded.index
  }

  ghost predicate HasSurvivor(s: State) {
    exists i: nat :: i < |s.workers| && !DeadAt(s, i)
  }

  ghost predicate NoneKilled(s: State) {
    forall w :: w in s.workers ==> w.status != Terminated
  }

  /** Deadlock freedom: while something is not settled and a worker is alive, a worker has a step
      to take, or the scheduler has one, now or at position q of its round. */
  lemma SomethingToDo(s: State) returns (l: Label, q: nat)
    requires Inv(s) && HasSurvivor(s) && !AllSettled(s)
    ensures (!l.Sched? && Internal(l) && Enabled(s, l) && l.i < |s.workers|) ||
            (l == Sched && (WorkAt(s, q) || Useful(s, Sched)) && q <= 2 * |s.workers|)
  {
    q := 0;
    if !s.pc.Top? && !s.pc.Second? { return Sched, 0; }
    if i: nat :| i < |s.workers| && s.workers[i].status != Idle && !DeadAt(s, i) {
      match s.workers[i].status
      case New => return Begin(i), 0;
      case Busy => return Finish(i), 0;
      case Done => assert WorkAt(s, 2 * i); return Sched, 2 * i;
    }
    UnsettledWaits(s);
    var j: nat :| j < |s.workers| && !DeadAt(s, j);
    assert WorkAt(s, 2 * j + 1);
    return Sched, 2 * j + 1;
  }

  /** With every worker idle or dead and the scheduler empty-handed, what is not settled waits. */
  lemma UnsettledWaits(s: State)
    requires Inv(s) && !AllSettled(s) && (s.pc.Top? || s.pc.Second?)
    requires forall i: nat | i < |s.workers| :: s.workers[i].status == Idle || DeadAt(s, i)
    ensures s.waiting.order != []
  {
    var x :| x in s.accepted && !Settled(s, x.id);
    KnownIffAccepted(s, x.id);
    assert IdOk(s, x.id);
    if PlaceOf(s, x.id).AtWorker? {
      var i := PlaceOf(s, x.id).i;
      assert HeldBy(s, i, x.id) && (DeadAt(s, i) ==> AbandonedBy(s, i, x.id));
    }
  }

  /** A fair round makes progress. */
  lemma FairRoundLowers(s: State, ls: seq<Label>)
    requires Inv(s) && HasSurvivor(s) && !AllSettled(s)
    requires FairRound(|s.workers|, ls)
    ensures Total(Exec(s, ls, true)) < Total(s)
  {
    var l, q := SomethingToDo(s);
    if l != Sched {
      WorkerProgress(s, ls, l);
    } else if WorkAt(s, q) {
      SchedulerProgress(s, ls, q);
    } else {
      UsefulSchedProgress(s, ls);
    }
  }

  lemma {:induction false} UsefulSchedProgress(s: State, ls: seq<Label>)
    requires Inv(s) && AllInternal(ls) && Useful(s, Sched) && SchedCount(ls) > 0
    ensures Total(Exec(s, ls, true)) < Total(s)
    decreases |ls|
  {
    var t := Apply(s, ls[0], true);
    assert ls[0] in ls && forall x :: x in ls[1..] ==> x in ls;
    ExecCons(s, ls, true);
    StepInv(s, ls[0]);
    UsefulStepsAreBounded(t, ls[1..]);
    if Useful(s, ls[0]) {
      UsefulLowers(s, ls[0]);
    } else {
      UselessKeeps(s, ls[0]);
      UsefulSchedProgress(s, ls[1..]);
    }
  }

  /** What no internal step takes away. */
  ghost predicate Kept(s: State, t: State) {
    && |t.workers| == |s.workers| && t.accepted == s.accepted
    && (NoneKilled(s) ==> NoneKilled(t)) && (HasSurvivor(s) ==> HasSurvivor(t))
    && (AllSettled(s) ==> AllSettled(t))
  }

  lemma {:induction false} InternalKeeps(s: State, ls: seq<Label>)
    requires Inv(s) && AllInternal(ls)
    ensures Kept(s, Exec(s, ls, true))
  {
    if ls != [] {
      var init, l := ls[..|ls| - 1], ls[|ls| - 1];
      assert l in ls && forall x :: x in init ==> x in ls;
      InternalKeeps(s, init);
      RunInv(s, init);
      InternalStepKeeps(Exec(s, init, true), l);
    }
  }

  lemma InternalStepKeeps(s: State, l: Label)
    requires Inv(s) && Internal(l)
    ensures Kept(s, Apply(s, l, true))
  {
    InternalStepKeepsWorkers(s, l);
    hide Inv, Apply, Settled;
    forall x | x in s.accepted && AllSettled(s) ensures Settled(Apply(s, l, true), x.id) {
      SettledStays(s, l, x.id);
    }
  }

  lemma SettledStays(s: State, l: Label, id: string)
    requires Inv(s) && Internal(l) && Settled(s, id)
    ensures Settled(Apply(s, l, true), id)
  {
    AbandonedStep(s, l, id);
    IndexesGrow(s, l, id);
  }

  lemma IndexesGrow(s: State, l: Label, id: string)
    ensures id in s.graded.index ==> id in Apply(s, l, true).graded.index
    ensures id in s.lost ==> id in Apply(s, l, true).lost
  {
    hide PopUntil;
  }

  lemma InternalStepKeepsWorkers(s: State, l: Label)
    requires Internal(l)
    ensures var t := Apply(s, l, true);
            && |t.workers| == |s.workers| && t.accepted == s.accepted
            && (NoneKilled(s) ==> NoneKilled(t)) && (HasSurvivor(s) ==> HasSurvivor(t))
  {
    hide PopUntil;
    StepKeepsSize(s, l);
    var t := Apply(s, l, true);
    forall i: nat | i < |t.workers| ensures DeadAt(t, i) ==> DeadAt(s, i) {}
    forall i | 0 <= i < |t.workers| && NoneKilled(s) ensures t.workers[i].status != Terminated {
      assert s.workers[i] in s.workers;
    }
  }

  lemma UnsettledHasWeight(s: State)
    requires Inv(s) && HasSurvivor(s) && !AllSettled(s)
    ensures Total(s) > 0
  {
    var l, q := SomethingToDo(s);
    if Useful(s, l) {
      UsefulLowers(s, l);
      StepInv(s, l);
      TotalNonNegative(Apply(s, l, true));
    } else if q % 2 == 0 {
      WeightUpdate(s.workers, q / 2, s.workers[q / 2]);
    }
  }

  /** Where nobody was killed, settled means graded. */
  lemma SettledIsGraded(s: State)
    requires Inv(s) && NoneKilled(s) && AllSettled(s)
    ensures AllGraded(s)
  {
    forall i: nat ensures !DeadAt(s, i) {
      assert i < |s.workers| ==> s.workers[i] in s.workers;
    }
    forall x | x in s.accepted ensures x.id in s.graded.index {
      assert IdOk(s, x.id);
      SlotOf(s, x.id);
    }
  }

  function Flatten(rounds: seq<seq<Label>>): seq<Label> {
    if rounds == [] then [] else rounds[0] + Flatten(rounds[1..])
  }

  /** Main result: from any reachable state with a worker alive, as many fair rounds as the total
      settle every accepted submission, whatever the interleaving: it is graded, or was
      killed with its worker, or its worker was killed during the hand-over. */
  lemma {:induction false} FairRunsSettle(s: State, rounds: seq<seq<Label>>)
    requires Inv(s) && HasSurvivor(s)
    requires forall r :: r in rounds ==> FairRound(|s.workers|, r)
    requires |rounds| >= Total(s)
    ensures AllSettled(Exec(s, Flatten(rounds), true)) && Kept(s, Exec(s, Flatten(rounds), true))
    decreases |rounds|
  {
    TotalNonNegative(s);
    if rounds == [] {
      if !AllSettled(s) { UnsettledHasWeight(s); }
    } else {
      var t := Exec(s, rounds[0], true);
      assert rounds[0] in rounds && forall r :: r in rounds[1..] ==> r in rounds;
      ExecConcat(s, rounds[0], Flatten(rounds[1..]), true);
      RunInv(s, rounds[0]);
      InternalKeeps(s, rounds[0]);
      if AllSettled(s) {
        AllInternalFlatten(rounds[1..], |s.workers|);
        InternalKeeps(t, Flatten(rounds[1..]));
      } else {
        FairRoundLowers(s, rounds[0]);
        FairRunsSettle(t, rounds[1..]);
      }
    }
  }

  /** Without kills everything accepted is graded. */
  lemma FairRunsDrain(s: State, rounds: seq<seq<Label>>)
    requires Inv(s) && NoneKilled(s) && s.workers != []
    requires forall r :: r in rounds ==> FairRound(|s.workers|, r)
    requires |rounds| >= Total(s)
    ensures AllGraded(Exec(s, Flatten(rounds), true))
    ensures Exec(s, Flatten(rounds), true).accepted == s.accepted
  {
    assert s.workers[0] in s.workers && !DeadAt(s, 0);
    FairRunsSettle(s, rounds);
    RunInv(s, Flatten(rounds));
    SettledIsGraded(Exec(s, Flatten(rounds), true));
  }

  lemma {:induction false} AllInternalFlatten(rounds: seq<seq<Label>>, n: nat)
    requires forall r :: r in rounds ==> FairRound(n, r)
    ensures AllInternal(Flatten(rounds))
  {
    if rounds != [] {
      assert rounds[0] in rounds && forall r :: r in rounds[1..] ==> r in rounds;
      AllInternalFlatten(rounds[1..], n);
    }
  }

  /** The same for everything accepted in any run so far, kills included. */
  lemma EveryRunCanFinish(n: nat, ls: seq<Label>, rounds: seq<seq<Label>>)
    requires HasSurvivor(Exec(Initial(n), ls, true))
    requires forall r :: r in rounds ==> FairRound(n, r)
    requires |rounds| >= Total(Exec(Initial(n), ls, true))
    ensures var s, t := Exec(Initial(n), ls, true), Exec(Initial(n), ls + Flatten(rounds), true);
            AllSettled(t) && t.accepted == s.accepted && (NoneKilled(s) ==> AllGraded(t))
  {
    hide Inv, Apply, FairRound, Total, NoneKilled, AllGraded, HasSurvivor, AllSettled, Initial;
    InitialInv(n);
    RunInv(Initial(n), ls);
    KeepsWorkers(n, ls);
    ExecConcat(Initial(n), ls, Flatten(rounds), true);
    var s := Exec(Initial(n), ls, true);
    FairRunsSettle(s, rounds);
    if NoneKilled(s) {
      RunInv(s, Flatten(rounds));
      SettledIsGraded(Exec(s, Flatten(rounds), true));
    }
  }

  lemma {:induction false} KeepsWorkers(n: nat, ls: seq<Label>)
    ensures |Exec(Initial(n), ls, true).workers| == n
  {
    if ls != [] {
      KeepsWorkers(n, ls[..|ls| - 1]);
      hide PopUntil;
      var s := Exec(Initial(n), ls[..|ls| - 1], true);
      StepKeepsSize(s, ls[|ls| - 1]);
      hide Apply;
    }
  }

  lemma StepKeepsSize(s: State, l: Label)
    ensures |Apply(s, l, true).workers| == |s.workers|
  {
    hide PopUntil;
  }
}
