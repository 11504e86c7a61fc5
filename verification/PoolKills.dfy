/** What a kill can do to a submission: exactly which kills take one out of circulation, in the
    scheduler's hand or with its worker, and that this is final. */
module PoolKills {
  import opened SubmissionPools
  import opened PoolProtocol
  import opened PoolRuns

  // ---------- In the scheduler's hand ----------

  /** The scheduler has found worker pc.i idle and is about to pop this submission for it, or has
      popped it and not handed it over yet. */
  ghost predicate Earmarked(s: State, id: string) {
    Carries(s.pc, id) || (s.pc.Chosen? && s.waiting.order != [] && s.waiting.order[0].id == id)
  }

  /** Listed as being graded, although no worker holds it, alive or killed, and the scheduler is
      not bringing it to one. */
  ghost predicate OutOfReach(s: State, id: string) {
    id in s.grading.index && !Carries(s.pc, id) && forall i: nat :: !HeldBy(s, i, id)
  }

  /** The step kills the very worker that the submission is earmarked for. */
  ghost predicate KilledInHand(s: State, l: Label, id: string) {
    l.Kill? && Enabled(s, l) && Earmarked(s, id) && s.pc.i == l.i
  }

  lemma OutOfReachIffLost(s: State, id: string)
    requires Inv(s)
    ensures OutOfReach(s, id) <==> id in s.lost
  {
    SlotOf(s, id);
    forall i: nat | HeldBy(s, i, id) ensures id !in s.lost { HeldPlace(s, i, id); }
  }

  /** Lost already, or on its way to a worker that is dead. */
  ghost predicate Doomed(s: State, id: string) {
    id in s.lost || (Earmarked(s, id) && DeadAt(s, s.pc.i))
  }

  lemma DoomedStep(s: State, l: Label, id: string)
    requires Inv(s)
    ensures Doomed(Apply(s, l, true), id) <==> Doomed(s, id) || KilledInHand(s, l, id)
  {
    hide SchedStep, WorkerOk, IdOk;
    if l == Sched { DoomedSched(s, id); }
  }

  lemma DoomedSched(s: State, id: string)
    requires Inv(s)
    ensures Doomed(SchedStep(s, true), id) <==> Doomed(s, id)
  {
    hide PopUntil;
    match s.pc
    case Chosen(i) => DispatchTakesOldest(s, i);
    case _ =>
  }

  // ---------- With its worker ----------

  /** Worker i was killed with the submission before the scheduler saw that it was done. */
  ghost predicate AbandonedBy(s: State, i: nat, id: string) {
    HeldBy(s, i, id) && DeadAt(s, i) && s.pc != Due(i) && s.pc != Filed(i)
  }

  ghost predicate Abandoned(s: State, id: string) {
    exists i: nat :: AbandonedBy(s, i, id)
  }

  /** The step kills the worker that holds the submission, and the scheduler has not seen it DONE. */
  ghost predicate KilledHolding(s: State, l: Label, id: string) {
    l.Kill? && Enabled(s, l) && HeldBy(s, l.i, id) && s.pc != Due(l.i) && s.pc != Filed(l.i)
  }

  lemma AbandonedByStep(s: State, l: Label, i: nat, id: string)
    requires Inv(s)
    ensures AbandonedBy(Apply(s, l, true), i, id) <==>
            AbandonedBy(s, i, id) || (l.Kill? && l.i == i && KilledHolding(s, l, id))
  {
    hide SchedStep, IdOk;
    if l == Sched { AbandonedBySched(s, i, id); } else if i < |s.workers| { assert WorkerOk(s, i); }
  }

  lemma AbandonedBySched(s: State, i: nat, id: string)
    requires Inv(s)
    ensures AbandonedBy(SchedStep(s, true), i, id) <==> AbandonedBy(s, i, id)
  {
    if i < |s.workers| { assert WorkerOk(s, i); }
    if s.pc.Unlisted? || s.pc.Claimed? {
      assert s.pc.i < |s.workers|;
      hide Inv, WorkerOk;
    } else {
      SchedKeepsWorkers(s);
      hide Inv, WorkerOk, SchedStep;
    }
  }

  lemma SchedKeepsWorkers(s: State)
    requires PcOk(s) && !s.pc.Unlisted? && !s.pc.Claimed?
    requires forall i: nat | i < |s.workers| :: WorkerOk(s, i)
    ensures var t := SchedStep(s, true);
            && t.workers == s.workers
            && (t.pc.Due? ==> s.pc == Top(t.pc.i) && s.workers[t.pc.i].status == Done)
            && (t.pc.Filed? <==> s.pc.Due?) && (t.pc.Filed? ==> t.pc.i == s.pc.i)
            && (t.pc.Unlisted? <==> s.pc.Filed?) && (t.pc.Unlisted? ==> t.pc.i == s.pc.i)
  {
    hide PopUntil;
    if s.pc.Due? || s.pc.Filed? { assert WorkerOk(s, s.pc.i); }
  }

  lemma AbandonedStep(s: State, l: Label, id: string)
    requires Inv(s)
    ensures Abandoned(Apply(s, l, true), id) <==> Abandoned(s, id) || KilledHolding(s, l, id)
  {
    hide Inv, Apply, AbandonedBy, HeldBy;
    var t := Apply(s, l, true);
    forall i: nat
      ensures AbandonedBy(t, i, id) <==> AbandonedBy(s, i, id) || (l.Kill? && l.i == i && KilledHolding(s, l, id))
    {
      AbandonedByStep(s, l, i, id);
    }
    if KilledHolding(s, l, id) { assert AbandonedBy(t, l.i, id); }
  }

  // ---------- Which kills did it ----------

  /** Some step of the run meets p. */
  ghost predicate MetAt(n: nat, ls: seq<Label>, p: (State, Label) -> bool, k: nat)
    requires k < |ls|
  {
    p(Exec(Initial(n), ls[..k], true), ls[k])
  }

  /** q comes about exactly by steps that meet p. */
  ghost predicate Causes(p: (State, Label) -> bool, q: State -> bool) {
    forall s: State, l: Label :: Inv(s) ==> (q(Apply(s, l, true)) <==> q(s) || p(s, l))
  }

  lemma MetSnoc(n: nat, ls: seq<Label>, p: (State, Label) -> bool)
    requires ls != []
    ensures var m := |ls| - 1;
            (exists k: nat :: k < |ls| && MetAt(n, ls, p, k)) <==>
            (exists k: nat :: k < m && MetAt(n, ls[..m], p, k)) || p(Exec(Initial(n), ls[..m], true), ls[m])
  {
    hide Exec, Initial;
    var m := |ls| - 1;
    assert MetAt(n, ls, p, m) <==> p(Exec(Initial(n), ls[..m], true), ls[m]);
    forall k: nat | k < m ensures MetAt(n, ls[..m], p, k) <==> MetAt(n, ls, p, k) {
      assert ls[..m][..k] == ls[..k];
    }
    hide MetAt;
  }

  /** If q starts out false and p causes it, it holds exactly when a step met p. */
  lemma {:induction false} CauseOf(n: nat, ls: seq<Label>, p: (State, Label) -> bool, q: State -> bool)
    requires !q(Initial(n))
    requires Causes(p, q)
    ensures q(Exec(Initial(n), ls, true)) <==> exists k: nat :: k < |ls| && MetAt(n, ls, p, k)
  {
    if ls != [] {
      var m := |ls| - 1;
      CauseOf(n, ls[..m], p, q);
      InitialInv(n);
      RunInv(Initial(n), ls[..m]);
      MetSnoc(n, ls, p);
      hide Inv, Apply, Initial, MetAt;
    }
  }

  /** Step number k kills the worker that the submission is earmarked for. */
  ghost predicate KilledAt(n: nat, ls: seq<Label>, k: nat, id: string)
    requires k < |ls|
  {
    KilledInHand(Exec(Initial(n), ls[..k], true), ls[k], id)
  }

  /** In every run, a submission is out of reach exactly if its hand-over is done and its worker
      was killed after it was found idle for this submission and before the hand-over. */
  lemma StrandedIff(n: nat, ls: seq<Label>, id: string)
    ensures var t := Exec(Initial(n), ls, true);
            OutOfReach(t, id) <==>
              !Earmarked(t, id) &&
              exists k: nat :: k < |ls| && KilledAt(n, ls, k, id)
  {
    InitialInv(n);
    RunInv(Initial(n), ls);
    var t := Exec(Initial(n), ls, true);
    OutOfReachIffLost(t, id);
    LostIsNotEarmarked(t, id);
    DoomedIff(n, ls, id);
  }

  lemma LostIsNotEarmarked(s: State, id: string)
    requires Inv(s)
    ensures id in s.lost ==> !Earmarked(s, id)
  {
    SlotOf(s, id);
    if Earmarked(s, id) && s.pc.Chosen? { assert s.waiting.order[0] in s.waiting.order; }
  }

  lemma DoomedIff(n: nat, ls: seq<Label>, id: string)
    ensures Doomed(Exec(Initial(n), ls, true), id) <==> exists k: nat :: k < |ls| && KilledAt(n, ls, k, id)
  {
    var p := (s, l) => KilledInHand(s, l, id);
    var q := s => Doomed(s, id);
    forall s: State, l: Label | Inv(s) ensures q(Apply(s, l, true)) <==> q(s) || p(s, l) { DoomedStep(s, l, id); }
    assert !Doomed(Initial(n), id);
    CauseOf(n, ls, p, q);
    hide Doomed, KilledInHand, Exec, Apply, Inv, Initial;
    forall k: nat | k < |ls| ensures MetAt(n, ls, p, k) <==> KilledAt(n, ls, k, id) {}
  }

  // ---------- Taken out of circulation ----------

  ghost predicate Taken(s: State, id: string) {
    Doomed(s, id) || Abandoned(s, id)
  }

  ghost predicate Takes(s: State, l: Label, id: string) {
    KilledInHand(s, l, id) || KilledHolding(s, l, id)
  }

  ghost predicate TakenAt(n: nat, ls: seq<Label>, k: nat, id: string)
    requires k < |ls|
  {
    Takes(Exec(Initial(n), ls[..k], true), ls[k], id)
  }

  /** In every run, the submissions out of circulation are exactly those for which some kill hit
      the worker that they were earmarked for, or the worker that held them unseen by the
      scheduler. A kill at any other moment costs no submission. */
  lemma TakenIff(n: nat, ls: seq<Label>, id: string)
    ensures Taken(Exec(Initial(n), ls, true), id) <==> exists k: nat :: k < |ls| && TakenAt(n, ls, k, id)
  {
    var p := (s, l) => Takes(s, l, id);
    var q := s => Taken(s, id);
    forall s: State, l: Label | Inv(s) ensures q(Apply(s, l, true)) <==> q(s) || p(s, l) {
      DoomedStep(s, l, id);
      AbandonedStep(s, l, id);
    }
    assert !Taken(Initial(n), id);
    CauseOf(n, ls, p, q);
    hide Taken, Takes, Exec, Apply, Inv, Initial;
    forall k: nat | k < |ls| ensures MetAt(n, ls, p, k) <==> TakenAt(n, ls, k, id) {}
  }

  lemma TakenIsUngraded(s: State, id: string)
    requires Inv(s) && Taken(s, id)
    ensures id !in s.graded.index && (Abandoned(s, id) || id in s.lost ==> ReportedStatus(s, id) == Grading)
  {
    assert IdOk(s, id);
    if i: nat :| AbandonedBy(s, i, id) { HeldPlace(s, i, id); }
    if Earmarked(s, id) && s.pc.Chosen? { assert s.waiting.order[0] in s.waiting.order; }
  }

  lemma TakenIsNotRun(s: State, l: Label, id: string)
    requires Inv(s) && Taken(s, id)
    ensures id in Apply(s, l, true).runs <==> id in s.runs
  {
    hide PopUntil;
    if l.Begin? && Enabled(s, l) && HeldBy(s, l.i, id) {
      HeldPlace(s, l.i, id);
      if i: nat :| AbandonedBy(s, i, id) { HeldPlace(s, i, id); }
      TakenIsUngraded(s, id);
      LostIsNotEarmarked(s, id);
    } else if l.Begin? && Enabled(s, l) {
      assert WorkerOk(s, l.i);
    }
  }

  /** Out of circulation is final, whatever is accepted or killed later: such a submission is never
      graded and never run again; once its worker or the hand-over has ended, it is reported as
      being graded for ever. */
  lemma {:induction false} TakenForever(s: State, ls: seq<Label>, id: string)
    requires Inv(s) && Taken(s, id)
    ensures var t := Exec(s, ls, true);
            && Taken(t, id) && id !in t.graded.index && (id in t.runs <==> id in s.runs)
            && (Abandoned(s, id) || id in s.lost ==> ReportedStatus(t, id) == Grading)
    ensures Abandoned(s, id) ==> Abandoned(Exec(s, ls, true), id)
    ensures id in s.lost ==> id in Exec(s, ls, true).lost
  {
    RunInv(s, ls);
    if ls == [] {
      TakenIsUngraded(s, id);
    } else {
      var init, l := ls[..|ls| - 1], ls[|ls| - 1];
      TakenForever(s, init, id);
      RunInv(s, init);
      var u := Exec(s, init, true);
      DoomedStep(u, l, id);
      AbandonedStep(u, l, id);
      TakenIsNotRun(u, l, id);
      LostStep(u, l, id);
      hide Inv, Apply, Abandoned, Doomed;
      TakenIsUngraded(Exec(s, ls, true), id);
    }
  }

  lemma LostStep(s: State, l: Label, id: string)
    ensures id in s.lost ==> id in Apply(s, l, true).lost
  {
    hide PopUntil;
  }

  /** In particular: what is out of reach is never run, and reported as being graded for ever. */
  lemma StrandedForever(s: State, ls: seq<Label>, id: string)
    requires Inv(s) && OutOfReach(s, id)
    ensures var t := Exec(s, ls, true);
            OutOfReach(t, id) && id !in t.runs && ReportedStatus(t, id) == Grading
  {
    OutOfReachIffLost(s, id);
    assert Doomed(s, id);
    TakenForever(s, ls, id);
    RunInv(s, ls);
    var t := Exec(s, ls, true);
    OutOfReachIffLost(t, id);
    assert IdOk(t, id);
    SlotOf(t, id);
  }

  /** It does happen: one worker, one submission, a kill at the last moment. */
  lemma KillCanStrand(x: Submission)
    ensures var t := Exec(Exec(Initial(1), [Accept(x)], true), FIVE_SCHEDS, true);
            KilledInHand(t, Kill(0), x.id) && OutOfReach(Apply(Apply(t, Kill(0), true), Sched, true), x.id)
  {
    var s, t := FiveSteps(x);
    InitialInv(1);
    RunInv(Initial(1), [Accept(x)]);
    RunInv(s, FIVE_SCHEDS);
    assert Carries(t.pc, x.id);
    hide Initial, Exec, PopUntil, IdOk, WorkerOk, TicketsOk, HistoryOk;
    StepInv(t, Kill(0));
    var u := Apply(t, Kill(0), true);
    assert u.pc == Claimed(0, x) && DeadAt(u, 0);
    StepInv(u, Sched);
    OutOfReachIffLost(Apply(u, Sched, true), x.id);
  }
}
