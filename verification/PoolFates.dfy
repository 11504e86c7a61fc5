/** The fate of each accepted submission while a worker is alive: it can still be graded exactly if
    no kill has taken it out of circulation. */
module PoolFates {
  import opened PoolProtocol
  import opened PoolRuns
  import opened PoolKills
  import opened PoolDrains

  // ---------- A fair round ----------

  function WorkerTurns(n: nat): seq<Label> {
    if n == 0 then [] else WorkerTurns(n - 1) + [Begin(n - 1), Finish(n - 1)]
  }

  function SchedTurns(n: nat): seq<Label> {
    if n == 0 then [] else [Sched] + SchedTurns(n - 1)
  }

  function Round(n: nat): seq<Label> {
    SchedTurns(2 * n + 2) + WorkerTurns(n)
  }

  lemma {:induction false} SchedTurnsCount(n: nat, rest: seq<Label>)
    ensures SchedCount(SchedTurns(n) + rest) >= n && AllInternal(SchedTurns(n))
  {
    if n > 0 {
      SchedTurnsCount(n - 1, rest);
      var ls := SchedTurns(n) + rest;
      assert ls[0] == Sched && ls[1..] == SchedTurns(n - 1) + rest;
    }
  }

  lemma {:induction false} WorkerTurnsReachAll(n: nat)
    ensures AllInternal(WorkerTurns(n))
    ensures forall i: nat | i < n :: Begin(i) in WorkerTurns(n) && Finish(i) in WorkerTurns(n)
  {
    if n > 0 { WorkerTurnsReachAll(n - 1); }
  }

  lemma RoundIsFair(n: nat)
    ensures FairRound(n, Round(n))
  {
    SchedTurnsCount(2 * n + 2, WorkerTurns(n));
    WorkerTurnsReachAll(n);
  }

  // ---------- Fates ----------

  /** Without a kill nothing is taken out of circulation. */
  lemma {:induction false} InternalTakesNothing(s: State, ls: seq<Label>, id: string)
    requires Inv(s) && AllInternal(ls)
    ensures Taken(Exec(s, ls, true), id) ==> Taken(s, id)
  {
    if ls != [] {
      var init, l := ls[..|ls| - 1], ls[|ls| - 1];
      assert l in ls && forall x :: x in init ==> x in ls;
      InternalTakesNothing(s, init, id);
      RunInv(s, init);
      hide Inv, Apply, Doomed, Abandoned;
      DoomedStep(Exec(s, init, true), l, id);
      AbandonedStep(Exec(s, init, true), l, id);
    }
  }

  lemma UntakenCanBeGraded(s: State, id: string) returns (ls: seq<Label>)
    requires Inv(s) && HasSurvivor(s) && id in Ids(s.accepted) && !Taken(s, id)
    ensures AllInternal(ls) && id in Exec(s, ls, true).graded.index
  {
    var n := |s.workers|;
    TotalNonNegative(s);
    var total: nat := Total(s);
    var rounds := seq(total, _ => Round(n));
    RoundIsFair(n);
    hide FairRound, Round, Total, Inv, HasSurvivor, Taken;
    FairRunsSettle(s, rounds);
    ls := Flatten(rounds);
    AllInternalFlatten(rounds, n);
    InternalTakesNothing(s, ls, id);
    SettledAndNotTaken(s, Exec(s, ls, true), id);
  }

  lemma SettledAndNotTaken(s: State, t: State, id: string)
    requires id in Ids(s.accepted) && t.accepted == s.accepted && AllSettled(t) && !Taken(t, id)
    ensures id in t.graded.index
  {
    assert Settled(t, id);
  }

  /** Some schedule, with any accepts and kills in it, leads to the submission being graded. */
  ghost predicate CanBeGraded(s: State, id: string) {
    exists ls :: id in Exec(s, ls, true).graded.index
  }

  /** Main result: from every state that meets the invariant and has a worker alive, an accepted
      submission can still become graded exactly if it is not out of circulation. */
  lemma CanBeGradedIff(s: State, id: string)
    requires Inv(s) && HasSurvivor(s) && id in Ids(s.accepted)
    ensures CanBeGraded(s, id) <==> !Taken(s, id)
  {
    if Taken(s, id) {
      forall ls ensures id !in Exec(s, ls, true).graded.index { TakenForever(s, ls, id); }
    } else {
      var ls := UntakenCanBeGraded(s, id);
    }
  }

  /** The same in terms of what happened: after any run that leaves a worker alive, an accepted
      submission is beyond grading exactly if some kill of the run took it. */
  lemma BeyondGradingIff(n: nat, ls: seq<Label>, id: string)
    requires HasSurvivor(Exec(Initial(n), ls, true)) && id in Ids(Exec(Initial(n), ls, true).accepted)
    ensures !CanBeGraded(Exec(Initial(n), ls, true), id) <==> exists k: nat :: k < |ls| && TakenAt(n, ls, k, id)
  {
    InitialInv(n);
    RunInv(Initial(n), ls);
    hide Inv, Exec, Initial, Taken, TakenAt, CanBeGraded;
    CanBeGradedIff(Exec(Initial(n), ls, true), id);
    TakenIff(n, ls, id);
  }
}
