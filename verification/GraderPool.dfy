/** The pool and its workers as objects that the source updates in place
    (src/grader/grader_pool.cpp, src/grader/grader.cpp). Every method is one or several steps of
    the protocol; the invariant over all runs therefore holds of the objects too. */
module GraderPools {
  import opened Sequences
  import opened SubmissionPools
  import opened PoolProtocol
  import opened PoolRuns
  import Pass = SchedulerPass

  class Grader {
    var status: WorkerStatus
    var submission: Option<Submission>
    ghost var diedAs: WorkerStatus

    ghost function View(): Worker
      reads this
    {
      Worker(status, submission, diedAs)
    }

    /** A worker whose thread has finished initialising. */
    constructor ()
      ensures View() == Worker(Idle, None, Idle)
    {
      status, submission, diedAs := Idle, None, Idle;
    }

    predicate IsTerminated()
      reads this
    {
      status == Terminated
    }

    /** Hands over a submission, or, with None, takes a finished one back; the source dereferences
        the pointer of an idle worker, so it must not be null. A killed worker ignores the call. */
    method Grade(sub: Option<Submission>)
      requires status == Idle ==> sub.Some?
      modifies this
      ensures View() == if old(status) == Idle then Worker(New, sub, old(diedAs))
                        else if sub.None? then Released(old(View())) else old(View())
      ensures old(status) == Idle ==> status == New && submission == sub
      ensures old(status) == Done && sub.None? ==> status == Idle && submission == old(submission)
      ensures old(status) != Idle && !(old(status) == Done && sub.None?) ==>
                status == old(status) && submission == old(submission)
    {
      match status
      case Idle =>
        submission := sub;
        status := New;
      case Done =>
        if sub.None? { status := Idle; }
      case Terminated =>
        if sub.None? { diedAs := Idle; }
      case _ =>
    }

    /** First half of the body of the worker's loop. */
    method BeginWork() returns (started: bool)
      modifies this`status
      ensures started <==> old(status) == New
      ensures View() == if started then old(View()).(status := Busy) else old(View())
    {
      started := status == New;
      if started { status := Busy; }
    }

    /** signal(KILL), once the wait for BUSY to pass is over. */
    method Terminate()
      requires status != Busy
      modifies this`status, this`diedAs
      ensures View() == if old(status) == Terminated then old(View())
                        else old(View()).(status := Terminated, diedAs := old(status))
    {
      if status != Terminated { diedAs := status; }
      status := Terminated;
    }

    /** Second half, when grade_submission has returned. */
    method FinishWork()
      requires status == Busy
      modifies this`status
      ensures View() == old(View()).(status := Done)
    {
      status := Done;
    }
  }

  ghost function Workers(graders: seq<Grader>): (r: seq<Worker>)
    reads graders
    ensures |r| == |graders| && forall i :: 0 <= i < |r| ==> r[i] == graders[i].View()
  {
    if graders == [] then [] else [graders[0].View()] + Workers(graders[1..])
  }

  lemma HandStep(s: State, i: nat, sub: Submission)
    requires Inv(s) && s.pc == Claimed(i, sub)
    ensures i < |s.workers| && Inv(Apply(s, Sched, true))
    ensures Apply(s, Sched, true) ==
            if s.workers[i].status == Idle
            then s.(workers := s.workers[i := Worker(New, Some(sub), s.workers[i].diedAs)], pc := Top(i + 1))
            else s.(lost := s.lost + {sub.id}, pc := Top(i + 1))
  {
    StepInv(s, Sched);
  }

  lemma ReleaseStep(s: State, i: nat)
    requires Inv(s) && s.pc == Unlisted(i)
    ensures i < |s.workers| && s.workers[i].status in {Done, Terminated} && Inv(Apply(s, Sched, true))
    ensures Apply(s, Sched, true) == s.(workers := s.workers[i := Released(s.workers[i])], pc := Second(i))
  {
    StepInv(s, Sched);
  }

  lemma PopStep(s: State, i: nat)
    requires Inv(s) && s.pc == Chosen(i)
    ensures s.waiting.order != []
    ensures PopUntil(s.waiting.order, s.waiting.index, true) == Picked(Some(s.waiting.order[0]), s.waiting.order[1..])
    ensures var x := s.waiting.order[0];
            Apply(s, Sched, true) ==
              s.(waiting := s.waiting.(order := s.waiting.order[1..]), pc := Popped(i, x),
                 dispatched := s.dispatched + [x], tickets := s.tickets[x.id := Ticket(x, i)])
    ensures Inv(Apply(s, Sched, true))
  {
    DispatchTakesOldest(s, i);
    StepInv(s, Sched);
  }

  lemma BeginStep(s: State, i: nat)
    requires Inv(s) && i < |s.workers|
    ensures Inv(Apply(s, Begin(i), true))
    ensures if s.workers[i].status == New
            then s.workers[i].submission.Some? &&
                 Apply(s, Begin(i), true) == s.(workers := s.workers[i := s.workers[i].(status := Busy)],
                                                runs := s.runs + [s.workers[i].submission.value.id])
            else Apply(s, Begin(i), true) == s
  {
    StepInv(s, Begin(i));
    assert WorkerOk(s, i);
  }

  lemma FinishStep(s: State, i: nat)
    requires Inv(s) && i < |s.workers| && s.workers[i].status == Busy
    ensures Inv(Apply(s, Finish(i), true))
    ensures Apply(s, Finish(i), true) == s.(workers := s.workers[i := s.workers[i].(status := Done)])
  {
    StepInv(s, Finish(i));
  }

  lemma KillStep(s: State, i: nat)
    requires Inv(s) && i < |s.workers| && s.workers[i].status != Busy
    ensures Inv(Apply(s, Kill(i), true))
    ensures var w := s.workers[i];
            Apply(s, Kill(i), true) ==
            if w.status == Terminated then s
            else s.(workers := s.workers[i := w.(status := Terminated, diedAs := w.status)])
  {
    StepInv(s, Kill(i));
  }

  class GraderPool {
    const waiting: SubmissionPool
    const grading: SubmissionPool
    const graded: SubmissionPool
    const graders: seq<Grader>
    var running: bool
    // Where the scheduler stands, and the histories of the protocol.
    ghost var pc: Pc
    ghost var accepted: seq<Submission>
    ghost var dispatched: seq<Submission>
    ghost var tickets: map<string, Ticket>
    ghost var runs: seq<string>
    ghost var lost: set<string>

    ghost function View(): State
      reads this, waiting, grading, graded, graders
    {
      State(waiting.View(), grading.View(), graded.View(),
            Workers(graders), pc, running, accepted, dispatched, tickets, runs, lost)
    }

    ghost predicate Separate()
    {
      waiting != grading && waiting != graded && grading != graded && NoDup(graders)
    }

    ghost predicate Valid()
      reads this, waiting, grading, graded, graders
    {
      Separate() && Inv(View())
    }

    constructor (workers: seq<Grader>)
      requires NoDup(workers) && forall w :: w in workers ==> w.View() == Worker(Idle, None, Idle)
      ensures Valid() && graders == workers && View() == Initial(|workers|)
      ensures fresh(waiting) && fresh(grading) && fresh(graded)
    {
      waiting := new SubmissionPool();
      grading := new SubmissionPool();
      graded := new SubmissionPool();
      graders := workers;
      running := true;
      pc, accepted, dispatched, tickets, runs, lost := Top(0), [], [], map[], [], {};
      new;
      InitialInv(|workers|);
      assert View().workers == Initial(|workers|).workers;
    }

    /** A known id is pushed on the queue again, but its index entry stays; the invariant is kept
        for ids that are new, or when the pool does not accept any more. */
    method AddSubmission(sub: Submission) returns (code: int)
      requires Valid()
      modifies this`accepted, waiting
      ensures code == if running then 0 else 1
      ensures waiting.View() == if running then Add(old(waiting.View()), sub) else old(waiting.View())
      ensures accepted == if running then old(accepted) + [sub] else old(accepted)
      ensures old(sub.id !in Ids(accepted)) || !running ==>
                Valid() && View() == Apply(old(View()), Accept(sub), true)
    {
      StepInv(View(), Accept(sub));
      if !running { return 1; }
      waiting.AddSubmission(sub);
      accepted := accepted + [sub];
      return 0;
    }

    method GetSubmissionStatus(id: string) returns (r: Reported)
      ensures r == ReportedStatus(View(), id)
      ensures r == Graded <==> id in graded.index
      ensures r == Grading <==> id in grading.index && id !in graded.index
      ensures r == Waiting <==> id in waiting.index && id !in grading.index && id !in graded.index
      ensures Valid() ==> (r == Waiting <==> id in Ids(accepted) && id !in grading.index && id !in graded.index)
      ensures Valid() ==> (r == NotExists <==> id !in Ids(accepted))
    {
      if Valid() { StatusMeansInv(View(), id); }
      hide Valid, View;
      if graded.Get(id).Some? { return Graded; }
      if grading.Get(id).Some? { return Grading; }
      if waiting.Get(id).Some? { return Waiting; }
      return NotExists;
    }

    /** The thread of grader i picks up new work. */
    method BeginWork(i: nat)
      requires Valid() && i < |graders|
      modifies this`runs, graders[i]
      ensures Valid() && View() == Apply(old(View()), Begin(i), true)
    {
      hide Inv, Workers, Apply;
      ghost var s := View();
      BeginStep(s, i);
      var started := graders[i].BeginWork();
      if started { runs := runs + [graders[i].submission.value.id]; }
      assert View().workers == if started then s.workers[i := s.workers[i].(status := Busy)] else s.workers;
    }

    method FinishWork(i: nat)
      requires Valid() && i < |graders| && graders[i].status == Busy
      modifies graders[i]
      ensures Valid() && View() == Apply(old(View()), Finish(i), true)
      ensures graders[i].status == Done
    {
      hide Inv, Workers, Apply;
      ghost var s := View();
      FinishStep(s, i);
      ghost var ws := s.workers[i := s.workers[i].(status := Done)];
      graders[i].FinishWork();
      assert View().workers == ws;
    }

    // ---------- The tests and statements of the scheduler's loop body ----------

    method File(i: nat)
      requires Valid() && pc == Due(i)
      modifies this`pc, graded
      ensures Valid() && pc == Filed(i) && View() == Apply(old(View()), Sched, true)
      ensures graders[i].submission.Some? && graded.View() == Add(old(graded.View()), graders[i].submission.value)
    {
      ghost var s := View();
      StepInv(s, Sched);
      assert WorkerOk(s, i);
      hide Inv, Workers;
      graded.AddSubmission(graders[i].submission.value);
      pc := Filed(i);
    }

    method Unlist(i: nat)
      requires Valid() && pc == Filed(i)
      modifies this`pc, grading
      ensures Valid() && pc == Unlisted(i) && View() == Apply(old(View()), Sched, true)
      ensures graders[i].submission.Some? &&
              grading.View() == Remove(old(grading.View()), graders[i].submission.value.id)
    {
      ghost var s := View();
      StepInv(s, Sched);
      assert WorkerOk(s, i);
      hide Inv, Workers;
      grading.RemoveSubmission(graders[i].submission.value.id);
      pc := Unlisted(i);
    }

    method Release(i: nat)
      requires Valid() && pc == Unlisted(i)
      modifies this`pc, graders[i]
      ensures Valid() && pc == Second(i) && View() == Apply(old(View()), Sched, true)
      ensures graders[i].status in {Idle, Terminated} && graders[i].View() == Released(old(graders[i].View()))
    {
      hide Inv, Workers, Apply;
      ghost var s := View();
      ReleaseStep(s, i);
      ghost var ws := s.workers[i := Released(s.workers[i])];
      graders[i].Grade(None);
      pc := Second(i);
      assert View().workers == ws;
    }

    method Pop(i: nat) returns (sub: Submission)
      requires Valid() && pc == Chosen(i)
      modifies this`pc, this`dispatched, this`tickets, waiting
      ensures Valid() && pc == Popped(i, sub) && View() == Apply(old(View()), Sched, true)
      ensures old(waiting.order) == [sub] + waiting.order
    {
      hide Inv, Workers, Apply, PopUntil;
      PopStep(View(), i);
      var found := waiting.GetFirst(true);
      sub := found.value;
      pc, dispatched, tickets := Popped(i, sub), dispatched + [sub], tickets[sub.id := Ticket(sub, i)];
    }

    method List(i: nat, sub: Submission)
      requires Valid() && pc == Popped(i, sub)
      modifies this`pc, grading
      ensures Valid() && pc == Listed(i, sub) && View() == Apply(old(View()), Sched, true)
      ensures grading.View() == Add(old(grading.View()), sub)
    {
      StepInv(View(), Sched);
      grading.AddSubmission(sub);
      pc := Listed(i, sub);
    }

    method Claim(i: nat, sub: Submission)
      requires Valid() && pc == Listed(i, sub)
      modifies this`pc, waiting
      ensures Valid() && pc == Claimed(i, sub) && View() == Apply(old(View()), Sched, true)
      ensures waiting.View() == Remove(old(waiting.View()), sub.id)
    {
      StepInv(View(), Sched);
      waiting.RemoveSubmission(sub.id);
      pc := Claimed(i, sub);
    }

    method Hand(i: nat, sub: Submission)
      requires Valid() && pc == Claimed(i, sub)
      modifies this`pc, this`lost, graders[i]
      ensures Valid() && pc == Top(i + 1) && View() == Apply(old(View()), Sched, true)
      ensures graders[i].View() == if old(graders[i].status) == Idle then Worker(New, Some(sub), old(graders[i].diedAs))
                                   else old(graders[i].View())
    {
      hide Inv, Workers, Apply;
      ghost var s := View();
      HandStep(s, i, sub);
      ghost var ws := if graders[i].status == Idle
                      then s.workers[i := Worker(New, Some(sub), graders[i].diedAs)] else s.workers;
      if graders[i].status != Idle { lost := lost + {sub.id}; }
      graders[i].Grade(Some(sub));
      pc := Top(i + 1);
      assert View().workers == ws;
    }

    /** The scheduler looks at grader i and decides whether to take a branch. */
    ghost method Look(i: nat)
      requires Valid() && i < |graders| && pc in {Top(i), Second(i)}
      modifies this`pc
      ensures Valid() && View() == Apply(old(View()), Sched, true)
      ensures old(pc) == Top(i) ==> pc == if graders[i].status == Done then Due(i) else Second(i)
      ensures old(pc) == Second(i) ==>
                pc == if waiting.order != [] && graders[i].status == Idle then Chosen(i) else Top(i + 1)
    {
      ghost var s := View();
      StepInv(s, Sched);
      pc := Apply(s, Sched, true).pc;
    }

    /** First branch for grader i. */
    method Collect(i: nat) returns (ghost ls: seq<Label>)
      requires Valid() && pc == Top(i) && i < |graders|
      modifies this`pc, grading, graded, graders[i]
      ensures Valid() && pc == Second(i) && View() == Exec(old(View()), ls, true) && OnlySched(ls)
      ensures graders[i].View() == if old(graders[i].status) == Done then old(graders[i].View()).(status := Idle)
                                   else old(graders[i].View())
      ensures graded.order == old(graded.order) + Pass.Collected(old(graders[i].View()))
      ensures grading.order == old(grading.order)
    {
      hide Inv, Exec, Apply, Workers;
      ghost var s := View();
      ls := [];
      ExecSnoc(s, ls, Sched, true);
      ls := ls + [Sched];
      Look(i);
      if graders[i].status == Done {
        ExecSnoc(s, ls, Sched, true);
        ls := ls + [Sched];
        File(i);
        ExecSnoc(s, ls, Sched, true);
        ls := ls + [Sched];
        Unlist(i);
        ExecSnoc(s, ls, Sched, true);
        ls := ls + [Sched];
        Release(i);
      }
    }

    /** Second branch for grader i. */
    method Dispatch(i: nat) returns (ghost ls: seq<Label>)
      requires Valid() && pc == Second(i) && i < |graders|
      modifies this`pc, this`dispatched, this`tickets, this`lost, waiting, grading, graders[i]
      ensures Valid() && pc == Top(i + 1) && View() == Exec(old(View()), ls, true) && OnlySched(ls)
      ensures if old(graders[i].status) == Idle && old(waiting.order) != []
              then graders[i].View() == Worker(New, Some(old(waiting.order)[0]), old(graders[i].diedAs)) &&
                   waiting.order == old(waiting.order)[1..] &&
                   grading.order == old(grading.order) + [old(waiting.order)[0]]
              else graders[i].View() == old(graders[i].View()) && waiting.order == old(waiting.order) &&
                   grading.order == old(grading.order)
    {
      hide Inv, Exec, Apply, Workers;
      ghost var s := View();
      ls := [];
      ExecSnoc(s, ls, Sched, true);
      ls := ls + [Sched];
      Look(i);
      if waiting.Size() > 0 && graders[i].status == Idle {
        ghost var four := HandOver(i);
        ExecConcat(s, ls, four, true);
        ls := ls + four;
      }
    }

    /** The statements of the second branch. */
    method HandOver(i: nat) returns (ghost ls: seq<Label>)
      requires Valid() && pc == Chosen(i) && i < |graders|
      modifies this`pc, this`dispatched, this`tickets, this`lost, waiting, grading, graders[i]
      ensures Valid() && pc == Top(i + 1) && View() == Exec(old(View()), ls, true) && OnlySched(ls)
      ensures old(waiting.order) != [] && waiting.order == old(waiting.order)[1..]
      ensures grading.order == old(grading.order) + [old(waiting.order)[0]]
      ensures graders[i].View() == if old(graders[i].status) == Idle
                                   then Worker(New, Some(old(waiting.order)[0]), old(graders[i].diedAs))
                                   else old(graders[i].View())
    {
      hide Inv, Exec, Apply, Workers;
      ghost var s := View();
      var sub;
      ghost var more;
      sub, ls := TakeNext(i);
      more := GiveTo(i, sub);
      ExecConcat(s, ls, more, true);
      ls := ls + more;
    }

    /** The oldest submission moves to the grading pool, but for its index entry. */
    method TakeNext(i: nat) returns (sub: Submission, ghost ls: seq<Label>)
      requires Valid() && pc == Chosen(i) && i < |graders|
      modifies this`pc, this`dispatched, this`tickets, waiting, grading
      ensures Valid() && pc == Listed(i, sub) && View() == Exec(old(View()), ls, true) && OnlySched(ls)
      ensures old(waiting.order) == [sub] + waiting.order && grading.order == old(grading.order) + [sub]
    {
      hide Inv, Exec, Apply, Workers;
      ghost var s := View();
      ls := [Sched];
      ExecSnoc(s, [], Sched, true);
      assert [] + [Sched] == ls;
      sub := Pop(i);
      ExecSnoc(s, ls, Sched, true);
      ls := ls + [Sched];
      List(i, sub);
    }

    /** It leaves the waiting index and goes to the worker. */
    method GiveTo(i: nat, sub: Submission) returns (ghost ls: seq<Label>)
      requires Valid() && pc == Listed(i, sub) && i < |graders|
      modifies this`pc, this`lost, waiting, graders[i]
      ensures Valid() && pc == Top(i + 1) && View() == Exec(old(View()), ls, true) && OnlySched(ls)
      ensures waiting.order == old(waiting.order)
      ensures graders[i].View() == if old(graders[i].status) == Idle then Worker(New, Some(sub), old(graders[i].diedAs))
                                   else old(graders[i].View())
    {
      hide Inv, Exec, Apply, Workers;
      ghost var s := View();
      ls := [Sched];
      ExecSnoc(s, [], Sched, true);
      assert [] + [Sched] == ls;
      Claim(i, sub);
      ExecSnoc(s, ls, Sched, true);
      ls := ls + [Sched];
      Hand(i, sub);
    }

    /** Both branches for grader i. */
    method Serve(i: nat) returns (ghost ls: seq<Label>)
      requires Valid() && pc == Top(i) && i < |graders|
      modifies this`pc, this`dispatched, this`tickets, this`lost, waiting, grading, graded, graders[i]
      ensures Valid() && pc == Top(i + 1) && View() == Exec(old(View()), ls, true) && OnlySched(ls)
      ensures graders[i].View() == Pass.ServedWorker(old(graders[i].View()), old(waiting.order))
      ensures waiting.order == old(waiting.order)[|Pass.Taken(old(graders[i].View()), old(waiting.order))|..]
      ensures grading.order == old(grading.order) + Pass.Taken(old(graders[i].View()), old(waiting.order))
      ensures graded.order == old(graded.order) + Pass.Collected(old(graders[i].View()))
    {
      hide Inv, Exec, Apply, Workers;
      ghost var s := View();
      ghost var first := Collect(i);
      ghost var second := Dispatch(i);
      ExecConcat(s, first, second, true);
      ls := first + second;
    }

    /** One undisturbed pass of the scheduler is a run of the protocol. It collects what is DONE and
        deals the oldest submissions to the free workers, both in the order of the workers. */
    method AssignSubmissionToGrader() returns (ghost ls: seq<Label>)
      requires Valid() && pc == Top(0)
      modifies this`pc, this`dispatched, this`tickets, this`lost, waiting, grading, graded, graders
      ensures Valid() && pc == Top(|graders|)
      ensures View() == Exec(old(View()), ls, true) && OnlySched(ls)
      ensures var ws, queue := old(Workers(graders)), old(waiting.order);
              var n := Pass.TakenBefore(ws, queue, |ws|);
              && (forall i :: 0 <= i < |graders| ==> graders[i].View() == Pass.AfterPass(ws, queue, i))
              && waiting.order == queue[n..]
              && grading.order == old(grading.order) + queue[..n]
              && graded.order == old(graded.order) + Pass.CollectedBefore(ws, |ws|)
      ensures forall g :: g in graders ==> g.status != Done
      ensures waiting.order == [] || forall g :: g in graders ==> g.status != Idle
    {
      ls := [];
      ghost var s := View();
      hide Inv, Exec, Apply, Workers, GraderPool.Dealt;
      ExecSnoc(s, ls, Sched, true);
      NobodyIsServed();
      for i := 0 to |graders|
        invariant Valid() && pc == Top(i)
        invariant View() == Exec(s, ls, true) && OnlySched(ls)
        invariant Dealt(s, i)
      {
        ghost var more := ServeNext(i, s);
        ExecConcat(s, ls, more, true);
        ls := ls + more;
      }
      EverybodyIsServed(s);
    }

    /** The first i workers have been served in a pass that began in state s. */
    ghost predicate Dealt(s: State, i: nat)
      reads this, waiting, grading, graded, graders
    {
      && Pass.PassAt(s.workers, s.waiting.order, i, Workers(graders), waiting.order)
      && grading.order == s.grading.order + s.waiting.order[..Pass.TakenBefore(s.workers, s.waiting.order, i)]
      && graded.order == s.graded.order + Pass.CollectedBefore(s.workers, i)
    }

    lemma NobodyIsServed()
      ensures Dealt(View(), 0)
    {
      hide Inv, Workers, Pass.PassAt, GraderPool.Valid;
      Pass.PassStart(Workers(graders), waiting.order);
      assert waiting.order[..Pass.TakenBefore(Workers(graders), waiting.order, 0)] == [];
    }

    method ServeNext(i: nat, ghost s: State) returns (ghost ls: seq<Label>)
      requires Valid() && pc == Top(i) && i < |graders| && Dealt(s, i)
      modifies this`pc, this`dispatched, this`tickets, this`lost, waiting, grading, graded, graders[i]
      ensures Valid() && pc == Top(i + 1) && Dealt(s, i + 1)
      ensures View() == Exec(old(View()), ls, true) && OnlySched(ls)
    {
      hide Inv, Exec, Apply, Workers, Pass.PassAt;
      ghost var now, left := Workers(graders), waiting.order;
      Pass.PassSize(s.workers, s.waiting.order, i, now, left);
      Pass.PassStep(s.workers, s.waiting.order, i, now, left);
      ls := Serve(i);
      assert Workers(graders) == now[i := Pass.ServedWorker(s.workers[i], left)];
    }

    lemma EverybodyIsServed(s: State)
      requires Dealt(s, |graders|)
      ensures |s.workers| == |graders|
      ensures var n := Pass.TakenBefore(s.workers, s.waiting.order, |s.workers|);
              && (forall i :: 0 <= i < |graders| ==>
                    graders[i].View() == Pass.AfterPass(s.workers, s.waiting.order, i))
              && waiting.order == s.waiting.order[n..]
              && grading.order == s.grading.order + s.waiting.order[..n]
              && graded.order == s.graded.order + Pass.CollectedBefore(s.workers, |s.workers|)
      ensures forall g :: g in graders ==> g.status != Done
      ensures waiting.order == [] || forall g :: g in graders ==> g.status != Idle
    {
      Pass.PassSize(s.workers, s.waiting.order, |graders|, Workers(graders), waiting.order);
      Pass.PassDone(s.workers, s.waiting.order, Workers(graders), waiting.order);
    }

    /** signal(KILL) on the pool, wherever the scheduler stands: every worker finishes what it is
        grading and ends TERMINATED; the three pools keep every submission. */
    method Kill() returns (ghost ls: seq<Label>)
      requires Valid()
      modifies this`running, graders
      ensures Valid() && !running && View() == Exec(old(View()), ls, true)
      ensures forall g :: g in graders ==> g.IsTerminated()
    {
      hide Inv, Exec, Apply, Workers;
      ls := [];
      ghost var s := View();
      ExecSnoc(s, ls, Sched, true);
      for i := 0 to |graders|
        invariant Valid() && View() == Exec(s, ls, true) && pc == s.pc
        invariant forall j :: 0 <= j < i ==> graders[j].IsTerminated()
      {
        ghost var one := KillOne(i);
        ExecConcat(s, ls, one, true);
        ls := ls + one;
      }
      ExecSnoc(s, ls, Stop, true);
      ls := ls + [Stop];
      Halt();
    }

    method Halt()
      requires Valid() && forall g :: g in graders ==> g.IsTerminated()
      modifies this`running
      ensures Valid() && !running && View() == Apply(old(View()), Stop, true)
    {
      ghost var s := View();
      StepInv(s, Stop);
      forall w | w in s.workers ensures w.status == Terminated {
        var i :| 0 <= i < |s.workers| && s.workers[i] == w;
        assert graders[i] in graders;
      }
      hide Inv, Workers;
      running := false;
    }

    method TerminateOne(i: nat)
      requires Valid() && i < |graders| && graders[i].status != Busy
      modifies graders[i]
      ensures Valid() && View() == Apply(old(View()), Label.Kill(i), true) && graders[i].IsTerminated()
    {
      hide Inv, Workers, Apply;
      ghost var s := View();
      KillStep(s, i);
      ghost var ws := if s.workers[i].status == Terminated then s.workers
                      else s.workers[i := s.workers[i].(status := Terminated, diedAs := s.workers[i].status)];
      graders[i].Terminate();
      assert View().workers == ws;
    }

    /** The wait for BUSY to pass lets the worker finish; then it is terminated. */
    method KillOne(i: nat) returns (ghost ls: seq<Label>)
      requires Valid() && i < |graders|
      modifies graders[i]
      ensures Valid() && View() == Exec(old(View()), ls, true) && graders[i].IsTerminated()
    {
      hide Inv, Exec, Apply, Workers;
      ghost var s := View();
      ls := [];
      ExecSnoc(s, ls, Finish(i), true);
      if graders[i].status == Busy {
        FinishWork(i);
        ls := ls + [Finish(i)];
      }
      ExecSnoc(s, ls, Label.Kill(i), true);
      ls := ls + [Label.Kill(i)];
      TerminateOne(i);
    }
  }

  ghost predicate OnlySched(ls: seq<Label>) {
    forall l :: l in ls ==> l == Sched
  }
}
