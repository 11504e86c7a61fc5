/** The pool of graders as a transition system (src/grader/grader_pool.cpp, src/grader/grader.cpp).
    One step is one test or statement of the scheduler's loop body, one status change of a worker,
    an accepted submission, or a kill; they interleave freely. Assumed: a single step is atomic and
    accepted ids are distinct. A kill waits while its worker is BUSY, as in the source, and may
    fall anywhere else, also between two tests or statements about that same worker. */
module PoolProtocol {
  import opened Sequences
  import opened SubmissionPools

  datatype WorkerStatus = Idle | New | Busy | Done | Terminated

  // The submission pointer is never cleared. diedAs is history: the status before a kill, and IDLE
  // again once the scheduler has taken a finished submission back.
  datatype Worker = Worker(status: WorkerStatus, submission: Option<Submission>, diedAs: WorkerStatus)

  /** Where the scheduler stands. */
  datatype Pc =
    | Top(i: nat)                      // about to test whether grader i is DONE
    | Due(i: nat)                      // has seen that it is DONE
    | Filed(i: nat)                    // its submission is in the graded pool
    | Unlisted(i: nat)                 // and out of the grading pool
    | Second(i: nat)                   // about to test whether grader i can take work
    | Chosen(i: nat)                   // has seen that it can
    | Popped(i: nat, sub: Submission)  // sub has left the waiting queue
    | Listed(i: nat, sub: Submission)  // and entered the grading pool
    | Claimed(i: nat, sub: Submission) // and left the waiting index
    | Crashed                          // an empty optional was unwrapped

  // Which worker a submission was popped for.
  datatype Ticket = Ticket(sub: Submission, worker: nat)

  // accepted, dispatched, tickets, runs and lost are history: acceptance order, dispatch order, the
  // worker each submission was meant for, the ids passed to grade_submission, and those whose
  // hand-over found the worker killed.
  datatype State = State(waiting: Pool, grading: Pool, graded: Pool, workers: seq<Worker>, pc: Pc, running: bool,
                         accepted: seq<Submission>, dispatched: seq<Submission>,
                         tickets: map<string, Ticket>, runs: seq<string>, lost: set<string>)

  datatype Label = Accept(sub: Submission) | Sched | Begin(i: nat) | Finish(i: nat) | Kill(i: nat) | Stop

  function Initial(n: nat): State {
    State(EMPTY_POOL, EMPTY_POOL, EMPTY_POOL, seq(n, i => Worker(Idle, None, Idle)), Top(0), true,
          [], [], map[], [], {})
  }

  function Ids(subs: seq<Submission>): (r: set<string>)
    ensures forall id :: id in r <==> exists x :: x in subs && x.id == id
  {
    set x | x in subs :: x.id
  }

  function SetWorker(s: State, i: nat, w: Worker): State
    requires i < |s.workers|
  {
    s.(workers := s.workers[i := w])
  }

  function SetStatus(s: State, i: nat, status: WorkerStatus): State
    requires i < |s.workers|
  {
    SetWorker(s, i, s.workers[i].(status := status))
  }

  /** grade(nullptr): a DONE worker becomes IDLE; a killed one only stops answering for its work. */
  function Released(w: Worker): Worker {
    match w.status
    case Done => w.(status := Idle)
    case Terminated => w.(diedAs := Idle)
    case _ => w
  }

  predicate Enabled(s: State, l: Label) {
    !s.pc.Crashed? &&
    match l
    case Accept(sub) => s.running && sub.id !in Ids(s.accepted)
    case Sched => true
    case Begin(i) => i < |s.workers| && s.workers[i].status == New
    case Finish(i) => i < |s.workers| && s.workers[i].status == Busy
    case Kill(i) => i < |s.workers| && s.workers[i].status !in {Busy, Terminated}
    case Stop => forall w :: w in s.workers ==> w.status == Terminated
  }

  predicate CanDispatch(s: State, i: nat) {
    i < |s.workers| && s.waiting.order != [] && s.workers[i].status == Idle
  }

  /** One test or statement of assign_submission_to_grader; live selects the loop test of get_first. */
  function SchedStep(s: State, live: bool): State {
    match s.pc
    case Top(i) =>
      if i >= |s.workers| then s.(pc := Top(0))
      else s.(pc := if s.workers[i].status == Done then Due(i) else Second(i))
    case Due(i) =>
      if i < |s.workers| && s.workers[i].submission.Some? then
        s.(graded := Add(s.graded, s.workers[i].submission.value), pc := Filed(i))
      else s
    case Filed(i) =>
      if i < |s.workers| && s.workers[i].submission.Some? then
        s.(grading := Remove(s.grading, s.workers[i].submission.value.id), pc := Unlisted(i))
      else s
    case Unlisted(i) =>
      if i < |s.workers| then SetWorker(s, i, Released(s.workers[i])).(pc := Second(i)) else s.(pc := Second(i))
    case Second(i) => s.(pc := if CanDispatch(s, i) then Chosen(i) else Top(i + 1))
    case Chosen(i) =>
      var r := PopUntil(s.waiting.order, s.waiting.index, live);
      var t := s.(waiting := s.waiting.(order := r.order));
      if r.found.None? then t.(pc := Crashed)
      else
        var sub := r.found.value;
        t.(pc := Popped(i, sub), dispatched := s.dispatched + [sub], tickets := s.tickets[sub.id := Ticket(sub, i)])
    case Popped(i, sub) => s.(grading := Add(s.grading, sub), pc := Listed(i, sub))
    case Listed(i, sub) => s.(waiting := Remove(s.waiting, sub.id), pc := Claimed(i, sub))
    case Claimed(i, sub) =>
      if i < |s.workers| && s.workers[i].status == Idle
      then SetWorker(s, i, s.workers[i].(status := New, submission := Some(sub))).(pc := Top(i + 1))
      else s.(lost := s.lost + {sub.id}, pc := Top(i + 1))
    case Crashed => s
  }

  function Killed(s: State, i: nat): State
    requires i < |s.workers|
  {
    SetWorker(s, i, s.workers[i].(status := Terminated, diedAs := s.workers[i].status))
  }

  /** A step; a label that is not enabled leaves the state as it is. */
  function Apply(s: State, l: Label, live: bool): State {
    if !Enabled(s, l) then s
    else
      match l
      case Accept(sub) => s.(waiting := Add(s.waiting, sub), accepted := s.accepted + [sub])
      case Sched => SchedStep(s, live)
      case Begin(i) =>
        var t := SetStatus(s, i, Busy);
        if s.workers[i].submission.Some? then t.(runs := s.runs + [s.workers[i].submission.value.id]) else t
      case Finish(i) => SetStatus(s, i, Done)
      case Kill(i) => Killed(s, i)
      case Stop => s.(running := false)
  }

  /** The state after a schedule. */
  function Exec(s: State, ls: seq<Label>, live: bool): State {
    if ls == [] then s else Apply(Exec(s, ls[..|ls| - 1], live), ls[|ls| - 1], live)
  }

  // ---------- The invariant ----------

  /** What a worker was doing: its status, or the one it was killed in. */
  function Phase(w: Worker): WorkerStatus {
    if w.status == Terminated then w.diedAs else w.status
  }

  /** Worker i answers for the submission it points to: it is NEW, BUSY or DONE, or was killed
      while NEW or DONE, and the scheduler has not taken it off the grading pool. */
  predicate Holds(s: State, i: nat) {
    i < |s.workers| && s.pc != Unlisted(i) && Phase(s.workers[i]) != Idle
  }

  /** The scheduler is carrying the submission from the waiting pool to a worker. */
  predicate Carries(pc: Pc, id: string) {
    match pc
    case Popped(_, sub) => sub.id == id
    case Listed(_, sub) => sub.id == id
    case Claimed(_, sub) => sub.id == id
    case _ => false
  }

  datatype Place = Nowhere | Queued | InHand | AtWorker(i: nat) | Delivered | Stranded

  function PlaceOf(s: State, id: string): Place {
    if id !in s.tickets then if id in s.waiting.index then Queued else Nowhere
    else if Carries(s.pc, id) then InHand
    else if id in s.lost then Stranded
    else
      var i := s.tickets[id].worker;
      if Holds(s, i) && s.workers[i].submission == Some(s.tickets[id].sub) then AtWorker(i) else Delivered
  }

  /** Index entries point to the submission that was popped under that id. */
  predicate EntryOk(p: Pool, tickets: map<string, Ticket>, id: string) {
    id in p.index && id in tickets ==> p.index[id] == tickets[id].sub
  }

  /** Which indexes list an id, and whether it has been run, is fixed by its place. */
  predicate IdOk(s: State, id: string) {
    EntryOk(s.waiting, s.tickets, id) && EntryOk(s.grading, s.tickets, id) && EntryOk(s.graded, s.tickets, id) &&
    match PlaceOf(s, id)
    case Nowhere => id !in s.waiting.index && id !in s.grading.index && id !in s.graded.index && id !in s.runs
    case Queued => id !in s.grading.index && id !in s.graded.index && id !in s.runs &&
                   s.waiting.index[id].id == id && s.waiting.index[id] in s.waiting.order
    case InHand => (id in s.waiting.index <==> !s.pc.Claimed?) && (id in s.grading.index <==> !s.pc.Popped?) &&
                   id !in s.graded.index && id !in s.runs
    case AtWorker(i) => id !in s.waiting.index && id in s.grading.index &&
                        (id in s.graded.index <==> s.pc == Filed(i)) &&
                        (id in s.runs <==> Phase(s.workers[i]) != New)
    case Delivered => id !in s.waiting.index && id !in s.grading.index && id in s.graded.index && id in s.runs
    case Stranded => id !in s.waiting.index && id in s.grading.index && id !in s.graded.index && id !in s.runs &&
                     DeadAt(s, s.tickets[id].worker)
  }

  predicate DeadAt(s: State, i: nat) {
    i < |s.workers| && s.workers[i].status == Terminated
  }

  ghost predicate HistoryOk(s: State) {
    && (forall i, j :: 0 <= i < j < |s.accepted| ==> s.accepted[i].id != s.accepted[j].id)
    && s.accepted == s.dispatched + s.waiting.order
    && NoDup(s.runs)
  }

  ghost predicate TicketsOk(s: State) {
    && (forall x :: x in s.dispatched ==> x.id in s.tickets && s.tickets[x.id].sub == x)
    && (forall id :: id in s.tickets ==> s.tickets[id].sub.id == id && s.tickets[id].sub in s.dispatched)
    && s.lost <= s.tickets.Keys
    && (forall x :: x in s.waiting.order ==> x.id !in s.tickets)
    && (forall x :: x in s.waiting.order ==> x.id in s.waiting.index && s.waiting.index[x.id] == x)
  }

  predicate WorkerOk(s: State, i: nat)
    requires i < |s.workers|
  {
    var w := s.workers[i];
    && w.diedAs in {Idle, New, Done}
    && (Phase(w) != Idle ==>
          w.submission.Some? && w.submission.value.id in s.tickets && w.submission.value.id !in s.lost &&
          s.tickets[w.submission.value.id] == Ticket(w.submission.value, i))
  }

  predicate PcOk(s: State) {
    match s.pc
    case Top(i) => i <= |s.workers|
    case Second(i) => i < |s.workers|
    case Due(i) => i < |s.workers| && Phase(s.workers[i]) == Done
    case Filed(i) => i < |s.workers| && Phase(s.workers[i]) == Done
    case Unlisted(i) => i < |s.workers| && Phase(s.workers[i]) == Done
    case Chosen(i) => i < |s.workers| && Phase(s.workers[i]) == Idle && s.waiting.order != []
    case Popped(i, sub) => CarryOk(s, i, sub)
    case Listed(i, sub) => CarryOk(s, i, sub)
    case Claimed(i, sub) => CarryOk(s, i, sub)
    case Crashed => false
  }

  predicate CarryOk(s: State, i: nat, sub: Submission) {
    && i < |s.workers| && Phase(s.workers[i]) == Idle && sub.id !in s.lost
    && sub.id in s.tickets && s.tickets[sub.id] == Ticket(sub, i)
  }

  ghost predicate Inv(s: State) {
    && HistoryOk(s) && TicketsOk(s) && PcOk(s)
    && (forall i: nat | i < |s.workers| :: WorkerOk(s, i))
    && (forall id :: IdOk(s, id))
  }

  lemma InitialInv(n: nat)
    ensures Inv(Initial(n))
  {}

  // ---------- Preservation, one lemma for each kind of step ----------

  lemma AcceptInv(s: State, sub: Submission)
    requires Inv(s) && Enabled(s, Accept(sub))
    ensures Inv(Apply(s, Accept(sub), true))
  {
    var t := Apply(s, Accept(sub), true);
    assert sub.id in s.tickets ==> s.tickets[sub.id].sub in s.accepted;
    assert IdOk(s, sub.id);
    forall i: nat | i < |t.workers| ensures WorkerOk(t, i) { assert WorkerOk(s, i); }
    forall id ensures IdOk(t, id) { assert IdOk(s, id); }
  }

  lemma BeginInv(s: State, i: nat)
    requires Inv(s) && Enabled(s, Begin(i))
    ensures Inv(Apply(s, Begin(i), true))
  {
    var t := Apply(s, Begin(i), true);
    assert WorkerOk(s, i);
    assert IdOk(s, s.workers[i].submission.value.id);
    forall j: nat | j < |t.workers| ensures WorkerOk(t, j) { assert WorkerOk(s, j); }
    BeginIds(s, i);
    hide IdOk;
  }

  lemma BeginIds(s: State, i: nat)
    requires Inv(s) && Enabled(s, Begin(i))
    ensures forall id :: IdOk(Apply(s, Begin(i), true), id)
  {
    var t := Apply(s, Begin(i), true);
    assert WorkerOk(s, i);
    forall id ensures IdOk(t, id) { assert IdOk(s, id); }
  }

  lemma FinishInv(s: State, i: nat)
    requires Inv(s) && Enabled(s, Finish(i))
    ensures Inv(Apply(s, Finish(i), true))
  {
    var t := Apply(s, Finish(i), true);
    forall j: nat | j < |t.workers| ensures WorkerOk(t, j) { assert WorkerOk(s, j); }
    forall id ensures IdOk(t, id) { assert IdOk(s, id); }
  }

  lemma KillInv(s: State, i: nat)
    requires Inv(s) && Enabled(s, Kill(i))
    ensures Inv(Apply(s, Kill(i), true))
  {
    var t := Apply(s, Kill(i), true);
    forall j: nat | j < |t.workers| ensures WorkerOk(t, j) { assert WorkerOk(s, j); }
    forall id ensures IdOk(t, id) { assert IdOk(s, id); }
  }

  /** The scheduler moves on without touching anything. */
  lemma PollInv(s: State, pc: Pc)
    requires Inv(s) && (s.pc.Top? || s.pc.Second?)
    requires PcOk(s.(pc := pc)) && (pc.Top? || pc.Due? || pc.Second? || pc.Chosen?)
    ensures Inv(s.(pc := pc))
  {
    var t := s.(pc := pc);
    forall j: nat | j < |t.workers| ensures WorkerOk(t, j) { assert WorkerOk(s, j); }
    forall id ensures IdOk(t, id) { assert IdOk(s, id); }
  }

  lemma LookInv(s: State)
    requires Inv(s) && (s.pc.Top? || s.pc.Second?)
    ensures Inv(SchedStep(s, true))
  {
    PollInv(s, SchedStep(s, true).pc);
  }

  lemma DueInv(s: State)
    requires Inv(s) && s.pc.Due?
    ensures Inv(SchedStep(s, true))
  {
    var t := SchedStep(s, true);
    assert WorkerOk(s, s.pc.i);
    forall j: nat | j < |t.workers| ensures WorkerOk(t, j) { assert WorkerOk(s, j); }
    forall id ensures IdOk(t, id) { assert IdOk(s, id); }
  }

  lemma FiledInv(s: State)
    requires Inv(s) && s.pc.Filed?
    ensures Inv(SchedStep(s, true))
  {
    var t := SchedStep(s, true);
    assert WorkerOk(s, s.pc.i);
    forall j: nat | j < |t.workers| ensures WorkerOk(t, j) { assert WorkerOk(s, j); }
    forall id ensures IdOk(t, id) { assert IdOk(s, id); }
  }

  lemma UnlistedInv(s: State)
    requires Inv(s) && s.pc.Unlisted?
    ensures Inv(SchedStep(s, true))
  {
    var t := SchedStep(s, true);
    forall j: nat | j < |t.workers| ensures WorkerOk(t, j) { assert WorkerOk(s, j); }
    forall id ensures IdOk(t, id) { assert IdOk(s, id); }
  }

  /** At the call site every queued entry is live, so get_first yields the oldest one and the
      optional is never empty. */
  lemma DispatchTakesOldest(s: State, i: nat)
    requires Inv(s) && s.pc == Chosen(i)
    ensures var x := s.waiting.order[0];
            SchedStep(s, true) ==
              s.(waiting := s.waiting.(order := s.waiting.order[1..]), pc := Popped(i, x),
                 dispatched := s.dispatched + [x], tickets := s.tickets[x.id := Ticket(x, i)])
    ensures s.waiting.order[0].id !in s.tickets && s.waiting.order[0].id in s.waiting.index
  {
    assert s.waiting.order[0] in s.waiting.order;
  }

  lemma RestIsOther(s: State, y: Submission)
    requires HistoryOk(s) && s.waiting.order != [] && y in s.waiting.order[1..]
    ensures y.id != s.waiting.order[0].id && y in s.waiting.order
  {
    var j :| 0 <= j < |s.waiting.order[1..]| && s.waiting.order[1..][j] == y;
    var n := |s.dispatched|;
    assert s.accepted[n] == s.waiting.order[0] && s.accepted[n + 1 + j] == y;
  }

  lemma DispatchInv(s: State, i: nat)
    requires Inv(s) && s.pc == Chosen(i)
    ensures Inv(SchedStep(s, true))
  {
    DispatchTakesOldest(s, i);
    var t, x := SchedStep(s, true), s.waiting.order[0];
    assert s.waiting.order == [x] + t.waiting.order;
    assert s.accepted == t.dispatched + t.waiting.order;
    forall y | y in t.waiting.order ensures y.id != x.id && y in s.waiting.order { RestIsOther(s, y); }
    forall j: nat | j < |t.workers| ensures WorkerOk(t, j) { assert WorkerOk(s, j); }
    DispatchIds(s, i);
  }

  lemma DispatchIds(s: State, i: nat)
    requires Inv(s) && s.pc == Chosen(i)
    ensures forall id :: IdOk(SchedStep(s, true), id)
  {
    DispatchTakesOldest(s, i);
    var t, x := SchedStep(s, true), s.waiting.order[0];
    assert s.waiting.order == [x] + t.waiting.order;
    forall id ensures IdOk(t, id) {
      assert IdOk(s, id);
      assert IdOk(s, x.id);
    }
  }

  lemma PoppedInv(s: State)
    requires Inv(s) && s.pc.Popped?
    ensures Inv(SchedStep(s, true))
  {
    var t := SchedStep(s, true);
    assert IdOk(s, s.pc.sub.id);
    forall j: nat | j < |t.workers| ensures WorkerOk(t, j) { assert WorkerOk(s, j); }
    forall id ensures IdOk(t, id) { assert IdOk(s, id); }
  }

  lemma ListedInv(s: State)
    requires Inv(s) && s.pc.Listed?
    ensures Inv(SchedStep(s, true))
  {
    var t := SchedStep(s, true);
    forall j: nat | j < |t.workers| ensures WorkerOk(t, j) { assert WorkerOk(s, j); }
    forall id ensures IdOk(t, id) { assert IdOk(s, id); }
  }

  /** The worker is still idle and takes the submission. */
  lemma HandedInv(s: State, i: nat, sub: Submission)
    requires Inv(s) && s.pc == Claimed(i, sub) && s.workers[i].status == Idle
    ensures Inv(SchedStep(s, true))
  {
    var t := SchedStep(s, true);
    forall j: nat | j < |t.workers| ensures WorkerOk(t, j) { assert WorkerOk(s, j); }
    HandedIds(s, i, sub);
  }

  lemma HandedIds(s: State, i: nat, sub: Submission)
    requires Inv(s) && s.pc == Claimed(i, sub) && s.workers[i].status == Idle
    ensures forall id :: IdOk(SchedStep(s, true), id)
  {
    var t := SchedStep(s, true);
    forall id ensures IdOk(t, id) { assert IdOk(s, id); }
  }

  /** The worker was killed meanwhile: the submission stays in the grading pool with nobody. */
  lemma StrandedInv(s: State, i: nat, sub: Submission)
    requires Inv(s) && s.pc == Claimed(i, sub) && s.workers[i].status != Idle
    ensures Inv(SchedStep(s, true))
  {
    var t := SchedStep(s, true);
    assert WorkerOk(s, i);
    forall j: nat | j < |t.workers| ensures WorkerOk(t, j) { assert WorkerOk(s, j); }
    forall id ensures IdOk(t, id) { assert IdOk(s, id); }
  }

  lemma ClaimedInv(s: State)
    requires Inv(s) && s.pc.Claimed?
    ensures Inv(SchedStep(s, true))
  {
    if s.workers[s.pc.i].status == Idle {
      HandedInv(s, s.pc.i, s.pc.sub);
    } else {
      StrandedInv(s, s.pc.i, s.pc.sub);
    }
  }

  lemma StepInv(s: State, l: Label)
    requires Inv(s)
    ensures Inv(Apply(s, l, true))
  {
    if Enabled(s, l) {
      match l
      case Accept(sub) => AcceptInv(s, sub);
      case Begin(i) => BeginInv(s, i);
      case Finish(i) => FinishInv(s, i);
      case Kill(i) => KillInv(s, i);
      case Stop => StopInv(s);
      case Sched =>
        match s.pc
        case Top(_) => LookInv(s);
        case Due(_) => DueInv(s);
        case Filed(_) => FiledInv(s);
        case Unlisted(_) => UnlistedInv(s);
        case Second(_) => LookInv(s);
        case Chosen(i) => DispatchInv(s, i);
        case Popped(_, _) => PoppedInv(s);
        case Listed(_, _) => ListedInv(s);
        case Claimed(_, _) => ClaimedInv(s);
    }
  }

  lemma StopInv(s: State)
    requires Inv(s)
    ensures Inv(s.(running := false))
  {
    var t := s.(running := false);
    forall j: nat | j < |t.workers| ensures WorkerOk(t, j) { assert WorkerOk(s, j); }
    forall id ensures IdOk(t, id) { assert IdOk(s, id); }
  }
}
