/** What one pass of assign_submission_to_grader does when no other thread falls in between
    (src/grader/grader_pool.cpp:30-45), worker by worker and in closed form. */
module SchedulerPass {
  import opened Sequences
  import opened SubmissionPools
  import opened PoolProtocol

  /** The worker can take a submission, once a finished one has been collected. */
  predicate Free(w: Worker) {
    w.status == Idle || w.status == Done
  }

  function ServedWorker(w: Worker, queue: seq<Submission>): Worker {
    if Free(w) && queue != [] then Worker(New, Some(queue[0]), w.diedAs)
    else if w.status == Done then w.(status := Idle)
    else w
  }

  function Taken(w: Worker, queue: seq<Submission>): seq<Submission> {
    if Free(w) && queue != [] then [queue[0]] else []
  }

  function Collected(w: Worker): seq<Submission> {
    if w.status == Done && w.submission.Some? then [w.submission.value] else []
  }

  /** How many of the first i workers are free. */
  function FreeBefore(ws: seq<Worker>, i: nat): nat
    requires i <= |ws|
  {
    if i == 0 then 0 else FreeBefore(ws, i - 1) + if Free(ws[i - 1]) then 1 else 0
  }

  /** How many submissions the first i workers take from a queue. */
  function TakenBefore(ws: seq<Worker>, queue: seq<Submission>, i: nat): (n: nat)
    requires i <= |ws|
    ensures n <= |queue|
  {
    if FreeBefore(ws, i) <= |queue| then FreeBefore(ws, i) else |queue|
  }

  /** What the DONE ones among the first i workers have finished, in the order of the workers. */
  function CollectedBefore(ws: seq<Worker>, i: nat): seq<Submission>
    requires i <= |ws|
  {
    if i == 0 then [] else CollectedBefore(ws, i - 1) + Collected(ws[i - 1])
  }

  /** The free workers get the oldest submissions, in the order of the workers, as far as they go;
      a DONE worker that gets none becomes IDLE; nothing else changes. */
  function AfterPass(ws: seq<Worker>, queue: seq<Submission>, i: nat): Worker
    requires i < |ws|
  {
    if Free(ws[i]) && FreeBefore(ws, i) < |queue|
    then Worker(New, Some(queue[FreeBefore(ws, i)]), ws[i].diedAs)
    else if ws[i].status == Done then ws[i].(status := Idle)
    else ws[i]
  }

  /** The first i workers have been served. */
  ghost predicate PassAt(ws: seq<Worker>, queue: seq<Submission>, i: nat, now: seq<Worker>, left: seq<Submission>) {
    && i <= |ws| == |now|
    && left == queue[TakenBefore(ws, queue, i)..]
    && (forall j :: 0 <= j < i ==> now[j] == AfterPass(ws, queue, j))
    && (forall j :: i <= j < |ws| ==> now[j] == ws[j])
  }

  lemma PassStep(ws: seq<Worker>, queue: seq<Submission>, i: nat, now: seq<Worker>, left: seq<Submission>)
    requires PassAt(ws, queue, i, now, left) && i < |ws|
    ensures now[i] == ws[i]
    ensures PassAt(ws, queue, i + 1, now[i := ServedWorker(ws[i], left)], left[|Taken(ws[i], left)|..])
    ensures queue[..TakenBefore(ws, queue, i)] + Taken(ws[i], left) == queue[..TakenBefore(ws, queue, i + 1)]
  {
    var n := TakenBefore(ws, queue, i);
    assert left != [] ==> left[0] == queue[n] && left[1..] == queue[n + 1..];
  }

  lemma PassSize(ws: seq<Worker>, queue: seq<Submission>, i: nat, now: seq<Worker>, left: seq<Submission>)
    requires PassAt(ws, queue, i, now, left)
    ensures i <= |ws| == |now|
  {}

  lemma PassStart(ws: seq<Worker>, queue: seq<Submission>)
    ensures PassAt(ws, queue, 0, ws, queue)
  {}

  lemma PassDone(ws: seq<Worker>, queue: seq<Submission>, now: seq<Worker>, left: seq<Submission>)
    requires PassAt(ws, queue, |ws|, now, left)
    ensures |now| == |ws| && left == queue[TakenBefore(ws, queue, |ws|)..]
    ensures forall i :: 0 <= i < |ws| ==> now[i] == AfterPass(ws, queue, i)
    ensures forall i :: 0 <= i < |ws| ==> now[i].status != Done
    ensures left != [] ==> forall i :: 0 <= i < |ws| ==> now[i].status != Idle
  {
    forall i | 0 <= i < |ws| ensures left != [] ==> now[i].status != Idle { FreeGrows(ws, i, |ws|); }
  }

  lemma {:induction false} FreeGrows(ws: seq<Worker>, i: nat, n: nat)
    requires i < n <= |ws|
    ensures FreeBefore(ws, i) + (if Free(ws[i]) then 1 else 0) <= FreeBefore(ws, n)
    decreases n
  {
    if i < n - 1 { FreeGrows(ws, i, n - 1); }
  }
}
