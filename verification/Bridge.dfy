/**
  The GocVM worker-pool bridge (src/gocvm_bridge.cc): a mutex, two condition
  variables, a job queue served by four workers, a result queue and a draining
  destructor.

  Every critical section is one atomic step of `State`; the gap between
  `Submit` unlocking the mutex and notifying is a state of its own (`notifies`),
  and so is the gap between setting the shutdown flag and `notify_all`
  (`broadcast`).  Any interleaving of steps is a run.
 */
module Bridge {
  import opened Options
  import opened Tallies

  const WORKER_COUNT := 4

  datatype Job = Job(id: nat, topic: string, payload: string)
  datatype Outcome = Ok | NotFound | Failed
  datatype Reply = Reply(outcome: Outcome, text: string)
  datatype Completion = Completion(id: nat, ok: bool, reply: string, err: string)

  /** The foreign backend, one arbitrary answer for every job. */
  type Backend = Job -> Reply

  function Complete(job: Job, r: Reply): Completion {
    match r.outcome
    case NotFound => Completion(job.id, false, "", "unknown gocvm topic '" + job.topic + "'")
    case Ok => Completion(job.id, true, r.text, "")
    case Failed => Completion(job.id, false, "", r.text)
  }

  /** Idle: on the way to test the wait predicate. Signalling: result queued, `notify_one` still to come. */
  datatype Worker = Idle | Parked | Running(job: Job) | Signalling | Exited

  datatype State = State(
    jobs: seq<Job>,
    results: seq<Completion>,
    nextId: nat,
    shutdown: bool,
    workers: seq<Worker>,
    notifies: nat,
    broadcast: bool,
    waiters: nat,
    parkedWaiters: nat,
    submitted: seq<Job>,         // history: all jobs ever pushed
    delivered: seq<Completion>,  // history: all completions handed out
    late: bool)                  // history: a job was pushed after shutdown

  function Init(): State {
    State([], [], 0, false, seq(WORKER_COUNT, _ => Idle), 0, false, 0, 0, [], [], false)
  }

  datatype Step =
    | Submit(topic: string, payload: string)
    | Notify(target: Option<nat>)
    | Check(w: nat)
    | Finish(w: nat)
    | Signal(w: nat)
    | WakeSpuriously(w: nat)
    | Poll
    | WaitEnter
    | WaitCheck
    | WakeWaiterSpuriously
    | Shutdown
    | Broadcast

  predicate AnyParked(s: State) {
    exists i :: 0 <= i < |s.workers| && s.workers[i].Parked?
  }

  predicate Enabled(s: State, step: Step) {
    match step
    case Submit(_, _) => true
    case Notify(None) => s.notifies > 0 && !AnyParked(s)
    case Notify(Some(w)) => s.notifies > 0 && w < |s.workers| && s.workers[w].Parked?
    case Check(w) => w < |s.workers| && s.workers[w].Idle?
    case Finish(w) => w < |s.workers| && s.workers[w].Running?
    case Signal(w) => w < |s.workers| && s.workers[w].Signalling?
    case WakeSpuriously(w) => w < |s.workers| && s.workers[w].Parked?
    case Poll => s.results != []
    case WaitEnter => true
    case WaitCheck => s.waiters > 0
    case WakeWaiterSpuriously => s.parkedWaiters > 0
    case Shutdown => !s.shutdown
    case Broadcast => s.broadcast
  }

  function Deliver(s: State): State
    requires s.results != []
  {
    s.(results := s.results[1..], delivered := s.delivered + [s.results[0]])
  }

  function WakeAll(ws: seq<Worker>): seq<Worker> {
    seq(|ws|, i requires 0 <= i < |ws| => if ws[i].Parked? then Idle else ws[i])
  }

  function Apply(b: Backend, s: State, step: Step): State
    requires Enabled(s, step)
  {
    match step
    case Submit(topic, payload) =>
      var job := Job(s.nextId + 1, topic, payload);
      s.(nextId := s.nextId + 1, jobs := s.jobs + [job], notifies := s.notifies + 1,
         submitted := s.submitted + [job], late := s.late || s.shutdown)
    case Notify(None) => s.(notifies := s.notifies - 1)
    case Notify(Some(w)) => s.(notifies := s.notifies - 1, workers := s.workers[w := Idle])
    case Check(w) =>
      if s.jobs != [] then s.(jobs := s.jobs[1..], workers := s.workers[w := Running(s.jobs[0])])
      else if s.shutdown then s.(workers := s.workers[w := Exited])
      else s.(workers := s.workers[w := Parked])
    case Finish(w) =>
      var job := s.workers[w].job;
      s.(results := s.results + [Complete(job, b(job))], workers := s.workers[w := Signalling])
    case Signal(w) =>
      var t := s.(workers := s.workers[w := Idle]);
      if t.parkedWaiters > 0 then t.(parkedWaiters := t.parkedWaiters - 1, waiters := t.waiters + 1) else t
    case WakeSpuriously(w) => s.(workers := s.workers[w := Idle])
    case Poll => Deliver(s)
    case WaitEnter => s.(waiters := s.waiters + 1)
    case WaitCheck =>
      if s.results != [] then Deliver(s).(waiters := s.waiters - 1)
      else s.(waiters := s.waiters - 1, parkedWaiters := s.parkedWaiters + 1)
    case WakeWaiterSpuriously => s.(parkedWaiters := s.parkedWaiters - 1, waiters := s.waiters + 1)
    case Shutdown => s.(shutdown := true, broadcast := true)
    case Broadcast => s.(broadcast := false, workers := WakeAll(s.workers))
  }

  /** `steps` leads from `s` to `t`. */
  ghost predicate Runs(b: Backend, s: State, steps: seq<Step>, t: State)
    decreases |steps|
  {
    if steps == [] then s == t
    else Enabled(s, steps[0]) && Runs(b, Apply(b, s, steps[0]), steps[1..], t)
  }

  ghost predicate Reachable(b: Backend, s: State) {
    exists steps :: Runs(b, Init(), steps, s)
  }

  // ---------- tallies ----------

  function IsIdle(w: Worker): nat { if w.Idle? then 1 else 0 }

  function IsSignalling(w: Worker): nat { if w.Signalling? then 1 else 0 }

  /** What one worker still owes: take and run a job, post its result, go back to test, leave. */
  function Owes(w: Worker): nat {
    match w
    case Idle => 1
    case Parked => 0
    case Running(_) => 4
    case Signalling => 3
    case Exited => 0
  }

  function Holds(w: Worker, id: nat): nat {
    if w.Running? && w.job.id == id then 1 else 0
  }

  /** How many workers have the job `id` in flight. */
  function InFlight(ws: seq<Worker>, id: nat): nat {
    if ws == [] then 0 else Holds(ws[0], id) + InFlight(ws[1..], id)
  }

  lemma {:induction false} InFlightUpdate(ws: seq<Worker>, i: nat, w: Worker, id: nat)
    requires i < |ws|
    ensures InFlight(ws[i := w], id) + Holds(ws[i], id) == InFlight(ws, id) + Holds(w, id)
  {
    if i > 0 {
      assert ws[i := w][1..] == ws[1..][i - 1 := w];
      InFlightUpdate(ws[1..], i - 1, w, id);
    } else {
      assert ws[i := w][1..] == ws[1..];
    }
  }

  lemma {:induction false} InFlightNone(ws: seq<Worker>, id: nat)
    requires forall i :: 0 <= i < |ws| ==> !ws[i].Running?
    ensures InFlight(ws, id) == 0
  {
    if ws != [] {
      InFlightNone(ws[1..], id);
    }
  }

  lemma {:induction false} InFlightWoken(ws: seq<Worker>, id: nat)
    ensures InFlight(WakeAll(ws), id) == InFlight(ws, id)
  {
    if ws != [] {
      assert WakeAll(ws)[1..] == WakeAll(ws[1..]);
      InFlightWoken(ws[1..], id);
    }
  }

  lemma {:induction false} WakeAllTallies(ws: seq<Worker>)
    ensures Tally(WakeAll(ws), IsSignalling) == Tally(ws, IsSignalling)
    ensures Tally(WakeAll(ws), Owes) <= Tally(ws, Owes) + |ws|
  {
    if ws != [] {
      assert WakeAll(ws)[1..] == WakeAll(ws[1..]);
      WakeAllTallies(ws[1..]);
    }
  }

  /** How many completions carry the id. */
  function Carrying(cs: seq<Completion>, id: nat): nat {
    if cs == [] then 0 else (if cs[0].id == id then 1 else 0) + Carrying(cs[1..], id)
  }

  lemma {:induction false} CarryingSnoc(cs: seq<Completion>, c: Completion, id: nat)
    ensures Carrying(cs + [c], id) == Carrying(cs, id) + (if c.id == id then 1 else 0)
  {
    if cs == [] {
      assert cs + [c] == [c];
      assert [c][1..] == [];
    } else {
      assert (cs + [c])[1..] == cs[1..] + [c];
      CarryingSnoc(cs[1..], c, id);
    }
  }

  // ---------- the invariant ----------

  function Taken(s: State): int {
    s.nextId - |s.jobs|
  }

  /** Ids are given in order and jobs leave the queue in order. */
  predicate InOrder(s: State) {
    && |s.submitted| == s.nextId
    && (forall i :: 0 <= i < s.nextId ==> s.submitted[i].id == i + 1)
    && |s.jobs| <= s.nextId
    && s.jobs == s.submitted[s.nextId - |s.jobs|..]
  }

  predicate JobOf(s: State, job: Job) {
    1 <= job.id <= |s.submitted| && job == s.submitted[job.id - 1]
  }

  /** A completion answers the job of its id: the backend's outcome for that topic and payload. */
  predicate Answers(b: Backend, s: State, c: Completion) {
    1 <= c.id <= |s.submitted| && c == Complete(s.submitted[c.id - 1], b(s.submitted[c.id - 1]))
  }

  predicate Faithful(b: Backend, s: State) {
    && (forall i :: 0 <= i < |s.workers| && s.workers[i].Running? ==> JobOf(s, s.workers[i].job))
    && (forall i :: 0 <= i < |s.results| ==> Answers(b, s, s.results[i]))
    && (forall i :: 0 <= i < |s.delivered| ==> Answers(b, s, s.delivered[i]))
  }

  function Copies(s: State, id: nat): nat {
    InFlight(s.workers, id) + Carrying(s.results, id) + Carrying(s.delivered, id)
  }

  /** The ids taken are in flight, in the result queue or delivered, each exactly once; no other id is. */
  ghost predicate Conserved(s: State) {
    forall id: nat :: Copies(s, id) == if 1 <= id <= Taken(s) then 1 else 0
  }

  predicate NoLostWakeup(s: State) {
    !s.shutdown && AnyParked(s) ==> |s.jobs| <= s.notifies + Tally(s.workers, IsIdle)
  }

  predicate NoLostResult(s: State) {
    s.parkedWaiters > 0 ==> |s.results| <= Tally(s.workers, IsSignalling) + s.waiters
  }

  predicate ShutdownOrder(s: State) {
    && (s.broadcast ==> s.shutdown)
    && (s.late ==> s.shutdown)
    && (s.shutdown && !s.broadcast ==> !AnyParked(s))
    && (forall i :: 0 <= i < |s.workers| && s.workers[i].Exited? ==> s.shutdown && (s.late || s.jobs == []))
  }

  ghost predicate Inv(b: Backend, s: State) {
    && |s.workers| == WORKER_COUNT
    && InOrder(s) && Faithful(b, s) && Conserved(s)
    && NoLostWakeup(s) && NoLostResult(s) && ShutdownOrder(s)
  }

  lemma {:induction false} InitInv(b: Backend)
    ensures Inv(b, Init())
  {
    NothingYet(b, Init().workers);
  }

  lemma {:induction false} NothingYet(b: Backend, ws: seq<Worker>)
    requires |ws| == WORKER_COUNT && forall i :: 0 <= i < |ws| ==> ws[i].Idle?
    ensures Inv(b, State([], [], 0, false, ws, 0, false, 0, 0, [], [], false))
  {
    Blank(b, State([], [], 0, false, ws, 0, false, 0, 0, [], [], false));
  }

  lemma {:induction false} Blank(b: Backend, s: State)
    requires |s.workers| == WORKER_COUNT && forall i :: 0 <= i < |s.workers| ==> s.workers[i].Idle?
    requires s.jobs == [] && s.results == [] && s.delivered == [] && s.submitted == [] && s.nextId == 0
    requires s.notifies == 0 && s.waiters == 0 && s.parkedWaiters == 0 && !s.shutdown && !s.broadcast && !s.late
    ensures Inv(b, s)
  {
    NothingTaken(s);
    NothingParked(b, s);
  }

  lemma {:induction false} NothingParked(b: Backend, s: State)
    requires forall i :: 0 <= i < |s.workers| ==> s.workers[i].Idle?
    requires s.jobs == [] && s.results == [] && s.delivered == [] && s.submitted == [] && s.nextId == 0
    requires s.parkedWaiters == 0 && !s.shutdown && !s.broadcast && !s.late
    ensures InOrder(s) && Faithful(b, s) && NoLostWakeup(s) && NoLostResult(s) && ShutdownOrder(s)
  {
    assert !AnyParked(s);
  }

  lemma {:induction false} NothingTaken(s: State)
    requires s.jobs == [] && s.results == [] && s.delivered == [] && s.nextId == 0
    requires forall i :: 0 <= i < |s.workers| ==> s.workers[i].Idle?
    ensures Conserved(s)
  {
    forall id: nat ensures Copies(s, id) == 0 {
      InFlightNone(s.workers, id);
    }
  }

  lemma {:induction false} WorkersKept(b: Backend, s: State, step: Step)
    requires Enabled(s, step)
    ensures |Apply(b, s, step).workers| == |s.workers|
    ensures s.submitted <= Apply(b, s, step).submitted
  {
  }

  lemma {:induction false} OrderKept(b: Backend, s: State, step: Step)
    requires InOrder(s) && Enabled(s, step)
    ensures InOrder(Apply(b, s, step))
  {
    var t := Apply(b, s, step);
    QueueChange(b, s, step);
    if step.Check? && s.jobs != [] {
      OrderByTake(s, t);
    } else if step.Submit? {
      OrderByPush(s, t, Job(s.nextId + 1, step.topic, step.payload));
    }
  }

  /** Only a push and a take change the queue. */
  lemma {:induction false} QueueChange(b: Backend, s: State, step: Step)
    requires Enabled(s, step)
    ensures var t := Apply(b, s, step);
            if step.Submit? then
              var job := Job(s.nextId + 1, step.topic, step.payload);
              t.jobs == s.jobs + [job] && t.nextId == s.nextId + 1 && t.submitted == s.submitted + [job]
            else
              && t.nextId == s.nextId && t.submitted == s.submitted
              && t.jobs == if step.Check? && s.jobs != [] then s.jobs[1..] else s.jobs
  {
  }

  lemma {:induction false} OrderByTake(s: State, t: State)
    requires InOrder(s) && s.jobs != []
    requires t.jobs == s.jobs[1..] && t.nextId == s.nextId && t.submitted == s.submitted
    ensures InOrder(t)
  {
    assert t.jobs == s.submitted[Taken(s) + 1..];
  }

  lemma {:induction false} OrderByPush(s: State, t: State, job: Job)
    requires InOrder(s) && job.id == s.nextId + 1
    requires t.jobs == s.jobs + [job] && t.nextId == s.nextId + 1 && t.submitted == s.submitted + [job]
    ensures InOrder(t)
  {
    assert t.jobs == t.submitted[Taken(s)..];
  }

  lemma {:induction false} HeadJob(s: State)
    requires InOrder(s) && s.jobs != []
    ensures s.jobs[0].id == Taken(s) + 1 && JobOf(s, s.jobs[0])
  {
    assert s.jobs[0] == s.submitted[Taken(s)];
  }

  lemma {:induction false} RunningKept(b: Backend, s: State, step: Step)
    requires InOrder(s) && Faithful(b, s) && Enabled(s, step)
    ensures var t := Apply(b, s, step);
            forall i :: 0 <= i < |t.workers| && t.workers[i].Running? ==> JobOf(t, t.workers[i].job)
  {
    var t := Apply(b, s, step);
    WorkersKept(b, s, step);
    if s.jobs != [] {
      HeadJob(s);
    }
    forall i | 0 <= i < |t.workers| && t.workers[i].Running? ensures JobOf(t, t.workers[i].job) {
      RunningOrigin(b, s, step, i);
    }
  }

  /** A job comes into flight from the head of the queue. */
  lemma {:induction false} RunningOrigin(b: Backend, s: State, step: Step, i: nat)
    requires Enabled(s, step) && i < |s.workers|
    ensures var t := Apply(b, s, step);
            i < |t.workers| && (t.workers[i].Running? ==>
              t.workers[i] == s.workers[i] || (s.jobs != [] && t.workers[i] == Running(s.jobs[0])))
  {
  }

  lemma {:induction false} AnswersKept(b: Backend, s: State, step: Step)
    requires Faithful(b, s) && Enabled(s, step)
    ensures var t := Apply(b, s, step);
            && (forall i :: 0 <= i < |t.results| ==> Answers(b, t, t.results[i]))
            && (forall i :: 0 <= i < |t.delivered| ==> Answers(b, t, t.delivered[i]))
  {
    var t := Apply(b, s, step);
    WorkersKept(b, s, step);
    Origins(b, s, step);
    forall i | 0 <= i < |t.results| ensures Answers(b, t, t.results[i]) {
      if step.Finish? && i == |s.results| {
        assert JobOf(s, s.workers[step.w].job);
      } else {
        assert t.results[i] in s.results;
      }
    }
    forall i | 0 <= i < |t.delivered| ensures Answers(b, t, t.delivered[i]) {
      assert t.delivered[i] in s.delivered || t.delivered[i] in s.results;
    }
  }

  /** Where the completions of the two sequences come from. */
  lemma {:induction false} Origins(b: Backend, s: State, step: Step)
    requires Enabled(s, step)
    ensures var t := Apply(b, s, step);
            && (forall i :: 0 <= i < |t.results| ==>
                  t.results[i] in s.results
                  || (step.Finish? && i == |s.results|
                      && t.results[i] == Complete(s.workers[step.w].job, b(s.workers[step.w].job))))
            && (forall i :: 0 <= i < |t.delivered| ==> t.delivered[i] in s.delivered || t.delivered[i] in s.results)
  {
  }

  lemma {:induction false} ConservedByWorker(s: State, t: State, w: nat, worker: Worker)
    requires Conserved(s) && w < |s.workers| && !s.workers[w].Running? && !worker.Running?
    requires t.workers == s.workers[w := worker] && t.results == s.results && t.delivered == s.delivered
    requires Taken(t) == Taken(s)
    ensures Conserved(t)
  {
    forall id: nat ensures Copies(t, id) == Copies(s, id) {
      InFlightUpdate(s.workers, w, worker, id);
    }
  }

  lemma {:induction false} ConservedByTake(s: State, t: State, w: nat)
    requires Conserved(s) && InOrder(s) && w < |s.workers| && !s.workers[w].Running? && s.jobs != []
    requires t.workers == s.workers[w := Running(s.jobs[0])] && t.results == s.results && t.delivered == s.delivered
    requires t.jobs == s.jobs[1..] && t.nextId == s.nextId
    ensures Conserved(t)
  {
    HeadJob(s);
    forall id: nat ensures Copies(t, id) == Copies(s, id) + (if id == Taken(t) then 1 else 0) {
      InFlightUpdate(s.workers, w, Running(s.jobs[0]), id);
    }
  }

  lemma {:induction false} ConservedByFinish(s: State, t: State, w: nat, c: Completion)
    requires Conserved(s) && w < |s.workers| && s.workers[w].Running? && c.id == s.workers[w].job.id
    requires t.workers == s.workers[w := Signalling] && t.results == s.results + [c] && t.delivered == s.delivered
    requires Taken(t) == Taken(s)
    ensures Conserved(t)
  {
    forall id: nat ensures Copies(t, id) == Copies(s, id) {
      InFlightUpdate(s.workers, w, Signalling, id);
      CarryingSnoc(s.results, c, id);
    }
  }

  lemma {:induction false} ConservedByDelivery(s: State, t: State)
    requires Conserved(s) && s.results != []
    requires t.workers == s.workers && t.results == s.results[1..] && t.delivered == s.delivered + [s.results[0]]
    requires Taken(t) == Taken(s)
    ensures Conserved(t)
  {
    forall id: nat ensures Copies(t, id) == Copies(s, id) {
      CarryingSnoc(s.delivered, s.results[0], id);
    }
  }

  lemma {:induction false} ConservedByBroadcast(s: State, t: State)
    requires Conserved(s)
    requires t.workers == WakeAll(s.workers) && t.results == s.results && t.delivered == s.delivered
    requires Taken(t) == Taken(s)
    ensures Conserved(t)
  {
    forall id: nat ensures Copies(t, id) == Copies(s, id) {
      InFlightWoken(s.workers, id);
    }
  }

  lemma {:induction false} ConservedElsewhere(s: State, t: State)
    requires Conserved(s)
    requires t.workers == s.workers && t.results == s.results && t.delivered == s.delivered
    requires Taken(t) == Taken(s)
    ensures Conserved(t)
  {
    forall id: nat ensures Copies(t, id) == Copies(s, id) {}
  }

  lemma {:induction false} ConservedKept(b: Backend, s: State, step: Step)
    requires Conserved(s) && InOrder(s) && Enabled(s, step)
    ensures Conserved(Apply(b, s, step))
  {
    var t := Apply(b, s, step);
    match step {
      case Notify(Some(w)) => ConservedByWorker(s, t, w, Idle);
      case Check(w) =>
        if s.jobs != [] {
          ConservedByTake(s, t, w);
        } else {
          ConservedByWorker(s, t, w, t.workers[w]);
        }
      case Finish(w) => ConservedByFinish(s, t, w, t.results[|s.results|]);
      case Signal(w) => ConservedByWorker(s, t, w, Idle);
      case WakeSpuriously(w) => ConservedByWorker(s, t, w, Idle);
      case Poll => ConservedByDelivery(s, t);
      case WaitCheck =>
        if s.results != [] {
          ConservedByDelivery(s, t);
        } else {
          ConservedElsewhere(s, t);
        }
      case Broadcast => ConservedByBroadcast(s, t);
      case _ => ConservedElsewhere(s, t);
    }
  }

  /** What one worker's move means for the tallies. */
  lemma {:induction false} MovedWorker(s: State, t: State, w: nat, worker: Worker)
    requires w < |s.workers| && t.workers == s.workers[w := worker]
    ensures Tally(t.workers, IsIdle) == Tally(s.workers, IsIdle) + IsIdle(worker) - IsIdle(s.workers[w])
    ensures Tally(t.workers, IsSignalling)
        == Tally(s.workers, IsSignalling) + IsSignalling(worker) - IsSignalling(s.workers[w])
    ensures AnyParked(t) ==> AnyParked(s) || worker.Parked?
  {
    TallyUpdate(s.workers, w, worker, IsIdle);
    TallyUpdate(s.workers, w, worker, IsSignalling);
    if AnyParked(t) && !worker.Parked? {
      var i :| 0 <= i < |t.workers| && t.workers[i].Parked?;
      assert s.workers[i].Parked?;
    }
  }

  lemma {:induction false} WakeupsByCheck(b: Backend, s: State, w: nat)
    requires NoLostWakeup(s) && NoLostResult(s) && Enabled(s, Check(w))
    ensures NoLostWakeup(Apply(b, s, Check(w))) && NoLostResult(Apply(b, s, Check(w)))
  {
    var t := Apply(b, s, Check(w));
    MovedWorker(s, t, w, t.workers[w]);
  }

  lemma {:induction false} WakeupsBySignal(b: Backend, s: State, w: nat)
    requires NoLostWakeup(s) && NoLostResult(s) && Enabled(s, Signal(w))
    ensures NoLostWakeup(Apply(b, s, Signal(w))) && NoLostResult(Apply(b, s, Signal(w)))
  {
    MovedWorker(s, Apply(b, s, Signal(w)), w, Idle);
  }

  lemma {:induction false} WakeupsKept(b: Backend, s: State, step: Step)
    requires NoLostWakeup(s) && NoLostResult(s) && Enabled(s, step) && (step.Broadcast? ==> s.shutdown)
    ensures NoLostWakeup(Apply(b, s, step)) && NoLostResult(Apply(b, s, step))
  {
    var t := Apply(b, s, step);
    match step {
      case Notify(Some(w)) => MovedWorker(s, t, w, Idle);
      case Check(w) => WakeupsByCheck(b, s, w);
      case Finish(w) => MovedWorker(s, t, w, Signalling);
      case Signal(w) => WakeupsBySignal(b, s, w);
      case WakeSpuriously(w) => MovedWorker(s, t, w, Idle);
      case Broadcast => WakeAllTallies(s.workers);
      case _ => assert AnyParked(t) <==> AnyParked(s);
    }
  }

  lemma {:induction false} ShutdownKept(b: Backend, s: State, step: Step)
    requires Inv(b, s) && Enabled(s, step)
    ensures ShutdownOrder(Apply(b, s, step))
  {
  }

  /** Every step keeps the invariant: conservation, order, no lost wakeup on either condition variable. */
  lemma {:induction false} StepInv(b: Backend, s: State, step: Step)
    requires Inv(b, s) && Enabled(s, step)
    ensures Inv(b, Apply(b, s, step))
  {
    WorkersKept(b, s, step);
    OrderKept(b, s, step);
    RunningKept(b, s, step);
    AnswersKept(b, s, step);
    ConservedKept(b, s, step);
    WakeupsKept(b, s, step);
    ShutdownKept(b, s, step);
  }

  lemma {:induction false} RunInv(b: Backend, s: State, steps: seq<Step>, t: State)
    requires Inv(b, s) && Runs(b, s, steps, t)
    ensures Inv(b, t)
    decreases |steps|
  {
    if steps != [] {
      StepInv(b, s, steps[0]);
      RunInv(b, Apply(b, s, steps[0]), steps[1..], t);
    }
  }

  lemma {:induction false} ReachableInv(b: Backend, s: State)
    requires Reachable(b, s)
    ensures Inv(b, s)
  {
    var steps :| Runs(b, Init(), steps, s);
    InitInv(b);
    RunInv(b, Init(), steps, s);
  }

  // ---------- order and number ----------

  /** Completions leave in the order in which they arrived: what was delivered and what waits only grows at its end. */
  lemma {:induction false} CompletionsInOrder(b: Backend, s: State, step: Step)
    requires Enabled(s, step)
    ensures var t := Apply(b, s, step);
            if step.Finish? then
              var job := s.workers[step.w].job;
              t.delivered + t.results == s.delivered + s.results + [Complete(job, b(job))]
            else
              t.delivered + t.results == s.delivered + s.results
  {
    var t := Apply(b, s, step);
    if t.delivered != s.delivered {
      assert s.results == [s.results[0]] + s.results[1..];
    }
  }

  lemma {:induction false} RunInOrder(b: Backend, s: State, steps: seq<Step>, t: State)
    requires Runs(b, s, steps, t)
    ensures s.delivered + s.results <= t.delivered + t.results
    decreases |steps|
  {
    if steps != [] {
      CompletionsInOrder(b, s, steps[0]);
      RunInOrder(b, Apply(b, s, steps[0]), steps[1..], t);
    }
  }

  function IsRunning(w: Worker): nat { if w.Running? then 1 else 0 }

  /** Every id given is queued, in flight, completed or delivered. */
  predicate Balanced(s: State) {
    |s.workers| == 4 && s.nextId == |s.jobs| + Tally(s.workers, IsRunning) + |s.results| + |s.delivered|
  }

  lemma {:induction false} RunningMoved(s: State, t: State, w: nat, worker: Worker)
    requires w < |s.workers| && t.workers == s.workers[w := worker]
    ensures Tally(t.workers, IsRunning) + IsRunning(s.workers[w]) == Tally(s.workers, IsRunning) + IsRunning(worker)
  {
    TallyUpdate(s.workers, w, worker, IsRunning);
  }

  lemma {:induction false} RunningWoken(ws: seq<Worker>)
    ensures Tally(WakeAll(ws), IsRunning) == Tally(ws, IsRunning)
  {
    if ws != [] {
      assert WakeAll(ws)[1..] == WakeAll(ws[1..]);
      RunningWoken(ws[1..]);
    }
  }

  lemma {:induction false} BalancedKept(b: Backend, s: State, step: Step)
    requires Balanced(s) && Enabled(s, step)
    ensures Balanced(Apply(b, s, step))
  {
    var t := Apply(b, s, step);
    match step {
      case Notify(Some(w)) => RunningMoved(s, t, w, Idle);
      case Check(w) => RunningMoved(s, t, w, t.workers[w]);
      case Finish(w) => RunningMoved(s, t, w, Signalling);
      case Signal(w) => RunningMoved(s, t, w, Idle);
      case WakeSpuriously(w) => RunningMoved(s, t, w, Idle);
      case Broadcast => RunningWoken(s.workers);
      case _ => assert t.workers == s.workers;
    }
  }

  lemma {:induction false} RunBalanced(b: Backend, s: State, steps: seq<Step>, t: State)
    requires Balanced(s) && Runs(b, s, steps, t)
    ensures Balanced(t)
    decreases |steps|
  {
    if steps != [] {
      BalancedKept(b, s, steps[0]);
      RunBalanced(b, Apply(b, s, steps[0]), steps[1..], t);
    }
  }

  lemma {:induction false} AtMost(ws: seq<Worker>)
    ensures Tally(ws, IsRunning) <= |ws|
  {
    if ws != [] {
      AtMost(ws[1..]);
    }
  }

  /** The ids add up, and no more than four jobs are ever in flight. */
  lemma {:induction false} AtMostFourInFlight(b: Backend, s: State)
    requires Reachable(b, s)
    ensures s.nextId == |s.jobs| + Tally(s.workers, IsRunning) + |s.results| + |s.delivered|
    ensures Tally(s.workers, IsRunning) <= 4
  {
    var steps :| Runs(b, Init(), steps, s);
    TallyConstant(Init().workers, 0, IsRunning);
    RunBalanced(b, Init(), steps, s);
    AtMost(s.workers);
  }

  // ---------- progress ----------

  /** Steps of the bridge's own threads; the others are the environment's. */
  predicate Internal(step: Step) {
    step.Notify? || step.Check? || step.Finish? || step.Signal? || step.WaitCheck? || step.Broadcast?
  }

  /** The work that is left for the bridge's own threads. */
  function Work(s: State): nat {
    4 * |s.jobs| + Tally(s.workers, Owes) + s.waiters + 2 * s.notifies + if s.broadcast then WORKER_COUNT + 1 else 0
  }

  /** The work an environment step can bring. */
  function Brings(step: Step): nat {
    match step
    case Submit(_, _) => 6
    case WakeSpuriously(_) => 1
    case WaitEnter => 1
    case WakeWaiterSpuriously => 1
    case Shutdown => WORKER_COUNT + 1
    case _ => 0
  }

  lemma {:induction false} WorkByWorker(s: State, t: State, w: nat, worker: Worker)
    requires w < |s.workers| && t.workers == s.workers[w := worker]
    ensures Tally(t.workers, Owes) == Tally(s.workers, Owes) + Owes(worker) - Owes(s.workers[w])
  {
    TallyUpdate(s.workers, w, worker, Owes);
  }

  lemma {:induction false} InternalWork(b: Backend, s: State, step: Step)
    requires |s.workers| == WORKER_COUNT && Enabled(s, step) && Internal(step)
    ensures Work(Apply(b, s, step)) < Work(s)
  {
    var t := Apply(b, s, step);
    match step {
      case Notify(None) =>
      case Notify(Some(w)) => WorkByWorker(s, t, w, Idle);
      case Check(w) => CheckWork(b, s, w);
      case Finish(w) => WorkByWorker(s, t, w, Signalling);
      case Signal(w) => SignalWork(b, s, w);
      case WaitCheck => assert t.workers == s.workers;
      case Broadcast => WakeAllTallies(s.workers);
    }
  }

  lemma {:induction false} CheckWork(b: Backend, s: State, w: nat)
    requires Enabled(s, Check(w))
    ensures Work(Apply(b, s, Check(w))) < Work(s)
  {
    var t := Apply(b, s, Check(w));
    WorkByWorker(s, t, w, t.workers[w]);
    assert s.jobs != [] ==> |t.jobs| == |s.jobs| - 1;
  }

  lemma {:induction false} SignalWork(b: Backend, s: State, w: nat)
    requires Enabled(s, Signal(w))
    ensures Work(Apply(b, s, Signal(w))) < Work(s)
  {
    WorkByWorker(s, Apply(b, s, Signal(w)), w, Idle);
  }

  lemma {:induction false} EnvironmentWork(b: Backend, s: State, step: Step)
    requires |s.workers| == WORKER_COUNT && Enabled(s, step) && !Internal(step)
    ensures Work(Apply(b, s, step)) <= Work(s) + Brings(step)
  {
    var t := Apply(b, s, step);
    if step.WakeSpuriously? {
      WorkByWorker(s, t, step.w, Idle);
    } else {
      assert t.workers == s.workers;
    }
  }

  function InternalSteps(steps: seq<Step>): nat {
    if steps == [] then 0 else (if Internal(steps[0]) then 1 else 0) + InternalSteps(steps[1..])
  }

  function Brought(steps: seq<Step>): nat {
    if steps == [] then 0 else (if Internal(steps[0]) then 0 else Brings(steps[0])) + Brought(steps[1..])
  }

  /** However steps interleave, the bridge's threads take no more of them than the work there was and was brought. */
  lemma {:induction false} InternalStepsBounded(b: Backend, s: State, steps: seq<Step>, t: State)
    requires |s.workers| == WORKER_COUNT && Runs(b, s, steps, t)
    ensures InternalSteps(steps) + Work(t) <= Work(s) + Brought(steps)
    decreases |steps|
  {
    if steps != [] {
      if Internal(steps[0]) {
        InternalWork(b, s, steps[0]);
      } else {
        EnvironmentWork(b, s, steps[0]);
      }
      WorkersKept(b, s, steps[0]);
      InternalStepsBounded(b, Apply(b, s, steps[0]), steps[1..], t);
    }
  }

  /** No thread of the bridge can take a step. */
  ghost predicate Quiescent(s: State) {
    forall step: Step :: Internal(step) ==> !Enabled(s, step)
  }

  /** Every job was run, and its completion is delivered or waits in the result queue, exactly once. */
  ghost predicate Drained(s: State) {
    && s.jobs == []
    && forall id: nat :: Carrying(s.results, id) + Carrying(s.delivered, id) == if 1 <= id <= s.nextId then 1 else 0
  }

  lemma {:induction false} QuiescentWorkers(s: State)
    requires Quiescent(s)
    ensures forall i :: 0 <= i < |s.workers| ==> s.workers[i].Parked? || s.workers[i].Exited?
    ensures s.notifies == 0 && s.waiters == 0 && !s.broadcast
  {
    forall i: nat | i < |s.workers| ensures s.workers[i].Parked? || s.workers[i].Exited? {
      assert !Enabled(s, Check(i)) && !Enabled(s, Finish(i)) && !Enabled(s, Signal(i));
    }
    assert !Enabled(s, Notify(None)) && !Enabled(s, WaitCheck) && !Enabled(s, Broadcast);
    if AnyParked(s) {
      var i: nat :| i < |s.workers| && s.workers[i].Parked?;
      assert !Enabled(s, Notify(Some(i)));
    }
  }

  /**
    Where every run of the bridge's threads ends: unless a job was pushed after
    shutdown, all jobs have been run; no caller of `WaitOne` sleeps beside a
    result; after shutdown all workers have returned, before it all are parked.
   */
  lemma {:induction false} QuiescentState(b: Backend, s: State)
    requires Reachable(b, s) && Quiescent(s)
    ensures !s.late ==> Drained(s)
    ensures s.parkedWaiters > 0 ==> s.results == []
    ensures forall i :: 0 <= i < |s.workers| ==> if s.shutdown then s.workers[i].Exited? else s.workers[i].Parked?
  {
    ReachableInv(b, s);
    QuiescentWorkers(s);
    TallyConstant(s.workers, 0, IsIdle);
    TallyConstant(s.workers, 0, IsSignalling);
    if s.shutdown {
      assert s.workers[0].Exited?;
    } else {
      assert s.workers[0].Parked?;
    }
    if !s.late {
      forall id: nat
        ensures Carrying(s.results, id) + Carrying(s.delivered, id) == if 1 <= id <= s.nextId then 1 else 0
      {
        assert Copies(s, id) == if 1 <= id <= Taken(s) then 1 else 0;
        InFlightNone(s.workers, id);
      }
    }
  }

  /** Before shutdown a queued job is never left alone: a thread is about to take it or every worker is busy. */
  lemma {:induction false} QueuedJobIsServed(b: Backend, s: State)
    requires Reachable(b, s) && !s.shutdown && s.jobs != []
    ensures || s.notifies > 0
            || (exists i: nat :: i < |s.workers| && s.workers[i].Idle?)
            || (forall i :: 0 <= i < |s.workers| ==> s.workers[i].Running? || s.workers[i].Signalling?)
  {
    ReachableInv(b, s);
    if s.notifies == 0 && forall i: nat :: i < |s.workers| ==> !s.workers[i].Idle? {
      TallyConstant(s.workers, 0, IsIdle);
      assert !AnyParked(s);
    }
  }

  /** A completion reports a backend's reply to a job: success with its text, or an error that says why. */
  predicate Reports(c: Completion, job: Job, r: Reply) {
    && c.id == job.id
    && (c.ok <==> r.outcome.Ok?)
    && c.reply == (if r.outcome.Ok? then r.text else "")
    && (r.outcome.Ok? ==> c.err == "")
    && (r.outcome.Failed? ==> c.err == r.text)
    && (r.outcome.NotFound? ==> c.err == "unknown gocvm topic '" + job.topic + "'")
  }

  lemma {:induction false} CompletionIff(c: Completion, job: Job, r: Reply)
    ensures c == Complete(job, r) <==> Reports(c, job, r)
  {
  }

  /** What is handed out is the backend's answer to that very submission, once, and jobs start in submission order. */
  lemma {:induction false} DeliveredIsOwnAnswer(b: Backend, s: State, k: nat)
    requires Reachable(b, s) && k < |s.delivered|
    ensures |s.submitted| == s.nextId >= |s.jobs|
    ensures var c := s.delivered[k];
            && 1 <= c.id <= s.nextId
            && s.submitted[c.id - 1].id == c.id
            && Reports(c, s.submitted[c.id - 1], b(s.submitted[c.id - 1]))
            && Carrying(s.delivered, c.id) == 1 && Carrying(s.results, c.id) == 0 && InFlight(s.workers, c.id) == 0
    ensures s.jobs == s.submitted[s.nextId - |s.jobs|..]
  {
    ReachableInv(b, s);
    var c := s.delivered[k];
    CarriedAt(s.delivered, k);
    CompletionIff(c, s.submitted[c.id - 1], b(s.submitted[c.id - 1]));
    assert Copies(s, c.id) <= 1;
  }

  lemma {:induction false} CarriedAt(cs: seq<Completion>, k: nat)
    requires k < |cs|
    ensures Carrying(cs, cs[k].id) >= 1
  {
    if k > 0 {
      CarriedAt(cs[1..], k - 1);
    }
  }

  // ---------- the bridge object ----------

  /** The outcome of a worker's critical section. */
  datatype Decision = Park | Leave | Take(job: Job)

  /** Steps between critical sections: notifications, wakeups, and a thread's entry into `WaitOne`. */
  predicate BetweenSections(step: Step) {
    || step.Notify? || step.Signal? || step.Broadcast?
    || step.WakeSpuriously? || step.WakeWaiterSpuriously? || step.WaitEnter?
  }

  /**
    The fields of `AsyncSapiBridge` and its critical sections, one method each;
    `model` adds the threads' positions and follows every step of the code.
   */
  class AsyncSapiBridge {
    const backend: Backend
    var jobs: seq<Job>
    var results: seq<Completion>
    var nextId: nat
    var shutdown: bool
    ghost var model: State

    ghost predicate Valid()
      reads this
    {
      && jobs == model.jobs && results == model.results && nextId == model.nextId && shutdown == model.shutdown
      && Inv(backend, model)
    }

    constructor (backend: Backend)
      ensures Valid() && this.backend == backend && model == Init()
    {
      this.backend := backend;
      jobs, results, nextId, shutdown := [], [], 0, false;
      model := Init();
      InitInv(backend);
    }

    /** A step that touches no field: it only moves threads. */
    ghost method Move(step: Step)
      requires Valid() && Enabled(model, step) && BetweenSections(step)
      modifies `model
      ensures Valid() && model == Apply(backend, old(model), step)
    {
      StepInv(backend, model, step);
      model := Apply(backend, model, step);
    }

    /** `Submit` up to its unlock; `notify_one` is a step of its own. */
    method SubmitLocked(topic: string, payload: string) returns (id: nat)
      requires Valid()
      modifies this
      ensures Valid() && model == Apply(backend, old(model), Submit(topic, payload))
      ensures id == nextId == old(nextId) + 1
      ensures jobs == old(jobs) + [Job(id, topic, payload)]
      ensures results == old(results) && shutdown == old(shutdown)
    {
      StepInv(backend, model, Submit(topic, payload));
      id := nextId + 1;
      nextId := id;
      jobs := jobs + [Job(id, topic, payload)];
      model := Apply(backend, model, Submit(topic, payload));
    }

    method PollOne() returns (out: Option<Completion>)
      requires Valid()
      modifies this
      ensures Valid() && (out.None? <==> old(results) == [])
      ensures out.None? ==> model == old(model)
      ensures out.Some? ==> old(results) == [out.value] + results && jobs == old(jobs)
      ensures out.Some? ==>
              model == Apply(backend, old(model), Poll) && model.delivered == old(model).delivered + [out.value]
    {
      if results == [] {
        return None;
      }
      StepInv(backend, model, Poll);
      out := Some(results[0]);
      results := results[1..];
      model := Apply(backend, model, Poll);
    }

    /** One pass of `WaitOne` through its predicate: the completion, or None when it parks. */
    method WaitOneLocked() returns (out: Option<Completion>)
      requires Valid() && Enabled(model, WaitCheck)
      modifies this
      ensures Valid() && model == Apply(backend, old(model), WaitCheck)
      ensures out.Some? <==> old(results) != []
      ensures old(results) == (if out.Some? then [out.value] else []) + results && jobs == old(jobs)
      ensures out.Some? ==> model.delivered == old(model).delivered + [out.value]
    {
      StepInv(backend, model, WaitCheck);
      if results != [] {
        out := Some(results[0]);
        results := results[1..];
      } else {
        out := None;
      }
      model := Apply(backend, model, WaitCheck);
    }

    /** A worker's pass through its wait predicate and the code up to the unlock. */
    method WorkerLocked(ghost w: nat) returns (d: Decision)
      requires Valid() && Enabled(model, Check(w))
      modifies this
      ensures Valid() && model == Apply(backend, old(model), Check(w))
      ensures old(jobs) == (if d.Take? then [d.job] else []) + jobs && results == old(results)
      ensures d.Park? <==> old(jobs) == [] && !shutdown
      ensures d.Leave? <==> old(jobs) == [] && shutdown
      ensures model.workers[w] == match d case Park => Worker.Parked case Leave => Exited case Take(job) => Running(job)
    {
      StepInv(backend, model, Check(w));
      if !(shutdown || jobs != []) {
        d := Park;
      } else if jobs == [] {
        d := Leave;
      } else {
        d := Take(jobs[0]);
        jobs := jobs[1..];
      }
      model := Apply(backend, model, Check(w));
    }

    /** The backend call, the branch on its outcome and the push of the completion. */
    method WorkerFinish(ghost w: nat, job: Job)
      requires Valid() && Enabled(model, Finish(w)) && model.workers[w].job == job
      modifies this
      ensures Valid() && model == Apply(backend, old(model), Finish(w))
      ensures |results| == |old(results)| + 1 && old(results) <= results
      ensures Reports(results[|old(results)|], job, backend(job))
      ensures jobs == old(jobs) && nextId == old(nextId) && shutdown == old(shutdown)
    {
      StepInv(backend, model, Finish(w));
      var r := backend(job);
      var c := Completion(job.id, false, "", "");
      if r.outcome == NotFound {
        c := c.(err := "unknown gocvm topic '" + job.topic + "'");
      } else if r.outcome == Ok {
        c := c.(ok := true, reply := r.text);
      } else {
        c := c.(err := r.text);
      }
      results := results + [c];
      model := Apply(backend, model, Finish(w));
    }

    /** The destructor's critical section; `notify_all` and the joins follow as steps of their own. */
    method SetShutdown()
      requires Valid() && !shutdown
      modifies this
      ensures Valid() && model == Apply(backend, old(model), Shutdown)
    {
      StepInv(backend, model, Shutdown);
      shutdown := true;
      model := Apply(backend, model, Shutdown);
    }
  }
}