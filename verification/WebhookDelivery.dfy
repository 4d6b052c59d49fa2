/**
 The delivery workers (workers/webhook_delivery.py) over the queue, as a state machine.

 Any number of workers run any number of tasks.  A task may vanish between any two Redis commands (crash,
 cancellation, a failed command), an entry may be dispatched again at any time after it was first delivered
 (own-pending recovery, stale claims), and a promotion may act on a list read arbitrarily long ago.
*/
module WebhookDelivery {
  import opened Outcomes
  import opened Arithmetic
  import opened WebhookQueue

  type TaskId = nat
  type Worker = nat

  /** What the handler did.  An outcome that is none of the three leaves the entry alone. */
  datatype Outcome = Success | Retry(retryIn: Option<int>) | DeadLetter(reason: Option<string>) | Raised | Unknown

  /** Where a dispatched task stands: handler running, or the next Redis command it owes. */
  datatype Stage =
    | Running
    | Rescheduling(delay: int)
    | Burying(reason: string)
    | Acking

  datatype Task = Task(id: nat, payload: Payload, stage: Stage)

  datatype State = State(
    queue: Queue,
    tasks: map<TaskId, Task>,
    fetched: map<Worker, seq<Payload>>,
    enqueued: set<Message>,
    succeeded: set<Message>)

  datatype Step =
    | Produce(payload: Payload)
    | Fetch(worker: Worker, due: seq<Payload>, now: int)
    | Promote(worker: Worker)
    | Deliver(worker: Worker, count: nat)
    | Claim(worker: Worker, ids: set<nat>)
    | AckBroken(id: nat)
    | Dispatch(task: TaskId, id: nat)
    | Return(task: TaskId, outcome: Outcome)
    | Reschedule(task: TaskId, now: int)
    | BuryDead(task: TaskId)
    | AckTask(task: TaskId)
    | Vanish(task: TaskId)
    | WorkerCrash(worker: Worker)

  /** The stage a handler's outcome leads to; None when nothing is left to do. */
  function After(outcome: Outcome): Option<Stage> {
    match outcome
    case Success => Some(Acking)
    case Retry(d) => Some(Rescheduling(if d.None? then 60 else d.value))
    case Raised => Some(Rescheduling(60))
    case DeadLetter(r) => Some(Burying(if r.None? || r.value == "" then "unspecified" else r.value))
    case Unknown => None
  }

  predicate Enabled(s: State, step: Step) {
    match step
    case Produce(_) => true
    case Fetch(_, due, now) => forall i | 0 <= i < |due| :: due[i] in s.queue.delayed && s.queue.delayed[due[i]] <= now
    case Promote(w) => w in s.fetched
    case Deliver(_, n) => s.queue.cursor + n <= |s.queue.main|
    case Claim(_, ids) => true
    case AckBroken(id) => id < s.queue.cursor && id < |s.queue.main| && s.queue.main[id].Malformed?
    case Dispatch(t, id) => t !in s.tasks && id < s.queue.cursor && id < |s.queue.main| && s.queue.main[id].Carries?
    case Return(t, _) => t in s.tasks && s.tasks[t].stage.Running?
    case Reschedule(t, _) => t in s.tasks && s.tasks[t].stage.Rescheduling?
    case BuryDead(t) => t in s.tasks && s.tasks[t].stage.Burying?
    case AckTask(t) => t in s.tasks && s.tasks[t].stage.Acking?
    case Vanish(_) => true
    case WorkerCrash(_) => true
  }

  function SetStage(s: State, t: TaskId, stage: Stage): State
    requires t in s.tasks
  {
    s.(tasks := s.tasks[t := s.tasks[t].(stage := stage)])
  }

  function Apply(s: State, step: Step): State
    requires Enabled(s, step)
  {
    match step
    case Produce(p) => s.(queue := s.queue.Enqueue(p), enqueued := s.enqueued + {p.message})
    case Fetch(w, due, _) => s.(fetched := s.fetched[w := due])
    case Promote(w) => s.(queue := s.queue.Promote(s.fetched[w]), fetched := s.fetched - {w})
    case Deliver(w, n) => s.(queue := s.queue.Deliver(w, n))
    case Claim(w, ids) => s.(queue := s.queue.Claim(w, ids))
    case AckBroken(id) => s.(queue := s.queue.Ack(id))
    case Dispatch(t, id) => s.(tasks := s.tasks[t := Task(id, s.queue.main[id].payload, Running)])
    case Return(t, outcome) =>
      var s1 := if After(outcome).None? then s.(tasks := s.tasks - {t}) else SetStage(s, t, After(outcome).value);
      if outcome.Success? then s1.(succeeded := s1.succeeded + {s.tasks[t].payload.message}) else s1
    case Reschedule(t, now) =>
      var runAt := now + Max(1, s.tasks[t].stage.delay);
      SetStage(s, t, Acking).(queue := s.queue.EnqueueDelayed(s.tasks[t].payload.Requeued(), runAt))
    case BuryDead(t) => SetStage(s, t, Acking).(queue := s.queue.Bury(s.tasks[t].payload, s.tasks[t].stage.reason))
    case AckTask(t) => s.(queue := s.queue.Ack(s.tasks[t].id), tasks := s.tasks - {t})
    case Vanish(t) => s.(tasks := s.tasks - {t})
    case WorkerCrash(w) => s.(fetched := s.fetched - {w})
  }

  // ---------------------------------------------------------------- one uninterrupted dispatch

  /** The queue after one handler outcome was reconciled without interruption. */
  function Settled(q: Queue, id: nat, p: Payload, outcome: Outcome, now: int): Queue {
    match outcome
    case Success => q.Ack(id)
    case Retry(d) => q.EnqueueDelayed(p.Requeued(), now + Max(1, if d.None? then 60 else d.value)).Ack(id)
    case Raised => q.EnqueueDelayed(p.Requeued(), now + 60).Ack(id)
    case DeadLetter(r) => q.Bury(p, if r.None? || r.value == "" then "unspecified" else r.value).Ack(id)
    case Unknown => q
  }

  /** _dispatch_one after the handler returned (or raised) `outcome`. */
  method DispatchOne(queue: RedisQueue, id: nat, payload: Payload, result: Outcome, now: int)
    modifies queue
    ensures queue.View() == Settled(old(queue.View()), id, payload, result, now)
    ensures queue.main == old(queue.main) && queue.cursor == old(queue.cursor)
    ensures queue.pending == if result.Unknown? then old(queue.pending) else old(queue.pending) - {id}
    ensures result.Raised? || result.Retry? ==>
              var wait := if result.Raised? || result.retryIn.None? then 60 else Max(1, result.retryIn.value);
              var attempt := if payload.attemptNumber.None? then 1 else payload.attemptNumber.value;
              queue.delayed == old(queue.delayed)[Payload(payload.message, Some(attempt + 1)) := now + wait]
    ensures !result.Raised? && !result.Retry? ==> queue.delayed == old(queue.delayed)
    ensures result.DeadLetter? ==>
              var reason := if result.reason.None? || result.reason.value == "" then "unspecified" else result.reason.value;
              queue.dlq == old(queue.dlq) + [Dead(payload, reason)]
    ensures !result.DeadLetter? ==> queue.dlq == old(queue.dlq)
  {
    var outcome := if result.Raised? then Retry(Some(60)) else result;
    if outcome.Success? {
      queue.Ack(id);
      return;
    }
    if outcome.Retry? {
      var delay := if outcome.retryIn.None? then 60 else outcome.retryIn.value;
      var runAt := now + Max(1, delay);
      queue.EnqueueDelayed(payload.Requeued(), runAt);
      queue.Ack(id);
      return;
    }
    if outcome.DeadLetter? {
      var reason := if outcome.reason.None? || outcome.reason.value == "" then "unspecified" else outcome.reason.value;
      queue.MoveToDlq(id, payload, reason);
    }
  }

  /** The steps one task takes for an outcome, one Redis command each. */
  function TaskSteps(t: TaskId, id: nat, outcome: Outcome, now: int): seq<Step> {
    [Dispatch(t, id), Return(t, outcome)] +
    match outcome
    case Success => [AckTask(t)]
    case Retry(_) => [Reschedule(t, now), AckTask(t)]
    case Raised => [Reschedule(t, now), AckTask(t)]
    case DeadLetter(_) => [BuryDead(t), AckTask(t)]
    case Unknown => []
  }

  /** The state after a list of steps, None once a step is not enabled. */
  function Perform(s: State, steps: seq<Step>): Option<State>
    decreases |steps|
  {
    if steps == [] then Some(s)
    else if !Enabled(s, steps[0]) then None
    else Perform(Apply(s, steps[0]), steps[1..])
  }

  lemma PerformFirst(s: State, step: Step, rest: seq<Step>)
    requires Enabled(s, step)
    ensures Perform(s, [step] + rest) == Perform(Apply(s, step), rest)
  {
    assert ([step] + rest)[1..] == rest;
  }

  /** The state a task started in `s` leaves behind once its outcome is reconciled. */
  function SettledState(s: State, id: nat, outcome: Outcome, now: int): State
    requires id < |s.queue.main| && s.queue.main[id].Carries?
  {
    var p := s.queue.main[id].payload;
    s.(queue := Settled(s.queue, id, p, outcome, now),
       succeeded := if outcome.Success? then s.succeeded + {p.message} else s.succeeded)
  }

  /** The last command acks the entry and ends the task. */
  lemma LastStep(s: State, t: TaskId, others: map<TaskId, Task>)
    requires t in s.tasks && s.tasks[t].stage.Acking? && t !in others && s.tasks == others[t := s.tasks[t]]
    ensures Perform(s, [AckTask(t)]) == Some(s.(tasks := others, queue := s.queue.Ack(s.tasks[t].id)))
  {
    assert s.tasks - {t} == others;
    PerformFirst(s, AckTask(t), []);
    assert [AckTask(t)] + [] == [AckTask(t)];
  }

  /** The two last commands of a task that has something to write before it acks. */
  lemma LastTwo(s: State, t: TaskId, step: Step, others: map<TaskId, Task>)
    requires Enabled(s, step) && (step.Reschedule? || step.BuryDead?) && step.task == t
    requires t !in others && s.tasks == others[t := s.tasks[t]]
    ensures Perform(s, [step, AckTask(t)]) ==
            Some(s.(tasks := others, queue := Apply(s, step).queue.Ack(s.tasks[t].id)))
  {
    PerformFirst(s, step, [AckTask(t)]);
    assert [step, AckTask(t)] == [step] + [AckTask(t)];
    LastStep(Apply(s, step), t, others);
  }

  /** From the handler's return on. */
  lemma ReturnSettles(s: State, t: TaskId, id: nat, outcome: Outcome, now: int)
    requires Enabled(s, Dispatch(t, id))
    ensures Perform(Apply(Apply(s, Dispatch(t, id)), Return(t, outcome)), TaskSteps(t, id, outcome, now)[2..]) ==
            Some(SettledState(s, id, outcome, now))
  {
    var s2 := Apply(Apply(s, Dispatch(t, id)), Return(t, outcome));
    match outcome
    case Success => LastStep(s2, t, s.tasks);
    case Retry(_) => LastTwo(s2, t, Reschedule(t, now), s.tasks);
    case Raised => LastTwo(s2, t, Reschedule(t, now), s.tasks);
    case DeadLetter(_) => LastTwo(s2, t, BuryDead(t), s.tasks);
    case Unknown => assert s2.tasks == s.tasks;
  }

  /** A task that nothing interrupts reaches what DispatchOne computes: the machine's steps are the code's. */
  lemma UninterruptedTaskSettles(s: State, t: TaskId, id: nat, outcome: Outcome, now: int)
    requires Enabled(s, Dispatch(t, id))
    ensures Perform(s, TaskSteps(t, id, outcome, now)) == Some(SettledState(s, id, outcome, now))
  {
    var steps := TaskSteps(t, id, outcome, now);
    assert steps == [Dispatch(t, id)] + steps[1..] && steps[1..] == [Return(t, outcome)] + steps[2..];
    PerformFirst(s, Dispatch(t, id), steps[1..]);
    PerformFirst(Apply(s, Dispatch(t, id)), Return(t, outcome), steps[2..]);
    ReturnSettles(s, t, id, outcome, now);
  }

  /** What the machine's other steps do: a reclaim hands entries over, broken text is acked, a task or a worker is gone. */
  lemma OtherSteps(s: State, w: Worker, ids: set<nat>, id: nat, t: TaskId)
    ensures var claimed := Apply(s, Claim(w, ids));
            && claimed == s.(queue := s.queue.(pending := claimed.queue.pending))
            && claimed.queue.pending.Keys == s.queue.pending.Keys
            && forall k | k in s.queue.pending :: claimed.queue.pending[k] == if k in ids then w else s.queue.pending[k]
    ensures Enabled(s, AckBroken(id)) ==> Apply(s, AckBroken(id)) == s.(queue := s.queue.(pending := s.queue.pending - {id}))
    ensures Apply(s, Vanish(t)) == s.(tasks := s.tasks - {t})
    ensures Apply(s, WorkerCrash(w)) == s.(fetched := s.fetched - {w})
  {
  }

  // ---------------------------------------------------------------- a retry waits

  /** The steps can be taken one after another, and none of them schedules this payload. */
  predicate Untouched(s: State, steps: seq<Step>, p: Payload)
    decreases |steps|
  {
    steps == []
    || (Enabled(s, steps[0]) && !(steps[0].Reschedule? && s.tasks[steps[0].task].payload.Requeued() == p)
        && Untouched(Apply(s, steps[0]), steps[1..], p))
  }

  lemma {:induction false} ScoreStays(s: State, steps: seq<Step>, p: Payload, runAt: int)
    requires Untouched(s, steps, p) && (p in s.queue.delayed ==> s.queue.delayed[p] == runAt)
    ensures var t := Perform(s, steps);
            t.Some? && (p in t.value.queue.delayed ==> t.value.queue.delayed[p] == runAt)
    decreases |steps|
  {
    if steps != [] { ScoreStays(Apply(s, steps[0]), steps[1..], p, runAt); }
  }

  /** A rescheduled attempt is not fetched for promotion before its delay, of at least a second, is over. */
  lemma RetryWaits(s: State, t: TaskId, now: int, steps: seq<Step>, w: Worker, due: seq<Payload>, later: int)
    requires Enabled(s, Reschedule(t, now)) && s.tasks[t].payload.Requeued() in due
    requires Untouched(Apply(s, Reschedule(t, now)), steps, s.tasks[t].payload.Requeued())
    ensures var r := Perform(Apply(s, Reschedule(t, now)), steps);
            r.Some? && (Enabled(r.value, Fetch(w, due, later)) ==> later >= now + s.tasks[t].stage.delay && later > now)
  {
    var p := s.tasks[t].payload.Requeued();
    ScoreStays(Apply(s, Reschedule(t, now)), steps, p, now + Max(1, s.tasks[t].stage.delay));
    var i :| 0 <= i < |due| && due[i] == p;
  }

  // ---------------------------------------------------------------- conservation

  /** The entry holds some attempt of message `m`. */
  predicate Holds(e: Entry, m: Message) { e.Carries? && e.payload.message == m }

  ghost predicate Unread(q: Queue, m: Message) {
    exists id | q.cursor <= id < |q.main| :: Holds(q.main[id], m)
  }

  ghost predicate Scheduled(q: Queue, m: Message) { exists p | p in q.delayed :: p.message == m }

  ghost predicate Buried(q: Queue, m: Message) { exists k | 0 <= k < |q.dlq| :: q.dlq[k].payload.message == m }

  ghost predicate Pending(q: Queue, m: Message) {
    exists id | id in q.pending :: id < |q.main| && Holds(q.main[id], m)
  }

  /** Where an enqueued message is promised to be. */
  ghost predicate Present(s: State, m: Message) {
    Unread(s.queue, m) || Pending(s.queue, m) || Scheduled(s.queue, m) || Buried(s.queue, m) || m in s.succeeded
  }

  /** Some task is about to ack the entry. */
  ghost predicate Doomed(s: State, id: nat) {
    exists t | t in s.tasks :: s.tasks[t].id == id && s.tasks[t].stage.Acking?
  }

  ghost predicate PendingSafely(s: State, m: Message) {
    exists id | id in s.queue.pending :: id < |s.queue.main| && Holds(s.queue.main[id], m) && !Doomed(s, id)
  }

  /** The inductive form: a pending entry counts only while no task is about to ack it. */
  ghost predicate Safe(s: State, m: Message) {
    Unread(s.queue, m) || PendingSafely(s, m) || Scheduled(s.queue, m) || Buried(s.queue, m) || m in s.succeeded
  }

  predicate TaskOk(q: Queue, task: Task) {
    task.id < q.cursor && task.id < |q.main| && q.main[task.id] == Carries(task.payload)
  }

  ghost predicate Inv(s: State) {
    && s.queue.Valid()
    && (forall t | t in s.tasks :: TaskOk(s.queue, s.tasks[t]))
    && (forall m | m in s.enqueued :: Safe(s, m))
  }

  lemma ValidKept(s: State, step: Step)
    requires Inv(s) && Enabled(s, step)
    ensures Apply(s, step).queue.Valid()
    ensures forall t | t in Apply(s, step).tasks :: TaskOk(Apply(s, step).queue, Apply(s, step).tasks[t])
  {
  }

  lemma SafeKept(s: State, step: Step, m: Message)
    requires Inv(s) && Enabled(s, step) && Safe(s, m)
    ensures Safe(Apply(s, step), m)
  {
    var s' := Apply(s, step);
    if m in s.succeeded {
    } else if Buried(s.queue, m) {
      var k :| 0 <= k < |s.queue.dlq| && s.queue.dlq[k].payload.message == m;
      assert s'.queue.dlq[k] == s.queue.dlq[k];
    } else if Scheduled(s.queue, m) {
      ScheduledKept(s, step, m);
    } else if Unread(s.queue, m) {
      UnreadKept(s, step, m);
    } else {
      PendingKept(s, step, m);
    }
  }

  lemma ScheduledKept(s: State, step: Step, m: Message)
    requires Enabled(s, step) && Scheduled(s.queue, m) && s.queue.Valid()
    ensures Safe(Apply(s, step), m)
  {
    var s' := Apply(s, step);
    var p :| p in s.queue.delayed && p.message == m;
    if step.Promote? && p in s.fetched[step.worker] {
      var due := s.fetched[step.worker];
      var i :| 0 <= i < |due| && due[i] == p;
      assert Holds(s'.queue.main[|s.queue.main| + i], m);
      assert Unread(s'.queue, m);
    } else {
      assert p in s'.queue.delayed;
    }
  }

  lemma UnreadKept(s: State, step: Step, m: Message)
    requires Inv(s) && Enabled(s, step) && Unread(s.queue, m)
    ensures Safe(Apply(s, step), m)
  {
    var s' := Apply(s, step);
    var id :| s.queue.cursor <= id < |s.queue.main| && Holds(s.queue.main[id], m);
    assert s'.queue.main[id] == s.queue.main[id];
    if step.Deliver? && id < s'.queue.cursor {
      assert id in Range(s.queue.cursor, step.count);
      assert id in s'.queue.pending && !Doomed(s', id);
    }
  }

  lemma PendingKept(s: State, step: Step, m: Message)
    requires Inv(s) && Enabled(s, step) && PendingSafely(s, m)
    ensures Safe(Apply(s, step), m)
  {
    var s' := Apply(s, step);
    var id :| id in s.queue.pending && id < |s.queue.main| && Holds(s.queue.main[id], m) && !Doomed(s, id);
    assert s'.queue.main[id] == s.queue.main[id];
    match step
    case Return(t, outcome) =>
      assert outcome.Success? && s.tasks[t].id == id ==> m in s'.succeeded;
      assert !(outcome.Success? && s.tasks[t].id == id) ==> !Doomed(s', id);
    case Reschedule(t, now) =>
      if s.tasks[t].id == id {
        assert s.tasks[t].payload.Requeued() in s'.queue.delayed;
      } else {
        assert !Doomed(s', id);
      }
    case BuryDead(t) =>
      if s.tasks[t].id == id {
        assert s'.queue.dlq[|s.queue.dlq|].payload.message == m;
      } else {
        assert !Doomed(s', id);
      }
    case AckTask(t) =>
      assert s.tasks[t].id != id;
      assert !Doomed(s', id);
    case _ =>
      assert id in s'.queue.pending && !Doomed(s', id);
  }

  lemma StepKeepsInv(s: State, step: Step)
    requires Inv(s) && Enabled(s, step)
    ensures Inv(Apply(s, step))
  {
    var s' := Apply(s, step);
    ValidKept(s, step);
    forall m | m in s'.enqueued ensures Safe(s', m) {
      if m in s.enqueued {
        SafeKept(s, step, m);
      } else {
        assert Holds(s'.queue.main[|s.queue.main|], m);
      }
    }
  }

  predicate Takes(s: State, step: Step, s': State) { Enabled(s, step) && s' == Apply(s, step) }

  ghost predicate Follows(s: State, s': State) { exists step :: Takes(s, step, s') }

  ghost predicate IsRun(run: seq<State>) { forall i | 0 < i < |run| :: Follows(run[i - 1], run[i]) }

  const START := State(Queue([], 0, map[], map[], []), map[], map[], {}, {})

  /**
   No message is lost: in every run of any number of workers, every message ever enqueued is unread on the
   main stream, pending, scheduled for retry, dead-lettered, or was reported delivered by the handler.
  */
  lemma {:induction false} NoMessageLost(run: seq<State>, k: nat)
    requires k < |run| && IsRun(run) && run[0] == START
    ensures Inv(run[k]) && forall m | m in run[k].enqueued :: Present(run[k], m)
  {
    if k > 0 {
      NoMessageLost(run, k - 1);
      var s, s' := run[k - 1], run[k];
      assert Follows(s, s');
      var step :| Takes(s, step, s');
      StepKeepsInv(s, step);
    }
    forall m | m in run[k].enqueued ensures Present(run[k], m) {
      assert Safe(run[k], m);
    }
  }
}
