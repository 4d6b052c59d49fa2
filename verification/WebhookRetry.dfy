/**
 Retry progress: one worker, no crash, no reclaim, and a handler that never raises and asks for a retry only
 while the schedule has one left (services/webhooks/retry_schedule.py).
*/
module WebhookRetry {
  import opened Outcomes
  import opened RetrySchedule
  import opened WebhookQueue
  import opened WebhookDelivery

  /**
   The machine with its history: entries dispatched, entries whose task has rescheduled or buried its payload,
   and the entries whose handler returned, in order.
  */
  datatype Solo = Solo(s: State, dispatched: set<nat>, moved: set<nat>, log: seq<nat>)

  const SOLO_START := Solo(START, {}, {}, [])

  predicate SoloEnabled(x: Solo, step: Step) {
    Enabled(x.s, step) &&
    match step
    case Produce(p) => p.message !in x.s.enqueued && p == Payload(p.message, Some(1))
    case Fetch(w, due, _) =>
      w == 0 && 0 !in x.s.fetched && due != [] && forall i, j | 0 <= i < j < |due| :: due[i] != due[j]
    case Promote(w) => w == 0
    case Deliver(w, n) => w == 0 && n > 0
    case Dispatch(t, id) => t == id && id !in x.dispatched
    case Return(t, outcome) =>
      || outcome.Success? || outcome.DeadLetter?
      || (outcome.Retry? && x.s.tasks[t].payload.Attempt() < MAX_ATTEMPTS)
    case Reschedule(_, _) => true
    case BuryDead(_) => true
    case AckTask(_) => true
    case _ => false
  }

  function SoloApply(x: Solo, step: Step): Solo
    requires SoloEnabled(x, step)
  {
    var y := x.(s := Apply(x.s, step));
    match step
    case Dispatch(_, id) => y.(dispatched := x.dispatched + {id})
    case Return(t, _) => y.(log := x.log + [t])
    case Reschedule(t, _) => y.(moved := x.moved + {t})
    case BuryDead(t) => y.(moved := x.moved + {t})
    case _ => y
  }

  // ---------------------------------------------------------------- the invariant

  predicate StreamOk(q: Queue, enqueued: set<Message>) {
    forall i | 0 <= i < |q.main| ::
      q.main[i].Carries? && q.main[i].payload.attemptNumber.Some? && 1 <= q.main[i].payload.Attempt() <= MAX_ATTEMPTS
      && q.main[i].payload.message in enqueued
  }

  /** No attempt of a message is on the stream twice. */
  predicate OncePerAttempt(q: Queue) {
    forall i, j | 0 <= i < j < |q.main| :: q.main[i] != q.main[j]
  }

  predicate DelayedOk(q: Queue, enqueued: set<Message>) {
    forall p | p in q.delayed ::
      && p.attemptNumber.Some? && 2 <= p.Attempt() <= MAX_ATTEMPTS && p.message in enqueued
      && Carries(p) !in q.main
  }

  predicate FetchedOk(s: State) {
    && (forall w | w in s.fetched :: w == 0)
    && (0 in s.fetched ==> forall i | 0 <= i < |s.fetched[0]| :: s.fetched[0][i] in s.queue.delayed)
    && (0 in s.fetched ==> forall i, j | 0 <= i < j < |s.fetched[0]| :: s.fetched[0][i] != s.fetched[0][j])
    && (0 in s.fetched ==> s.fetched[0] != [])
  }

  function Previous(p: Payload): Payload { Payload(p.message, Some(p.Attempt() - 1)) }

  /** The attempt before `p` was dispatched and has handed `p` on. */
  predicate HasParent(x: Solo, p: Payload) {
    exists i | i in x.moved :: i < |x.s.queue.main| && x.s.queue.main[i] == Carries(Previous(p))
  }

  predicate ParentsOk(x: Solo) {
    && (forall p | p in x.s.queue.delayed :: HasParent(x, p))
    && (forall i | 0 <= i < |x.s.queue.main| && x.s.queue.main[i].Carries? && x.s.queue.main[i].payload.Attempt() > 1 ::
          HasParent(x, x.s.queue.main[i].payload))
  }

  predicate TasksOk(x: Solo) {
    && (forall id | id in x.dispatched :: id < x.s.queue.cursor)
    && x.moved <= x.dispatched
    && (forall t | t in x.s.tasks :: t in x.dispatched && SoloTaskOk(x, t, x.s.tasks[t]))
    && (forall id | id in x.s.queue.pending && id in x.dispatched :: id in x.s.tasks)
  }

  predicate SoloTaskOk(x: Solo, t: TaskId, task: Task) {
    && task.id == t
    && (t in x.moved ==> task.stage.Acking?)
    && (task.stage.Rescheduling? ==> task.payload.Attempt() < MAX_ATTEMPTS)
  }

  predicate LogOk(x: Solo) {
    && (forall k | 0 <= k < |x.log| :: x.log[k] in x.dispatched && (x.log[k] in x.s.tasks ==> !x.s.tasks[x.log[k]].stage.Running?))
    && (forall j, k | 0 <= j < k < |x.log| :: x.log[j] != x.log[k])
  }

  ghost predicate SoloInv(x: Solo) {
    Inv(x.s) && QueueInv(x) && TasksOk(x) && LogOk(x)
  }

  /** The part of the invariant about what is in the queue. */
  predicate QueueInv(x: Solo) {
    && StreamOk(x.s.queue, x.s.enqueued) && OncePerAttempt(x.s.queue) && DelayedOk(x.s.queue, x.s.enqueued)
    && FetchedOk(x.s) && ParentsOk(x)
  }

  // ---------------------------------------------------------------- steps that only touch tasks

  lemma QueueUntouched(x: Solo, y: Solo)
    requires QueueInv(x) && y.s.queue.main == x.s.queue.main && y.s.queue.delayed == x.s.queue.delayed
    requires y.s.fetched == x.s.fetched && y.s.enqueued == x.s.enqueued && x.moved <= y.moved
    ensures QueueInv(y)
  {
    forall p | HasParent(x, p) ensures HasParent(y, p) { ParentKept(x, y, p); }
  }

  lemma DeliverKept(x: Solo, n: nat)
    requires SoloInv(x) && SoloEnabled(x, Deliver(0, n))
    ensures SoloInv(SoloApply(x, Deliver(0, n)))
  {
    var y := SoloApply(x, Deliver(0, n));
    StepKeepsInv(x.s, Deliver(0, n));
    QueueUntouched(x, y);
    forall id | id in y.s.queue.pending && id in y.dispatched ensures id in y.s.tasks {
      assert id < x.s.queue.cursor;
      assert id !in Range(x.s.queue.cursor, n);
    }
    assert LogOk(y);
  }

  lemma DispatchTasks(x: Solo, id: nat)
    requires TasksOk(x) && SoloEnabled(x, Dispatch(id, id))
    ensures TasksOk(SoloApply(x, Dispatch(id, id)))
  {
    assert id !in x.moved;
  }

  lemma DispatchLog(x: Solo, id: nat)
    requires LogOk(x) && SoloEnabled(x, Dispatch(id, id))
    ensures LogOk(SoloApply(x, Dispatch(id, id)))
  {
    assert forall k | 0 <= k < |x.log| :: x.log[k] != id;
  }

  lemma DispatchKept(x: Solo, id: nat)
    requires SoloInv(x) && SoloEnabled(x, Dispatch(id, id))
    ensures SoloInv(SoloApply(x, Dispatch(id, id)))
  {
    StepKeepsInv(x.s, Dispatch(id, id));
    QueueUntouched(x, SoloApply(x, Dispatch(id, id)));
    DispatchTasks(x, id);
    DispatchLog(x, id);
  }

  lemma ReturnTasks(x: Solo, t: TaskId, outcome: Outcome)
    requires TasksOk(x) && SoloEnabled(x, Return(t, outcome))
    ensures TasksOk(SoloApply(x, Return(t, outcome)))
  {
    assert t !in x.moved;
  }

  lemma ReturnLog(x: Solo, t: TaskId, outcome: Outcome)
    requires LogOk(x) && t in x.dispatched && SoloEnabled(x, Return(t, outcome))
    ensures LogOk(SoloApply(x, Return(t, outcome)))
  {
    assert forall k | 0 <= k < |x.log| :: x.log[k] != t;
  }

  lemma ReturnKept(x: Solo, t: TaskId, outcome: Outcome)
    requires SoloInv(x) && SoloEnabled(x, Return(t, outcome))
    ensures SoloInv(SoloApply(x, Return(t, outcome)))
  {
    StepKeepsInv(x.s, Return(t, outcome));
    QueueUntouched(x, SoloApply(x, Return(t, outcome)));
    ReturnTasks(x, t, outcome);
    ReturnLog(x, t, outcome);
  }

  lemma BuryTasks(x: Solo, t: TaskId)
    requires TasksOk(x) && LogOk(x) && SoloEnabled(x, BuryDead(t))
    ensures TasksOk(SoloApply(x, BuryDead(t))) && LogOk(SoloApply(x, BuryDead(t)))
  {
  }

  lemma BuryKept(x: Solo, t: TaskId)
    requires SoloInv(x) && SoloEnabled(x, BuryDead(t))
    ensures SoloInv(SoloApply(x, BuryDead(t)))
  {
    StepKeepsInv(x.s, BuryDead(t));
    QueueUntouched(x, SoloApply(x, BuryDead(t)));
    BuryTasks(x, t);
  }

  lemma AckKept(x: Solo, t: TaskId)
    requires SoloInv(x) && SoloEnabled(x, AckTask(t))
    ensures SoloInv(SoloApply(x, AckTask(t)))
  {
    var y := SoloApply(x, AckTask(t));
    StepKeepsInv(x.s, AckTask(t));
    QueueUntouched(x, y);
    assert TasksOk(y);
    assert LogOk(y);
  }

  lemma ParentKept(x: Solo, y: Solo, p: Payload)
    requires HasParent(x, p) && x.moved <= y.moved && x.s.queue.main <= y.s.queue.main
    ensures HasParent(y, p)
  {
    var i :| i in x.moved && i < |x.s.queue.main| && x.s.queue.main[i] == Carries(Previous(p));
    assert i in y.moved && y.s.queue.main[i] == Carries(Previous(p));
  }

  lemma ProduceKept(x: Solo, p: Payload)
    requires SoloInv(x) && SoloEnabled(x, Produce(p))
    ensures SoloInv(SoloApply(x, Produce(p)))
  {
    var y := SoloApply(x, Produce(p));
    StepKeepsInv(x.s, Produce(p));
    forall r | HasParent(x, r) ensures HasParent(y, r) { ParentKept(x, y, r); }
    forall r | r in y.s.queue.delayed ensures Carries(r) !in y.s.queue.main {
      assert r.message != p.message;
    }
  }

  lemma FetchKept(x: Solo, due: seq<Payload>, now: int)
    requires SoloInv(x) && SoloEnabled(x, Fetch(0, due, now))
    ensures SoloInv(SoloApply(x, Fetch(0, due, now)))
  {
    var y := SoloApply(x, Fetch(0, due, now));
    StepKeepsInv(x.s, Fetch(0, due, now));
    forall r | HasParent(x, r) ensures HasParent(y, r) { ParentKept(x, y, r); }
  }

  lemma PromoteOnce(x: Solo)
    requires QueueInv(x) && 0 in x.s.fetched
    ensures OncePerAttempt(x.s.queue.Promote(x.s.fetched[0]))
  {
    var due, m, n := x.s.fetched[0], x.s.queue.main, x.s.queue.Promote(x.s.fetched[0]).main;
    forall i, j | 0 <= i < j < |n| ensures n[i] != n[j] {
      if j >= |m| {
        assert n[j] == Carries(due[j - |m|]) && due[j - |m|] in x.s.queue.delayed;
        if i < |m| { assert n[i] == m[i] && m[i] in m; }
      }
    }
  }

  lemma PromoteDelayed(x: Solo)
    requires QueueInv(x) && 0 in x.s.fetched
    ensures DelayedOk(x.s.queue.Promote(x.s.fetched[0]), x.s.enqueued)
  {
    var due, q := x.s.fetched[0], x.s.queue.Promote(x.s.fetched[0]);
    forall r | r in q.delayed ensures Carries(r) !in q.main {
      assert r in x.s.queue.delayed && r !in due;
      assert forall i | 0 <= i < |due| :: AllCarry(due)[i] != Carries(r);
    }
  }

  lemma PromoteStream(x: Solo, y: Solo)
    requires QueueInv(x) && 0 in x.s.fetched && x.moved <= y.moved
    requires y.s.queue == x.s.queue.Promote(x.s.fetched[0]) && y.s.enqueued == x.s.enqueued
    ensures StreamOk(y.s.queue, y.s.enqueued) && ParentsOk(y)
  {
    var due, m, n := x.s.fetched[0], x.s.queue.main, y.s.queue.main;
    forall r | HasParent(x, r) ensures HasParent(y, r) { ParentKept(x, y, r); }
    forall i | 0 <= i < |n|
      ensures n[i].Carries? && n[i].payload.attemptNumber.Some? && 1 <= n[i].payload.Attempt() <= MAX_ATTEMPTS
      ensures n[i].payload.message in y.s.enqueued && (n[i].payload.Attempt() > 1 ==> HasParent(y, n[i].payload))
    {
      if i < |m| {
        assert n[i] == m[i];
      } else {
        assert n[i] == Carries(due[i - |m|]) && due[i - |m|] in x.s.queue.delayed;
      }
    }
  }

  lemma PromoteKept(x: Solo)
    requires SoloInv(x) && SoloEnabled(x, Promote(0))
    ensures SoloInv(SoloApply(x, Promote(0)))
  {
    var y := SoloApply(x, Promote(0));
    StepKeepsInv(x.s, Promote(0));
    PromoteOnce(x);
    PromoteDelayed(x);
    PromoteStream(x, y);
    assert FetchedOk(y.s);
    assert TasksOk(y) && LogOk(y);
  }

  /** The next attempt is not in the system yet: only this task can hand it on, and it has not. */
  lemma NextAttemptIsNew(x: Solo, t: TaskId)
    requires SoloInv(x) && t in x.s.tasks && x.s.tasks[t].stage.Rescheduling?
    ensures x.s.tasks[t].payload.Requeued() !in x.s.queue.delayed
    ensures Carries(x.s.tasks[t].payload.Requeued()) !in x.s.queue.main
  {
    var p := x.s.tasks[t].payload;
    var r := p.Requeued();
    assert TaskOk(x.s.queue, x.s.tasks[t]);
    assert Previous(r) == p by { assert x.s.queue.main[t].payload.attemptNumber.Some?; }
    assert !HasParent(x, r) by {
      forall i | i in x.moved && i < |x.s.queue.main| ensures x.s.queue.main[i] != Carries(Previous(r)) {
        assert i != t;
        if i < t { assert x.s.queue.main[i] != x.s.queue.main[t]; } else { assert x.s.queue.main[t] != x.s.queue.main[i]; }
      }
    }
    forall i | 0 <= i < |x.s.queue.main| ensures x.s.queue.main[i] != Carries(r) {
      assert r.Attempt() > 1 by { assert x.s.queue.main[t].payload.Attempt() >= 1; }
    }
  }

  lemma RescheduleQueue(x: Solo, t: TaskId, now: int)
    requires SoloInv(x) && SoloEnabled(x, Reschedule(t, now))
    ensures QueueInv(SoloApply(x, Reschedule(t, now)))
  {
    var y := SoloApply(x, Reschedule(t, now));
    var p := x.s.tasks[t].payload;
    NextAttemptIsNew(x, t);
    assert TaskOk(x.s.queue, x.s.tasks[t]) && SoloTaskOk(x, t, x.s.tasks[t]);
    ScheduleNext(x, y, t, p);
  }

  /** Scheduling the next attempt of an entry, once, keeps the queue's part of the invariant. */
  lemma ScheduleNext(x: Solo, y: Solo, t: nat, p: Payload)
    requires QueueInv(x) && t < |x.s.queue.main| && x.s.queue.main[t] == Carries(p) && p.Attempt() < MAX_ATTEMPTS
    requires Carries(p.Requeued()) !in x.s.queue.main
    requires y.s.queue.main == x.s.queue.main && y.s.queue.delayed.Keys == x.s.queue.delayed.Keys + {p.Requeued()}
    requires y.s.fetched == x.s.fetched && y.s.enqueued == x.s.enqueued && y.moved == x.moved + {t}
    ensures QueueInv(y)
  {
    assert p.attemptNumber.Some? && p.message in x.s.enqueued && p.Attempt() >= 1;
    assert DelayedOk(y.s.queue, y.s.enqueued);
    ScheduleParents(x, y, t, p);
  }

  lemma ScheduleParents(x: Solo, y: Solo, t: nat, p: Payload)
    requires ParentsOk(x) && t < |x.s.queue.main| && x.s.queue.main[t] == Carries(p) && p.attemptNumber.Some?
    requires y.s.queue.main == x.s.queue.main && y.s.queue.delayed.Keys == x.s.queue.delayed.Keys + {p.Requeued()}
    requires y.moved == x.moved + {t}
    ensures ParentsOk(y)
  {
    forall r | HasParent(x, r) ensures HasParent(y, r) { ParentKept(x, y, r); }
    assert HasParent(y, p.Requeued()) by { assert t in y.moved; assert Previous(p.Requeued()) == p; }
    assert forall r | r in y.s.queue.delayed :: r in x.s.queue.delayed || r == p.Requeued();
  }

  lemma RescheduleTasks(x: Solo, t: TaskId, now: int)
    requires TasksOk(x) && LogOk(x) && SoloEnabled(x, Reschedule(t, now))
    ensures TasksOk(SoloApply(x, Reschedule(t, now))) && LogOk(SoloApply(x, Reschedule(t, now)))
  {
  }

  lemma RescheduleKept(x: Solo, t: TaskId, now: int)
    requires SoloInv(x) && SoloEnabled(x, Reschedule(t, now))
    ensures SoloInv(SoloApply(x, Reschedule(t, now)))
  {
    StepKeepsInv(x.s, Reschedule(t, now));
    RescheduleQueue(x, t, now);
    RescheduleTasks(x, t, now);
  }

  lemma SoloStepKeepsInv(x: Solo, step: Step)
    requires SoloInv(x) && SoloEnabled(x, step)
    ensures SoloInv(SoloApply(x, step))
  {
    match step
    case Produce(p) => ProduceKept(x, p);
    case Fetch(_, due, now) => FetchKept(x, due, now);
    case Promote(_) => PromoteKept(x);
    case Reschedule(t, now) => RescheduleKept(x, t, now);
    case Deliver(_, n) => DeliverKept(x, n);
    case Dispatch(_, id) => DispatchKept(x, id);
    case Return(t, outcome) => ReturnKept(x, t, outcome);
    case BuryDead(t) => BuryKept(x, t);
    case AckTask(t) => AckKept(x, t);
  }

  // ---------------------------------------------------------------- at most one handler run per attempt

  predicate SoloTakes(x: Solo, step: Step, y: Solo) { SoloEnabled(x, step) && y == SoloApply(x, step) }

  ghost predicate SoloFollows(x: Solo, y: Solo) { exists step :: SoloTakes(x, step, y) }

  ghost predicate IsSoloRun(run: seq<Solo>) {
    |run| > 0 && run[0] == SOLO_START && forall i | 0 < i < |run| :: SoloFollows(run[i - 1], run[i])
  }

  lemma {:induction false} SoloRunInv(run: seq<Solo>, k: nat)
    requires IsSoloRun(run) && k < |run|
    ensures SoloInv(run[k])
  {
    if k > 0 {
      SoloRunInv(run, k - 1);
      var x, y := run[k - 1], run[k];
      assert SoloFollows(x, y);
      var step :| SoloTakes(x, step, y);
      SoloStepKeepsInv(x, step);
    }
  }

  /** The payload whose handler run is the k-th in the log. */
  function Handled(x: Solo, k: nat): Payload
    requires SoloInv(x) && k < |x.log|
  {
    x.s.queue.main[x.log[k]].payload
  }

  /** The handler runs at most once per message and attempt number, and never beyond the last attempt. */
  lemma OneRunPerAttempt(run: seq<Solo>, k: nat)
    requires IsSoloRun(run) && k < |run|
    ensures SoloInv(run[k])
    ensures forall i | 0 <= i < |run[k].log| :: 1 <= Handled(run[k], i).Attempt() <= MAX_ATTEMPTS
    ensures forall i, j | 0 <= i < j < |run[k].log| ::
              Handled(run[k], i).message != Handled(run[k], j).message || Handled(run[k], i).Attempt() != Handled(run[k], j).Attempt()
  {
    SoloRunInv(run, k);
    var x := run[k];
    var main := x.s.queue.main;
    forall i, j | 0 <= i < j < |x.log|
      ensures Handled(x, i).message != Handled(x, j).message || Handled(x, i).Attempt() != Handled(x, j).Attempt()
    {
      var a, b := x.log[i], x.log[j];
      assert a in x.dispatched && b in x.dispatched && a != b;
      if a < b { assert main[a] != main[b]; } else { assert main[b] != main[a]; }
    }
  }

  // ---------------------------------------------------------------- every message settles

  /** Nothing left to promote, deliver, dispatch or finish. */
  predicate Quiet(x: Solo) {
    && x.s.queue.cursor == |x.s.queue.main| && x.s.queue.delayed == map[] && x.s.tasks == map[]
    && forall id | 0 <= id < x.s.queue.cursor :: id in x.dispatched
  }

  /** When the machine is quiet, every message was delivered or dead-lettered. */
  lemma QuietMeansSettled(x: Solo, m: Message)
    requires SoloInv(x) && Quiet(x) && m in x.s.enqueued
    ensures m in x.s.succeeded || Buried(x.s.queue, m)
  {
    assert Safe(x.s, m);
    assert !Unread(x.s.queue, m) && !Scheduled(x.s.queue, m);
    assert forall id | id in x.s.queue.pending :: id in x.s.tasks;
    assert !PendingSafely(x.s, m);
  }

  /** A step the worker takes, as opposed to a producer's enqueue. */
  predicate IsWork(step: Step) { !step.Produce? }

  /** A running task can take its next step. */
  lemma TaskCanMove(x: Solo, t: TaskId)
    requires t in x.s.tasks
    ensures exists step :: SoloEnabled(x, step) && IsWork(step)
  {
    match x.s.tasks[t].stage
    case Running => assert SoloEnabled(x, Return(t, Success));
    case Rescheduling(_) => assert SoloEnabled(x, Reschedule(t, 0));
    case Burying(_) => assert SoloEnabled(x, BuryDead(t));
    case Acking => assert SoloEnabled(x, AckTask(t));
  }

  lemma QueueCanMove(x: Solo)
    requires x.s.queue.cursor < |x.s.queue.main| || x.s.queue.delayed != map[]
    ensures exists step :: SoloEnabled(x, step) && IsWork(step)
  {
    if x.s.queue.cursor < |x.s.queue.main| {
      assert SoloEnabled(x, Deliver(0, 1));
    } else if 0 in x.s.fetched {
      assert SoloEnabled(x, Promote(0));
    } else {
      var p :| p in x.s.queue.delayed;
      assert SoloEnabled(x, Fetch(0, [p], x.s.queue.delayed[p]));
    }
  }

  /** Until the machine is quiet the worker can move, once what is delayed has come due. */
  lemma NotQuietCanMove(x: Solo)
    requires SoloInv(x) && !Quiet(x)
    ensures exists step :: SoloEnabled(x, step) && IsWork(step)
  {
    if t :| t in x.s.tasks {
      TaskCanMove(x, t);
    } else if x.s.queue.cursor < |x.s.queue.main| || x.s.queue.delayed != map[] {
      QueueCanMove(x);
    } else {
      assert x.s.tasks == map[];
      var id :| 0 <= id < x.s.queue.cursor && id !in x.dispatched;
      assert x.s.queue.main[id].Carries?;
      assert SoloEnabled(x, Dispatch(id, id));
    }
  }

  // ---------------------------------------------------------------- the measure

  function Progress(x: Solo): int {
    2 * |x.s.queue.main| + |x.s.fetched| + x.s.queue.cursor + 2 * |x.dispatched| + |x.log| + |x.moved| - |x.s.tasks|
  }

  lemma DispatchGrows(x: Solo, id: nat)
    requires SoloEnabled(x, Dispatch(id, id))
    ensures Progress(SoloApply(x, Dispatch(id, id))) == Progress(x) + 1
  {
    assert SoloApply(x, Dispatch(id, id)).s.tasks.Keys == x.s.tasks.Keys + {id};
  }

  lemma ReturnGrows(x: Solo, t: TaskId, outcome: Outcome)
    requires SoloEnabled(x, Return(t, outcome))
    ensures Progress(SoloApply(x, Return(t, outcome))) == Progress(x) + 1
  {
    assert SoloApply(x, Return(t, outcome)).s.tasks.Keys == x.s.tasks.Keys;
  }

  lemma RescheduleGrows(x: Solo, t: TaskId, now: int)
    requires SoloEnabled(x, Reschedule(t, now)) && t !in x.moved
    ensures Progress(SoloApply(x, Reschedule(t, now))) == Progress(x) + 1
  {
    assert SoloApply(x, Reschedule(t, now)).s.tasks.Keys == x.s.tasks.Keys;
  }

  lemma BuryGrows(x: Solo, t: TaskId)
    requires SoloEnabled(x, BuryDead(t)) && t !in x.moved
    ensures Progress(SoloApply(x, BuryDead(t))) == Progress(x) + 1
  {
    assert SoloApply(x, BuryDead(t)).s.tasks.Keys == x.s.tasks.Keys;
  }

  lemma AckGrows(x: Solo, t: TaskId)
    requires SoloEnabled(x, AckTask(t))
    ensures Progress(SoloApply(x, AckTask(t))) == Progress(x) + 1
  {
    assert SoloApply(x, AckTask(t)).s.tasks.Keys == x.s.tasks.Keys - {t};
  }

  lemma PromoteGrows(x: Solo)
    requires FetchedOk(x.s) && SoloEnabled(x, Promote(0))
    ensures Progress(SoloApply(x, Promote(0))) > Progress(x)
  {
    assert x.s.fetched[0] != [];
    assert SoloApply(x, Promote(0)).s.fetched.Keys == x.s.fetched.Keys - {0};
  }

  lemma FetchGrows(x: Solo, due: seq<Payload>, now: int)
    requires SoloEnabled(x, Fetch(0, due, now))
    ensures Progress(SoloApply(x, Fetch(0, due, now))) == Progress(x) + 1
  {
    assert SoloApply(x, Fetch(0, due, now)).s.fetched.Keys == x.s.fetched.Keys + {0};
  }

  /** Each step of the worker's own raises the measure. */
  lemma ProgressGrows(x: Solo, step: Step)
    requires SoloInv(x) && SoloEnabled(x, step)
    ensures Progress(SoloApply(x, step)) >= Progress(x) + if IsWork(step) then 1 else 0
  {
    match step
    case Dispatch(_, id) => DispatchGrows(x, id);
    case Return(t, outcome) => ReturnGrows(x, t, outcome);
    case Reschedule(t, now) => RescheduleGrows(x, t, now);
    case BuryDead(t) => BuryGrows(x, t);
    case AckTask(t) => AckGrows(x, t);
    case Promote(_) => PromoteGrows(x);
    case Fetch(_, due, now) => FetchGrows(x, due, now);
    case Deliver(_, _) =>
    case Produce(_) =>
  }

  // ---------------------------------------------------------------- and the measure is bounded

  /** The payloads the stream can carry: each enqueued message, each attempt number the schedule allows. */
  function Attempts(ms: set<Message>, max: nat): (r: set<Payload>)
    ensures forall p :: p in r <==> p.message in ms && p.attemptNumber.Some? && 1 <= p.attemptNumber.value <= max
  {
    set m, a | m in ms && 1 <= a <= max :: Payload(m, Some(a))
  }

  lemma {:induction false} AttemptsOfOne(m: Message, max: nat)
    ensures |Attempts({m}, max)| == max
  {
    if max > 0 {
      AttemptsOfOne(m, max - 1);
      assert Attempts({m}, max) == Attempts({m}, max - 1) + {Payload(m, Some(max))};
    } else {
      assert Attempts({m}, max) == {};
    }
  }

  lemma AttemptsSplit(rest: set<Message>, m: Message, max: nat)
    requires m !in rest
    ensures Attempts(rest + {m}, max) == Attempts(rest, max) + Attempts({m}, max)
    ensures Attempts(rest, max) !! Attempts({m}, max)
  {
  }

  lemma UnionSize<T>(a: set<T>, b: set<T>)
    requires a !! b
    ensures |a + b| == |a| + |b|
  {
  }

  lemma AttemptsOfOneMore(rest: set<Message>, m: Message, max: nat)
    requires m !in rest
    ensures |Attempts(rest + {m}, max)| == |Attempts(rest, max)| + max && |rest + {m}| == |rest| + 1
  {
    AttemptsSplit(rest, m, max);
    AttemptsOfOne(m, max);
    UnionSize(Attempts(rest, max), Attempts({m}, max));
    UnionSize(rest, {m});
  }

  lemma OneTimeMore(max: nat, count: nat)
    requires count > 0
    ensures max * count == max * (count - 1) + max
  {
  }

  lemma {:induction false} AttemptsCount(ms: set<Message>, max: nat, count: nat)
    requires |ms| == count
    ensures |Attempts(ms, max)| == max * count
  {
    if count == 0 {
      assert Attempts(ms, max) == {};
    } else {
      var m :| m in ms;
      AttemptsCount(ms - {m}, max, count - 1);
      AttemptsOfOneMore(ms - {m}, m, max);
      assert ms - {m} + {m} == ms;
      OneTimeMore(max, count);
    }
  }

  /** A sequence without repeats is no longer than a set holding its elements. */
  lemma {:induction false} DistinctFits<T(!new)>(s: seq<T>, all: set<T>)
    requires forall i, j | 0 <= i < j < |s| :: s[i] != s[j]
    requires forall i | 0 <= i < |s| :: s[i] in all
    ensures |s| <= |all|
  {
    if s != [] {
      DistinctFits(s[..|s| - 1], all - {s[|s| - 1]});
    }
  }

  /** Ids below `n` are at most `n` in number. */
  lemma {:induction false} IdsBelow(ids: set<nat>, n: nat)
    requires forall id | id in ids :: id < n
    ensures |ids| <= n
  {
    if n > 0 {
      IdsBelow(ids - {n - 1}, n - 1);
      assert |ids| <= |ids - {n - 1}| + 1;
    } else {
      assert ids == {};
    }
  }

  /** The payloads on the stream, without repeats, are among the attempts the schedule allows. */
  lemma StreamBound(x: Solo)
    requires QueueInv(x)
    ensures |x.s.queue.main| <= MAX_ATTEMPTS * |x.s.enqueued|
  {
    var main, all := x.s.queue.main, Attempts(x.s.enqueued, MAX_ATTEMPTS);
    var payloads := seq(|main|, i requires 0 <= i < |main| => main[i].payload);
    forall i, j | 0 <= i < j < |payloads| ensures payloads[i] != payloads[j] {
      assert main[i] != main[j];
    }
    DistinctFits(payloads, all);
    AttemptsCount(x.s.enqueued, MAX_ATTEMPTS, |x.s.enqueued|);
  }

  lemma TaskBound(x: Solo)
    requires TasksOk(x) && LogOk(x) && x.s.queue.Valid()
    ensures |x.moved| <= |x.dispatched| <= |x.s.queue.main| && |x.log| <= |x.dispatched|
  {
    IdsBelow(x.dispatched, x.s.queue.cursor);
    DistinctFits(x.log, x.dispatched);
    assert x.dispatched == x.moved + (x.dispatched - x.moved);
  }

  lemma FetchBound(x: Solo)
    requires FetchedOk(x.s)
    ensures |x.s.fetched| <= 1
  {
    assert x.s.fetched.Keys <= {0};
    assert {0} == x.s.fetched.Keys + ({0} - x.s.fetched.Keys);
  }

  lemma ProgressBound(x: Solo)
    requires SoloInv(x)
    ensures Progress(x) <= 7 * (MAX_ATTEMPTS * |x.s.enqueued|) + 1
  {
    StreamBound(x);
    TaskBound(x);
    FetchBound(x);
  }

  ghost predicate IsScript(run: seq<Solo>, script: seq<Step>) {
    && |run| == |script| + 1 && run[0] == SOLO_START
    && forall i | 0 <= i < |script| :: SoloTakes(run[i], script[i], run[i + 1])
  }

  function WorkIn(script: seq<Step>): nat {
    if script == [] then 0
    else WorkIn(script[..|script| - 1]) + if IsWork(script[|script| - 1]) then 1 else 0
  }

  lemma ScriptPrefix(run: seq<Solo>, script: seq<Step>, n: nat)
    requires IsScript(run, script) && n + 1 == |script|
    ensures IsScript(run[..n + 1], script[..n]) && run[..n + 1][n] == run[n] && SoloTakes(run[n], script[n], run[n + 1])
  {
  }

  lemma StepMeasured(x: Solo, step: Step, y: Solo)
    requires SoloInv(x) && SoloTakes(x, step, y)
    ensures SoloInv(y) && Progress(y) >= Progress(x) + if IsWork(step) then 1 else 0
  {
    SoloStepKeepsInv(x, step);
    ProgressGrows(x, step);
  }

  lemma {:induction false} WorkIsMeasured(run: seq<Solo>, script: seq<Step>)
    requires IsScript(run, script)
    ensures SoloInv(run[|script|]) && WorkIn(script) <= Progress(run[|script|])
  {
    if script != [] {
      var n := |script| - 1;
      ScriptPrefix(run, script, n);
      WorkIsMeasured(run[..n + 1], script[..n]);
      StepMeasured(run[n], script[n], run[n + 1]);
    }
  }

  /**
   The worker stops: however its steps and the producer's interleave, it takes at most 7 * MAX_ATTEMPTS + 1 steps
   per message, every message's handler runs at most MAX_ATTEMPTS times, and when no step of the worker is
   possible every message has been delivered or dead-lettered.
  */
  lemma EveryMessageSettles(run: seq<Solo>, script: seq<Step>)
    requires IsScript(run, script)
    ensures var x := run[|script|];
            && WorkIn(script) <= 7 * (MAX_ATTEMPTS * |x.s.enqueued|) + 1
            && (forall m :: |RunsOf(x, m)| <= MAX_ATTEMPTS)
            && ((forall step | IsWork(step) :: !SoloEnabled(x, step)) ==>
                  forall m | m in x.s.enqueued :: m in x.s.succeeded || Buried(x.s.queue, m))
  {
    var x := run[|script|];
    WorkIsMeasured(run, script);
    ProgressBound(x);
    forall m ensures |RunsOf(x, m)| <= MAX_ATTEMPTS { RunsBound(x, m); }
    if forall step | IsWork(step) :: !SoloEnabled(x, step) {
      if !Quiet(x) { NotQuietCanMove(x); }
      forall m | m in x.s.enqueued ensures m in x.s.succeeded || Buried(x.s.queue, m) { QuietMeansSettled(x, m); }
    }
  }

  /** The handler runs of message `m`, as positions in the log. */
  function RunsOf(x: Solo, m: Message): set<nat> {
    set k | 0 <= k < |x.log| && x.log[k] < |x.s.queue.main| && Holds(x.s.queue.main[x.log[k]], m)
  }

  /** As many positions as attempt numbers at most, when no two positions share one. */
  lemma {:induction false} SlotsFit(ks: set<nat>, slot: nat -> int, max: nat)
    requires forall k | k in ks :: 1 <= slot(k) <= max
    requires forall j, k | j in ks && k in ks && j != k :: slot(j) != slot(k)
    ensures |ks| <= max
  {
    if k :| k in ks && slot(k) == max {
      SlotsFit(ks - {k}, slot, max - 1);
    } else if max > 0 {
      SlotsFit(ks, slot, max - 1);
    } else {
      assert ks == {};
    }
  }

  lemma RunsBound(x: Solo, m: Message)
    requires SoloInv(x)
    ensures |RunsOf(x, m)| <= MAX_ATTEMPTS
  {
    var ks, main, log := RunsOf(x, m), x.s.queue.main, x.log;
    var slot := (k: nat) => if k < |log| && log[k] < |main| && main[log[k]].Carries? then main[log[k]].payload.Attempt() else 0;
    forall j, k | j in ks && k in ks && j != k ensures slot(j) != slot(k) {
      DifferentRuns(x, m, j, k);
    }
    SlotsFit(ks, slot, MAX_ATTEMPTS);
  }

  lemma DifferentRuns(x: Solo, m: Message, j: nat, k: nat)
    requires SoloInv(x) && j in RunsOf(x, m) && k in RunsOf(x, m) && j != k
    ensures x.s.queue.main[x.log[j]].payload.Attempt() != x.s.queue.main[x.log[k]].payload.Attempt()
  {
    var main, a, b := x.s.queue.main, x.log[j], x.log[k];
    assert a != b by { if j < k {} else {} }
    if a < b { assert main[a] != main[b]; } else { assert main[b] != main[a]; }
  }
}
