/**
 Any number of email workers over the outbox (workers/email_delivery.py), as a state machine.

 A claim locks its rows, and its commit moves them to sending and hands a snapshot of each to a sender; a claim
 may also roll back.  A sender records one outcome or disappears.  Rows may be deleted while nobody locks them.
*/
module EmailDelivery {
  import opened Outcomes
  import opened RetrySchedule
  import opened EmailOutbox

  type Session = nat

  /** A claim in progress: when it selected, and the attempt counts it read. */
  datatype Claim = Claim(now: int, attempts: map<RowId, int>)

  /** A sender working on a claimed row. */
  datatype Sender = Sender(session: Session, row: RowId)

  datatype State = State(
    rows: Rows,
    claims: map<Session, Claim>,
    senders: map<Sender, int>,         // the snapshot's attempt_count
    born: set<RowId>,
    started: set<Session>,
    outcomes: map<RowId, nat>)         // outcomes recorded so far

  datatype Step =
    | Enqueue(id: RowId, now: int)
    | Select(session: Session, ids: set<RowId>, now: int)
    | CommitClaim(session: Session)
    | AbortClaim(session: Session)
    | Record(sender: Sender, result: SendResult, maxAttempts: int, now: int)
    | Vanish(sender: Sender)
    | Delete(id: RowId)

  ghost predicate Locked(s: State, id: RowId) {
    exists session | session in s.claims :: id in s.claims[session].attempts
  }

  ghost predicate Enabled(s: State, step: Step) {
    match step
    case Enqueue(id, _) => id !in s.born
    case Select(session, ids, now) =>
      session !in s.started && forall id | id in ids :: id in s.rows && s.rows[id].Due(now) && !Locked(s, id)
    case CommitClaim(session) => session in s.claims
    case AbortClaim(session) => session in s.claims
    case Record(sender, _, _, _) => sender in s.senders
    case Vanish(sender) => sender in s.senders
    case Delete(id) => id in s.rows && !Locked(s, id)
  }

  function Count(outcomes: map<RowId, nat>, id: RowId): nat { if id in outcomes then outcomes[id] else 0 }

  function HandOut(session: Session, claim: Claim): (r: map<Sender, int>)
    ensures forall x :: x in r <==> x.session == session && x.row in claim.attempts
    ensures forall x | x in r :: r[x] == claim.attempts[x.row]
  {
    map id | id in claim.attempts :: Sender(session, id) := claim.attempts[id]
  }

  ghost function Apply(s: State, step: Step): State
    requires Enabled(s, step)
  {
    match step
    case Enqueue(id, now) => s.(rows := s.rows[id := NewEmail(now)], born := s.born + {id})
    case Select(session, ids, now) =>
      s.(claims := s.claims[session := Claim(now, map id | id in ids :: s.rows[id].attemptCount)],
         started := s.started + {session})
    case CommitClaim(session) =>
      var c := s.claims[session];
      s.(rows := ClaimedRows(s.rows, c.attempts.Keys, c.now),
         senders := s.senders + HandOut(session, c),
         claims := s.claims - {session})
    case AbortClaim(session) => s.(claims := s.claims - {session})
    case Record(sender, result, maxAttempts, now) =>
      var attempt := s.senders[sender] + 1;
      var outcome := Decide(result, attempt, maxAttempts, now);
      var done := s.(senders := s.senders - {sender});
      if outcome.Err? then done
      else done.(rows := Write(s.rows, sender.row, attempt, outcome.value, now),
                 outcomes := if sender.row in s.rows then s.outcomes[sender.row := Count(s.outcomes, sender.row) + 1] else s.outcomes)
    case Vanish(sender) => s.(senders := s.senders - {sender})
    case Delete(id) => s.(rows := s.rows - {id})
  }

  /** How things end without an outcome: a claim rolls back, a sender is lost, a row is deleted; nothing else changes. */
  lemma Endings(s: State, session: Session, sender: Sender, id: RowId)
    ensures Enabled(s, AbortClaim(session)) ==> Apply(s, AbortClaim(session)) == s.(claims := s.claims - {session})
    ensures Enabled(s, Vanish(sender)) ==> Apply(s, Vanish(sender)) == s.(senders := s.senders - {sender})
    ensures Enabled(s, Delete(id)) ==> Apply(s, Delete(id)) == s.(rows := s.rows - {id})
  {
  }

  // ---------------------------------------------------------------- the invariant

  /** A row a claim has locked is as the claim read it. */
  predicate ClaimOk(rows: Rows, c: Claim) {
    forall id | id in c.attempts :: id in rows && rows[id].Due(c.now) && rows[id].attemptCount == c.attempts[id]
  }

  ghost predicate ClaimsOk(s: State) {
    && (forall x | x in s.claims :: x in s.started && ClaimOk(s.rows, s.claims[x]))
    && (forall x, y | x in s.claims && y in s.claims && x != y :: s.claims[x].attempts.Keys !! s.claims[y].attempts.Keys)
  }

  ghost predicate SendersOk(s: State) {
    && (forall x | x in s.senders :: x.session in s.started && x.session !in s.claims && x.row in s.born && SenderOk(s.rows, x, s.senders[x]))
    && (forall x, y | x in s.senders && y in s.senders && x.row == y.row :: x == y)
  }

  predicate SenderOk(rows: Rows, x: Sender, snapshot: int) {
    x.row in rows ==> rows[x.row].status.Sending? && rows[x.row].attemptCount == snapshot
  }

  /** Rows that may still be sent have an attempt left under `cap`. */
  predicate RowOk(e: Email, outcomes: nat, cap: int) {
    e.attemptCount == outcomes && e.attemptCount <= cap && (!e.Terminal() ==> e.attemptCount < cap)
  }

  predicate RowsOk(s: State, cap: int) {
    && (forall id | id in s.rows :: id in s.born && RowOk(s.rows[id], Count(s.outcomes, id), cap))
    && (forall id | id in s.outcomes :: id in s.born)
  }

  ghost predicate Inv(s: State, cap: int) { ClaimsOk(s) && SendersOk(s) && RowsOk(s, cap) }

  /** The ceilings a run reads from the settings stay within `cap`, unless the schedule itself ends first. */
  predicate Capped(step: Step, cap: int) {
    cap >= 1 && (step.Record? ==> step.maxAttempts <= cap || MAX_ATTEMPTS <= cap)
  }

  // ---------------------------------------------------------------- every step keeps it

  lemma EnqueueKept(s: State, id: RowId, now: int, cap: int)
    requires Inv(s, cap) && Enabled(s, Enqueue(id, now)) && cap >= 1
    ensures Inv(Apply(s, Enqueue(id, now)), cap)
  {
    var t := Apply(s, Enqueue(id, now));
    assert id !in s.rows && id !in s.outcomes;
    forall x | x in t.claims ensures ClaimOk(t.rows, t.claims[x]) { assert ClaimOk(s.rows, s.claims[x]); }
    forall x | x in t.senders ensures SenderOk(t.rows, x, t.senders[x]) { assert SenderOk(s.rows, x, s.senders[x]); }
  }

  lemma SelectKept(s: State, session: Session, ids: set<RowId>, now: int, cap: int)
    requires Inv(s, cap) && Enabled(s, Select(session, ids, now))
    ensures Inv(Apply(s, Select(session, ids, now)), cap)
  {
    var t := Apply(s, Select(session, ids, now));
    assert t.claims[session].attempts.Keys == ids;
    forall x | x in s.claims ensures s.claims[x].attempts.Keys !! ids {
      assert forall id | id in ids :: !Locked(s, id);
    }
  }

  lemma CommitKept(s: State, session: Session, cap: int)
    requires Inv(s, cap) && Enabled(s, CommitClaim(session))
    ensures Inv(Apply(s, CommitClaim(session)), cap)
  {
    CommitClaims(s, session);
    CommitSenders(s, session, cap);
    CommitRows(s, session, cap);
  }

  lemma CommitRows(s: State, session: Session, cap: int)
    requires RowsOk(s, cap) && Enabled(s, CommitClaim(session)) && ClaimOk(s.rows, s.claims[session])
    ensures RowsOk(Apply(s, CommitClaim(session)), cap)
  {
    var t := Apply(s, CommitClaim(session));
    forall id | id in t.rows ensures id in t.born && RowOk(t.rows[id], Count(t.outcomes, id), cap) {
      assert RowOk(s.rows[id], Count(s.outcomes, id), cap);
    }
  }

  lemma CommitClaims(s: State, session: Session)
    requires ClaimsOk(s) && Enabled(s, CommitClaim(session))
    ensures ClaimsOk(Apply(s, CommitClaim(session)))
  {
    var t := Apply(s, CommitClaim(session));
    forall x | x in t.claims ensures ClaimOk(t.rows, t.claims[x]) {
      assert ClaimOk(s.rows, s.claims[x]) && s.claims[x].attempts.Keys !! s.claims[session].attempts.Keys;
    }
  }

  lemma CommitSenders(s: State, session: Session, cap: int)
    requires Inv(s, cap) && Enabled(s, CommitClaim(session))
    ensures SendersOk(Apply(s, CommitClaim(session)))
  {
    var t, c := Apply(s, CommitClaim(session)), s.claims[session];
    assert ClaimOk(s.rows, c);
    forall x | x in s.senders ensures x.row !in c.attempts { assert SenderOk(s.rows, x, s.senders[x]); }
    forall x | x in t.senders
      ensures x.session in t.started && x.session !in t.claims && x.row in t.born && SenderOk(t.rows, x, t.senders[x])
    {
      if x in s.senders { assert SenderOk(s.rows, x, s.senders[x]); }
    }
  }

  lemma RecordKept(s: State, sender: Sender, result: SendResult, maxAttempts: int, now: int, cap: int)
    requires Inv(s, cap) && Enabled(s, Record(sender, result, maxAttempts, now))
    requires Capped(Record(sender, result, maxAttempts, now), cap)
    ensures Inv(Apply(s, Record(sender, result, maxAttempts, now)), cap)
  {
    var t, r := Apply(s, Record(sender, result, maxAttempts, now)), sender.row;
    assert SenderOk(s.rows, sender, s.senders[sender]);
    forall x | x in t.claims ensures ClaimOk(t.rows, t.claims[x]) {
      assert ClaimOk(s.rows, s.claims[x]);
    }
    forall x | x in t.senders ensures SenderOk(t.rows, x, t.senders[x]) {
      assert SenderOk(s.rows, x, s.senders[x]) && x.row != r;
    }
    forall id | id in t.rows ensures RowOk(t.rows[id], Count(t.outcomes, id), cap) {
      assert RowOk(s.rows[id], Count(s.outcomes, id), cap);
    }
  }

  lemma LeaveKept(s: State, step: Step, cap: int)
    requires Inv(s, cap) && Enabled(s, step) && (step.AbortClaim? || step.Vanish? || step.Delete?)
    ensures Inv(Apply(s, step), cap)
  {
    var t := Apply(s, step);
    forall x | x in t.claims ensures ClaimOk(t.rows, t.claims[x]) { assert ClaimOk(s.rows, s.claims[x]); }
    forall x | x in t.senders ensures SenderOk(t.rows, x, t.senders[x]) { assert SenderOk(s.rows, x, s.senders[x]); }
  }

  lemma StepKeepsInv(s: State, step: Step, cap: int)
    requires Inv(s, cap) && Enabled(s, step) && Capped(step, cap)
    ensures Inv(Apply(s, step), cap)
  {
    match step
    case Enqueue(id, now) => EnqueueKept(s, id, now, cap);
    case Select(session, ids, now) => SelectKept(s, session, ids, now, cap);
    case CommitClaim(session) => CommitKept(s, session, cap);
    case Record(sender, result, maxAttempts, now) => RecordKept(s, sender, result, maxAttempts, now, cap);
    case AbortClaim(_) => LeaveKept(s, step, cap);
    case Vanish(_) => LeaveKept(s, step, cap);
    case Delete(_) => LeaveKept(s, step, cap);
  }

  // ---------------------------------------------------------------- what one step may do to a row

  /** What a step does to a row: nothing, delete it, claim it when due, or record one outcome for its one sender. */
  ghost predicate RowStep(s: State, step: Step, id: RowId)
    requires Enabled(s, step)
  {
    var t := Apply(s, step);
    id in s.rows && id in t.rows && t.rows[id] != s.rows[id] ==>
      if step.CommitClaim? then
        var now := s.claims[step.session].now;
        && s.rows[id].status.Queued? && s.rows[id].availableAt <= now
        && t.rows[id] == s.rows[id].(status := Sending, sendingAt := Some(now), updatedAt := Some(now))
        && Sender(step.session, id) in t.senders
      else
        && step.Record? && step.sender.row == id && s.rows[id].status.Sending?
        && Settles(s.rows[id], t.rows[id], s.rows[id].attemptCount + 1, step.result, step.maxAttempts, step.now)
        && Count(t.outcomes, id) == Count(s.outcomes, id) + 1
  }

  lemma RowStepHolds(s: State, step: Step, id: RowId, cap: int)
    requires Inv(s, cap) && Enabled(s, step)
    ensures RowStep(s, step, id)
  {
    if step.CommitClaim? {
      assert ClaimOk(s.rows, s.claims[step.session]);
    } else if step.Record? {
      assert SenderOk(s.rows, step.sender, s.senders[step.sender]);
      if id in s.rows { DecisionSettles(s.rows[id], s.senders[step.sender] + 1, step.result, step.maxAttempts, step.now); }
    } else if step.Enqueue? {
      assert id in s.rows ==> id in s.born;
    }
  }

  // ---------------------------------------------------------------- runs

  ghost predicate Takes(s: State, step: Step, t: State, cap: int) {
    Enabled(s, step) && Capped(step, cap) && t == Apply(s, step)
  }

  ghost predicate Follows(s: State, t: State, cap: int) { exists step :: Takes(s, step, t, cap) }

  ghost predicate IsRun(run: seq<State>, cap: int) {
    |run| > 0 && run[0] == EMPTY && forall i | 0 < i < |run| :: FollowsAt(run, i, cap)
  }

  ghost predicate FollowsAt(run: seq<State>, i: nat, cap: int)
    requires 0 < i < |run|
  {
    Follows(run[i - 1], run[i], cap)
  }

  const EMPTY := State(map[], map[], map[], {}, {}, map[])

  lemma {:induction false} RunKeepsInv(run: seq<State>, k: nat, cap: int)
    requires IsRun(run, cap) && k < |run|
    ensures Inv(run[k], cap)
  {
    if k > 0 {
      RunKeepsInv(run, k - 1, cap);
      var s, t := run[k - 1], run[k];
      assert FollowsAt(run, k, cap);
      var step :| Takes(s, step, t, cap);
      StepKeepsInv(s, step, cap);
    }
  }

  lemma RunStep(run: seq<State>, k: nat, cap: int)
    requires IsRun(run, cap) && 0 < k < |run|
    ensures Inv(run[k - 1], cap) && Follows(run[k - 1], run[k], cap)
  {
    RunKeepsInv(run, k - 1, cap);
    assert FollowsAt(run, k, cap);
  }

  /**
   In every run: a row has at most one sender and is then sending, with the attempt count the sender read;
   attempt_count is the number of outcomes recorded and never exceeds `cap`; and no claim in progress holds a row
   before its time or together with another claim.
  */
  lemma OneSenderPerRow(run: seq<State>, k: nat, cap: int)
    requires IsRun(run, cap) && k < |run|
    ensures forall x, y | x in run[k].senders && y in run[k].senders && x.row == y.row :: x == y
    ensures forall x | x in run[k].senders && x.row in run[k].rows ::
              run[k].rows[x.row].status.Sending? && run[k].rows[x.row].attemptCount == run[k].senders[x]
    ensures forall id | id in run[k].rows ::
              run[k].rows[id].attemptCount == Count(run[k].outcomes, id) <= cap
    ensures forall x, id | x in run[k].claims && id in run[k].claims[x].attempts ::
              id in run[k].rows && run[k].rows[id].status.Queued? && run[k].rows[id].availableAt <= run[k].claims[x].now
  {
    RunKeepsInv(run, k, cap);
    var s := run[k];
    forall x | x in s.senders && x.row in s.rows
      ensures s.rows[x.row].status.Sending? && s.rows[x.row].attemptCount == s.senders[x]
    {
      assert SenderOk(s.rows, x, s.senders[x]);
    }
    forall x, id | x in s.claims && id in s.claims[x].attempts ensures id in s.rows && s.rows[id].Due(s.claims[x].now) {
      assert ClaimOk(s.rows, s.claims[x]);
    }
  }

  /** The shared schedule bounds every run, whatever ceilings the settings give. */
  lemma ScheduleBoundsAttempts(run: seq<State>, k: nat, id: RowId)
    requires IsRun(run, MAX_ATTEMPTS) && k < |run| && id in run[k].rows
    ensures run[k].rows[id].attemptCount <= MAX_ATTEMPTS && Count(run[k].outcomes, id) <= MAX_ATTEMPTS
  {
    OneSenderPerRow(run, k, MAX_ATTEMPTS);
  }

  lemma StaysOutOfTable(s: State, step: Step, id: RowId)
    requires Enabled(s, step) && id in s.born
    ensures id in Apply(s, step).born && (id !in s.rows ==> id !in Apply(s, step).rows)
  {
  }

  /** The row is as it was, or gone for good. */
  predicate Keeps(s: State, id: RowId, e: Email) { id in s.born && (id in s.rows ==> s.rows[id] == e) }

  lemma TerminalKept(s: State, t: State, id: RowId, e: Email, cap: int)
    requires Inv(s, cap) && Follows(s, t, cap) && (e.status.ProviderAccepted? || e.status.Failed?) && Keeps(s, id, e)
    ensures Keeps(t, id, e)
  {
    var step :| Takes(s, step, t, cap);
    StaysOutOfTable(s, step, id);
    RowStepHolds(s, step, id, cap);
  }

  lemma TerminalStep(run: seq<State>, j: nat, id: RowId, e: Email, cap: int)
    requires IsRun(run, cap) && 0 < j < |run| && (e.status.ProviderAccepted? || e.status.Failed?) && Keeps(run[j - 1], id, e)
    ensures Keeps(run[j], id, e)
  {
    RunStep(run, j, cap);
    TerminalKept(run[j - 1], run[j], id, e, cap);
  }

  lemma {:induction false} TerminalStays(run: seq<State>, i: nat, j: nat, id: RowId, e: Email, cap: int)
    requires IsRun(run, cap) && i <= j < |run| && (e.status.ProviderAccepted? || e.status.Failed?) && Keeps(run[i], id, e)
    ensures Keeps(run[j], id, e)
  {
    if i < j {
      TerminalStays(run, i, j - 1, id, e, cap);
      TerminalStep(run, j, id, e, cap);
    }
  }

  /** Accepted and failed are final: while the row exists it never changes again, in any column. */
  lemma TerminalIsFinal(run: seq<State>, i: nat, j: nat, id: RowId, cap: int)
    requires IsRun(run, cap) && i <= j < |run| && id in run[i].rows
    requires run[i].rows[id].status.ProviderAccepted? || run[i].rows[id].status.Failed?
    ensures Keeps(run[j], id, run[i].rows[id])
  {
    RunKeepsInv(run, i, cap);
    TerminalStays(run, i, j, id, run[i].rows[id], cap);
  }

  ghost predicate Stranded(s: State, id: RowId) {
    id in s.rows && s.rows[id].status.Sending? && forall x | x in s.senders :: x.row != id
  }

  lemma StrandedStep(s: State, step: Step, id: RowId, cap: int)
    requires Inv(s, cap) && Enabled(s, step) && Stranded(s, id) && id in Apply(s, step).rows
    ensures Stranded(Apply(s, step), id) && Apply(s, step).rows[id] == s.rows[id]
  {
    RowStepHolds(s, step, id, cap);
    if step.CommitClaim? {
      assert ClaimOk(s.rows, s.claims[step.session]);
    }
  }

  /** The row is stranded as it was, or gone for good. */
  ghost predicate StaysStranded(s: State, id: RowId, e: Email) { Keeps(s, id, e) && (id in s.rows ==> Stranded(s, id)) }

  lemma StrandedKept(run: seq<State>, j: nat, id: RowId, e: Email, cap: int)
    requires IsRun(run, cap) && 0 < j < |run| && StaysStranded(run[j - 1], id, e)
    ensures StaysStranded(run[j], id, e)
  {
    RunStep(run, j, cap);
    var s, t := run[j - 1], run[j];
    var step :| Takes(s, step, t, cap);
    StaysOutOfTable(s, step, id);
    if id in t.rows { StrandedStep(s, step, id, cap); }
  }

  /** A sending row can still change exactly when it has a sender. */
  lemma SendingSettlesExactly(s: State, id: RowId, cap: int)
    requires Inv(s, cap) && id in s.rows && s.rows[id].status.Sending?
    ensures (exists step :: ChangesRow(s, step, id)) <==> exists x | x in s.senders :: x.row == id
  {
    if x :| x in s.senders && x.row == id {
      assert SenderOk(s.rows, x, s.senders[x]);
      assert ChangesRow(s, Record(x, Accepted(None), 1, 0), id);
    } else {
      forall step ensures !ChangesRow(s, step, id) {
        if Enabled(s, step) && id in Apply(s, step).rows { StrandedStep(s, step, id, cap); }
      }
    }
  }

  /** The step is possible and leaves the row in the table, changed. */
  ghost predicate ChangesRow(s: State, step: Step, id: RowId) {
    Enabled(s, step) && id in s.rows && id in Apply(s, step).rows && Apply(s, step).rows[id] != s.rows[id]
  }

  /** Four steps strand a row: it is queued, selected, claimed, and its sender vanishes. */
  lemma SenderLossStrands(cap: int) returns (run: seq<State>)
    requires cap >= 1
    ensures IsRun(run, cap) && |run| == 5 && Stranded(run[4], 0)
  {
    var claim, sender := Claim(0, map[0 := 0]), Sender(0, 0);
    var s1 := EMPTY.(rows := map[0 := NewEmail(0)], born := {0});
    var s2 := s1.(claims := map[0 := claim], started := {0});
    var s3 := s2.(rows := map[0 := NewEmail(0).Claimed(0)], claims := map[], senders := map[sender := 0]);
    var s4 := s3.(senders := map[]);
    QueueAndSelect(s1, s2);
    ClaimAndLose(s2, s3, s4);
    assert Takes(EMPTY, Enqueue(0, 0), s1, cap) && Takes(s1, Select(0, {0}, 0), s2, cap);
    assert Takes(s2, CommitClaim(0), s3, cap) && Takes(s3, Vanish(sender), s4, cap);
    run := [EMPTY, s1, s2, s3, s4];
    assert FollowsAt(run, 1, cap) && FollowsAt(run, 2, cap) && FollowsAt(run, 3, cap) && FollowsAt(run, 4, cap);
  }

  lemma QueueAndSelect(s1: State, s2: State)
    requires s1 == EMPTY.(rows := map[0 := NewEmail(0)], born := {0})
    requires s2 == s1.(claims := map[0 := Claim(0, map[0 := 0])], started := {0})
    ensures Enabled(EMPTY, Enqueue(0, 0)) && Apply(EMPTY, Enqueue(0, 0)) == s1
    ensures Enabled(s1, Select(0, {0}, 0)) && Apply(s1, Select(0, {0}, 0)) == s2
  {
    var t := Apply(s1, Select(0, {0}, 0));
    assert t.claims[0].attempts == map[0 := 0];
    assert t.claims == s2.claims;
  }

  lemma ClaimAndLose(s2: State, s3: State, s4: State)
    requires s2.claims == map[0 := Claim(0, map[0 := 0])] && s2.rows == map[0 := NewEmail(0)] && s2.senders == map[]
    requires s3 == s2.(rows := map[0 := NewEmail(0).Claimed(0)], claims := map[], senders := map[Sender(0, 0) := 0])
    requires s4 == s3.(senders := map[])
    ensures Enabled(s2, CommitClaim(0)) && Apply(s2, CommitClaim(0)) == s3
    ensures Enabled(s3, Vanish(Sender(0, 0))) && Apply(s3, Vanish(Sender(0, 0))) == s4
  {
    var c := s2.claims[0];
    assert ClaimedRows(s2.rows, c.attempts.Keys, c.now) == s3.rows;
    assert HandOut(0, c) == map[Sender(0, 0) := 0];
    assert s2.senders + HandOut(0, c) == s3.senders;
    assert s2.claims - {0} == map[] && s3.senders - {Sender(0, 0)} == map[];
  }

  lemma {:induction false} StrandedStays(run: seq<State>, i: nat, j: nat, id: RowId, e: Email, cap: int)
    requires IsRun(run, cap) && i <= j < |run| && StaysStranded(run[i], id, e)
    ensures StaysStranded(run[j], id, e)
  {
    if i < j {
      StrandedStays(run, i, j - 1, id, e, cap);
      StrandedKept(run, j, id, e, cap);
    }
  }

  /** A sender that vanishes strands its row: nothing ever claims a sending row again. */
  lemma StrandedForGood(run: seq<State>, i: nat, j: nat, id: RowId, cap: int)
    requires IsRun(run, cap) && i <= j < |run| && Stranded(run[i], id)
    ensures StaysStranded(run[j], id, run[i].rows[id])
  {
    RunKeepsInv(run, i, cap);
    StrandedStays(run, i, j, id, run[i].rows[id], cap);
  }
}
