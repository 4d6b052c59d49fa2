/**
 The email outbox table and its repository (db/repositories/email_outbox.py), and what the worker writes for one
 send (workers/email_delivery.py).  Times are whole seconds; rendered content and addresses are not modelled.
*/
module EmailOutbox {
  import opened Outcomes
  import opened Texts
  import opened RetrySchedule

  type RowId = nat

  datatype Status = Queued | Sending | ProviderAccepted | Failed

  datatype Email = Email(
    status: Status,
    attemptCount: int,
    availableAt: int,
    sendingAt: Option<int>,
    sentAt: Option<int>,
    updatedAt: Option<int>,
    providerMessageId: Option<string>,
    lastError: Option<string>)
  {
    predicate Terminal() { status.ProviderAccepted? || status.Failed? }

    predicate Due(now: int) { status.Queued? && availableAt <= now }

    function Claimed(now: int): Email { this.(status := Sending, sendingAt := Some(now), updatedAt := Some(now)) }
  }

  type Rows = map<RowId, Email>

  const MAX_ERROR_CHARS: nat := 500

  /** The error as it is persisted: trimmed, and cut short with dots when it is too long. */
  function Truncate(text: string): (r: string)
    ensures |r| <= MAX_ERROR_CHARS && (|Strip(text)| <= MAX_ERROR_CHARS <==> r == Strip(text))
    ensures |Strip(text)| > MAX_ERROR_CHARS ==>
              |r| == MAX_ERROR_CHARS && r[..MAX_ERROR_CHARS - 3] <= Strip(text) && r[MAX_ERROR_CHARS - 3..] == "..."
  {
    var t := Strip(text);
    if |t| <= MAX_ERROR_CHARS then t else t[..MAX_ERROR_CHARS - 3] + "..."
  }

  function NewEmail(now: int): Email { Email(Queued, 0, now, None, None, None, None, None) }

  function Ids(ids: seq<RowId>): set<RowId> { set id | id in ids }

  function ClaimedRows(rows: Rows, ids: set<RowId>, now: int): Rows {
    map id | id in rows :: if id in ids then rows[id].Claimed(now) else rows[id]
  }

  /** What the outcome of one send means for the row. */
  datatype Outcome =
    | Accept(providerMessageId: Option<string>)
    | Fail(error: string)
    | Retry(availableAt: int, error: string)

  function Recorded(e: Email, attempt: int, outcome: Outcome, now: int): Email {
    match outcome
    case Accept(id) =>
      e.(status := ProviderAccepted, attemptCount := attempt, providerMessageId := id, sentAt := Some(now), updatedAt := Some(now))
    case Fail(error) => e.(status := Failed, attemptCount := attempt, lastError := Some(Truncate(error)), updatedAt := Some(now))
    case Retry(at, error) =>
      e.(status := Queued, attemptCount := attempt, availableAt := at, lastError := Some(Truncate(error)), updatedAt := Some(now))
  }

  /** The status writes carry no guard beyond the row's existence. */
  function Write(rows: Rows, id: RowId, attempt: int, outcome: Outcome, now: int): Rows {
    if id in rows then rows[id := Recorded(rows[id], attempt, outcome, now)] else rows
  }

  /** What the provider did with one message. */
  datatype SendResult =
    | Accepted(providerMessageId: Option<string>)
    | Permanent(error: string)
    | Transient(error: string)
    | Unexpected(error: string)

  /** What is recorded for a send: retries end at the configured ceiling or the schedule's end, whichever is first. */
  function Decide(result: SendResult, attempt: int, maxAttempts: int, now: int): (r: Result<Outcome, ScheduleError>)
    ensures r.Err? ==> attempt < 1
    ensures r.Ok? && r.value.Retry? ==> 1 <= attempt < maxAttempts && attempt < MAX_ATTEMPTS && r.value.availableAt > now
    ensures result.Accepted? <==> r.Ok? && r.value.Accept?
    ensures r.Ok? && r.value.Fail? && !result.Permanent? ==> attempt >= maxAttempts || attempt >= MAX_ATTEMPTS
  {
    match result
    case Accepted(id) => Ok(Accept(id))
    case Permanent(error) => Ok(Fail("permanent: " + error))
    case Transient(error) => RetryOrFail(attempt, error, maxAttempts, now)
    case Unexpected(error) => RetryOrFail(attempt, "unexpected: " + error, maxAttempts, now)
  }

  function RetryOrFail(attempt: int, error: string, maxAttempts: int, now: int): Result<Outcome, ScheduleError> {
    match NextRetryDelay(attempt)
    case Err(e) => Err(e)
    case Ok(delay) =>
      if attempt >= maxAttempts || delay.None? then Ok(Fail("retries exhausted: " + error))
      else Ok(Retry(now + delay.value, error))
  }

  /** What is written to the row for one send: its status and why, the attempt's number, and what the provider said. */
  predicate Settles(e: Email, r: Email, attempt: int, result: SendResult, maxAttempts: int, now: int) {
    && r.attemptCount == attempt && r.updatedAt == Some(now) && r.sendingAt == e.sendingAt && !r.status.Sending?
    && (r.status.ProviderAccepted? <==> result.Accepted?)
    && (r.status.Failed? <==>
          result.Permanent? || (!result.Accepted? && (attempt >= maxAttempts || attempt > |RETRY_SCHEDULE_SECONDS|)))
    && (r.status.Queued? ==> 1 <= attempt <= |RETRY_SCHEDULE_SECONDS| && r.availableAt == now + RETRY_SCHEDULE_SECONDS[attempt - 1])
    && (!r.status.Queued? ==> r.availableAt == e.availableAt)
    && match result
       case Accepted(id) => r.providerMessageId == id && r.sentAt == Some(now) && r.lastError == e.lastError
       case Permanent(error) => SameSend(e, r) && r.lastError == Some(Truncate("permanent: " + error))
       case Transient(error) =>
         SameSend(e, r) && r.lastError == Some(Truncate(if r.status.Failed? then "retries exhausted: " + error else error))
       case Unexpected(error) =>
         && SameSend(e, r)
         && r.lastError == Some(Truncate(if r.status.Failed? then "retries exhausted: unexpected: " + error else "unexpected: " + error))
  }

  predicate SameSend(e: Email, r: Email) { r.providerMessageId == e.providerMessageId && r.sentAt == e.sentAt }

  /** What is recorded settles the row. */
  lemma DecisionSettles(e: Email, attempt: int, result: SendResult, maxAttempts: int, now: int)
    ensures var outcome := Decide(result, attempt, maxAttempts, now);
            && (outcome.Err? <==> attempt < 1 && (result.Transient? || result.Unexpected?))
            && (outcome.Ok? ==> Settles(e, Recorded(e, attempt, outcome.value, now), attempt, result, maxAttempts, now))
  {
    assert forall s: string :: "retries exhausted: " + ("unexpected: " + s) == "retries exhausted: unexpected: " + s;
  }

  /** What SELECT ... FOR UPDATE SKIP LOCKED may return: due, unlocked, oldest first, as many as fit. */
  predicate IsSelection(rows: Rows, locked: set<RowId>, now: int, limit: nat, ids: seq<RowId>) {
    && |ids| <= limit
    && (forall i | 0 <= i < |ids| ::
          ids[i] in rows && rows[ids[i]].status.Queued? && rows[ids[i]].availableAt <= now && ids[i] !in locked)
    && (forall i, j | 0 <= i < j < |ids| :: ids[i] != ids[j] && rows[ids[i]].availableAt <= rows[ids[j]].availableAt)
    && (forall id | id in rows && rows[id].status.Queued? && rows[id].availableAt <= now && id !in locked && id !in ids ::
          |ids| == limit && forall i | 0 <= i < |ids| :: rows[ids[i]].availableAt <= rows[id].availableAt)
  }

  class OutboxRepository {
    var rows: Rows

    constructor ()
      ensures rows == map[]
    {
      rows := map[];
    }

    method Create(id: RowId, now: int)
      requires id !in rows
      modifies this
      ensures rows == old(rows)[id := Email(Queued, 0, now, None, None, None, None, None)]
    {
      rows := rows[id := NewEmail(now)];
    }

    /** claim_batch: every selected row moves to sending, no other row changes. */
    method ClaimBatch(ids: seq<RowId>, locked: set<RowId>, limit: nat, now: int)
      requires IsSelection(rows, locked, now, limit, ids)
      modifies this
      ensures rows == ClaimedRows(old(rows), Ids(ids), now)
      ensures rows.Keys == old(rows).Keys
      ensures forall id | id in rows :: rows[id] ==
                if id in ids then old(rows)[id].(status := Sending, sendingAt := Some(now), updatedAt := Some(now)) else old(rows)[id]
      ensures forall id | id in rows && rows[id].status.Queued? && rows[id].availableAt <= now && id !in locked ::
                |ids| == limit && forall i | 0 <= i < |ids| :: rows[ids[i]].availableAt <= rows[id].availableAt
    {
      for i := 0 to |ids|
        invariant rows == ClaimedRows(old(rows), Ids(ids[..i]), now)
      {
        ClaimOneMore(old(rows), ids, i, now);
        rows := rows[ids[i] := rows[ids[i]].Claimed(now)];
      }
      assert ids[..|ids|] == ids;
    }

    method MarkAccepted(id: RowId, attempt: int, providerMessageId: Option<string>, now: int)
      modifies this
      ensures rows == Write(old(rows), id, attempt, Accept(providerMessageId), now)
      ensures id !in old(rows) ==> rows == old(rows)
      ensures id in old(rows) ==>
                rows == old(rows)[id := old(rows)[id].(status := ProviderAccepted, attemptCount := attempt,
                  providerMessageId := providerMessageId, sentAt := Some(now), updatedAt := Some(now))]
    {
      if id !in rows { return; }
      var row := rows[id].(status := ProviderAccepted, attemptCount := attempt);
      rows := rows[id := row.(providerMessageId := providerMessageId, sentAt := Some(now), updatedAt := Some(now))];
    }

    method MarkFailed(id: RowId, attempt: int, error: string, now: int)
      modifies this
      ensures rows == Write(old(rows), id, attempt, Fail(error), now)
      ensures id !in old(rows) ==> rows == old(rows)
      ensures id in old(rows) ==>
                rows == old(rows)[id := old(rows)[id].(status := Failed, attemptCount := attempt,
                  lastError := Some(Truncate(error)), updatedAt := Some(now))]
    {
      if id !in rows { return; }
      var row := rows[id].(status := Failed, attemptCount := attempt);
      rows := rows[id := row.(lastError := Some(Truncate(error)), updatedAt := Some(now))];
    }

    method Reschedule(id: RowId, attempt: int, availableAt: int, error: string, now: int)
      modifies this
      ensures rows == Write(old(rows), id, attempt, Retry(availableAt, error), now)
      ensures id !in old(rows) ==> rows == old(rows)
      ensures id in old(rows) ==>
                rows == old(rows)[id := old(rows)[id].(status := Queued, attemptCount := attempt, availableAt := availableAt,
                  lastError := Some(Truncate(error)), updatedAt := Some(now))]
    {
      if id !in rows { return; }
      var row := rows[id].(status := Queued, attemptCount := attempt, availableAt := availableAt);
      rows := rows[id := row.(lastError := Some(Truncate(error)), updatedAt := Some(now))];
    }

    /** _process_one after the provider answered; `attemptCount` is the claim's snapshot. */
    method ProcessOne(id: RowId, attemptCount: int, result: SendResult, maxAttempts: int, now: int)
      returns (raised: bool)
      modifies this
      ensures var outcome := Decide(result, attemptCount + 1, maxAttempts, now);
              && raised == outcome.Err?
              && rows == if raised then old(rows) else Write(old(rows), id, attemptCount + 1, outcome.value, now)
      ensures raised <==> attemptCount < 0 && (result.Transient? || result.Unexpected?)
      ensures raised || id !in old(rows) ==> rows == old(rows)
      ensures rows.Keys == old(rows).Keys && forall other | other in rows && other != id :: rows[other] == old(rows)[other]
      ensures !raised && id in rows ==> Settles(old(rows)[id], rows[id], attemptCount + 1, result, maxAttempts, now)
    {
      if id in rows { DecisionSettles(rows[id], attemptCount + 1, result, maxAttempts, now); }
      var attempt := attemptCount + 1;
      raised := false;
      match result {
        case Accepted(mid) => MarkAccepted(id, attempt, mid, now);
        case Permanent(error) => MarkFailed(id, attempt, "permanent: " + error, now);
        case Transient(error) => raised := RetryOrFailRow(id, attempt, error, maxAttempts, now);
        case Unexpected(error) => raised := RetryOrFailRow(id, attempt, "unexpected: " + error, maxAttempts, now);
      }
    }

    method RetryOrFailRow(id: RowId, attempt: int, error: string, maxAttempts: int, now: int) returns (raised: bool)
      modifies this
      ensures var outcome := RetryOrFail(attempt, error, maxAttempts, now);
              && raised == outcome.Err?
              && rows == if raised then old(rows) else Write(old(rows), id, attempt, outcome.value, now)
    {
      var delay := NextRetryDelay(attempt);
      if delay.Err? { return true; }
      if attempt >= maxAttempts || delay.value.None? {
        MarkFailed(id, attempt, "retries exhausted: " + error, now);
      } else {
        Reschedule(id, attempt, now + delay.value.value, error, now);
      }
      return false;
    }
  }

  lemma ClaimOneMore(rows: Rows, ids: seq<RowId>, i: nat, now: int)
    requires i < |ids| && ids[i] in rows && forall j | 0 <= j < i :: ids[j] != ids[i]
    ensures var before := ClaimedRows(rows, Ids(ids[..i]), now);
            ids[i] in before && before[ids[i]] == rows[ids[i]] &&
            before[ids[i] := before[ids[i]].Claimed(now)] == ClaimedRows(rows, Ids(ids[..i + 1]), now)
  {
    assert ids[..i + 1] == ids[..i] + [ids[i]];
    assert ids[i] !in ids[..i];
  }
}
