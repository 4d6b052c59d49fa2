/** The retry schedule shared by webhook and email delivery (services/webhooks/retry_schedule.py). */
module RetrySchedule {
  import opened Outcomes

  const RETRY_SCHEDULE_SECONDS: seq<int> := [5, 300, 1_800, 7_200, 18_000, 36_000, 36_000]

  const MAX_ATTEMPTS: int := 1 + |RETRY_SCHEDULE_SECONDS|

  datatype ScheduleError = AttemptBelowOne

  /** next_retry_delay: a positive delay exactly while the attempt that just failed is not the last one allowed. */
  function NextRetryDelay(attempt: int): (r: Result<Option<int>, ScheduleError>)
    ensures r.Err? <==> attempt < 1
    ensures r.Ok? ==> (r.value.Some? <==> attempt < MAX_ATTEMPTS) && (r.value.Some? ==> r.value.value > 0)
  {
    if attempt < 1 then Err(AttemptBelowOne)
    else if attempt - 1 >= |RETRY_SCHEDULE_SECONDS| then Ok(None)
    else Ok(Some(RETRY_SCHEDULE_SECONDS[attempt - 1]))
  }

  /** The delays, in seconds: never shorter than the one before, and given for every attempt but the last. */
  lemma DelaysGrow(attempt: int)
    requires 1 <= attempt
    ensures NextRetryDelay(1) == Ok(Some(5))
    ensures attempt + 1 < MAX_ATTEMPTS ==> NextRetryDelay(attempt).value.value <= NextRetryDelay(attempt + 1).value.value
    ensures NextRetryDelay(attempt).value.Some? <==> attempt <= 7
  {
  }

  /** How long a message waits in all, from its first attempt to its last. */
  function TotalDelay(attempt: int): int
    decreases MAX_ATTEMPTS - attempt
  {
    var d := NextRetryDelay(attempt);
    if d.Err? || d.value.None? then 0 else d.value.value + TotalDelay(attempt + 1)
  }

  /** 27 hours, 35 minutes and 5 seconds. */
  lemma WholeSchedule()
    ensures TotalDelay(1) == 27 * 3600 + 35 * 60 + 5
    ensures TotalDelay(2) == 27 * 3600 + 35 * 60 && TotalDelay(3) == 27 * 3600 + 30 * 60 && TotalDelay(4) == 27 * 3600
    ensures TotalDelay(5) == 25 * 3600 && TotalDelay(6) == 20 * 3600 && TotalDelay(7) == 10 * 3600 && TotalDelay(8) == 0
  {
    assert TotalDelay(8) == 0;
    assert TotalDelay(7) == 36_000 && TotalDelay(6) == 72_000 && TotalDelay(5) == 90_000;
    assert TotalDelay(4) == 97_200 && TotalDelay(3) == 99_000 && TotalDelay(2) == 99_300;
  }
}
