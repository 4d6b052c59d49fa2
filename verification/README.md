# WrapSec gateway: verified models of its protocols and transformations

This project models the parts of the WrapSec AI security gateway whose correctness is spread over several functions,
several processes or a whole history, and proves what they promise. One module follows one component:

| component | modules |
|---|---|
| audit hash chain: canonical JSON, hash input, writer, verifier, concurrent protocol, retention | CanonicalJson, AuditChain, AuditSchema, AuditVerifier, AuditEvidence, AuditWriter, AuditStorage, AuditProtocol, AuditStart, AuditWritable, AuditSafety, AuditRetention |
| webhook delivery queue and its workers | WebhookQueue, WebhookDelivery, RetrySchedule, WebhookRetry |
| sliding-window rate limiter | RateLimiter |
| email outbox and its workers | EmailOutbox, EmailDelivery |
| webhook secrets and signatures | WebhookSecrets, WebhookSigning, Base64 |
| source allowlists: dashboard and server | AddressText, AddressForms, NetworkCoverage, SourceAllowlist |
| MCP tool routing | ToolRouting |
| layered policies | PolicyMerge, PolicyResolver |
| shared helpers | Outcomes, Arithmetic, Sequences, Octets, Bits, Decimal, Hexadecimal, Texts |

Code that updates state is a class or a method with loops, proved equal to a function on values; the properties are
proved about those functions and about runs of state machines built from them.

## What the environment is taken to do

- Postgres and Redis commands are atomic; a transaction's writes appear together at its commit; an advisory lock is held
  by one transaction at a time and freed at its end; FOR UPDATE SKIP LOCKED returns rows nobody else has locked, as
  last committed; row ids, stream ids, call ids and session ids do not repeat.
- SHA-256 and HMAC are opaque functions, and nothing is assumed of them: what depends on collisions says "or these two
  payloads collide", naming rows the two chains, the run or the delivery hold, or rows a tenant could write next
  (`AuditWritable`, which also asks that digests are ASCII, as hexadecimal ones are).
- Clocks are parameters. Where order matters, the statement says that readings do not go back.
- Text stored in Postgres is encodable (no lone surrogates); the repr of floats, ISO timestamps and UUID text are opaque
  tokens; the ipaddress library prints what it can read back.

## Where a promised property is false

Each of these has a concrete case and a lemma saying exactly when the property holds.

- A chain that verifies need not stay verifying under its own writers: a gap can hide a row that names a later one
  (`AuditStart.VerifyingStartCanFork`). From a quiet table with verifying, ascending chains, every interleaving that
  writes no hash already named stays verifying if and only if no row names itself or a later row
  (`AuditStart.StartIsSafeExactly`; over all deletes before one write, `AuditStart.SurvivesDeletesExactly`). A run from
  complete chains or the empty table can only fail by a collision between rows it stored itself
  (`AuditSafety.CompleteStartStaysVerified`). One chained row without a position always forks
  (`AuditStart.UnnumberedRowForks`).
- A batch equals repeated single writes except for two or more rows beside an unnumbered row
  (`AuditWriter.BatchRefinesExactly`).
- The hash covers what is stored exactly when `threats` is given (None is stored as JSON null and is fine), `created_at`
  is given and not None, and float, boolean, integer and UUID columns hold values of their own type: no integer or
  boolean in a float column, no number in a boolean one, no boolean in an integer one, no UUID text spelled otherwise
  than the column prints it (`AuditStorage.HashCoversStored`).
- Two different Python strings can have one JSON text when lone surrogates are allowed (`CanonicalJson.SplitPairCollides`);
  quoted texts are equal exactly when their UTF-16 forms are (`CanonicalJson.QuoteUnique`).
- The rate limiter's bound needs Redis's clock and the callers' stamps to stay in step: half a second between stamping
  and running the script can let the key expire under a live unit (`RateLimiter.LateScriptOverAdmits`). At given clock
  readings the bound holds for every mix of checks, reports, costs and limits if and only if no two calls are a window
  apart on Redis's clock and less by their stamps (`RateLimiter.WindowBoundExactly`).
- An email row whose sender disappears stays in `sending` for good, although the worker's introduction speaks of such a
  message being retried (`EmailDelivery.SenderLossStrands`, `EmailDelivery.StrandedForGood`); a sending row can still
  change exactly while it has a sender (`EmailDelivery.SendingSettlesExactly`).
- The string that is signed does not always determine id, timestamp and body (`WebhookSigning.DottedIdsCollide`): two ids
  can be confused exactly when one is the other, a dot, a printed integer, and then nothing or another dot
  (`WebhookSigning.ConfusableExactly`).
- A non-empty allowlist is stored as one that admits everyone exactly when all its entries are blank
  (`SourceAllowlist.BlankListOpens`, `SourceAllowlist.StoredOpensExactly`); storing changes a client's answer exactly
  then, or when only an entry with blanks around it admits the client, since the server reads entries without trimming
  them (`SourceAllowlist.NormalizeKeepsAnswersExactly`).
- Names are matched with `$`, which lets one final line break through: a published tool name conforms exactly when the
  tool's own name does not end in one (`ToolRouting.PublishedNameConforms`).
- Layers may be combined first exactly when no scalar in the middle cuts a dict above from a dict below
  (`PolicyMerge.AssociativeExactly`, `PolicyMerge.ScalarCuts`).

Two more differences from what the code or its standard says: the check `prefixlen < 96` never decides anything
(`SourceAllowlist.ShortNetworkIsNeverMapped`), and the dashboard's reader also accepts "::" that stands for no group at
all, which section 2.2 of RFC 4291 does not (`AddressForms.ReadsExactly`).

## Model

| member | source | states |
|---|---|---|
| CanonicalJson.QuoteUnique | security/audit_chain.py:175-180 | quoted strings followed by anything are equal exactly when the strings have the same UTF-16 form and what follows is equal |
| CanonicalJson.Utf16Injective | security/audit_chain.py:175-180 | strings without surrogates have different UTF-16 forms |
| CanonicalJson.SplitPairCollides | security/audit_chain.py:175-180 | with lone surrogates two strings share one JSON text |
| CanonicalJson.SortFieldsCorrect | security/audit_chain.py:156-156 | sorting a dict's items gives a strictly sorted list of the same items |
| CanonicalJson.SortedUnique | security/audit_chain.py:156-156 | two strictly sorted lists of the same items are the same list, so insertion order is forgotten |
| CanonicalJson.LessExactly | security/audit_chain.py:156-156 | keys are ordered by the first code point in which they differ, a prefix first |
| CanonicalJson.WriteUnique | security/audit_chain.py:175-180 | JSON texts read uniquely: equal texts followed by anything come from equal canonical values and equal remainders |
| CanonicalJson.WriteReadsBack | security/audit_chain.py:175-180 | a JSON reader gets every value back from its compact text, and then exactly what follows it |
| CanonicalJson.DumpsReadsBack | security/audit_chain.py:165-180 | the canonical text of a dict reads back as that dict with its keys in order, at every depth |
| CanonicalJson.CanonDecidesSame | security/audit_chain.py:137-162 | canonical forms are equal exactly when the values are the same up to the order of dict items at every depth |
| CanonicalJson.DumpsUnique | security/audit_chain.py:165-180 | two values dump to one text exactly when they are the same up to key order |
| CanonicalJson.JsonSafeIsJson | security/audit_chain.py:137-162 | what normalisation returns is plain JSON, whatever went in |
| CanonicalJson.RefusedExactly | security/audit_chain.py:137-162 | normalisation raises exactly on a value that holds, at some depth, something it does not support |
| CanonicalJson.JsonSafeDecidesSource | security/audit_chain.py:137-162 | normalised values are the same exactly when the values are: texts, timestamps and UUIDs by their characters, lists in order, dicts by key, at every depth |
| CanonicalJson.JsonSafeSame | security/audit_chain.py:142-156 | normalisation loses nothing of values that already are JSON |
| AuditSchema.CanonicalFieldsDistinct | security/audit_chain.py:58-93 | no canonical field is listed twice |
| AuditSchema.CanonicalExactly | security/audit_chain.py:58-93 | the canonical fields are the audit table's columns except id, record_hash, prev_hash, chain_seq and chain_format |
| AuditChain.GetExactly | security/audit_chain.py:174-174 | a column reads as what was given for it, and as None when nothing was |
| AuditChain.PayloadUnique | security/audit_chain.py:165-200 | two rows give one payload exactly when format's field set, the source value of every canonical field and the predecessor agree |
| AuditChain.PayloadIsConcatenation | security/audit_chain.py:165-200 | what is hashed is the canonical row's text followed by the predecessor's, with the errors of either |
| AuditChain.PayloadReadsBack | security/audit_chain.py:165-200 | what is hashed reads back, as JSON, to exactly the columns of the row's format with the row's values, in the order of their names, and then the predecessor |
| AuditChain.ChainSeqOnlyInFormatTwo | security/audit_chain.py:107-134 | the position is hashed in format 2 and in no other |
| AuditVerifier.GroupByPrev | scripts/verify_audit_chain.py:111-114 | the grouping lists, for every predecessor, exactly the rows claiming it |
| AuditVerifier.FindForks | scripts/verify_audit_chain.py:108-121 | one fork per predecessor claimed twice or more, first claimed first, with position and trace of all claimants, and no other |
| AuditVerifier.Walk | scripts/verify_audit_chain.py:123-164 | how far the rows verify, the first break and its kind, every gap passed, formats counted |
| AuditVerifier.VerifyTenant | scripts/verify_audit_chain.py:84-166 | the answer for the rows with a record_hash in the order they were read: a TypeError exactly when the walk reaches a row that cannot be normalised, otherwise an exact report - rows verified, first break, gaps, forks, formats, genesis and tip - clean if and only if they have neither break nor fork; the other rows are counted |
| AuditVerifier.AllHashedAnswers | scripts/verify_audit_chain.py:102-107 | when every row has a record_hash, the answer is about the rows themselves, as read |
| AuditVerifier.UnchainedRowOnlyCounts | scripts/verify_audit_chain.py:102-105 | one more row without a record_hash, wherever it is read, adds one to unchained_rows and changes nothing else |
| AuditVerifier.ClaimsExactly | scripts/verify_audit_chain.py:111-121 | the claimants listed for a predecessor are the rows whose prev_hash it is, in order, each by its position and trace |
| AuditVerifier.GapsExactly | scripts/verify_audit_chain.py:149-161 | the gaps listed are the adjacent rows whose positions are not consecutive, in order |
| AuditVerifier.FormatCountsExactly | scripts/verify_audit_chain.py:124-126 | every format met is counted once for each of its rows |
| AuditVerifier.CleanReportMeansVerified | scripts/verify_audit_chain.py:73-76 | an exact report is clean if and only if every row hashes to its record, adjacent rows link and no predecessor is shared |
| AuditEvidence.HashPinsRow | security/audit_chain.py:183-200 | rows with one record hash agree on every canonical field and the predecessor, or their own payloads collide |
| AuditEvidence.SameRowIsSameContent | security/audit_chain.py:107-134 | rows are the same to the hash exactly when both formats are known, both or neither hash the position, and then it, every canonical field and the predecessor agree, NULL and empty being one predecessor |
| AuditEvidence.TamperEvidence | scripts/verify_audit_chain.py:123-164 | two gap-free verifying chains with one tip hash: one is the end of the other in every canonical field, or a row of one and a row of the other have colliding payloads |
| AuditEvidence.NoUndetectedChange | security/audit_chain.py:95-107 | behind an unchanged tip no edit and no renumbering of format-2 rows verifies, unless an edited row's payload collides with an original one's |
| AuditEvidence.FormatOneRenumbers | security/audit_chain.py:95-107 | without the position in the hash any chain can be renumbered and still verifies |
| AuditWriter.MaterialiseDefaults | db/repositories/audit.py:44-61 | every listed column that is missing or None takes its plain default, in place, and nothing else changes |
| AuditWriter.ChainedRow | db/repositories/audit.py:110-121 | a new row carries the next position and format 2, and hashes to its own record_hash |
| AuditWriter.CreateMovesTip | db/repositories/audit.py:98-115 | after a write the new row is the tip of a numbered chain, however ties are broken; beside an unnumbered row it is numbered 1, and a single unnumbered row stays the tip |
| AuditWriter.AuditRepository.Create | db/repositories/audit.py:66-128 | the table gains exactly one row - the caller's columns, a created_at of its own if none was mentioned, plain defaults, a new trace; chained after the tenant's highest position, or with both hash columns NULL without a tenant - or nothing changes and an error is returned |
| AuditWriter.AuditRepository.BuildRecords | db/repositories/audit.py:199-217 | the batch loop builds the rows that chaining each after the one before gives, or the first error |
| AuditWriter.AuditRepository.CreateMany | db/repositories/audit.py:130-224 | a one-tenant batch is appended whole, each row with the caller's columns and naming the one before it at the next position, the first after the tip; or not at all; mixed tenants are refused |
| AuditWriter.NewRowWritten | db/repositories/audit.py:44-121 | every column of a new row: the caller's value, the clock for a created_at not mentioned, the plain default on a chained row, else NULL |
| AuditWriter.BatchIsRepeatedCreate | db/repositories/audit.py:130-224 | on a numbered chain a batch succeeds exactly when creating its rows one by one does, with the same table |
| AuditWriter.BatchRefinesExactly | db/repositories/audit.py:111-115 | where both succeed, batch and one-by-one agree if and only if there is at most one row, no tenant, or every chained row has a position |
| AuditStorage.HashCoversStored | db/repositories/audit.py:22-61 | after column and server defaults apply, the stored row hashes to its record_hash if and only if threats was given, created_at was given and not None, and every float, boolean, integer and UUID column holds a value of its own type - or the two payloads collide |
| AuditStorage.AuditSchemeCoversColumns | db/models.py:118-172 | the audit table's columns, their types and defaults meet the hypotheses of the previous row |
| AuditProtocol.StepKeepsInv | db/repositories/audit.py:66-224 | every step of a writer that writes no hash already named, a rollback, an unchained insert or an unlocked delete keeps the chain invariant of every tenant |
| AuditProtocol.FreshRunKeepsInv | db/repositories/audit.py:66-224 | so does every run of such steps |
| AuditProtocol.GetsReady | db/repositories/audit.py:160-186 | a writer that nothing interrupts arrives, takes its tenant's lock and reads the tip, in that order |
| AuditProtocol.UninterruptedWriter | db/repositories/audit.py:130-224 | a writer of the machine that nothing interrupts stores exactly what create_many stores, or nothing, and leaves no lock |
| AuditSafety.EveryRunVerifies | db/repositories/audit.py:66-224 | in every interleaving, whatever the digest, every tenant's chain verifies, positions ascend without repeats and a pending writer's number exceeds all stored ones - or two rows of the run's own history have colliding payloads |
| AuditSafety.CompleteChainIsSound | scripts/verify_audit_chain.py:149-164 | a chain that verifies back to its genesis row satisfies the invariant |
| AuditStart.QuietStartIsSound | db/repositories/audit.py:85-115 | with no writer under way, verifying chains in which no row names a later one satisfy the invariant |
| AuditSafety.CompleteStartStaysVerified | db/repositories/audit.py:66-224 | from complete chains or the empty table, every interleaving of writers, batches, rollbacks and unlocked deletes leaves every chain verifying with ascending positions, or holds a collision between rows it stored |
| AuditStart.ChainInvExactly | scripts/verify_audit_chain.py:108-164 | the invariant of a chain is: it verifies, positions ascend, and no row names itself or a later row |
| AuditStart.NextWriteVerifiesExactly | db/repositories/audit.py:89-115 | the next write keeps a verifying chain verifying if and only if no stored row already names the tip |
| AuditStart.SurvivesDeletesExactly | workers/tasks.py:204-232 | whatever is deleted first, the next write verifies - if and only if no row names itself or a later row |
| AuditStart.StartIsSafeExactly | db/repositories/audit.py:66-224 | from a quiet table of verifying chains every run that writes no hash already named keeps all of them verifying, if and only if no tenant's row names itself or a later one |
| AuditWritable.TenantCanWrite | db/repositories/audit.py:98-121 | a tenant with a stored row can write one more, under a new trace id, whose hash no stored row names - or two of the next rows it could write, one more than there are names to avoid, have colliding payloads |
| AuditWritable.SchemeStartIsSafeExactly | db/repositories/audit.py:66-224 | the exact condition on starting tables without a hypothesis on what can be written, or rows some tenant could write next collide |
| AuditWritable.AuditSchemeHashesTraces | security/audit_chain.py:58-93 | the audit table's columns and defaults meet what the two previous rows ask |
| AuditStart.VerifyingStartCanFork | scripts/verify_audit_chain.py:108-121 | a verifying chain that the next ordinary write forks |
| AuditStart.UnnumberedRowForks | db/repositories/audit.py:105-115 | two writes beside a single chained row without a position share a predecessor, however ties are broken |
| AuditProtocol.InsertIsCreate | db/repositories/audit.py:66-128 | a write without a tenant, as a step of the machine, is one create |
| AuditRetention.CleanupAuditLogs | workers/tasks.py:204-232 | kept, in order, are exactly the rows created within their own tenant's window of days of 86400 seconds (or the default for rows without tenant); days below one delete nothing, and the total is the number deleted |
| AuditRetention.CleanupKeepsChains | workers/tasks.py:186-232 | a cleanup at any moment keeps every chain verifying and every pending writer's tip good |
| WebhookQueue.RedisQueue.Enqueue | cache/webhook_queue.py:94-102 | the payload is appended under a new id |
| WebhookQueue.RedisQueue.EnqueueDelayed | cache/webhook_queue.py:105-118 | the member is scheduled, replacing an equal one |
| WebhookQueue.RedisQueue.PromoteDelayed | cache/webhook_queue.py:121-152 | due payloads move to the stream, earliest first and up to the batch; none with a later score moves, and none that is due stays unless the batch is full |
| WebhookQueue.RedisQueue.PromoteFetched | cache/webhook_queue.py:145-152 | every fetched member, stale or not, is appended once and unscheduled |
| WebhookQueue.RedisQueue.DecodeEntries | cache/webhook_queue.py:155-177 | payloads come out in order, broken text is acked away, an entry without the field stays pending |
| WebhookQueue.RedisQueue.Read | cache/webhook_queue.py:180-205 | the next unread entries, up to the count, become pending for the consumer |
| WebhookQueue.RedisQueue.ReadOwnPending | cache/webhook_queue.py:208-230 | the consumer's own unacked entries come back, lowest ids first, none left out while there is room; with room for all, every one that carries a payload is returned; only broken ones leave the pending list |
| WebhookQueue.RedisQueue.ClaimStale | cache/webhook_queue.py:233-258 | of the first ten times `count` pending entries, those idle long enough change hands and stay pending, lowest ids first, none left out while there is room |
| WebhookQueue.RedisQueue.Ack | cache/webhook_queue.py:261-263 | one entry leaves the pending list |
| WebhookQueue.RedisQueue.MoveToDlq | cache/webhook_queue.py:266-282 | the payload is buried with its reason and its entry acked |
| WebhookDelivery.DispatchOne | workers/webhook_delivery.py:107-136 | success acks, retry schedules the next attempt at least a second ahead and acks, dead letter buries and acks, anything else leaves the queue alone |
| WebhookDelivery.UninterruptedTaskSettles | workers/webhook_delivery.py:92-136 | a task of the machine that nothing interrupts leaves exactly the queue DispatchOne leaves |
| WebhookDelivery.OtherSteps | workers/webhook_delivery.py:186-229 | the machine's reclaims hand entries to another worker, its losses end a task or a worker, and they change nothing else |
| WebhookDelivery.RetryWaits | workers/webhook_delivery.py:116-128 | a rescheduled attempt is not fetched for promotion before its delay, at least a second, is over, whatever happens in between |
| WebhookDelivery.StepKeepsInv | workers/webhook_delivery.py:92-229 | every step of any worker, crash or reclaim keeps each message safe: never only in an entry about to be acked |
| WebhookDelivery.NoMessageLost | workers/webhook_delivery.py:186-229 | in every run every enqueued message is unread, pending, scheduled, dead-lettered or reported delivered |
| RetrySchedule.NextRetryDelay | services/webhooks/retry_schedule.py:51-88 | an attempt below 1 is an error; otherwise a positive delay exactly while another attempt is allowed |
| RetrySchedule.DelaysGrow | services/webhooks/retry_schedule.py:51-88 | the first delay is 5 seconds, no delay is shorter than the one before, and seven attempts have one |
| RetrySchedule.WholeSchedule | services/webhooks/retry_schedule.py:24-60 | what is left of the schedule after each attempt, 27 hours 35 minutes and 5 seconds in all |
| WebhookRetry.SoloStepKeepsInv | workers/webhook_delivery.py:107-136 | with one worker, no attempt is ever on the stream twice and each later attempt was handed on by the one before |
| WebhookRetry.OneRunPerAttempt | workers/webhook_delivery.py:107-136 | the handler runs at most once per message and attempt number, and never past the last |
| WebhookRetry.QuietMeansSettled | workers/webhook_delivery.py:107-136 | with nothing left to do every message was delivered or dead-lettered |
| WebhookRetry.NotQuietCanMove | workers/webhook_delivery.py:201-229 | until then the worker has a step to take |
| WebhookRetry.ProgressGrows | workers/webhook_delivery.py:107-136 | every step of the worker raises a measure |
| WebhookRetry.EveryMessageSettles | workers/webhook_delivery.py:107-136 | the worker's steps are bounded by the messages enqueued, each message's handler runs at most MAX_ATTEMPTS times, and when no step is left every message was delivered or dead-lettered |
| RateLimiter.CountedMembers | cache/rate_limit_store.py:29-31 | a unit counts exactly while the key is there and less than 60 seconds have passed since its stamp |
| RateLimiter.AfterExactly | cache/rate_limit_store.py:29-42 | a call that fits adds one unit for each of its cost, stamped now, and renews the key for 60 seconds; one that does not adds none |
| RateLimiter.SortedSet.Script | cache/rate_limit_store.py:21-43 | prune, count, then charge the whole cost or nothing; refusal exactly when the cost does not fit; the remaining slots |
| RateLimiter.SortedSet.IsRateLimited | cache/rate_limit_store.py:46-91 | the effective limit and cost, the verdict of the script, and letting through unrecorded when Redis is away |
| RateLimiter.SortedSet.Headers | cache/rate_limit_store.py:94-119 | remaining slots without charging any |
| RateLimiter.CountedExactly | cache/rate_limit_store.py:29-42 | a call counts exactly the admitted units of its window, if and only if the key has not expired under a live one |
| RateLimiter.SetRefinesHistory | cache/rate_limit_store.py:29-42 | after every call the set holds exactly the admitted units newer than a window, and all verdicts so far are those of a plain filter over the full history |
| RateLimiter.CountIsInWindowCost | cache/rate_limit_store.py:30-41 | the count behind "remaining" is the cost admitted in the window |
| RateLimiter.HeadersForetell | cache/rate_limit_store.py:105-107 | the reported remaining is the largest cost a check at that instant would admit |
| RateLimiter.WindowBound | cache/rate_limit_store.py:29-42 | over every run the cost admitted in any window (t-60, t] is within the limit, whatever the costs |
| RateLimiter.WindowBoundExactly | cache/rate_limit_store.py:29-83 | at given clock readings every mix of checks and reports, whatever their costs and limits up to `limit`, stays within `limit` in every window, if and only if no two calls are a window apart on Redis's clock and less by their stamps |
| RateLimiter.LateScriptOverAdmits | cache/rate_limit_store.py:72-83 | two calls whose clocks are out of step admit twice the limit in one window |
| EmailOutbox.Decide | workers/email_delivery.py:116-155 | a retry only below both the configured ceiling and the schedule's end, in the future; failure of a transient error only at one of them |
| EmailOutbox.DecisionSettles | workers/email_delivery.py:109-159 | what is recorded for each result: accepted with id and time exactly when the provider accepted, failed exactly on a permanent error or at the ceiling or the schedule's end, otherwise queued at now plus the schedule's delay, with the error text of each case |
| EmailOutbox.OutboxRepository.Create | db/repositories/email_outbox.py:42-84 | a queued row, zero attempts, due now |
| EmailOutbox.OutboxRepository.ClaimBatch | db/repositories/email_outbox.py:86-116 | exactly the selected due rows move to sending; what due and unlocked row is left is no older and only because the batch is full |
| EmailOutbox.OutboxRepository.MarkAccepted | db/repositories/email_outbox.py:118-136 | the row is accepted with its attempt count; a missing row is no change |
| EmailOutbox.OutboxRepository.MarkFailed | db/repositories/email_outbox.py:138-155 | the row is failed with its attempt count and the shortened error; a missing row is no change |
| EmailOutbox.OutboxRepository.Reschedule | db/repositories/email_outbox.py:157-179 | the row is queued again for later with the shortened error; a missing row is no change |
| EmailOutbox.Truncate | db/repositories/email_outbox.py:269-274 | an error is kept trimmed, whole up to 500 characters, and otherwise as its first 497 and three dots |
| EmailOutbox.OutboxRepository.RetryOrFailRow | workers/email_delivery.py:138-159 | retry or failure by ceiling and schedule |
| EmailOutbox.OutboxRepository.ProcessOne | workers/email_delivery.py:95-135 | one outcome is recorded for the attempt after the snapshot's: the row's whole new state for each result, every other row unchanged |
| EmailDelivery.StepKeepsInv | workers/email_delivery.py:73-183 | every step of any worker keeps: claims hold disjoint due rows as read, senders hold distinct sending rows |
| EmailDelivery.Endings | workers/email_delivery.py:73-92 | a claim that rolls back, a sender that is lost and a row that is deleted change nothing else |
| EmailDelivery.RowStepHolds | db/repositories/email_outbox.py:86-179 | a row changes only by being claimed when due, or by its one sender recording what its one result settles, which adds exactly one attempt |
| EmailDelivery.OneSenderPerRow | workers/email_delivery.py:73-183 | in every run a row has at most one sender, attempt_count is the number of outcomes recorded, and no claim holds a row before its available_at |
| EmailDelivery.ScheduleBoundsAttempts | workers/email_delivery.py:138-155 | attempt_count never exceeds the schedule, whatever ceilings the settings give |
| EmailDelivery.TerminalIsFinal | db/repositories/email_outbox.py:118-155 | an accepted or failed row never changes again in any column |
| EmailDelivery.SenderLossStrands | workers/email_delivery.py:186-234 | a run that queues, selects and claims a row and loses its sender, leaving it sending without one |
| EmailDelivery.SendingSettlesExactly | workers/email_delivery.py:95-183 | a sending row has a step that changes it if and only if it has a sender |
| EmailDelivery.StrandedForGood | workers/email_delivery.py:186-234 | a sending row without a sender never changes again |
| WebhookSecrets.EndpointRepository.RotateSecret | db/repositories/webhook_endpoint.py:309-363 | a grace of zero or less is refused, a missing endpoint is None, otherwise the old secret joins the survivors with its grace and the new one is active |
| WebhookSecrets.SigningSecrets | services/webhooks/delivery_handler.py:88-197 | a delivery signs with the active secret and every old one still in grace; it raises if and only if some stored expiry has no zone or one of those secrets does not decrypt |
| WebhookSecrets.RotationRefinesHistory | db/repositories/webhook_endpoint.py:335-363 | after any rotations the stored list is exactly the replaced secrets alive at the last rotation, and from then on the same ones are alive as in the full history |
| WebhookSecrets.StoredExactly | db/repositories/webhook_endpoint.py:335-363 | after the last rotation an old secret is stored exactly while now is before the instant of its replacement plus its grace in hours of 3600 seconds |
| WebhookSecrets.SignsWithExactly | services/webhooks/delivery_handler.py:88-197 | a delivery signs with the newest secret and with every other exactly while it is in its grace |
| WebhookSecrets.ReceiverKeepsVerifying | db/repositories/webhook_endpoint.py:309-363 | where no expiry lacked a zone and the secrets in use decrypt, the headers are built, and a receiver holding the active secret or any replaced one still in grace accepts them within the tolerance |
| WebhookSecrets.RotationKeepsZones | db/repositories/webhook_endpoint.py:347-350 | rotation never stores an expiry without a zone |
| WebhookSecrets.RetiredSecretIsRefused | db/repositories/webhook_endpoint.py:421-436 | a receiver holding neither the newest secret nor one whose grace has not ended accepts nothing, whatever id, timestamp and body it is shown, or two of the MACs collide |
| WebhookSigning.Verify | security/webhook_signing.py:111-160 | true if and only if there is a secret, the timestamp is a number within the tolerance, and some v1 entry decodes to the MAC under some secret |
| WebhookSigning.EntryReadsBack | security/webhook_signing.py:66-80 | an entry begins with v1 and a comma, holds no space and reads back as the MAC it was made from |
| WebhookSigning.EntryMacExactly | security/webhook_signing.py:147-155 | an entry carries what stands, decoded, after v1 and a comma, blanks around the entry aside |
| WebhookSigning.BuiltHeadersVerify | security/webhook_signing.py:83-108 | headers as built verify for any receiver sharing a secret, within the tolerance |
| WebhookSigning.AcceptedExactly | security/webhook_signing.py:111-160 | whatever is presented with a built signature, it is accepted if and only if the timestamp reads, the string to sign is the one signed, the time is within tolerance and a secret is shared, or two of the MACs collide |
| WebhookSigning.AcceptedMessageExactly | security/webhook_signing.py:111-160 | for ids that cannot be confused that is exactly the id, timestamp and body signed |
| WebhookSigning.ConfusableExactly | security/webhook_signing.py:78-78 | two ids admit different messages with one signed string if and only if one is the other, a dot, a printed integer, and nothing or a dot |
| WebhookSigning.SignedLayout | security/webhook_signing.py:78-78 | the signed bytes: id, a dot, the timestamp's digits, a dot, body |
| WebhookSigning.SignedUnique | security/webhook_signing.py:78-78 | for ids neither of which extends the other so, the signed string determines id, timestamp and body |
| WebhookSigning.PlainIdsAreApart | security/webhook_signing.py:78-78 | ids without a dot extend one another in neither direction and cannot be confused |
| WebhookSigning.DottedIdsCollide | security/webhook_signing.py:78-78 | two messages with one signed string, one of whose ids has a dot |
| Base64.RoundTrip | security/webhook_signing.py:80-80 | every byte string decodes from its encoding |
| Base64.GroupBits | security/webhook_signing.py:80-80 | three bytes are 24 bits, written as four symbols of six bits, highest first |
| Base64.SymbolsAre | security/webhook_signing.py:80-80 | the symbols are those of table 1 of RFC 4648 |
| Base64.GroupsDecode | security/webhook_signing.py:147-155 | what each group of four decodes to, with two, one or no padding; bits left over before padding are dropped |
| Base64.DecodableShape | security/webhook_signing.py:147-155 | only whole groups of four, of the alphabet and padding, decode |
| Texts.SplitJoin | security/webhook_signing.py:107-147 | parts without the separator survive joining and splitting |
| Texts.IntRoundTrip | security/webhook_signing.py:106-134 | int() reads every integer that str() prints |
| Texts.ParseIntExactly | security/webhook_signing.py:131-134 | int() reads exactly blanks, at most one sign, digits with single underscores between them, and blanks, with that value |
| Texts.UnderscoresGo | security/webhook_signing.py:131-134 | in a numeral the underscores go and every other character stays |
| Texts.SpacesAre | security/ip_allowlist.py:84-84 | the 29 characters that strip() takes off |
| Texts.StripExactly | security/ip_allowlist.py:84-84 | stripping takes the blanks at both ends and nothing else |
| AddressText.ReadV4 | dashboard/lib/ipAllowlist.ts:92-102 | four octets of one to three digits, none above 255, or null |
| AddressText.QuadReadsBack | dashboard/lib/ipAllowlist.ts:92-102 | every printed dotted quad reads back as its four octets |
| AddressText.QuadExactly | dashboard/lib/ipAllowlist.ts:92-102 | a quad reads exactly when it is four numbers of one to three digits, none above 255, joined by dots, and then as those |
| AddressText.BytesOfAt | dashboard/lib/ipAllowlist.ts:135-141 | each group gives its high byte and then its low byte |
| AddressText.ReadV6 | dashboard/lib/ipAllowlist.ts:104-142 | the parser with its splice and its checks reads what its description by halves, expansion and gap gives |
| AddressText.ReadGroups | dashboard/lib/ipAllowlist.ts:135-141 | the bytes of all groups, or null when one is not a group |
| AddressForms.FullFormReads | dashboard/lib/ipAllowlist.ts:104-142 | eight groups in full, in any spelling, with or without a dotted quad, read as their bytes |
| AddressForms.CompressedRoundTrip | dashboard/lib/ipAllowlist.ts:104-142 | any address with a run of zero groups compressed, any spelling of the rest, dotted quad or not, reads back as its sixteen bytes |
| AddressForms.MappedQuadReads | dashboard/lib/ipAllowlist.ts:112-124 | ::ffff:a.b.c.d reads as ten zero bytes, two of ones, and a, b, c, d |
| AddressForms.ReadsExactly | dashboard/lib/ipAllowlist.ts:104-142 | the parser accepts exactly the full and compressed forms, with exactly their meaning, always sixteen bytes |
| NetworkCoverage.ToBytesExactly | dashboard/lib/ipAllowlist.ts:145-147 | what reads at all is a dotted quad, as four bytes, or one of the IPv6 forms, as sixteen |
| NetworkCoverage.NumberAppend | dashboard/lib/ipAllowlist.ts:145-147 | as a number an address counts its first byte most |
| NetworkCoverage.BytesAgreeIsTopBits | dashboard/lib/ipAllowlist.ts:169-174 | bytes agree under the masks if and only if the numbers agree on their top bits, for every prefix and width |
| NetworkCoverage.ByteMaskIsMask | dashboard/lib/ipAllowlist.ts:172-172 | the shifted and truncated byte is ones above zeros |
| NetworkCoverage.MaskLoop | dashboard/lib/ipAllowlist.ts:169-175 | the loop with its early exits decides agreement of the top bits as whole numbers |
| NetworkCoverage.EntryCovers | dashboard/lib/ipAllowlist.ts:150-175 | true if and only if entry and address can be read, are equally wide, and agree on the entry's prefix |
| NetworkCoverage.WrittenPrefix | dashboard/lib/ipAllowlist.ts:150-175 | an entry with a prefix written after it admits exactly the addresses of its width that agree on that many top bits, and nothing when the prefix is empty, not digits, or too long |
| NetworkCoverage.PrintedPrefix | dashboard/lib/ipAllowlist.ts:150-175 | for a printed prefix, the same with the number itself |
| NetworkCoverage.WrittenAlone | dashboard/lib/ipAllowlist.ts:161-165 | an entry without a prefix admits exactly one address, however spelled |
| NetworkCoverage.SuggestionIsExact | dashboard/lib/ipAllowlist.ts:188-190 | the suggested entry admits exactly the address it was made for, however that is spelled |
| NetworkCoverage.UncoveredAddresses | dashboard/lib/ipAllowlist.ts:182-185 | exactly the addresses no entry covers, in order; none for an empty list |
| SourceAllowlist.MappedSpelling | security/ip_allowlist.py:46-65 | ::ffff:a.b.c.d unmaps to a.b.c.d |
| SourceAllowlist.MappedExactly | security/ip_allowlist.py:46-65 | exactly the 128-bit addresses with those top 96 bits unmap, to their low 32 bits |
| SourceAllowlist.ShortNetworkIsNeverMapped | security/ip_allowlist.py:52-65 | a network shorter than 96 bits never has a mapped address |
| SourceAllowlist.AdmitsExactly | security/ip_allowlist.py:46-65 | an entry admits exactly the clients sharing its prefix in one 128-bit space, except that a network shorter than 96 bits never admits an IPv4 client |
| SourceAllowlist.MappedNetworkIsTheSame | security/ip_allowlist.py:52-65 | a mapped network admits exactly what the IPv4 network 96 bits shorter admits |
| SourceAllowlist.IsAllowed | security/ip_allowlist.py:118-160 | everything for an empty list; otherwise a readable client and some readable entry that admits it |
| SourceAllowlist.SpellingDoesNotMatter | security/ip_allowlist.py:118-160 | an IPv4 address and its mapped spelling get the same answer from every list |
| SourceAllowlist.NormalizeEntries | security/ip_allowlist.py:68-115 | the stored list, or the first error in order |
| SourceAllowlist.NormalErrExactly | security/ip_allowlist.py:82-109 | a list is stored exactly when every entry is blank or a network that still restricts once unmapped; otherwise the first other entry is reported, with what is wrong with it |
| SourceAllowlist.StoredExactly | security/ip_allowlist.py:82-115 | what is stored is the entries that are not blank, in order, each as its unmapped network is printed |
| SourceAllowlist.StoredIsCanonical | security/ip_allowlist.py:90-113 | everything stored is an unmapped network, none with a zero prefix |
| SourceAllowlist.NormalizeIsIdempotent | security/ip_allowlist.py:68-115 | normalising twice is normalising once |
| SourceAllowlist.StoredEmptyExactly | security/ip_allowlist.py:78-86 | nothing is stored if and only if every entry is blank |
| SourceAllowlist.StoredAnswersExactly | security/ip_allowlist.py:68-160 | the stored list admits everyone if all entries are blank, and otherwise exactly whom some entry admits once trimmed |
| SourceAllowlist.StoredOpensExactly | security/ip_allowlist.py:78-86 | a non-empty typed list is stored as one that admits every client if and only if all its entries are blank |
| SourceAllowlist.NormalizeKeepsAnswersExactly | security/ip_allowlist.py:68-160 | storing keeps a client's answer if and only if the list was empty, or not all blank and the client is not admitted by padded entries alone |
| SourceAllowlist.NormalizeKeepsAnswers | security/ip_allowlist.py:68-160 | with no padded entry and not all blank, what is stored answers every client as what was typed, blanks beside real entries included |
| SourceAllowlist.BlankListOpens | security/ip_allowlist.py:78-84 | a list of one blank is stored as the empty list and then admits everyone, though as typed it admits no one |
| ToolRouting.ExposedNameInjective | mcp_gateway/routing.py:77-79 | with underscore-free server names the exposed name determines server and tool, whatever the tool is called |
| ToolRouting.ServerNameHasNoUnderscore | mcp_gateway/config.py:34-34 | a name the pattern accepts has no underscore, final line break or not |
| ToolRouting.ServerNameExactly | mcp_gateway/config.py:34-34 | a server name is 1 to 64 letters, digits, dots or dashes, up to one final line break |
| ToolRouting.AcceptableExactly | mcp_gateway/routing.py:102-120 | under a plain server name a tool is accepted exactly when its name is not empty, fits into 128 with the prefix, and has only letters, digits, dots, dashes and underscores, up to one final line break |
| ToolRouting.PlainToolIsPublished | mcp_gateway/routing.py:91-141 | a tool named by 1 to 62 such characters is published under server, two underscores, name, unless its server listed the name before |
| ToolRouting.RoutingTable.AddServer | mcp_gateway/routing.py:91-141 | the table after one server; each tool is published or rejected, one of the two |
| ToolRouting.RoutingTable.Resolve | mcp_gateway/routing.py:145-151 | exact lookup, a miss is a miss |
| ToolRouting.RoutesExactly | mcp_gateway/routing.py:91-151 | a name maps to a route if and only if some configured server publishes it: its first tool of that acceptable name |
| ToolRouting.TakenExactly | mcp_gateway/routing.py:121-134 | a composed name is taken if and only if the same server listed the tool before, and then by that server |
| ToolRouting.RejectionsExactly | mcp_gateway/routing.py:102-134 | the rejections are exactly the bad names and the repeats inside one server's own list, in order |
| ToolRouting.ToolsAreConserved | mcp_gateway/routing.py:91-141 | routes and rejections together number the tools listed |
| ToolRouting.OrderDoesNotMatter | mcp_gateway/routing.py:82-141 | the routes do not depend on the order of the servers |
| ToolRouting.FindShadowing | mcp_gateway/routing.py:168-204 | an offending route is reported if and only if there is one, and then the first |
| ToolRouting.ShadowsExactly | mcp_gateway/routing.py:192-197 | a route offends if and only if its downstream name is an exposed name of another configured server |
| ToolRouting.ShadowingIgnoresOrder | mcp_gateway/routing.py:168-204 | whether start-up is refused does not depend on the order of the servers |
| ToolRouting.CheckConfig | mcp_gateway/config.py:84-228 | accepted if and only if there is a server, every name matches, every command is there and timeout positive, no name repeats, and with several servers every allow or deny entry is namespaced; accepted names are underscore-free, and an error is true of the server or entry it names |
| ToolRouting.NamespacedExactly | mcp_gateway/config.py:216-217 | an entry is namespaced exactly when two underscores occur in it |
| ToolRouting.BrokenServerPublishesNothing | mcp_gateway/routing.py:115-120 | a server name with a line break publishes no tool |
| ToolRouting.PublishedNameConforms | mcp_gateway/routing.py:37-39 | a published name keeps to the MCP rules if and only if the tool's own name does not end in a line break |
| PolicyMerge.MergeLoop | services/policy_resolver.py:58-80 | the loop over the child's items, in any order, computes the merge |
| PolicyMerge.MergeExactly | services/policy_resolver.py:58-80 | key by key: null inherits, two dicts are merged, anything else of the child's replaces |
| PolicyMerge.MergeIdempotent | services/policy_resolver.py:58-80 | the same child laid over twice changes nothing more |
| PolicyMerge.PathMeaning | services/policy_resolver.py:58-80 | along every path: the child's scalar if it has one, nothing if it hides the path, else the parent's |
| PolicyMerge.LastLayerWins | services/policy_resolver.py:58-80 | under any number of layers a path has the scalar of the last layer that gives one, unless a later one hides it |
| PolicyMerge.AssociativeExactly | services/policy_resolver.py:58-80 | merging is associative on three layers if and only if no middle scalar cuts a dict above from a dict below that does not cover it |
| PolicyMerge.CompatibleLayersCombine | services/policy_resolver.py:215-240 | layers in which no path is a dict in one and a scalar in the next may be combined first |
| PolicyMerge.ScalarCuts | services/policy_resolver.py:58-80 | three layers for which the order of combining matters |
| PolicyResolver.ResolvePolicy | services/policy_resolver.py:198-251 | an answer if and only if every layer loaded; then the tenant's policy under its own department's and application's overrides, its own limit, and the source |
| PolicyResolver.EffectivePolicy | services/policy_resolver.py:198-244 | along every path the application's own limit, else the last of the request's own layers that speaks |
| PolicyResolver.LayersInOrder | services/policy_resolver.py:198-244 | along every path: the application's own limit, then the application, then the department, each only if owned by the request's tenant, then what the tenant stored |
| PolicyResolver.ForeignOverridesAreIgnored | services/policy_resolver.py:203-237 | another tenant's department or application changes neither the answer nor whether there is one |

## Left out

- AuditVerifier.VerifyTenant: rows come ordered by position; how the database orders equal positions is open. The texts of break details are not modelled.
- AuditStorage.HashCoversStored: speaks of rows that are stored; values a column refuses make the write fail instead. How JSONB re-prints floats inside nested scores is not modelled; floats are opaque tokens that come back as stored. Nor is the foreign key that clears proxy_interaction_id when an interaction is deleted, which the services never do.
- AuditSafety.EveryRunVerifies: on SQLite the code takes no lock, and that path is not modelled.
- AuditStart.StartIsSafeExactly: is about tables whose chained rows are numbered in ascending order; tables with unnumbered rows are covered by AuditStart.UnnumberedRowForks, tables with repeated positions are not.
- CanonicalJson.JsonSafeSame: dict keys are strings; Python's `str(k)` on other key types is not modelled.
- WebhookRetry.EveryMessageSettles: bounds steps, not time; the clock readings of its steps are any that are late enough, and WebhookDelivery.RetryWaits says how late that is.
- WebhookQueue.RedisQueue.PromoteFetched: in the machine any due members may be fetched, not only the earliest; they were scheduled and due when fetched.
- RateLimiter.WindowBound: counts recorded admissions; calls let through while Redis is away are not recorded by the source either.
- EmailDelivery.StepKeepsInv: reading a row and writing its outcome is one step; nobody else may write a sending row, so nothing can come between.
- WebhookSigning.Verify: int() also accepts decimal digits outside ASCII and refuses texts of more than 4300 digits; neither is modelled.
- Base64.RoundTrip: the decoder refuses padding after a complete group; library versions differ there, and no encoder writes it.
- PolicyResolver.ResolvePolicy: building the tenant-level policy from stored settings, plugin layers, decrypting provider keys and the final threshold check are not modelled, nor is the sharing of nested dicts between a merged policy and its layers.
- Truncation of the newest audit rows, which the verifier says it cannot see.
- Detectors, models, LLM clients, the HTTP and SMTP senders, FastAPI endpoints, settings, metrics, logging and the dashboard's components: results of code or services that are not part of this model, or plumbing.
- Audit listings and statistics, checkEntries and parseEntries of the dashboard, and the message-id of emails: they would only add easy members.
