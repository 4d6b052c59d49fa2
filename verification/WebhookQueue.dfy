/**
 The Redis Streams queue behind outbound webhooks (cache/webhook_queue.py).

 Every Redis command is one atomic update of the queue; `View` is the queue as a value, and each method is
 tied to a function on it.
*/
module WebhookQueue {
  import opened Outcomes
  import opened Arithmetic
  import opened Sequences

  type Consumer = nat
  type Message = nat

  /** A payload: which message it is (everything but the attempt number), and attempt_number if present. */
  datatype Payload = Payload(message: Message, attemptNumber: Option<int>) {
    function Attempt(): int { if attemptNumber.None? then 1 else attemptNumber.value }

    /** The payload as it is rescheduled: the next attempt of the same message. */
    function Requeued(): Payload { Payload(message, Some(Attempt() + 1)) }
  }

  /** What a stream entry holds under the payload field: nothing, text that is not JSON, or a payload. */
  datatype Entry = NoField | Malformed | Carries(payload: Payload)

  datatype Dead = Dead(payload: Payload, reason: string)

  /** A stream id is the position of its entry; the group has delivered every id below `cursor`. */
  datatype Queue = Queue(
    main: seq<Entry>,
    cursor: nat,
    pending: map<nat, Consumer>,
    delayed: map<Payload, int>,
    dlq: seq<Dead>)
  {
    predicate Valid() { cursor <= |main| && forall id | id in pending :: id < cursor }

    function Enqueue(p: Payload): Queue { this.(main := main + [Carries(p)]) }

    function EnqueueDelayed(p: Payload, runAt: int): Queue { this.(delayed := delayed[p := runAt]) }

    /** MULTI: for each member XADD, ZREM. */
    function Promote(due: seq<Payload>): Queue {
      this.(main := main + AllCarry(due), delayed := delayed - (set p | p in due))
    }

    /** XREADGROUP ">": the next `n` entries become pending for `consumer`. */
    function Deliver(consumer: Consumer, n: nat): Queue
      requires cursor + n <= |main|
    {
      this.(cursor := cursor + n, pending := pending + map id | id in Range(cursor, n) :: consumer)
    }

    /** What decoding does to the pending list: an entry whose text is not JSON is acked away. */
    function DropBroken(ids: seq<nat>): Queue { this.(pending := pending - Broken(main, ids)) }

    /** XAUTOCLAIM: pending entries change hands. */
    function Claim(consumer: Consumer, ids: set<nat>): Queue {
      this.(pending := map id | id in pending :: if id in ids then consumer else pending[id])
    }

    function Ack(id: nat): Queue { this.(pending := pending - {id}) }

    function Bury(p: Payload, reason: string): Queue { this.(dlq := dlq + [Dead(p, reason)]) }
  }

  function AllCarry(due: seq<Payload>): (r: seq<Entry>)
    ensures |r| == |due| && forall i | 0 <= i < |due| :: r[i] == Carries(due[i])
  {
    seq(|due|, i requires 0 <= i < |due| => Carries(due[i]))
  }

  function Range(start: nat, n: nat): (r: seq<nat>)
    ensures |r| == n && forall i | 0 <= i < n :: r[i] == start + i
    ensures forall id :: id in r <==> start <= id < start + n
  {
    if n == 0 then [] else Range(start, n - 1) + [start + n - 1]
  }

  /** The pending ids below `n` that satisfy `wanted`, lowest first. */
  function PendingIds(pending: map<nat, Consumer>, n: nat, wanted: nat -> bool): (r: seq<nat>)
    ensures forall id :: id in r <==> id < n && id in pending && wanted(id)
    ensures forall i, j | 0 <= i < j < |r| :: r[i] < r[j]
  {
    if n == 0 then []
    else
      var init := PendingIds(pending, n - 1, wanted);
      if n - 1 in pending && wanted(n - 1) then assert forall i | 0 <= i < |init| :: init[i] in init; init + [n - 1] else init
  }

  function First(ids: seq<nat>, count: nat): (r: seq<nat>)
    ensures r <= ids && |r| == if |ids| < count then |ids| else count
  {
    if |ids| < count then ids else ids[..count]
  }

  /** Nothing comes before what is left out, and only when there is no more room is anything left out. */
  ghost predicate LowestOf(wanted: set<nat>, count: nat, ids: seq<nat>) {
    && |ids| <= count && (forall i, j | 0 <= i < j < |ids| :: ids[i] < ids[j])
    && (forall i | 0 <= i < |ids| :: ids[i] in wanted)
    && (forall id | id in wanted && id !in ids :: |ids| == count && forall i | 0 <= i < |ids| :: ids[i] < id)
  }

  /** The entries delivered to this consumer and not acked. */
  function OwnIds(pending: map<nat, Consumer>, consumer: Consumer): set<nat> {
    set id | id in pending && pending[id] == consumer
  }

  /** The pending entries with fewer than `n` pending ones before them. */
  function Examined(pending: map<nat, Consumer>, n: nat): set<nat> {
    set id | id in pending && |set x | x in pending && x < id| < n
  }

  /** What XAUTOCLAIM looks at is ten times what it may return. */
  function StaleIds(pending: map<nat, Consumer>, idle: nat -> int, minIdle: int, count: nat): set<nat> {
    set id | id in Examined(pending, 10 * count) && idle(id) >= minIdle
  }

  /** The consumer's own pending entries, as XREADGROUP with id 0 returns them. */
  function OwnPending(q: Queue, consumer: Consumer, count: nat): (r: seq<nat>)
    requires q.Valid()
    ensures LowestOf(OwnIds(q.pending, consumer), count, r)
  {
    var all := PendingIds(q.pending, q.cursor, id => id in q.pending && q.pending[id] == consumer);
    FirstAreLowest(OwnIds(q.pending, consumer), all, count);
    First(all, count)
  }

  /** What XAUTOCLAIM takes: of the first ten times `count` pending entries, those idle long enough, up to `count`. */
  function StalePending(q: Queue, idle: nat -> int, minIdle: int, count: nat): (r: seq<nat>)
    requires q.Valid()
    ensures LowestOf(StaleIds(q.pending, idle, minIdle, count), count, r)
  {
    var inOrder := PendingIds(q.pending, q.cursor, _ => true);
    var examined := First(inOrder, 10 * count);
    var all := PendingIds(q.pending, q.cursor, id => id in examined && idle(id) >= minIdle);
    FirstAreExamined(q.pending, inOrder, 10 * count);
    FirstAreLowest(StaleIds(q.pending, idle, minIdle, count), all, count);
    First(all, count)
  }

  lemma FirstAreLowest(wanted: set<nat>, all: seq<nat>, count: nat)
    requires (forall id :: id in all <==> id in wanted) && forall i, j | 0 <= i < j < |all| :: all[i] < all[j]
    ensures LowestOf(wanted, count, First(all, count))
  {
    var r := First(all, count);
    assert forall i | 0 <= i < |r| :: all[i] in r;
    forall id | id in wanted && id !in r ensures |r| == count && forall i | 0 <= i < |r| :: r[i] < id {
      var k :| 0 <= k < |all| && all[k] == id;
    }
  }

  /** An entry is among the first `n` exactly when fewer than `n` come before it. */
  lemma FirstAreExamined(pending: map<nat, Consumer>, inOrder: seq<nat>, n: nat)
    requires (forall id :: id in inOrder <==> id in pending) && forall i, j | 0 <= i < j < |inOrder| :: inOrder[i] < inOrder[j]
    ensures forall id :: id in First(inOrder, n) <==> id in Examined(pending, n)
  {
    var r := First(inOrder, n);
    assert forall i | 0 <= i < |r| :: inOrder[i] in r;
    forall k | 0 <= k < |inOrder| ensures inOrder[k] in r <==> inOrder[k] in Examined(pending, n) {
      Rank(inOrder, k);
      assert (set x | x in pending && x < inOrder[k]) == (set x | x in inOrder && x < inOrder[k]);
      if inOrder[k] in r {
        var i :| 0 <= i < |r| && r[i] == inOrder[k];
        assert inOrder[i] == inOrder[k];
      }
    }
    forall id | id in First(inOrder, n) || id in Examined(pending, n) ensures exists k | 0 <= k < |inOrder| :: inOrder[k] == id {
      assert id in inOrder;
    }
  }

  lemma {:induction false} Rank(s: seq<nat>, k: nat)
    requires k < |s| && forall i, j | 0 <= i < j < |s| :: s[i] < s[j]
    ensures |set x | x in s && x < s[k]| == k
  {
    var before := set x | x in s && x < s[k];
    if k == 0 {
      assert before == {};
    } else {
      Rank(s, k - 1);
      var earlier := set x | x in s && x < s[k - 1];
      assert before == earlier + {s[k - 1]};
    }
  }

  /** The entries among `ids` that a worker can process, in order. */
  function Decoded(main: seq<Entry>, ids: seq<nat>): seq<(nat, Payload)> {
    if ids == [] then []
    else
      var init, id := Decoded(main, ids[..|ids| - 1]), ids[|ids| - 1];
      if id < |main| && main[id].Carries? then init + [(id, main[id].payload)] else init
  }

  function CarriesAt(main: seq<Entry>): nat -> bool { (id: nat) => id < |main| && main[id].Carries? }

  function IdsOf(out: seq<(nat, Payload)>): (r: seq<nat>)
    ensures |r| == |out| && forall k | 0 <= k < |r| :: r[k] == out[k].0
  {
    seq(|out|, k requires 0 <= k < |out| => out[k].0)
  }

  lemma IdsOfNext(out: seq<(nat, Payload)>, x: (nat, Payload))
    ensures IdsOf(out + [x]) == IdsOf(out) + [x.0]
  {
  }

  /** The decoded entries are those that carry a payload, in order. */
  lemma {:induction false} DecodedSelects(main: seq<Entry>, ids: seq<nat>)
    ensures Selects(ids, CarriesAt(main), IdsOf(Decoded(main, ids)))
  {
    if ids == [] {
      SelectsNone<nat>(CarriesAt(main));
      assert IdsOf(Decoded(main, ids)) == [];
    } else {
      var init, id := Decoded(main, ids[..|ids| - 1]), ids[|ids| - 1];
      DecodedSelects(main, ids[..|ids| - 1]);
      SelectsLast(ids, CarriesAt(main), IdsOf(init));
      if id < |main| && main[id].Carries? { IdsOfNext(init, (id, main[id].payload)); }
    }
  }

  /** Each with its own payload. */
  lemma {:induction false} DecodedCarry(main: seq<Entry>, ids: seq<nat>)
    ensures forall k | 0 <= k < |Decoded(main, ids)| ::
              Decoded(main, ids)[k].0 < |main| && main[Decoded(main, ids)[k].0] == Carries(Decoded(main, ids)[k].1)
  {
    if ids != [] { DecodedCarry(main, ids[..|ids| - 1]); }
  }

  /** The ids among `ids` whose text is not JSON. */
  function Broken(main: seq<Entry>, ids: seq<nat>): set<nat> {
    set id | id in ids && id < |main| && main[id].Malformed?
  }

  lemma OneMore(main: seq<Entry>, ids: seq<nat>, id: nat)
    requires id < |main|
    ensures Decoded(main, ids + [id]) ==
            if main[id].Carries? then Decoded(main, ids) + [(id, main[id].payload)] else Decoded(main, ids)
    ensures Broken(main, ids + [id]) == if main[id].Malformed? then Broken(main, ids) + {id} else Broken(main, ids)
  {
    assert (ids + [id])[..|ids|] == ids;
  }

  /** With room for all of them, all of them are taken. */
  lemma RoomForAll(wanted: set<nat>, count: nat, ids: seq<nat>)
    requires LowestOf(wanted, count, ids) && |wanted| <= count
    ensures forall id | id in wanted :: id in ids
  {
    var taken := set id | id in ids;
    SetSize(ids, taken);
    if id :| id in wanted && id !in ids {
      assert taken + {id} <= wanted;
      SubsetSize(taken + {id}, wanted);
    }
  }

  lemma {:induction false} SetSize(ids: seq<nat>, taken: set<nat>)
    requires (forall i, j | 0 <= i < j < |ids| :: ids[i] < ids[j]) && forall id :: id in taken <==> id in ids
    ensures |taken| == |ids|
  {
    if ids == [] {
      assert taken == {};
    } else {
      var last := ids[|ids| - 1];
      assert forall id :: id in taken - {last} <==> id in ids[..|ids| - 1];
      SetSize(ids[..|ids| - 1], taken - {last});
    }
  }

  lemma {:induction false} SubsetSize(a: set<nat>, b: set<nat>)
    requires a <= b
    ensures |a| <= |b|
  {
    if x :| x in a { SubsetSize(a - {x}, b - {x}); }
  }

  lemma {:induction false} DecodedHas(main: seq<Entry>, ids: seq<nat>, id: nat)
    requires id in ids && id < |main| && main[id].Carries?
    ensures (id, main[id].payload) in Decoded(main, ids)
  {
    if ids[|ids| - 1] != id { DecodedHas(main, ids[..|ids| - 1], id); }
  }

  lemma DecodedIds(main: seq<Entry>, ids: seq<nat>)
    ensures forall id :: id in IdsOf(Decoded(main, ids)) <==> id in ids && id < |main| && main[id].Carries?
  {
    var out := Decoded(main, ids);
    DecodedSelects(main, ids);
    forall id: nat | id in ids && id < |main| && main[id].Carries? ensures id in IdsOf(out) {
      DecodedHas(main, ids, id);
      var k :| 0 <= k < |out| && out[k] == (id, main[id].payload);
      assert IdsOf(out)[k] == id;
    }
    var at :| SelectsAt(ids, CarriesAt(main), IdsOf(out), at);
    forall k | 0 <= k < |out| ensures IdsOf(out)[k] in ids { assert IdsOf(out)[k] == ids[at[k]]; }
  }

  /** What ZRANGEBYSCORE -inf now LIMIT 0 batch may return: due payloads, earliest first, as many as fit. */
  predicate IsDue(delayed: map<Payload, int>, now: int, batch: nat, due: seq<Payload>) {
    && |due| <= batch
    && (forall i | 0 <= i < |due| :: due[i] in delayed && delayed[due[i]] <= now)
    && (forall i, j | 0 <= i < j < |due| :: due[i] != due[j] && delayed[due[i]] <= delayed[due[j]])
    && (forall p | p in delayed && delayed[p] <= now && p !in due ::
          |due| == batch && forall i | 0 <= i < |due| :: delayed[due[i]] <= delayed[p])
  }

  lemma DeliverMeans(q: Queue, consumer: Consumer, n: nat)
    requires q.Valid() && q.cursor + n <= |q.main|
    ensures var r := q.Deliver(consumer, n);
            && (forall id :: id in r.pending <==> id in q.pending || q.cursor <= id < q.cursor + n)
            && (forall id | id in r.pending :: r.pending[id] == if id < q.cursor then q.pending[id] else consumer)
  {
  }

  lemma DropMeans(q: Queue, ids: seq<nat>)
    ensures var r := q.DropBroken(ids);
            && (forall id :: id in r.pending <==> id in q.pending && !(id in ids && id < |q.main| && q.main[id].Malformed?))
            && (forall id | id in r.pending :: r.pending[id] == q.pending[id])
  {
  }

  /** What is pending once the next `n` entries are delivered and decoded. */
  lemma DeliveredPending(q: Queue, consumer: Consumer, n: nat)
    requires q.Valid() && q.cursor + n <= |q.main|
    ensures var r := q.Deliver(consumer, n).DropBroken(Range(q.cursor, n));
            && (forall id :: id in r.pending <==> id in q.pending || (q.cursor <= id < q.cursor + n && !q.main[id].Malformed?))
            && (forall id | id in r.pending :: r.pending[id] == if id < q.cursor then q.pending[id] else consumer)
  {
    DeliverMeans(q, consumer, n);
    DropMeans(q.Deliver(consumer, n), Range(q.cursor, n));
  }

  class RedisQueue {
    var main: seq<Entry>
    var cursor: nat
    var pending: map<nat, Consumer>
    var delayed: map<Payload, int>
    var dlq: seq<Dead>

    function View(): Queue reads this { Queue(main, cursor, pending, delayed, dlq) }

    constructor ()
      ensures View() == Queue([], 0, map[], map[], []) && View().Valid()
    {
      main, cursor, pending, delayed, dlq := [], 0, map[], map[], [];
    }

    method Enqueue(p: Payload) returns (id: nat)
      modifies this
      ensures View() == old(View()).Enqueue(p) && id == |old(main)|
      ensures main == old(main) + [Carries(p)]
      ensures cursor == old(cursor) && pending == old(pending) && delayed == old(delayed) && dlq == old(dlq)
      ensures old(View()).Valid() ==> View().Valid()
    {
      id := |main|;
      main := main + [Carries(p)];
    }

    method EnqueueDelayed(p: Payload, runAt: int)
      modifies this
      ensures View() == old(View()).EnqueueDelayed(p, runAt)
      ensures delayed == old(delayed)[p := runAt]
      ensures main == old(main) && cursor == old(cursor) && pending == old(pending) && dlq == old(dlq)
    {
      delayed := delayed[p := runAt];
    }

    /** promote_delayed, when nothing comes between its two commands; `due` is what the first one reads. */
    method PromoteDelayed(due: seq<Payload>, now: int, batch: nat) returns (promoted: nat)
      requires View().Valid() && IsDue(delayed, now, batch, due)
      modifies this
      ensures View() == old(View()).Promote(due) && View().Valid() && promoted == |due|
      ensures forall p | p in old(delayed) && old(delayed)[p] > now :: p in delayed
      ensures (exists p | p in delayed :: delayed[p] <= now) ==> promoted == batch
    {
      if due == [] {
        assert old(View()).Promote(due) == old(View()) by { assert AllCarry(due) == []; }
        return 0;
      }
      promoted := PromoteFetched(due);
    }

    /** The second half of promote_delayed: `due` was read earlier and may be stale by now. */
    method PromoteFetched(due: seq<Payload>) returns (promoted: nat)
      modifies this
      ensures View() == old(View()).Promote(due) && promoted == |due|
      ensures |main| == |old(main)| + |due| && main[..|old(main)|] == old(main)
      ensures forall i | 0 <= i < |due| :: main[|old(main)| + i] == Carries(due[i])
      ensures forall p :: p in delayed <==> p in old(delayed) && p !in due
      ensures forall p | p in delayed :: delayed[p] == old(delayed)[p]
      ensures cursor == old(cursor) && pending == old(pending) && dlq == old(dlq)
      ensures old(View()).Valid() ==> View().Valid()
    {
      for i := 0 to |due|
        invariant View() == old(View()).Promote(due[..i])
      {
        assert due[..i + 1] == due[..i] + [due[i]];
        assert AllCarry(due[..i + 1]) == AllCarry(due[..i]) + [Carries(due[i])];
        main := main + [Carries(due[i])];
        delayed := delayed - {due[i]};
      }
      assert due[..|due|] == due;
      assert old(delayed) - (set p | p in due[..0]) == old(delayed);
      promoted := |due|;
    }

    /** _decode_entries: a broken blob is acked away, an entry without the field stays pending. */
    method DecodeEntries(ids: seq<nat>) returns (out: seq<(nat, Payload)>)
      requires forall i | 0 <= i < |ids| :: ids[i] < |main|
      modifies this
      ensures out == Decoded(old(main), ids)
      ensures View() == old(View()).DropBroken(ids)
      ensures Selects(ids, CarriesAt(old(main)), IdsOf(out))
      ensures forall k | 0 <= k < |out| :: out[k].0 < |old(main)| && old(main)[out[k].0] == Carries(out[k].1)
      ensures pending == map id | id in old(pending) && !(id in ids && old(main)[id].Malformed?) :: old(pending)[id]
      ensures main == old(main) && cursor == old(cursor) && delayed == old(delayed) && dlq == old(dlq)
    {
      out := [];
      for i := 0 to |ids|
        invariant main == old(main) && cursor == old(cursor) && delayed == old(delayed) && dlq == old(dlq)
        invariant out == Decoded(main, ids[..i])
        invariant pending == old(pending) - Broken(main, ids[..i])
      {
        var id := ids[i];
        assert ids[..i + 1] == ids[..i] + [id];
        OneMore(main, ids[..i], id);
        match main[id]
        case NoField =>
        case Malformed => pending := pending - {id};
        case Carries(p) => out := out + [(id, p)];
      }
      assert ids[..|ids|] == ids;
      DecodedSelects(main, ids);
      DecodedCarry(main, ids);
    }

    /** XREADGROUP: the next entries become pending for this consumer. */
    method TakeNext(consumer: Consumer, n: nat)
      requires View().Valid() && cursor + n <= |main|
      modifies this
      ensures View() == old(View()).Deliver(consumer, n)
    {
      pending := pending + map id | id in Range(cursor, n) :: consumer;
      cursor := cursor + n;
    }

    /** read: a batch of new entries for this consumer. */
    method Read(consumer: Consumer, count: nat) returns (out: seq<(nat, Payload)>)
      requires View().Valid()
      modifies this
      ensures View().Valid()
      ensures cursor == Min(old(cursor) + count, |old(main)|)
      ensures forall id :: id in IdsOf(out) <==> old(cursor) <= id < cursor && old(main)[id].Carries?
      ensures forall k | 0 <= k < |out| :: out[k].0 < |old(main)| && old(main)[out[k].0] == Carries(out[k].1)
      ensures forall id :: id in pending <==> id in old(pending) || (old(cursor) <= id < cursor && !old(main)[id].Malformed?)
      ensures forall id | id in pending :: pending[id] == if id < old(cursor) then old(pending)[id] else consumer
      ensures main == old(main) && delayed == old(delayed) && dlq == old(dlq)
      ensures var n := if |old(main)| - old(cursor) < count then |old(main)| - old(cursor) else count;
              && out == Decoded(old(main), Range(old(cursor), n))
              && View() == old(View()).Deliver(consumer, n).DropBroken(Range(old(cursor), n))
    {
      var n := if |main| - cursor < count then |main| - cursor else count;
      var ids := Range(cursor, n);
      TakeNext(consumer, n);
      out := DecodeEntries(ids);
      DecodedIds(main, ids);
      DeliveredPending(old(View()), consumer, n);
    }

    /** read_own_pending: this consumer's delivered but unacked entries, lowest ids first. */
    method ReadOwnPending(consumer: Consumer, count: nat) returns (out: seq<(nat, Payload)>)
      requires View().Valid()
      modifies this
      ensures View().Valid()
      ensures exists ids :: && LowestOf(OwnIds(old(pending), consumer), count, ids)
                            && out == Decoded(old(main), ids) && View() == old(View()).DropBroken(ids)
      ensures |OwnIds(old(pending), consumer)| <= count ==>
                forall id | id in old(pending) && old(pending)[id] == consumer && old(main)[id].Carries? ::
                  (id, old(main)[id].payload) in out
    {
      var own := OwnPending(View(), consumer, count);
      out := DecodeEntries(own);
      if |OwnIds(old(pending), consumer)| <= count {
        RoomForAll(OwnIds(old(pending), consumer), count, own);
        forall id | id in old(pending) && old(pending)[id] == consumer && old(main)[id].Carries?
          ensures (id, old(main)[id].payload) in out
        {
          DecodedHas(old(main), own, id);
        }
      }
    }

    /** claim_stale: the entries idle for at least `minIdle`, as the server sees them, are now this consumer's. */
    method ClaimStale(consumer: Consumer, idle: nat -> int, minIdle: int, count: nat) returns (out: seq<(nat, Payload)>)
      requires View().Valid()
      modifies this
      ensures View().Valid()
      ensures exists ids :: && LowestOf(StaleIds(old(pending), idle, minIdle, count), count, ids)
                            && out == Decoded(old(main), ids)
                            && View() == old(View()).Claim(consumer, set id | id in ids).DropBroken(ids)
    {
      var ids := StalePending(View(), idle, minIdle, count);
      out := TakeOver(consumer, ids);
    }

    method TakeOver(consumer: Consumer, ids: seq<nat>) returns (out: seq<(nat, Payload)>)
      requires View().Valid() && forall i | 0 <= i < |ids| :: ids[i] in pending
      modifies this
      ensures View().Valid() && out == Decoded(old(main), ids)
      ensures View() == old(View()).Claim(consumer, set id | id in ids).DropBroken(ids)
      ensures forall id :: id in pending <==> id in old(pending) && !(id in ids && old(main)[id].Malformed?)
      ensures forall id | id in pending :: pending[id] == if id in ids then consumer else old(pending)[id]
      ensures main == old(main) && cursor == old(cursor) && delayed == old(delayed) && dlq == old(dlq)
    {
      assert forall i | 0 <= i < |ids| :: ids[i] < |main|;
      pending := map id | id in pending :: if id in ids then consumer else pending[id];
      out := DecodeEntries(ids);
    }

    method Ack(id: nat)
      modifies this
      ensures View() == old(View()).Ack(id)
      ensures pending == old(pending) - {id}
      ensures main == old(main) && cursor == old(cursor) && delayed == old(delayed) && dlq == old(dlq)
      ensures old(View()).Valid() ==> View().Valid()
    {
      pending := pending - {id};
    }

    method MoveToDlq(id: nat, p: Payload, reason: string)
      modifies this
      ensures View() == old(View()).Bury(p, reason).Ack(id)
      ensures dlq == old(dlq) + [Dead(p, reason)] && pending == old(pending) - {id}
      ensures main == old(main) && cursor == old(cursor) && delayed == old(delayed)
    {
      dlq := dlq + [Dead(p, reason)];
      pending := pending - {id};
    }
  }
}
