/**
 The chain writer (db/repositories/audit.py): default materialisation, `create` and `create_many`.
*/
module AuditWriter {
  import opened Outcomes
  import opened CanonicalJson
  import opened AuditChain
  import opened AuditVerifier

  /**
   What the writer needs: the columns it fills in, their plain defaults, the hash, and how the database picks the
   tip among rows of equal position.
  */
  datatype Codec = Codec(names: seq<string>, defaults: Data, rehash: Rehash, tip: TipRule)

  function CodecOf(scheme: Scheme, tip: TipRule): Codec {
    Codec(scheme.fields + ["chain_seq"], scheme.defaults, RehashBy(scheme), tip)
  }

  datatype WriteError =
    | Chain(error: ChainError)
    | MixedTenants
    | CommitFailed

  function Tenant(data: Data): Value { Get(data, "tenant_id") }

  /** `if tenant_id:` */
  predicate Truthy(tenant: Value) { !tenant.Null? && tenant != Str([]) }

  // ---------------------------------------------------------------- _materialise_defaults

  /** Every listed column that is missing or None takes its plain default, if it has one. */
  function Materialise(defaults: Data, names: seq<string>, data: Data): (d: Data)
    ensures forall name :: Get(d, name) == if Get(data, name).Null? && name in names && name in defaults
                                           then defaults[name] else Get(data, name)
    ensures forall name | name !in defaults :: name in d <==> name in data
  {
    if names == [] then data
    else
      var m, name := Materialise(defaults, names[..|names| - 1], data), names[|names| - 1];
      if Get(m, name).Null? && name in defaults then m[name := defaults[name]] else m
  }

  method MaterialiseDefaults(defaults: Data, names: seq<string>, data: Data) returns (d: Data)
    ensures d == Materialise(defaults, names, data)
  {
    d := data;
    for i := 0 to |names|
      invariant d == Materialise(defaults, names[..i], data)
    {
      var name := names[i];
      MaterialiseNext(defaults, names, i, data);
      if name in d && !d[name].Null? {
        continue;
      }
      if name in defaults {
        d := d[name := defaults[name]];
      }
    }
    assert names[..|names|] == names;
  }

  lemma MaterialiseNext(defaults: Data, names: seq<string>, i: nat, data: Data)
    requires i < |names|
    ensures var m := Materialise(defaults, names[..i], data);
            Materialise(defaults, names[..i + 1], data) ==
            if Get(m, names[i]).Null? && names[i] in defaults then m[names[i] := defaults[names[i]]] else m
  {
    assert names[..i + 1][..i] == names[..i];
  }

  // ---------------------------------------------------------------- the tip

  /** The chained rows of one tenant, in table order. */
  function TenantChain(table: seq<Row>, tenant: Value): seq<Row> {
    if table == [] then []
    else
      var init, x := TenantChain(table[..|table| - 1], tenant), table[|table| - 1];
      if x.hash.Some? && Tenant(x.content.data) == tenant then init + [x] else init
  }

  /**
   What `ORDER BY chain_seq DESC LIMIT 1` may return in Postgres: NULL sorts first, then the largest position;
   among equals, any row.
  */
  ghost predicate IsTip(rows: seq<Row>, r: Option<Row>) {
    && (r.Some? <==> rows != [])
    && (r.Some? ==> r.value in rows)
    && (r.Some? && r.value.ChainSeq().Some? ==> forall x | x in rows :: x.ChainSeq().Some? && x.Position() <= r.value.Position())
  }

  /** A way to break ties. */
  type TipRule = f: seq<Row> -> Option<Row> | forall rows :: IsTip(rows, f(rows)) witness FirstTip

  /** The rule that takes the first of equals. */
  function FirstTip(rows: seq<Row>): (r: Option<Row>)
    ensures IsTip(rows, r)
  {
    if rows == [] then None
    else
      var t, x := FirstTip(rows[..|rows| - 1]), rows[|rows| - 1];
      assert forall y | y in rows :: y in rows[..|rows| - 1] || y == x;
      if t.None? then Some(x)
      else if t.value.ChainSeq().None? then t
      else if x.ChainSeq().None? || t.value.Position() < x.Position() then Some(x)
      else t
  }

  function NextPrev(tip: Option<Row>): Option<string> { if tip.None? then None else tip.value.hash }

  function NextSeq(tip: Option<Row>): int { if tip.None? then 1 else tip.value.Position() + 1 }

  // ---------------------------------------------------------------- create and create_many, as functions

  /** A timestamp as `_json_safe` renders it: UTC, ISO 8601, microseconds. */
  type Instant = t: Text | ScalarText(t) witness []

  function Stamp(data: Data, now: Instant): Data {
    if "created_at" in data then data else data["created_at" := Datetime(now)]
  }

  /** The row chained after (`prev`, position `next` - 1), its hash taken over what it will store. */
  function ChainedRow(codec: Codec, prev: Option<string>, next: int, data: Data): (r: Result<Row, WriteError>)
    ensures r.Ok? ==> ContentOk(codec.rehash, r.value)
    ensures r.Ok? ==> r.value.content == Content(Materialise(codec.defaults, codec.names, data), Some(next), Some(2), prev)
  {
    var content := Content(Materialise(codec.defaults, codec.names, data), Some(next), Some(CURRENT_CHAIN_FORMAT), prev);
    var h := codec.rehash(content);
    if h.Err? then Err(Chain(h.error)) else Ok(Row(content, Some(h.value)))
  }

  /** A row without a tenant: both hash columns NULL, chain_format at its column default. */
  function UnchainedRow(data: Data): Row { Row(Content(data, None, Some(1), None), None) }

  function NewRow(codec: Codec, chained: bool, prev: Option<string>, next: int, data: Data): Result<Row, WriteError> {
    if chained then ChainedRow(codec, prev, next, data) else Ok(UnchainedRow(data))
  }

  /** Rows built one after another in memory, without looking at the table again. */
  function Build(codec: Codec, chained: bool, prev: Option<string>, next: int, rows: seq<Data>)
    : (r: Result<seq<Row>, WriteError>)
    ensures r.Ok? ==> |r.value| == |rows|
    decreases |rows|
  {
    if rows == [] then Ok([]) else
    var head := NewRow(codec, chained, prev, next, rows[0]);
    if head.Err? then Err(head.error) else
    var tail := Build(codec, chained, head.value.hash, next + 1, rows[1..]);
    if tail.Err? then Err(tail.error) else Ok([head.value] + tail.value)
  }

  function Prepend(done: seq<Row>, rest: Result<seq<Row>, WriteError>): Result<seq<Row>, WriteError> {
    if rest.Err? then rest else Ok(done + rest.value)
  }

  lemma BuildStep(codec: Codec, chained: bool, prev: Option<string>, next: int, rows: seq<Data>, done: seq<Row>)
    requires rows != []
    ensures var head := NewRow(codec, chained, prev, next, rows[0]);
            Prepend(done, Build(codec, chained, prev, next, rows))
            == if head.Err? then Err(head.error)
               else Prepend(done + [head.value], Build(codec, chained, head.value.hash, next + 1, rows[1..]))
  {
    var head := NewRow(codec, chained, prev, next, rows[0]);
    if head.Ok? {
      var tail := Build(codec, chained, head.value.hash, next + 1, rows[1..]);
      if tail.Ok? {
        assert done + ([head.value] + tail.value) == (done + [head.value]) + tail.value;
      }
    }
  }

  /** The unique index on trace_id. */
  predicate FreshTrace(table: seq<Row>, row: Row) {
    forall i | 0 <= i < |table| :: Trace(table[i]) != Trace(row)
  }

  predicate FreshTraces(table: seq<Row>, rows: seq<Row>)
    decreases |rows|
  {
    rows == [] || (FreshTrace(table, rows[0]) && FreshTraces(table + [rows[0]], rows[1..]))
  }

  /** One `create`, run alone: the table afterwards, or the error. */
  function CreateOne(codec: Codec, table: seq<Row>, data: Data): Result<seq<Row>, WriteError> {
    var tip := codec.tip(TenantChain(table, Tenant(data)));
    var row := NewRow(codec, Truthy(Tenant(data)), NextPrev(tip), NextSeq(tip), data);
    if row.Err? then Err(row.error)
    else if !FreshTrace(table, row.value) then Err(CommitFailed)
    else Ok(table + [row.value])
  }

  /** `create` called once per row, nothing interleaved. */
  function CreateEach(codec: Codec, table: seq<Row>, rows: seq<Data>): Result<seq<Row>, WriteError>
    decreases |rows|
  {
    if rows == [] then Ok(table) else
    var first := CreateOne(codec, table, rows[0]);
    if first.Err? then Err(first.error) else CreateEach(codec, first.value, rows[1..])
  }

  /** Build the rows after (`prev`, `next` - 1) and commit them together. */
  function Place(codec: Codec, table: seq<Row>, chained: bool, prev: Option<string>, next: int, rows: seq<Data>)
    : Result<seq<Row>, WriteError>
  {
    var built := Build(codec, chained, prev, next, rows);
    if built.Err? then Err(built.error)
    else if !FreshTraces(table, built.value) then Err(CommitFailed)
    else Ok(table + built.value)
  }

  /** `create_many` on rows of one tenant: all of them after the current tip, or an error. */
  function CreateBatch(codec: Codec, table: seq<Row>, tenant: Value, rows: seq<Data>): Result<seq<Row>, WriteError> {
    var tip := codec.tip(TenantChain(table, tenant));
    Place(codec, table, Truthy(tenant), NextPrev(tip), NextSeq(tip), rows)
  }

  predicate OfTenant(tenant: Value, rows: seq<Data>) {
    forall i | 0 <= i < |rows| :: Tenant(rows[i]) == tenant
  }

  function StampAll(rows: seq<Data>, nows: seq<Instant>): (r: seq<Data>)
    requires |nows| == |rows|
    ensures |r| == |rows| && forall i | 0 <= i < |rows| :: r[i] == Stamp(rows[i], nows[i])
  {
    seq(|rows|, i requires 0 <= i < |rows| => Stamp(rows[i], nows[i]))
  }

  // ---------------------------------------------------------------- what is written

  /** `if tenant_id:` on the row's own column. */
  predicate HasTenant(data: Data) { Get(data, "tenant_id") != Null && Get(data, "tenant_id") != Str([]) }

  /**
   The columns of a written row: what the caller gave; the writer's clock for a created_at that was not mentioned; and
   on a chained row the plain default of a column left out or None.
  */
  ghost predicate Written(codec: Codec, data: Data, now: Instant, row: Row) {
    forall name ::
      Get(row.content.data, name) ==
      if Get(data, name) != Null then Get(data, name)
      else if name == "created_at" && name !in data then Datetime(now)
      else if HasTenant(data) && name in codec.names && name in codec.defaults then codec.defaults[name]
      else Null
  }

  /** A row of the chain at this position after this predecessor, hashed over what it holds. */
  predicate ChainedAs(codec: Codec, row: Row, prev: Option<string>, next: int) {
    && row.content.prev == prev && row.content.chainSeq == Some(next) && row.content.format == Some(2)
    && row.hash.Some? && codec.rehash(row.content) == Ok(row.hash.value)
  }

  /** Outside every chain. */
  predicate Unchained(row: Row) { row.hash.None? && row.content.prev.None? && row.content.chainSeq.None? && row.content.format == Some(1) }

  predicate InChainOf(tenant: Value, x: Row) { x.hash.Some? && Get(x.content.data, "tenant_id") == tenant }

  /** Where the tenant's chain goes on: after its highest position, or after a row without one, or from 1. */
  ghost predicate GoesOn(table: seq<Row>, tenant: Value, prev: Option<string>, next: int) {
    || ((forall x | x in table :: !InChainOf(tenant, x)) && prev == None && next == 1)
    || exists tip | tip in table ::
         && InChainOf(tenant, tip) && prev == tip.hash && next == OrZero(tip.content.chainSeq) + 1
         && (tip.content.chainSeq.Some? ==>
               forall x | x in table && InChainOf(tenant, x) ::
                 x.content.chainSeq.Some? && x.content.chainSeq.value <= tip.content.chainSeq.value)
  }

  lemma {:induction false} TenantChainMembers(table: seq<Row>, tenant: Value, x: Row)
    ensures x in TenantChain(table, tenant) <==> x in table && InChainOf(tenant, x)
  {
    if table != [] {
      TenantChainMembers(table[..|table| - 1], tenant, x);
      assert table == table[..|table| - 1] + [table[|table| - 1]];
    }
  }

  lemma TipGoesOn(codec: Codec, table: seq<Row>, tenant: Value)
    ensures var tip := codec.tip(TenantChain(table, tenant)); GoesOn(table, tenant, NextPrev(tip), NextSeq(tip))
  {
    var rows := TenantChain(table, tenant);
    var tip := codec.tip(rows);
    assert IsTip(rows, tip);
    forall x ensures x in rows <==> x in table && InChainOf(tenant, x) { TenantChainMembers(table, tenant, x); }
    if tip.None? {
      forall x | x in table ensures !InChainOf(tenant, x) { assert x !in rows; }
    } else {
      assert tip.value in table && InChainOf(tenant, tip.value);
    }
  }

  /** What one new row holds, and where it stands. */
  lemma NewRowWritten(codec: Codec, data: Data, now: Instant, prev: Option<string>, next: int)
    requires NewRow(codec, Truthy(Tenant(Stamp(data, now))), prev, next, Stamp(data, now)).Ok?
    ensures var row := NewRow(codec, Truthy(Tenant(Stamp(data, now))), prev, next, Stamp(data, now)).value;
            Written(codec, data, now, row) && if HasTenant(data) then ChainedAs(codec, row, prev, next) else Unchained(row)
  {
    var row := NewRow(codec, Truthy(Tenant(Stamp(data, now))), prev, next, Stamp(data, now)).value;
    assert Tenant(Stamp(data, now)) == Get(data, "tenant_id");
    forall name
      ensures Get(row.content.data, name) ==
              if Get(data, name) != Null then Get(data, name)
              else if name == "created_at" && name !in data then Datetime(now)
              else if HasTenant(data) && name in codec.names && name in codec.defaults then codec.defaults[name]
              else Null
    {
      assert Get(Stamp(data, now), name) == if name == "created_at" && name !in data then Datetime(now) else Get(data, name);
    }
  }

  /** The rows of a batch follow one another. */
  ghost predicate BatchWritten(codec: Codec, table: seq<Row>, rows: seq<Data>, nows: seq<Instant>, written: seq<Row>)
    requires |nows| == |rows|
  {
    && AllWritten(codec, rows, nows, written)
    && (rows != [] && HasTenant(rows[0]) ==> Succession(codec, written) && StartsAfter(table, Get(rows[0], "tenant_id"), written))
    && (rows != [] && !HasTenant(rows[0]) ==> forall i | 0 <= i < |rows| :: Unchained(written[i]))
  }

  ghost predicate StartsAfter(table: seq<Row>, tenant: Value, written: seq<Row>) {
    written != [] ==> written[0].content.chainSeq.Some? && GoesOn(table, tenant, written[0].content.prev, written[0].content.chainSeq.value)
  }

  predicate Succession(codec: Codec, written: seq<Row>) {
    && (forall i | 0 <= i < |written| :: written[i].content.chainSeq.Some?
                                         && ChainedAs(codec, written[i], written[i].content.prev, written[i].content.chainSeq.value))
    && (forall i | 0 < i < |written| :: Succeeds(written[i - 1], written[i]))
  }

  predicate Succeeds(a: Row, b: Row) {
    b.content.prev == a.hash && a.content.chainSeq.Some? && b.content.chainSeq == Some(a.content.chainSeq.value + 1)
  }

  /** Building one row more. */
  lemma BuildParts(codec: Codec, chained: bool, prev: Option<string>, next: int, rows: seq<Data>, nows: seq<Instant>)
    requires |nows| == |rows| && rows != [] && Build(codec, chained, prev, next, StampAll(rows, nows)).Ok?
    ensures NewRow(codec, chained, prev, next, Stamp(rows[0], nows[0])).Ok?
    ensures var head := NewRow(codec, chained, prev, next, Stamp(rows[0], nows[0])).value;
            var tail := Build(codec, chained, head.hash, next + 1, StampAll(rows[1..], nows[1..]));
            tail.Ok? && Build(codec, chained, prev, next, StampAll(rows, nows)).value == [head] + tail.value
  {
    assert StampAll(rows, nows)[1..] == StampAll(rows[1..], nows[1..]);
  }

  ghost predicate AllWritten(codec: Codec, rows: seq<Data>, nows: seq<Instant>, written: seq<Row>)
    requires |nows| == |rows|
  {
    |written| == |rows| && forall i | 0 <= i < |rows| :: Written(codec, rows[i], nows[i], written[i])
  }

  lemma {:induction false} BuildWrites(
      codec: Codec, tenant: Value, prev: Option<string>, next: int, rows: seq<Data>, nows: seq<Instant>)
    requires |nows| == |rows| && OfTenant(tenant, rows) && Build(codec, Truthy(tenant), prev, next, StampAll(rows, nows)).Ok?
    ensures AllWritten(codec, rows, nows, Build(codec, Truthy(tenant), prev, next, StampAll(rows, nows)).value)
    decreases |rows|
  {
    if rows != [] {
      BuildParts(codec, Truthy(tenant), prev, next, rows, nows);
      NewRowWritten(codec, rows[0], nows[0], prev, next);
      OfTenantTail(tenant, rows);
      var head := NewRow(codec, Truthy(tenant), prev, next, Stamp(rows[0], nows[0])).value;
      BuildWrites(codec, tenant, head.hash, next + 1, rows[1..], nows[1..]);
      AllWrittenNext(codec, rows, nows, head, Build(codec, Truthy(tenant), head.hash, next + 1, StampAll(rows[1..], nows[1..])).value);
    }
  }

  lemma AllWrittenNext(codec: Codec, rows: seq<Data>, nows: seq<Instant>, head: Row, tail: seq<Row>)
    requires |nows| == |rows| && rows != [] && Written(codec, rows[0], nows[0], head) && AllWritten(codec, rows[1..], nows[1..], tail)
    ensures AllWritten(codec, rows, nows, [head] + tail)
  {
    forall i | 0 < i < |rows| ensures Written(codec, rows[i], nows[i], ([head] + tail)[i]) {
      assert rows[i] == rows[1..][i - 1] && nows[i] == nows[1..][i - 1];
    }
  }

  lemma {:induction false} BuildSucceeds(codec: Codec, prev: Option<string>, next: int, rows: seq<Data>, nows: seq<Instant>)
    requires |nows| == |rows| && Build(codec, true, prev, next, StampAll(rows, nows)).Ok?
    ensures var built := Build(codec, true, prev, next, StampAll(rows, nows)).value;
            Succession(codec, built) && (built != [] ==> ChainedAs(codec, built[0], prev, next))
    decreases |rows|
  {
    if rows != [] {
      BuildParts(codec, true, prev, next, rows, nows);
      var head := NewRow(codec, true, prev, next, Stamp(rows[0], nows[0])).value;
      BuildSucceeds(codec, head.hash, next + 1, rows[1..], nows[1..]);
      SuccessionNext(codec, head, Build(codec, true, head.hash, next + 1, StampAll(rows[1..], nows[1..])).value, prev, next);
    }
  }

  lemma SuccessionNext(codec: Codec, head: Row, tail: seq<Row>, prev: Option<string>, next: int)
    requires ChainedAs(codec, head, prev, next) && Succession(codec, tail)
    requires tail != [] ==> ChainedAs(codec, tail[0], head.hash, next + 1)
    ensures Succession(codec, [head] + tail)
  {
    var built := [head] + tail;
    forall i | 0 < i < |built| ensures Succeeds(built[i - 1], built[i]) {
      if i > 1 { assert Succeeds(tail[i - 2], tail[i - 1]); }
    }
  }

  lemma {:induction false} BuildOutside(codec: Codec, prev: Option<string>, next: int, rows: seq<Data>, nows: seq<Instant>)
    requires |nows| == |rows| && Build(codec, false, prev, next, StampAll(rows, nows)).Ok?
    ensures forall i | 0 <= i < |rows| :: Unchained(Build(codec, false, prev, next, StampAll(rows, nows)).value[i])
    decreases |rows|
  {
    if rows != [] {
      BuildParts(codec, false, prev, next, rows, nows);
      BuildOutside(codec, None, next + 1, rows[1..], nows[1..]);
    }
  }

  lemma BuildIsBatch(codec: Codec, table: seq<Row>, rows: seq<Data>, nows: seq<Instant>)
    requires |nows| == |rows| && rows != [] && OfTenant(Tenant(rows[0]), rows)
    requires var tenant := Tenant(rows[0]);
             var tip := codec.tip(TenantChain(table, tenant));
             Build(codec, Truthy(tenant), NextPrev(tip), NextSeq(tip), StampAll(rows, nows)).Ok?
    ensures var tenant := Tenant(rows[0]);
            var tip := codec.tip(TenantChain(table, tenant));
            BatchWritten(codec, table, rows, nows, Build(codec, Truthy(tenant), NextPrev(tip), NextSeq(tip), StampAll(rows, nows)).value)
  {
    var tenant := Tenant(rows[0]);
    var tip := codec.tip(TenantChain(table, tenant));
    BuildWrites(codec, tenant, NextPrev(tip), NextSeq(tip), rows, nows);
    TipGoesOn(codec, table, tenant);
    if Truthy(tenant) {
      BuildSucceeds(codec, NextPrev(tip), NextSeq(tip), rows, nows);
    } else {
      BuildOutside(codec, NextPrev(tip), NextSeq(tip), rows, nows);
    }
  }

  // ---------------------------------------------------------------- the repository

  /**
   The repository over the stored table.  `committed` says whether the database accepts the final commit;
   the clock readings are parameters.
  */
  class AuditRepository {
    const codec: Codec
    var table: seq<Row>

    constructor (codec: Codec)
      ensures this.codec == codec && table == []
    {
      this.codec := codec;
      table := [];
    }

    method Create(data: Data, now: Instant, committed: bool) returns (result: Result<Row, WriteError>)
      modifies this
      ensures var after := CreateOne(codec, old(table), Stamp(data, now));
              if committed && after.Ok? then table == after.value && result == Ok(table[|table| - 1])
              else table == old(table) && result.Err?
      ensures result.Ok? ==>
                && table == old(table) + [result.value] && Written(codec, data, now, result.value)
                && (forall x | x in old(table) :: Get(x.content.data, "trace_id") != Get(result.value.content.data, "trace_id"))
                && if HasTenant(data) then
                     StartsAfter(old(table), Get(data, "tenant_id"), [result.value]) && Succession(codec, [result.value])
                   else Unchained(result.value)
    {
      var d := Stamp(data, now);
      ghost var last := codec.tip(TenantChain(table, Tenant(d)));
      if NewRow(codec, Truthy(Tenant(d)), NextPrev(last), NextSeq(last), d).Ok? {
        NewRowWritten(codec, data, now, NextPrev(last), NextSeq(last));
      }
      TipGoesOn(codec, table, Tenant(d));
      var record := UnchainedRow(d);
      if Truthy(Tenant(d)) {
        var tip := codec.tip(TenantChain(table, Tenant(d)));
        var full := MaterialiseDefaults(codec.defaults, codec.names, d);
        var content := Content(full, Some(NextSeq(tip)), Some(CURRENT_CHAIN_FORMAT), NextPrev(tip));
        var h := codec.rehash(content);
        if h.Err? {
          return Err(Chain(h.error));
        }
        record := Row(content, Some(h.value));
      }
      if !committed || !FreshTrace(table, record) {
        return Err(CommitFailed);
      }
      table := table + [record];
      return Ok(record);
    }

    method CreateMany(rows: seq<Data>, nows: seq<Instant>, committed: bool) returns (result: Result<seq<Row>, WriteError>)
      requires |nows| == |rows|
      modifies this
      ensures rows == [] ==> result == Ok([]) && table == old(table)
      ensures rows != [] && !OfTenant(Tenant(rows[0]), rows) ==> result == Err(MixedTenants) && table == old(table)
      ensures rows != [] && OfTenant(Tenant(rows[0]), rows) ==>
                var after := CreateBatch(codec, old(table), Tenant(rows[0]), StampAll(rows, nows));
                if committed && after.Ok? then table == after.value && result == Ok(table[|old(table)|..])
                else table == old(table) && result.Err?
      ensures result.Ok? ==> table == old(table) + result.value && BatchWritten(codec, old(table), rows, nows, result.value)
    {
      if rows == [] {
        return Ok([]);
      }
      var tenant := Tenant(rows[0]);
      if !OfTenant(tenant, rows) {
        return Err(MixedTenants);
      }
      var tip := codec.tip(TenantChain(table, tenant));
      var records := BuildRecords(Truthy(tenant), NextPrev(tip), NextSeq(tip), rows, nows);
      if records.Ok? { BuildIsBatch(codec, table, rows, nows); }
      if records.Err? {
        return Err(records.error);
      }
      if !committed || !FreshTraces(table, records.value) {
        return Err(CommitFailed);
      }
      table := table + records.value;
      return records;
    }

    /** The batch loop: each row hashes the one before it. */
    method BuildRecords(chained: bool, tipHash: Option<string>, firstSeq: int, rows: seq<Data>, nows: seq<Instant>)
      returns (result: Result<seq<Row>, WriteError>)
      requires |nows| == |rows|
      ensures result == Build(codec, chained, tipHash, firstSeq, StampAll(rows, nows))
    {
      ghost var stamped := StampAll(rows, nows);
      ghost var whole := Build(codec, chained, tipHash, firstSeq, stamped);
      var prev, next := tipHash, firstSeq;
      var records: seq<Row> := [];
      assert stamped[0..] == stamped && (whole.Ok? ==> records + whole.value == whole.value);
      for i := 0 to |rows|
        invariant whole == Prepend(records, Build(codec, chained, prev, next, stamped[i..]))
      {
        var d := Stamp(rows[i], nows[i]);
        assert stamped[i..][0] == d && stamped[i..][1..] == stamped[i + 1..];
        BuildStep(codec, chained, prev, next, stamped[i..], records);
        var record := UnchainedRow(d);
        if chained {
          var full := MaterialiseDefaults(codec.defaults, codec.names, d);
          var content := Content(full, Some(next), Some(CURRENT_CHAIN_FORMAT), prev);
          var h := codec.rehash(content);
          if h.Err? {
            return Err(Chain(h.error));
          }
          record := Row(content, Some(h.value));
        }
        prev, next := record.hash, next + 1;
        records := records + [record];
      }
      assert stamped[|rows|..] == [] && records + [] == records;
      return Ok(records);
    }
  }

  // ---------------------------------------------------------------- create_many refines repeated create

  /** No row is without a position. */
  predicate Numbered(rows: seq<Row>) { forall i | 0 <= i < |rows| :: rows[i].ChainSeq().Some? }

  lemma TenantChainAppend(table: seq<Row>, x: Row, tenant: Value)
    ensures TenantChain(table + [x], tenant)
         == if x.hash.Some? && Tenant(x.content.data) == tenant then TenantChain(table, tenant) + [x] else TenantChain(table, tenant)
  {
    assert (table + [x])[..|table|] == table;
  }

  /** Exactly one row is without a position. */
  predicate OneUnnumbered(rows: seq<Row>) {
    && !Numbered(rows)
    && forall i, j | 0 <= i < j < |rows| :: rows[i].ChainSeq().Some? || rows[j].ChainSeq().Some?
  }

  /** A row written after the tip becomes the tip, unless rows without a position hide it. */
  lemma TipAppend(tip: TipRule, rows: seq<Row>, x: Row)
    requires x.ChainSeq() == Some(NextSeq(tip(rows)))
    ensures Numbered(rows) ==> tip(rows + [x]) == Some(x)
    ensures !Numbered(rows) ==> NextSeq(tip(rows)) == 1 && !Numbered(rows + [x])
    ensures OneUnnumbered(rows) ==> tip(rows + [x]) == tip(rows)
  {
    var more := rows + [x];
    assert IsTip(rows, tip(rows)) && IsTip(more, tip(more));
    if !Numbered(rows) {
      var i :| 0 <= i < |rows| && rows[i].ChainSeq().None?;
      assert rows[i] in rows && more[i] == rows[i] && more[i] in more;
    } else {
      assert x in more;
    }
  }

  /** The tenant's column is not one of the defaulted ones, so a row belongs to the tenant it was written for. */
  lemma NewRowTenant(codec: Codec, prev: Option<string>, next: int, data: Data)
    requires Truthy(Tenant(data)) && ChainedRow(codec, prev, next, data).Ok?
    ensures Tenant(ChainedRow(codec, prev, next, data).value.content.data) == Tenant(data)
  {
  }

  /** How one `create` moves the tenant's tip. */
  lemma CreateMovesTip(codec: Codec, table: seq<Row>, data: Data, row: Row)
    requires Truthy(Tenant(data))
    requires var tip := codec.tip(TenantChain(table, Tenant(data)));
             ChainedRow(codec, NextPrev(tip), NextSeq(tip), data) == Ok(row)
    ensures TenantChain(table + [row], Tenant(data)) == TenantChain(table, Tenant(data)) + [row]
    ensures Numbered(TenantChain(table, Tenant(data))) ==>
              Numbered(TenantChain(table + [row], Tenant(data))) && codec.tip(TenantChain(table + [row], Tenant(data))) == Some(row)
    ensures !Numbered(TenantChain(table, Tenant(data))) ==>
              row.ChainSeq() == Some(1) && !Numbered(TenantChain(table + [row], Tenant(data)))
    ensures OneUnnumbered(TenantChain(table, Tenant(data))) ==>
              codec.tip(TenantChain(table + [row], Tenant(data))) == codec.tip(TenantChain(table, Tenant(data)))
  {
    var before := TenantChain(table, Tenant(data));
    NewRowTenant(codec, NextPrev(codec.tip(before)), NextSeq(codec.tip(before)), data);
    TenantChainAppend(table, row, Tenant(data));
    TipAppend(codec.tip, before, row);
  }

  lemma PlaceStep(
      codec: Codec, table: seq<Row>, chained: bool, prev: Option<string>, next: int, rows: seq<Data>, row: Row)
    requires rows != [] && NewRow(codec, chained, prev, next, rows[0]) == Ok(row) && FreshTrace(table, row)
    ensures SameOutcome(Place(codec, table, chained, prev, next, rows),
                        Place(codec, table + [row], chained, row.hash, next + 1, rows[1..]))
  {
    var rest := Build(codec, chained, row.hash, next + 1, rows[1..]);
    if rest.Ok? {
      FreshCons(table, row, rest.value);
    }
  }

  predicate SameOutcome(a: Result<seq<Row>, WriteError>, b: Result<seq<Row>, WriteError>) {
    (a.Ok? <==> b.Ok?) && (a.Ok? ==> a == b)
  }

  /** A batch is its first row created alone, then the batch of the rest. */
  lemma BatchStep(codec: Codec, table: seq<Row>, tenant: Value, rows: seq<Data>, row: Row)
    requires rows != [] && Tenant(rows[0]) == tenant && FreshTrace(table, row)
    requires var tip := codec.tip(TenantChain(table, tenant));
             NewRow(codec, Truthy(tenant), NextPrev(tip), NextSeq(tip), rows[0]) == Ok(row)
    requires Truthy(tenant) ==> Numbered(TenantChain(table, tenant))
    ensures SameOutcome(CreateBatch(codec, table, tenant, rows), CreateBatch(codec, table + [row], tenant, rows[1..]))
  {
    var tip, tip' := codec.tip(TenantChain(table, tenant)), codec.tip(TenantChain(table + [row], tenant));
    PlaceStep(codec, table, Truthy(tenant), NextPrev(tip), NextSeq(tip), rows, row);
    if Truthy(tenant) {
      CreateMovesTip(codec, table, rows[0], row);
      assert NextPrev(tip') == row.hash && NextSeq(tip') == NextSeq(tip) + 1;
    } else {
      BuildUnchained(codec, row.hash, NextSeq(tip) + 1, NextPrev(tip'), NextSeq(tip'), rows[1..]);
    }
  }

  lemma FreshCons(table: seq<Row>, row: Row, rest: seq<Row>)
    ensures FreshTraces(table, [row] + rest) <==> FreshTrace(table, row) && FreshTraces(table + [row], rest)
    ensures table + ([row] + rest) == (table + [row]) + rest
  {
    assert ([row] + rest)[0] == row && ([row] + rest)[1..] == rest;
  }

  lemma {:induction false} BuildUnchained(codec: Codec, p: Option<string>, m: int, q: Option<string>, n: int, rows: seq<Data>)
    ensures Build(codec, false, p, m, rows) == Build(codec, false, q, n, rows)
    decreases |rows|
  {
    if rows != [] {
      BuildUnchained(codec, UnchainedRow(rows[0]).hash, m + 1, UnchainedRow(rows[0]).hash, n + 1, rows[1..]);
    }
  }

  lemma OfTenantTail(tenant: Value, rows: seq<Data>)
    requires rows != [] && OfTenant(tenant, rows)
    ensures OfTenant(tenant, rows[1..])
  {
    assert forall i | 0 <= i < |rows[1..]| :: rows[1..][i] == rows[i + 1];
  }

  /** With every chained row numbered, a batch gives exactly the table that creating one by one gives, or both fail. */
  lemma {:induction false} BatchIsRepeatedCreate(codec: Codec, table: seq<Row>, tenant: Value, rows: seq<Data>)
    requires OfTenant(tenant, rows)
    requires Truthy(tenant) ==> Numbered(TenantChain(table, tenant))
    ensures CreateBatch(codec, table, tenant, rows).Ok? <==> CreateEach(codec, table, rows).Ok?
    ensures CreateEach(codec, table, rows).Ok? ==> CreateBatch(codec, table, tenant, rows) == CreateEach(codec, table, rows)
    decreases |rows|
  {
    if rows == [] {
      assert table + [] == table;
    } else {
      var first := CreateOne(codec, table, rows[0]);
      if first.Ok? {
        OfTenantTail(tenant, rows);
        var row := first.value[|table|];
        BatchStep(codec, table, tenant, rows, row);
        if Truthy(tenant) {
          CreateMovesTip(codec, table, rows[0], row);
        }
        BatchIsRepeatedCreate(codec, first.value, tenant, rows[1..]);
      }
    }
  }

  lemma {:induction false} CreateEachExtends(codec: Codec, table: seq<Row>, rows: seq<Data>)
    requires CreateEach(codec, table, rows).Ok?
    ensures table <= CreateEach(codec, table, rows).value
    decreases |rows|
  {
    if rows != [] {
      CreateEachExtends(codec, CreateOne(codec, table, rows[0]).value, rows[1..]);
    }
  }

  /** The second row `create` writes beside an unnumbered chained row is numbered 1 again. */
  lemma SecondCreateRestarts(codec: Codec, table: seq<Row>, tenant: Value, rows: seq<Data>)
    requires OfTenant(tenant, rows) && Truthy(tenant) && |rows| > 1 && !Numbered(TenantChain(table, tenant))
    requires CreateEach(codec, table, rows).Ok?
    ensures |CreateEach(codec, table, rows).value| > |table| + 1
    ensures CreateEach(codec, table, rows).value[|table| + 1].ChainSeq() == Some(1)
  {
    var first := CreateOne(codec, table, rows[0]).value;
    var r0 := first[|table|];
    CreateMovesTip(codec, table, rows[0], r0);
    assert rows[1..][0] == rows[1];
    var second := CreateOne(codec, first, rows[1]).value;
    var r1 := second[|first|];
    UnnumberedTip(codec.tip, TenantChain(first, tenant));
    assert r1.ChainSeq() == Some(1);
    CreateEachExtends(codec, second, rows[1..][1..]);
  }

  /** The second row of a batch is numbered one after the first. */
  lemma SecondInBatchAdvances(codec: Codec, table: seq<Row>, tenant: Value, rows: seq<Data>)
    requires OfTenant(tenant, rows) && Truthy(tenant) && |rows| > 1 && CreateBatch(codec, table, tenant, rows).Ok?
    ensures |CreateBatch(codec, table, tenant, rows).value| > |table| + 1
    ensures CreateBatch(codec, table, tenant, rows).value[|table| + 1].ChainSeq()
         == Some(NextSeq(codec.tip(TenantChain(table, tenant))) + 1)
  {
    var tip := codec.tip(TenantChain(table, tenant));
    var built := Build(codec, true, NextPrev(tip), NextSeq(tip), rows).value;
    var r0 := NewRow(codec, true, NextPrev(tip), NextSeq(tip), rows[0]).value;
    var rest := Build(codec, true, r0.hash, NextSeq(tip) + 1, rows[1..]).value;
    assert built == [r0] + rest && rest[0].ChainSeq() == Some(NextSeq(tip) + 1);
    assert (table + built)[|table| + 1] == built[1] == rest[0];
  }

  lemma OneRowBatch(codec: Codec, table: seq<Row>, tenant: Value, rows: seq<Data>)
    requires OfTenant(tenant, rows) && |rows| <= 1
    ensures CreateBatch(codec, table, tenant, rows) == CreateEach(codec, table, rows)
  {
    if rows == [] {
      assert table + [] == table;
    } else {
      var tip := codec.tip(TenantChain(table, tenant));
      var head := NewRow(codec, Truthy(tenant), NextPrev(tip), NextSeq(tip), rows[0]);
      assert rows[1..] == [];
      if head.Ok? {
        assert Build(codec, Truthy(tenant), head.value.hash, NextSeq(tip) + 1, rows[1..]) == Ok([]);
        assert [head.value] + [] == [head.value];
        FreshCons(table, head.value, []);
      }
    }
  }

  /**
   Exactly when a batch that succeeds equals creating its rows one by one: always, except that two or more
   rows beside a chained row without a position do not.
  */
  lemma BatchRefinesExactly(codec: Codec, table: seq<Row>, tenant: Value, rows: seq<Data>)
    requires OfTenant(tenant, rows)
    requires CreateBatch(codec, table, tenant, rows).Ok? && CreateEach(codec, table, rows).Ok?
    ensures CreateBatch(codec, table, tenant, rows) == CreateEach(codec, table, rows)
       <==> |rows| <= 1 || !Truthy(tenant) || Numbered(TenantChain(table, tenant))
  {
    if |rows| <= 1 {
      OneRowBatch(codec, table, tenant, rows);
    } else if !Truthy(tenant) || Numbered(TenantChain(table, tenant)) {
      BatchIsRepeatedCreate(codec, table, tenant, rows);
    } else {
      SecondCreateRestarts(codec, table, tenant, rows);
      SecondInBatchAdvances(codec, table, tenant, rows);
      UnnumberedTip(codec.tip, TenantChain(table, tenant));
    }
  }

  lemma UnnumberedTip(tip: TipRule, rows: seq<Row>)
    requires !Numbered(rows)
    ensures NextSeq(tip(rows)) == 1
  {
    var i :| 0 <= i < |rows| && rows[i].ChainSeq().None?;
    assert rows[i] in rows && IsTip(rows, tip(rows));
  }
}
