/**
 Concurrent writers and retention over the audit table, as a state machine.

 A writer (one row or a batch) arrives with its rows stamped, waits for its tenant's advisory lock, reads
 the tip, and commits or rolls back; the lock is released with the transaction.  Retention takes no lock:
 it may delete any rows between any two of those steps.
*/
module AuditProtocol {
  import opened Outcomes
  import opened CanonicalJson
  import opened AuditChain
  import opened AuditVerifier
  import opened AuditWriter

  type WriterId = nat

  datatype Phase =
    | Arrived
    | Locked
    | TipRead(prev: Option<string>, next: int)

  datatype Writer = Writer(tenant: Value, batch: seq<Data>, phase: Phase)

  datatype State = State(table: seq<Row>, locks: map<Value, WriterId>, writers: map<WriterId, Writer>)

  datatype Step =
    | Arrive(id: WriterId, tenant: Value, batch: seq<Data>)
    | Acquire(id: WriterId)
    | ReadTip(id: WriterId)
    | Commit(id: WriterId)
    | Rollback(id: WriterId)
    | InsertUnchained(data: Data)
    | Retain(gone: set<Row>)

  /** The rows that survive a delete, in order. */
  function Keep(rows: seq<Row>, gone: set<Row>): (r: seq<Row>)
    ensures forall x :: x in r <==> x in rows && x !in gone
  {
    if rows == [] then []
    else
      var init, x := Keep(rows[..|rows| - 1], gone), rows[|rows| - 1];
      if x in gone then init else init + [x]
  }

  /** The transaction of `id` ends: its lock, if it holds one, is released. */
  function Finish(s: State, id: WriterId): State
    requires id in s.writers
  {
    var w := s.writers[id];
    s.(writers := s.writers - {id}, locks := if w.phase.Arrived? then s.locks else s.locks - {w.tenant})
  }

  predicate Enabled(codec: Codec, s: State, step: Step) {
    match step
    case Arrive(id, tenant, batch) => id !in s.writers && Truthy(tenant) && OfTenant(tenant, batch)
    case Acquire(id) => id in s.writers && s.writers[id].phase.Arrived? && s.writers[id].tenant !in s.locks
    case ReadTip(id) => id in s.writers && s.writers[id].phase.Locked?
    case Commit(id) =>
      && id in s.writers && s.writers[id].phase.TipRead?
      && Place(codec, s.table, true, s.writers[id].phase.prev, s.writers[id].phase.next, s.writers[id].batch).Ok?
    case Rollback(id) => id in s.writers
    case InsertUnchained(data) => !Truthy(Tenant(data))
    case Retain(_) => true
  }

  function Apply(codec: Codec, s: State, step: Step): State
    requires Enabled(codec, s, step)
  {
    match step
    case Arrive(id, tenant, batch) => s.(writers := s.writers[id := Writer(tenant, batch, Arrived)])
    case Acquire(id) =>
      s.(locks := s.locks[s.writers[id].tenant := id], writers := s.writers[id := s.writers[id].(phase := Locked)])
    case ReadTip(id) =>
      var tip := codec.tip(TenantChain(s.table, s.writers[id].tenant));
      s.(writers := s.writers[id := s.writers[id].(phase := TipRead(NextPrev(tip), NextSeq(tip)))])
    case Commit(id) =>
      var w := s.writers[id];
      Finish(s, id).(table := Place(codec, s.table, true, w.phase.prev, w.phase.next, w.batch).value)
    case Rollback(id) => Finish(s, id)
    case InsertUnchained(data) => s.(table := s.table + [UnchainedRow(data)])
    case Retain(gone) => s.(table := Keep(s.table, gone))
  }

  /** A writer that has read its tenant's tip with nothing in between. */
  function Ready(codec: Codec, s: State, id: WriterId, tenant: Value, batch: seq<Data>): State {
    var tip := codec.tip(TenantChain(s.table, tenant));
    s.(locks := s.locks[tenant := id], writers := s.writers[id := Writer(tenant, batch, TipRead(NextPrev(tip), NextSeq(tip)))])
  }

  lemma GetsReady(codec: Codec, s: State, id: WriterId, tenant: Value, batch: seq<Data>)
    requires Enabled(codec, s, Arrive(id, tenant, batch)) && tenant !in s.locks
    ensures var s1 := Apply(codec, s, Arrive(id, tenant, batch));
            && Enabled(codec, s1, Acquire(id))
            && var s2 := Apply(codec, s1, Acquire(id));
               Enabled(codec, s2, ReadTip(id)) && Apply(codec, s2, ReadTip(id)) == Ready(codec, s, id, tenant, batch)
  {
  }

  /** A writer that nothing interrupts stores what create_many stores, or nothing, and leaves no lock behind. */
  lemma UninterruptedWriter(codec: Codec, s: State, id: WriterId, tenant: Value, batch: seq<Data>)
    requires Enabled(codec, s, Arrive(id, tenant, batch)) && tenant !in s.locks
    ensures var ready, after := Ready(codec, s, id, tenant, batch), CreateBatch(codec, s.table, tenant, batch);
            && (Enabled(codec, ready, Commit(id)) <==> after.Ok?)
            && (after.Ok? ==> Apply(codec, ready, Commit(id)) == s.(table := after.value))
            && Apply(codec, ready, Rollback(id)) == s
  {
    var tip := codec.tip(TenantChain(s.table, tenant));
    FinishRestores(s, id, tenant, Writer(tenant, batch, TipRead(NextPrev(tip), NextSeq(tip))));
  }

  /** A write without a tenant is one `create`. */
  lemma InsertIsCreate(codec: Codec, s: State, data: Data)
    requires !Truthy(Tenant(data)) && CreateOne(codec, s.table, data).Ok?
    ensures Enabled(codec, s, InsertUnchained(data))
    ensures Apply(codec, s, InsertUnchained(data)) == s.(table := CreateOne(codec, s.table, data).value)
  {
  }

  lemma FinishRestores(s: State, id: WriterId, tenant: Value, w: Writer)
    requires id !in s.writers && tenant !in s.locks && w.tenant == tenant && !w.phase.Arrived?
    ensures Finish(s.(locks := s.locks[tenant := id], writers := s.writers[id := w]), id) == s
  {
    var t := s.(locks := s.locks[tenant := id], writers := s.writers[id := w]);
    assert t.writers - {id} == s.writers && t.locks - {tenant} == s.locks;
  }

  // ---------------------------------------------------------------- the invariant

  predicate RowInv(rehash: Rehash, r: Row) { ContentOk(rehash, r) && r.ChainSeq().Some? && r.Prev() != r.hash }

  /** `a` is before `b`: positions ascend, adjacent ones link, no predecessor is shared, and `a` does not name `b`. */
  predicate PairInv(a: Row, b: Row) {
    && a.Position() < b.Position()
    && Linked(a, b)
    && (a.Prev().Some? ==> a.Prev() != b.Prev())
    && a.Prev() != b.hash
  }

  predicate ChainInv(rehash: Rehash, rows: seq<Row>) {
    rows == [] ||
    var n := |rows| - 1;
    ChainInv(rehash, rows[..n]) && RowInv(rehash, rows[n]) && forall x | x in rows[..n] :: PairInv(x, rows[n])
  }

  /** A row chained after (`prev`, `next` - 1) would fit after every stored row. */
  predicate Fits(r: Row, prev: Option<string>, next: int) {
    && r.Position() < next
    && (r.Position() + 1 == next ==> prev == r.hash)
    && (prev.Some? ==> r.Prev() != prev)
  }

  predicate PendingInv(rows: seq<Row>, prev: Option<string>, next: int) { forall x | x in rows :: Fits(x, prev, next) }

  ghost predicate Inv(codec: Codec, s: State) {
    && (forall t | Truthy(t) :: ChainInv(codec.rehash, TenantChain(s.table, t)))
    && (forall id | id in s.writers :: WriterInv(s, id, s.writers[id]))
  }

  predicate WriterInv(s: State, id: WriterId, w: Writer) {
    && Truthy(w.tenant) && OfTenant(w.tenant, w.batch)
    && (!w.phase.Arrived? ==> w.tenant in s.locks && s.locks[w.tenant] == id)
    && (w.phase.TipRead? ==> PendingInv(TenantChain(s.table, w.tenant), w.phase.prev, w.phase.next))
  }

  // ---------------------------------------------------------------- rows whose hash is not yet named

  /** No stored row, and no row of the batch so far, names one of the new rows as its predecessor. */
  predicate Unnamed(rows: seq<Row>, built: seq<Row>) {
    forall k | 0 <= k < |built| :: UnnamedRow(rows, built[..k + 1], built[k])
  }

  predicate UnnamedRow(rows: seq<Row>, sofar: seq<Row>, row: Row) {
    (forall x | x in rows :: x.Prev() != row.hash) && (forall x | x in sofar :: x.Prev() != row.hash)
  }

  /** The commit of `id` writes only such rows. */
  predicate FreshCommit(codec: Codec, s: State, id: WriterId)
    requires Enabled(codec, s, Commit(id))
  {
    var w := s.writers[id];
    Unnamed(TenantChain(s.table, w.tenant), Build(codec, true, w.phase.prev, w.phase.next, w.batch).value)
  }

  predicate Fresh(codec: Codec, s: State, step: Step)
    requires Enabled(codec, s, step)
  {
    step.Commit? ==> FreshCommit(codec, s, step.id)
  }

  // ---------------------------------------------------------------- the invariant means verifying

  lemma {:induction false} ChainInvParts(rehash: Rehash, rows: seq<Row>)
    requires ChainInv(rehash, rows)
    ensures forall i | 0 <= i < |rows| :: RowInv(rehash, rows[i])
    ensures forall i, j | 0 <= i < j < |rows| :: PairInv(rows[i], rows[j])
  {
    if rows != [] {
      var n := |rows| - 1;
      ChainInvParts(rehash, rows[..n]);
      forall i | 0 <= i < n ensures RowInv(rehash, rows[i]) { assert rows[..n][i] == rows[i]; }
      forall i, j | 0 <= i < j < |rows| ensures PairInv(rows[i], rows[j]) {
        assert rows[..n][i] == rows[i];
        if j < n { assert rows[..n][j] == rows[j]; } else { assert rows[i] in rows[..n]; }
      }
    }
  }

  predicate Increasing(rows: seq<Row>) {
    && Numbered(rows)
    && forall i, j | 0 <= i < j < |rows| :: rows[i].Position() < rows[j].Position()
  }

  lemma ChainInvVerifies(rehash: Rehash, rows: seq<Row>)
    requires ChainInv(rehash, rows)
    ensures Verifies(rehash, rows) && Increasing(rows)
  {
    ChainInvParts(rehash, rows);
    forall i | 0 <= i < |rows| ensures ContentOk(rehash, rows[i]) && rows[i].ChainSeq().Some? {
      assert RowInv(rehash, rows[i]);
    }
    forall i | 0 < i < |rows| ensures Linked(rows[i - 1], rows[i]) { assert PairInv(rows[i - 1], rows[i]); }
    forall i, j | 0 <= i < j < |rows|
      ensures rows[i].Position() < rows[j].Position() && (rows[i].Prev().Some? ==> rows[i].Prev() != rows[j].Prev())
    {
      assert PairInv(rows[i], rows[j]);
    }
  }

  // ---------------------------------------------------------------- deletes

  lemma {:induction false} KeepChainInv(rehash: Rehash, rows: seq<Row>, gone: set<Row>)
    requires ChainInv(rehash, rows)
    ensures ChainInv(rehash, Keep(rows, gone))
  {
    if rows != [] {
      var n := |rows| - 1;
      KeepChainInv(rehash, rows[..n], gone);
      var init, kept := Keep(rows[..n], gone), Keep(rows, gone);
      if rows[n] in gone {
        assert kept == init;
      } else {
        assert kept[..|kept| - 1] == init;
      }
    }
  }

  /** Deleting rows and picking out a tenant's chain commute. */
  lemma {:induction false} KeepTenantChain(table: seq<Row>, gone: set<Row>, t: Value)
    ensures TenantChain(Keep(table, gone), t) == Keep(TenantChain(table, t), gone)
  {
    if table != [] {
      var n := |table| - 1;
      KeepTenantChain(table[..n], gone, t);
      LastApart(table, n);
      KeepTenantRow(table[..n], table[n], gone, t);
    }
  }

  lemma LastApart(table: seq<Row>, n: nat)
    requires n + 1 == |table|
    ensures table[..n] + [table[n]] == table
  {
  }

  lemma KeepTenantRow(init: seq<Row>, x: Row, gone: set<Row>, t: Value)
    requires TenantChain(Keep(init, gone), t) == Keep(TenantChain(init, t), gone)
    ensures TenantChain(Keep(init + [x], gone), t) == Keep(TenantChain(init + [x], t), gone)
  {
    KeepAppend(init, x, gone);
    TenantChainAppend(init, x, t);
    TenantChainAppend(Keep(init, gone), x, t);
    KeepAppend(TenantChain(init, t), x, gone);
  }

  lemma KeepAppend(rows: seq<Row>, x: Row, gone: set<Row>)
    ensures Keep(rows + [x], gone) == if x in gone then Keep(rows, gone) else Keep(rows, gone) + [x]
  {
    assert (rows + [x])[..|rows|] == rows;
  }

  // ---------------------------------------------------------------- writes

  /** Reading the tip of a sound chain gives a place that fits. */
  lemma TipFits(rehash: Rehash, tip: TipRule, rows: seq<Row>)
    requires ChainInv(rehash, rows)
    ensures PendingInv(rows, NextPrev(tip(rows)), NextSeq(tip(rows)))
  {
    ChainInvVerifies(rehash, rows);
    if rows != [] {
      LastIsTip(tip, rows);
      ChainInvParts(rehash, rows);
      var last := rows[|rows| - 1];
      forall x | x in rows ensures Fits(x, last.hash, last.Position() + 1) {
        var i :| 0 <= i < |rows| && rows[i] == x;
        assert RowInv(rehash, rows[i]);
        assert i < |rows| - 1 ==> PairInv(rows[i], last);
      }
    }
  }

  lemma LastIsTip(tip: TipRule, rows: seq<Row>)
    requires Increasing(rows) && rows != []
    ensures tip(rows) == Some(rows[|rows| - 1])
  {
    assert IsTip(rows, tip(rows)) && rows[|rows| - 1] in rows;
    var k :| 0 <= k < |rows| && rows[k] == tip(rows).value;
  }

  /** One row written where it fits, its hash not yet named, keeps the chain sound, and the next place fits after it. */
  lemma AppendOne(rehash: Rehash, rows: seq<Row>, prev: Option<string>, next: int, row: Row)
    requires ChainInv(rehash, rows) && PendingInv(rows, prev, next) && UnnamedRow(rows, [row], row)
    requires row.content.chainSeq == Some(next) && row.content.prev == prev && ContentOk(rehash, row)
    ensures ChainInv(rehash, rows + [row]) && PendingInv(rows + [row], row.hash, next + 1)
  {
    var more := rows + [row];
    assert more[..|rows|] == rows;
    assert row in [row];
    forall x | x in rows ensures PairInv(x, row) && Fits(x, row.hash, next + 1) {
      assert Fits(x, prev, next);
    }
  }

  lemma UnnamedSplit(rows: seq<Row>, row: Row, rest: seq<Row>)
    requires Unnamed(rows, [row] + rest)
    ensures UnnamedRow(rows, [row], row) && Unnamed(rows + [row], rest)
  {
    var built := [row] + rest;
    assert built[..1] == [row] && UnnamedRow(rows, built[..1], built[0]);
    forall k | 0 <= k < |rest| ensures UnnamedRow(rows + [row], rest[..k + 1], rest[k]) {
      assert UnnamedRow(rows, built[..k + 2], built[k + 1]);
      assert built[..k + 2] == [row] + rest[..k + 1];
    }
  }

  predicate ChainedFor(rows: seq<Row>, t: Value) {
    forall i | 0 <= i < |rows| :: rows[i].hash.Some? && Tenant(rows[i].content.data) == t
  }

  lemma {:induction false} TenantChainExtends(table: seq<Row>, rows: seq<Row>, t: Value)
    requires ChainedFor(rows, t)
    ensures TenantChain(table + rows, t) == TenantChain(table, t) + rows
  {
    if rows == [] {
      assert table + rows == table;
    } else {
      var init, last := rows[..|rows| - 1], rows[|rows| - 1];
      TenantChainExtends(table, init, t);
      assert rows == init + [last];
      SnocAssoc(table, init, last);
      SnocAssoc(TenantChain(table, t), init, last);
      TenantChainAppend(table + init, last, t);
    }
  }

  lemma SnocAssoc(a: seq<Row>, b: seq<Row>, x: Row)
    ensures a + (b + [x]) == (a + b) + [x]
  {
  }

  lemma ConsAssoc(a: seq<Row>, x: Row, b: seq<Row>)
    ensures a + ([x] + b) == (a + [x]) + b
  {
  }

  lemma {:induction false} OtherTenantsUnmoved(table: seq<Row>, rows: seq<Row>, t: Value, u: Value)
    requires ChainedFor(rows, t) && t != u
    ensures TenantChain(table + rows, u) == TenantChain(table, u)
  {
    if rows == [] {
      assert table + rows == table;
    } else {
      var init, last := rows[..|rows| - 1], rows[|rows| - 1];
      OtherTenantsUnmoved(table, init, t, u);
      assert rows == init + [last];
      SnocAssoc(table, init, last);
      TenantChainAppend(table + init, last, u);
    }
  }

  /** The first row of a batch, and the batch that follows it. */
  lemma BuildSplit(codec: Codec, prev: Option<string>, next: int, batch: seq<Data>) returns (row: Row, rest: seq<Row>)
    requires batch != [] && Build(codec, true, prev, next, batch).Ok?
    ensures ChainedRow(codec, prev, next, batch[0]) == Ok(row)
    ensures Build(codec, true, row.hash, next + 1, batch[1..]) == Ok(rest)
    ensures Build(codec, true, prev, next, batch).value == [row] + rest
  {
    row := ChainedRow(codec, prev, next, batch[0]).value;
    rest := Build(codec, true, row.hash, next + 1, batch[1..]).value;
  }

  lemma {:induction false} BuiltFor(codec: Codec, tenant: Value, prev: Option<string>, next: int, batch: seq<Data>)
    requires Truthy(tenant) && OfTenant(tenant, batch) && Build(codec, true, prev, next, batch).Ok?
    ensures ChainedFor(Build(codec, true, prev, next, batch).value, tenant)
    decreases |batch|
  {
    if batch != [] {
      var row := ChainedRow(codec, prev, next, batch[0]).value;
      NewRowTenant(codec, prev, next, batch[0]);
      OfTenantTail(tenant, batch);
      BuiltFor(codec, tenant, row.hash, next + 1, batch[1..]);
    }
  }

  /** A batch written where it fits, its hashes not yet named, keeps the chain sound. */
  lemma {:induction false} AppendBatch(codec: Codec, rows: seq<Row>, prev: Option<string>, next: int, batch: seq<Data>, built: seq<Row>)
    requires ChainInv(codec.rehash, rows) && PendingInv(rows, prev, next) && Unnamed(rows, built)
    requires Build(codec, true, prev, next, batch) == Ok(built)
    ensures ChainInv(codec.rehash, rows + built)
    decreases |batch|
  {
    if batch == [] {
      assert rows + built == rows;
    } else {
      var row, rest := BuildSplit(codec, prev, next, batch);
      ConsAssoc(rows, row, rest);
      UnnamedSplit(rows, row, rest);
      AppendOne(codec.rehash, rows, prev, next, row);
      AppendBatch(codec, rows + [row], row.hash, next + 1, batch[1..], rest);
    }
  }

  // ---------------------------------------------------------------- every step keeps the invariant

  lemma CommitKeepsInv(codec: Codec, s: State, id: WriterId)
    requires Inv(codec, s) && Enabled(codec, s, Commit(id)) && FreshCommit(codec, s, id)
    ensures Inv(codec, Apply(codec, s, Commit(id)))
  {
    var w, s' := s.writers[id], Apply(codec, s, Commit(id));
    assert WriterInv(s, id, w);
    var built := Build(codec, true, w.phase.prev, w.phase.next, w.batch).value;
    BuiltFor(codec, w.tenant, w.phase.prev, w.phase.next, w.batch);
    AppendBatch(codec, TenantChain(s.table, w.tenant), w.phase.prev, w.phase.next, w.batch, built);
    TenantChainExtends(s.table, built, w.tenant);
    forall t | t != w.tenant ensures TenantChain(s'.table, t) == TenantChain(s.table, t) {
      OtherTenantsUnmoved(s.table, built, w.tenant, t);
    }
    forall other | other in s'.writers ensures WriterInv(s', other, s'.writers[other]) {
      assert WriterInv(s, other, s.writers[other]);
    }
  }

  lemma RetainKeepsInv(codec: Codec, s: State, gone: set<Row>)
    requires Inv(codec, s)
    ensures Inv(codec, Apply(codec, s, Retain(gone)))
  {
    var s' := Apply(codec, s, Retain(gone));
    forall t ensures TenantChain(s'.table, t) == Keep(TenantChain(s.table, t), gone) {
      KeepTenantChain(s.table, gone, t);
    }
    forall t | Truthy(t) ensures ChainInv(codec.rehash, TenantChain(s'.table, t)) {
      KeepChainInv(codec.rehash, TenantChain(s.table, t), gone);
    }
    forall id | id in s'.writers ensures WriterInv(s', id, s'.writers[id]) {
      assert WriterInv(s, id, s.writers[id]);
    }
  }

  lemma UnchainedKeepsInv(codec: Codec, s: State, data: Data)
    requires Inv(codec, s) && !Truthy(Tenant(data))
    ensures Inv(codec, Apply(codec, s, InsertUnchained(data)))
  {
    var s' := Apply(codec, s, InsertUnchained(data));
    forall t ensures TenantChain(s'.table, t) == TenantChain(s.table, t) {
      TenantChainAppend(s.table, UnchainedRow(data), t);
    }
    forall id | id in s'.writers ensures WriterInv(s', id, s'.writers[id]) {
      assert WriterInv(s, id, s.writers[id]);
    }
  }

  lemma StepKeepsInv(codec: Codec, s: State, step: Step)
    requires Inv(codec, s) && Enabled(codec, s, step) && Fresh(codec, s, step)
    ensures Inv(codec, Apply(codec, s, step))
  {
    var s' := Apply(codec, s, step);
    match step
    case Commit(id) => CommitKeepsInv(codec, s, id);
    case Retain(gone) => RetainKeepsInv(codec, s, gone);
    case InsertUnchained(data) => UnchainedKeepsInv(codec, s, data);
    case ReadTip(id) =>
      TipFits(codec.rehash, codec.tip, TenantChain(s.table, s.writers[id].tenant));
      forall other | other in s'.writers ensures WriterInv(s', other, s'.writers[other]) {
        assert WriterInv(s, other, s.writers[other]);
      }
    case Arrive(id, tenant, batch) =>
      forall other | other in s'.writers ensures WriterInv(s', other, s'.writers[other]) {
        assert other != id ==> WriterInv(s, other, s.writers[other]);
      }
    case Acquire(id) =>
      forall other | other in s'.writers ensures WriterInv(s', other, s'.writers[other]) {
        assert WriterInv(s, other, s.writers[other]);
      }
    case Rollback(id) =>
      forall other | other in s'.writers ensures WriterInv(s', other, s'.writers[other]) {
        assert WriterInv(s, other, s.writers[other]);
        assert WriterInv(s, id, s.writers[id]);
      }
  }

  // ---------------------------------------------------------------- whole runs

  /** Every state follows from the one before by some enabled step. */
  ghost predicate IsRun(codec: Codec, run: seq<State>) {
    forall i | 0 < i < |run| :: FollowsAt(codec, run, i)
  }

  ghost predicate FollowsAt(codec: Codec, run: seq<State>, i: nat)
    requires 0 < i < |run|
  {
    Follows(codec, run[i - 1], run[i])
  }

  ghost predicate Follows(codec: Codec, s: State, s': State) { exists step :: Takes(codec, s, step, s') }

  predicate Takes(codec: Codec, s: State, step: Step, s': State) {
    Enabled(codec, s, step) && s' == Apply(codec, s, step)
  }

  /** A run in which no committed row's hash is already named by a stored row. */
  ghost predicate IsFreshRun(codec: Codec, run: seq<State>) {
    forall i | 0 < i < |run| :: FreshAt(codec, run, i)
  }

  ghost predicate FreshAt(codec: Codec, run: seq<State>, i: nat)
    requires 0 < i < |run|
  {
    FreshFollows(codec, run[i - 1], run[i])
  }

  ghost predicate FreshFollows(codec: Codec, s: State, s': State) { exists step :: FreshTakes(codec, s, step, s') }

  predicate FreshTakes(codec: Codec, s: State, step: Step, s': State) {
    Takes(codec, s, step, s') && Fresh(codec, s, step)
  }

  ghost predicate AllVerify(codec: Codec, s: State) {
    forall t | Truthy(t) :: Verifies(codec.rehash, TenantChain(s.table, t)) && Increasing(TenantChain(s.table, t))
  }

  /** The number a writer has read exceeds every stored one. */
  ghost predicate NumbersAhead(s: State) {
    forall id | id in s.writers && s.writers[id].phase.TipRead? ::
      forall r | r in TenantChain(s.table, s.writers[id].tenant) :: r.Position() < s.writers[id].phase.next
  }

  lemma InvMeans(codec: Codec, s: State)
    requires Inv(codec, s)
    ensures AllVerify(codec, s) && NumbersAhead(s)
  {
    forall t | Truthy(t) ensures Verifies(codec.rehash, TenantChain(s.table, t)) && Increasing(TenantChain(s.table, t)) {
      ChainInvVerifies(codec.rehash, TenantChain(s.table, t));
    }
    forall id | id in s.writers && s.writers[id].phase.TipRead?
      ensures forall r | r in TenantChain(s.table, s.writers[id].tenant) :: r.Position() < s.writers[id].phase.next
    {
      assert WriterInv(s, id, s.writers[id]);
      forall r | r in TenantChain(s.table, s.writers[id].tenant) ensures r.Position() < s.writers[id].phase.next {
        assert Fits(r, s.writers[id].phase.prev, s.writers[id].phase.next);
      }
    }
  }

  lemma FreshFollowsKeepsInv(codec: Codec, s: State, s': State)
    requires Inv(codec, s) && FreshFollows(codec, s, s')
    ensures Inv(codec, s')
  {
    var step :| FreshTakes(codec, s, step, s');
    StepKeepsInv(codec, s, step);
  }

  lemma FreshAtKeepsInv(codec: Codec, run: seq<State>, i: nat)
    requires 0 < i < |run| && IsFreshRun(codec, run) && Inv(codec, run[i - 1])
    ensures Inv(codec, run[i])
  {
    assert FreshAt(codec, run, i);
    FreshFollowsKeepsInv(codec, run[i - 1], run[i]);
  }

  lemma {:induction false} Inductively(P: nat -> bool, k: nat)
    requires P(0) && forall i | 0 < i <= k && P(i - 1) :: P(i)
    ensures P(k)
  {
    if k > 0 { Inductively(P, k - 1); }
  }

  lemma FreshRunKeepsInv(codec: Codec, run: seq<State>, k: nat)
    requires k < |run| && IsFreshRun(codec, run) && Inv(codec, run[0])
    ensures Inv(codec, run[k])
  {
    ghost var P := (i: nat) => i < |run| && Inv(codec, run[i]);
    forall i | 0 < i <= k && P(i - 1) ensures P(i) {
      FreshAtKeepsInv(codec, run, i);
    }
    Inductively(P, k);
  }
}
