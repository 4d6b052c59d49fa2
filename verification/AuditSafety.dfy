/**
 Safety of every run: either every chain verifies, or two rows of the run's own history have colliding payloads
 (db/repositories/audit.py, security/audit_chain.py).
*/
module AuditSafety {
  import opened Outcomes
  import opened CanonicalJson
  import opened AuditChain
  import opened AuditVerifier
  import opened AuditEvidence
  import opened AuditWriter
  import opened AuditProtocol
  import opened AuditStart

  // ---------------------------------------------------------------- where predecessors come from

  /** Whatever hashes to `h` under format 2 was written before position `n`. */
  ghost predicate Bounded(rehash: Rehash, h: string, n: int) {
    forall c: Content | c.format == Some(2) && rehash(c) == Ok(h) :: c.chainSeq.Some? ==> c.chainSeq.value < n
  }

  predicate Precedes(rehash: Rehash, y: Row, h: Option<string>, n: int) {
    y.hash == h && ContentOk(rehash, y) && y.Position() < n
  }

  /** The hash is that of a row seen before position `n`, or nothing written from `n` on can have it. */
  ghost predicate Settled(rehash: Rehash, seen: set<Row>, h: Option<string>, n: int) {
    h.Some? ==> Bounded(rehash, h.value, n) || exists y | y in seen :: Precedes(rehash, y, h, n)
  }

  /** Every predecessor named by a stored row, or about to be named by a writer, is settled. */
  ghost predicate Sourced(rehash: Rehash, seen: set<Row>, s: State) {
    && (forall t, x | Truthy(t) && x in TenantChain(s.table, t) :: Settled(rehash, seen, x.Prev(), x.Position()))
    && (forall id | id in s.writers :: WriterSourced(rehash, seen, s.writers[id]))
  }

  ghost predicate WriterSourced(rehash: Rehash, seen: set<Row>, w: Writer) {
    w.phase.TipRead? ==> Settled(rehash, seen, w.phase.prev, w.phase.next)
  }

  /** Two rows with one hash, the second of format 2 and at a later position. */
  predicate Clash(rehash: Rehash, y: Row, r: Row) {
    && y.hash == r.hash && ContentOk(rehash, y) && ContentOk(rehash, r)
    && r.content.format == Some(2) && r.ChainSeq().Some? && y.Position() < r.Position()
  }

  ghost predicate ClashIn(rehash: Rehash, seen: set<Row>) { exists y, r :: y in seen && r in seen && Clash(rehash, y, r) }

  lemma SettledGrows(rehash: Rehash, seen: set<Row>, more: set<Row>, h: Option<string>, n: int)
    requires Settled(rehash, seen, h, n) && seen <= more
    ensures Settled(rehash, more, h, n)
  {
    if h.Some? && !Bounded(rehash, h.value, n) {
      var y :| y in seen && Precedes(rehash, y, h, n);
      assert y in more;
    }
  }

  // ---------------------------------------------------------------- a hash that is already named

  /** What is known of the m-th row of a batch. */
  lemma {:induction false} BuiltRow(codec: Codec, prev: Option<string>, next: int, batch: seq<Data>, built: seq<Row>, m: nat)
    requires Build(codec, true, prev, next, batch) == Ok(built) && m < |built|
    ensures ContentOk(codec.rehash, built[m]) && built[m].content.format == Some(2)
    ensures built[m].ChainSeq() == Some(next + m) && built[m].Prev() == if m == 0 then prev else built[m - 1].hash
    decreases |batch|
  {
    var row, rest := BuildSplit(codec, prev, next, batch);
    if m > 0 {
      BuiltRow(codec, row.hash, next + 1, batch[1..], rest, m - 1);
    }
  }

  /** A named hash that is settled before the new row's position clashes with it. */
  lemma NamedClashes(rehash: Rehash, seen: set<Row>, h: Option<string>, n: int, r: Row)
    requires Settled(rehash, seen, h, n) && h == r.hash && ContentOk(rehash, r) && r in seen
    requires r.content.format == Some(2) && r.ChainSeq().Some? && n <= r.Position()
    ensures ClashIn(rehash, seen)
  {
    assert !Bounded(rehash, h.value, n) by { assert rehash(r.content) == Ok(h.value); }
    var y :| y in seen && Precedes(rehash, y, h, n);
    assert Clash(rehash, y, r);
  }

  /** Where the batch's own rows get their predecessors. */
  lemma BuiltSettled(codec: Codec, seen: set<Row>, prev: Option<string>, next: int, batch: seq<Data>, built: seq<Row>, m: nat)
    requires Build(codec, true, prev, next, batch) == Ok(built) && m < |built| && Settled(codec.rehash, seen, prev, next)
    requires forall x | x in built :: x in seen
    ensures Settled(codec.rehash, seen, built[m].Prev(), built[m].Position())
  {
    BuiltRow(codec, prev, next, batch, built, m);
    if m > 0 {
      BuiltRow(codec, prev, next, batch, built, m - 1);
      assert built[m - 1] in seen && Precedes(codec.rehash, built[m - 1], built[m].Prev(), built[m].Position());
    }
  }

  /** A commit that writes an already named hash clashes with a row of the history. */
  lemma StaleCommitClashes(codec: Codec, seen: set<Row>, rows: seq<Row>, prev: Option<string>, next: int, batch: seq<Data>, built: seq<Row>)
    requires Build(codec, true, prev, next, batch) == Ok(built) && !Unnamed(rows, built) && Settled(codec.rehash, seen, prev, next)
    requires PendingInv(rows, prev, next) && forall x | x in rows :: Settled(codec.rehash, seen, x.Prev(), x.Position())
    requires forall x | x in built :: x in seen
    ensures ClashIn(codec.rehash, seen)
  {
    var k :| 0 <= k < |built| && !UnnamedRow(rows, built[..k + 1], built[k]);
    BuiltRow(codec, prev, next, batch, built, k);
    assert built[k] in built;
    if x :| x in rows && x.Prev() == built[k].hash {
      assert Fits(x, prev, next);
      NamedClashes(codec.rehash, seen, x.Prev(), x.Position(), built[k]);
    } else {
      var x :| x in built[..k + 1] && x.Prev() == built[k].hash;
      var m :| 0 <= m < k + 1 && built[..k + 1][m] == x;
      BuiltRow(codec, prev, next, batch, built, m);
      BuiltSettled(codec, seen, prev, next, batch, built, m);
      NamedClashes(codec.rehash, seen, x.Prev(), x.Position(), built[k]);
    }
  }

  // ---------------------------------------------------------------- every step

  function Rows(table: seq<Row>): set<Row> { set x | x in table }

  lemma {:induction false} TenantChainInTable(table: seq<Row>, t: Value)
    ensures forall x | x in TenantChain(table, t) :: x in table
  {
    if table != [] {
      TenantChainInTable(table[..|table| - 1], t);
    }
  }

  /** Steps that leave each stored row, and each read tip, as some step before left it. */
  lemma QuietStepSourced(codec: Codec, seen: set<Row>, s: State, step: Step)
    requires Enabled(codec, s, step) && Sourced(codec.rehash, seen, s) && Rows(s.table) <= seen && Inv(codec, s)
    requires !step.Commit? && !step.Retain? && !step.InsertUnchained?
    ensures Sourced(codec.rehash, seen, Apply(codec, s, step))
  {
    var s' := Apply(codec, s, step);
    if step.ReadTip? {
      ReadTipSourced(codec, seen, s, s.writers[step.id].tenant);
    }
    forall id | id in s'.writers ensures WriterSourced(codec.rehash, seen, s'.writers[id]) {
      assert id in s.writers ==> WriterSourced(codec.rehash, seen, s.writers[id]);
    }
  }

  lemma ReadTipSourced(codec: Codec, seen: set<Row>, s: State, t: Value)
    requires Inv(codec, s) && Rows(s.table) <= seen && Truthy(t)
    ensures var tip := codec.tip(TenantChain(s.table, t)); Settled(codec.rehash, seen, NextPrev(tip), NextSeq(tip))
  {
    var rows := TenantChain(s.table, t);
    if rows != [] {
      ChainInvVerifies(codec.rehash, rows);
      LastIsTip(codec.tip, rows);
      TenantChainInTable(s.table, t);
      var last := rows[|rows| - 1];
      assert last in rows && ContentOk(codec.rehash, last);
      assert last in seen && Precedes(codec.rehash, last, last.hash, last.Position() + 1);
    }
  }

  lemma RetainSourced(codec: Codec, seen: set<Row>, s: State, gone: set<Row>)
    requires Sourced(codec.rehash, seen, s)
    ensures Sourced(codec.rehash, seen, Apply(codec, s, Retain(gone)))
  {
    var s' := Apply(codec, s, Retain(gone));
    forall t, x | Truthy(t) && x in TenantChain(s'.table, t) ensures Settled(codec.rehash, seen, x.Prev(), x.Position()) {
      KeepTenantChain(s.table, gone, t);
      assert x in TenantChain(s.table, t);
    }
  }

  lemma UnchainedSourced(codec: Codec, seen: set<Row>, s: State, data: Data)
    requires Sourced(codec.rehash, seen, s)
    ensures Sourced(codec.rehash, seen, s.(table := s.table + [UnchainedRow(data)]))
  {
    forall t, x | Truthy(t) && x in TenantChain(s.table + [UnchainedRow(data)], t)
      ensures Settled(codec.rehash, seen, x.Prev(), x.Position())
    {
      TenantChainAppend(s.table, UnchainedRow(data), t);
    }
  }

  /** After a commit whose writer was sourced, every stored row is: the new ones name the tip read or each other. */
  lemma CommitSourced(codec: Codec, seen: set<Row>, s: State, id: WriterId)
    requires Enabled(codec, s, Commit(id)) && Sourced(codec.rehash, seen, s) && Inv(codec, s)
    requires Rows(Apply(codec, s, Commit(id)).table) <= seen
    ensures Sourced(codec.rehash, seen, Apply(codec, s, Commit(id)))
  {
    var w, s' := s.writers[id], Apply(codec, s, Commit(id));
    var built := Build(codec, true, w.phase.prev, w.phase.next, w.batch).value;
    assert WriterInv(s, id, w) && WriterSourced(codec.rehash, seen, w);
    BuiltFor(codec, w.tenant, w.phase.prev, w.phase.next, w.batch);
    assert forall x | x in built :: x in s'.table;
    forall t, x | Truthy(t) && x in TenantChain(s'.table, t) ensures Settled(codec.rehash, seen, x.Prev(), x.Position()) {
      CommitRows(s.table, built, w.tenant, t, x);
      if x in built {
        var m :| 0 <= m < |built| && built[m] == x;
        BuiltSettled(codec, seen, w.phase.prev, w.phase.next, w.batch, built, m);
      }
    }
  }

  lemma CommitRows(table: seq<Row>, built: seq<Row>, tenant: Value, t: Value, x: Row)
    requires ChainedFor(built, tenant) && x in TenantChain(table + built, t)
    ensures x in TenantChain(table, t) || x in built
  {
    if t == tenant { TenantChainExtends(table, built, t); } else { OtherTenantsUnmoved(table, built, tenant, t); }
  }

  lemma CommitStep(codec: Codec, seen: set<Row>, s: State, id: WriterId)
    requires Enabled(codec, s, Commit(id)) && Sourced(codec.rehash, seen, s) && Inv(codec, s)
    requires Rows(Apply(codec, s, Commit(id)).table) <= seen
    ensures ClashIn(codec.rehash, seen) || FreshCommit(codec, s, id)
  {
    var w, s' := s.writers[id], Apply(codec, s, Commit(id));
    var built := Build(codec, true, w.phase.prev, w.phase.next, w.batch).value;
    assert WriterInv(s, id, w) && WriterSourced(codec.rehash, seen, w);
    assert forall x | x in built :: x in s'.table;
    if !FreshCommit(codec, s, id) {
      StaleCommitClashes(codec, seen, TenantChain(s.table, w.tenant), w.phase.prev, w.phase.next, w.batch, built);
    }
  }

  lemma StepSourced(codec: Codec, seen: set<Row>, s: State, step: Step)
    requires Enabled(codec, s, step) && Sourced(codec.rehash, seen, s) && Inv(codec, s)
    requires Rows(s.table) <= seen && Rows(Apply(codec, s, step).table) <= seen
    ensures ClashIn(codec.rehash, seen) || (Inv(codec, Apply(codec, s, step)) && Sourced(codec.rehash, seen, Apply(codec, s, step)))
  {
    match step
    case Commit(id) =>
      CommitStep(codec, seen, s, id);
      CommitSourced(codec, seen, s, id);
      if FreshCommit(codec, s, id) { StepKeepsInv(codec, s, step); }
    case Retain(gone) =>
      RetainSourced(codec, seen, s, gone);
      StepKeepsInv(codec, s, step);
    case InsertUnchained(data) =>
      UnchainedSourced(codec, seen, s, data);
      StepKeepsInv(codec, s, step);
    case Arrive(_, _, _) => QuietStepSourced(codec, seen, s, step); StepKeepsInv(codec, s, step);
    case Acquire(_) => QuietStepSourced(codec, seen, s, step); StepKeepsInv(codec, s, step);
    case ReadTip(_) => QuietStepSourced(codec, seen, s, step); StepKeepsInv(codec, s, step);
    case Rollback(_) => QuietStepSourced(codec, seen, s, step); StepKeepsInv(codec, s, step);
  }

  // ---------------------------------------------------------------- every run

  /** The rows ever stored up to state `k`, and those of the past. */
  function Seen(past: set<Row>, run: seq<State>, k: nat): (seen: set<Row>)
    requires k < |run|
    ensures past <= seen && Rows(run[k].table) <= seen
  {
    (if k == 0 then past else Seen(past, run, k - 1)) + Rows(run[k].table)
  }

  lemma SourcedGrows(rehash: Rehash, seen: set<Row>, more: set<Row>, s: State)
    requires Sourced(rehash, seen, s) && seen <= more
    ensures Sourced(rehash, more, s)
  {
    forall t, x | Truthy(t) && x in TenantChain(s.table, t) ensures Settled(rehash, more, x.Prev(), x.Position()) {
      SettledGrows(rehash, seen, more, x.Prev(), x.Position());
    }
    forall id | id in s.writers ensures WriterSourced(rehash, more, s.writers[id]) {
      assert WriterSourced(rehash, seen, s.writers[id]);
      if s.writers[id].phase.TipRead? { SettledGrows(rehash, seen, more, s.writers[id].phase.prev, s.writers[id].phase.next); }
    }
  }

  lemma ClashGrows(rehash: Rehash, seen: set<Row>, more: set<Row>)
    requires ClashIn(rehash, seen) && seen <= more
    ensures ClashIn(rehash, more)
  {
    var y, r :| y in seen && r in seen && Clash(rehash, y, r);
    assert y in more && r in more;
  }

  /** The state is sound and sourced, or a clash has been seen. */
  ghost predicate SoundOrClash(codec: Codec, seen: set<Row>, s: State) {
    ClashIn(codec.rehash, seen) || (Inv(codec, s) && Sourced(codec.rehash, seen, s))
  }

  lemma FollowsSourced(codec: Codec, past: set<Row>, run: seq<State>, k: nat)
    requires IsRun(codec, run) && 0 < k < |run| && SoundOrClash(codec, Seen(past, run, k - 1), run[k - 1])
    ensures SoundOrClash(codec, Seen(past, run, k), run[k])
  {
    var s, s', before, seen := run[k - 1], run[k], Seen(past, run, k - 1), Seen(past, run, k);
    assert before <= seen;
    if ClashIn(codec.rehash, before) {
      ClashGrows(codec.rehash, before, seen);
    } else {
      assert FollowsAt(codec, run, k);
      var step :| Takes(codec, s, step, s');
      SourcedGrows(codec.rehash, before, seen, s);
      StepSourced(codec, seen, s, step);
    }
  }

  lemma {:induction false} RunIsSoundOrClashes(codec: Codec, past: set<Row>, run: seq<State>, k: nat)
    requires k < |run| && IsRun(codec, run) && SoundOrClash(codec, Seen(past, run, 0), run[0])
    ensures SoundOrClash(codec, Seen(past, run, k), run[k])
  {
    if k > 0 {
      RunIsSoundOrClashes(codec, past, run, k - 1);
      FollowsSourced(codec, past, run, k);
    }
  }

  /** Two rows of the history have colliding payloads. */
  ghost predicate HistoryCollides(scheme: Scheme, seen: set<Row>) {
    exists y, r :: y in seen && r in seen && Collide(scheme, y.content, r.content)
  }

  lemma ClashCollides(scheme: Scheme, rehash: Rehash, seen: set<Row>)
    requires rehash == RehashBy(scheme) && ClashIn(rehash, seen)
    ensures HistoryCollides(scheme, seen)
  {
    var y, r :| y in seen && r in seen && Clash(rehash, y, r);
    HashPinsRow(scheme, r.content, y.content);
    CollideIsSymmetric(scheme, r.content, y.content);
  }

  /**
   Safety over every interleaving, whatever the digest: at every moment every tenant's chain verifies with ascending
   positions and every pending number exceeds the stored ones - or two rows the run has stored (or that were stored
   before it) have different payloads with one digest.
  */
  lemma EveryRunVerifies(scheme: Scheme, tip: TipRule, past: set<Row>, run: seq<State>, k: nat)
    requires k < |run| && IsRun(CodecOf(scheme, tip), run) && Inv(CodecOf(scheme, tip), run[0])
    requires Sourced(RehashBy(scheme), Seen(past, run, 0), run[0])
    ensures HistoryCollides(scheme, Seen(past, run, k)) || (AllVerify(CodecOf(scheme, tip), run[k]) && NumbersAhead(run[k]))
  {
    var codec := CodecOf(scheme, tip);
    RunIsSoundOrClashes(codec, past, run, k);
    if ClashIn(codec.rehash, Seen(past, run, k)) {
      ClashCollides(scheme, codec.rehash, Seen(past, run, k));
    } else {
      InvMeans(codec, run[k]);
    }
  }

  // ---------------------------------------------------------------- complete chains

  predicate DistinctHashes(rows: seq<Row>) {
    forall i, j | 0 <= i < j < |rows| :: rows[i].hash != rows[j].hash
  }

  /** A chain that verifies back to its genesis row, with no position missing and no hash repeated. */
  predicate CompleteChain(rehash: Rehash, rows: seq<Row>) {
    && Verifies(rehash, rows) && GapFree(rows) && Numbered(rows) && DistinctHashes(rows)
    && (rows != [] ==> rows[0].Prev().None?)
  }

  lemma {:induction false} CompleteChainPositions(rows: seq<Row>, i: nat, j: nat)
    requires GapFree(rows) && i <= j < |rows|
    ensures rows[j].Position() == rows[i].Position() + j - i
  {
    if i < j {
      CompleteChainPositions(rows, i, j - 1);
      assert Contiguous(rows[j - 1], rows[j]);
    }
  }

  /** Each row but the first names the one before it, so none names a later one. */
  lemma CompleteChainIsSound(rehash: Rehash, rows: seq<Row>)
    requires CompleteChain(rehash, rows)
    ensures ChainInv(rehash, rows)
    ensures forall i | 0 <= i < |rows| :: rows[i].Prev() == if i == 0 then None else rows[i - 1].hash
  {
    forall i | 0 < i < |rows| ensures rows[i].Prev() == rows[i - 1].hash {
      assert Contiguous(rows[i - 1], rows[i]) && Linked(rows[i - 1], rows[i]);
    }
    forall i, j | 0 <= i < j < |rows| ensures rows[i].Position() < rows[j].Position() { CompleteChainPositions(rows, i, j); }
    forall i, j | 0 <= i <= j < |rows| ensures rows[i].Prev() != rows[j].hash {
      assert ContentOk(rehash, rows[j]);
      assert i > 0 ==> rows[i].Prev() == rows[i - 1].hash && rows[i - 1].hash != rows[j].hash;
    }
    ChainInvExactly(rehash, rows);
  }

  lemma CompleteChainSourced(rehash: Rehash, seen: set<Row>, rows: seq<Row>, x: Row)
    requires CompleteChain(rehash, rows) && (forall y | y in rows :: y in seen) && x in rows
    ensures Settled(rehash, seen, x.Prev(), x.Position())
  {
    CompleteChainIsSound(rehash, rows);
    ChainInvVerifies(rehash, rows);
    var i :| 0 <= i < |rows| && rows[i] == x;
    if i > 0 {
      var y := rows[i - 1];
      assert y in rows && ContentOk(rehash, y) && y.Position() < x.Position();
      assert y in seen && Precedes(rehash, y, x.Prev(), x.Position());
    }
  }

  lemma CompleteStart(codec: Codec, s: State)
    requires QuietStart(s) && forall t | Truthy(t) :: CompleteChain(codec.rehash, TenantChain(s.table, t))
    ensures Inv(codec, s) && Sourced(codec.rehash, Rows(s.table), s)
  {
    forall t | Truthy(t) ensures ChainInv(codec.rehash, TenantChain(s.table, t)) {
      CompleteChainIsSound(codec.rehash, TenantChain(s.table, t));
    }
    forall t, x | Truthy(t) && x in TenantChain(s.table, t) ensures Settled(codec.rehash, Rows(s.table), x.Prev(), x.Position()) {
      TenantChainInTable(s.table, t);
      CompleteChainSourced(codec.rehash, Rows(s.table), TenantChain(s.table, t), x);
    }
  }

  /**
   From complete chains, in particular from the empty table, every interleaving keeps every chain verifying, or holds a
   collision between the payloads of two rows it has stored.
  */
  lemma CompleteStartStaysVerified(scheme: Scheme, tip: TipRule, run: seq<State>, k: nat)
    requires k < |run| && IsRun(CodecOf(scheme, tip), run) && QuietStart(run[0])
    requires forall t | Truthy(t) :: CompleteChain(RehashBy(scheme), TenantChain(run[0].table, t))
    ensures HistoryCollides(scheme, Seen({}, run, k)) || (AllVerify(CodecOf(scheme, tip), run[k]) && NumbersAhead(run[k]))
  {
    CompleteStart(CodecOf(scheme, tip), run[0]);
    assert Seen({}, run, 0) == Rows(run[0].table);
    EveryRunVerifies(scheme, tip, {}, run, k);
  }
}
