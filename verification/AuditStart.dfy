/**
 From which tables the chain is safe: exactly those in which no row names a row that comes later, itself included
 (db/repositories/audit.py, scripts/verify_audit_chain.py).
*/
module AuditStart {
  import opened Outcomes
  import opened CanonicalJson
  import opened AuditChain
  import opened AuditVerifier
  import opened AuditWriter
  import opened AuditProtocol

  /** No row names itself or a later row as its predecessor. */
  predicate NamesNoLater(rows: seq<Row>) { forall i, j | 0 <= i <= j < |rows| :: rows[i].Prev() != rows[j].hash }

  /** The invariant of one chain, in terms of what the verifier sees. */
  lemma ChainInvExactly(rehash: Rehash, rows: seq<Row>)
    ensures ChainInv(rehash, rows) <==> Verifies(rehash, rows) && Increasing(rows) && NamesNoLater(rows)
  {
    if ChainInv(rehash, rows) {
      ChainInvVerifies(rehash, rows);
      ChainInvParts(rehash, rows);
      forall i, j | 0 <= i <= j < |rows| ensures rows[i].Prev() != rows[j].hash {
        assert RowInv(rehash, rows[i]);
        assert i < j ==> PairInv(rows[i], rows[j]);
      }
    }
    if Verifies(rehash, rows) && Increasing(rows) && NamesNoLater(rows) {
      forall i | 0 <= i < |rows| ensures RowInv(rehash, rows[i]) { assert ContentOk(rehash, rows[i]); }
      forall i, j | 0 <= i < j < |rows| ensures PairInv(rows[i], rows[j]) {
        assert j == i + 1 ==> Linked(rows[j - 1], rows[j]);
        assert j > i + 1 ==> rows[i].Position() < rows[i + 1].Position() < rows[j].Position();
      }
      ChainInvFromParts(rehash, rows);
    }
  }

  lemma {:induction false} ChainInvFromParts(rehash: Rehash, rows: seq<Row>)
    requires forall i | 0 <= i < |rows| :: RowInv(rehash, rows[i])
    requires forall i, j | 0 <= i < j < |rows| :: PairInv(rows[i], rows[j])
    ensures ChainInv(rehash, rows)
  {
    if rows != [] {
      ChainInvFromParts(rehash, rows[..|rows| - 1]);
    }
  }

  // ---------------------------------------------------------------- one write

  /** The row the next `create` for these rows' tenant would write. */
  function NextRow(codec: Codec, rows: seq<Row>, data: Data): Result<Row, WriteError> {
    ChainedRow(codec, NextPrev(codec.tip(rows)), NextSeq(codec.tip(rows)), data)
  }

  /** The next write keeps a verifying chain verifying exactly when no stored row already names the tip. */
  lemma NextWriteVerifiesExactly(codec: Codec, rows: seq<Row>, data: Data, row: Row)
    requires Verifies(codec.rehash, rows) && Increasing(rows) && rows != [] && NextRow(codec, rows, data) == Ok(row)
    ensures Verifies(codec.rehash, rows + [row]) <==> forall i | 0 <= i < |rows| :: rows[i].Prev() != rows[|rows| - 1].hash
  {
    LastIsTip(codec.tip, rows);
    var tip := rows[|rows| - 1];
    assert ContentOk(codec.rehash, tip) && row.Prev() == tip.hash;
    if i :| 0 <= i < |rows| && rows[i].Prev() == tip.hash {
      SharedPrevForks(rows, row, i);
    } else {
      LinkedRowVerifies(codec.rehash, rows, row);
    }
  }

  lemma SharedPrevForks(rows: seq<Row>, row: Row, i: nat)
    requires i < |rows| && rows[i].Prev() == row.Prev() && row.Prev().Some?
    ensures !NoFork(rows + [row])
  {
    var more := rows + [row];
    assert more[i].Prev() == more[|rows|].Prev();
  }

  lemma LinkedRowVerifies(rehash: Rehash, rows: seq<Row>, row: Row)
    requires Verifies(rehash, rows) && rows != [] && ContentOk(rehash, row) && row.Prev() == rows[|rows| - 1].hash
    requires forall i | 0 <= i < |rows| :: rows[i].Prev() != row.Prev()
    ensures Verifies(rehash, rows + [row])
  {
    var more := rows + [row];
    forall i | 0 < i < |more| ensures Linked(more[i - 1], more[i]) {
      assert i < |rows| ==> Linked(rows[i - 1], rows[i]);
    }
  }

  // ---------------------------------------------------------------- deletes, then one write

  /** Whatever is deleted first, the next write verifies. */
  ghost predicate SurvivesDeletes(codec: Codec, rows: seq<Row>) {
    forall gone, data, row | NextRow(codec, Keep(rows, gone), data) == Ok(row) :: Verifies(codec.rehash, Keep(rows, gone) + [row])
  }

  /** After each of its rows the chain can be continued at all. */
  ghost predicate Continuable(codec: Codec, rows: seq<Row>) { forall n | 0 < n <= |rows| :: Continues(codec, rows, n) }

  ghost predicate Continues(codec: Codec, rows: seq<Row>, n: nat)
    requires n <= |rows|
  {
    exists data :: CanFollow(codec, rows[..n], data)
  }

  predicate CanFollow(codec: Codec, rows: seq<Row>, data: Data) { NextRow(codec, rows, data).Ok? }

  /** The rows from position `n` on. */
  function From(rows: seq<Row>, n: nat): set<Row>
    requires n <= |rows|
  {
    set x | x in rows[n..]
  }

  lemma {:induction false} KeepAll(rows: seq<Row>, gone: set<Row>)
    requires forall i | 0 <= i < |rows| :: rows[i] !in gone
    ensures Keep(rows, gone) == rows
  {
    if rows != [] {
      var init, x := rows[..|rows| - 1], rows[|rows| - 1];
      KeepAll(init, gone);
      assert init + [x] == rows;
    }
  }

  lemma {:induction false} KeepFront(rows: seq<Row>, n: nat, gone: set<Row>)
    requires n <= |rows| && (forall i | 0 <= i < n :: rows[i] !in gone) && (forall i | n <= i < |rows| :: rows[i] in gone)
    ensures Keep(rows, gone) == rows[..n]
  {
    if n == |rows| {
      KeepAll(rows, gone);
      assert rows[..n] == rows;
    } else {
      var init := rows[..|rows| - 1];
      KeepFront(init, n, gone);
      assert init[..n] == rows[..n];
    }
  }

  /** Deleting everything from `n` on leaves the first `n` rows. */
  lemma DeleteFrom(rows: seq<Row>, n: nat)
    requires Increasing(rows) && n <= |rows|
    ensures Keep(rows, From(rows, n)) == rows[..n]
  {
    forall i | 0 <= i < n ensures rows[i] !in From(rows, n) {
      forall k | n <= k < |rows| ensures rows[k] != rows[i] { assert rows[i].Position() < rows[k].Position(); }
    }
    forall i | n <= i < |rows| ensures rows[i] in From(rows, n) { assert rows[i] == rows[n..][i - n]; }
    KeepFront(rows, n, From(rows, n));
  }

  lemma PrefixVerifies(rehash: Rehash, rows: seq<Row>, n: nat)
    requires Verifies(rehash, rows) && Increasing(rows) && n <= |rows|
    ensures Verifies(rehash, rows[..n]) && Increasing(rows[..n])
  {
    var front := rows[..n];
    forall i | 0 <= i < n ensures ContentOk(rehash, front[i]) { assert ContentOk(rehash, rows[i]); }
    forall i | 0 < i < n ensures Linked(front[i - 1], front[i]) { assert Linked(rows[i - 1], rows[i]); }
  }

  /** A row that names the row at `j`, itself or earlier, is forked by the write after `j`. */
  lemma NamedTipForks(codec: Codec, rows: seq<Row>, i: nat, j: nat, data: Data, row: Row)
    requires Verifies(codec.rehash, rows) && Increasing(rows) && i <= j < |rows| && rows[i].Prev() == rows[j].hash
    requires NextRow(codec, rows[..j + 1], data) == Ok(row)
    ensures !Verifies(codec.rehash, rows[..j + 1] + [row])
  {
    var front := rows[..j + 1];
    PrefixVerifies(codec.rehash, rows, j + 1);
    assert front[i] == rows[i] && front[|front| - 1] == rows[j];
    NextWriteVerifiesExactly(codec, front, data, row);
  }

  lemma SoundSurvives(codec: Codec, rows: seq<Row>, data: Data, row: Row)
    requires ChainInv(codec.rehash, rows) && NextRow(codec, rows, data) == Ok(row)
    ensures Verifies(codec.rehash, rows + [row])
  {
    ChainInvExactly(codec.rehash, rows);
    if rows == [] {
      assert rows + [row] == [row];
    } else {
      NextWriteVerifiesExactly(codec, rows, data, row);
    }
  }

  /** Over every set of deletes the next write verifies exactly when no row names a later one. */
  lemma SurvivesDeletesExactly(codec: Codec, rows: seq<Row>)
    requires Verifies(codec.rehash, rows) && Increasing(rows) && Continuable(codec, rows)
    ensures SurvivesDeletes(codec, rows) <==> NamesNoLater(rows)
  {
    if NamesNoLater(rows) {
      ChainInvExactly(codec.rehash, rows);
      forall gone, data, row | NextRow(codec, Keep(rows, gone), data) == Ok(row)
        ensures Verifies(codec.rehash, Keep(rows, gone) + [row])
      {
        KeepChainInv(codec.rehash, rows, gone);
        SoundSurvives(codec, Keep(rows, gone), data, row);
      }
    } else {
      var i, j :| 0 <= i <= j < |rows| && rows[i].Prev() == rows[j].hash;
      assert Continues(codec, rows, j + 1);
      var data :| CanFollow(codec, rows[..j + 1], data);
      DeleteFrom(rows, j + 1);
      NamedTipForks(codec, rows, i, j, data, NextRow(codec, rows[..j + 1], data).value);
    }
  }

  // ---------------------------------------------------------------- runs from a quiet table

  /** No writer is under way. */
  predicate QuietStart(s: State) { s.locks == map[] && s.writers == map[] }

  lemma QuietStartIsSound(codec: Codec, s: State)
    requires QuietStart(s) && AllVerify(codec, s) && forall t | Truthy(t) :: NamesNoLater(TenantChain(s.table, t))
    ensures Inv(codec, s)
  {
    forall t | Truthy(t) ensures ChainInv(codec.rehash, TenantChain(s.table, t)) {
      ChainInvExactly(codec.rehash, TenantChain(s.table, t));
    }
  }

  /** Every run that writes no hash already named keeps every chain verifying. */
  ghost predicate AlwaysVerifies(codec: Codec, s: State) {
    forall run, k | 0 <= k < |run| && run[0] == s && IsFreshRun(codec, run) :: AllVerify(codec, run[k])
  }

  /** `data` can be written for the tenant, under a new trace id, as a row that no stored row names. */
  ghost predicate CanWrite(codec: Codec, table: seq<Row>, t: Value, data: Data) {
    var rows := TenantChain(table, t);
    && Tenant(data) == t && NextRow(codec, rows, data).Ok?
    && FreshTrace(table, NextRow(codec, rows, data).value) && Unnamed(rows, [NextRow(codec, rows, data).value])
  }

  /** Whatever was deleted, a tenant with rows left can go on writing. */
  ghost predicate Writable(codec: Codec, s: State) {
    forall t, gone | Truthy(t) && TenantChain(Keep(s.table, gone), t) != [] :: exists data :: CanWrite(codec, Keep(s.table, gone), t, data)
  }

  lemma BuildOne(codec: Codec, prev: Option<string>, next: int, data: Data, row: Row)
    requires ChainedRow(codec, prev, next, data) == Ok(row)
    ensures Build(codec, true, prev, next, [data]) == Ok([row])
  {
    var rows := [data];
    assert rows[1..] == [];
    assert Build(codec, true, row.hash, next + 1, rows[1..]) == Ok([]);
    assert [row] + [] == [row];
  }

  lemma PlaceOne(codec: Codec, table: seq<Row>, prev: Option<string>, next: int, data: Data, row: Row)
    requires ChainedRow(codec, prev, next, data) == Ok(row) && FreshTrace(table, row)
    ensures Place(codec, table, true, prev, next, [data]) == Ok(table + [row])
  {
    BuildOne(codec, prev, next, data, row);
    FreshCons(table, row, []);
    assert [row] + [] == [row];
  }

  lemma FiveStates(codec: Codec, a: State, b: State, c: State, d: State, e: State)
    requires FreshFollows(codec, a, b) && FreshFollows(codec, b, c) && FreshFollows(codec, c, d) && FreshFollows(codec, d, e)
    ensures IsFreshRun(codec, [a, b, c, d, e])
  {
    var run := [a, b, c, d, e];
    forall i | 0 < i < |run| ensures FreshAt(codec, run, i) {
      assert i == 1 || i == 2 || i == 3 || i == 4;
    }
  }

  /** One write from a quiet table, as a run: arrive, lock, read the tip, commit. */
  lemma WriteOne(codec: Codec, s: State, t: Value, data: Data) returns (run: seq<State>)
    requires QuietStart(s) && Truthy(t) && CanWrite(codec, s.table, t, data)
    ensures |run| == 5 && run[0] == s && IsFreshRun(codec, run)
    ensures run[4].table == s.table + [NextRow(codec, TenantChain(s.table, t), data).value]
  {
    var rows := TenantChain(s.table, t);
    var row := NextRow(codec, rows, data).value;
    var prev, next := NextPrev(codec.tip(rows)), NextSeq(codec.tip(rows));
    var s1 := Apply(codec, s, Arrive(0, t, [data]));
    var s2 := Apply(codec, s1, Acquire(0));
    var s3 := Apply(codec, s2, ReadTip(0));
    assert s3.writers[0] == Writer(t, [data], TipRead(prev, next)) && s3.table == s.table;
    PlaceOne(codec, s.table, prev, next, data, row);
    BuildOne(codec, prev, next, data, row);
    var s4 := Apply(codec, s3, Commit(0));
    assert FreshFollows(codec, s, s1) by { assert FreshTakes(codec, s, Arrive(0, t, [data]), s1); }
    assert FreshFollows(codec, s1, s2) by { assert FreshTakes(codec, s1, Acquire(0), s2); }
    assert FreshFollows(codec, s2, s3) by { assert FreshTakes(codec, s2, ReadTip(0), s3); }
    assert FreshFollows(codec, s3, s4) by { assert FreshTakes(codec, s3, Commit(0), s4); }
    run := [s, s1, s2, s3, s4];
    FiveStates(codec, s, s1, s2, s3, s4);
  }

  lemma RunAfter(codec: Codec, s: State, run: seq<State>)
    requires run != [] && IsFreshRun(codec, run) && FreshFollows(codec, s, run[0])
    ensures IsFreshRun(codec, [s] + run) && ([s] + run)[0] == s && ([s] + run)[|run|] == run[|run| - 1]
  {
    var all := [s] + run;
    forall i | 0 < i < |all| ensures FreshAt(codec, all, i) {
      if i > 1 { assert FreshAt(codec, run, i - 1); }
    }
  }

  /** Delete a tenant's rows from position `n` on. */
  lemma DeleteRows(codec: Codec, s: State, t: Value, n: nat) returns (s1: State)
    requires QuietStart(s) && n <= |TenantChain(s.table, t)| && Increasing(TenantChain(s.table, t))
    ensures QuietStart(s1) && FreshFollows(codec, s, s1) && TenantChain(s1.table, t) == TenantChain(s.table, t)[..n]
    ensures s1.table == Keep(s.table, From(TenantChain(s.table, t), n))
  {
    var gone := From(TenantChain(s.table, t), n);
    s1 := Apply(codec, s, Retain(gone));
    assert FreshTakes(codec, s, Retain(gone), s1);
    KeepTenantChain(s.table, gone, t);
    DeleteFrom(TenantChain(s.table, t), n);
  }

  lemma DeleteAndPrepare(codec: Codec, s: State, t: Value, rows: seq<Row>, j: nat) returns (s1: State, data: Data)
    requires QuietStart(s) && Writable(codec, s) && Truthy(t) && rows == TenantChain(s.table, t) && Increasing(rows) && j < |rows|
    ensures QuietStart(s1) && FreshFollows(codec, s, s1) && CanWrite(codec, s1.table, t, data)
    ensures TenantChain(s1.table, t) == rows[..j + 1]
  {
    s1 := DeleteRows(codec, s, t, j + 1);
    var gone := From(rows, j + 1);
    assert TenantChain(Keep(s.table, gone), t) != [];
    data :| CanWrite(codec, Keep(s.table, gone), t, data);
  }

  lemma WriteExtends(codec: Codec, s: State, t: Value, data: Data, rows: seq<Row>) returns (run: seq<State>)
    requires QuietStart(s) && Truthy(t) && CanWrite(codec, s.table, t, data) && rows == TenantChain(s.table, t)
    ensures |run| == 5 && run[0] == s && IsFreshRun(codec, run) && CanFollow(codec, rows, data)
    ensures TenantChain(run[4].table, t) == rows + [NextRow(codec, rows, data).value]
  {
    NextRowTenant(codec, s.table, t, data);
    run := WriteOne(codec, s, t, data);
  }

  /** Delete what follows position `j` and write once: a run, and the chain it leaves. */
  lemma DeleteThenWrite(codec: Codec, s: State, t: Value, rows: seq<Row>, j: nat) returns (run: seq<State>, data: Data)
    requires QuietStart(s) && Writable(codec, s) && Truthy(t) && rows == TenantChain(s.table, t) && Increasing(rows) && j < |rows|
    ensures |run| == 6 && run[0] == s && IsFreshRun(codec, run) && CanFollow(codec, rows[..j + 1], data)
    ensures TenantChain(run[5].table, t) == rows[..j + 1] + [NextRow(codec, rows[..j + 1], data).value]
  {
    var s1;
    s1, data := DeleteAndPrepare(codec, s, t, rows, j);
    var rest := WriteExtends(codec, s1, t, data, rows[..j + 1]);
    RunAfter(codec, s, rest);
    run := [s] + rest;
  }

  /** A row that names itself or a later row of its tenant: some run does not verify. */
  lemma NamedLaterFails(codec: Codec, s: State, t: Value, i: nat, j: nat)
    requires QuietStart(s) && AllVerify(codec, s) && Writable(codec, s) && Truthy(t)
    requires var rows := TenantChain(s.table, t); i <= j < |rows| && rows[i].Prev() == rows[j].hash
    ensures !AlwaysVerifies(codec, s)
  {
    var rows := TenantChain(s.table, t);
    var run, data := DeleteThenWrite(codec, s, t, rows, j);
    NamedTipForks(codec, rows, i, j, data, NextRow(codec, rows[..j + 1], data).value);
    assert !AllVerify(codec, run[5]);
  }

  lemma NextRowTenant(codec: Codec, table: seq<Row>, t: Value, data: Data)
    requires Truthy(t) && CanWrite(codec, table, t, data)
    ensures TenantChain(table + [NextRow(codec, TenantChain(table, t), data).value], t)
         == TenantChain(table, t) + [NextRow(codec, TenantChain(table, t), data).value]
  {
    var rows := TenantChain(table, t);
    var row := NextRow(codec, rows, data).value;
    NewRowTenant(codec, NextPrev(codec.tip(rows)), NextSeq(codec.tip(rows)), data);
    TenantChainAppend(table, row, t);
  }

  /**
   From a quiet table whose chains verify: every interleaving of writers, batches, rollbacks and deletes that writes no
   hash already named keeps every chain verifying, if and only if no tenant's row names itself or a later one.
  */
  lemma StartIsSafeExactly(codec: Codec, s: State)
    requires QuietStart(s) && AllVerify(codec, s) && Writable(codec, s)
    ensures AlwaysVerifies(codec, s) <==> forall t | Truthy(t) :: NamesNoLater(TenantChain(s.table, t))
  {
    if forall t | Truthy(t) :: NamesNoLater(TenantChain(s.table, t)) {
      SafeStartVerifies(codec, s);
    } else {
      var t :| Truthy(t) && !NamesNoLater(TenantChain(s.table, t));
      var rows := TenantChain(s.table, t);
      var i, j :| 0 <= i <= j < |rows| && rows[i].Prev() == rows[j].hash;
      NamedLaterFails(codec, s, t, i, j);
    }
  }

  /** The safe half needs no more than that. */
  lemma SafeStartVerifies(codec: Codec, s: State)
    requires QuietStart(s) && AllVerify(codec, s) && forall t | Truthy(t) :: NamesNoLater(TenantChain(s.table, t))
    ensures AlwaysVerifies(codec, s)
  {
    QuietStartIsSound(codec, s);
    forall run, k | 0 <= k < |run| && run[0] == s && IsFreshRun(codec, run) ensures AllVerify(codec, run[k]) {
      FreshRunKeepsInv(codec, run, k);
      InvMeans(codec, run[k]);
    }
  }

  // ---------------------------------------------------------------- tables outside

  /** A chain can verify and still name a later row: a gap hides it.  The next write then forks the chain. */
  lemma VerifyingStartCanFork(codec: Codec, d3: Data, d5: Data, d6: Data, r3: Row, r5: Row, r6: Row)
    requires ChainedRow(codec, None, 5, d5) == Ok(r5)
    requires ChainedRow(codec, r5.hash, 3, d3) == Ok(r3)
    requires ChainedRow(codec, r5.hash, 6, d6) == Ok(r6)
    ensures Verifies(codec.rehash, [r3, r5]) && Increasing([r3, r5]) && !NamesNoLater([r3, r5])
    ensures NextRow(codec, [r3, r5], d6) == Ok(r6) && !Verifies(codec.rehash, [r3, r5] + [r6])
  {
    var rows := [r3, r5];
    LastIsTip(codec.tip, rows);
    assert rows[0].Prev() == rows[1].hash;
    NextWriteVerifiesExactly(codec, rows, d6, r6);
  }

  lemma {:induction false} TenantChainHashed(table: seq<Row>, t: Value)
    ensures forall x | x in TenantChain(table, t) :: x.hash.Some?
  {
    if table != [] {
      TenantChainHashed(table[..|table| - 1], t);
    }
  }

  /** One chained row without a position stays the tip, so two writes after it fork the chain. */
  lemma UnnumberedRowForks(codec: Codec, table: seq<Row>, tenant: Value, d1: Data, d2: Data)
    requires Truthy(tenant) && Tenant(d1) == tenant && Tenant(d2) == tenant
    requires OneUnnumbered(TenantChain(table, tenant)) && CreateEach(codec, table, [d1, d2]).Ok?
    ensures !NoFork(TenantChain(CreateEach(codec, table, [d1, d2]).value, tenant))
  {
    var before := TenantChain(table, tenant);
    var one, two := TwoCreates(codec, table, d1, d2);
    var r1, r2 := one[|table|], two[|one|];
    CreateMovesTip(codec, table, d1, r1);
    CreateMovesTip(codec, one, d2, r2);
    TenantChainHashed(table, tenant);
    SharedPrevForks(before + [r1], r2, |before|);
  }

  lemma TwoCreates(codec: Codec, table: seq<Row>, d1: Data, d2: Data) returns (one: seq<Row>, two: seq<Row>)
    requires CreateEach(codec, table, [d1, d2]).Ok?
    ensures CreateOne(codec, table, d1) == Ok(one) && CreateOne(codec, one, d2) == Ok(two)
    ensures CreateEach(codec, table, [d1, d2]) == Ok(two)
  {
    var rows := [d1, d2];
    assert rows[1..] == [d2] && [d2][1..] == [];
    one := CreateOne(codec, table, d1).value;
    two := CreateOne(codec, one, d2).value;
    assert CreateEach(codec, one, [d2]) == CreateEach(codec, two, []);
  }
}
