/**
 Retention: `_cleanup_audit_logs` (workers/tasks.py), the delete that takes no chain lock.

 The instant a row was created is read by the parameter `created`; each DELETE statement carries its own clock
 reading.  The statements share one transaction, so other sessions see their union at the commit.
*/
module AuditRetention {
  import opened CanonicalJson
  import opened AuditChain
  import opened AuditVerifier
  import opened Sequences
  import opened AuditWriter
  import opened AuditProtocol

  const DAY: real := 86400.0

  /** One DELETE: a tenant's rows (Null for rows without a tenant) older than `days` before `now`. */
  datatype Purge = Purge(tenant: Value, days: int, now: real)

  predicate Expired(created: Row -> real, p: Purge, r: Row) {
    p.days >= 1 && Tenant(r.content.data) == p.tenant && created(r) < p.now - p.days as real * DAY
  }

  /** The rows some statement of the plan deletes. */
  function Doomed(created: Row -> real, plan: seq<Purge>, table: seq<Row>): (gone: set<Row>)
    ensures forall r :: r in gone <==> r in table && exists p | p in plan :: Expired(created, p, r)
  {
    set r | r in table && exists p | p in plan :: Expired(created, p, r)
  }

  /** Within its own tenant's window, under every statement of the plan; a day is 86400 seconds. */
  ghost function Outlives(created: Row -> real, plan: seq<Purge>): Row -> bool {
    (r: Row) => forall p | p in plan && p.days >= 1 && Get(r.content.data, "tenant_id") == p.tenant ::
                  created(r) + p.days as real * 86400.0 >= p.now
  }

  lemma DoomedExactly(created: Row -> real, plan: seq<Purge>, table: seq<Row>, r: Row)
    requires r in table
    ensures r in Doomed(created, plan, table) <==> !Outlives(created, plan)(r)
  {
    if !Outlives(created, plan)(r) {
      var p :| p in plan && p.days >= 1 && Get(r.content.data, "tenant_id") == p.tenant && created(r) + p.days as real * 86400.0 < p.now;
      assert Expired(created, p, r);
    }
  }

  /** What is kept is what outlives the plan, in order. */
  lemma {:induction false} KeptOutlives(created: Row -> real, plan: seq<Purge>, table: seq<Row>, gone: set<Row>)
    requires forall r | r in table :: r in gone <==> !Outlives(created, plan)(r)
    ensures Selects(table, Outlives(created, plan), Keep(table, gone))
  {
    if table == [] {
      SelectsNone<Row>(Outlives(created, plan));
    } else {
      KeptOutlives(created, plan, table[..|table| - 1], gone);
      SelectsLast(table, Outlives(created, plan), Keep(table[..|table| - 1], gone));
    }
  }

  lemma {:induction false} KeepTwice(table: seq<Row>, first: set<Row>, second: set<Row>)
    ensures Keep(Keep(table, first), second) == Keep(table, first + second)
  {
    if table != [] {
      var init, x := table[..|table| - 1], table[|table| - 1];
      KeepTwice(init, first, second);
      if x !in first {
        assert (Keep(init, first) + [x])[..|Keep(init, first)|] == Keep(init, first);
      }
    }
  }

  /** Only membership in the table matters. */
  lemma {:induction false} KeepSame(table: seq<Row>, first: set<Row>, second: set<Row>)
    requires forall r | r in table :: r in first <==> r in second
    ensures Keep(table, first) == Keep(table, second)
  {
    if table != [] {
      KeepSame(table[..|table| - 1], first, second);
    }
  }

  lemma PurgeOneMore(created: Row -> real, table: seq<Row>, plan: seq<Purge>, p: Purge)
    ensures var now := Keep(table, Doomed(created, plan, table));
            Keep(now, Doomed(created, [p], now)) == Keep(table, Doomed(created, plan + [p], table))
  {
    var first := Doomed(created, plan, table);
    var now := Keep(table, first);
    var second := Doomed(created, [p], now);
    KeepTwice(table, first, second);
    forall r | r in table ensures r in first + second <==> r in Doomed(created, plan + [p], table) {
      assert p in [p] && p in plan + [p];
      assert forall q | q in plan :: q in plan + [p];
      assert forall q | q in plan + [p] :: q in plan || q == p;
    }
    KeepSame(table, first + second, Doomed(created, plan + [p], table));
  }

  /** The tenants' statements in order, then the one for rows without a tenant under the deployment default. */
  method CleanupAuditLogs(repo: AuditRepository, created: Row -> real, tenants: seq<Purge>, orphans: Purge)
    returns (total: int)
    requires orphans.tenant == Null
    modifies repo
    ensures repo.table == Keep(old(repo.table), Doomed(created, tenants + [orphans], old(repo.table)))
    ensures Selects(old(repo.table), Outlives(created, tenants + [orphans]), repo.table)
    ensures total == |old(repo.table)| - |repo.table|
  {
    total := 0;
    assert Keep(repo.table, {}) == repo.table by { KeepNone(repo.table); }
    assert Doomed(created, tenants[..0], repo.table) == {};
    for i := 0 to |tenants|
      invariant repo.table == Keep(old(repo.table), Doomed(created, tenants[..i], old(repo.table)))
      invariant total == |old(repo.table)| - |repo.table|
    {
      assert tenants[..i + 1] == tenants[..i] + [tenants[i]];
      PurgeOneMore(created, old(repo.table), tenants[..i], tenants[i]);
      if tenants[i].days < 1 {
        NothingExpires(created, tenants[i], repo.table);
        continue;
      }
      var affected := Delete(repo, created, tenants[i]);
      total := total + affected;
    }
    assert tenants[..|tenants|] == tenants;
    PurgeOneMore(created, old(repo.table), tenants, orphans);
    if orphans.days >= 1 {
      var affected := Delete(repo, created, orphans);
      total := total + affected;
    } else {
      NothingExpires(created, orphans, repo.table);
    }
    CleanupSelects(created, tenants + [orphans], old(repo.table));
  }

  lemma CleanupSelects(created: Row -> real, plan: seq<Purge>, table: seq<Row>)
    ensures Selects(table, Outlives(created, plan), Keep(table, Doomed(created, plan, table)))
  {
    forall r | r in table ensures r in Doomed(created, plan, table) <==> !Outlives(created, plan)(r) {
      DoomedExactly(created, plan, table, r);
    }
    KeptOutlives(created, plan, table, Doomed(created, plan, table));
  }

  /** One DELETE ... WHERE statement. */
  method Delete(repo: AuditRepository, created: Row -> real, p: Purge) returns (affected: int)
    modifies repo
    ensures repo.table == Keep(old(repo.table), Doomed(created, [p], old(repo.table)))
    ensures affected == |old(repo.table)| - |repo.table|
  {
    var before := |repo.table|;
    repo.table := Keep(repo.table, Doomed(created, [p], repo.table));
    affected := before - |repo.table|;
  }

  lemma {:induction false} KeepNone(table: seq<Row>)
    ensures Keep(table, {}) == table
  {
    if table != [] {
      KeepNone(table[..|table| - 1]);
    }
  }

  lemma NothingExpires(created: Row -> real, p: Purge, table: seq<Row>)
    requires p.days < 1
    ensures Keep(table, Doomed(created, [p], table)) == table
  {
    assert Doomed(created, [p], table) == {};
    KeepNone(table);
  }

  /** A cleanup at any moment, whatever it deletes, keeps every chain verifying and every pending writer's tip good. */
  lemma CleanupKeepsChains(codec: Codec, s: State, created: Row -> real, plan: seq<Purge>, tenant: Value)
    requires Inv(codec, s) && Truthy(tenant)
    ensures var after := s.(table := Keep(s.table, Doomed(created, plan, s.table)));
            Inv(codec, after) && Verifies(codec.rehash, TenantChain(after.table, tenant))
  {
    var step := Retain(Doomed(created, plan, s.table));
    StepKeepsInv(codec, s, step);
    ChainInvVerifies(codec.rehash, TenantChain(Apply(codec, s, step).table, tenant));
  }
}
