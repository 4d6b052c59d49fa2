/**
 A tenant can always write one more row: some new trace id gives a row whose hash no stored row names
 (db/repositories/audit.py).  This is what the exact condition on starting tables asks of the writer.
*/
module AuditWritable {
  import opened Outcomes
  import opened CanonicalJson
  import opened AuditChain
  import opened AuditVerifier
  import opened AuditEvidence
  import opened AuditWriter
  import opened AuditProtocol
  import opened AuditStart
  import opened AuditSchema
  import opened AuditStorage

  /** A text of `n` ones. */
  function Ones(n: nat): (t: Text)
    ensures |t| == n && ScalarText(t)
  {
    if n == 0 then [] else Ones(n - 1) + [49]
  }

  /** The same row under another trace id. */
  function Retraced(data: Data, n: nat): Data { data["trace_id" := Str(Ones(n))] }

  /** The tenant and the trace are hashed and have no default, and every default can be hashed. */
  ghost predicate HashesTraces(scheme: Scheme) {
    && "tenant_id" in scheme.fields && "trace_id" in scheme.fields
    && "tenant_id" !in scheme.defaults && "trace_id" !in scheme.defaults
    && forall name | name in scheme.defaults :: JsonSafe(scheme.defaults[name]).Some?
  }

  /** Digests are ASCII, as hexadecimal ones are. */
  ghost predicate AsciiDigest(scheme: Scheme) { forall p :: IsAscii(scheme.digest(p)) }

  // ---------------------------------------------------------------- hashing

  /** A row of format 2 has a hash exactly when each canonical column can be normalised and its predecessor is ASCII. */
  lemma HashesExactly(scheme: Scheme, rehash: Rehash, c: Content)
    requires rehash == RehashBy(scheme) && c.format == Some(2)
    ensures rehash(c).Ok? <==>
            (forall name | name in scheme.fields + ["chain_seq"] :: JsonSafe(Get(RowDict(c), name)).Some?) && IsAscii(PrevText(c.prev))
  {
    var names := scheme.fields + ["chain_seq"];
    assert FieldsForFormat(scheme, c.format) == Ok(names);
    assert (forall i | 0 <= i < |names| :: JsonSafe(Get(RowDict(c), names[i])).Some?) <==>
           (forall name | name in names :: JsonSafe(Get(RowDict(c), name)).Some?);
  }

  /** The columns of a row that hashes can be normalised. */
  lemma HashedColumns(scheme: Scheme, rehash: Rehash, c: Content, name: string)
    requires rehash == RehashBy(scheme) && rehash(c).Ok? && name in scheme.fields
    ensures JsonSafe(Get(c.data, name)).Some?
  {
    var names := FieldsForFormat(scheme, c.format).value;
    assert name in names;
    var i :| 0 <= i < |names| && names[i] == name;
    assert JsonSafe(Get(RowDict(c), names[i])).Some?;
  }

  lemma RetracedColumn(scheme: Scheme, rehash: Rehash, r: Row, n: nat, name: string)
    requires rehash == RehashBy(scheme) && HashesTraces(scheme) && ContentOk(rehash, r) && name in scheme.fields
    ensures JsonSafe(Get(Materialise(scheme.defaults, scheme.fields + ["chain_seq"], Retraced(r.content.data, n)), name)).Some?
  {
    HashedColumns(scheme, rehash, r.content, name);
    var v := Get(Retraced(r.content.data, n), name);
    assert JsonSafe(v).Some? by { assert name == "trace_id" ==> v == Str(Ones(n)); }
  }

  /** A stored row's data, under any trace id, can be written again. */
  lemma RetracedHashes(scheme: Scheme, rehash: Rehash, r: Row, prev: Option<string>, next: int, n: nat)
    requires rehash == RehashBy(scheme) && HashesTraces(scheme) && ContentOk(rehash, r) && IsAscii(PrevText(prev))
    ensures var d := Materialise(scheme.defaults, scheme.fields + ["chain_seq"], Retraced(r.content.data, n));
            rehash(Content(d, Some(next), Some(2), prev)).Ok?
  {
    var names := scheme.fields + ["chain_seq"];
    var d := Materialise(scheme.defaults, names, Retraced(r.content.data, n));
    var c := Content(d, Some(next), Some(2), prev);
    forall name | name in names ensures JsonSafe(Get(RowDict(c), name)).Some? {
      if name == "chain_seq" {
        assert Get(RowDict(c), name) == Int(next);
      } else {
        assert name in scheme.fields && Get(RowDict(c), name) == Get(d, name);
        RetracedColumn(scheme, rehash, r, n, name);
      }
    }
    HashesExactly(scheme, rehash, c);
  }

  // ---------------------------------------------------------------- the candidates

  /** The row with data of `r` under trace `n`, after (`prev`, `next` - 1). */
  function Candidate(codec: Codec, r: Row, prev: Option<string>, next: int, n: nat): Result<Row, WriteError> {
    ChainedRow(codec, prev, next, Retraced(r.content.data, n))
  }

  lemma CandidateIsRow(scheme: Scheme, tip: TipRule, r: Row, prev: Option<string>, next: int, n: nat)
    requires HashesTraces(scheme) && ContentOk(RehashBy(scheme), r) && IsAscii(PrevText(prev))
    ensures Candidate(CodecOf(scheme, tip), r, prev, next, n).Ok?
    ensures Trace(Candidate(CodecOf(scheme, tip), r, prev, next, n).value) == Str(Ones(n))
  {
    RetracedHashes(scheme, RehashBy(scheme), r, prev, next, n);
  }

  /** Candidates under different traces have different hashes, or collide. */
  lemma CandidatesDiffer(scheme: Scheme, rehash: Rehash, x: Row, y: Row)
    requires rehash == RehashBy(scheme) && HashesTraces(scheme)
    requires ContentOk(rehash, x) && ContentOk(rehash, y) && x.content.format == Some(2)
    requires exists m: nat, n: nat :: m != n && Trace(x) == Str(Ones(m)) && Trace(y) == Str(Ones(n))
    ensures x.hash != y.hash || Collide(scheme, x.content, y.content)
  {
    var m: nat, n: nat :| m != n && Trace(x) == Str(Ones(m)) && Trace(y) == Str(Ones(n));
    assert |Ones(m)| != |Ones(n)|;
    if x.hash == y.hash && !Collide(scheme, x.content, y.content) {
      HashPinsRow(scheme, x.content, y.content);
      TraceIsHashed(scheme, x.content, y.content);
    }
  }

  lemma TraceIsHashed(scheme: Scheme, c: Content, e: Content)
    requires HashesTraces(scheme) && SameRow(scheme, c, e) && c.format == Some(2)
    requires Get(c.data, "trace_id").Str? && Get(e.data, "trace_id").Str?
    ensures Get(c.data, "trace_id") == Get(e.data, "trace_id")
  {
    assert SameField(c.data, e.data, "trace_id");
  }

  // ---------------------------------------------------------------- enough of them

  /** Among more candidates than bad names, one is good. */
  lemma {:induction false} Pigeonhole(f: nat -> string, a: nat, bad: set<string>) returns (n: nat)
    requires forall i, j | a <= i < j <= a + |bad| :: f(i) != f(j)
    ensures a <= n <= a + |bad| && f(n) !in bad
    decreases |bad|
  {
    var top := a + |bad|;
    if f(top) !in bad {
      n := top;
    } else {
      n := Pigeonhole(f, a, bad - {f(top)});
    }
  }

  /** Longer than every trace in the table. */
  function NewTrace(table: seq<Row>): (n: nat)
    ensures forall x | x in table && Trace(x).Str? :: |Trace(x).s| < n
  {
    if table == [] then 0
    else
      var n, t := NewTrace(table[..|table| - 1]), Trace(table[|table| - 1]);
      if t.Str? && n <= |t.s| then |t.s| + 1 else n
  }

  lemma NewTraceIsFresh(table: seq<Row>, row: Row, n: nat)
    requires Trace(row) == Str(Ones(n)) && NewTrace(table) <= n
    ensures FreshTrace(table, row)
  {
    forall i | 0 <= i < |table| ensures Trace(table[i]) != Trace(row) {
      assert table[i] in table;
    }
  }

  function Names(rows: seq<Row>): (names: set<string>)
    ensures forall x | x in rows && x.Prev().Some? :: x.Prev().value in names
  {
    set x | x in rows && x.Prev().Some? :: x.Prev().value
  }

  lemma UnnamedOne(rows: seq<Row>, row: Row, bad: set<string>)
    requires row.hash.Some? && row.hash.value !in bad && Names(rows) <= bad && (row.Prev().Some? ==> row.Prev().value in bad)
    ensures Unnamed(rows, [row])
  {
    assert [row][..1] == [row];
  }

  lemma {:induction false} NamesAreFew(rows: seq<Row>)
    ensures |Names(rows)| <= |rows|
  {
    if rows != [] {
      var init, x := rows[..|rows| - 1], rows[|rows| - 1];
      NamesAreFew(init);
      assert rows == init + [x];
      assert Names(rows) == if x.Prev().Some? then Names(init) + {x.Prev().value} else Names(init);
    }
  }

  /** The row that the tenant's next write would store with the data of `r` under trace `n`. */
  function NextCandidate(codec: Codec, table: seq<Row>, t: Value, r: Row, n: nat): Result<Row, WriteError> {
    NextRow(codec, TenantChain(table, t), Retraced(r.content.data, n))
  }

  predicate CandidatesCollide(scheme: Scheme, tip: TipRule, table: seq<Row>, t: Value, r: Row, i: nat, j: nat) {
    var x, y := NextCandidate(CodecOf(scheme, tip), table, t, r, i), NextCandidate(CodecOf(scheme, tip), table, t, r, j);
    x.Ok? && y.Ok? && Collide(scheme, x.value.content, y.value.content)
  }

  /** Two of the first few rows the tenant could write next, one more than there are names to avoid, collide. */
  ghost predicate SiblingsCollide(scheme: Scheme, tip: TipRule, table: seq<Row>, t: Value) {
    exists r, i, j :: r in TenantChain(table, t) && NewTrace(table) <= i < j <= NewTrace(table) + |TenantChain(table, t)| + 1
                      && CandidatesCollide(scheme, tip, table, t, r, i, j)
  }

  /** The hash of a candidate, "" when it cannot be built. */
  function CandidateHash(scheme: Scheme, tip: TipRule, table: seq<Row>, t: Value, r: Row, n: nat): string {
    var c := NextCandidate(CodecOf(scheme, tip), table, t, r, n);
    if c.Ok? && c.value.hash.Some? then c.value.hash.value else ""
  }

  lemma CandidateBuilds(scheme: Scheme, tip: TipRule, table: seq<Row>, t: Value, r: Row, n: nat)
    requires HashesTraces(scheme) && AsciiDigest(scheme) && r in TenantChain(table, t)
    requires forall x | x in TenantChain(table, t) :: ContentOk(RehashBy(scheme), x)
    ensures var c := NextCandidate(CodecOf(scheme, tip), table, t, r, n);
            c.Ok? && Trace(c.value) == Str(Ones(n)) && ContentOk(RehashBy(scheme), c.value) && c.value.content.format == Some(2)
  {
    var rows := TenantChain(table, t);
    assert IsTip(rows, tip(rows));
    HashIsAscii(scheme, tip(rows).value);
    CandidateIsRow(scheme, tip, r, NextPrev(tip(rows)), NextSeq(tip(rows)), n);
  }

  lemma HashesDiffer(scheme: Scheme, tip: TipRule, table: seq<Row>, t: Value, r: Row, i: nat, j: nat)
    requires HashesTraces(scheme) && AsciiDigest(scheme) && r in TenantChain(table, t) && i != j
    requires forall x | x in TenantChain(table, t) :: ContentOk(RehashBy(scheme), x)
    requires !CandidatesCollide(scheme, tip, table, t, r, i, j)
    ensures CandidateHash(scheme, tip, table, t, r, i) != CandidateHash(scheme, tip, table, t, r, j)
  {
    CandidateBuilds(scheme, tip, table, t, r, i);
    CandidateBuilds(scheme, tip, table, t, r, j);
    CandidatesDiffer(scheme, RehashBy(scheme), NextCandidate(CodecOf(scheme, tip), table, t, r, i).value,
                     NextCandidate(CodecOf(scheme, tip), table, t, r, j).value);
  }

  /** A tenant with a stored row can write one more, or two of its candidates collide. */
  lemma TenantCanWrite(scheme: Scheme, tip: TipRule, table: seq<Row>, t: Value, r: Row) returns (data: Data)
    requires HashesTraces(scheme) && AsciiDigest(scheme) && Truthy(t) && r in TenantChain(table, t)
    requires forall x | x in TenantChain(table, t) :: ContentOk(RehashBy(scheme), x)
    ensures CanWrite(CodecOf(scheme, tip), table, t, data) || SiblingsCollide(scheme, tip, table, t)
  {
    data := r.content.data;
    if !SiblingsCollide(scheme, tip, table, t) {
      data := WritableData(scheme, tip, table, t, r);
    }
  }

  lemma WritableData(scheme: Scheme, tip: TipRule, table: seq<Row>, t: Value, r: Row) returns (data: Data)
    requires HashesTraces(scheme) && AsciiDigest(scheme) && Truthy(t) && r in TenantChain(table, t)
    requires forall x | x in TenantChain(table, t) :: ContentOk(RehashBy(scheme), x)
    requires !SiblingsCollide(scheme, tip, table, t)
    ensures CanWrite(CodecOf(scheme, tip), table, t, data)
  {
    var rows, a := TenantChain(table, t), NewTrace(table);
    assert IsTip(rows, tip(rows));
    var bad := Names(rows) + {tip(rows).value.hash.value};
    NamesAreFew(rows);
    var f := (n: nat) => CandidateHash(scheme, tip, table, t, r, n);
    forall i, j | a <= i < j <= a + |bad| ensures f(i) != f(j) {
      assert !CandidatesCollide(scheme, tip, table, t, r, i, j);
      HashesDiffer(scheme, tip, table, t, r, i, j);
    }
    var n := Pigeonhole(f, a, bad);
    data := Retraced(r.content.data, n);
    GoodCandidate(scheme, tip, table, t, r, n);
  }

  /** A candidate under a new trace whose hash is neither named nor the tip's can be written. */
  lemma GoodCandidate(scheme: Scheme, tip: TipRule, table: seq<Row>, t: Value, r: Row, n: nat)
    requires HashesTraces(scheme) && AsciiDigest(scheme) && Truthy(t) && r in TenantChain(table, t) && NewTrace(table) <= n
    requires forall x | x in TenantChain(table, t) :: ContentOk(RehashBy(scheme), x)
    requires CandidateHash(scheme, tip, table, t, r, n) !in Names(TenantChain(table, t))
    requires tip(TenantChain(table, t)).Some? ==>
               Some(CandidateHash(scheme, tip, table, t, r, n)) != tip(TenantChain(table, t)).value.hash
    ensures CanWrite(CodecOf(scheme, tip), table, t, Retraced(r.content.data, n))
  {
    var rows := TenantChain(table, t);
    assert IsTip(rows, tip(rows));
    CandidateBuilds(scheme, tip, table, t, r, n);
    var row := NextCandidate(CodecOf(scheme, tip), table, t, r, n).value;
    NewTraceIsFresh(table, row, n);
    UnnamedOne(rows, row, Names(rows) + {tip(rows).value.hash.value});
    ChainTenant(table, t, r);
  }

  lemma HashIsAscii(scheme: Scheme, r: Row)
    requires AsciiDigest(scheme) && ContentOk(RehashBy(scheme), r)
    ensures IsAscii(PrevText(r.hash))
  {
  }

  lemma {:induction false} ChainTenant(table: seq<Row>, t: Value, r: Row)
    requires r in TenantChain(table, t)
    ensures Tenant(r.content.data) == t
  {
    if r in TenantChain(table[..|table| - 1], t) { ChainTenant(table[..|table| - 1], t, r); }
  }

  /** Some tenant, after some deletes, could write two rows that collide. */
  ghost predicate NextRowsCollide(scheme: Scheme, tip: TipRule, s: State) {
    exists t, gone :: Truthy(t) && SiblingsCollide(scheme, tip, Keep(s.table, gone), t)
  }

  /** So the exact condition on starting tables applies to such a scheme. */
  lemma SchemeIsWritable(scheme: Scheme, tip: TipRule, s: State)
    requires HashesTraces(scheme) && AsciiDigest(scheme) && AllVerify(CodecOf(scheme, tip), s)
    ensures Writable(CodecOf(scheme, tip), s) || NextRowsCollide(scheme, tip, s)
  {
    var codec := CodecOf(scheme, tip);
    if !NextRowsCollide(scheme, tip, s) {
      forall t, gone | Truthy(t) && TenantChain(Keep(s.table, gone), t) != []
        ensures exists data :: CanWrite(codec, Keep(s.table, gone), t, data)
      {
        var rows := TenantChain(Keep(s.table, gone), t);
        KeepTenantChain(s.table, gone, t);
        assert forall x | x in rows :: x in TenantChain(s.table, t);
        assert !SiblingsCollide(scheme, tip, Keep(s.table, gone), t);
        var data := TenantCanWrite(scheme, tip, Keep(s.table, gone), t, rows[0]);
      }
    }
  }

  /** The audit table's own scheme hashes tenants and traces. */
  lemma AuditSchemeHashesTraces(digest: string -> string)
    ensures HashesTraces(AuditScheme(digest))
  {
    assert CANONICAL_FIELDS[28] == "tenant_id" && CANONICAL_FIELDS[30] == "trace_id";
    NoPlainDefault("tenant_id");
    NoPlainDefault("trace_id");
    forall name | name in COLUMN_DEFAULTS ensures JsonSafe(COLUMN_DEFAULTS[name]).Some? { DefaultsHash(name); }
  }

  lemma DefaultsHash(name: string)
    requires name in COLUMN_DEFAULTS
    ensures JsonSafe(COLUMN_DEFAULTS[name]).Some?
  {
  }

  /** For such a scheme the exact condition stands without a hypothesis on what can be written, or next rows collide. */
  lemma SchemeStartIsSafeExactly(scheme: Scheme, tip: TipRule, s: State)
    requires HashesTraces(scheme) && AsciiDigest(scheme) && QuietStart(s) && AllVerify(CodecOf(scheme, tip), s)
    ensures || NextRowsCollide(scheme, tip, s)
            || (AlwaysVerifies(CodecOf(scheme, tip), s) <==> forall t | Truthy(t) :: NamesNoLater(TenantChain(s.table, t)))
  {
    SchemeIsWritable(scheme, tip, s);
    if !NextRowsCollide(scheme, tip, s) {
      StartIsSafeExactly(CodecOf(scheme, tip), s);
    }
  }
}
