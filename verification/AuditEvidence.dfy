/**
 Tamper evidence: what an unchanged tip hash proves about the rows behind it.
*/
module AuditEvidence {
  import opened Outcomes
  import opened CanonicalJson
  import opened AuditChain
  import opened AuditVerifier

  predicate KnownFormat(format: Option<int>) { format.None? || format == Some(1) || format == Some(2) }

  /** NULL and the empty string are one predecessor. */
  predicate SamePrev(p: Option<string>, q: Option<string>) {
    p == q || ((p.None? || p.value == "") && (q.None? || q.value == ""))
  }

  /** The rows hash the same fields, agree on every one of them, and have the same predecessor. */
  ghost predicate SameRow(scheme: Scheme, r: Content, s: Content) {
    && KnownFormat(r.format) && KnownFormat(s.format)
    && (r.format == Some(2) <==> s.format == Some(2))
    && (r.format == Some(2) ==> r.chainSeq == s.chainSeq)
    && (forall name | name in scheme.fields :: SameField(r.data, s.data, name))
    && SamePrev(r.prev, s.prev)
  }

  /** In the verifier's terms: one field set, and the same values in all of it. */
  lemma SameRowIsSameContent(scheme: Scheme, r: Content, s: Content)
    ensures SameRow(scheme, r, s) <==>
            SameContent(scheme, RowDict(r), r.format, RowDict(s), s.format) && PrevText(r.prev) == PrevText(s.prev)
  {
    if FieldsForFormat(scheme, r.format).Ok? && FieldsForFormat(scheme, s.format) == FieldsForFormat(scheme, r.format) {
      ChainSeqOnlyInFormatTwo(scheme, r.format);
      ChainSeqOnlyInFormatTwo(scheme, s.format);
      forall name | name in scheme.fields
        ensures name in FieldsForFormat(scheme, r.format).value && (SameField(RowDict(r), RowDict(s), name) <==> SameField(r.data, s.data, name))
      {
      }
      assert SameField(RowDict(r), RowDict(s), "chain_seq") <==> r.chainSeq == s.chainSeq;
    }
  }

  /** The payloads of these two rows differ and have one digest. */
  predicate Collide(scheme: Scheme, r: Content, s: Content) {
    var p, q := Payload(scheme, RowDict(r), r.prev, r.format), Payload(scheme, RowDict(s), s.prev, s.format);
    p.Ok? && q.Ok? && p != q && scheme.digest(p.value) == scheme.digest(q.value)
  }

  /** Rows with one hash are the same row, or their own payloads collide. */
  lemma HashPinsRow(scheme: Scheme, r: Content, s: Content)
    requires RehashBy(scheme)(r).Ok? && RehashBy(scheme)(r) == RehashBy(scheme)(s)
    ensures SameRow(scheme, r, s) || Collide(scheme, r, s)
  {
    PayloadUnique(scheme, RowDict(r), r.prev, r.format, RowDict(s), s.prev, s.format);
    SameRowIsSameContent(scheme, r, s);
  }

  /** Some row of `a` and some row of `b` have colliding payloads. */
  ghost predicate ChainsCollide(scheme: Scheme, a: seq<Row>, b: seq<Row>) {
    exists i, j :: 0 <= i < |a| && 0 <= j < |b| && Collide(scheme, a[i].content, b[j].content)
  }

  /** `a` is, row by row, the end of `b`. */
  ghost predicate EndOf(scheme: Scheme, a: seq<Row>, b: seq<Row>) {
    |a| <= |b| && forall i | 0 <= i < |a| :: SameRow(scheme, a[i].content, b[|b| - |a| + i].content)
  }

  /** Between these two chains, equal hashes come from equal rows. */
  ghost predicate PinsBetween(scheme: Scheme, rehash: Rehash, a: seq<Row>, b: seq<Row>) {
    forall i, j | 0 <= i < |a| && 0 <= j < |b| && rehash(a[i].content).Ok? && rehash(a[i].content) == rehash(b[j].content) ::
      SameRow(scheme, a[i].content, b[j].content)
  }

  lemma NoCollisionPins(scheme: Scheme, rehash: Rehash, a: seq<Row>, b: seq<Row>)
    requires rehash == RehashBy(scheme) && !ChainsCollide(scheme, a, b)
    ensures PinsBetween(scheme, rehash, a, b) && PinsBetween(scheme, rehash, b, a)
  {
    forall i, j | 0 <= i < |a| && 0 <= j < |b| && rehash(a[i].content).Ok? && rehash(a[i].content) == rehash(b[j].content)
      ensures SameRow(scheme, a[i].content, b[j].content)
    {
      HashPinsRow(scheme, a[i].content, b[j].content);
    }
    forall i, j | 0 <= i < |b| && 0 <= j < |a| && rehash(b[i].content).Ok? && rehash(b[i].content) == rehash(a[j].content)
      ensures SameRow(scheme, b[i].content, a[j].content)
    {
      HashPinsRow(scheme, b[i].content, a[j].content);
      if Collide(scheme, b[i].content, a[j].content) { CollideIsSymmetric(scheme, b[i].content, a[j].content); }
    }
  }

  lemma CollideIsSymmetric(scheme: Scheme, r: Content, s: Content)
    requires Collide(scheme, r, s)
    ensures Collide(scheme, s, r)
  {
  }

  /** Equal tips carry back k rows: each link pins the predecessor's hash. */
  lemma {:induction false} HashesAgree(scheme: Scheme, rehash: Rehash, a: seq<Row>, b: seq<Row>, k: nat)
    requires k < |a| && k < |b| && GapFree(a) && GapFree(b) && PinsBetween(scheme, rehash, a, b)
    requires Verifies(rehash, a) && Verifies(rehash, b) && a[|a| - 1].hash == b[|b| - 1].hash
    ensures a[|a| - 1 - k].hash == b[|b| - 1 - k].hash
  {
    if k > 0 {
      HashesAgree(scheme, rehash, a, b, k - 1);
      var m, n := |a| - k, |b| - k;
      assert ContentOk(rehash, a[m]) && ContentOk(rehash, b[n]);
      assert SameRow(scheme, a[m].content, b[n].content);
      assert Linked(a[m - 1], a[m]) && ContentOk(rehash, a[m - 1]);
      assert Linked(b[n - 1], b[n]) && ContentOk(rehash, b[n - 1]);
    }
  }

  lemma EndsAgree(scheme: Scheme, rehash: Rehash, a: seq<Row>, b: seq<Row>)
    requires a != [] && |a| <= |b| && GapFree(a) && GapFree(b) && PinsBetween(scheme, rehash, a, b)
    requires Verifies(rehash, a) && Verifies(rehash, b) && a[|a| - 1].hash == b[|b| - 1].hash
    ensures EndOf(scheme, a, b)
  {
    forall i | 0 <= i < |a| ensures SameRow(scheme, a[i].content, b[|b| - |a| + i].content) {
      HashesAgree(scheme, rehash, a, b, |a| - 1 - i);
      assert ContentOk(rehash, a[i]) && ContentOk(rehash, b[|b| - |a| + i]);
    }
  }

  /**
   Two gap-free chains that both verify and end in the same record_hash: one is the end of the other in every
   canonical field, or a row of one and a row of the other have colliding payloads.
  */
  lemma TamperEvidence(scheme: Scheme, a: seq<Row>, b: seq<Row>)
    requires a != [] && b != [] && GapFree(a) && GapFree(b)
    requires Verifies(RehashBy(scheme), a) && Verifies(RehashBy(scheme), b)
    requires a[|a| - 1].hash == b[|b| - 1].hash
    ensures ChainsCollide(scheme, a, b) || (if |a| <= |b| then EndOf(scheme, a, b) else EndOf(scheme, b, a))
  {
    if !ChainsCollide(scheme, a, b) {
      NoCollisionPins(scheme, RehashBy(scheme), a, b);
      if |a| <= |b| {
        EndsAgree(scheme, RehashBy(scheme), a, b);
      } else {
        EndsAgree(scheme, RehashBy(scheme), b, a);
      }
    }
  }

  /** So behind an unchanged tip no edit or renumbering of format-2 rows verifies, short of a collision with the original. */
  lemma NoUndetectedChange(scheme: Scheme, a: seq<Row>, b: seq<Row>)
    requires a != [] && |a| == |b| && GapFree(a) && GapFree(b)
    requires Verifies(RehashBy(scheme), a) && Verifies(RehashBy(scheme), b)
    requires a[|a| - 1].hash == b[|b| - 1].hash
    ensures || ChainsCollide(scheme, a, b)
            || forall i | 0 <= i < |a| ::
                 && SameRow(scheme, a[i].content, b[i].content)
                 && (a[i].content.format == Some(2) ==> b[i].ChainSeq() == a[i].ChainSeq())
  {
    if !ChainsCollide(scheme, a, b) {
      NoCollisionPins(scheme, RehashBy(scheme), a, b);
      EndsAgree(scheme, RehashBy(scheme), a, b);
      forall i | 0 <= i < |a|
        ensures SameRow(scheme, a[i].content, b[i].content)
        ensures a[i].content.format == Some(2) ==> b[i].ChainSeq() == a[i].ChainSeq()
      {
        var x, y := a[i].content, b[|b| - |a| + i].content;
        assert SameRow(scheme, x, y);
      }
    }
  }

  // ---------------------------------------------------------------- why chain_seq has to be hashed

  predicate AllNumbered(rows: seq<Row>) { forall i | 0 <= i < |rows| :: rows[i].ChainSeq().Some? }

  function Moved(row: Row, shift: int): Row {
    row.(content := row.content.(chainSeq := Some(row.Position() + shift)))
  }

  function Renumber(rows: seq<Row>, shift: int): (r: seq<Row>)
    ensures |r| == |rows| && forall i | 0 <= i < |rows| :: r[i] == Moved(rows[i], shift)
  {
    seq(|rows|, i requires 0 <= i < |rows| => Moved(rows[i], shift))
  }

  lemma {:induction false} SafeFieldsDepend(d: Data, e: Data, names: seq<string>)
    requires forall i | 0 <= i < |names| :: JsonSafe(Get(d, names[i])) == JsonSafe(Get(e, names[i]))
    ensures SafeFields(d, names) == SafeFields(e, names)
  {
    if names != [] {
      SafeFieldsDepend(d, e, names[1..]);
    }
  }

  lemma FormatOneIgnoresPosition(scheme: Scheme, rehash: Rehash, row: Row, shift: int)
    requires rehash == RehashBy(scheme) && row.content.format != Some(2)
    ensures rehash(Moved(row, shift).content) == rehash(row.content)
  {
    var c := row.content;
    var d, e := RowDict(c), RowDict(Moved(row, shift).content);
    if FieldsForFormat(scheme, c.format).Ok? {
      forall i | 0 <= i < |scheme.fields| ensures Get(d, scheme.fields[i]) == Get(e, scheme.fields[i]) {
        assert scheme.fields[i] in scheme.fields;
      }
      SafeFieldsDepend(d, e, scheme.fields);
    }
  }

  lemma RenumberVerifies(rehash: Rehash, rows: seq<Row>, shift: int)
    requires Verifies(rehash, rows) && AllNumbered(rows)
    requires forall i | 0 <= i < |rows| :: rehash(Moved(rows[i], shift).content) == rehash(rows[i].content)
    ensures Verifies(rehash, Renumber(rows, shift))
  {
    var moved := Renumber(rows, shift);
    forall i | 0 <= i < |rows| ensures ContentOk(rehash, moved[i]) {
      assert ContentOk(rehash, rows[i]);
    }
    forall i | 0 < i < |rows| ensures Linked(moved[i - 1], moved[i]) {
      assert Linked(rows[i - 1], rows[i]);
    }
  }

  /** Format 1 leaves the order unattested: any format-1 chain can be renumbered and still verifies. */
  lemma FormatOneRenumbers(scheme: Scheme, rows: seq<Row>, shift: int)
    requires Verifies(RehashBy(scheme), rows) && AllNumbered(rows)
    requires forall i | 0 <= i < |rows| :: rows[i].content.format != Some(2)
    ensures Verifies(RehashBy(scheme), Renumber(rows, shift))
  {
    FormatOneRenumbersAny(scheme, RehashBy(scheme), rows, shift);
  }

  lemma FormatOneRenumbersAny(scheme: Scheme, rehash: Rehash, rows: seq<Row>, shift: int)
    requires rehash == RehashBy(scheme) && Verifies(rehash, rows) && AllNumbered(rows)
    requires forall i | 0 <= i < |rows| :: rows[i].content.format != Some(2)
    ensures Verifies(rehash, Renumber(rows, shift))
  {
    forall i | 0 <= i < |rows| ensures rehash(Moved(rows[i], shift).content) == rehash(rows[i].content) {
      FormatOneIgnoresPosition(scheme, rehash, rows[i], shift);
    }
    RenumberVerifies(rehash, rows, shift);
  }
}
