/**
 The hash chain over audit rows (security/audit_chain.py): the canonical field sets, the hashed payload,
 and what the hashes of a chain pin down.  SHA-256 is the parameter `digest`; nothing is assumed of
 it, and a claim that needs collision freedom names the rows whose payloads would have to collide.
*/
module AuditChain {
  import opened Outcomes
  import opened CanonicalJson

  /**
   A row as the writer's dict: column name to value.  A missing name reads as None.  Values are as Python
   and Postgres hold them: dict keys distinct, text encodable as UTF-8.
  */
  type Data = d: map<string, Value> | GoodData(d) witness map[]

  predicate GoodData(data: map<string, Value>) {
    forall name | name in data :: WellFormed(data[name]) && ScalarValue(data[name])
  }

  /**
   The digest (SHA-256 in the source), CANONICAL_FIELDS, which is the field set of format 1, and the plain
   (not callable) column defaults of the audit table.
  */
  datatype AnyScheme = Scheme(digest: string -> string, fields: seq<string>, defaults: Data)

  type Scheme = s: AnyScheme | DistinctNames(s.fields) && "chain_seq" !in s.fields witness Scheme(p => p, [], map[])

  predicate DistinctNames(names: seq<string>) {
    forall i, j | 0 <= i < j < |names| :: names[i] != names[j]
  }

  const CURRENT_CHAIN_FORMAT := 2

  datatype ChainError =
    | UnknownFormat(format: int)   // ValueError
    | NonAsciiHash                 // UnicodeEncodeError, a ValueError
    | NotCanonicalisable           // TypeError

  function FieldsForFormat(scheme: Scheme, format: Option<int>): Result<seq<string>, ChainError> {
    match format
    case None => Ok(scheme.fields)
    case Some(f) =>
      if f == 1 then Ok(scheme.fields)
      else if f == 2 then Ok(scheme.fields + ["chain_seq"])
      else Err(UnknownFormat(f))
  }

  function Get(data: Data, name: string): Value {
    if name in data then data[name] else Null
  }

  /** A column reads as what was given for it, and as None when nothing was. */
  lemma GetExactly(data: Data, name: string)
    ensures name in data ==> Get(data, name) == data[name]
    ensures name !in data ==> Get(data, name) == Null
  {
  }

  function Ascii(name: string): (t: Text)
    ensures |t| == |name| && forall i | 0 <= i < |t| :: t[i] == name[i] as int
  {
    seq(|name|, i requires 0 <= i < |name| => name[i] as int)
  }

  /** The normalised fields, in the order of `names`; None where some value is refused. */
  function SafeFields(data: Data, names: seq<string>): (r: Option<seq<Field>>)
    ensures r.Some? <==> forall i | 0 <= i < |names| :: JsonSafe(Get(data, names[i])).Some?
    ensures r.Some? ==> |r.value| == |names|
    ensures r.Some? ==> forall i | 0 <= i < |names| ::
                          r.value[i] == Field(Ascii(names[i]), JsonSafe(Get(data, names[i])).value)
  {
    if names == [] then Some([]) else
    var head := JsonSafe(Get(data, names[0]));
    var tail := SafeFields(data, names[1..]);
    if head.None? || tail.None? then None else Some([Field(Ascii(names[0]), head.value)] + tail.value)
  }

  /** prev_hash as it enters the hash: NULL and the empty string are the same input. */
  function PrevText(prev: Option<string>): string {
    if prev.None? then "" else prev.value
  }

  predicate IsAscii(s: string) { forall c | c in s :: c as int < 128 }

  /** canonical_row(data, format) with prev_hash appended: the bytes that are hashed. */
  function Payload(scheme: Scheme, data: Data, prev: Option<string>, format: Option<int>): Result<string, ChainError>
  {
    var names := FieldsForFormat(scheme, format);
    if names.Err? then Err(names.error) else
    var fields := SafeFields(data, names.value);
    if fields.None? then Err(NotCanonicalisable) else
    if !IsAscii(PrevText(prev)) then Err(NonAsciiHash) else
    FieldSetsDistinct(scheme, format);
    SafeDictIsJson(data, names.value);
    Ok(Dumps(Dict(fields.value), PrevText(prev)))
  }

  function ComputeRecordHash(scheme: Scheme, data: Data, prev: Option<string>, format: Option<int>)
    : Result<string, ChainError>
  {
    var payload := Payload(scheme, data, prev, format);
    if payload.Err? then Err(payload.error) else Ok(scheme.digest(payload.value))
  }

  /** canonical_row: the normalised fields as one JSON text. */
  function CanonicalRow(scheme: Scheme, data: Data, format: Option<int>): Result<string, ChainError> {
    var names := FieldsForFormat(scheme, format);
    if names.Err? then Err(names.error) else
    var fields := SafeFields(data, names.value);
    if fields.None? then Err(NotCanonicalisable) else
    FieldSetsDistinct(scheme, format);
    SafeDictIsJson(data, names.value);
    Ok(Dumps(Dict(fields.value), ""))
  }

  /** What is hashed is the canonical row's text followed by prev_hash, both in ASCII. */
  lemma PayloadIsConcatenation(scheme: Scheme, data: Data, prev: Option<string>, format: Option<int>)
    ensures Payload(scheme, data, prev, format) ==
            var row := CanonicalRow(scheme, data, format);
            if row.Err? then row
            else if exists i | 0 <= i < |PrevText(prev)| :: PrevText(prev)[i] as int >= 128 then Err(NonAsciiHash)
            else Ok(row.value + PrevText(prev))
  {
    if CanonicalRow(scheme, data, format).Ok? {
      var names := FieldsForFormat(scheme, format).value;
      FieldSetsDistinct(scheme, format);
      SafeDictIsJson(data, names);
      DumpsAppend(Dict(SafeFields(data, names).value), "", PrevText(prev));
      assert forall i | 0 <= i < |PrevText(prev)| :: PrevText(prev)[i] in PrevText(prev);
      assert "" + PrevText(prev) == PrevText(prev);
    }
  }

  /** The dict holds these columns of the row and no others. */
  ghost predicate HoldsColumns(fields: seq<Field>, data: Data, names: seq<string>) {
    && Keys(fields) == (set name | name in names :: Ascii(name))
    && forall i, name | 0 <= i < |fields| && name in names && fields[i].key == Ascii(name) ::
         SameSource(Get(data, name), fields[i].value)
  }

  /** What is hashed reads back, as JSON, to the row's own columns in the order of their names, and then the predecessor. */
  lemma PayloadReadsBack(scheme: Scheme, data: Data, prev: Option<string>, format: Option<int>)
    requires Payload(scheme, data, prev, format).Ok?
    ensures var r := ReadValue(Payload(scheme, data, prev, format).value);
            && r.Some? && r.value.rest == PrevText(prev) && r.value.value.Dict?
            && SortedFields(r.value.value.fields)
            && HoldsColumns(r.value.value.fields, data, FieldsForFormat(scheme, format).value)
  {
    var names := FieldsForFormat(scheme, format).value;
    FieldSetsDistinct(scheme, format);
    SafeDictIsJson(data, names);
    var v := Dict(SafeFields(data, names).value);
    DumpsReadsBack(v, PrevText(prev));
    CanonIsJson(v);
    ColumnsHeld(data, names, Canon(v).fields);
  }

  lemma ColumnsHeld(data: Data, names: seq<string>, fields: seq<Field>)
    requires SafeFields(data, names).Some? && IsJson(Dict(fields)) && Same(Dict(SafeFields(data, names).value), Dict(fields))
    ensures HoldsColumns(fields, data, names)
  {
    var fs := SafeFields(data, names).value;
    forall k ensures k in Keys(fs) <==> k in (set name | name in names :: Ascii(name)) {
      if k in Keys(fs) {
        var i :| 0 <= i < |fs| && fs[i].key == k;
        assert names[i] in names;
      }
      if name :| name in names && Ascii(name) == k {
        var i :| 0 <= i < |names| && names[i] == name;
        assert fs[i].key == k;
      }
    }
    forall i, name | 0 <= i < |fields| && name in names && fields[i].key == Ascii(name)
      ensures SameSource(Get(data, name), fields[i].value)
    {
      var j :| 0 <= j < |names| && names[j] == name;
      assert fs[j].key == fields[i].key;
      SameAsSource(Get(data, name), fields[i].value);
    }
  }

  // ---------------------------------------------------------------- the payload decodes uniquely

  lemma FieldSetsDistinct(scheme: Scheme, format: Option<int>)
    requires FieldsForFormat(scheme, format).Ok?
    ensures DistinctNames(FieldsForFormat(scheme, format).value)
  {
  }

  lemma AsciiInjective(a: string, b: string)
    requires Ascii(a) == Ascii(b)
    ensures a == b
  {
    assert |a| == |Ascii(a)| == |Ascii(b)| == |b|;
    forall i | 0 <= i < |a| ensures a[i] == b[i] {
      assert Ascii(a)[i] == Ascii(b)[i];
    }
  }

  lemma AsciiScalar(name: string)
    ensures ScalarText(Ascii(name))
  {
  }

  lemma SafeDictIsJson(data: Data, names: seq<string>)
    requires DistinctNames(names) && SafeFields(data, names).Some?
    ensures IsJson(Dict(SafeFields(data, names).value)) && ScalarValue(Dict(SafeFields(data, names).value))
  {
    var fs := SafeFields(data, names).value;
    forall i | 0 <= i < |fs| ensures IsJson(fs[i].value) && ScalarText(fs[i].key) && ScalarValue(fs[i].value) {
      JsonSafeIsJson(Get(data, names[i]));
      AsciiScalar(names[i]);
    }
    forall i, j | 0 <= i < j < |fs| ensures fs[i].key != fs[j].key {
      if fs[i].key == fs[j].key { AsciiInjective(names[i], names[j]); }
    }
  }

  /** Both rows have the same values in every field of one field set. */
  ghost predicate SameContent(scheme: Scheme, d: Data, f: Option<int>, e: Data, g: Option<int>) {
    && FieldsForFormat(scheme, f).Ok? && FieldsForFormat(scheme, g) == FieldsForFormat(scheme, f)
    && forall name | name in FieldsForFormat(scheme, f).value :: SameField(d, e, name)
  }

  ghost predicate SameField(d: Data, e: Data, name: string) { SameSource(Get(d, name), Get(e, name)) }

  /** Equal payloads mean the same format's fields, equal contents and the same predecessor, and nothing less does. */
  lemma PayloadUnique(
      scheme: Scheme, d: Data, p: Option<string>, f: Option<int>, e: Data, q: Option<string>, g: Option<int>)
    requires Payload(scheme, d, p, f).Ok? && Payload(scheme, e, q, g).Ok?
    ensures Payload(scheme, d, p, f) == Payload(scheme, e, q, g)
       <==> SameContent(scheme, d, f, e, g) && PrevText(p) == PrevText(q)
  {
    FieldSetsDistinct(scheme, f);
    FieldSetsDistinct(scheme, g);
    FieldSetFromNames(scheme, f, g);
    var ns, ms := FieldsForFormat(scheme, f).value, FieldsForFormat(scheme, g).value;
    SafeDictIsJson(d, ns);
    SafeDictIsJson(e, ms);
    TextUnique(d, ns, PrevText(p), e, ms, PrevText(q));
  }

  lemma TextUnique(d: Data, ns: seq<string>, p: string, e: Data, ms: seq<string>, q: string)
    requires DistinctNames(ns) && DistinctNames(ms)
    requires SafeFields(d, ns).Some? && SafeFields(e, ms).Some?
    requires IsJson(Dict(SafeFields(d, ns).value)) && IsJson(Dict(SafeFields(e, ms).value))
    ensures Dumps(Dict(SafeFields(d, ns).value), p) == Dumps(Dict(SafeFields(e, ms).value), q)
       <==> SameNames(ns, ms) && (forall name | name in ns :: SameField(d, e, name)) && p == q
  {
    SafeDictIsJson(d, ns);
    SafeDictIsJson(e, ms);
    DumpsUnique(Dict(SafeFields(d, ns).value), Dict(SafeFields(e, ms).value), p, q);
    SameDicts(d, ns, e, ms);
  }

  predicate SameNames(ns: seq<string>, ms: seq<string>) {
    (forall n | n in ns :: n in ms) && (forall n | n in ms :: n in ns)
  }

  lemma SameDicts(d: Data, ns: seq<string>, e: Data, ms: seq<string>)
    requires SafeFields(d, ns).Some? && SafeFields(e, ms).Some?
    ensures Same(Dict(SafeFields(d, ns).value), Dict(SafeFields(e, ms).value))
       <==> SameNames(ns, ms) && forall name | name in ns :: SameField(d, e, name)
  {
    var fs, gs := SafeFields(d, ns).value, SafeFields(e, ms).value;
    KeysAreNames(fs, ns, gs, ms);
    forall i, j | 0 <= i < |fs| && 0 <= j < |gs| && ns[i] == ms[j]
      ensures Same(fs[i].value, gs[j].value) <==> SameField(d, e, ns[i])
    {
      JsonSafeDecidesSource(Get(d, ns[i]), Get(e, ns[i]));
    }
    if Same(Dict(fs), Dict(gs)) {
      forall name | name in ns ensures SameField(d, e, name) {
        var i :| 0 <= i < |ns| && ns[i] == name;
        var j :| 0 <= j < |ms| && ms[j] == name;
        assert fs[i].key == gs[j].key;
      }
    }
    if SameNames(ns, ms) && forall name | name in ns :: SameField(d, e, name) {
      forall i, j | 0 <= i < |fs| && 0 <= j < |gs| && fs[i].key == gs[j].key ensures Same(fs[i].value, gs[j].value) {
        AsciiInjective(ns[i], ms[j]);
        assert SameField(d, e, ns[i]);
      }
    }
  }

  lemma KeysAreNames(fs: seq<Field>, ns: seq<string>, gs: seq<Field>, ms: seq<string>)
    requires |fs| == |ns| && forall i | 0 <= i < |ns| :: fs[i].key == Ascii(ns[i])
    requires |gs| == |ms| && forall i | 0 <= i < |ms| :: gs[i].key == Ascii(ms[i])
    ensures Keys(fs) == Keys(gs) <==> SameNames(ns, ms)
  {
    forall n ensures n in ns <==> Ascii(n) in Keys(fs) { KeyIsName(fs, ns, n); }
    forall n ensures n in ms <==> Ascii(n) in Keys(gs) { KeyIsName(gs, ms, n); }
    if SameNames(ns, ms) {
      forall k | k in Keys(fs) ensures k in Keys(gs) {
        var i :| 0 <= i < |fs| && fs[i].key == k;
        assert ns[i] in ms;
      }
      forall k | k in Keys(gs) ensures k in Keys(fs) {
        var i :| 0 <= i < |gs| && gs[i].key == k;
        assert ms[i] in ns;
      }
    }
  }

  lemma KeyIsName(fs: seq<Field>, ns: seq<string>, n: string)
    requires |fs| == |ns| && forall i | 0 <= i < |ns| :: fs[i].key == Ascii(ns[i])
    ensures n in ns <==> Ascii(n) in Keys(fs)
  {
    if n in ns {
      var i :| 0 <= i < |ns| && ns[i] == n;
      assert fs[i].key == Ascii(n);
    }
    if Ascii(n) in Keys(fs) {
      var i :| 0 <= i < |fs| && fs[i].key == Ascii(n);
      AsciiInjective(ns[i], n);
    }
  }

  /** The field set is readable from the keys: only format 2 has chain_seq. */
  lemma FieldSetFromNames(scheme: Scheme, f: Option<int>, g: Option<int>)
    requires FieldsForFormat(scheme, f).Ok? && FieldsForFormat(scheme, g).Ok?
    ensures SameNames(FieldsForFormat(scheme, f).value, FieldsForFormat(scheme, g).value)
       <==> FieldsForFormat(scheme, f) == FieldsForFormat(scheme, g)
  {
    ChainSeqOnlyInFormatTwo(scheme, f);
    ChainSeqOnlyInFormatTwo(scheme, g);
  }

  lemma ChainSeqOnlyInFormatTwo(scheme: Scheme, f: Option<int>)
    requires FieldsForFormat(scheme, f).Ok?
    ensures "chain_seq" in FieldsForFormat(scheme, f).value <==> f == Some(2)
  {
    assert (scheme.fields + ["chain_seq"])[|scheme.fields|] == "chain_seq";
  }
}
