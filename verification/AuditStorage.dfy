/**
 The hash covers what is stored: the row the writer hashes against the row the database keeps
 (db/repositories/audit.py, _materialise_defaults; db/models.py, AuditLogModel).
*/
module AuditStorage {
  import opened Outcomes
  import opened CanonicalJson
  import opened AuditSchema
  import opened AuditChain
  import opened AuditVerifier
  import opened AuditEvidence
  import opened AuditWriter

  /** The columns whose type can change a value on the way to the disk and back; all others keep what they accept. */
  datatype ColumnType = FloatColumn | BooleanColumn | IntegerColumn | UuidColumn | OtherColumn

  function TypeOf(name: string): ColumnType {
    if name == "risk_score" || name == "latency_ms" || name == "confidence" then FloatColumn
    else if name == "llm_invoked" || name == "attribution_verified" then BooleanColumn
    else if name == "input_length" || name == "turn_index" then IntegerColumn
    else if name == "proxy_interaction_id" then UuidColumn
    else OtherColumn
  }

  const TYPED_COLUMNS: seq<string> := [
    "risk_score", "latency_ms", "confidence", "llm_invoked", "attribution_verified", "input_length", "turn_index",
    "proxy_interaction_id"]

  type UuidText = t: Text | ScalarText(t) witness []

  /** How the ORM, the driver and the database complete and convert a row. */
  datatype Storage = Storage(
    defaults: Data,
    now: Instant,
    asFloat: int -> FloatRepr,
    asBool: FloatRepr -> bool,
    canonical: Text -> UuidText)

  function BoolAsInt(b: bool): int { if b then 1 else 0 }

  /** A value other than None, read back from a column of this type. */
  function Converted(storage: Storage, kind: ColumnType, v: Value): Value {
    match kind
    case FloatColumn =>
      if v.Int? then Float(storage.asFloat(v.n)) else if v.Bool? then Float(storage.asFloat(BoolAsInt(v.b))) else v
    case BooleanColumn => if v.Int? then Bool(v.n != 0) else if v.Float? then Bool(storage.asBool(v.repr)) else v
    case IntegerColumn => if v.Bool? then Int(BoolAsInt(v.b)) else v
    case UuidColumn => if v.Str? then Uuid(storage.canonical(v.s)) else v
    case OtherColumn => v
  }

  /** The value is of the column's own type: a UUID given as text has to be spelled canonically. */
  predicate Own(storage: Storage, kind: ColumnType, v: Value) {
    match kind
    case FloatColumn => !v.Int? && !v.Bool?
    case BooleanColumn => !v.Int? && !v.Float?
    case IntegerColumn => !v.Bool?
    case UuidColumn => v.Str? ==> storage.canonical(v.s) == v.s
    case OtherColumn => true
  }

  /**
   What a column reads back as.  A column left None takes its default, callable ones included.  `threats` is a JSON
   column: left out it takes its default, given as None it is stored as JSON null and stays None.
  */
  function StoredValue(storage: Storage, data: Data, name: string): (r: Value)
    ensures WellFormed(r) && ScalarValue(r)
  {
    var v := Get(data, name);
    if name == "threats" then if name in data then v else List([])
    else if v.Null? then if name == "created_at" then Datetime(storage.now) else Get(storage.defaults, name)
    else Converted(storage, TypeOf(name), v)
  }

  function StoredData(storage: Storage, data: Data): (d: Data)
    ensures forall name :: Get(d, name) == StoredValue(storage, data, name)
  {
    map name | name in data.Keys + storage.defaults.Keys + {"threats", "created_at"} :: StoredValue(storage, data, name)
  }

  /** The columns whose stored value the writer cannot foresee are given, and typed columns hold values of their type. */
  predicate Foreseen(storage: Storage, data: Data) {
    && "threats" in data && !Get(data, "created_at").Null?
    && forall i | 0 <= i < |TYPED_COLUMNS| :: OwnAt(storage, data, TYPED_COLUMNS[i])
  }

  predicate OwnAt(storage: Storage, data: Data, name: string) { Own(storage, TypeOf(name), Get(data, name)) }

  /** The scheme hashes the columns in question, and plain defaults are of their column's type. */
  ghost predicate CoversColumns(scheme: Scheme, storage: Storage) {
    && "threats" in scheme.fields && "created_at" in scheme.fields
    && (forall i | 0 <= i < |TYPED_COLUMNS| :: TYPED_COLUMNS[i] in scheme.fields)
    && "threats" !in scheme.defaults && "created_at" !in scheme.defaults
    && (forall name | name in scheme.defaults :: !scheme.defaults[name].Null? && OwnAt(storage, scheme.defaults, name))
  }

  function Stored(storage: Storage, c: Content): Content { c.(data := StoredData(storage, c.data)) }

  /** Every column with a type is one of the list. */
  lemma TypedIsListed(name: string)
    requires !TypeOf(name).OtherColumn?
    ensures name in TYPED_COLUMNS && name != "threats" && name != "created_at" && name != "chain_seq"
  {
    assert TYPED_COLUMNS[0] == "risk_score" && TYPED_COLUMNS[1] == "latency_ms" && TYPED_COLUMNS[2] == "confidence";
    assert TYPED_COLUMNS[3] == "llm_invoked" && TYPED_COLUMNS[4] == "attribution_verified";
    assert TYPED_COLUMNS[5] == "input_length" && TYPED_COLUMNS[6] == "turn_index" && TYPED_COLUMNS[7] == "proxy_interaction_id";
  }

  /** Values of a column's own type come back as they were, and no others do. */
  lemma OwnIsKept(storage: Storage, kind: ColumnType, v: Value)
    ensures Own(storage, kind, v) ==> JsonSafe(Converted(storage, kind, v)) == JsonSafe(v)
    ensures !Own(storage, kind, v) && !v.Null? ==>
              !SameSource(v, Converted(storage, kind, v))
  {
  }

  lemma ForeseenOwn(storage: Storage, data: Data, name: string)
    requires Foreseen(storage, data)
    ensures OwnAt(storage, data, name)
  {
    if !TypeOf(name).OtherColumn? {
      TypedIsListed(name);
      var i :| 0 <= i < |TYPED_COLUMNS| && TYPED_COLUMNS[i] == name;
      assert OwnAt(storage, data, TYPED_COLUMNS[i]);
    }
  }

  /** Materialising changes nothing that matters here: defaults are of their column's own type. */
  lemma MaterialiseForeseen(scheme: Scheme, storage: Storage, data: Data)
    requires CoversColumns(scheme, storage)
    ensures Foreseen(storage, data) <==>
            Foreseen(storage, Materialise(scheme.defaults, scheme.fields + ["chain_seq"], data))
  {
    var d := Materialise(scheme.defaults, scheme.fields + ["chain_seq"], data);
    forall i | 0 <= i < |TYPED_COLUMNS| ensures OwnAt(storage, data, TYPED_COLUMNS[i]) <==> OwnAt(storage, d, TYPED_COLUMNS[i]) {
      MaterialiseOwn(scheme, storage, data, TYPED_COLUMNS[i]);
    }
  }

  lemma MaterialiseOwn(scheme: Scheme, storage: Storage, data: Data, name: string)
    requires CoversColumns(scheme, storage)
    ensures OwnAt(storage, data, name) <==>
            OwnAt(storage, Materialise(scheme.defaults, scheme.fields + ["chain_seq"], data), name)
  {
    if name in scheme.defaults { assert OwnAt(storage, scheme.defaults, name); }
  }

  /** What the writer hashed and what is stored normalise alike, column by column. */
  lemma MaterialisedIsStored(scheme: Scheme, storage: Storage, data: Data, name: string)
    requires storage.defaults == scheme.defaults && CoversColumns(scheme, storage)
    requires Foreseen(storage, data) && name in scheme.fields
    ensures var d := Materialise(scheme.defaults, scheme.fields + ["chain_seq"], data);
            JsonSafe(StoredValue(storage, d, name)) == JsonSafe(Get(d, name))
  {
    var names := scheme.fields + ["chain_seq"];
    assert name in names;
    var d := Materialise(scheme.defaults, names, data);
    MaterialiseForeseen(scheme, storage, data);
    ForeseenOwn(storage, d, name);
    OwnIsKept(storage, TypeOf(name), Get(d, name));
  }

  /** The hash depends on the canonical columns only. */
  lemma RehashDepends(scheme: Scheme, c: Content, e: Content)
    requires c.format == e.format && c.prev == e.prev && c.chainSeq == e.chainSeq
    requires forall name | name in scheme.fields :: JsonSafe(Get(c.data, name)) == JsonSafe(Get(e.data, name))
    ensures RehashBy(scheme)(c) == RehashBy(scheme)(e)
  {
    if FieldsForFormat(scheme, c.format).Ok? {
      var names := FieldsForFormat(scheme, c.format).value;
      forall i | 0 <= i < |names| ensures JsonSafe(Get(RowDict(c), names[i])) == JsonSafe(Get(RowDict(e), names[i])) {
        assert i < |scheme.fields| ==> names[i] in scheme.fields;
      }
      SafeFieldsDepend(RowDict(c), RowDict(e), names);
    }
  }

  /** The column's stored value is not the one that was hashed. */
  predicate Differs(storage: Storage, data: Data, name: string) {
    || (name == "threats" && name !in data)
    || (name == "created_at" && Get(data, name).Null?)
    || !OwnAt(storage, data, name)
  }

  lemma DifferentValues(storage: Storage, data: Data, name: string)
    requires Differs(storage, data, name)
    ensures !SameSource(Get(data, name), StoredValue(storage, data, name))
  {
    if !OwnAt(storage, data, name) {
      TypedIsListed(name);
      OwnIsKept(storage, TypeOf(name), Get(data, name));
    }
  }

  /** Such a column shows: the stored row is another row. */
  lemma DifferenceShows(scheme: Scheme, storage: Storage, c: Content, name: string)
    requires c.format == Some(2) && name in scheme.fields && Differs(storage, c.data, name)
    ensures !SameRow(scheme, c, Stored(storage, c))
  {
    DifferentValues(storage, c.data, name);
    assert !SameField(c.data, Stored(storage, c).data, name);
  }

  lemma ForeseenIsCovered(scheme: Scheme, storage: Storage, c: Content, data: Data)
    requires CoversColumns(scheme, storage) && storage.defaults == scheme.defaults && Foreseen(storage, data)
    requires c.data == Materialise(scheme.defaults, scheme.fields + ["chain_seq"], data)
    ensures RehashBy(scheme)(Stored(storage, c)) == RehashBy(scheme)(c)
  {
    forall name | name in scheme.fields ensures JsonSafe(Get(StoredData(storage, c.data), name)) == JsonSafe(Get(c.data, name)) {
      MaterialisedIsStored(scheme, storage, data, name);
    }
    RehashDepends(scheme, c, Stored(storage, c));
  }

  lemma Unforeseen(scheme: Scheme, storage: Storage, data: Data) returns (name: string)
    requires CoversColumns(scheme, storage) && !Foreseen(storage, data)
    ensures name in scheme.fields && Differs(storage, data, name)
  {
    if "threats" !in data {
      name := "threats";
    } else if Get(data, "created_at").Null? {
      name := "created_at";
    } else {
      var i :| 0 <= i < |TYPED_COLUMNS| && !OwnAt(storage, data, TYPED_COLUMNS[i]);
      name := TYPED_COLUMNS[i];
    }
  }

  /**
   The written record_hash is the hash of the stored row exactly when the caller gave those columns and kept to the
   types of the typed ones - or the payload that was hashed and the stored row's payload collide.
  */
  lemma HashCoversStored(scheme: Scheme, tip: TipRule, storage: Storage, prev: Option<string>, next: int, data: Data)
    requires CoversColumns(scheme, storage) && storage.defaults == scheme.defaults
    requires ChainedRow(CodecOf(scheme, tip), prev, next, data).Ok?
    ensures var row := ChainedRow(CodecOf(scheme, tip), prev, next, data).value;
            || (ContentOk(RehashBy(scheme), row.(content := Stored(storage, row.content))) <==> Foreseen(storage, data))
            || Collide(scheme, row.content, Stored(storage, row.content))
  {
    var c := ChainedRow(CodecOf(scheme, tip), prev, next, data).value.content;
    if Foreseen(storage, data) {
      ForeseenIsCovered(scheme, storage, c, data);
    } else if RehashBy(scheme)(Stored(storage, c)) == RehashBy(scheme)(c) {
      MaterialiseForeseen(scheme, storage, data);
      var name := Unforeseen(scheme, storage, c.data);
      DifferenceShows(scheme, storage, c, name);
      HashPinsRow(scheme, c, Stored(storage, c));
    }
  }

  // ---------------------------------------------------------------- the audit table itself

  /** Plain column defaults of AuditLogModel; input_source has a server default. */
  const COLUMN_DEFAULTS: Data := (
    AsciiScalar("user_prompt"); AsciiScalar("api_key");
    map[
      "attribution_verified" := Bool(false),
      "input_length" := Int(0),
      "input_source" := Str(Ascii("user_prompt")),
      "llm_invoked" := Bool(false),
      "principal_type" := Str(Ascii("api_key"))])

  function AuditScheme(digest: string -> string): Scheme {
    CanonicalFieldsDistinct();
    ChainSeqIsNotInFormatOne();
    Scheme(digest, CANONICAL_FIELDS, COLUMN_DEFAULTS)
  }

  lemma DefaultedNamesAreLong(name: string)
    requires name in COLUMN_DEFAULTS
    ensures |name| > 10
  {
  }

  lemma NoPlainDefault(name: string)
    requires |name| <= 10
    ensures name !in COLUMN_DEFAULTS
  {
    if name in COLUMN_DEFAULTS { DefaultedNamesAreLong(name); }
  }

  lemma TypedDefaults(storage: Storage, name: string)
    requires name in COLUMN_DEFAULTS
    ensures !COLUMN_DEFAULTS[name].Null? && OwnAt(storage, COLUMN_DEFAULTS, name)
  {
  }

  /** The audit table's columns and defaults are covered, however values are converted. */
  lemma AuditSchemeCoversColumns(digest: string -> string, storage: Storage)
    ensures CoversColumns(AuditScheme(digest), storage)
  {
    UnforeseeableFieldsAreCanonical();
    forall i | 0 <= i < |TYPED_COLUMNS| ensures TYPED_COLUMNS[i] in CANONICAL_FIELDS { TypedIsCanonical(i); }
    NoPlainDefault("threats");
    NoPlainDefault("created_at");
    forall name | name in COLUMN_DEFAULTS ensures !COLUMN_DEFAULTS[name].Null? && OwnAt(storage, COLUMN_DEFAULTS, name) {
      TypedDefaults(storage, name);
    }
  }

  lemma TypedIsCanonical(i: nat)
    requires i < |TYPED_COLUMNS|
    ensures TYPED_COLUMNS[i] in CANONICAL_FIELDS
  {
    var at := [23, 16, 2, 17, 1, 12, 31, 22];
    assert CANONICAL_FIELDS[at[i]] == TYPED_COLUMNS[i];
  }
}
