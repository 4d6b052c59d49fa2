/**
 The deterministic JSON text that the audit chain hashes (security/audit_chain.py).

 A Python string is a sequence of code points in which lone surrogates are legal, so text is
 modelled as code points rather than as Dafny's `string`.  The output of `json.dumps` with
 `ensure_ascii=True` is plain ASCII and is a `string`.
*/
module CanonicalJson {
  import opened Outcomes
  import opened Decimal
  import opened Hexadecimal

  type Code = c: int | 0 <= c < 0x11_0000
  type Unit = u: int | 0 <= u < 0x1_0000
  type Text = seq<Code>

  /** The repr of a Python float, as json.dumps writes it. */
  type FloatRepr = t: string | IsFloatRepr(t) witness (assert !IsIntChar("0.0"[1]); "0.0")

  /** A Python value.  A dict keeps its items in insertion order. */
  datatype Value =
    | Null
    | Bool(b: bool)
    | Int(n: int)
    | Float(repr: FloatRepr)
    | Str(s: Text)
    | Uuid(canonical: Text)
    | Datetime(iso: Text)
    | Unsupported
    | List(items: seq<Value>)
    | Dict(fields: seq<Field>)
  datatype Field = Field(key: Text, value: Value)

  // ---------------------------------------------------------------- strings

  /** Characters that can occur in a bare JSON token: numbers and the named constants. */
  predicate IsBare(c: char) {
    '0' <= c <= '9' || 'a' <= c <= 'z' || 'A' <= c <= 'Z' || c == '-' || c == '+' || c == '.'
  }

  predicate IsFloatRepr(t: string) {
    && (forall c | c in t :: IsBare(c))
    && (exists i | 0 <= i < |t| :: !IsIntChar(t[i]))
    && t != "null" && t != "true" && t != "false"
  }

  predicate IsScalar(c: Code) { !(0xD800 <= c < 0xE000) }

  /** No surrogate code points: exactly the strings that can be encoded as UTF-8. */
  predicate ScalarText(s: Text) { forall c | c in s :: IsScalar(c) }

  function UnitsOf(c: Code): seq<Unit> {
    if c < 0x1_0000 then [c]
    else [0xD800 + (c - 0x1_0000) / 0x400, 0xDC00 + (c - 0x1_0000) % 0x400]
  }

  function Utf16(s: Text): seq<Unit> {
    if s == [] then [] else UnitsOf(s[0]) + Utf16(s[1..])
  }

  function EscapeUnit(u: Unit): (r: string)
    ensures r != []
  {
    if u == 0x22 then "\\\""
    else if u == 0x5C then "\\\\"
    else if u == 0x08 then "\\b"
    else if u == 0x09 then "\\t"
    else if u == 0x0A then "\\n"
    else if u == 0x0C then "\\f"
    else if u == 0x0D then "\\r"
    else if 0x20 <= u <= 0x7E then [u as char]
    else HexEscape(u)
  }

  function HexEscape(u: Unit): string {
    ['\\', 'u', HexDigit(u / 4096), HexDigit(u / 256 % 16), HexDigit(u / 16 % 16), HexDigit(u % 16)]
  }

  /** The escaped units followed by `rest`. */
  function Escape(us: seq<Unit>, rest: string): string {
    if us == [] then rest else EscapeUnit(us[0]) + Escape(us[1..], rest)
  }

  function Quote(s: Text, rest: string): string {
    ['"'] + Escape(Utf16(s), ['"'] + rest)
  }

  // ---------------------------------------------------------------- dicts

  predicate Less(a: Text, b: Text) {
    b != [] && (a == [] || a[0] < b[0] || (a[0] == b[0] && Less(a[1..], b[1..])))
  }

  predicate SortedFields(fs: seq<Field>) {
    forall i, j | 0 <= i < j < |fs| :: Less(fs[i].key, fs[j].key)
  }

  function Insert(f: Field, fs: seq<Field>): seq<Field> {
    if fs == [] || Less(f.key, fs[0].key) then [f] + fs else [fs[0]] + Insert(f, fs[1..])
  }

  function SortFields(fs: seq<Field>): seq<Field> {
    if fs == [] then [] else Insert(fs[0], SortFields(fs[1..]))
  }

  // ---------------------------------------------------------------- _json_safe and json.dumps

  /** `_json_safe`: None where the source raises TypeError. */
  function JsonSafe(v: Value): Option<Value>
    decreases v, 1
  {
    match v
    case Uuid(t) => Some(Str(t))
    case Datetime(t) => Some(Str(t))
    case Unsupported => None
    case List(items) =>
      var r := JsonSafeItems(items);
      if r.None? then None else Some(List(r.value))
    case Dict(fields) =>
      var r := JsonSafeFields(fields);
      if r.None? then None else Some(Dict(SortFields(r.value)))
    case _ => Some(v)
  }

  function JsonSafeItems(items: seq<Value>): (r: Option<seq<Value>>)
    ensures r.Some? <==> forall i | 0 <= i < |items| :: JsonSafe(items[i]).Some?
    ensures r.Some? ==> |r.value| == |items|
    ensures r.Some? ==> forall i | 0 <= i < |items| :: r.value[i] == JsonSafe(items[i]).value
    decreases items, 0
  {
    if items == [] then Some([]) else
    var head := JsonSafe(items[0]);
    var tail := JsonSafeItems(items[1..]);
    if head.None? || tail.None? then None else Some([head.value] + tail.value)
  }

  function JsonSafeFields(fields: seq<Field>): (r: Option<seq<Field>>)
    ensures r.Some? <==> forall i | 0 <= i < |fields| :: JsonSafe(fields[i].value).Some?
    ensures r.Some? ==> |r.value| == |fields|
    ensures r.Some? ==> forall i | 0 <= i < |fields| :: r.value[i] == Field(fields[i].key, JsonSafe(fields[i].value).value)
    decreases fields, 0
  {
    if fields == [] then Some([]) else
    var head := JsonSafe(fields[0].value);
    var tail := JsonSafeFields(fields[1..]);
    if head.None? || tail.None? then None else Some([Field(fields[0].key, head.value)] + tail.value)
  }

  /** A value json.dumps can serialise, with the distinct keys every dict has. */
  predicate IsJson(v: Value)
    decreases v
  {
    match v
    case Uuid(_) => false
    case Datetime(_) => false
    case Unsupported => false
    case List(items) => forall i | 0 <= i < |items| :: IsJson(items[i])
    case Dict(fields) =>
      && (forall i | 0 <= i < |fields| :: IsJson(fields[i].value))
      && DistinctKeys(fields)
    case _ => true
  }

  /** Every dict, at any depth, has distinct keys: true of every Python value. */
  predicate WellFormed(v: Value)
    decreases v
  {
    match v
    case List(items) => forall i | 0 <= i < |items| :: WellFormed(items[i])
    case Dict(fields) => DistinctKeys(fields) && forall i | 0 <= i < |fields| :: WellFormed(fields[i].value)
    case _ => true
  }

  predicate DistinctKeys(fs: seq<Field>) {
    forall i, j | 0 <= i < j < |fs| :: fs[i].key != fs[j].key
  }

  predicate ScalarValue(v: Value)
    decreases v
  {
    match v
    case Str(s) => ScalarText(s)
    case Uuid(s) => ScalarText(s)
    case Datetime(s) => ScalarText(s)
    case List(items) => forall i | 0 <= i < |items| :: ScalarValue(items[i])
    case Dict(fields) => forall i | 0 <= i < |fields| :: ScalarText(fields[i].key) && ScalarValue(fields[i].value)
    case _ => true
  }

  predicate IsToken(v: Value) { v.Null? || v.Bool? || v.Int? || v.Float? }

  function Token(v: Value): string
    requires IsToken(v)
  {
    match v
    case Null => "null"
    case Bool(b) => if b then "true" else "false"
    case Int(n) => IntText(n)
    case Float(t) => t
  }

  /** json.dumps with separators (",", ":") and no key sorting: the text of `v` followed by `rest`. */
  function Write(v: Value, rest: string): string
    requires IsJson(v)
    decreases v, 1
  {
    match v
    case Str(s) => Quote(s, rest)
    case List(items) =>
      ['['] + (if items == [] then [']'] + rest else Write(items[0], WriteItems(items[1..], rest)))
    case Dict(fields) =>
      ['{'] + (if fields == [] then ['}'] + rest else WriteField(fields[0], WriteFields(fields[1..], rest)))
    case _ => Token(v) + rest
  }

  function WriteItems(items: seq<Value>, rest: string): string
    requires forall i | 0 <= i < |items| :: IsJson(items[i])
    decreases items, 0
  {
    if items == [] then [']'] + rest else [','] + Write(items[0], WriteItems(items[1..], rest))
  }

  function WriteField(f: Field, rest: string): string
    requires IsJson(f.value)
    decreases f, 2
  {
    Quote(f.key, [':'] + Write(f.value, rest))
  }

  function WriteFields(fields: seq<Field>, rest: string): string
    requires forall i | 0 <= i < |fields| :: IsJson(fields[i].value)
    decreases fields, 0
  {
    if fields == [] then ['}'] + rest else [','] + WriteField(fields[0], WriteFields(fields[1..], rest))
  }

  /** Every dict at every depth with its keys in order: what `sort_keys=True` writes out. */
  function Canon(v: Value): (r: Value)
    requires IsJson(v)
    ensures v.List? <==> r.List?
    ensures v.Dict? <==> r.Dict?
    ensures !v.List? && !v.Dict? ==> r == v
    decreases v, 1
  {
    match v
    case List(items) => List(CanonItems(items))
    case Dict(fields) => Dict(SortFields(CanonFields(fields)))
    case _ => v
  }

  function CanonItems(items: seq<Value>): (r: seq<Value>)
    requires forall i | 0 <= i < |items| :: IsJson(items[i])
    ensures |r| == |items| && forall i | 0 <= i < |items| :: r[i] == Canon(items[i])
    decreases items, 0
  {
    seq(|items|, i requires 0 <= i < |items| => Canon(items[i]))
  }

  function CanonFields(fields: seq<Field>): (r: seq<Field>)
    requires forall i | 0 <= i < |fields| :: IsJson(fields[i].value)
    ensures |r| == |fields| && forall i | 0 <= i < |fields| :: r[i] == Field(fields[i].key, Canon(fields[i].value))
    decreases fields, 0
  {
    seq(|fields|, i requires 0 <= i < |fields| => Field(fields[i].key, Canon(fields[i].value)))
  }

  // ---------------------------------------------------------------- the key order

  lemma {:induction false} LessTotal(a: Text, b: Text)
    ensures Less(a, b) || Less(b, a) || a == b
    ensures !(Less(a, b) && Less(b, a)) && (a == b ==> !Less(a, b))
  {
    if a != [] && b != [] {
      LessTotal(a[1..], b[1..]);
      assert a == [a[0]] + a[1..] && b == [b[0]] + b[1..];
    }
  }

  /** One text comes before another: at the first code point where they differ it has the smaller, or it ends there. */
  lemma {:induction false} LessExactly(a: Text, b: Text)
    ensures Less(a, b) <==>
            exists i :: 0 <= i <= |a| && i < |b| && a[..i] == b[..i] && (i == |a| || a[i] < b[i])
  {
    if b == [] || a == [] {
      if b != [] { assert a[..0] == b[..0]; }
    } else {
      var p, q := a[1..], b[1..];
      LessExactly(p, q);
      if i :| 0 <= i <= |a| && i < |b| && a[..i] == b[..i] && (i == |a| || a[i] < b[i]) {
        if i > 0 {
          assert a[0] == a[..i][0] == b[..i][0] == b[0];
          assert p[..i - 1] == a[..i][1..] && q[..i - 1] == b[..i][1..];
        }
      }
      if a[0] < b[0] {
        assert a[..0] == b[..0];
      } else if a[0] == b[0] && Less(p, q) {
        var i :| 0 <= i <= |p| && i < |q| && p[..i] == q[..i] && (i == |p| || p[i] < q[i]);
        assert a[..i + 1] == [a[0]] + p[..i] && b[..i + 1] == [b[0]] + q[..i];
      }
    }
  }

  lemma {:induction false} LessTransitive(a: Text, b: Text, c: Text)
    requires Less(a, b) && Less(b, c)
    ensures Less(a, c)
  {
    if a != [] && a[0] == b[0] == c[0] {
      LessTransitive(a[1..], b[1..], c[1..]);
    }
  }

  lemma {:induction false} InsertMembers(f: Field, fs: seq<Field>)
    ensures |Insert(f, fs)| == |fs| + 1
    ensures forall g :: g in Insert(f, fs) <==> g == f || g in fs
  {
    if fs != [] && !Less(f.key, fs[0].key) {
      InsertMembers(f, fs[1..]);
      assert fs == [fs[0]] + fs[1..];
    }
  }

  lemma {:induction false} InsertSorted(f: Field, fs: seq<Field>)
    requires SortedFields(fs) && forall g | g in fs :: g.key != f.key
    ensures SortedFields(Insert(f, fs))
  {
    InsertMembers(f, fs);
    if fs == [] {
    } else if Less(f.key, fs[0].key) {
      forall j | 0 < j < |fs| ensures Less(f.key, fs[j].key) {
        LessTransitive(f.key, fs[0].key, fs[j].key);
      }
    } else {
      var rest := Insert(f, fs[1..]);
      InsertSorted(f, fs[1..]);
      InsertMembers(f, fs[1..]);
      LessTotal(f.key, fs[0].key);
      assert fs[0] in fs;
      forall j | 0 <= j < |rest| ensures Less(fs[0].key, rest[j].key) {
        assert rest[j] in rest;
      }
    }
  }

  lemma {:induction false} SortFieldsCorrect(fs: seq<Field>)
    ensures |SortFields(fs)| == |fs|
    ensures forall g :: g in SortFields(fs) <==> g in fs
    ensures DistinctKeys(fs) ==> SortedFields(SortFields(fs))
  {
    if fs != [] {
      SortFieldsCorrect(fs[1..]);
      InsertMembers(fs[0], SortFields(fs[1..]));
      assert fs == [fs[0]] + fs[1..];
      if DistinctKeys(fs) {
        forall g | g in SortFields(fs[1..]) ensures g.key != fs[0].key {
          var j :| 0 <= j < |fs[1..]| && fs[1..][j] == g;
          assert fs[j + 1] == g;
        }
        InsertSorted(fs[0], SortFields(fs[1..]));
      }
    }
  }

  /** A strictly sorted list is determined by its elements. */
  lemma {:induction false} SortedUnique(a: seq<Field>, b: seq<Field>)
    requires SortedFields(a) && SortedFields(b)
    requires forall f :: f in a <==> f in b
    ensures a == b
  {
    assert a != [] ==> a[0] in a;
    assert b != [] ==> b[0] in b;
    if a != [] {
      LessTotal(a[0].key, b[0].key);
      assert a[0] == b[0];
      forall f ensures f in a[1..] <==> f in b[1..] {
        TailMembers(a, f);
        TailMembers(b, f);
      }
      SortedUnique(a[1..], b[1..]);
      assert a == [a[0]] + a[1..] && b == [b[0]] + b[1..];
    }
  }

  lemma TailMembers(a: seq<Field>, f: Field)
    requires SortedFields(a) && a != []
    ensures f in a[1..] <==> f in a && f != a[0]
  {
    LessTotal(a[0].key, a[0].key);
    assert a == [a[0]] + a[1..];
  }

  // ---------------------------------------------------------------- reading strings back

  /** What was read, and the text after it. */
  datatype Read<T> = Read(value: T, rest: string)

  /** One character inside a JSON string, plain or escaped (section 7 of RFC 8259). */
  function ReadUnit(t: string): (r: Option<Read<Unit>>)
    ensures r.Some? ==> |r.value.rest| < |t|
  {
    if t == [] then None
    else if t[0] != '\\' then
      if t[0] == '"' || t[0] as int < 0x20 || t[0] as int >= 0x1_0000 then None else Some(Read(t[0] as int, t[1..]))
    else if |t| < 2 then None
    else
      match t[1]
      case '"' => Some(Read(0x22, t[2..]))
      case '\\' => Some(Read(0x5C, t[2..]))
      case '/' => Some(Read(0x2F, t[2..]))
      case 'b' => Some(Read(0x08, t[2..]))
      case 'f' => Some(Read(0x0C, t[2..]))
      case 'n' => Some(Read(0x0A, t[2..]))
      case 'r' => Some(Read(0x0D, t[2..]))
      case 't' => Some(Read(0x09, t[2..]))
      case 'u' =>
        if |t| < 6 || !IsHexDigit(t[2]) || !IsHexDigit(t[3]) || !IsHexDigit(t[4]) || !IsHexDigit(t[5]) then None
        else Some(Read(HexDigitValue(t[2]) * 4096 + HexDigitValue(t[3]) * 256 + HexDigitValue(t[4]) * 16 + HexDigitValue(t[5]), t[6..]))
      case _ => None
  }

  /** The characters up to the closing quote. */
  function ReadUnits(t: string): (r: Option<Read<seq<Unit>>>)
    ensures r.Some? ==> |r.value.rest| < |t|
    decreases |t|
  {
    if t != [] && t[0] == '"' then Some(Read([], t[1..])) else
    var first := ReadUnit(t);
    if first.None? then None else
    var more := ReadUnits(first.value.rest);
    if more.None? then None else Some(Read([first.value.value] + more.value.value, more.value.rest))
  }

  /** UTF-16 put together again: a high and a low surrogate are one character. */
  function FromUtf16(us: seq<Unit>): Text {
    if us == [] then []
    else if |us| >= 2 && 0xD800 <= us[0] < 0xDC00 && 0xDC00 <= us[1] < 0xE000 then
      [0x1_0000 + (us[0] - 0xD800) * 0x400 + (us[1] - 0xDC00)] + FromUtf16(us[2..])
    else [us[0]] + FromUtf16(us[1..])
  }

  /** A quoted string. */
  function ReadText(t: string): (r: Option<Read<Text>>)
    ensures r.Some? ==> |r.value.rest| < |t|
  {
    if t == [] || t[0] != '"' then None else
    var us := ReadUnits(t[1..]);
    if us.None? then None else Some(Read(FromUtf16(us.value.value), us.value.rest))
  }

  lemma HexSplit(x: Unit)
    ensures x / 4096 < 16 && x == x / 4096 * 4096 + x / 256 % 16 * 256 + x / 16 % 16 * 16 + x % 16
  {
    assert x / 256 == x / 4096 * 16 + x / 256 % 16;
    assert x / 16 == x / 256 * 16 + x / 16 % 16;
  }

  lemma UnitReadsBack(u: Unit, p: string)
    ensures ReadUnit(EscapeUnit(u) + p) == Some(Read(u, p))
    ensures (EscapeUnit(u) + p)[0] != '"'
  {
    var e := EscapeUnit(u);
    if e == HexEscape(u) {
      HexReadsBack(u, p);
    } else {
      assert (e + p)[|e|..] == p;
    }
  }

  lemma HexReadsBack(u: Unit, p: string)
    ensures ReadUnit(HexEscape(u) + p) == Some(Read(u, p))
  {
    HexSplit(u);
    assert (HexEscape(u) + p)[6..] == p;
  }

  lemma {:induction false} UnitsReadBack(us: seq<Unit>, p: string)
    ensures ReadUnits(Escape(us, ['"'] + p)) == Some(Read(us, p))
  {
    if us == [] {
      assert (['"'] + p)[1..] == p;
    } else {
      UnitReadsBack(us[0], Escape(us[1..], ['"'] + p));
      UnitsReadBack(us[1..], p);
      assert us == [us[0]] + us[1..];
    }
  }

  lemma QuoteReadsUnits(s: Text, p: string)
    ensures ReadUnits(Quote(s, p)[1..]) == Some(Read(Utf16(s), p))
  {
    UnitsReadBack(Utf16(s), p);
    assert Quote(s, p)[1..] == Escape(Utf16(s), ['"'] + p);
  }

  /** Two quoted strings read the same exactly when the strings have the same UTF-16 form. */
  lemma QuoteUnique(s: Text, t: Text, p: string, q: string)
    ensures Quote(s, p) == Quote(t, q) <==> Utf16(s) == Utf16(t) && p == q
  {
    QuoteReadsUnits(s, p);
    QuoteReadsUnits(t, q);
  }

  /** A string without surrogates is put together again from its UTF-16 form. */
  lemma {:induction false} Utf16ReadsBack(s: Text)
    requires ScalarText(s)
    ensures FromUtf16(Utf16(s)) == s
  {
    if s != [] {
      var rest := Utf16(s[1..]);
      assert s[0] in s;
      Utf16ReadsBack(s[1..]);
      if s[0] < 0x1_0000 {
        assert Utf16(s) == [s[0]] + rest && Utf16(s)[1..] == rest;
      } else {
        assert Utf16(s)[2..] == rest;
      }
      assert s == [s[0]] + s[1..];
    }
  }

  /** On strings without surrogates the UTF-16 form determines the string. */
  lemma Utf16Injective(s: Text, t: Text)
    requires ScalarText(s) && ScalarText(t) && Utf16(s) == Utf16(t)
    ensures s == t
  {
    Utf16ReadsBack(s);
    Utf16ReadsBack(t);
  }

  lemma TextReadsBack(s: Text, p: string)
    requires ScalarText(s)
    ensures ReadText(Quote(s, p)) == Some(Read(s, p))
  {
    QuoteReadsUnits(s, p);
    Utf16ReadsBack(s);
  }

  /** With lone surrogates it does not: a split pair is written like the character it spells. */
  lemma SplitPairCollides(rest: string)
    ensures Quote([0xD83D, 0xDE00], rest) == Quote([0x1_F600], rest)
  {
    var pair: Text, fused: Text := [0xD83D, 0xDE00], [0x1_F600];
    assert pair[1..] == [0xDE00] && pair[1..][1..] == [] && fused[1..] == [];
    assert Utf16(fused) == UnitsOf(0x1_F600) + Utf16([]);
    assert Utf16(pair[1..]) == UnitsOf(0xDE00) + Utf16([]);
    assert Utf16(pair) == UnitsOf(0xD83D) + Utf16(pair[1..]);
    assert Utf16(pair) == Utf16(fused);
  }

  // ---------------------------------------------------------------- reading values back

  /** What may follow a bare token. */
  predicate Stops(p: string) { p == [] || !IsBare(p[0]) }

  function BareLength(t: string): (n: nat)
    ensures n <= |t|
  {
    if t == [] || !IsBare(t[0]) then 0 else 1 + BareLength(t[1..])
  }

  /** What a bare token stands for. */
  function TokenValue(token: string): Option<Value> {
    if token == "null" then Some(Null)
    else if token == "true" then Some(Bool(true))
    else if token == "false" then Some(Bool(false))
    else if token != [] && forall c | c in token :: IsIntChar(c) then
      Some(Int(if token[0] == '-' then -DigitsValue(token[1..]) else DigitsValue(token)))
    else if IsFloatRepr(token) then Some(Float(token))
    else None
  }

  /** A JSON value without insignificant blanks (RFC 8259); numbers with other than digits are kept as they are written. */
  function ReadValue(t: string): (r: Option<Read<Value>>)
    ensures r.Some? ==> |r.value.rest| < |t|
    decreases |t|, 1
  {
    if t == [] then None
    else if t[0] == '"' then
      var s := ReadText(t);
      if s.None? then None else Some(Read(Str(s.value.value), s.value.rest))
    else if t[0] == '[' then
      if |t| > 1 && t[1] == ']' then Some(Read(List([]), t[2..])) else
      var head := ReadValue(t[1..]);
      if head.None? then None else
      var more := ReadItems(head.value.rest);
      if more.None? then None else Some(Read(List([head.value.value] + more.value.value), more.value.rest))
    else if t[0] == '{' then
      if |t| > 1 && t[1] == '}' then Some(Read(Dict([]), t[2..])) else
      var head := ReadField(t[1..]);
      if head.None? then None else
      var more := ReadFields(head.value.rest);
      if more.None? then None else Some(Read(Dict([head.value.value] + more.value.value), more.value.rest))
    else
      var n := BareLength(t);
      var v := TokenValue(t[..n]);
      if n == 0 || v.None? then None else Some(Read(v.value, t[n..]))
  }

  /** What follows an item: the end, or a comma and the next. */
  function ReadItems(t: string): (r: Option<Read<seq<Value>>>)
    ensures r.Some? ==> |r.value.rest| < |t|
    decreases |t|, 0
  {
    if t == [] then None
    else if t[0] == ']' then Some(Read([], t[1..]))
    else if t[0] == ',' then
      var head := ReadValue(t[1..]);
      if head.None? then None else
      var more := ReadItems(head.value.rest);
      if more.None? then None else Some(Read([head.value.value] + more.value.value, more.value.rest))
    else None
  }

  function ReadField(t: string): (r: Option<Read<Field>>)
    ensures r.Some? ==> |r.value.rest| < |t|
    decreases |t|, 0
  {
    var key := ReadText(t);
    if key.None? || key.value.rest == [] || key.value.rest[0] != ':' then None else
    var v := ReadValue(key.value.rest[1..]);
    if v.None? then None else Some(Read(Field(key.value.value, v.value.value), v.value.rest))
  }

  function ReadFields(t: string): (r: Option<Read<seq<Field>>>)
    ensures r.Some? ==> |r.value.rest| < |t|
    decreases |t|, 0
  {
    if t == [] then None
    else if t[0] == '}' then Some(Read([], t[1..]))
    else if t[0] == ',' then
      var head := ReadField(t[1..]);
      if head.None? then None else
      var more := ReadFields(head.value.rest);
      if more.None? then None else Some(Read([head.value.value] + more.value.value, more.value.rest))
    else None
  }

  lemma TokenShape(v: Value)
    requires IsToken(v)
    ensures Token(v) != [] && forall c | c in Token(v) :: IsBare(c)
    ensures v.Int? <==> forall c | c in Token(v) :: IsIntChar(c)
  {
    var t := Token(v);
    if v.Int? {
      IntTextShape(v.n);
    } else if v.Float? {
      var i :| 0 <= i < |t| && !IsIntChar(t[i]);
      assert t[i] in t;
    } else {
      assert t[0] in t;
    }
  }

  lemma TokenMeans(v: Value)
    requires IsToken(v)
    ensures TokenValue(Token(v)) == Some(v)
  {
    TokenShape(v);
    if v.Int? { IntMeans(v.n); }
  }

  lemma IntMeans(n: int)
    ensures TokenValue(IntText(n)) == Some(Int(n))
  {
    var t := IntText(n);
    IntTextShape(n);
    assert t[0] in t;
  }

  lemma {:induction false} BareEnds(token: string, p: string)
    requires (forall c | c in token :: IsBare(c)) && Stops(p)
    ensures BareLength(token + p) == |token|
  {
    if token == [] {
      assert token + p == p;
    } else {
      assert token[0] in token && (token + p)[1..] == token[1..] + p;
      BareEnds(token[1..], p);
    }
  }

  lemma TokenReadsBack(v: Value, p: string)
    requires IsToken(v) && Stops(p)
    ensures ReadValue(Token(v) + p) == Some(Read(v, p))
  {
    var t := Token(v);
    TokenShape(v);
    TokenMeans(v);
    BareEnds(t, p);
    assert (t + p)[0] == t[0] && t[0] in t && (t + p)[..|t|] == t && (t + p)[|t|..] == p;
  }

  lemma StopsAfterItem(items: seq<Value>, rest: string)
    requires forall i | 0 <= i < |items| :: IsJson(items[i])
    ensures Stops(WriteItems(items, rest))
  {
  }

  lemma StopsAfterField(fields: seq<Field>, rest: string)
    requires forall i | 0 <= i < |fields| :: IsJson(fields[i].value)
    ensures Stops(WriteFields(fields, rest))
  {
  }

  /** A value's text does not start like the end of a list. */
  lemma WriteHead(v: Value, rest: string)
    requires IsJson(v)
    ensures Write(v, rest) != [] && Write(v, rest)[0] != ']'
  {
    if IsToken(v) {
      TokenShape(v);
      assert (Token(v) + rest)[0] == Token(v)[0] && Token(v)[0] in Token(v);
    }
  }

  /** What is written reads back, with whatever follows it. */
  lemma {:induction false} WriteReadsBack(v: Value, p: string)
    requires IsJson(v) && ScalarValue(v) && (IsToken(v) ==> Stops(p))
    ensures ReadValue(Write(v, p)) == Some(Read(v, p))
    decreases v, 1
  {
    match v
    case Str(s) => TextReadsBack(s, p);
    case List(items) => ListReadsBack(items, p);
    case Dict(fields) => DictReadsBack(fields, p);
    case _ => TokenReadsBack(v, p);
  }

  predicate GoodItems(a: seq<Value>) { forall i | 0 <= i < |a| :: IsJson(a[i]) && ScalarValue(a[i]) }

  predicate GoodField(f: Field) { IsJson(f.value) && ScalarText(f.key) && ScalarValue(f.value) }

  predicate GoodFields(a: seq<Field>) { forall i | 0 <= i < |a| :: GoodField(a[i]) }

  lemma OpenList(h: string, v: Value, rest: string, vs: seq<Value>, p: string)
    requires h != [] && h[0] != ']' && ReadValue(h) == Some(Read(v, rest)) && ReadItems(rest) == Some(Read(vs, p))
    ensures ReadValue(['['] + h) == Some(Read(List([v] + vs), p))
    ensures ReadItems([','] + h) == Some(Read([v] + vs, p))
  {
    assert (['['] + h)[1..] == h && ([','] + h)[1..] == h;
  }

  lemma {:induction false} ListReadsBack(a: seq<Value>, p: string)
    requires GoodItems(a)
    ensures ReadValue(Write(List(a), p)) == Some(Read(List(a), p))
    decreases a, 2
  {
    if a == [] {
      assert Write(List(a), p) == ['[', ']'] + p && (['[', ']'] + p)[2..] == p;
    } else {
      FirstItemReadsBack(a, p);
    }
  }

  lemma {:induction false} ItemsReadBack(a: seq<Value>, p: string)
    requires GoodItems(a)
    ensures ReadItems(WriteItems(a, p)) == Some(Read(a, p))
    decreases a, 1
  {
    if a == [] {
      assert ([']'] + p)[1..] == p;
    } else {
      FirstItemReadsBack(a, p);
    }
  }

  lemma {:induction false} FirstItemReadsBack(a: seq<Value>, p: string)
    requires GoodItems(a) && a != []
    ensures var h := Write(a[0], WriteItems(a[1..], p));
            ReadValue(['['] + h) == Some(Read(List(a), p)) && ReadItems([','] + h) == Some(Read(a, p))
    decreases a, 0
  {
    var rest := WriteItems(a[1..], p);
    WriteHead(a[0], rest);
    StopsAfterItem(a[1..], p);
    WriteReadsBack(a[0], rest);
    ItemsReadBack(a[1..], p);
    assert a == [a[0]] + a[1..];
    OpenList(Write(a[0], rest), a[0], rest, a[1..], p);
  }

  lemma OpenDict(h: string, f: Field, rest: string, fs: seq<Field>, p: string)
    requires h != [] && h[0] == '"' && ReadField(h) == Some(Read(f, rest)) && ReadFields(rest) == Some(Read(fs, p))
    ensures ReadValue(['{'] + h) == Some(Read(Dict([f] + fs), p))
    ensures ReadFields([','] + h) == Some(Read([f] + fs, p))
  {
    assert (['{'] + h)[1..] == h && ([','] + h)[1..] == h;
  }

  lemma {:induction false} DictReadsBack(a: seq<Field>, p: string)
    requires GoodFields(a) && DistinctKeys(a)
    ensures ReadValue(Write(Dict(a), p)) == Some(Read(Dict(a), p))
    decreases a, 2
  {
    if a == [] {
      assert Write(Dict(a), p) == ['{', '}'] + p && (['{', '}'] + p)[2..] == p;
    } else {
      FirstFieldReadsBack(a, p);
    }
  }

  lemma {:induction false} FieldsReadBack(a: seq<Field>, p: string)
    requires GoodFields(a)
    ensures ReadFields(WriteFields(a, p)) == Some(Read(a, p))
    decreases a, 1
  {
    if a == [] {
      assert (['}'] + p)[1..] == p;
    } else {
      FirstFieldReadsBack(a, p);
    }
  }

  lemma {:induction false} FirstFieldReadsBack(a: seq<Field>, p: string)
    requires GoodFields(a) && a != []
    ensures var h := WriteField(a[0], WriteFields(a[1..], p));
            ReadValue(['{'] + h) == Some(Read(Dict(a), p)) && ReadFields([','] + h) == Some(Read(a, p))
    decreases a, 0
  {
    var rest := WriteFields(a[1..], p);
    StopsAfterField(a[1..], p);
    FieldReadsBack(a[0], rest);
    FieldsReadBack(a[1..], p);
    assert a == [a[0]] + a[1..];
    OpenDict(WriteField(a[0], rest), a[0], rest, a[1..], p);
  }

  lemma {:induction false} FieldReadsBack(f: Field, p: string)
    requires GoodField(f) && Stops(p)
    ensures ReadField(WriteField(f, p)) == Some(Read(f, p))
    decreases f, 2
  {
    TextReadsBack(f.key, [':'] + Write(f.value, p));
    WriteReadsBack(f.value, p);
    assert ([':'] + Write(f.value, p))[1..] == Write(f.value, p);
  }

  /** So no text is the start of two different values, wherever a value can end. */
  lemma WriteUnique(v: Value, w: Value, p: string, q: string)
    requires IsJson(v) && IsJson(w) && ScalarValue(v) && ScalarValue(w)
    requires (IsToken(v) ==> Stops(p)) && (IsToken(w) ==> Stops(q))
    requires Write(v, p) == Write(w, q)
    ensures v == w && p == q
  {
    WriteReadsBack(v, p);
    WriteReadsBack(w, q);
  }

  // ---------------------------------------------------------------- dict equality and the canonical text

  function Keys(fs: seq<Field>): set<Text> {
    set i | 0 <= i < |fs| :: fs[i].key
  }

  /** Python equality of JSON values: lists position by position, dicts whatever their insertion order. */
  ghost predicate Same(v: Value, w: Value)
    decreases v
  {
    match v
    case List(a) => w.List? && |a| == |w.items| && forall i | 0 <= i < |a| :: Same(a[i], w.items[i])
    case Dict(a) =>
      && w.Dict? && Keys(a) == Keys(w.fields)
      && forall i, j | 0 <= i < |a| && 0 <= j < |w.fields| && a[i].key == w.fields[j].key ::
           Same(a[i].value, w.fields[j].value)
    case _ => v == w
  }

  /** json.dumps(v, sort_keys=True, separators=(",", ":"), ensure_ascii=True), followed by `rest`. */
  function Dumps(v: Value, rest: string): string
    requires IsJson(v)
  {
    CanonIsJson(v);
    Write(Canon(v), rest)
  }

  lemma {:induction false} CanonIsJson(v: Value)
    requires IsJson(v)
    ensures IsJson(Canon(v))
    ensures ScalarValue(v) ==> ScalarValue(Canon(v))
  {
    match v
    case List(items) =>
      forall i | 0 <= i < |items| ensures IsJson(Canon(items[i])) && (ScalarValue(items[i]) ==> ScalarValue(Canon(items[i]))) {
        CanonIsJson(items[i]);
      }
    case Dict(fields) =>
      var canon := CanonFields(fields);
      forall i | 0 <= i < |fields|
        ensures IsJson(canon[i].value) && (ScalarValue(fields[i].value) ==> ScalarValue(canon[i].value))
      {
        CanonIsJson(fields[i].value);
      }
      SortedIsJson(canon);
    case _ =>
  }

  lemma SortedIsJson(fs: seq<Field>)
    requires DistinctKeys(fs) && forall i | 0 <= i < |fs| :: IsJson(fs[i].value)
    ensures IsJson(Dict(SortFields(fs)))
    ensures ScalarValue(Dict(fs)) ==> ScalarValue(Dict(SortFields(fs)))
  {
    var sorted := SortFields(fs);
    SortFieldsCorrect(fs);
    SortedDistinct(sorted);
    forall i | 0 <= i < |sorted| ensures IsJson(sorted[i].value) { SortedItem(fs, i); }
    if ScalarValue(Dict(fs)) {
      forall i | 0 <= i < |sorted| ensures ScalarText(sorted[i].key) && ScalarValue(sorted[i].value) { SortedItem(fs, i); }
    }
  }

  /** An item of the sorted list is an item of the list. */
  lemma SortedItem(fs: seq<Field>, i: nat)
    requires DistinctKeys(fs) && i < |SortFields(fs)|
    ensures exists j | 0 <= j < |fs| :: fs[j] == SortFields(fs)[i]
  {
    SortFieldsCorrect(fs);
    assert SortFields(fs)[i] in SortFields(fs);
  }

  lemma SortedDistinct(fs: seq<Field>)
    requires SortedFields(fs)
    ensures DistinctKeys(fs)
  {
    forall i, j | 0 <= i < j < |fs| ensures fs[i].key != fs[j].key {
      LessTotal(fs[i].key, fs[j].key);
    }
  }

  /** Canonical forms decide dict equality. */
  lemma {:induction false} CanonDecidesSame(v: Value, w: Value)
    requires IsJson(v) && IsJson(w)
    ensures Same(v, w) <==> Canon(v) == Canon(w)
    decreases v
  {
    if v.List? && w.List? && |v.items| == |w.items| {
      forall i | 0 <= i < |v.items| ensures Same(v.items[i], w.items[i]) <==> Canon(v.items[i]) == Canon(w.items[i]) {
        CanonDecidesSame(v.items[i], w.items[i]);
      }
      ListCanonEqual(v.items, w.items);
    } else if v.List? && w.List? {
      assert |CanonItems(v.items)| != |CanonItems(w.items)|;
    } else if v.Dict? && w.Dict? {
      forall i, j | 0 <= i < |v.fields| && 0 <= j < |w.fields|
        ensures Same(v.fields[i].value, w.fields[j].value) <==> Canon(v.fields[i].value) == Canon(w.fields[j].value)
      {
        CanonDecidesSame(v.fields[i].value, w.fields[j].value);
      }
      var x, y := CanonFields(v.fields), CanonFields(w.fields);
      assert Keys(x) == Keys(v.fields) && Keys(y) == Keys(w.fields);
      SortDecidesAgree(x, y);
      assert Agree(x, y) <==> Same(v, w);
    }
  }

  lemma ListCanonEqual(a: seq<Value>, b: seq<Value>)
    requires |a| == |b| && IsJson(List(a)) && IsJson(List(b))
    ensures Canon(List(a)) == Canon(List(b)) <==> forall i | 0 <= i < |a| :: Canon(a[i]) == Canon(b[i])
  {
    if CanonItems(a) == CanonItems(b) {
      forall i | 0 <= i < |a| ensures Canon(a[i]) == Canon(b[i]) {
        assert CanonItems(a)[i] == CanonItems(b)[i];
      }
    }
  }

  /** The same keys, and equal values under equal keys. */
  ghost predicate Agree(x: seq<Field>, y: seq<Field>) {
    && Keys(x) == Keys(y)
    && forall i, j | 0 <= i < |x| && 0 <= j < |y| && x[i].key == y[j].key :: x[i].value == y[j].value
  }

  lemma AgreeMembers(x: seq<Field>, y: seq<Field>)
    requires Agree(x, y)
    ensures forall f | f in x :: f in y
  {
    forall f | f in x ensures f in y {
      var i :| 0 <= i < |x| && x[i] == f;
      assert f.key in Keys(x);
      var j :| 0 <= j < |y| && y[j].key == f.key;
      assert y[j] == f;
    }
  }

  lemma MembersAgree(x: seq<Field>, y: seq<Field>)
    requires DistinctKeys(x) && DistinctKeys(y) && forall f :: f in x <==> f in y
    ensures Agree(x, y)
  {
    assert forall i | 0 <= i < |x| :: x[i] in y;
    assert forall i | 0 <= i < |y| :: y[i] in x;
    forall i, j | 0 <= i < |x| && 0 <= j < |y| && x[i].key == y[j].key ensures x[i].value == y[j].value {
      var k :| 0 <= k < |y| && y[k] == x[i];
    }
    assert Keys(x) == Keys(y);
  }

  lemma SortDecidesAgree(x: seq<Field>, y: seq<Field>)
    requires DistinctKeys(x) && DistinctKeys(y)
    ensures SortFields(x) == SortFields(y) <==> Agree(x, y)
  {
    SortFieldsCorrect(x);
    SortFieldsCorrect(y);
    if SortFields(x) == SortFields(y) {
      MembersAgree(x, y);
    }
    if Agree(x, y) {
      AgreeMembers(x, y);
      AgreeMembers(y, x);
      SortedUnique(SortFields(x), SortFields(y));
    }
  }

  /**
   The canonical text of a dict determines the dict, whatever follows it: equal texts mean equal dicts
   and equal remainders, and insertion order never matters.
  */
  lemma DumpsUnique(v: Value, w: Value, p: string, q: string)
    requires IsJson(v) && IsJson(w) && ScalarValue(v) && ScalarValue(w)
    requires v.Dict? && w.Dict?
    ensures Dumps(v, p) == Dumps(w, q) <==> Same(v, w) && p == q
  {
    CanonIsJson(v);
    CanonIsJson(w);
    CanonDecidesSame(v, w);
    if Dumps(v, p) == Dumps(w, q) {
      WriteUnique(Canon(v), Canon(w), p, q);
    }
  }

  /** Dumping with a remainder is dumping, then concatenating. */
  lemma DumpsAppend(v: Value, p: string, r: string)
    requires IsJson(v)
    ensures Dumps(v, p + r) == Dumps(v, p) + r
  {
    CanonIsJson(v);
    WriteAppend(Canon(v), p, r);
  }

  /** Writing with a remainder is writing, then concatenating. */
  lemma {:induction false} WriteAppend(v: Value, p: string, r: string)
    requires IsJson(v)
    ensures Write(v, p + r) == Write(v, p) + r
    decreases v, 1
  {
    if v.Str? {
      QuoteAppend(v.s, p, r);
    } else if v.List? && v.items == [] {
      assert [']'] + (p + r) == [']'] + p + r;
    } else if v.List? {
      ItemsAppend(v.items[1..], p, r);
      WriteAppend(v.items[0], WriteItems(v.items[1..], p), r);
    } else if v.Dict? && v.fields == [] {
      assert ['}'] + (p + r) == ['}'] + p + r;
    } else if v.Dict? {
      FieldsAppend(v.fields[1..], p, r);
      FieldAppend(v.fields[0], WriteFields(v.fields[1..], p), r);
    } else {
      assert Token(v) + (p + r) == Token(v) + p + r;
    }
  }

  lemma {:induction false} EscapeAppend(us: seq<Unit>, p: string, r: string)
    ensures Escape(us, p + r) == Escape(us, p) + r
  {
    if us != [] {
      EscapeAppend(us[1..], p, r);
      assert EscapeUnit(us[0]) + (Escape(us[1..], p) + r) == EscapeUnit(us[0]) + Escape(us[1..], p) + r;
    }
  }

  lemma QuoteAppend(s: Text, p: string, r: string)
    ensures Quote(s, p + r) == Quote(s, p) + r
  {
    assert ['"'] + (p + r) == (['"'] + p) + r;
    EscapeAppend(Utf16(s), ['"'] + p, r);
  }

  lemma {:induction false} ItemsAppend(items: seq<Value>, p: string, r: string)
    requires forall i | 0 <= i < |items| :: IsJson(items[i])
    ensures WriteItems(items, p + r) == WriteItems(items, p) + r
    decreases items, 0
  {
    if items == [] {
      assert [']'] + (p + r) == [']'] + p + r;
    } else {
      ItemsAppend(items[1..], p, r);
      WriteAppend(items[0], WriteItems(items[1..], p), r);
    }
  }

  lemma {:induction false} FieldAppend(f: Field, p: string, r: string)
    requires IsJson(f.value)
    ensures WriteField(f, p + r) == WriteField(f, p) + r
    decreases f, 2
  {
    WriteAppend(f.value, p, r);
    assert [':'] + (Write(f.value, p) + r) == ([':'] + Write(f.value, p)) + r;
    QuoteAppend(f.key, [':'] + Write(f.value, p), r);
  }

  lemma {:induction false} FieldsAppend(fields: seq<Field>, p: string, r: string)
    requires forall i | 0 <= i < |fields| :: IsJson(fields[i].value)
    ensures WriteFields(fields, p + r) == WriteFields(fields, p) + r
    decreases fields, 0
  {
    if fields == [] {
      assert ['}'] + (p + r) == ['}'] + p + r;
    } else {
      FieldsAppend(fields[1..], p, r);
      FieldAppend(fields[0], WriteFields(fields[1..], p), r);
    }
  }

  // ---------------------------------------------------------------- _json_safe keeps the value

  /** What `_json_safe` returns is serialisable. */
  lemma {:induction false} JsonSafeIsJson(v: Value)
    requires WellFormed(v) && JsonSafe(v).Some?
    ensures IsJson(JsonSafe(v).value)
    ensures ScalarValue(v) ==> ScalarValue(JsonSafe(v).value)
  {
    match v
    case List(items) =>
      forall i | 0 <= i < |items| ensures IsJson(JsonSafe(items[i]).value)
        ensures ScalarValue(items[i]) ==> ScalarValue(JsonSafe(items[i]).value)
      {
        JsonSafeIsJson(items[i]);
      }
    case Dict(fields) =>
      var safe := JsonSafeFields(fields).value;
      forall i | 0 <= i < |fields| ensures IsJson(safe[i].value)
        ensures ScalarValue(fields[i].value) ==> ScalarValue(safe[i].value)
      {
        JsonSafeIsJson(fields[i].value);
      }
      SortedIsJson(safe);
    case _ =>
  }

  // ---------------------------------------------------------------- sameness of source values

  /** A timestamp, a UUID or a string with this text. */
  predicate Spells(v: Value, s: Text) {
    (v.Str? && v.s == s) || (v.Uuid? && v.canonical == s) || (v.Datetime? && v.iso == s)
  }

  /** The same value as far as the chain is concerned: texts by their characters, dicts up to the order of their items. */
  ghost predicate SameSource(v: Value, w: Value)
    decreases v
  {
    match v
    case Str(s) => Spells(w, s)
    case Uuid(s) => Spells(w, s)
    case Datetime(s) => Spells(w, s)
    case List(a) => w.List? && |a| == |w.items| && forall i | 0 <= i < |a| :: SameSource(a[i], w.items[i])
    case Dict(a) =>
      && w.Dict? && Keys(a) == Keys(w.fields)
      && forall i, j | 0 <= i < |a| && 0 <= j < |w.fields| && a[i].key == w.fields[j].key ::
           SameSource(a[i].value, w.fields[j].value)
    case _ => v == w
  }

  /** Nothing anywhere in the value that `_json_safe` would refuse. */
  predicate Supported(v: Value)
    decreases v
  {
    match v
    case Unsupported => false
    case List(items) => forall i | 0 <= i < |items| :: Supported(items[i])
    case Dict(fields) => forall i | 0 <= i < |fields| :: Supported(fields[i].value)
    case _ => true
  }

  /** `_json_safe` raises exactly on a value it does not support, at whatever depth. */
  lemma {:induction false} RefusedExactly(v: Value)
    ensures JsonSafe(v).Some? <==> Supported(v)
  {
    match v
    case List(items) => forall i | 0 <= i < |items| ensures JsonSafe(items[i]).Some? <==> Supported(items[i]) { RefusedExactly(items[i]); }
    case Dict(fields) =>
      forall i | 0 <= i < |fields| ensures JsonSafe(fields[i].value).Some? <==> Supported(fields[i].value) { RefusedExactly(fields[i].value); }
    case _ =>
  }

  /** Normalisation neither merges nor splits values: results are the same exactly when the values are. */
  lemma {:induction false} JsonSafeDecidesSource(v: Value, w: Value)
    requires JsonSafe(v).Some? && JsonSafe(w).Some?
    ensures Same(JsonSafe(v).value, JsonSafe(w).value) <==> SameSource(v, w)
  {
    if v.List? && w.List? && |v.items| == |w.items| {
      forall i | 0 <= i < |v.items|
        ensures Same(JsonSafe(v.items[i]).value, JsonSafe(w.items[i]).value) <==> SameSource(v.items[i], w.items[i])
      {
        JsonSafeDecidesSource(v.items[i], w.items[i]);
      }
      SafeLists(v.items, w.items);
    } else if v.Dict? && w.Dict? {
      forall i, j | 0 <= i < |v.fields| && 0 <= j < |w.fields|
        ensures Same(JsonSafe(v.fields[i].value).value, JsonSafe(w.fields[j].value).value) <==> SameSource(v.fields[i].value, w.fields[j].value)
      {
        JsonSafeDecidesSource(v.fields[i].value, w.fields[j].value);
      }
      SafeDicts(v.fields, w.fields);
    }
  }

  lemma SafeLists(a: seq<Value>, b: seq<Value>)
    requires |a| == |b| && JsonSafeItems(a).Some? && JsonSafeItems(b).Some?
    requires forall i | 0 <= i < |a| :: Same(JsonSafe(a[i]).value, JsonSafe(b[i]).value) <==> SameSource(a[i], b[i])
    ensures Same(List(JsonSafeItems(a).value), List(JsonSafeItems(b).value)) <==> SameSource(List(a), List(b))
  {
    ListsCorrespond(JsonSafeItems(a).value, JsonSafeItems(b).value, a, b);
  }

  lemma ListsCorrespond(x: seq<Value>, y: seq<Value>, a: seq<Value>, b: seq<Value>)
    requires |x| == |y| == |a| == |b| && forall i | 0 <= i < |a| :: Same(x[i], y[i]) <==> SameSource(a[i], b[i])
    ensures Same(List(x), List(y)) <==> SameSource(List(a), List(b))
  {
  }

  lemma SafeDicts(a: seq<Field>, b: seq<Field>)
    requires JsonSafeFields(a).Some? && JsonSafeFields(b).Some?
    requires forall i, j | 0 <= i < |a| && 0 <= j < |b| ::
               Same(JsonSafe(a[i].value).value, JsonSafe(b[j].value).value) <==> SameSource(a[i].value, b[j].value)
    ensures Same(Dict(SortFields(JsonSafeFields(a).value)), Dict(SortFields(JsonSafeFields(b).value))) <==> SameSource(Dict(a), Dict(b))
  {
    var x, y := JsonSafeFields(a).value, JsonSafeFields(b).value;
    SortedDictsSame(x, y);
    DictsCorrespond(x, y, a, b);
  }

  lemma DictsCorrespond(x: seq<Field>, y: seq<Field>, a: seq<Field>, b: seq<Field>)
    requires |x| == |a| && forall i | 0 <= i < |a| :: x[i].key == a[i].key
    requires |y| == |b| && forall i | 0 <= i < |b| :: y[i].key == b[i].key
    requires forall i, j | 0 <= i < |a| && 0 <= j < |b| :: Same(x[i].value, y[j].value) <==> SameSource(a[i].value, b[j].value)
    ensures Same(Dict(x), Dict(y)) <==> SameSource(Dict(a), Dict(b))
  {
    assert Keys(x) == Keys(a) && Keys(y) == Keys(b);
  }

  /** The order of the items never decides sameness. */
  lemma SortedDictsSame(x: seq<Field>, y: seq<Field>)
    ensures Same(Dict(SortFields(x)), Dict(SortFields(y))) <==> Same(Dict(x), Dict(y))
  {
    SortFieldsCorrect(x);
    SortFieldsCorrect(y);
    if Same(Dict(SortFields(x)), Dict(SortFields(y))) { MembersSame(SortFields(x), x, SortFields(y), y); }
    if Same(Dict(x), Dict(y)) { MembersSame(x, SortFields(x), y, SortFields(y)); }
  }

  lemma MembersSame(x: seq<Field>, x': seq<Field>, y: seq<Field>, y': seq<Field>)
    requires (forall f :: f in x <==> f in x') && (forall f :: f in y <==> f in y')
    requires Same(Dict(x), Dict(y))
    ensures Same(Dict(x'), Dict(y'))
  {
    SameKeys(x, x');
    SameKeys(y, y');
    forall i, j | 0 <= i < |x'| && 0 <= j < |y'| && x'[i].key == y'[j].key ensures Same(x'[i].value, y'[j].value) {
      assert x'[i] in x && y'[j] in y;
    }
  }

  lemma SameKeys(x: seq<Field>, x': seq<Field>)
    requires forall f :: f in x <==> f in x'
    ensures Keys(x) == Keys(x')
  {
    forall k | k in Keys(x) ensures k in Keys(x') { var i :| 0 <= i < |x| && x[i].key == k; assert x[i] in x'; }
    forall k | k in Keys(x') ensures k in Keys(x) { var i :| 0 <= i < |x'| && x'[i].key == k; assert x'[i] in x; }
  }

  // ---------------------------------------------------------------- values that already are JSON

  /** On values that already are JSON, `_json_safe` changes nothing but key order. */
  lemma {:induction false} JsonSafeSame(v: Value)
    requires IsJson(v)
    ensures JsonSafe(v).Some? && Same(v, JsonSafe(v).value)
  {
    match v
    case List(items) =>
      forall i | 0 <= i < |items| ensures JsonSafe(items[i]).Some? && Same(items[i], JsonSafe(items[i]).value) {
        JsonSafeSame(items[i]);
      }
    case Dict(fields) =>
      forall i | 0 <= i < |fields| ensures JsonSafe(fields[i].value).Some? && Same(fields[i].value, JsonSafe(fields[i].value).value) {
        JsonSafeSame(fields[i].value);
      }
      SortedSame(fields, JsonSafeFields(fields).value);
    case _ =>
  }

  lemma SortedSame(fields: seq<Field>, safe: seq<Field>)
    requires |safe| == |fields| && DistinctKeys(fields)
    requires forall i | 0 <= i < |fields| :: safe[i].key == fields[i].key && Same(fields[i].value, safe[i].value)
    ensures Same(Dict(fields), Dict(SortFields(safe)))
  {
    var sorted := SortFields(safe);
    SortAgrees(safe);
    assert Keys(fields) == Keys(safe);
    forall i, j | 0 <= i < |fields| && 0 <= j < |sorted| && fields[i].key == sorted[j].key
      ensures Same(fields[i].value, sorted[j].value)
    {
      assert safe[i].value == sorted[j].value;
    }
  }

  lemma SortAgrees(fs: seq<Field>)
    requires DistinctKeys(fs)
    ensures Agree(fs, SortFields(fs))
  {
    SortFieldsCorrect(fs);
    SortedDistinct(SortFields(fs));
    MembersAgree(fs, SortFields(fs));
  }

  // ---------------------------------------------------------------- the canonical text reads back

  /** On JSON values normalisation is the sorting that the text shows. */
  lemma {:induction false} SafeIsCanon(v: Value)
    requires IsJson(v)
    ensures JsonSafe(v) == Some(Canon(v))
  {
    match v
    case List(items) =>
      forall i | 0 <= i < |items| ensures JsonSafe(items[i]) == Some(Canon(items[i])) { SafeIsCanon(items[i]); }
      assert JsonSafeItems(items).value == CanonItems(items);
    case Dict(fields) =>
      forall i | 0 <= i < |fields| ensures JsonSafe(fields[i].value) == Some(Canon(fields[i].value)) { SafeIsCanon(fields[i].value); }
      assert JsonSafeFields(fields).value == CanonFields(fields);
    case _ =>
  }

  /** A JSON reader gets the dict back from its canonical text, with its keys in order, and then whatever follows. */
  lemma DumpsReadsBack(v: Value, rest: string)
    requires IsJson(v) && ScalarValue(v) && v.Dict?
    ensures ReadValue(Dumps(v, rest)) == Some(Read(Canon(v), rest))
    ensures Same(v, Canon(v)) && SortedFields(Canon(v).fields)
  {
    CanonIsJson(v);
    WriteReadsBack(Canon(v), rest);
    SafeIsCanon(v);
    JsonSafeSame(v);
    SortFieldsCorrect(CanonFields(v.fields));
  }

  lemma SameTransitive(u: Value, v: Value, w: Value)
    requires IsJson(u) && IsJson(v) && IsJson(w) && Same(u, v) && Same(v, w)
    ensures Same(u, w)
  {
    CanonDecidesSame(u, v);
    CanonDecidesSame(v, w);
    CanonDecidesSame(u, w);
  }

  /** A JSON value that is the same as what a value was normalised to is the same as the value. */
  lemma SameAsSource(v: Value, w: Value)
    requires WellFormed(v) && JsonSafe(v).Some? && IsJson(w) && Same(JsonSafe(v).value, w)
    ensures SameSource(v, w)
  {
    JsonSafeIsJson(v);
    JsonSafeSame(w);
    SafeIsCanon(w);
    CanonIsJson(w);
    SameTransitive(JsonSafe(v).value, w, JsonSafe(w).value);
    JsonSafeDecidesSource(v, w);
  }
}
