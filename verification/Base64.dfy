/** Base64 with padding (section 4 of RFC 4648), as base64.b64encode writes it and b64decode(validate=True) reads it. */
module Base64 {
  import opened Outcomes
  import opened Octets

  type Sextet = v: int | 0 <= v < 64

  /** An alphabet: the character of each 6-bit value, and the value of each character that has one. */
  datatype Alphabet = Alphabet(symbol: Sextet -> char, value: char -> Option<Sextet>) {
    ghost predicate Good() { value('=').None? && forall v: Sextet :: value(symbol(v)) == Some(v) }
  }

  // ---------------------------------------------------------------- any alphabet

  function Write1(t: Alphabet, a: Byte): string { [t.symbol(a / 4), t.symbol(a % 4 * 16), '=', '='] }

  function Write2(t: Alphabet, a: Byte, b: Byte): string {
    [t.symbol(a / 4), t.symbol(a % 4 * 16 + b / 16), t.symbol(b % 16 * 4), '=']
  }

  function Write3(t: Alphabet, a: Byte, b: Byte, c: Byte): string {
    [t.symbol(a / 4), t.symbol(a % 4 * 16 + b / 16), t.symbol(b % 16 * 4 + c / 64), t.symbol(c % 64)]
  }

  function EncodeWith(t: Alphabet, s: Bytes): string {
    if |s| == 0 then []
    else if |s| == 1 then Write1(t, s[0])
    else if |s| == 2 then Write2(t, s[0], s[1])
    else Write3(t, s[0], s[1], s[2]) + EncodeWith(t, s[3..])
  }

  /** The bytes of one group of four; padding is allowed only where `last` says the group ends the text. */
  function ReadGroup(t: Alphabet, g: string, last: bool): Option<Bytes>
    requires |g| == 4
  {
    var w, x, y, z := t.value(g[0]), t.value(g[1]), t.value(g[2]), t.value(g[3]);
    if w.None? || x.None? then None
    else if last && g[2] == '=' && g[3] == '=' then Some([First(w.value, x.value)])
    else if y.None? then None
    else if last && g[3] == '=' then Some([First(w.value, x.value), Second(x.value, y.value)])
    else if z.None? then None
    else Some([First(w.value, x.value), Second(x.value, y.value), Third(y.value, z.value)])
  }

  function First(w: int, x: int): Byte
    requires 0 <= w < 64 && 0 <= x < 64
  {
    w * 4 + x / 16
  }

  function Second(x: int, y: int): Byte
    requires 0 <= x < 64 && 0 <= y < 64
  {
    x % 16 * 16 + y / 4
  }

  function Third(y: int, z: int): Byte
    requires 0 <= y < 64 && 0 <= z < 64
  {
    y % 4 * 64 + z
  }

  /** Whole groups only, padding only at the end, nothing outside the alphabet; spare bits are dropped. */
  function DecodeWith(t: Alphabet, text: string): Option<Bytes>
    decreases |text|
  {
    if |text| == 0 then Some([])
    else if |text| < 4 then None
    else
      var head, rest := ReadGroup(t, text[..4], |text| == 4), DecodeWith(t, text[4..]);
      if head.None? || rest.None? then None else Some(head.value + rest.value)
  }

  /** Splitting bytes into sextets and joining them again. */
  lemma SextetsJoin(a: Byte, b: Byte, c: Byte)
    ensures First(a / 4, a % 4 * 16) == a
    ensures First(a / 4, a % 4 * 16 + b / 16) == a && Second(a % 4 * 16 + b / 16, b % 16 * 4) == b
    ensures Second(a % 4 * 16 + b / 16, b % 16 * 4 + c / 64) == b && Third(b % 16 * 4 + c / 64, c % 64) == c
  {
  }

  lemma SymbolsRead(t: Alphabet, w: Sextet, x: Sextet, y: Sextet, z: Sextet, last: bool)
    requires t.Good()
    ensures ReadGroup(t, [t.symbol(w), t.symbol(x), '=', '='], true) == Some([First(w, x)])
    ensures ReadGroup(t, [t.symbol(w), t.symbol(x), t.symbol(y), '='], true) == Some([First(w, x), Second(x, y)])
    ensures ReadGroup(t, [t.symbol(w), t.symbol(x), t.symbol(y), t.symbol(z)], last) == Some([First(w, x), Second(x, y), Third(y, z)])
  {
    assert t.symbol(y) != '=' && t.symbol(z) != '=';
  }

  lemma Write1ReadsBack(t: Alphabet, a: Byte)
    requires t.Good()
    ensures ReadGroup(t, Write1(t, a), true) == Some([a])
  {
    SextetsJoin(a, 0, 0);
    SymbolsRead(t, a / 4, a % 4 * 16, 0, 0, true);
  }

  lemma Write2ReadsBack(t: Alphabet, a: Byte, b: Byte)
    requires t.Good()
    ensures ReadGroup(t, Write2(t, a, b), true) == Some([a, b])
  {
    SextetsJoin(a, b, 0);
    SymbolsRead(t, a / 4, a % 4 * 16 + b / 16, b % 16 * 4, 0, true);
  }

  lemma Write3ReadsBack(t: Alphabet, a: Byte, b: Byte, c: Byte, last: bool)
    requires t.Good()
    ensures ReadGroup(t, Write3(t, a, b, c), last) == Some([a, b, c])
  {
    SextetsJoin(a, b, c);
    SymbolsRead(t, a / 4, a % 4 * 16 + b / 16, b % 16 * 4 + c / 64, c % 64, last);
  }

  lemma FirstGroup(t: Alphabet, g: string, last: bool, rest: string)
    requires |g| == 4 && last == (rest == []) && ReadGroup(t, g, last).Some? && DecodeWith(t, rest).Some?
    ensures DecodeWith(t, g + rest) == Some(ReadGroup(t, g, last).value + DecodeWith(t, rest).value)
  {
    assert (g + rest)[..4] == g && (g + rest)[4..] == rest;
  }

  /** A short end: one group, padded. */
  lemma LastGroup(t: Alphabet, g: string, s: Bytes)
    requires |g| == 4 && ReadGroup(t, g, true) == Some(s)
    ensures DecodeWith(t, g) == Some(s)
  {
    FirstGroup(t, g, true, []);
    assert g + [] == g && s + [] == s;
  }

  lemma ShortRoundTrip(t: Alphabet, s: Bytes)
    requires t.Good() && 0 < |s| < 3
    ensures DecodeWith(t, EncodeWith(t, s)) == Some(s)
  {
    if |s| == 1 {
      Write1ReadsBack(t, s[0]);
      assert s == [s[0]];
    } else {
      Write2ReadsBack(t, s[0], s[1]);
      assert s == [s[0], s[1]];
    }
    LastGroup(t, EncodeWith(t, s), s);
  }

  lemma LongRoundTrip(t: Alphabet, s: Bytes)
    requires t.Good() && |s| >= 3 && DecodeWith(t, EncodeWith(t, s[3..])) == Some(s[3..])
    ensures DecodeWith(t, EncodeWith(t, s)) == Some(s)
  {
    var rest := EncodeWith(t, s[3..]);
    Write3ReadsBack(t, s[0], s[1], s[2], rest == []);
    FirstGroup(t, Write3(t, s[0], s[1], s[2]), rest == [], rest);
    assert s == [s[0], s[1], s[2]] + s[3..];
  }

  lemma {:induction false} RoundTripWith(t: Alphabet, s: Bytes)
    requires t.Good()
    ensures DecodeWith(t, EncodeWith(t, s)) == Some(s)
  {
    if |s| >= 3 {
      RoundTripWith(t, s[3..]);
      LongRoundTrip(t, s);
    } else if |s| > 0 {
      ShortRoundTrip(t, s);
    }
  }

  lemma {:induction false} EncodeUses(t: Alphabet, s: Bytes, c: char)
    requires c in EncodeWith(t, s)
    ensures c == '=' || exists v: Sextet :: c == t.symbol(v)
  {
    if |s| > 2 && c in EncodeWith(t, s[3..]) {
      EncodeUses(t, s[3..], c);
    }
  }

  // ---------------------------------------------------------------- the standard alphabet

  function Symbol(v: Sextet): char {
    if v < 26 then ('A' as int + v) as char
    else if v < 52 then ('a' as int + v - 26) as char
    else if v < 62 then ('0' as int + v - 52) as char
    else if v == 62 then '+' else '/'
  }

  function SymbolValue(c: char): Option<Sextet> {
    if 'A' <= c <= 'Z' then Some(c as int - 'A' as int)
    else if 'a' <= c <= 'z' then Some(c as int - 'a' as int + 26)
    else if '0' <= c <= '9' then Some(c as int - '0' as int + 52)
    else if c == '+' then Some(62)
    else if c == '/' then Some(63)
    else None
  }

  const STANDARD := Alphabet(Symbol, SymbolValue)

  function Encode(s: Bytes): string { EncodeWith(STANDARD, s) }

  function Decode(t: string): Option<Bytes> { DecodeWith(STANDARD, t) }

  /** What is encoded decodes to itself. */
  lemma RoundTrip(s: Bytes)
    ensures Decode(Encode(s)) == Some(s)
  {
    RoundTripWith(STANDARD, s);
  }

  predicate InAlphabet(c: char) { SymbolValue(c).Some? }

  /** Encoded text uses the alphabet and padding only. */
  lemma EncodeAlphabet(s: Bytes)
    ensures forall c | c in Encode(s) :: InAlphabet(c) || c == '='
  {
    forall c | c in Encode(s) ensures InAlphabet(c) || c == '=' { EncodeUses(STANDARD, s, c); }
  }

  /** The standard alphabet (table 1 of RFC 4648). */
  lemma SymbolsAre(v: Sextet)
    ensures v < 26 ==> Symbol(v) as int == 65 + v
    ensures 26 <= v < 52 ==> Symbol(v) as int == 97 + (v - 26)
    ensures 52 <= v < 62 ==> Symbol(v) as int == 48 + (v - 52)
    ensures v == 62 ==> Symbol(v) == '+'
    ensures v == 63 ==> Symbol(v) == '/'
  {
  }

  /** Three bytes are one number of 24 bits, which the four symbols give six bits at a time, the highest first. */
  lemma GroupBits(a: Byte, b: Byte, c: Byte) returns (w: Sextet, x: Sextet, y: Sextet, z: Sextet)
    ensures Encode([a, b, c]) == [Symbol(w), Symbol(x), Symbol(y), Symbol(z)]
    ensures ((w * 64 + x) * 64 + y) * 64 + z == a as int * 65536 + b as int * 256 + c as int
  {
    var i: int, j: int, k: int := a, b, c;
    w, x, y, z := i / 4, i % 4 * 16 + j / 16, j % 16 * 4 + k / 64, k % 64;
    var s: Bytes := [a, b, c];
    assert s[3..] == [] && EncodeWith(STANDARD, s[3..]) == [];
    assert Encode(s) == Write3(STANDARD, a, b, c) + [];
    assert i == 4 * (i / 4) + i % 4 && j == 16 * (j / 16) + j % 16 && k == 64 * (k / 64) + k % 64;
  }

  /** What a group of four decodes to: whole bytes; bits left over before padding are dropped, whatever they are. */
  lemma GroupsDecode(w: Sextet, x: Sextet, y: Sextet, z: Sextet)
    ensures Decode([Symbol(w), Symbol(x), '=', '=']) == Some([(w * 64 + x) / 16])
    ensures Decode([Symbol(w), Symbol(x), Symbol(y), '=']) == Some([(w * 64 + x) / 16, (x * 64 + y) / 4 % 256])
    ensures Decode([Symbol(w), Symbol(x), Symbol(y), Symbol(z)]) ==
            Some([(w * 64 + x) / 16, (x * 64 + y) / 4 % 256, (y * 64 + z) % 256])
  {
    SextetBits(w, x, y, z);
    GroupReads(w, x, y, z);
    OneGroup([Symbol(w), Symbol(x), '=', '=']);
    OneGroup([Symbol(w), Symbol(x), Symbol(y), '=']);
    OneGroup([Symbol(w), Symbol(x), Symbol(y), Symbol(z)]);
  }

  lemma GroupReads(w: Sextet, x: Sextet, y: Sextet, z: Sextet)
    ensures ReadGroup(STANDARD, [Symbol(w), Symbol(x), '=', '='], true) == Some([First(w, x)])
    ensures ReadGroup(STANDARD, [Symbol(w), Symbol(x), Symbol(y), '='], true) == Some([First(w, x), Second(x, y)])
    ensures ReadGroup(STANDARD, [Symbol(w), Symbol(x), Symbol(y), Symbol(z)], true) == Some([First(w, x), Second(x, y), Third(y, z)])
  {
    StandardIsGood();
    SymbolsRead(STANDARD, w, x, y, z, true);
  }

  lemma StandardIsGood()
    ensures STANDARD.Good()
  {
  }

  lemma SextetBits(w: int, x: int, y: int, z: int)
    requires 0 <= w < 64 && 0 <= x < 64 && 0 <= y < 64 && 0 <= z < 64
    ensures First(w, x) as int == (w * 64 + x) / 16
    ensures Second(x, y) as int == (x * 64 + y) / 4 % 256
    ensures Third(y, z) as int == (y * 64 + z) % 256
  {
    SecondBits(x, y);
    ThirdBits(y, z);
  }

  lemma SecondBits(x: int, y: int)
    requires 0 <= x < 64 && 0 <= y < 64
    ensures Second(x, y) as int == (x * 64 + y) / 4 % 256
  {
    assert (x * 64 + y) / 4 == x * 16 + y / 4 && x == x / 16 * 16 + x % 16;
  }

  lemma ThirdBits(y: int, z: int)
    requires 0 <= y < 64 && 0 <= z < 64
    ensures Third(y, z) as int == (y * 64 + z) % 256
  {
    assert y == y / 4 * 4 + y % 4;
  }

  lemma OneGroup(g: string)
    requires |g| == 4
    ensures Decode(g) == ReadGroup(STANDARD, g, true)
  {
    assert g[..4] == g && g[4..] == [] && DecodeWith(STANDARD, g[4..]) == Some([]);
    var r := ReadGroup(STANDARD, g, true);
    if r.Some? { assert r.value + [] == r.value; }
  }

  /** Decoding takes whole groups of four, and characters of the alphabet and padding only. */
  lemma {:induction false} DecodableShape(t: string)
    requires Decode(t).Some?
    ensures |t| % 4 == 0 && forall i | 0 <= i < |t| :: InAlphabet(t[i]) || t[i] == '='
    decreases |t|
  {
    if t != [] {
      DecodableShape(t[4..]);
      forall i | 0 <= i < |t| ensures InAlphabet(t[i]) || t[i] == '=' {
        if i >= 4 { assert t[i] == t[4..][i - 4]; } else { assert t[i] == t[..4][i]; }
      }
    }
  }
}
