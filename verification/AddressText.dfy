/**
 Reading IP addresses in the dashboard (dashboard/lib/ipAllowlist.ts): dotted quads, and IPv6 text in the three
 forms of section 2.2 of RFC 4291.
*/
module AddressText {
  import opened Outcomes
  import opened Octets
  import opened Decimal
  import opened Hexadecimal
  import opened Texts

  /** A 16-bit group of an IPv6 address. */
  type Group = g: int | 0 <= g < 0x1_0000

  // ---------------------------------------------------------------- dotted quads

  predicate IsOctetText(t: string) { 1 <= |t| <= 3 && forall c | c in t :: IsDigit(c) }

  function Octet(t: string): (r: Option<Byte>)
  {
    if IsOctetText(t) && 0 <= DigitsValue(t) <= 255 then Some(DigitsValue(t)) else None
  }

  /** Four decimal octets of one to three digits. */
  function V4Bytes(address: string): (r: Option<Bytes>)
    ensures r.Some? ==> |r.value| == 4 && '.' in address && ':' !in address && '/' !in address
  {
    var parts := Split(address, '.');
    if |parts| != 4 || Octet(parts[0]).None? || Octet(parts[1]).None? || Octet(parts[2]).None? || Octet(parts[3]).None? then None
    else
      V4Characters(address);
      Some([Octet(parts[0]).value, Octet(parts[1]).value, Octet(parts[2]).value, Octet(parts[3]).value])
  }

  lemma V4Characters(address: string)
    requires var parts := Split(address, '.'); |parts| == 4 && forall i | 0 <= i < 4 :: IsOctetText(parts[i])
    ensures '.' in address && ':' !in address && '/' !in address
  {
    var parts := Split(address, '.');
    JoinSplit(address, '.');
    JoinCharacters(parts, '.');
    assert '.' !in address ==> parts == [address] by { if '.' !in address { SplitNone(address, '.'); } }
    forall i | 0 <= i < 4 ensures ':' !in parts[i] && '/' !in parts[i] { assert IsOctetText(parts[i]); }
  }

  /** A joined text holds the characters of its parts and the separator. */
  lemma {:induction false} JoinCharacters(parts: seq<string>, sep: char)
    ensures forall c | c in Join(parts, sep) :: c == sep || exists i | 0 <= i < |parts| :: c in parts[i]
  {
    if |parts| > 1 {
      JoinCharacters(parts[1..], sep);
      forall c | c in Join(parts, sep) && c != sep ensures exists i | 0 <= i < |parts| :: c in parts[i] {
        if c !in parts[0] {
          var i :| 0 <= i < |parts[1..]| && c in parts[1..][i];
          assert c in parts[i + 1];
        }
      }
    }
  }

  /** Four numbers of one to three digits, none above 255, joined by dots. */
  ghost predicate IsQuad(address: string, bytes: Bytes) {
    exists parts :: IsQuadOf(address, bytes, parts)
  }

  predicate IsQuadOf(address: string, bytes: Bytes, parts: seq<string>) {
    && |parts| == |bytes| == 4 && address == Join(parts, '.')
    && forall i | 0 <= i < 4 ::
         1 <= |parts[i]| <= 3 && (forall k | 0 <= k < |parts[i]| :: '0' <= parts[i][k] <= '9') && DigitsValue(parts[i]) == bytes[i] as int
  }

  /** Dotted quads are exactly these texts, with exactly this meaning. */
  lemma QuadExactly(address: string, bytes: Bytes)
    ensures V4Bytes(address) == Some(bytes) <==> IsQuad(address, bytes)
  {
    if V4Bytes(address) == Some(bytes) {
      var parts := Split(address, '.');
      JoinSplit(address, '.');
      forall i | 0 <= i < 4 ensures forall k | 0 <= k < |parts[i]| :: '0' <= parts[i][k] <= '9' {
        assert forall k | 0 <= k < |parts[i]| :: parts[i][k] in parts[i];
      }
      assert IsQuadOf(address, bytes, parts);
    }
    if parts :| IsQuadOf(address, bytes, parts) {
      SplitJoin(parts, '.');
      forall i | 0 <= i < 4 ensures Octet(parts[i]) == Some(bytes[i]) {}
      assert bytes == [bytes[0], bytes[1], bytes[2], bytes[3]];
    }
  }

  method ReadV4(address: string) returns (r: Option<Bytes>)
    ensures r == V4Bytes(address)
  {
    var parts := Split(address, '.');
    if |parts| != 4 || !IsOctetText(parts[0]) || !IsOctetText(parts[1]) || !IsOctetText(parts[2]) || !IsOctetText(parts[3]) {
      return None;
    }
    var bytes: Bytes := [];
    for i := 0 to 4
      invariant |bytes| == i && forall k | 0 <= k < i :: Octet(parts[k]) == Some(bytes[k])
    {
      DigitsAreNatural(parts[i]);
      var octet := DigitsValue(parts[i]);
      if octet > 255 { return None; }
      bytes := bytes + [octet];
    }
    assert bytes == [bytes[0], bytes[1], bytes[2], bytes[3]];
    return Some(bytes);
  }

  lemma {:induction false} DigitsAreNatural(t: string)
    requires forall c | c in t :: IsDigit(c)
    ensures DigitsValue(t) >= 0
  {
    if t != [] {
      DigitsAreNatural(t[..|t| - 1]);
      assert t[|t| - 1] in t;
    }
  }

  /** A dotted quad as it is printed. */
  function QuadText(a: Byte, b: Byte, c: Byte, d: Byte): string { Join([Digits(a), Digits(b), Digits(c), Digits(d)], '.') }

  lemma OctetReadsBack(n: Byte)
    ensures Octet(Digits(n)) == Some(n) && '.' !in Digits(n)
  {
    DigitsRoundTrip(n);
    assert n >= 10 ==> |Digits(n)| == |Digits(n / 10)| + 1;
    assert n >= 100 ==> |Digits(n / 10)| == |Digits(n / 10 / 10)| + 1;
  }

  /** Every address reads back from its dotted quad. */
  lemma QuadReadsBack(a: Byte, b: Byte, c: Byte, d: Byte)
    ensures V4Bytes(QuadText(a, b, c, d)) == Some([a, b, c, d])
  {
    OctetReadsBack(a);
    OctetReadsBack(b);
    OctetReadsBack(c);
    OctetReadsBack(d);
    SplitJoin([Digits(a), Digits(b), Digits(c), Digits(d)], '.');
  }

  // ---------------------------------------------------------------- hexadecimal groups

  predicate IsGroupText(t: string) { 1 <= |t| <= 4 && forall i | 0 <= i < |t| :: IsHexDigit(t[i]) }

  function HexValue(t: string): (v: nat)
    requires forall i | 0 <= i < |t| :: IsHexDigit(t[i])
    ensures |t| == 1 ==> v < 16
    ensures |t| == 2 ==> v < 256
    ensures |t| == 3 ==> v < 4096
    ensures |t| == 4 ==> v < 65536
  {
    if t == [] then 0 else HexValue(t[..|t| - 1]) * 16 + HexDigitValue(t[|t| - 1])
  }

  function GroupValue(t: string): Group
    requires IsGroupText(t)
  {
    HexValue(t)
  }

  /** n.toString(16). */
  function HexText(n: nat): (t: string)
    ensures t != [] && forall i | 0 <= i < |t| :: IsHexDigit(t[i])
  {
    if n < 16 then [HexDigit(n)] else HexText(n / 16) + [HexDigit(n % 16)]
  }

  lemma {:induction false} HexRoundTrip(n: nat)
    ensures HexValue(HexText(n)) == n
  {
    if n >= 16 {
      HexRoundTrip(n / 16);
      assert HexText(n)[..|HexText(n)| - 1] == HexText(n / 16);
    } else {
      assert HexText(n)[..0] == [];
    }
  }

  lemma GroupTextRoundTrip(n: Group)
    ensures IsGroupText(HexText(n)) && GroupValue(HexText(n)) == n
  {
    HexRoundTrip(n);
    assert n / 16 < 4096 && n / 16 / 16 < 256 && n / 16 / 16 / 16 < 16;
    assert n >= 16 ==> |HexText(n)| == |HexText(n / 16)| + 1;
    assert n / 16 >= 16 ==> |HexText(n / 16)| == |HexText(n / 16 / 16)| + 1;
    assert n / 16 / 16 >= 16 ==> |HexText(n / 16 / 16)| == |HexText(n / 16 / 16 / 16)| + 1;
  }

  function GroupBytes(g: Group): Bytes { [g / 256, g % 256] }

  function BytesOf(gs: seq<Group>): (r: Bytes)
    ensures |r| == 2 * |gs|
  {
    if gs == [] then [] else BytesOf(gs[..|gs| - 1]) + GroupBytes(gs[|gs| - 1])
  }

  predicate AllGroups(ts: seq<string>) { forall i | 0 <= i < |ts| :: IsGroupText(ts[i]) }

  function Values(ts: seq<string>): (r: seq<Group>)
    requires AllGroups(ts)
    ensures |r| == |ts| && forall i | 0 <= i < |ts| :: r[i] == GroupValue(ts[i])
  {
    if ts == [] then [] else Values(ts[..|ts| - 1]) + [GroupValue(ts[|ts| - 1])]
  }

  // ---------------------------------------------------------------- IPv6 text

  /** address.split("::"). */
  function SplitDouble(s: string): (r: seq<string>)
    ensures |r| >= 1
  {
    if |s| < 2 then [s]
    else if s[0] == ':' && s[1] == ':' then [[]] + SplitDouble(s[2..])
    else
      var rest := SplitDouble(s[1..]);
      [[s[0]] + rest[0]] + rest[1..]
  }

  function Groups(part: string): seq<string> { if part == [] then [] else Split(part, ':') }

  function Pair(high: Byte, low: Byte): Group { var h: int := high; h * 256 + low }

  /** A dotted quad in last place stands for two groups. */
  function Expand(groups: seq<string>): Option<seq<string>> {
    if groups == [] || '.' !in groups[|groups| - 1] then Some(groups)
    else
      var v4 := V4Bytes(groups[|groups| - 1]);
      if v4.None? then None
      else Some(groups[..|groups| - 1] + [HexText(Pair(v4.value[0], v4.value[1])), HexText(Pair(v4.value[2], v4.value[3]))])
  }

  function Zeros(n: nat): (r: seq<string>)
    ensures |r| == n && forall i | 0 <= i < n :: r[i] == "0"
  {
    if n == 0 then [] else Zeros(n - 1) + ["0"]
  }

  /** The eight group texts, with the gap filled. */
  function EightGroups(address: string): Option<seq<string>> {
    var halves := SplitDouble(address);
    if |halves| > 2 then None
    else if |halves| == 1 then
      var head := Expand(Groups(halves[0]));
      if head.None? || |head.value| != 8 then None else head
    else
      var head, tail := Groups(halves[0]), Expand(Groups(halves[1]));
      if tail.None? || |head| + |tail.value| > 8 then None
      else Some(head + Zeros(8 - |head| - |tail.value|) + tail.value)
  }

  function AllBytes(full: seq<string>): Option<Bytes> {
    if AllGroups(full) then Some(BytesOf(Values(full))) else None
  }

  function V6Bytes(address: string): Option<Bytes> {
    var full := EightGroups(address);
    if full.None? then None else AllBytes(full.value)
  }

  method ReadV6(address: string) returns (r: Option<Bytes>)
    ensures r == V6Bytes(address)
  {
    var halves := SplitDouble(address);
    if |halves| > 2 { return None; }
    var head := Groups(halves[0]);
    var tail := if |halves| == 2 then Groups(halves[1]) else [];
    var expanded := Expand(if |halves| == 2 then tail else head);
    if expanded.None? { return None; }
    if |halves| == 2 { tail := expanded.value; } else { head := expanded.value; }
    var missing := 8 - (|head| + |tail|);
    if if |halves| == 1 then missing != 0 else missing < 0 { return None; }
    var full := head + Zeros(missing) + tail;
    assert |halves| == 1 ==> full == head;
    r := ReadGroups(full);
  }

  /** The loop that turns group texts into bytes, stopping at the first that is not a group. */
  method ReadGroups(full: seq<string>) returns (r: Option<Bytes>)
    ensures r == AllBytes(full)
  {
    var bytes: Bytes := [];
    for i := 0 to |full|
      invariant AllGroups(full[..i]) && bytes == BytesOf(Values(full[..i]))
    {
      if !IsGroupText(full[i]) { return None; }
      OneMoreGroup(full, i);
      var value: int := GroupValue(full[i]);
      bytes := bytes + [value / 256, value % 256];
    }
    assert full[..|full|] == full;
    return Some(bytes);
  }

  lemma OneMoreGroup(full: seq<string>, i: nat)
    requires i < |full| && AllGroups(full[..i]) && IsGroupText(full[i])
    ensures AllGroups(full[..i + 1])
    ensures BytesOf(Values(full[..i + 1])) == BytesOf(Values(full[..i])) + GroupBytes(GroupValue(full[i]))
  {
    assert full[..i + 1][..i] == full[..i];
    BytesAppend(Values(full[..i]), GroupValue(full[i]));
  }

  lemma BytesAppend(gs: seq<Group>, g: Group)
    ensures BytesOf(gs + [g]) == BytesOf(gs) + GroupBytes(g)
  {
    assert (gs + [g])[..|gs|] == gs;
  }

  /** Groups in network order, each by its high byte and then its low byte. */
  lemma {:induction false} BytesOfAt(gs: seq<Group>, k: nat)
    requires k < |gs|
    ensures var high: int, low: int := BytesOf(gs)[2 * k], BytesOf(gs)[2 * k + 1]; high * 256 + low == gs[k]
  {
    var n := |gs| - 1;
    if k < n {
      BytesOfAt(gs[..n], k);
    } else {
      var g: int := gs[n];
      assert g == g / 256 * 256 + g % 256;
    }
  }
}
