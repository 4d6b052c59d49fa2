/**
 Whether an allowlist entry admits an address, as the dashboard decides it (dashboard/lib/ipAllowlist.ts): byte by
 byte under a mask, against the same question about whole 32-bit or 128-bit numbers.
*/
module NetworkCoverage {
  import opened Outcomes
  import opened Arithmetic
  import opened Octets
  import opened Bits
  import opened Decimal
  import opened Texts
  import opened AddressText
  import opened AddressForms
  import opened Sequences

  // ---------------------------------------------------------------- numbers

  /** The bytes as one number, most significant first. */
  function Number(s: Bytes): (r: nat)
    ensures r < Pow2(8 * |s|)
  {
    if s == [] then 0 else WithHighByte(s[0], Number(s[1..]), 8 * |s[1..]|)
  }

  function WithHighByte(high: Byte, rest: nat, n: nat): (r: nat)
    requires rest < Pow2(n)
    ensures r < Pow2(8 + n)
  {
    HighByteFits(high, rest, n);
    var h: int := high;
    h * Pow2(n) + rest
  }

  lemma HighByteFits(high: nat, rest: nat, n: nat)
    requires high < 256 && rest < Pow2(n)
    ensures high * Pow2(n) + rest < Pow2(8 + n)
  {
    Pow2Adds(8, n);
    assert Pow2(8) == 256 by { assert Pow2(4) == 16; Pow2Adds(4, 4); }
    assert high * Pow2(n) <= 255 * Pow2(n);
  }

  /** Both addresses are equally wide and agree on their top `prefix` bits. */
  ghost predicate TopBitsAgree(net: Bytes, addr: Bytes, prefix: nat) {
    && |net| == |addr| && prefix <= 8 * |net|
    && Number(net) / Pow2(8 * |net| - prefix) == Number(addr) / Pow2(8 * |net| - prefix)
  }

  /** How many bits of byte `i` the prefix covers. */
  function BitsAt(prefix: int, i: int): (r: int)
    ensures 0 <= r <= 8
  {
    Min(8, Max(0, prefix - i * 8))
  }

  predicate ByteAgrees(x: Byte, y: Byte, bits: int)
    requires 0 <= bits <= 8
  {
    x / Pow2(8 - bits) == y / Pow2(8 - bits)
  }

  predicate BytesAgree(net: Bytes, addr: Bytes, prefix: int)
    requires |net| == |addr|
  {
    forall i | 0 <= i < |net| :: ByteAgrees(net[i], addr[i], BitsAt(prefix, i))
  }

  // ---------------------------------------------------------------- byte by byte is all at once

  /** A prefix within the first byte: the numbers agree exactly when the first bytes do. */
  lemma ShortPrefix(a: Byte, v: nat, b: Byte, w: nat, n: nat, prefix: nat)
    requires prefix <= 8 && v < Pow2(n) && w < Pow2(n)
    ensures var x: int := a; var y: int := b;
            (x * Pow2(n) + v) / Pow2(8 + n - prefix) == (y * Pow2(n) + w) / Pow2(8 + n - prefix) <==>
            ByteAgrees(a, b, prefix)
  {
    var x: int, y: int := a, b;
    Pow2Adds(n, 8 - prefix);
    HighQuotient(x, v, n, Pow2(8 - prefix));
    HighQuotient(y, w, n, Pow2(8 - prefix));
  }

  /** A longer prefix: the first bytes are equal, and the rest agree on what is left of the prefix. */
  lemma LongPrefix(a: Byte, v: nat, b: Byte, w: nat, n: nat, prefix: nat)
    requires 8 <= prefix <= 8 + n && v < Pow2(n) && w < Pow2(n)
    ensures var x: int := a; var y: int := b;
            (x * Pow2(n) + v) / Pow2(8 + n - prefix) == (y * Pow2(n) + w) / Pow2(8 + n - prefix) <==>
            a == b && v / Pow2(8 + n - prefix) == w / Pow2(8 + n - prefix)
  {
    var x: int, y: int := a, b;
    var m, d := Pow2(prefix - 8), Pow2(8 + n - prefix);
    Pow2Adds(prefix - 8, 8 + n - prefix);
    LowQuotient(x, v, m, d);
    LowQuotient(y, w, m, d);
    SameParts(x, y, m, v / d, w / d);
  }

  lemma LaterBits(prefix: int, i: int)
    ensures BitsAt(prefix, i + 1) == BitsAt(prefix - 8, i)
  {
  }

  lemma ZeroBitsAgree(x: Byte, y: Byte)
    ensures ByteAgrees(x, y, 0) && (ByteAgrees(x, y, 8) <==> x == y)
  {
    assert Pow2(8) == 256 by { assert Pow2(4) == 16; Pow2Adds(4, 4); }
  }

  /** Splitting off the first byte. */
  lemma FirstByte(net: Bytes, addr: Bytes, prefix: nat)
    requires |net| == |addr| && net != []
    ensures BytesAgree(net, addr, prefix) <==>
            ByteAgrees(net[0], addr[0], Min(8, prefix)) && BytesAgree(net[1..], addr[1..], prefix - 8)
  {
    forall i | 0 <= i < |net| - 1
      ensures ByteAgrees(net[1..][i], addr[1..][i], BitsAt(prefix - 8, i)) <==> ByteAgrees(net[i + 1], addr[i + 1], BitsAt(prefix, i + 1))
    {
      LaterBits(prefix, i);
    }
    if ByteAgrees(net[0], addr[0], Min(8, prefix)) && BytesAgree(net[1..], addr[1..], prefix - 8) {
      forall i | 0 <= i < |net| ensures ByteAgrees(net[i], addr[i], BitsAt(prefix, i)) {
        if i > 0 { assert ByteAgrees(net[1..][i - 1], addr[1..][i - 1], BitsAt(prefix - 8, i - 1)); }
      }
    }
  }

  lemma NothingLeft(net: Bytes, addr: Bytes, prefix: int)
    requires |net| == |addr| && prefix <= 0
    ensures BytesAgree(net, addr, prefix)
  {
    forall i | 0 <= i < |net| ensures ByteAgrees(net[i], addr[i], BitsAt(prefix, i)) {
      ZeroBitsAgree(net[i], addr[i]);
    }
  }

  lemma TopBitsShort(net: Bytes, addr: Bytes, prefix: nat)
    requires |net| == |addr| && net != [] && prefix < 8
    ensures TopBitsAgree(net, addr, prefix) <==> ByteAgrees(net[0], addr[0], prefix)
  {
    ShortPrefix(net[0], Number(net[1..]), addr[0], Number(addr[1..]), 8 * |net[1..]|, prefix);
  }

  lemma TopBitsLong(net: Bytes, addr: Bytes, prefix: nat)
    requires |net| == |addr| && net != [] && 8 <= prefix <= 8 * |net|
    ensures TopBitsAgree(net, addr, prefix) <==> net[0] == addr[0] && TopBitsAgree(net[1..], addr[1..], prefix - 8)
  {
    LongPrefix(net[0], Number(net[1..]), addr[0], Number(addr[1..]), 8 * |net[1..]|, prefix);
  }

  /** The bytes agree under the masks exactly when the numbers agree on their top bits. */
  lemma {:induction false} BytesAgreeIsTopBits(net: Bytes, addr: Bytes, prefix: nat)
    requires |net| == |addr| && prefix <= 8 * |net|
    ensures BytesAgree(net, addr, prefix) <==> TopBitsAgree(net, addr, prefix)
  {
    if net != [] {
      FirstByte(net, addr, prefix);
      if prefix < 8 {
        NothingLeft(net[1..], addr[1..], prefix - 8);
        TopBitsShort(net, addr, prefix);
      } else {
        BytesAgreeIsTopBits(net[1..], addr[1..], prefix - 8);
        TopBitsLong(net, addr, prefix);
        ZeroBitsAgree(net[0], addr[0]);
      }
    }
  }

  // ---------------------------------------------------------------- the mask loop

  /** (0xff << k) & 0xff. */
  function ByteMask(k: nat): nat { And(255 * Pow2(k), 255) }

  /** A mask of `n` ones keeps the remainder. */
  lemma {:induction false} AndLow(x: nat, q: nat, r: nat, n: nat)
    requires x == q * Pow2(n) + r && r < Pow2(n)
    ensures And(x, Pow2(n) - 1) == r
  {
    if n > 0 {
      var p := Pow2(n - 1);
      assert x == 2 * (q * p) + r;
      AndLow(x / 2, q, r / 2, n - 1);
      AndOdd(x, p - 1);
    }
  }

  lemma AndOdd(x: nat, m: nat)
    ensures And(x, 2 * m + 1) == 2 * And(x / 2, m) + x % 2
  {
    assert (2 * m + 1) / 2 == m && (2 * m + 1) % 2 == 1;
  }

  /** The shifted, truncated byte is a mask of ones above `k` zeros. */
  lemma ByteMaskIsMask(k: nat)
    requires k <= 8
    ensures ByteMask(k) == Mask(8, k)
  {
    assert Pow2(8) == 256 by { assert Pow2(4) == 16; Pow2Adds(4, 4); }
    assert Mask(8, k) == 256 - Pow2(k);
    AndLow(255 * Pow2(k), Pow2(k) - 1, 256 - Pow2(k), 8);
  }

  lemma MaskedByte(x: Byte, k: nat)
    requires k <= 8
    ensures And(x, ByteMask(k)) == x / Pow2(k) * Pow2(k)
  {
    assert Pow2(8) == 256 by { assert Pow2(4) == 16; Pow2Adds(4, 4); }
    ByteMaskIsMask(k);
    AndMask(x, 8, k);
  }

  /** Masked bytes are equal exactly when their top bits are. */
  lemma MaskedEqual(x: Byte, y: Byte, bits: int)
    requires 0 <= bits <= 8
    ensures And(x, ByteMask(8 - bits)) == And(y, ByteMask(8 - bits)) <==> ByteAgrees(x, y, bits)
  {
    MaskedByte(x, 8 - bits);
    MaskedByte(y, 8 - bits);
    EqualMasked(x, y, ByteMask(8 - bits), Pow2(8 - bits));
  }

  lemma EqualMasked(x: nat, y: nat, mask: nat, d: nat)
    requires d > 0 && And(x, mask) == x / d * d && And(y, mask) == y / d * d
    ensures And(x, mask) == And(y, mask) <==> x / d == y / d
  {
    SameMultiple(x / d, y / d, d);
  }

  /** The loop of entryCovers. */
  method MaskLoop(net: Bytes, addr: Bytes, prefix: nat) returns (same: bool)
    requires |net| == |addr| && prefix <= 8 * |net|
    ensures same <==> TopBitsAgree(net, addr, prefix)
  {
    BytesAgreeIsTopBits(net, addr, prefix);
    for i := 0 to |net|
      invariant forall j | 0 <= j < i :: ByteAgrees(net[j], addr[j], BitsAt(prefix, j))
    {
      var bits := BitsAt(prefix, i);
      if bits == 0 {
        RestAgrees(net, addr, prefix, i);
        return true;
      }
      var mask := ByteMask(8 - bits);
      MaskedEqual(net[i], addr[i], bits);
      if And(net[i], mask) != And(addr[i], mask) {
        return false;
      }
    }
    return true;
  }

  lemma RestAgrees(net: Bytes, addr: Bytes, prefix: nat, i: nat)
    requires |net| == |addr| && i < |net| && BitsAt(prefix, i) == 0
    requires forall j | 0 <= j < i :: ByteAgrees(net[j], addr[j], BitsAt(prefix, j))
    ensures BytesAgree(net, addr, prefix)
  {
    forall j | 0 <= j < |net| ensures ByteAgrees(net[j], addr[j], BitsAt(prefix, j)) {
      if j >= i { ZeroBitsAgree(net[j], addr[j]); }
    }
  }

  // ---------------------------------------------------------------- entries

  /** Four bytes, sixteen bytes, or nothing. */
  function ToBytes(address: string): Option<Bytes> {
    if ':' in address then V6Bytes(address) else V4Bytes(address)
  }

  /** What can be read at all: dotted quads as four bytes, and the IPv6 forms, which all have a colon, as sixteen. */
  lemma ToBytesExactly(address: string, bytes: Bytes)
    ensures ToBytes(address) == Some(bytes) <==> IsQuad(address, bytes) || Denotes(address, bytes)
  {
    QuadExactly(address, bytes);
    ReadsExactly(address, bytes);
    if Denotes(address, bytes) { FormsHaveColons(address, bytes); }
  }

  predicate IsNumber(t: string) { t != [] && forall c | c in t :: IsDigit(c) }

  /** An entry's network and prefix length: the whole width when none is written. */
  function ReadEntry(entry: string): Option<(Bytes, nat)> {
    var parts := Split(entry, '/');
    if |parts| > 2 || ToBytes(parts[0]).None? then None
    else
      var net := ToBytes(parts[0]).value;
      if |parts| == 1 then Some((net, 8 * |net|))
      else if !IsNumber(parts[1]) || DigitsValue(parts[1]) < 0 || DigitsValue(parts[1]) > 8 * |net| then None
      else Some((net, DigitsValue(parts[1])))
  }

  /** The entry admits the address: both can be read, and they agree on the entry's prefix. */
  ghost predicate Covers(entry: string, address: string) {
    && ReadEntry(entry).Some? && ToBytes(address).Some?
    && TopBitsAgree(ReadEntry(entry).value.0, ToBytes(address).value, ReadEntry(entry).value.1)
  }

  method EntryCovers(entry: string, address: string) returns (r: bool)
    ensures r <==> Covers(entry, address)
  {
    var parts := Split(entry, '/');
    if |parts| > 2 { return false; }
    var net, addr := ToBytes(parts[0]), ToBytes(address);
    if net.None? || addr.None? || |net.value| != |addr.value| { return false; }
    var width := |net.value| * 8;
    if |parts| == 2 && !IsNumber(parts[1]) { return false; }
    if |parts| == 2 { DigitsAreNatural(parts[1]); }
    var prefix := if |parts| == 2 then DigitsValue(parts[1]) else width;
    if prefix > width { return false; }
    r := MaskLoop(net.value, addr.value, prefix);
  }

  // ---------------------------------------------------------------- what the operator is told

  /** The narrowest entry for an address. */
  function SuggestEntry(address: string): string {
    address + ['/'] + if ':' in address then "128" else "32"
  }

  lemma Widths()
    ensures DigitsValue("128") == 128 && DigitsValue("32") == 32 && IsNumber("128") && IsNumber("32")
  {
    assert "128"[..2] == "12" && "12"[..1] == "1" && "1"[..0] == [] && "32"[..1] == "3" && "3"[..0] == [];
    assert DigitsValue([]) == 0 && DigitsValue("1") == 1 && DigitsValue("12") == 12 && DigitsValue("3") == 3;
  }

  /** A prefix as wide as the address leaves one address. */
  lemma FullPrefix(net: Bytes, addr: Bytes)
    requires |net| == |addr|
    ensures TopBitsAgree(net, addr, 8 * |net|) <==> net == addr
  {
    BytesAgreeIsTopBits(net, addr, 8 * |net|);
    forall i | 0 <= i < |net| ensures ByteAgrees(net[i], addr[i], BitsAt(8 * |net|, i)) <==> net[i] == addr[i] {
      ZeroBitsAgree(net[i], addr[i]);
    }
  }

  lemma ReadableHasNoSlash(address: string)
    requires ToBytes(address).Some?
    ensures '/' !in address && |ToBytes(address).value| == if ':' in address then 16 else 4
  {
    if ':' in address {
      NoSlash(address, ToBytes(address).value);
      ReadsExactly(address, ToBytes(address).value);
    }
  }

  lemma SuggestionReads(address: string)
    requires '/' !in address
    ensures ReadEntry(SuggestEntry(address)) ==
            if ToBytes(address).None? then None else Some((ToBytes(address).value, 8 * |ToBytes(address).value|))
  {
    var width := if ':' in address then "128" else "32";
    SplitPart(address, width, '/');
    SplitNone(width, '/');
    Widths();
    if ToBytes(address).Some? { ReadableHasNoSlash(address); }
  }

  lemma SlashedSuggestion(address: string)
    requires '/' in address
    ensures ReadEntry(SuggestEntry(address)).None?
  {
    SplitCounts(address, if ':' in address then "128" else "32", '/');
  }

  lemma {:induction false} SplitCounts(s: string, rest: string, sep: char)
    requires sep in s
    ensures |Split(s + [sep] + rest, sep)| > 2
  {
    var t := s + [sep] + rest;
    assert t[1..] == s[1..] + [sep] + rest;
    if s[0] == sep {
      SplitTwice(s[1..], rest, sep);
    } else {
      SplitCounts(s[1..], rest, sep);
    }
  }

  lemma {:induction false} SplitTwice(s: string, rest: string, sep: char)
    ensures |Split(s + [sep] + rest, sep)| >= 2
  {
    var t := s + [sep] + rest;
    if s == [] {
      assert t[1..] == rest;
    } else {
      assert t[1..] == s[1..] + [sep] + rest;
      SplitTwice(s[1..], rest, sep);
    }
  }

  /** The suggested entry admits exactly the address it was made for, however spelled. */
  lemma SuggestionIsExact(address: string, other: string)
    ensures Covers(SuggestEntry(address), other) <==> ToBytes(address).Some? && ToBytes(other) == ToBytes(address)
  {
    if '/' in address {
      SlashedSuggestion(address);
      assert ToBytes(address).None? by { if ToBytes(address).Some? { ReadableHasNoSlash(address); } }
    } else {
      SuggestionReads(address);
      if ToBytes(address).Some? && ToBytes(other).Some? && |ToBytes(address).value| == |ToBytes(other).value| {
        FullPrefix(ToBytes(address).value, ToBytes(other).value);
      }
    }
  }

  lemma NumberReads(p: nat)
    ensures IsNumber(Digits(p)) && '/' !in Digits(p) && DigitsValue(Digits(p)) == p
  {
    DigitsRoundTrip(p);
  }

  /** An entry written with a prefix admits exactly the addresses of its width that agree on that many top bits. */
  lemma WrittenPrefix(network: string, t: string, address: string)
    requires '/' !in network && '/' !in t
    ensures Covers(network + ['/'] + t, address) <==>
            && t != "" && (forall i | 0 <= i < |t| :: '0' <= t[i] <= '9')
            && ToBytes(network).Some? && ToBytes(address).Some? && 0 <= DigitsValue(t) <= 8 * |ToBytes(network).value|
            && TopBitsAgree(ToBytes(network).value, ToBytes(address).value, DigitsValue(t))
  {
    WrittenReads(network, t);
  }

  lemma WrittenReads(network: string, t: string)
    requires '/' !in network && '/' !in t
    ensures ReadEntry(network + ['/'] + t) ==
            if && ToBytes(network).Some? && t != "" && (forall i | 0 <= i < |t| :: '0' <= t[i] <= '9')
               && 0 <= DigitsValue(t) <= 8 * |ToBytes(network).value|
            then Some((ToBytes(network).value, DigitsValue(t))) else None
  {
    assert Split(network + ['/'] + t, '/') == [network, t] by {
      SplitPart(network, t, '/');
      SplitNone(t, '/');
    }
    assert IsNumber(t) <==> t != "" && (forall i | 0 <= i < |t| :: '0' <= t[i] <= '9') by {
      assert forall i | 0 <= i < |t| :: t[i] in t;
    }
  }

  /** Printed, the prefix is the number it prints. */
  lemma PrintedPrefix(network: string, p: nat, address: string)
    requires '/' !in network
    ensures Covers(network + ['/'] + Digits(p), address) <==>
            && ToBytes(network).Some? && ToBytes(address).Some? && p <= 8 * |ToBytes(network).value|
            && TopBitsAgree(ToBytes(network).value, ToBytes(address).value, p)
  {
    NumberReads(p);
    WrittenPrefix(network, Digits(p), address);
    assert forall i | 0 <= i < |Digits(p)| :: Digits(p)[i] in Digits(p);
  }

  /** An entry without a prefix admits exactly one address. */
  lemma WrittenAlone(network: string, address: string)
    requires '/' !in network
    ensures Covers(network, address) <==> ToBytes(network).Some? && ToBytes(address) == ToBytes(network)
  {
    SplitNone(network, '/');
    if ToBytes(network).Some? && ToBytes(address).Some? && |ToBytes(network).value| == |ToBytes(address).value| {
      FullPrefix(ToBytes(network).value, ToBytes(address).value);
    }
  }

  /** The number of an address: its first byte counts most. */
  lemma {:induction false} NumberAppend(s: Bytes, b: Byte)
    ensures Number(s + [b]) == Number(s) * 256 + b as int
  {
    assert Pow2(8) == 256 by { assert Pow2(4) == 16; Pow2Adds(4, 4); }
    if s == [] {
      assert [b][1..] == [] && Number([b]) == b as int * Pow2(0) + 0;
      assert s + [b] == [b];
    } else {
      var t, n := s[1..], 8 * |s[1..]|;
      NumberAppend(t, b);
      Pow2Adds(n, 8);
      assert (s + [b])[1..] == t + [b] && (s + [b])[0] == s[0];
      ShiftByte(s[0], Number(t), b, Pow2(n));
    }
  }

  lemma ShiftByte(high: nat, rest: nat, b: nat, p: nat)
    ensures high * (p * 256) + (rest * 256 + b) == (high * p + rest) * 256 + b
  {
  }

  ghost predicate CoveredBySome(entries: seq<string>, address: string) {
    exists k | 0 <= k < |entries| :: Covers(entries[k], address)
  }

  /** The addresses a list would turn away, in order; an empty list turns nothing away. */
  ghost function Uncovered(entries: seq<string>, addresses: seq<string>): seq<string> {
    if entries == [] || addresses == [] then []
    else
      var init, a := Uncovered(entries, addresses[..|addresses| - 1]), addresses[|addresses| - 1];
      if CoveredBySome(entries, a) then init else init + [a]
  }

  ghost function NoneCovers(entries: seq<string>): string -> bool {
    (address: string) => entries != [] && forall k | 0 <= k < |entries| :: !Covers(entries[k], address)
  }

  /** Exactly the addresses that no entry of a non-empty list covers, in order. */
  lemma {:induction false} UncoveredSelects(entries: seq<string>, addresses: seq<string>)
    ensures Selects(addresses, NoneCovers(entries), Uncovered(entries, addresses))
  {
    if addresses == [] {
      SelectsNone<string>(NoneCovers(entries));
    } else {
      UncoveredSelects(entries, addresses[..|addresses| - 1]);
      SelectsLast(addresses, NoneCovers(entries), Uncovered(entries, addresses[..|addresses| - 1]));
    }
  }

  /** The index of the first entry that covers the address, or the number of entries. */
  method FirstCovering(entries: seq<string>, address: string, ghost covers: string -> bool) returns (j: nat)
    requires forall e {:trigger Covers(e, address)} :: covers(e) == Covers(e, address)
    ensures j <= |entries| && (forall k | 0 <= k < j :: !covers(entries[k])) && (j < |entries| ==> covers(entries[j]))
  {
    j := 0;
    while j < |entries|
      invariant j <= |entries| && forall k | 0 <= k < j :: !covers(entries[k])
    {
      var found := EntryCovers(entries[j], address);
      if found { return; }
      j := j + 1;
    }
  }

  method UncoveredAddresses(entries: seq<string>, addresses: seq<string>) returns (out: seq<string>)
    ensures out == Uncovered(entries, addresses)
    ensures Selects(addresses, NoneCovers(entries), out)
  {
    UncoveredSelects(entries, addresses);
    out := [];
    if |entries| == 0 { return; }
    for i := 0 to |addresses|
      invariant out == Uncovered(entries, addresses[..i])
    {
      assert addresses[..i + 1][..i] == addresses[..i];
      ghost var covers := (e: string) => Covers(e, addresses[i]);
      var j := FirstCovering(entries, addresses[i], covers);
      assert j == |entries| <==> !CoveredBySome(entries, addresses[i]) by {
        assert forall k | 0 <= k < |entries| :: covers(entries[k]) == Covers(entries[k], addresses[i]);
      }
      if j == |entries| { out := out + [addresses[i]]; }
    }
    assert addresses[..|addresses|] == addresses;
  }
}
