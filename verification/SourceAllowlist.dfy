/**
 Which source addresses may use a credential (security/ip_allowlist.py).

 An address is a number of 32 or 128 bits.  Reading and printing addresses and networks is the ipaddress
 library's, and comes in as the parameters `readAddress`, `readNetwork` and `show`.
*/
module SourceAllowlist {
  import opened Outcomes
  import opened Bits
  import opened Sequences
  import opened Texts

  datatype AnyAddress = V4(n: nat) | V6(n: nat) {
    function Width(): nat { if V4? then 32 else 128 }
  }

  type Address = a: AnyAddress | a.n < Pow2(a.Width()) witness V4(0)

  /** A network: its address has no bits below the prefix. */
  datatype AnyNetwork = Network(base: Address, prefix: nat) {
    function HostBits(): nat
      requires prefix <= base.Width()
    {
      base.Width() - prefix
    }

    predicate Valid() { prefix <= base.Width() && base.n % Pow2(HostBits()) == 0 }
  }

  type Net = net: AnyNetwork | net.Valid() witness (assert 0 % Pow2(32) == 0; Network(V4(0), 0))

  const MAPPED: nat := 0xFFFF
  const MAPPED_PREFIX_BITS: nat := 96

  predicate IsMapped(a: Address) { a.V6? && a.n / Pow2(32) == MAPPED }

  function UnmapAddress(a: Address): Address { if IsMapped(a) then V4(a.n % Pow2(32)) else a }

  /** ip_network with strict=False: bits below the prefix are dropped. */
  function MakeNetwork(a: Address, prefix: nat): (net: Net)
    requires prefix <= a.Width()
    ensures net.prefix == prefix && net.base.Width() == a.Width()
  {
    var p := Pow2(a.Width() - prefix);
    var n := a.n / p * p;
    DropLow(a.n, p);
    Network(if a.V4? then V4(n) else V6(n), prefix)
  }

  lemma DropLow(n: nat, p: nat)
    requires p > 0
    ensures 0 <= n / p * p <= n && n / p * p % p == 0 && n / p * p / p == n / p
  {
    DivUnique(n / p * p, p, n / p, 0);
    assert n == n / p * p + n % p;
  }

  function UnmapNetwork(net: Net): Net {
    if !IsMapped(net.base) || net.prefix < MAPPED_PREFIX_BITS then net
    else MakeNetwork(V4(net.base.n % Pow2(32)), net.prefix - MAPPED_PREFIX_BITS)
  }

  /** `address in network`: masked to the prefix, the address is the network's. */
  predicate Contains(net: Net, a: Address) {
    a.V4? == net.base.V4? && a.n / Pow2(net.HostBits()) * Pow2(net.HostBits()) == net.base.n
  }

  /** An entry admits a client: both are unmapped first. */
  predicate Admits(net: Net, a: Address) { Contains(UnmapNetwork(net), UnmapAddress(a)) }

  // ---------------------------------------------------------------- one 128-bit space

  /** Every address as 128 bits: IPv4 in its mapped form (section 2.5.5.2 of RFC 4291). */
  function Embed(a: Address): nat { if a.V4? then MAPPED * Pow2(32) + a.n else a.n }

  /** ::ffff:a.b.c.d is the IPv4 address a.b.c.d, and no other IPv6 address is one. */
  lemma MappedSpelling(a: nat, b: nat, c: nat, d: nat)
    requires a < 256 && b < 256 && c < 256 && d < 256
    ensures var quad: nat := ((a * 256 + b) * 256 + c) * 256 + d;
            && quad < 0x1_0000_0000 == Pow2(32) && 0xFFFF_0000_0000 + quad < Pow2(128)
            && UnmapAddress(V6(0xFFFF_0000_0000 + quad)) == V4(quad)
  {
    ThirtyTwoBits();
    Pow2Adds(48, 80);
  }

  lemma ThirtyTwoBits()
    ensures Pow2(32) == 0x1_0000_0000 && Pow2(48) == 0x1_0000_0000_0000
  {
    assert Pow2(4) == 16;
    Pow2Adds(4, 4);
    Pow2Adds(8, 8);
    Pow2Adds(16, 16);
    Pow2Adds(32, 16);
  }

  /** Exactly the 128-bit addresses whose top 96 bits are those of ::ffff:0:0 stand for an IPv4 address. */
  lemma MappedExactly(a: Address)
    requires a.V6?
    ensures UnmapAddress(a).V4? <==> 0xFFFF_0000_0000 <= a.n < 0x1_0000_0000_0000
    ensures UnmapAddress(a).V4? ==> UnmapAddress(a).n == a.n - 0xFFFF_0000_0000
    ensures UnmapAddress(a).V6? ==> UnmapAddress(a) == a
  {
    ThirtyTwoBits();
  }

  predicate IsIPv4(a: Address) { a.V4? || IsMapped(a) }

  /** The 128-bit numbers agree above the network's host bits. */
  ghost predicate SamePrefix(net: Net, a: Address) {
    Embed(a) / Pow2(net.HostBits()) == Embed(net.base) / Pow2(net.HostBits())
  }

  lemma MaskedForm(x: nat, base: nat, p: nat)
    requires p > 0 && base % p == 0
    ensures x / p * p == base <==> x / p == base / p
  {
    assert base == base / p * p;
    SameMultiple(x / p, base / p, p);
  }

  /** Containment is agreement on the prefix. */
  lemma ContainsIsPrefix(net: Net, a: Address)
    ensures Contains(net, a) <==> a.V4? == net.base.V4? && a.n / Pow2(net.HostBits()) == net.base.n / Pow2(net.HostBits())
  {
    MaskedForm(a.n, net.base.n, Pow2(net.HostBits()));
  }

  /** Below 32 host bits, mapped numbers agree on a prefix exactly when their IPv4 parts do. */
  lemma MappedQuotients(x: nat, y: nat, h: nat)
    requires x < Pow2(32) && y < Pow2(32) && h <= 32
    ensures (MAPPED * Pow2(32) + x) / Pow2(h) == (MAPPED * Pow2(32) + y) / Pow2(h) <==> x / Pow2(h) == y / Pow2(h)
  {
    MarkedQuotients(MAPPED, x, y, 32, h);
  }

  lemma MarkedQuotients(mark: nat, x: nat, y: nat, n: nat, h: nat)
    requires x < Pow2(n) && y < Pow2(n) && h <= n
    ensures (mark * Pow2(n) + x) / Pow2(h) == (mark * Pow2(n) + y) / Pow2(h) <==> x / Pow2(h) == y / Pow2(h)
  {
    var m, d := Pow2(n - h), Pow2(h);
    Pow2Adds(n - h, h);
    LowQuotient(mark, x, m, d);
    LowQuotient(mark, y, m, d);
  }

  /** Agreement on a prefix within 32 host bits keeps the mapped mark. */
  lemma MarkKept(x: nat, y: nat, h: nat)
    requires h <= 32 && x / Pow2(h) == y / Pow2(h)
    ensures x / Pow2(32) == y / Pow2(32)
  {
    Pow2Adds(h, 32 - h);
    DivDiv(x, Pow2(h), Pow2(32 - h));
    DivDiv(y, Pow2(h), Pow2(32 - h));
  }

  lemma EmbedParts(a: Address)
    requires IsIPv4(a)
    ensures UnmapAddress(a).V4? && Embed(a) == MAPPED * Pow2(32) + UnmapAddress(a).n && Embed(a) / Pow2(32) == MAPPED
  {
    MarkedNumber(a.n, UnmapAddress(a).n, Pow2(32), MAPPED);
  }

  /** A number with quotient `q` is `q` blocks of `d` and its remainder, and the other way round. */
  lemma MarkedNumber(n: nat, low: nat, d: nat, q: nat)
    requires 0 <= low < d
    ensures (q * d + low) / d == q && (n / d == q ==> n == q * d + n % d)
  {
    DivUnique(q * d + low, d, q, low);
  }

  /** A network shorter than 96 bits never has a mapped address, so the guard on the prefix never decides. */
  lemma ShortNetworkIsNeverMapped(net: Net)
    requires net.base.V6? && net.prefix < MAPPED_PREFIX_BITS
    ensures !IsMapped(net.base)
  {
    var h := net.HostBits();
    var k := net.base.n / Pow2(h);
    assert net.base.n == k * Pow2(h);
    Pow2Adds(h - 33, 33);
    EvenAbove(net.base.n, k, Pow2(h - 33), Pow2(32));
  }

  lemma EvenAbove(n: nat, k: nat, m: nat, d: nat)
    requires d > 0 && n == k * (m * (2 * d))
    ensures n / d % 2 == 0
  {
    assert n == (k * m * 2) * d;
    DivUnique(n, d, k * m * 2, 0);
    DivUnique(k * m * 2, 2, k * m, 0);
  }

  lemma LowPartAligned(n: nat, m: nat, d: nat)
    requires m > 0 && d > 0 && n % d == 0
    ensures m * d > 0 && n % (m * d) % d == 0
  {
    var q, r := n / (m * d), n % (m * d);
    assert n == q * (m * d) + r;
    assert r == (n / d - q * m) * d;
    DivUnique(r, d, n / d - q * m, 0);
  }

  /** Unmapping a mapped network unmaps its address and keeps its host bits: masking again drops nothing. */
  lemma UnmapNetworkShape(net: Net)
    requires IsIPv4(net.base)
    ensures UnmapNetwork(net).base == UnmapAddress(net.base)
    ensures UnmapNetwork(net).HostBits() == net.HostBits() <= 32
  {
    if net.base.V6? {
      if net.prefix < MAPPED_PREFIX_BITS { ShortNetworkIsNeverMapped(net); }
      LowBitsAligned(net.base.n, net.HostBits());
      AlignedStays(UnmapAddress(net.base), net.prefix - MAPPED_PREFIX_BITS);
    }
  }

  lemma LowBitsAligned(n: nat, h: nat)
    requires h <= 32 && n % Pow2(h) == 0
    ensures n % Pow2(32) % Pow2(h) == 0
  {
    Pow2Adds(32 - h, h);
    LowPartAligned(n, Pow2(32 - h), Pow2(h));
  }

  lemma AlignedStays(a: Address, prefix: nat)
    requires prefix <= a.Width() && a.n % Pow2(a.Width() - prefix) == 0
    ensures MakeNetwork(a, prefix).base == a
  {
    MaskedForm(a.n, a.n, Pow2(a.Width() - prefix));
  }

  lemma AdmitsIPv4Network(net: Net, a: Address)
    requires IsIPv4(net.base)
    ensures Admits(net, a) <==> SamePrefix(net, a)
  {
    UnmapNetworkShape(net);
    EmbedParts(net.base);
    if IsIPv4(a) {
      EmbedParts(a);
      ContainsIsPrefix(UnmapNetwork(net), UnmapAddress(a));
      MappedQuotients(UnmapAddress(a).n, UnmapAddress(net.base).n, net.HostBits());
    } else if SamePrefix(net, a) {
      MarkKept(Embed(a), Embed(net.base), net.HostBits());
    }
  }

  lemma AdmitsIPv6Network(net: Net, a: Address)
    requires !IsIPv4(net.base)
    ensures Admits(net, a) <==> SamePrefix(net, a) && !IsIPv4(a)
    ensures net.prefix >= MAPPED_PREFIX_BITS && SamePrefix(net, a) ==> !IsIPv4(a)
  {
    if IsIPv4(a) {
      EmbedParts(a);
      if net.prefix >= MAPPED_PREFIX_BITS && SamePrefix(net, a) {
        MarkKept(Embed(a), Embed(net.base), net.HostBits());
      }
    } else {
      ContainsIsPrefix(net, a);
    }
  }

  /**
   What an entry admits, in one 128-bit space: exactly the addresses that share its prefix, in whichever spelling of
   either - except that a network shorter than 96 bits never admits an IPv4 client.
  */
  lemma AdmitsExactly(net: Net, a: Address)
    ensures Admits(net, a) <==>
            SamePrefix(net, a) && !(net.base.V6? && net.prefix < MAPPED_PREFIX_BITS && IsIPv4(a))
  {
    if IsIPv4(net.base) {
      AdmitsIPv4Network(net, a);
      if net.base.V6? && net.prefix < MAPPED_PREFIX_BITS { ShortNetworkIsNeverMapped(net); }
    } else {
      AdmitsIPv6Network(net, a);
    }
  }

  /** The mapped spelling of an IPv4 network, 96 bits longer, is that network. */
  lemma MappedNetworkIsTheSame(net: Net, mapped: Net, a: Address)
    requires net.base.V4? && mapped.base.V6? && mapped.prefix == net.prefix + MAPPED_PREFIX_BITS
    requires mapped.base.n == Embed(net.base)
    ensures Admits(mapped, a) <==> Admits(net, a)
  {
    EmbedParts(net.base);
    AdmitsIPv4Network(net, a);
    AdmitsIPv4Network(mapped, a);
  }

  // ---------------------------------------------------------------- lists

  type ReadAddress = string -> Option<Address>
  type ReadNetwork = string -> Option<Net>
  type Show = Net -> string

  ghost predicate SomeAdmits(readNetwork: ReadNetwork, entries: seq<string>, a: Address) {
    exists i | 0 <= i < |entries| :: readNetwork(entries[i]).Some? && Admits(readNetwork(entries[i]).value, a)
  }

  /** An empty list allows everything; otherwise the client must be readable and some readable entry must admit it. */
  ghost predicate Allowed(readAddress: ReadAddress, readNetwork: ReadNetwork, client: Option<string>, entries: seq<string>) {
    || entries == []
    || (&& client.Some? && client.value != [] && readAddress(Strip(client.value)).Some?
        && SomeAdmits(readNetwork, entries, readAddress(Strip(client.value)).value))
  }

  method IsAllowed(readAddress: ReadAddress, readNetwork: ReadNetwork, client: Option<string>, entries: seq<string>) returns (r: bool)
    ensures r <==> Allowed(readAddress, readNetwork, client, entries)
  {
    if |entries| == 0 { return true; }
    if client.None? || client.value == [] { return false; }
    var address := readAddress(Strip(client.value));
    if address.None? { return false; }
    var unmapped := UnmapAddress(address.value);
    for i := 0 to |entries|
      invariant forall k | 0 <= k < i :: !(readNetwork(entries[k]).Some? && Admits(readNetwork(entries[k]).value, address.value))
    {
      var network := readNetwork(entries[i]);
      if network.None? { continue; }
      if Contains(UnmapNetwork(network.value), unmapped) { return true; }
    }
    return false;
  }

  /** A client's IPv4 address and its mapped spelling get the same answer from every list. */
  lemma SpellingDoesNotMatter(readAddress: ReadAddress, readNetwork: ReadNetwork, c: string, d: string, entries: seq<string>)
    requires c != [] && d != [] && readAddress(Strip(c)).Some? && readAddress(Strip(d)).Some?
    requires Embed(readAddress(Strip(c)).value) == Embed(readAddress(Strip(d)).value)
    ensures Allowed(readAddress, readNetwork, Some(c), entries) <==> Allowed(readAddress, readNetwork, Some(d), entries)
  {
    var a, b := readAddress(Strip(c)).value, readAddress(Strip(d)).value;
    forall net: Net ensures Admits(net, a) <==> Admits(net, b) { SameEmbedding(net, a, b); }
  }

  lemma SameEmbedding(net: Net, a: Address, b: Address)
    requires Embed(a) == Embed(b)
    ensures Admits(net, a) <==> Admits(net, b)
  {
    AdmitsExactly(net, a);
    AdmitsExactly(net, b);
    if IsIPv4(a) { EmbedParts(a); }
    if IsIPv4(b) { EmbedParts(b); }
  }

  // ---------------------------------------------------------------- normalising a list

  datatype EntryError = NotANetwork(entry: string) | AllowsEverything(entry: string)

  /** What one entry is stored as; None for a blank one. */
  function NormalEntry(readNetwork: ReadNetwork, show: Show, entry: string): Result<Option<string>, EntryError> {
    if Strip(entry) == [] then Ok(None)
    else if readNetwork(Strip(entry)).None? then Err(NotANetwork(entry))
    else
      var net := UnmapNetwork(readNetwork(Strip(entry)).value);
      if net.prefix == 0 then Err(AllowsEverything(entry)) else Ok(Some(show(net)))
  }

  /** The stored list, or the first error. */
  function Normal(readNetwork: ReadNetwork, show: Show, entries: seq<string>): Result<seq<string>, EntryError> {
    if entries == [] then Ok([])
    else
      var init := Normal(readNetwork, show, entries[..|entries| - 1]);
      if init.Err? then init
      else
        match NormalEntry(readNetwork, show, entries[|entries| - 1])
        case Err(e) => Err(e)
        case Ok(None) => init
        case Ok(Some(text)) => Ok(init.value + [text])
  }

  method NormalizeEntries(readNetwork: ReadNetwork, show: Show, entries: seq<string>) returns (r: Result<seq<string>, EntryError>)
    ensures r == Normal(readNetwork, show, entries)
  {
    var normalized: seq<string> := [];
    for i := 0 to |entries|
      invariant Normal(readNetwork, show, entries[..i]) == Ok(normalized)
    {
      assert entries[..i + 1][..i] == entries[..i];
      FirstErrorStays(readNetwork, show, entries, i + 1);
      var text := Strip(entries[i]);
      if text == [] { continue; }
      var read := readNetwork(text);
      if read.None? { return Err(NotANetwork(entries[i])); }
      var network := UnmapNetwork(read.value);
      if network.prefix == 0 { return Err(AllowsEverything(entries[i])); }
      normalized := normalized + [show(network)];
    }
    assert entries[..|entries|] == entries;
    return Ok(normalized);
  }

  lemma {:induction false} FirstErrorStays(readNetwork: ReadNetwork, show: Show, entries: seq<string>, n: nat)
    requires n <= |entries|
    ensures Normal(readNetwork, show, entries[..n]).Err? ==> Normal(readNetwork, show, entries) == Normal(readNetwork, show, entries[..n])
    decreases |entries|
  {
    if n < |entries| {
      var init := entries[..|entries| - 1];
      assert init[..n] == entries[..n];
      FirstErrorStays(readNetwork, show, init, n);
    } else {
      assert entries[..n] == entries;
    }
  }

  /** Blank, or a network that still restricts once it is unmapped. */
  predicate Usable(readNetwork: ReadNetwork, entry: string) {
    Strip(entry) == "" || (readNetwork(Strip(entry)).Some? && UnmapNetwork(readNetwork(Strip(entry)).value).prefix > 0)
  }

  /** The first entry that is not usable, and what is wrong with it. */
  predicate FirstUnusable(readNetwork: ReadNetwork, entries: seq<string>, i: nat, e: EntryError) {
    && i < |entries| && (forall k | 0 <= k < i :: Usable(readNetwork, entries[k])) && !Usable(readNetwork, entries[i])
    && e == if readNetwork(Strip(entries[i])).None? then NotANetwork(entries[i]) else AllowsEverything(entries[i])
  }

  /** A list is stored exactly when every entry is usable; otherwise the first that is not is reported. */
  lemma {:induction false} NormalErrExactly(readNetwork: ReadNetwork, show: Show, entries: seq<string>)
    ensures Normal(readNetwork, show, entries).Ok? <==> forall i | 0 <= i < |entries| :: Usable(readNetwork, entries[i])
    ensures Normal(readNetwork, show, entries).Err? ==>
              exists i :: FirstUnusable(readNetwork, entries, i, Normal(readNetwork, show, entries).error)
  {
    if entries != [] {
      var n := |entries| - 1;
      NormalErrExactly(readNetwork, show, entries[..n]);
      var init := Normal(readNetwork, show, entries[..n]);
      if init.Err? {
        var i :| FirstUnusable(readNetwork, entries[..n], i, init.error);
        assert FirstUnusable(readNetwork, entries, i, init.error);
      } else if !Usable(readNetwork, entries[n]) {
        assert forall k | 0 <= k < n :: entries[k] == entries[..n][k];
        assert FirstUnusable(readNetwork, entries, n, Normal(readNetwork, show, entries).error);
      } else {
        assert forall k | 0 <= k < n :: entries[k] == entries[..n][k];
      }
    }
  }

  predicate NotBlank(entry: string) { Strip(entry) != "" }

  function Filled(entries: seq<string>): seq<string> {
    if entries == [] then []
    else
      var init, x := Filled(entries[..|entries| - 1]), entries[|entries| - 1];
      if NotBlank(x) then init + [x] else init
  }

  /** The stored list is the entries that are not blank, in order, each as its unmapped network is printed. */
  lemma StoredExactly(readNetwork: ReadNetwork, show: Show, entries: seq<string>)
    requires Normal(readNetwork, show, entries).Ok?
    ensures var list, kept := Normal(readNetwork, show, entries).value, Filled(entries);
            && Selects(entries, NotBlank, kept) && |kept| == |list|
            && forall k | 0 <= k < |list| ::
                 readNetwork(Strip(kept[k])).Some? && list[k] == show(UnmapNetwork(readNetwork(Strip(kept[k])).value))
  {
    FilledSelects(entries);
    StoredShows(readNetwork, show, entries);
  }

  lemma {:induction false} FilledSelects(entries: seq<string>)
    ensures Selects(entries, NotBlank, Filled(entries))
  {
    if entries == [] {
      SelectsNone<string>(NotBlank);
    } else {
      FilledSelects(entries[..|entries| - 1]);
      SelectsLast(entries, NotBlank, Filled(entries[..|entries| - 1]));
    }
  }

  lemma {:induction false} StoredShows(readNetwork: ReadNetwork, show: Show, entries: seq<string>)
    requires Normal(readNetwork, show, entries).Ok?
    ensures var list, kept := Normal(readNetwork, show, entries).value, Filled(entries);
            |kept| == |list| && forall k | 0 <= k < |list| ::
              readNetwork(Strip(kept[k])).Some? && list[k] == show(UnmapNetwork(readNetwork(Strip(kept[k])).value))
  {
    if entries != [] { StoredShows(readNetwork, show, entries[..|entries| - 1]); }
  }

  /** Printing a network and reading it back gives the network. */
  ghost predicate PrintsBack(readNetwork: ReadNetwork, show: Show) {
    forall net: Net :: readNetwork(show(net)) == Some(net) && Strip(show(net)) == show(net) && show(net) != []
  }

  /** A text in canonical form: an unmapped network with some prefix. */
  ghost predicate Canonical(readNetwork: ReadNetwork, show: Show, text: string) {
    exists net: Net :: text == show(net) && UnmapNetwork(net) == net && net.prefix != 0
  }

  lemma UnmapIsIdempotent(net: Net)
    ensures UnmapNetwork(UnmapNetwork(net)) == UnmapNetwork(net)
  {
  }

  /** Everything stored is canonical; in particular no stored network has a zero prefix. */
  lemma {:induction false} StoredIsCanonical(readNetwork: ReadNetwork, show: Show, entries: seq<string>)
    requires Normal(readNetwork, show, entries).Ok?
    ensures forall t | t in Normal(readNetwork, show, entries).value :: Canonical(readNetwork, show, t)
  {
    if entries != [] {
      var n := |entries| - 1;
      StoredIsCanonical(readNetwork, show, entries[..n]);
      var e := NormalEntry(readNetwork, show, entries[n]);
      if e.Ok? && e.value.Some? {
        var net := UnmapNetwork(readNetwork(Strip(entries[n])).value);
        UnmapIsIdempotent(readNetwork(Strip(entries[n])).value);
        assert e.value.value == show(net);
      }
    }
  }

  lemma CanonicalStays(readNetwork: ReadNetwork, show: Show, text: string)
    requires PrintsBack(readNetwork, show) && Canonical(readNetwork, show, text)
    ensures NormalEntry(readNetwork, show, text) == Ok(Some(text))
  {
    var net: Net :| text == show(net) && UnmapNetwork(net) == net && net.prefix != 0;
  }

  lemma {:induction false} FixedListStays(readNetwork: ReadNetwork, show: Show, list: seq<string>)
    requires forall t | t in list :: NormalEntry(readNetwork, show, t) == Ok(Some(t))
    ensures Normal(readNetwork, show, list) == Ok(list)
  {
    if list != [] {
      var n := |list| - 1;
      FixedListStays(readNetwork, show, list[..n]);
      assert list[n] in list && list[..n] + [list[n]] == list;
    }
  }

  /** Normalising twice is normalising once. */
  lemma NormalizeIsIdempotent(readNetwork: ReadNetwork, show: Show, entries: seq<string>)
    requires PrintsBack(readNetwork, show) && Normal(readNetwork, show, entries).Ok?
    ensures var list := Normal(readNetwork, show, entries).value; Normal(readNetwork, show, list) == Ok(list)
  {
    var list := Normal(readNetwork, show, entries).value;
    StoredIsCanonical(readNetwork, show, entries);
    forall t | t in list ensures NormalEntry(readNetwork, show, t) == Ok(Some(t)) { CanonicalStays(readNetwork, show, t); }
    FixedListStays(readNetwork, show, list);
  }

  // ---------------------------------------------------------------- normalising and answering

  predicate Blank(entry: string) { Strip(entry) == [] }

  predicate AllBlank(entries: seq<string>) { forall i | 0 <= i < |entries| :: Blank(entries[i]) }

  /** Nothing is stored exactly when every entry is blank. */
  lemma {:induction false} StoredEmptyExactly(readNetwork: ReadNetwork, show: Show, entries: seq<string>)
    ensures Normal(readNetwork, show, entries) == Ok([]) <==> AllBlank(entries)
  {
    if entries != [] {
      var n := |entries| - 1;
      StoredEmptyExactly(readNetwork, show, entries[..n]);
      assert AllBlank(entries) <==> AllBlank(entries[..n]) && Blank(entries[n]);
    }
  }

  /** What an entry means once its surrounding blanks are gone. */
  predicate TrimmedAdmits(readNetwork: ReadNetwork, entry: string, a: Address) {
    !Blank(entry) && readNetwork(Strip(entry)).Some? && Admits(readNetwork(Strip(entry)).value, a)
  }

  ghost predicate SomeTrimmedAdmits(readNetwork: ReadNetwork, entries: seq<string>, a: Address) {
    exists i | 0 <= i < |entries| :: TrimmedAdmits(readNetwork, entries[i], a)
  }

  lemma ShownAdmits(readNetwork: ReadNetwork, show: Show, entry: string, text: string, a: Address)
    requires PrintsBack(readNetwork, show) && NormalEntry(readNetwork, show, entry) == Ok(Some(text))
    ensures readNetwork(text).Some? && (Admits(readNetwork(text).value, a) <==> TrimmedAdmits(readNetwork, entry, a))
  {
    var net := readNetwork(Strip(entry)).value;
    UnmapIsIdempotent(net);
    assert text == show(UnmapNetwork(net));
  }

  lemma SomeAdmitsLast(readNetwork: ReadNetwork, list: seq<string>, text: string, a: Address)
    requires readNetwork(text).Some?
    ensures SomeAdmits(readNetwork, list + [text], a) <==> SomeAdmits(readNetwork, list, a) || Admits(readNetwork(text).value, a)
  {
    var more := list + [text];
    assert more[|list|] == text;
    if i :| 0 <= i < |list| && readNetwork(list[i]).Some? && Admits(readNetwork(list[i]).value, a) { assert more[i] == list[i]; }
  }

  /** The stored list admits an address exactly when some entry, trimmed, does. */
  lemma {:induction false} StoredAdmitsExactly(readNetwork: ReadNetwork, show: Show, entries: seq<string>, a: Address)
    requires PrintsBack(readNetwork, show) && Normal(readNetwork, show, entries).Ok?
    ensures SomeAdmits(readNetwork, Normal(readNetwork, show, entries).value, a) <==> SomeTrimmedAdmits(readNetwork, entries, a)
  {
    if entries != [] {
      var n := |entries| - 1;
      var init, e := entries[..n], NormalEntry(readNetwork, show, entries[n]);
      StoredAdmitsExactly(readNetwork, show, init, a);
      SomeTrimmedLast(readNetwork, entries, n, a);
      if e.value.Some? {
        ShownAdmits(readNetwork, show, entries[n], e.value.value, a);
        SomeAdmitsLast(readNetwork, Normal(readNetwork, show, init).value, e.value.value, a);
      }
    }
  }

  lemma SomeTrimmedLast(readNetwork: ReadNetwork, entries: seq<string>, n: nat, a: Address)
    requires n + 1 == |entries|
    ensures SomeTrimmedAdmits(readNetwork, entries, a) <==>
            SomeTrimmedAdmits(readNetwork, entries[..n], a) || TrimmedAdmits(readNetwork, entries[n], a)
  {
    var init := entries[..n];
    if i :| 0 <= i < n && TrimmedAdmits(readNetwork, init[i], a) { assert entries[i] == init[i]; }
    if i :| 0 <= i < |entries| && TrimmedAdmits(readNetwork, entries[i], a) { if i < n { assert init[i] == entries[i]; } }
  }

  /** What is stored answers: everyone for a list of blanks, otherwise as the trimmed entries do. */
  lemma StoredAnswersExactly(readAddress: ReadAddress, readNetwork: ReadNetwork, show: Show, client: Option<string>, entries: seq<string>)
    requires PrintsBack(readNetwork, show) && Normal(readNetwork, show, entries).Ok?
    ensures Allowed(readAddress, readNetwork, client, Normal(readNetwork, show, entries).value) <==>
            || AllBlank(entries)
            || (&& client.Some? && client.value != [] && readAddress(Strip(client.value)).Some?
                && SomeTrimmedAdmits(readNetwork, entries, readAddress(Strip(client.value)).value))
  {
    StoredEmptyExactly(readNetwork, show, entries);
    if client.Some? && client.value != [] && readAddress(Strip(client.value)).Some? {
      StoredAdmitsExactly(readNetwork, show, entries, readAddress(Strip(client.value)).value);
    }
  }

  /** A list as typed, not empty, is stored as one that admits every client exactly when all its entries are blank. */
  lemma StoredOpensExactly(readAddress: ReadAddress, readNetwork: ReadNetwork, show: Show, entries: seq<string>)
    requires PrintsBack(readNetwork, show) && entries != [] && Normal(readNetwork, show, entries).Ok?
    ensures (forall client :: Allowed(readAddress, readNetwork, client, Normal(readNetwork, show, entries).value)) <==> AllBlank(entries)
  {
    StoredAnswersExactly(readAddress, readNetwork, show, None, entries);
    forall client | AllBlank(entries) ensures Allowed(readAddress, readNetwork, client, Normal(readNetwork, show, entries).value) {
      StoredAnswersExactly(readAddress, readNetwork, show, client, entries);
    }
  }

  /** Text with blanks around it, or nothing else, is not a network as it stands. */
  ghost predicate RefusesPadding(readNetwork: ReadNetwork) {
    forall t: string | Strip(t) != t || t == [] :: readNetwork(t).None?
  }

  /** An address only a padded entry admits. */
  ghost predicate OnlyPaddedAdmits(readNetwork: ReadNetwork, entries: seq<string>, a: Address) {
    && (exists i | 0 <= i < |entries| :: Strip(entries[i]) != entries[i] && TrimmedAdmits(readNetwork, entries[i], a))
    && (forall i | 0 <= i < |entries| && Strip(entries[i]) == entries[i] :: !TrimmedAdmits(readNetwork, entries[i], a))
  }

  lemma TypedAdmitsTrimmed(readNetwork: ReadNetwork, entries: seq<string>, a: Address)
    requires RefusesPadding(readNetwork)
    ensures SomeAdmits(readNetwork, entries, a) ==> SomeTrimmedAdmits(readNetwork, entries, a)
    ensures SomeAdmits(readNetwork, entries, a) <==>
            exists i | 0 <= i < |entries| :: Strip(entries[i]) == entries[i] && TrimmedAdmits(readNetwork, entries[i], a)
  {
    if i :| 0 <= i < |entries| && readNetwork(entries[i]).Some? && Admits(readNetwork(entries[i]).value, a) {
      assert TrimmedAdmits(readNetwork, entries[i], a);
    }
  }

  /**
   Exactly when storing a list changes a client's answer: the list was typed as blanks alone, or the client's address
   is admitted by a padded entry and by no other.
  */
  lemma NormalizeKeepsAnswersExactly(readAddress: ReadAddress, readNetwork: ReadNetwork, show: Show, client: string, entries: seq<string>)
    requires PrintsBack(readNetwork, show) && RefusesPadding(readNetwork) && Normal(readNetwork, show, entries).Ok?
    requires client != [] && readAddress(Strip(client)).Some?
    ensures (Allowed(readAddress, readNetwork, Some(client), Normal(readNetwork, show, entries).value) <==>
             Allowed(readAddress, readNetwork, Some(client), entries)) <==>
            entries == [] || (!AllBlank(entries) && !OnlyPaddedAdmits(readNetwork, entries, readAddress(Strip(client)).value))
  {
    var a := readAddress(Strip(client)).value;
    StoredAnswersExactly(readAddress, readNetwork, show, Some(client), entries);
    TypedAdmitsTrimmed(readNetwork, entries, a);
  }

  /** So storing keeps every answer when no entry is padded and not all are blank; blanks may stand beside real entries. */
  lemma NormalizeKeepsAnswers(readAddress: ReadAddress, readNetwork: ReadNetwork, show: Show, client: Option<string>, entries: seq<string>)
    requires PrintsBack(readNetwork, show) && RefusesPadding(readNetwork) && Normal(readNetwork, show, entries).Ok?
    requires forall i | 0 <= i < |entries| :: Blank(entries[i]) || Strip(entries[i]) == entries[i]
    requires entries == [] || !AllBlank(entries)
    ensures Allowed(readAddress, readNetwork, client, Normal(readNetwork, show, entries).value) <==>
            Allowed(readAddress, readNetwork, client, entries)
  {
    StoredAnswersExactly(readAddress, readNetwork, show, client, entries);
    if client.Some? && client.value != [] && readAddress(Strip(client.value)).Some? {
      var a := readAddress(Strip(client.value)).value;
      TypedAdmitsTrimmed(readNetwork, entries, a);
      if i :| 0 <= i < |entries| && TrimmedAdmits(readNetwork, entries[i], a) { assert Strip(entries[i]) == entries[i]; }
    }
  }

  /** A list of one blank is stored as the empty list, which allows every client; the list itself allows none. */
  lemma BlankListOpens(readAddress: ReadAddress, readNetwork: ReadNetwork, show: Show, client: Option<string>)
    requires readNetwork(" ").None?
    ensures Normal(readNetwork, show, [" "]) == Ok([])
    ensures Allowed(readAddress, readNetwork, client, []) && !Allowed(readAddress, readNetwork, client, [" "])
  {
    assert " "[1..] == [] && Strip([]) == [] && Strip(" ") == [];
    assert [" "][..0] == [];
  }
}
