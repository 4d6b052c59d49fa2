/**
 What IPv6 text the dashboard reads, exactly (dashboard/lib/ipAllowlist.ts): eight groups in full, or with one run
 of zero groups written "::", either form optionally ending in a dotted quad (section 2.2 of RFC 4291).
*/
module AddressForms {
  import opened Outcomes
  import opened Octets
  import opened Texts
  import opened AddressText

  // ---------------------------------------------------------------- the forms

  /** Hexadecimal groups, of which the last may be a dotted quad. */
  predicate IsTail(ps: seq<string>) {
    ps == [] ||
    var n := |ps| - 1;
    AllGroups(ps[..n]) && (IsGroupText(ps[n]) || V4Bytes(ps[n]).Some?)
  }

  /** The groups such a list stands for; a dotted quad stands for two. */
  function TailValues(ps: seq<string>): seq<Group>
    requires IsTail(ps)
  {
    if ps == [] then []
    else
      var n := |ps| - 1;
      Values(ps[..n]) +
      if IsGroupText(ps[n]) then [GroupValue(ps[n])]
      else var b := V4Bytes(ps[n]).value; [Pair(b[0], b[1]), Pair(b[2], b[3])]
  }

  function ZeroGroups(n: nat): (r: seq<Group>)
    ensures |r| == n && forall i | 0 <= i < n :: r[i] == 0
  {
    if n == 0 then [] else ZeroGroups(n - 1) + [0]
  }

  /** All eight groups are written out. */
  ghost predicate IsFull(address: string, bytes: Bytes, ps: seq<string>) {
    IsTail(ps) && |TailValues(ps)| == 8 && address == Join(ps, ':') && bytes == BytesOf(TailValues(ps))
  }

  /** "::" stands for the zero groups between `head` and `tail`. */
  ghost predicate IsCompressed(address: string, bytes: Bytes, head: seq<string>, tail: seq<string>) {
    && AllGroups(head) && IsTail(tail) && |head| + |TailValues(tail)| <= 8
    && address == Compressed(head, tail) && bytes == BytesOf(Gapped(Values(head), TailValues(tail)))
  }

  ghost predicate Denotes(address: string, bytes: Bytes) {
    || (exists ps :: IsFull(address, bytes, ps))
    || (exists head, tail :: IsCompressed(address, bytes, head, tail))
  }

  // ---------------------------------------------------------------- groups

  lemma GroupTextIsPlain(t: string)
    requires IsGroupText(t)
    ensures t != [] && '.' !in t && ':' !in t && '/' !in t
  {
  }

  /** The texts of a quad's two groups are groups again. */
  lemma QuadGroups(a: Byte, b: Byte)
    ensures IsGroupText(HexText(Pair(a, b))) && GroupValue(HexText(Pair(a, b))) == Pair(a, b)
  {
    GroupTextRoundTrip(Pair(a, b));
  }

  lemma ValuesAppend(ts: seq<string>, us: seq<string>)
    requires AllGroups(ts) && AllGroups(us)
    ensures AllGroups(ts + us) && Values(ts + us) == Values(ts) + Values(us)
  {
  }

  /** Expanding the quad and reading the groups gives exactly the tail's meaning. */
  lemma ExpandExactly(ps: seq<string>)
    ensures IsTail(ps) <==> Expand(ps).Some? && AllGroups(Expand(ps).value)
    ensures IsTail(ps) ==> Values(Expand(ps).value) == TailValues(ps)
  {
    if ps != [] {
      var n := |ps| - 1;
      assert ps == ps[..n] + [ps[n]];
      if '.' in ps[n] {
        if V4Bytes(ps[n]).Some? { ExpandQuad(ps, n); }
        assert !IsGroupText(ps[n]) by { if IsGroupText(ps[n]) { GroupTextIsPlain(ps[n]); } }
      } else {
        assert Expand(ps) == Some(ps);
        ExpandPlain(ps, n);
      }
    }
  }

  lemma ExpandPlain(ps: seq<string>, n: nat)
    requires n + 1 == |ps| && '.' !in ps[n]
    ensures IsTail(ps) <==> AllGroups(ps)
    ensures IsTail(ps) ==> Values(ps) == TailValues(ps)
  {
    AllGroupsLast(ps, n);
    assert V4Bytes(ps[n]).None?;
  }

  lemma AllGroupsLast(ps: seq<string>, n: nat)
    requires n + 1 == |ps|
    ensures AllGroups(ps) <==> AllGroups(ps[..n]) && IsGroupText(ps[n])
    ensures AllGroups(ps) ==> Values(ps) == Values(ps[..n]) + [GroupValue(ps[n])]
  {
    var init := ps[..n];
    assert forall i | 0 <= i < n :: init[i] == ps[i];
  }

  lemma ExpandQuad(ps: seq<string>, n: nat)
    requires n + 1 == |ps| && '.' in ps[n] && V4Bytes(ps[n]).Some?
    ensures Expand(ps).Some? && (AllGroups(Expand(ps).value) <==> AllGroups(ps[..n]))
    ensures AllGroups(ps[..n]) ==> !IsGroupText(ps[n]) && IsTail(ps) && Values(Expand(ps).value) == TailValues(ps)
  {
    var b := V4Bytes(ps[n]).value;
    var quad := [HexText(Pair(b[0], b[1])), HexText(Pair(b[2], b[3]))];
    QuadTexts(b, quad);
    AllGroupsOfBoth(ps[..n], quad);
    assert Expand(ps) == Some(ps[..n] + quad);
    assert !IsGroupText(ps[n]) by { if IsGroupText(ps[n]) { GroupTextIsPlain(ps[n]); } }
    if AllGroups(ps[..n]) { ValuesAppend(ps[..n], quad); }
  }

  lemma QuadTexts(b: Bytes, quad: seq<string>)
    requires |b| == 4 && quad == [HexText(Pair(b[0], b[1])), HexText(Pair(b[2], b[3]))]
    ensures AllGroups(quad) && Values(quad) == [Pair(b[0], b[1]), Pair(b[2], b[3])]
  {
    QuadGroups(b[0], b[1]);
    QuadGroups(b[2], b[3]);
  }

  lemma AllGroupsOfBoth(a: seq<string>, b: seq<string>)
    requires AllGroups(b)
    ensures AllGroups(a + b) <==> AllGroups(a)
  {
    if AllGroups(a + b) {
      forall i | 0 <= i < |a| ensures IsGroupText(a[i]) { assert (a + b)[i] == a[i]; }
    }
  }

  lemma {:induction false} ZerosRead(n: nat)
    ensures AllGroups(Zeros(n)) && Values(Zeros(n)) == ZeroGroups(n)
  {
    assert GroupValue("0") == 0 by { assert "0"[..0] == []; }
  }

  // ---------------------------------------------------------------- splitting

  predicate NoDouble(s: string) { forall i | 0 <= i < |s| - 1 :: !(s[i] == ':' && s[i + 1] == ':') }

  predicate EndsPlain(s: string) { s == [] || s[|s| - 1] != ':' }

  predicate PlainParts(ps: seq<string>) { forall i | 0 <= i < |ps| :: ps[i] != [] && ':' !in ps[i] && '/' !in ps[i] }

  lemma {:induction false} JoinIsPlain(ps: seq<string>)
    requires PlainParts(ps) && ps != []
    ensures var s := Join(ps, ':'); s != [] && NoDouble(s) && s[0] != ':' && s[|s| - 1] != ':'
  {
    var first := ps[0];
    assert first[0] in first && first[|first| - 1] in first;
    if |ps| == 1 {
      assert forall i | 0 <= i < |first| :: first[i] in first;
    } else {
      JoinIsPlain(ps[1..]);
      NoDoubleJoint(first, Join(ps[1..], ':'));
    }
  }

  lemma NoDoubleJoint(first: string, rest: string)
    requires first != [] && ':' !in first && rest != [] && rest[0] != ':' && NoDouble(rest)
    ensures NoDouble(first + [':'] + rest)
  {
    var s := first + [':'] + rest;
    forall i | 0 <= i < |s| - 1 ensures !(s[i] == ':' && s[i + 1] == ':') {
      if i < |first| {
        assert s[i] == first[i] && first[i] in first;
      } else if i > |first| {
        assert s[i] == rest[i - |first| - 1] && s[i + 1] == rest[i - |first|];
      }
    }
  }

  /** What was joined from plain parts splits back into them. */
  lemma GroupsOfJoin(ps: seq<string>)
    requires PlainParts(ps)
    ensures Groups(Join(ps, ':')) == ps && NoDouble(Join(ps, ':')) && EndsPlain(Join(ps, ':'))
  {
    if ps != [] {
      JoinIsPlain(ps);
      SplitJoin(ps, ':');
    }
  }

  lemma {:induction false} SplitDoubleNone(s: string)
    requires NoDouble(s)
    ensures SplitDouble(s) == [s]
  {
    if |s| >= 2 {
      SplitDoubleNone(s[1..]);
      assert [s[0]] + s[1..] == s;
    }
  }

  lemma {:induction false} SplitDoubleAt(s: string, rest: string)
    requires NoDouble(s) && EndsPlain(s)
    ensures SplitDouble(s + "::" + rest) == [s] + SplitDouble(rest)
  {
    var t := s + "::" + rest;
    if s == [] {
      assert t[2..] == rest;
    } else {
      assert t[1..] == s[1..] + "::" + rest;
      assert !(t[0] == ':' && t[1] == ':') by { assert |s| > 1 ==> t[1] == s[1]; }
      SplitDoubleAt(s[1..], rest);
      assert [s[0]] + s[1..] == s;
    }
  }

  /** Splitting at "::" loses nothing. */
  lemma {:induction false} SplitDoubleBack(s: string)
    ensures |SplitDouble(s)| == 1 ==> SplitDouble(s)[0] == s
    ensures |SplitDouble(s)| == 2 ==> s == SplitDouble(s)[0] + "::" + SplitDouble(s)[1]
  {
    if |s| >= 2 {
      if s[0] == ':' && s[1] == ':' {
        SplitDoubleBack(s[2..]);
        assert s == "::" + s[2..];
      } else {
        var rest := SplitDouble(s[1..]);
        SplitDoubleBack(s[1..]);
        assert s == [s[0]] + s[1..];
        if |rest| == 2 { PrependDouble(s[0], rest[0], rest[1]); }
      }
    }
  }

  lemma PrependDouble(c: char, a: string, b: string)
    ensures [c] + (a + "::" + b) == [c] + a + "::" + b
  {
  }

  lemma JoinOfGroups(part: string)
    ensures Join(Groups(part), ':') == part
  {
    JoinSplit(part, ':');
  }

  lemma GroupsArePlain(ps: seq<string>)
    requires AllGroups(ps)
    ensures PlainParts(ps)
  {
    forall i | 0 <= i < |ps| ensures ps[i] != [] && ':' !in ps[i] && '/' !in ps[i] { GroupTextIsPlain(ps[i]); }
  }

  lemma TailIsPlain(ps: seq<string>)
    requires IsTail(ps)
    ensures PlainParts(ps)
  {
    if ps != [] {
      var n := |ps| - 1;
      GroupsArePlain(ps[..n]);
      if IsGroupText(ps[n]) { GroupTextIsPlain(ps[n]); }
      forall i | 0 <= i < |ps| ensures ps[i] != [] && ':' !in ps[i] && '/' !in ps[i] {
        if i < n { assert ps[..n][i] == ps[i]; }
      }
    }
  }

  // ---------------------------------------------------------------- reading

  /** Eight groups in full, in any spelling of the groups, with or without a dotted quad. */
  lemma FullFormReads(ps: seq<string>)
    requires IsTail(ps) && |TailValues(ps)| == 8
    ensures V6Bytes(Join(ps, ':')) == Some(BytesOf(TailValues(ps)))
  {
    TailIsPlain(ps);
    GroupsOfJoin(ps);
    SplitDoubleNone(Join(ps, ':'));
    ExpandExactly(ps);
  }

  lemma GapValues(head: seq<string>, gap: nat, tail: seq<string>)
    requires AllGroups(head) && AllGroups(tail)
    ensures AllGroups(head + Zeros(gap) + tail)
    ensures Values(head + Zeros(gap) + tail) == Values(head) + ZeroGroups(gap) + Values(tail)
  {
    ZerosRead(gap);
    ValuesAppend(head, Zeros(gap));
    ValuesAppend(head + Zeros(gap), tail);
  }

  function Compressed(head: seq<string>, tail: seq<string>): string { Join(head, ':') + "::" + Join(tail, ':') }

  function Gapped(head: seq<Group>, tail: seq<Group>): seq<Group>
    requires |head| + |tail| <= 8
  {
    head + ZeroGroups(8 - |head| - |tail|) + tail
  }

  lemma Halves(head: seq<string>, tail: seq<string>)
    requires AllGroups(head) && IsTail(tail)
    ensures SplitDouble(Compressed(head, tail)) == [Join(head, ':'), Join(tail, ':')]
    ensures Groups(Join(head, ':')) == head && Groups(Join(tail, ':')) == tail
  {
    GroupsArePlain(head);
    TailIsPlain(tail);
    GroupsOfJoin(head);
    GroupsOfJoin(tail);
    SplitDoubleNone(Join(tail, ':'));
    SplitDoubleAt(Join(head, ':'), Join(tail, ':'));
  }

  lemma HalvesRead(address: string, head: seq<string>, tail: seq<string>)
    requires |SplitDouble(address)| == 2
    requires Groups(SplitDouble(address)[0]) == head && Groups(SplitDouble(address)[1]) == tail
    requires AllGroups(head) && IsTail(tail) && |head| + |TailValues(tail)| <= 8
    ensures V6Bytes(address) == Some(BytesOf(Gapped(Values(head), TailValues(tail))))
  {
    ExpandExactly(tail);
    var full := Expand(tail).value;
    var gap := 8 - |head| - |full|;
    GapValues(head, gap, full);
    assert EightGroups(address) == Some(head + Zeros(gap) + full);
  }

  /** One run of groups written "::" reads as zeros. */
  lemma CompressedFormReads(head: seq<string>, tail: seq<string>)
    requires AllGroups(head) && IsTail(tail) && |head| + |TailValues(tail)| <= 8
    ensures V6Bytes(Compressed(head, tail)) == Some(BytesOf(Gapped(Values(head), TailValues(tail))))
  {
    Halves(head, tail);
    HalvesRead(Compressed(head, tail), head, tail);
  }

  /** The address `groups`, compressed over zero groups from `i` to `j`, reads back, whatever the spelling of the rest. */
  lemma CompressedRoundTrip(groups: seq<Group>, i: nat, j: nat, head: seq<string>, tail: seq<string>)
    requires |groups| == 8 && i <= j <= 8 && forall k | i <= k < j :: groups[k] == 0
    requires AllGroups(head) && Values(head) == groups[..i] && IsTail(tail) && TailValues(tail) == groups[j..]
    ensures V6Bytes(Compressed(head, tail)) == Some(BytesOf(groups))
  {
    CompressedFormReads(head, tail);
    GapFilled(groups, i, j);
  }

  lemma GapFilled(groups: seq<Group>, i: nat, j: nat)
    requires |groups| == 8 && i <= j <= 8 && forall k | i <= k < j :: groups[k] == 0
    ensures Gapped(groups[..i], groups[j..]) == groups
  {
    assert ZeroGroups(j - i) == groups[i..j];
  }

  lemma FullDenotes(address: string, bytes: Bytes)
    requires |SplitDouble(address)| == 1 && V6Bytes(address) == Some(bytes)
    ensures Denotes(address, bytes)
  {
    SplitDoubleBack(address);
    var ps := Groups(address);
    JoinOfGroups(address);
    ExpandExactly(ps);
    assert IsFull(address, bytes, ps);
  }

  lemma HalvesWereGood(address: string, head: seq<string>, tail: seq<string>)
    requires |SplitDouble(address)| == 2 && V6Bytes(address).Some?
    requires Groups(SplitDouble(address)[0]) == head && Groups(SplitDouble(address)[1]) == tail
    ensures AllGroups(head) && IsTail(tail) && |head| + |TailValues(tail)| <= 8
  {
    var full := Expand(tail).value;
    PartsOfGap(head, 8 - |head| - |full|, full);
    ExpandExactly(tail);
  }

  lemma CompressedDenotes(address: string, bytes: Bytes)
    requires |SplitDouble(address)| == 2 && V6Bytes(address) == Some(bytes)
    ensures Denotes(address, bytes)
  {
    var x, y := SplitDouble(address)[0], SplitDouble(address)[1];
    var head, tail := Groups(x), Groups(y);
    HalvesWereGood(address, head, tail);
    HalvesRead(address, head, tail);
    assert address == Compressed(head, tail) by {
      SplitDoubleBack(address);
      JoinOfGroups(x);
      JoinOfGroups(y);
    }
    assert IsCompressed(address, bytes, head, tail);
  }

  lemma PartsOfGap(head: seq<string>, gap: nat, tail: seq<string>)
    requires AllGroups(head + Zeros(gap) + tail)
    ensures AllGroups(head) && AllGroups(tail)
  {
    var full := head + Zeros(gap) + tail;
    assert forall i | 0 <= i < |head| :: head[i] == full[i];
    assert forall i | 0 <= i < |tail| :: tail[i] == full[|head| + gap + i];
  }

  /** The reader accepts exactly these forms, with exactly their meaning, and always sixteen bytes. */
  lemma ReadsExactly(address: string, bytes: Bytes)
    ensures V6Bytes(address) == Some(bytes) <==> Denotes(address, bytes)
    ensures V6Bytes(address) == Some(bytes) ==> |bytes| == 16
  {
    if V6Bytes(address) == Some(bytes) {
      if |SplitDouble(address)| == 1 { FullDenotes(address, bytes); } else { CompressedDenotes(address, bytes); }
    }
    if ps :| IsFull(address, bytes, ps) {
      FullFormReads(ps);
    }
    if head, tail :| IsCompressed(address, bytes, head, tail) {
      CompressedFormReads(head, tail);
    }
  }

  lemma JoinHasNoSlash(ps: seq<string>)
    requires PlainParts(ps)
    ensures '/' !in Join(ps, ':')
  {
    JoinCharacters(ps, ':');
  }

  lemma CompressedHasNoSlash(head: seq<string>, tail: seq<string>)
    requires AllGroups(head) && IsTail(tail)
    ensures '/' !in Compressed(head, tail)
  {
    GroupsArePlain(head);
    TailIsPlain(tail);
    JoinHasNoSlash(head);
    JoinHasNoSlash(tail);
  }

  /** Text that reads as an address holds no slash. */
  lemma NoSlash(address: string, bytes: Bytes)
    requires V6Bytes(address) == Some(bytes)
    ensures '/' !in address
  {
    ReadsExactly(address, bytes);
    if ps :| IsFull(address, bytes, ps) {
      TailIsPlain(ps);
      JoinHasNoSlash(ps);
    } else {
      var head, tail :| IsCompressed(address, bytes, head, tail);
      CompressedHasNoSlash(head, tail);
    }
  }

  /** A quad's bytes are the bytes of the two groups it stands for. */
  lemma QuadBytes(a: Byte, b: Byte, c: Byte, d: Byte)
    ensures BytesOf([Pair(a, b), Pair(c, d)]) == [a, b, c, d]
  {
    var p, q := Pair(a, b), Pair(c, d);
    assert [p, q][..1] == [p] && [p][..0] == [];
    assert BytesOf([p, q]) == BytesOf([]) + GroupBytes(p) + GroupBytes(q);
  }

  /** "::ffff:a.b.c.d" reads as ten zero bytes, two of ones, and the quad's own. */
  lemma MappedQuadReads(a: Byte, b: Byte, c: Byte, d: Byte)
    ensures V6Bytes("::ffff:" + QuadText(a, b, c, d)) == Some([0, 0, 0, 0, 0, 0, 0, 0, 0, 0, 255, 255, a, b, c, d])
  {
    var quad := QuadText(a, b, c, d);
    QuadReadsBack(a, b, c, d);
    MappedTail(quad, a, b, c, d);
    CompressedFormReads([], ["ffff", quad]);
    MappedText(quad);
    MappedBytes(a, b, c, d);
  }

  lemma MappedTail(quad: string, a: Byte, b: Byte, c: Byte, d: Byte)
    requires V4Bytes(quad) == Some([a, b, c, d])
    ensures IsTail(["ffff", quad]) && TailValues(["ffff", quad]) == [0xFFFF, Pair(a, b), Pair(c, d)]
  {
    var tail := ["ffff", quad];
    assert !IsGroupText(quad) by { if IsGroupText(quad) { GroupTextIsPlain(quad); } }
    FfffValue();
    assert tail[..1] == ["ffff"] && ["ffff"][..0] == [] && Values(["ffff"]) == [0xFFFF];
  }

  lemma MappedText(quad: string)
    ensures Compressed([], ["ffff", quad]) == "::ffff:" + quad
  {
    assert ["ffff", quad][1..] == [quad];
    assert Join(["ffff", quad], ':') == "ffff" + [':'] + quad;
  }

  lemma FfffValue()
    ensures IsGroupText("ffff") && GroupValue("ffff") == 0xFFFF
  {
    assert "ffff"[..3] == "fff" && "fff"[..2] == "ff" && "ff"[..1] == "f" && "f"[..0] == [];
    assert HexValue("f") == 15 && HexValue("ff") == 255 && HexValue("fff") == 4095;
  }

  lemma MappedBytes(a: Byte, b: Byte, c: Byte, d: Byte)
    ensures BytesOf(Gapped([], [0xFFFF, Pair(a, b), Pair(c, d)])) == [0, 0, 0, 0, 0, 0, 0, 0, 0, 0, 255, 255, a, b, c, d]
  {
    var gs := Gapped([], [0xFFFF, Pair(a, b), Pair(c, d)]);
    var zeros := ZeroGroups(5);
    assert gs == zeros + [0xFFFF] + [Pair(a, b), Pair(c, d)];
    BytesOfJoined(zeros + [0xFFFF], [Pair(a, b), Pair(c, d)]);
    BytesOfJoined(zeros, [0xFFFF]);
    ZeroBytes(5);
    QuadBytes(a, b, c, d);
    assert BytesOf([0xFFFF]) == [255, 255] by { assert [0xFFFF][..0] == []; }
  }

  lemma {:induction false} BytesOfJoined(gs: seq<Group>, hs: seq<Group>)
    ensures BytesOf(gs + hs) == BytesOf(gs) + BytesOf(hs)
  {
    if hs == [] {
      assert gs + hs == gs;
    } else {
      var n := |hs| - 1;
      BytesOfJoined(gs, hs[..n]);
      BytesAppend(gs + hs[..n], hs[n]);
      assert gs + hs == gs + hs[..n] + [hs[n]];
    }
  }

  lemma ZeroBytes(n: nat)
    ensures |BytesOf(ZeroGroups(n))| == 2 * n && forall k | 0 <= k < 2 * n :: BytesOf(ZeroGroups(n))[k] == 0
  {
    forall k | 0 <= k < 2 * n ensures BytesOf(ZeroGroups(n))[k] == 0 { BytesOfAt(ZeroGroups(n), k / 2); }
  }

  /** Every IPv6 form has a colon, so none of them is a dotted quad. */
  lemma FormsHaveColons(address: string, bytes: Bytes)
    requires Denotes(address, bytes)
    ensures ':' in address
  {
    if ps :| IsFull(address, bytes, ps) {
      LongTail(ps);
      JoinHasSeparator(ps);
    } else {
      var head, tail :| IsCompressed(address, bytes, head, tail);
      CompressedHasColon(head, tail);
    }
  }

  lemma LongTail(ps: seq<string>)
    requires IsTail(ps) && |TailValues(ps)| == 8
    ensures |ps| >= 2
  {
  }

  lemma JoinHasSeparator(ps: seq<string>)
    requires |ps| >= 2
    ensures ':' in Join(ps, ':')
  {
    assert Join(ps, ':')[|ps[0]|] == ':';
  }

  lemma CompressedHasColon(head: seq<string>, tail: seq<string>)
    ensures ':' in Compressed(head, tail)
  {
    assert Compressed(head, tail)[|Join(head, ':')|] == ':';
  }
}
