/**
 Signing and verifying outbound webhooks (security/webhook_signing.py).

 HMAC-SHA256 is the parameter `mac`, from a secret and a message to bytes.  Message ids are given in UTF-8.
*/
module WebhookSigning {
  import opened Outcomes
  import opened Arithmetic
  import opened Octets
  import opened Base64
  import opened Decimal
  import opened Texts

  type Mac = (Bytes, Bytes) -> Bytes

  const DOT: Byte := 46

  function TokenBytes(t: string): (r: Bytes)
    requires forall c | c in t :: IsIntChar(c)
    ensures |r| == |t| && forall i | 0 <= i < |t| :: r[i] == t[i] as int
  {
    if t == [] then [] else assert t[0] in t; assert IsIntChar(t[0]); var b: Byte := t[0] as int; [b] + TokenBytes(t[1..])
  }

  function TimestampBytes(ts: int): Bytes { TokenBytes(IntText(ts)) }

  /** The signed string: id, timestamp and body, joined with dots. */
  function Signed(msgId: Bytes, ts: int, body: Bytes): Bytes {
    msgId + [DOT] + (TimestampBytes(ts) + [DOT] + body)
  }

  function Sign(mac: Mac, secret: Bytes, msgId: Bytes, ts: int, body: Bytes): string {
    "v1," + Encode(mac(secret, Signed(msgId, ts, body)))
  }

  datatype Headers = Headers(id: Bytes, timestamp: string, signature: string)

  datatype SigningError = NoSecret

  function Entries(mac: Mac, secrets: seq<Bytes>, msgId: Bytes, ts: int, body: Bytes): (r: seq<string>)
    ensures |r| == |secrets| && forall i | 0 <= i < |r| :: r[i] == Sign(mac, secrets[i], msgId, ts, body)
  {
    seq(|secrets|, i requires 0 <= i < |secrets| => Sign(mac, secrets[i], msgId, ts, body))
  }

  function BuildHeaders(mac: Mac, secrets: seq<Bytes>, msgId: Bytes, body: Bytes, ts: int): Result<Headers, SigningError> {
    if secrets == [] then Err(NoSecret)
    else Ok(Headers(msgId, IntText(ts), SignatureHeader(mac, secrets, msgId, ts, body)))
  }

  function SignatureHeader(mac: Mac, secrets: seq<Bytes>, msgId: Bytes, ts: int, body: Bytes): string {
    Join(Entries(mac, secrets, msgId, ts, body), ' ')
  }

  // ---------------------------------------------------------------- verifying

  /** The MAC an entry of the signature header carries, None for one that is skipped. */
  function EntryMac(entry: string): Option<Bytes> {
    var e := Strip(entry);
    if |e| < 3 || e[..3] != "v1," then None else Decode(e[3..])
  }

  /** Some entry of the header carries the MAC of `signed` under some secret. */
  ghost predicate Matches(mac: Mac, secrets: seq<Bytes>, entries: seq<string>, signed: Bytes) {
    exists i, j :: 0 <= i < |entries| && 0 <= j < |secrets| && EntryMac(entries[i]) == Some(mac(secrets[j], signed))
  }

  /** A delivery is accepted: the timestamp is a number close enough to `now`, and some signature matches. */
  ghost predicate Accepts(mac: Mac, secrets: seq<Bytes>, h: Headers, body: Bytes, tolerance: int, now: int) {
    && secrets != [] && ParseInt(h.timestamp).Some?
    && var ts := ParseInt(h.timestamp).value;
       Abs(now - ts) <= tolerance && Matches(mac, secrets, Split(h.signature, ' '), Signed(h.id, ts, body))
  }

  method Verify(mac: Mac, secrets: seq<Bytes>, h: Headers, body: Bytes, tolerance: int, now: int) returns (ok: bool)
    ensures ok <==> Accepts(mac, secrets, h, body, tolerance, now)
  {
    if |secrets| == 0 { return false; }
    var parsed := ParseInt(h.timestamp);
    if parsed.None? { return false; }
    var ts := parsed.value;
    if Abs(now - ts) > tolerance { return false; }
    var signed := Signed(h.id, ts, body);
    var expected := seq(|secrets|, j requires 0 <= j < |secrets| => mac(secrets[j], signed));
    ok := AnyMatch(mac, secrets, Split(h.signature, ' '), signed, expected);
  }

  /** The loops over entries and expected MACs, with their early return. */
  method AnyMatch(mac: Mac, secrets: seq<Bytes>, entries: seq<string>, signed: Bytes, expected: seq<Bytes>) returns (found: bool)
    requires |expected| == |secrets| && forall j | 0 <= j < |secrets| :: expected[j] == mac(secrets[j], signed)
    ensures found <==> Matches(mac, secrets, entries, signed)
  {
    for i := 0 to |entries|
      invariant forall k | 0 <= k < i :: !Carries(entries[k], expected)
    {
      var got := EntryMac(entries[i]);
      if got.None? { continue; }
      for j := 0 to |expected|
        invariant got.value !in expected[..j]
      {
        if got.value == expected[j] {
          assert EntryMac(entries[i]) == Some(mac(secrets[j], signed));
          return true;
        }
      }
      assert expected[..|expected|] == expected;
    }
    return false;
  }

  predicate Carries(entry: string, expected: seq<Bytes>) { EntryMac(entry).Some? && EntryMac(entry).value in expected }

  // ---------------------------------------------------------------- what is built verifies

  /** An entry holds no space and reads back as its MAC. */
  lemma EntryReadsBack(mac: Mac, secret: Bytes, msgId: Bytes, ts: int, body: Bytes)
    ensures ' ' !in Sign(mac, secret, msgId, ts, body)
    ensures EntryMac(Sign(mac, secret, msgId, ts, body)) == Some(mac(secret, Signed(msgId, ts, body)))
    ensures Sign(mac, secret, msgId, ts, body)[..3] == "v1,"
  {
    var code := Encode(mac(secret, Signed(msgId, ts, body)));
    RoundTrip(mac(secret, Signed(msgId, ts, body)));
    EncodeAlphabet(mac(secret, Signed(msgId, ts, body)));
    PrefixedEntry(code);
    assert ("v1," + code)[..3] == "v1,";
  }

  /** The MAC an entry carries: what stands after v1 and a comma, once blanks around the entry are gone. */
  lemma EntryMacExactly(entry: string, m: Bytes)
    ensures EntryMac(entry) == Some(m) <==> exists code :: Strip(entry) == "v1," + code && Decode(code) == Some(m)
  {
    var e := Strip(entry);
    if |e| >= 3 && e[..3] == "v1," { assert e == "v1," + e[3..]; }
    if code :| e == "v1," + code && Decode(code) == Some(m) { assert e[..3] == "v1," && e[3..] == code; }
  }

  lemma PrefixedEntry(code: string)
    requires forall c | c in code :: InAlphabet(c) || c == '='
    ensures ' ' !in "v1," + code && EntryMac("v1," + code) == Decode(code)
  {
    var e := "v1," + code;
    assert e[0] == 'v' && e[1] == '1' && e[2] == ',' && e[3..] == code && e[..3] == "v1,";
    assert !IsSpace(e[|e| - 1]) by { if code != [] { assert code[|code| - 1] in code; } }
    assert Strip(e) == e;
    assert forall c | c in e :: c in "v1," || c in code;
  }

  lemma BuiltEntries(mac: Mac, secrets: seq<Bytes>, msgId: Bytes, ts: int, body: Bytes)
    requires secrets != []
    ensures Split(SignatureHeader(mac, secrets, msgId, ts, body), ' ') == Entries(mac, secrets, msgId, ts, body)
  {
    var entries := Entries(mac, secrets, msgId, ts, body);
    forall i | 0 <= i < |entries| ensures ' ' !in entries[i] { EntryReadsBack(mac, secrets[i], msgId, ts, body); }
    SplitJoin(entries, ' ');
  }

  /** Whatever receiver, message and timestamp the header is checked against, it matches exactly on an equal MAC. */
  lemma BuiltMatches(mac: Mac, secrets: seq<Bytes>, msgId: Bytes, ts: int, body: Bytes, held: seq<Bytes>, signed: Bytes)
    requires secrets != []
    ensures Matches(mac, held, Entries(mac, secrets, msgId, ts, body), signed) <==>
            exists i, j :: 0 <= i < |secrets| && 0 <= j < |held| && mac(secrets[i], Signed(msgId, ts, body)) == mac(held[j], signed)
  {
    var entries := Entries(mac, secrets, msgId, ts, body);
    forall i | 0 <= i < |secrets| ensures EntryMac(entries[i]) == Some(mac(secrets[i], Signed(msgId, ts, body))) {
      EntryReadsBack(mac, secrets[i], msgId, ts, body);
    }
    if Matches(mac, held, entries, signed) {
      var i, j :| 0 <= i < |entries| && 0 <= j < |held| && EntryMac(entries[i]) == Some(mac(held[j], signed));
      assert mac(secrets[i], Signed(msgId, ts, body)) == mac(held[j], signed);
    }
    if i, j :| 0 <= i < |secrets| && 0 <= j < |held| && mac(secrets[i], Signed(msgId, ts, body)) == mac(held[j], signed) {
      assert EntryMac(entries[i]) == Some(mac(held[j], signed));
    }
  }

  /** Headers as built, checked unchanged, verify for any receiver that holds one of the signing secrets. */
  lemma BuiltHeadersVerify(mac: Mac, secrets: seq<Bytes>, msgId: Bytes, ts: int, body: Bytes, held: seq<Bytes>, tolerance: int, now: int)
    requires secrets != [] && Abs(now - ts) <= tolerance && exists k | k in secrets :: k in held
    ensures Accepts(mac, held, BuildHeaders(mac, secrets, msgId, body, ts).value, body, tolerance, now)
  {
    IntRoundTrip(ts);
    BuiltEntries(mac, secrets, msgId, ts, body);
    SharedSecretMatches(mac, secrets, msgId, ts, body, held);
  }

  lemma SharedSecretMatches(mac: Mac, secrets: seq<Bytes>, msgId: Bytes, ts: int, body: Bytes, held: seq<Bytes>)
    requires secrets != [] && exists k | k in secrets :: k in held
    ensures Matches(mac, held, Entries(mac, secrets, msgId, ts, body), Signed(msgId, ts, body))
  {
    var k :| k in secrets && k in held;
    var i :| 0 <= i < |secrets| && secrets[i] == k;
    var j :| 0 <= j < |held| && held[j] == k;
    BuiltMatches(mac, secrets, msgId, ts, body, held, Signed(msgId, ts, body));
    assert mac(secrets[i], Signed(msgId, ts, body)) == mac(held[j], Signed(msgId, ts, body));
  }

  // ---------------------------------------------------------------- and nothing else does

  /** A secret of the sender for `m` and a secret of the receiver for `n` give one MAC, though secret or message differ. */
  ghost predicate MacsCollide(mac: Mac, secrets: seq<Bytes>, m: Bytes, held: seq<Bytes>, n: Bytes) {
    exists i, j :: 0 <= i < |secrets| && 0 <= j < |held| && mac(secrets[i], m) == mac(held[j], n) && (secrets[i] != held[j] || m != n)
  }

  function DotAt(s: Bytes): nat { if s == [] || s[0] == DOT then 0 else 1 + DotAt(s[1..]) }

  lemma {:induction false} DotEnds(a: Bytes, p: Bytes)
    requires DOT !in a
    ensures DotAt(a + [DOT] + p) == |a|
  {
    if a != [] {
      assert (a + [DOT] + p)[1..] == a[1..] + [DOT] + p;
      DotEnds(a[1..], p);
    }
  }

  lemma FirstDot(a: Bytes, p: Bytes, b: Bytes, q: Bytes)
    requires DOT !in a && DOT !in b && a + [DOT] + p == b + [DOT] + q
    ensures a == b && p == q
  {
    DotEnds(a, p);
    DotEnds(b, q);
    var x, y := a + [DOT] + p, b + [DOT] + q;
    assert a == x[..|a|] && p == x[|a| + 1..] && b == y[..|b|] && q == y[|b| + 1..];
  }

  lemma TokenUnique(t: string, u: string)
    requires (forall c | c in t :: IsIntChar(c)) && (forall c | c in u :: IsIntChar(c)) && TokenBytes(t) == TokenBytes(u)
    ensures t == u
  {
    forall i | 0 <= i < |t| ensures t[i] == u[i] { assert TokenBytes(t)[i] == TokenBytes(u)[i]; }
  }

  lemma NoDotInToken(t: string)
    requires forall c | c in t :: IsIntChar(c)
    ensures DOT !in TokenBytes(t)
  {
    forall i | 0 <= i < |t| ensures TokenBytes(t)[i] != DOT { assert t[i] in t; }
  }

  // ---------------------------------------------------------------- which ids can be confused

  /** Two different messages under these ids have one signed string. */
  ghost predicate Confusable(a: Bytes, b: Bytes) {
    exists ts, body, ts', body' :: (a != b || ts != ts' || body != body') && Signed(a, ts, body) == Signed(b, ts', body')
  }

  /** The part of an id from position `k` up to the next dot. */
  function Segment(b: Bytes, k: nat): Bytes
    requires k <= |b|
  {
    DotAtBound(b[k..]);
    b[k..][..DotAt(b[k..])]
  }

  lemma {:induction false} DotAtBound(s: Bytes)
    ensures DotAt(s) <= |s| && (DotAt(s) < |s| ==> s[DotAt(s)] == DOT) && DOT !in s[..DotAt(s)]
  {
    if s != [] && s[0] != DOT {
      DotAtBound(s[1..]);
      assert s[..DotAt(s)] == [s[0]] + s[1..][..DotAt(s[1..])];
    }
  }

  ghost predicate IsTimestamp(segment: Bytes) { exists n :: TimestampBytes(n) == segment }

  /** `b` is `a`, a dot, an integer as it is printed, and then nothing or another dot. */
  ghost predicate Extends(a: Bytes, b: Bytes) {
    |a| < |b| && b[..|a|] == a && b[|a|] == DOT && IsTimestamp(Segment(b, |a| + 1))
  }

  /** Whatever follows a dot does not move the first dot. */
  lemma {:induction false} DotStays(c: Bytes, r: Bytes)
    ensures DotAt(c + [DOT] + r) == DotAt(c)
  {
    if c != [] && c[0] != DOT {
      assert (c + [DOT] + r)[1..] == c[1..] + [DOT] + r;
      DotStays(c[1..], r);
    }
  }

  lemma Tail(a: Bytes, p: Bytes, b: Bytes, q: Bytes)
    requires |a| < |b| && a + [DOT] + p == b + [DOT] + q
    ensures b[..|a|] == a && b[|a|] == DOT && p == b[|a| + 1..] + [DOT] + q
  {
    var x, y := a + [DOT] + p, b + [DOT] + q;
    assert x[..|a|] == a && y[..|a|] == b[..|a|];
    assert x[|a|] == DOT && y[|a|] == b[|a|];
    assert x[|a| + 1..] == p && y[|a| + 1..] == b[|a| + 1..] + [DOT] + q;
  }

  lemma LongerIdExtends(a: Bytes, ts: int, body: Bytes, b: Bytes, ts': int, body': Bytes)
    requires |a| < |b| && Signed(a, ts, body) == Signed(b, ts', body')
    ensures Extends(a, b)
  {
    var t, c := TimestampBytes(ts), b[|a| + 1..];
    var q := TimestampBytes(ts') + [DOT] + body';
    Tail(a, t + [DOT] + body, b, q);
    NoDotInToken(IntText(ts));
    DotEnds(t, body);
    DotStays(c, q);
    DotAtBound(c);
    var w := t + [DOT] + body;
    assert w == c + [DOT] + q && DotAt(c) == |t|;
    assert w[..|t|] == t && w[..|t|] == c[..|t|];
  }

  lemma SameIdIsUnique(a: Bytes, ts: int, body: Bytes, ts': int, body': Bytes)
    requires Signed(a, ts, body) == Signed(a, ts', body')
    ensures ts == ts' && body == body'
  {
    var x, y := Signed(a, ts, body), Signed(a, ts', body');
    assert x[|a| + 1..] == TimestampBytes(ts) + [DOT] + body && y[|a| + 1..] == TimestampBytes(ts') + [DOT] + body';
    NoDotInToken(IntText(ts));
    NoDotInToken(IntText(ts'));
    FirstDot(TimestampBytes(ts), body, TimestampBytes(ts'), body');
    TokenUnique(IntText(ts), IntText(ts'));
    IntRoundTrip(ts);
    IntRoundTrip(ts');
  }

  lemma SameLengthSameId(a: Bytes, p: Bytes, b: Bytes, q: Bytes)
    requires |a| == |b| && a + [DOT] + p == b + [DOT] + q
    ensures a == b
  {
    assert a == (a + [DOT] + p)[..|a|] && b == (b + [DOT] + q)[..|b|];
  }

  /** An id that extends another can be confused with it. */
  lemma ExtensionConfuses(a: Bytes, b: Bytes)
    requires Extends(a, b)
    ensures Confusable(a, b)
  {
    var n, r := ExtensionParts(a, b);
    var t, z := TimestampBytes(n), TimestampBytes(0) + [DOT] + [];
    BodyFits(t, r, z);
    PrependId(a, t + r, z);
    assert Signed(a, n, ExtensionBody(r, z)) == Signed(b, 0, []);
  }

  lemma ExtensionParts(a: Bytes, b: Bytes) returns (n: int, r: Bytes)
    requires Extends(a, b)
    ensures b == a + [DOT] + (TimestampBytes(n) + r) && (r == [] || r[0] == DOT)
  {
    n :| TimestampBytes(n) == Segment(b, |a| + 1);
    r := SplitAtDot(b[|a| + 1..]);
    SplitAt(b, |a|);
  }

  lemma SplitAtDot(c: Bytes) returns (r: Bytes)
    ensures DotAt(c) <= |c| && c == c[..DotAt(c)] + r && (r == [] || r[0] == DOT)
  {
    DotAtBound(c);
    r := c[DotAt(c)..];
  }

  lemma SplitAt(b: Bytes, k: nat)
    requires k < |b|
    ensures b == b[..k] + [b[k]] + b[k + 1..]
  {
  }

  /** The body that makes up for a shorter id. */
  function ExtensionBody(r: Bytes, z: Bytes): Bytes { if r == [] then z else r[1..] + [DOT] + z }

  lemma BodyFits(t: Bytes, r: Bytes, z: Bytes)
    requires r == [] || r[0] == DOT
    ensures t + [DOT] + ExtensionBody(r, z) == t + r + [DOT] + z
  {
    if r != [] { assert r == [DOT] + r[1..]; }
  }

  lemma PrependId(a: Bytes, c: Bytes, z: Bytes)
    ensures a + [DOT] + (c + [DOT] + z) == a + [DOT] + c + [DOT] + z
  {
  }

  /** Two ids can be confused exactly when one is the other, a dot, a printed integer, and nothing or a dot after it. */
  lemma ConfusableExactly(a: Bytes, b: Bytes)
    ensures Confusable(a, b) <==> Extends(a, b) || Extends(b, a)
  {
    if Confusable(a, b) {
      var ts, body, ts', body' :| (a != b || ts != ts' || body != body') && Signed(a, ts, body) == Signed(b, ts', body');
      SignedDetermines(a, ts, body, b, ts', body');
    }
    if Extends(a, b) { ExtensionConfuses(a, b); }
    if Extends(b, a) {
      ExtensionConfuses(b, a);
      var ts, body, ts', body' :| (b != a || ts != ts' || body != body') && Signed(b, ts, body) == Signed(a, ts', body');
      assert Signed(a, ts', body') == Signed(b, ts, body);
    }
  }

  lemma SignedDetermines(a: Bytes, ts: int, body: Bytes, b: Bytes, ts': int, body': Bytes)
    requires Signed(a, ts, body) == Signed(b, ts', body')
    ensures Extends(a, b) || Extends(b, a) || (a == b && ts == ts' && body == body')
  {
    if |a| < |b| {
      LongerIdExtends(a, ts, body, b, ts', body');
    } else if |b| < |a| {
      LongerIdExtends(b, ts', body', a, ts, body);
    } else {
      SameLengthSameId(a, TimestampBytes(ts) + [DOT] + body, b, TimestampBytes(ts') + [DOT] + body');
      SameIdIsUnique(a, ts, body, ts', body');
    }
  }

  /** Ids neither of which extends the other - ids without a dot, say: the signed string determines id, timestamp and body. */
  lemma SignedUnique(id: Bytes, ts: int, body: Bytes, id': Bytes, ts': int, body': Bytes)
    requires !Extends(id, id') && !Extends(id', id) && Signed(id, ts, body) == Signed(id', ts', body')
    ensures id == id' && ts == ts' && body == body'
  {
    SignedDetermines(id, ts, body, id', ts', body');
  }

  /** Ids without a dot never extend one another. */
  lemma PlainIdsAreApart(a: Bytes, b: Bytes)
    requires DOT !in a && DOT !in b
    ensures !Extends(a, b) && !Extends(b, a) && !Confusable(a, b)
  {
    ConfusableExactly(a, b);
  }

  /** The signed string: id, dot, the timestamp's digits in ASCII, dot, body. */
  lemma SignedLayout(msgId: Bytes, ts: int, body: Bytes)
    ensures var digits := IntText(ts);
            var s := Signed(msgId, ts, body);
            && |s| == |msgId| + 1 + |digits| + 1 + |body|
            && s[..|msgId|] == msgId && s[|msgId|] == 46
            && (forall i | 0 <= i < |digits| :: s[|msgId| + 1 + i] == digits[i] as int)
            && s[|msgId| + 1 + |digits|] == 46 && s[|msgId| + 1 + |digits| + 1..] == body
  {
  }

  /** "a" at 1 with body "2.x" signs as "a.1" at 2 with body "x". */
  lemma DottedIdsCollide()
    ensures Signed([97], 1, [50, 46, 120]) == Signed([97, 46, 49], 2, [120])
  {
    assert IntText(1) == "1" && IntText(2) == "2";
    assert TimestampBytes(1) == [49] && TimestampBytes(2) == [50];
  }

  // ---------------------------------------------------------------- who accepts what

  /**
   Who accepts a built signature header, and for what, whatever id, timestamp and body are presented with it: exactly
   receivers sharing a secret with the sender, for exactly the string that was signed, within the tolerance - or two
   MACs in play collide.
  */
  lemma AcceptedExactly(mac: Mac, secrets: seq<Bytes>, msgId: Bytes, ts: int, body: Bytes,
                        held: seq<Bytes>, id': Bytes, stamp: string, body': Bytes, tolerance: int, now: int)
    requires secrets != []
    ensures var header := Headers(id', stamp, SignatureHeader(mac, secrets, msgId, ts, body));
            if ParseInt(stamp).None? then !Accepts(mac, held, header, body', tolerance, now)
            else
              var t := ParseInt(stamp).value;
              || MacsCollide(mac, secrets, Signed(msgId, ts, body), held, Signed(id', t, body'))
              || (Accepts(mac, held, header, body', tolerance, now) <==>
                  && Signed(id', t, body') == Signed(msgId, ts, body) && Abs(now - t) <= tolerance
                  && exists k | k in secrets :: k in held)
  {
    if ParseInt(stamp).Some? {
      BuiltEntries(mac, secrets, msgId, ts, body);
      MatchesExactly(mac, secrets, msgId, ts, body, held, Signed(id', ParseInt(stamp).value, body'));
    }
  }

  /** For ids that cannot be confused that is exactly the id, timestamp and body that were signed. */
  lemma AcceptedMessageExactly(mac: Mac, secrets: seq<Bytes>, msgId: Bytes, ts: int, body: Bytes,
                               held: seq<Bytes>, id': Bytes, stamp: string, body': Bytes, tolerance: int, now: int)
    requires secrets != [] && ParseInt(stamp).Some? && !Extends(msgId, id') && !Extends(id', msgId)
    ensures var t := ParseInt(stamp).value;
            || MacsCollide(mac, secrets, Signed(msgId, ts, body), held, Signed(id', t, body'))
            || (Accepts(mac, held, Headers(id', stamp, SignatureHeader(mac, secrets, msgId, ts, body)), body', tolerance, now) <==>
                && id' == msgId && t == ts && body' == body && Abs(now - ts) <= tolerance
                && exists k | k in secrets :: k in held)
  {
    var t := ParseInt(stamp).value;
    AcceptedExactly(mac, secrets, msgId, ts, body, held, id', stamp, body', tolerance, now);
    if Signed(id', t, body') == Signed(msgId, ts, body) {
      SignedUnique(id', t, body', msgId, ts, body);
    }
  }

  lemma MatchesExactly(mac: Mac, secrets: seq<Bytes>, msgId: Bytes, ts: int, body: Bytes, held: seq<Bytes>, n: Bytes)
    requires secrets != []
    ensures || MacsCollide(mac, secrets, Signed(msgId, ts, body), held, n)
            || (Matches(mac, held, Entries(mac, secrets, msgId, ts, body), n) <==>
                n == Signed(msgId, ts, body) && exists k | k in secrets :: k in held)
  {
    var m := Signed(msgId, ts, body);
    BuiltMatches(mac, secrets, msgId, ts, body, held, n);
    if i, j :| 0 <= i < |secrets| && 0 <= j < |held| && mac(secrets[i], m) == mac(held[j], n) && !MacsCollide(mac, secrets, m, held, n) {
      assert secrets[i] in secrets && held[j] in held && secrets[i] == held[j] && m == n;
    }
    if n == m && exists k | k in secrets :: k in held {
      SharedSecretMatches(mac, secrets, msgId, ts, body, held);
    }
  }
}
