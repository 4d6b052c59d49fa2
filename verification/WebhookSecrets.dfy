/**
 Rotating an endpoint's signing secret (db/repositories/webhook_endpoint.py) and choosing the secrets a delivery
 is signed with (services/webhooks/delivery_handler.py).  Instants are microseconds.
*/
module WebhookSecrets {
  import opened Outcomes
  import opened Arithmetic
  import opened Octets
  import opened Sequences
  import opened Texts
  import opened WebhookSigning

  type EndpointId = nat
  type Cipher = string

  const HOUR: int := 3_600_000_000

  /** A stored expiry: missing or not a date, a date with a zone, or a legacy date without one, which is read as UTC. */
  datatype Expiry = Unreadable | Zoned(at: int) | Zoneless(at: int)

  /** A replaced secret; one without a readable expiry counts as expired. */
  datatype OldSecret = OldSecret(ciphertext: Cipher, expiry: Expiry) {
    predicate AliveAt(now: int) { !expiry.Unreadable? && expiry.at > now }
  }

  datatype Endpoint = Endpoint(secret: Cipher, retired: seq<OldSecret>, updatedAt: int)

  /** The entries not yet expired, in order. */
  function Survivors(retired: seq<OldSecret>, now: int): seq<OldSecret> {
    if retired == [] then []
    else
      var init, last := Survivors(retired[..|retired| - 1], now), retired[|retired| - 1];
      if last.AliveAt(now) then init + [last] else init
  }

  /** Stored with a readable expiry that is still ahead. */
  function InForce(now: int): OldSecret -> bool { (e: OldSecret) => !e.expiry.Unreadable? && now < e.expiry.at }

  lemma {:induction false} SurvivorsSelect(retired: seq<OldSecret>, now: int)
    ensures Selects(retired, InForce(now), Survivors(retired, now))
  {
    if retired == [] {
      SelectsNone<OldSecret>(InForce(now));
    } else {
      SurvivorsSelect(retired[..|retired| - 1], now);
      SelectsLast(retired, InForce(now), Survivors(retired[..|retired| - 1], now));
    }
  }

  function Rotated(ep: Endpoint, secret: Cipher, graceHours: int, now: int): Endpoint {
    Endpoint(secret, Survivors(ep.retired, now) + [OldSecret(ep.secret, Zoned(now + graceHours * HOUR))], now)
  }

  datatype RotationError = GraceNotPositive

  class EndpointRepository {
    var endpoints: map<EndpointId, Endpoint>

    constructor ()
      ensures endpoints == map[]
    {
      endpoints := map[];
    }

    method RotateSecret(id: EndpointId, newSecret: Cipher, graceHours: int, now: int)
      returns (r: Result<Option<Endpoint>, RotationError>)
      modifies this
      ensures graceHours <= 0 ==> r == Err(GraceNotPositive)
      ensures graceHours > 0 && id !in old(endpoints) ==> r == Ok(None)
      ensures r.Err? || r.value.None? ==> endpoints == old(endpoints)
      ensures graceHours > 0 && id in old(endpoints) ==>
                && endpoints == old(endpoints)[id := Rotated(old(endpoints)[id], newSecret, graceHours, now)]
                && r == Ok(Some(endpoints[id]))
                && endpoints[id].secret == newSecret && endpoints[id].updatedAt == now
      ensures graceHours > 0 && id in old(endpoints) ==>
                var before, after := old(endpoints)[id], endpoints[id].retired;
                && after != [] && after[|after| - 1] == OldSecret(before.secret, Zoned(now + graceHours * 3_600_000_000))
                && Selects(before.retired, InForce(now), after[..|after| - 1])
    {
      if graceHours <= 0 { return Err(GraceNotPositive); }
      if id !in endpoints { return Ok(None); }
      var ep := endpoints[id];
      var surviving := [];
      for i := 0 to |ep.retired|
        invariant surviving == Survivors(ep.retired[..i], now)
      {
        assert ep.retired[..i + 1][..i] == ep.retired[..i];
        if ep.retired[i].AliveAt(now) {
          surviving := surviving + [ep.retired[i]];
        }
      }
      assert ep.retired[..|ep.retired|] == ep.retired;
      SurvivorsSelect(ep.retired, now);
      assert (surviving + [OldSecret(ep.secret, Zoned(now + graceHours * HOUR))])[..|surviving|] == surviving;
      surviving := surviving + [OldSecret(ep.secret, Zoned(now + graceHours * HOUR))];
      endpoints := endpoints[id := Endpoint(newSecret, surviving, now)];
      return Ok(Some(endpoints[id]));
    }
  }

  datatype DeliveryError = ZonelessExpiry | Undecryptable(ciphertext: Cipher)

  /** Decryption of a stored secret; None where it raises, as a missing ciphertext also does. */
  type Decrypt = Cipher -> Option<Bytes>

  predicate AllZoned(retired: seq<OldSecret>) { forall i | 0 <= i < |retired| :: !retired[i].expiry.Zoneless? }

  /** Every secret a delivery at `now` needs can be decrypted. */
  predicate Decryptable(decrypt: Decrypt, ep: Endpoint, now: int) {
    decrypt(ep.secret).Some? && forall i | 0 <= i < |ep.retired| && ep.retired[i].AliveAt(now) :: decrypt(ep.retired[i].ciphertext).Some?
  }

  /** Where decryption succeeds, what it gives. */
  function Opened(decrypt: Decrypt): Cipher -> Bytes { (c: Cipher) => if decrypt(c).Some? then decrypt(c).value else [] }

  /**
   The plaintext secrets a delivery at `now` is signed with: the active one, then every old one still alive.  The
   delivery handler compares each readable expiry with an aware clock, which raises on one without a zone.
  */
  method SigningSecrets(decrypt: Decrypt, ep: Endpoint, now: int) returns (r: Result<seq<Bytes>, DeliveryError>)
    ensures r.Ok? <==> AllZoned(ep.retired) && Decryptable(decrypt, ep, now)
    ensures r.Ok? ==> r.value == SecretsAt(Opened(decrypt), ep, now)
  {
    var active := decrypt(ep.secret);
    if active.None? { return Err(Undecryptable(ep.secret)); }
    ghost var open := Opened(decrypt);
    var secrets := [active.value];
    for i := 0 to |ep.retired|
      invariant forall k | 0 <= k < i :: !ep.retired[k].expiry.Zoneless?
      invariant forall k | 0 <= k < i && ep.retired[k].AliveAt(now) :: decrypt(ep.retired[k].ciphertext).Some?
      invariant secrets == SecretsAmong(open, ep, i, now)
    {
      var entry := ep.retired[i];
      if entry.expiry.Zoneless? {
        assert !AllZoned(ep.retired);
        return Err(ZonelessExpiry);
      }
      if entry.AliveAt(now) {
        var plain := decrypt(entry.ciphertext);
        if plain.None? {
          assert !Decryptable(decrypt, ep, now);
          return Err(Undecryptable(entry.ciphertext));
        }
        secrets := secrets + [plain.value];
      }
    }
    SecretsAmongAll(open, ep, |ep.retired|, now);
    assert ep.retired[..|ep.retired|] == ep.retired;
    return Ok(secrets);
  }

  /** The active secret and the old ones alive, in plain. */
  function SecretsAt(decrypt: Cipher -> Bytes, ep: Endpoint, now: int): seq<Bytes> {
    [decrypt(ep.secret)] + Plain(decrypt, Survivors(ep.retired, now))
  }

  function Plain(decrypt: Cipher -> Bytes, retired: seq<OldSecret>): seq<Bytes> {
    if retired == [] then [] else Plain(decrypt, retired[..|retired| - 1]) + [decrypt(retired[|retired| - 1].ciphertext)]
  }

  lemma PlainAppend(decrypt: Cipher -> Bytes, retired: seq<OldSecret>, e: OldSecret)
    ensures Plain(decrypt, retired + [e]) == Plain(decrypt, retired) + [decrypt(e.ciphertext)]
  {
    assert (retired + [e])[..|retired|] == retired;
  }

  /** The active secret and those of the first `n` old ones that are alive. */
  ghost function SecretsAmong(decrypt: Cipher -> Bytes, ep: Endpoint, n: nat, now: int): seq<Bytes>
    requires n <= |ep.retired|
  {
    if n == 0 then [decrypt(ep.secret)]
    else
      var init, e := SecretsAmong(decrypt, ep, n - 1, now), ep.retired[n - 1];
      if e.AliveAt(now) then init + [decrypt(e.ciphertext)] else init
  }

  lemma {:induction false} SecretsAmongAll(decrypt: Cipher -> Bytes, ep: Endpoint, n: nat, now: int)
    requires n <= |ep.retired|
    ensures SecretsAmong(decrypt, ep, n, now) == [decrypt(ep.secret)] + Plain(decrypt, Survivors(ep.retired[..n], now))
  {
    if n > 0 {
      SecretsAmongAll(decrypt, ep, n - 1, now);
      assert ep.retired[..n][..n - 1] == ep.retired[..n - 1];
      PlainAppend(decrypt, Survivors(ep.retired[..n - 1], now), ep.retired[n - 1]);
    }
  }

  // ---------------------------------------------------------------- histories of rotations

  datatype Rotation = Rotation(secret: Cipher, graceHours: int, now: int)

  predicate InOrder(rs: seq<Rotation>) {
    && (forall i | 0 <= i < |rs| :: rs[i].graceHours > 0)
    && (forall i, j | 0 <= i < j < |rs| :: rs[i].now <= rs[j].now)
  }

  function Replay(ep: Endpoint, rs: seq<Rotation>): Endpoint {
    if rs == [] then ep
    else var n := |rs| - 1; Rotated(Replay(ep, rs[..n]), rs[n].secret, rs[n].graceHours, rs[n].now)
  }

  /** The secret in use after the rotations. */
  function Active(ep: Endpoint, rs: seq<Rotation>): Cipher { if rs == [] then ep.secret else rs[|rs| - 1].secret }

  /** Every secret ever replaced, with its grace, nothing pruned. */
  function Replaced(ep: Endpoint, rs: seq<Rotation>): seq<OldSecret> {
    if rs == [] then ep.retired
    else
      var n := |rs| - 1;
      Replaced(ep, rs[..n]) + [OldSecret(Active(ep, rs[..n]), Zoned(rs[n].now + rs[n].graceHours * HOUR))]
  }

  lemma {:induction false} SurvivorsLater(retired: seq<OldSecret>, now: int, later: int)
    requires now <= later
    ensures Survivors(Survivors(retired, now), later) == Survivors(retired, later)
  {
    if retired != [] {
      var init, last := retired[..|retired| - 1], retired[|retired| - 1];
      SurvivorsLater(init, now, later);
      if last.AliveAt(now) {
        SurvivorsAppend(Survivors(init, now), last, later);
      }
    }
  }

  lemma SurvivorsAppend(retired: seq<OldSecret>, e: OldSecret, now: int)
    ensures Survivors(retired + [e], now) == if e.AliveAt(now) then Survivors(retired, now) + [e] else Survivors(retired, now)
  {
    assert (retired + [e])[..|retired|] == retired;
  }

  /**
   The pruned list refines the full history: after any rotations it holds exactly the replaced secrets whose grace
   had not ended at the last rotation, and from then on exactly those still in grace count as alive.
  */
  lemma {:induction false} RotationRefinesHistory(ep: Endpoint, rs: seq<Rotation>, now: int)
    requires InOrder(rs) && (rs != [] ==> rs[|rs| - 1].now <= now)
    ensures Replay(ep, rs).secret == Active(ep, rs)
    ensures rs != [] ==> Replay(ep, rs).retired == Survivors(Replaced(ep, rs), rs[|rs| - 1].now)
    ensures Survivors(Replay(ep, rs).retired, now) == Survivors(Replaced(ep, rs), now)
  {
    if rs != [] {
      var n := |rs| - 1;
      RotationRefinesHistory(ep, rs[..n], rs[n].now);
      RotatedRefines(Replay(ep, rs[..n]), Replaced(ep, rs[..n]), rs[n]);
      SurvivorsLater(Replaced(ep, rs), rs[n].now, now);
    }
  }

  /** One rotation of an endpoint that agrees with its history up to now. */
  lemma RotatedRefines(ep: Endpoint, all: seq<OldSecret>, r: Rotation)
    requires r.graceHours > 0 && Survivors(ep.retired, r.now) == Survivors(all, r.now)
    ensures Rotated(ep, r.secret, r.graceHours, r.now).retired ==
            Survivors(all + [OldSecret(ep.secret, Zoned(r.now + r.graceHours * HOUR))], r.now)
  {
    GraceIsAhead(r);
    SurvivorsAppend(all, OldSecret(ep.secret, Zoned(r.now + r.graceHours * HOUR)), r.now);
  }

  /** Rotation writes zones: an endpoint without a legacy expiry never gets one, so its deliveries never raise. */
  lemma {:induction false} RotationKeepsZones(ep: Endpoint, rs: seq<Rotation>)
    requires AllZoned(ep.retired)
    ensures AllZoned(Replay(ep, rs).retired)
  {
    if rs != [] {
      var n := |rs| - 1;
      RotationKeepsZones(ep, rs[..n]);
      SurvivorsZoned(Replay(ep, rs[..n]).retired, rs[n].now);
    }
  }

  lemma {:induction false} SurvivorsZoned(retired: seq<OldSecret>, now: int)
    requires AllZoned(retired)
    ensures AllZoned(Survivors(retired, now))
  {
    if retired != [] {
      SurvivorsZoned(retired[..|retired| - 1], now);
    }
  }

  lemma GraceIsAhead(r: Rotation)
    requires r.graceHours > 0
    ensures r.now + r.graceHours * HOUR > r.now
  {
    assert r.graceHours * HOUR >= HOUR;
  }

  // ---------------------------------------------------------------- how long a secret lasts

  /** What rotation `k` stores for the secret it replaces: it expires after that rotation's grace, in microseconds. */
  function ReplacedBy(ep: Endpoint, rs: seq<Rotation>, k: nat): OldSecret
    requires k < |rs|
  {
    OldSecret(if k == 0 then ep.secret else rs[k - 1].secret, Zoned(rs[k].now + rs[k].graceHours * 3_600_000_000))
  }

  /** In grace at `now`: what was stored before the rotations and has not expired, and what rotations stored within their grace. */
  ghost predicate InGrace(ep: Endpoint, rs: seq<Rotation>, now: int, e: OldSecret) {
    || (e in ep.retired && !e.expiry.Unreadable? && now < e.expiry.at)
    || exists k :: 0 <= k < |rs| && e == ReplacedBy(ep, rs, k) && now < rs[k].now + rs[k].graceHours * 3_600_000_000
  }

  lemma {:induction false} ReplacedExactly(ep: Endpoint, rs: seq<Rotation>, e: OldSecret)
    ensures e in Replaced(ep, rs) <==> e in ep.retired || exists k :: 0 <= k < |rs| && e == ReplacedBy(ep, rs, k)
  {
    if rs != [] {
      var n := |rs| - 1;
      ReplacedExactly(ep, rs[..n], e);
      assert forall k | 0 <= k < n :: ReplacedBy(ep, rs[..n], k) == ReplacedBy(ep, rs, k);
      assert Replaced(ep, rs) == Replaced(ep, rs[..n]) + [ReplacedBy(ep, rs, n)];
    }
  }

  lemma {:induction false} SurvivorsExactly(retired: seq<OldSecret>, now: int, e: OldSecret)
    ensures e in Survivors(retired, now) <==> e in retired && !e.expiry.Unreadable? && now < e.expiry.at
  {
    if retired != [] {
      var n := |retired| - 1;
      SurvivorsExactly(retired[..n], now, e);
      assert retired == retired[..n] + [retired[n]];
    }
  }

  lemma AliveExactly(ep: Endpoint, rs: seq<Rotation>, now: int, e: OldSecret)
    ensures e in Survivors(Replaced(ep, rs), now) <==> InGrace(ep, rs, now, e)
  {
    SurvivorsExactly(Replaced(ep, rs), now, e);
    ReplacedExactly(ep, rs, e);
    forall k | 0 <= k < |rs| ensures ReplacedBy(ep, rs, k).expiry == Zoned(rs[k].now + rs[k].graceHours * 3_600_000_000) {}
  }

  /** After the last rotation an old secret is stored exactly while it is in grace; later deliveries drop the rest as well. */
  lemma StoredExactly(ep: Endpoint, rs: seq<Rotation>, e: OldSecret)
    requires InOrder(rs) && rs != []
    ensures e in Replay(ep, rs).retired <==> InGrace(ep, rs, rs[|rs| - 1].now, e)
  {
    RotationRefinesHistory(ep, rs, rs[|rs| - 1].now);
    AliveExactly(ep, rs, rs[|rs| - 1].now, e);
  }

  /** What a delivery at `now` signs with: the newest secret, and every other exactly while it is in grace. */
  lemma SignsWithExactly(decrypt: Cipher -> Bytes, ep: Endpoint, rs: seq<Rotation>, now: int, key: Bytes)
    requires InOrder(rs) && (rs != [] ==> rs[|rs| - 1].now <= now)
    ensures key in SecretsAt(decrypt, Replay(ep, rs), now) <==>
            || key == decrypt(if rs == [] then ep.secret else rs[|rs| - 1].secret)
            || exists e :: InGrace(ep, rs, now, e) && key == decrypt(e.ciphertext)
  {
    RotationRefinesHistory(ep, rs, now);
    var alive := Survivors(Replaced(ep, rs), now);
    if key in Plain(decrypt, alive) {
      PlainSource(decrypt, alive, key);
      var e :| e in alive && decrypt(e.ciphertext) == key;
      AliveExactly(ep, rs, now, e);
    }
    if e :| InGrace(ep, rs, now, e) && key == decrypt(e.ciphertext) {
      AliveExactly(ep, rs, now, e);
      PlainMember(decrypt, alive, e);
    }
    assert SecretsAt(decrypt, Replay(ep, rs), now) == [decrypt(Active(ep, rs))] + Plain(decrypt, alive);
  }

  // ---------------------------------------------------------------- receivers

  lemma {:induction false} PlainMember(decrypt: Cipher -> Bytes, retired: seq<OldSecret>, e: OldSecret)
    requires e in retired
    ensures decrypt(e.ciphertext) in Plain(decrypt, retired)
  {
    if e != retired[|retired| - 1] {
      PlainMember(decrypt, retired[..|retired| - 1], e);
    }
  }

  /**
   A receiver holding the active secret, or any replaced secret whose grace has not ended, keeps verifying.  No expiry
   lost its zone on the way, so the delivery builds its headers once the secrets in use can be decrypted.
  */
  lemma ReceiverKeepsVerifying(mac: Mac, decrypt: Decrypt, ep: Endpoint, rs: seq<Rotation>, now: int, held: Bytes,
                               msgId: Bytes, body: Bytes, ts: int, tolerance: int, seen: int)
    requires InOrder(rs) && (rs != [] ==> rs[|rs| - 1].now <= now) && Abs(seen - ts) <= tolerance
    requires AllZoned(ep.retired) && Decryptable(decrypt, Replay(ep, rs), now)
    requires || decrypt(if rs == [] then ep.secret else rs[|rs| - 1].secret) == Some(held)
             || exists e :: InGrace(ep, rs, now, e) && decrypt(e.ciphertext) == Some(held)
    ensures AllZoned(Replay(ep, rs).retired)
    ensures Accepts(mac, [held], BuildHeaders(mac, SecretsAt(Opened(decrypt), Replay(ep, rs), now), msgId, body, ts).value,
                    body, tolerance, seen)
  {
    var secrets := SecretsAt(Opened(decrypt), Replay(ep, rs), now);
    RotationKeepsZones(ep, rs);
    SignsWithExactly(Opened(decrypt), ep, rs, now, held);
    assert held in secrets && held in [held];
    BuiltHeadersVerify(mac, secrets, msgId, ts, body, [held], tolerance, seen);
  }

  /** Conversely a receiver holding only secrets out of grace accepts nothing, whatever it is shown, or two MACs collide. */
  lemma RetiredSecretIsRefused(mac: Mac, decrypt: Cipher -> Bytes, ep: Endpoint, rs: seq<Rotation>, now: int, held: seq<Bytes>,
                               msgId: Bytes, body: Bytes, ts: int, h: Headers, body': Bytes, tolerance: int, seen: int)
    requires InOrder(rs) && (rs != [] ==> rs[|rs| - 1].now <= now)
    requires decrypt(if rs == [] then ep.secret else rs[|rs| - 1].secret) !in held
    requires forall e | InGrace(ep, rs, now, e) :: decrypt(e.ciphertext) !in held
    requires h.signature == SignatureHeader(mac, SecretsAt(decrypt, Replay(ep, rs), now), msgId, ts, body)
    ensures var secrets := SecretsAt(decrypt, Replay(ep, rs), now);
            || !Accepts(mac, held, h, body', tolerance, seen)
            || (&& ParseInt(h.timestamp).Some?
                && MacsCollide(mac, secrets, Signed(msgId, ts, body), held, Signed(h.id, ParseInt(h.timestamp).value, body')))
  {
    var secrets := SecretsAt(decrypt, Replay(ep, rs), now);
    forall k | k in secrets ensures k !in held { SignsWithExactly(decrypt, ep, rs, now, k); }
    AcceptedExactly(mac, secrets, msgId, ts, body, held, h.id, h.timestamp, body', tolerance, seen);
  }

  lemma {:induction false} PlainSource(decrypt: Cipher -> Bytes, retired: seq<OldSecret>, k: Bytes)
    requires k in Plain(decrypt, retired)
    ensures exists e | e in retired :: decrypt(e.ciphertext) == k
  {
    var n := |retired| - 1;
    if decrypt(retired[n].ciphertext) != k {
      PlainSource(decrypt, retired[..n], k);
      var e :| e in retired[..n] && decrypt(e.ciphertext) == k;
      assert e in retired;
    } else {
      assert retired[n] in retired;
    }
  }
}
