/**
Command signing and the trusted keyring (crates/ravn-crypto/src/lib.rs). Signatures are ideal: one
verifies under exactly the key that made it, over exactly the payload it was made for. A public key
is its base64 text and its key id the first 16 characters, so ids need not be unique.
*/
module Crypto {
  import opened Options
  import opened Schema

  type Key = string

  function KeyId(k: Key): string { if |k| > 16 then k[..16] else k }

  /** Two keys share an id exactly when they are the same text or agree on their first 16 characters. */
  lemma KeysShareAnIdExactlyWhen(a: Key, b: Key)
    ensures KeyId(a) == KeyId(b) <==>
            a == b || (|a| >= 16 && |b| >= 16 && forall i :: 0 <= i < 16 ==> a[i] == b[i])
  {
    if |a| >= 16 && |b| >= 16 {
      assert KeyId(a) == a[..16] && KeyId(b) == b[..16];
      if a[..16] == b[..16] {
        forall i | 0 <= i < 16 ensures a[i] == b[i] { assert a[..16][i] == b[..16][i]; }
      }
    }
  }

  datatype Signature = Malformed | By(signer: Key, payload: Payload)

  datatype Envelope = Envelope(payload: Payload, sig: Option<Signature>)

  datatype VerifyError = MissingSignature | BadEncoding | BadSignature | Expired | UnknownKey

  datatype KeyError = BadDocument | BadKey

  function Sign(key: Key, p: Payload): Envelope {
    var stamped := p.(kid := Some(KeyId(key)));
    Envelope(stamped, Some(By(key, stamped)))
  }

  /** The trusted keys, as a value that is published, parsed, pinned and swapped as a whole. */
  datatype Keyring = Keyring(keys: map<string, Key>, defaultKid: Option<string>) {
    static function Single(key: Key): Keyring { Keyring(map[KeyId(key) := key], Some(KeyId(key))) }

    function Insert(key: Key): Keyring { this.(keys := keys[KeyId(key) := key]) }

    function SetDefault(kid: string): (bool, Keyring) {
      if kid in keys then (true, this.(defaultKid := Some(kid))) else (false, this)
    }

    function Get(kid: string): Option<Key> { if kid in keys then Some(keys[kid]) else None }

    function DefaultKey(): Option<Key> { if defaultKid.Some? then Get(defaultKid.value) else None }

    predicate IsEmpty() { keys == map[] }

    /** The default, when set, is one of the trusted keys. */
    predicate DefaultInRing() { defaultKid.Some? ==> defaultKid.value in keys }

    /** Every key is filed under its own id. */
    predicate WellKeyed() { forall kid :: kid in keys ==> KeyId(keys[kid]) == kid }

    function ToJson(): Document { Doc(defaultKid, map kid | kid in keys :: Some(keys[kid])) }
  }

  /** A keyring document as read: not JSON at all, or key texts some of which may not decode. */
  datatype Document = NotJson | Doc(activeKid: Option<string>, keys: map<string, Option<Key>>)

  function FromJson(d: Document): Result<Keyring, KeyError> {
    match d
    case NotJson => Err(BadDocument)
    case Doc(active, keys) =>
      if exists kid :: kid in keys && keys[kid].None? then Err(BadKey)
      else
        var ring := Keyring(map kid | kid in keys :: keys[kid].value, active);
        if ring.DefaultInRing() then Ok(ring) else Err(BadKey)
  }

  function VerifySignature(key: Key, env: Envelope): Result<(), VerifyError> {
    match env.sig
    case None => Err(MissingSignature)
    case Some(Malformed) => Err(BadEncoding)
    case Some(By(signer, payload)) => if signer == key && payload == env.payload then Ok(()) else Err(BadSignature)
  }

  /** `verify_envelope_with`: the key the `kid` names, or the default for an envelope without one. */
  function VerifyWith(ring: Keyring, env: Envelope, now: int): Result<(), VerifyError> {
    var key := if env.payload.kid.Some? then ring.Get(env.payload.kid.value) else ring.DefaultKey();
    if key.None? then Err(UnknownKey)
    else
      match VerifySignature(key.value, env)
      case Err(e) => Err(e)
      case Ok(_) => if now > env.payload.expiresAt then Err(Expired) else Ok(())
  }

  /** Publishing and parsing a keyring gives it back exactly when its default is in the ring. */
  lemma JsonRoundTrip(ring: Keyring)
    ensures FromJson(ring.ToJson()) == Ok(ring) <==> ring.DefaultInRing()
  {
    var d := ring.ToJson();
    assert (map kid | kid in d.keys :: d.keys[kid].value) == ring.keys;
  }

  /** What the control plane signs verifies exactly where the ring holds that very key under its id,
      up to and including the expiry. */
  lemma SignedVerifiesExactlyWhenTrusted(ring: Keyring, key: Key, p: Payload, now: int)
    ensures VerifyWith(ring, Sign(key, p), now).Ok? <==>
            KeyId(key) in ring.keys && ring.keys[KeyId(key)] == key && now <= p.expiresAt
  {
  }

  /** Nothing else verifies: an accepted envelope carries a signature, over its whole payload, made
      by a key of the ring: the one its `kid` names, or the default when it names none. */
  lemma AcceptedWasSigned(ring: Keyring, env: Envelope, now: int)
    requires VerifyWith(ring, env, now).Ok?
    ensures now <= env.payload.expiresAt
    ensures exists kid :: kid in ring.keys && env.sig == Some(By(ring.keys[kid], env.payload))
                          && (env.payload.kid == Some(kid) || (env.payload.kid == None && ring.defaultKid == Some(kid)))
  {
    var kid := if env.payload.kid.Some? then env.payload.kid.value else ring.defaultKid.value;
    assert kid in ring.keys && env.sig == Some(By(ring.keys[kid], env.payload));
  }

  /** A document is a ring exactly when all its key texts decode and its default, if it names one, is among
      them; then it is the ring of just those keys under just those ids, with that default. */
  lemma DocumentIsRingExactlyWhen(d: Document)
    ensures FromJson(d).Ok? <==>
            && d.Doc?
            && (forall kid :: kid in d.keys ==> d.keys[kid].Some?)
            && (d.activeKid.Some? ==> d.activeKid.value in d.keys)
    ensures FromJson(d).Ok? ==>
              var ring := FromJson(d).value;
              && ring.keys.Keys == d.keys.Keys && ring.defaultKid == d.activeKid
              && forall kid :: kid in d.keys ==> d.keys[kid] == Some(ring.keys[kid])
  {
    if d.Doc? && forall kid :: kid in d.keys ==> d.keys[kid].Some? {
      assert (map kid | kid in d.keys :: d.keys[kid].value).Keys == d.keys.Keys;
    }
  }

  ghost predicate InjectiveIds(keys: set<Key>) {
    forall a, b :: a in keys && b in keys && KeyId(a) == KeyId(b) ==> a == b
  }

  /** Comparing ids and default is enough to tell rings apart where ids are unique. */
  lemma EqualKidsEqualRings(a: Keyring, b: Keyring)
    requires a.WellKeyed() && b.WellKeyed() && InjectiveIds(a.keys.Values + b.keys.Values)
    requires a.keys.Keys == b.keys.Keys && a.defaultKid == b.defaultKid
    ensures a == b
  {
    forall kid | kid in a.keys ensures a.keys[kid] == b.keys[kid] {
      assert a.keys[kid] in a.keys.Values && b.keys[kid] in b.keys.Values;
    }
  }

  /** A ring of keys from `ks`, each under its own id. */
  ghost predicate RingOver(r: Keyring, ks: set<Key>) { r.WellKeyed() && r.keys.Values <= ks }

  /** What the comparison by ids and default takes for the same ring is the same ring. */
  ghost predicate ComparisonDecides(ks: set<Key>) {
    forall a: Keyring, b: Keyring ::
      RingOver(a, ks) && RingOver(b, ks) && a.keys.Keys == b.keys.Keys && a.defaultKid == b.defaultKid ==> a == b
  }

  /** For the rings over a set of keys it decides exactly when no two of the keys share an id. */
  lemma ComparisonDecidesExactlyWhenIdsAreUnique(ks: set<Key>)
    ensures ComparisonDecides(ks) <==> InjectiveIds(ks)
  {
    if InjectiveIds(ks) {
      forall a: Keyring, b: Keyring |
        RingOver(a, ks) && RingOver(b, ks) && a.keys.Keys == b.keys.Keys && a.defaultKid == b.defaultKid
        ensures a == b
      {
        EqualKidsEqualRings(a, b);
      }
    }
    if ComparisonDecides(ks) {
      forall a, b | a in ks && b in ks && KeyId(a) == KeyId(b) ensures a == b {
        var ra, rb := Keyring.Single(a), Keyring.Single(b);
        assert ra.keys.Values == {a} && rb.keys.Values == {b} by { SingleValues(a); SingleValues(b); }
        assert ra.keys.Keys == rb.keys.Keys && RingOver(ra, ks) && RingOver(rb, ks);
        assert ra.keys[KeyId(a)] == rb.keys[KeyId(a)];
      }
    }
  }

  lemma SingleValues(k: Key)
    ensures Keyring.Single(k).keys.Values == {k}
  {
    assert Keyring.Single(k).keys[KeyId(k)] == k;
  }

  // ---- the ring the control plane publishes ----

  /** `load_or_generate_with_previous` (crates/ravn-server/src/command.rs:57-110), keys already read:
      the active key first, the previous ones on top, the active one as default. */
  function RingWith(active: Key, previous: seq<Key>): Keyring {
    if previous == [] then Keyring.Single(active)
    else RingWith(active, previous[..|previous| - 1]).Insert(previous[|previous| - 1])
  }

  /** A keyring under construction, changed in place. */
  class Ring {
    var keys: map<string, Key>
    var defaultKid: Option<string>

    function Value(): Keyring
      reads this
    {
      Keyring(keys, defaultKid)
    }

    constructor Single(key: Key)
      ensures Value() == Keyring.Single(key)
    {
      var kid := KeyId(key);
      keys := map[kid := key];
      defaultKid := Some(kid);
    }

    /** Adds or replaces a key; the default stays. */
    method Insert(key: Key) returns (kid: string)
      modifies this
      ensures Value() == old(Value()).Insert(key) && kid == KeyId(key)
    {
      kid := KeyId(key);
      keys := keys[kid := key];
    }

    method SetDefault(kid: string) returns (ok: bool)
      modifies this
      ensures (ok, Value()) == old(Value()).SetDefault(kid)
    {
      ok := kid in keys;
      if ok {
        defaultKid := Some(kid);
      }
    }
  }

  method LoadOrGenerateWithPrevious(active: Key, previous: seq<Option<Key>>) returns (r: Result<Keyring, KeyError>)
    ensures r.Err? <==> None in previous
    ensures r.Ok? ==> r.value == RingWith(active, seq(|previous|, i requires 0 <= i < |previous| && None !in previous => previous[i].value))
    ensures r.Ok? ==> r.value.defaultKid == Some(KeyId(active)) && r.value.DefaultInRing() && r.value.WellKeyed()
  {
    var ring := new Ring.Single(active);
    ghost var done: seq<Key> := [];
    for i := 0 to |previous|
      invariant None !in previous[..i]
      invariant |done| == i && forall j :: 0 <= j < i ==> previous[j] == Some(done[j])
      invariant ring.Value() == RingWith(active, done)
    {
      if previous[i].None? {
        return Err(BadKey);
      }
      var kid := ring.Insert(previous[i].value);
      assert (done + [previous[i].value])[..i] == done;
      done := done + [previous[i].value];
    }
    RingWithIsSound(active, done);
    var found := ring.SetDefault(KeyId(active));
    assert previous[..|previous|] == previous;
    assert done == seq(|previous|, i requires 0 <= i < |previous| && None !in previous => previous[i].value);
    r := Ok(ring.Value());
  }

  lemma {:induction false} RingWithIsSound(active: Key, previous: seq<Key>)
    ensures var ring := RingWith(active, previous);
            && ring.defaultKid == Some(KeyId(active)) && ring.DefaultInRing() && ring.WellKeyed()
            && ring.keys.Values <= {active} + set k | k in previous
  {
    if previous != [] {
      var last := previous[|previous| - 1];
      RingWithIsSound(active, previous[..|previous| - 1]);
      assert previous == previous[..|previous| - 1] + [last];
      var before, ring := RingWith(active, previous[..|previous| - 1]), RingWith(active, previous);
      forall v | v in ring.keys.Values ensures v in {active} + set k | k in previous {
        var kid :| kid in ring.keys && ring.keys[kid] == v;
        if kid != KeyId(last) { assert before.keys[kid] in before.keys.Values; }
      }
    }
  }

  /** During the overlap window commands of the old key and of the new one both verify. */
  lemma OverlapTrustsBoth(active: Key, previous: seq<Key>, signer: Key, p: Payload, now: int)
    requires InjectiveIds({active} + set k | k in previous) && now <= p.expiresAt
    requires signer == active || signer in previous
    ensures VerifyWith(RingWith(active, previous), Sign(signer, p), now).Ok?
  {
    RingHolds(active, previous, signer);
  }

  lemma {:induction false} RingHolds(active: Key, previous: seq<Key>, k: Key)
    requires InjectiveIds({active} + set x | x in previous) && (k == active || k in previous)
    ensures RingWith(active, previous).Get(KeyId(k)) == Some(k)
  {
    if previous != [] {
      var front, last := previous[..|previous| - 1], previous[|previous| - 1];
      assert previous == front + [last];
      if KeyId(k) != KeyId(last) {
        assert k in {active} + set x | x in front;
        RingHolds(active, front, k);
      } else {
        assert k in {active} + set x | x in previous;
      }
    }
  }
}
