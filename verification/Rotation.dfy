/**
Key rotation across three parties: the control plane publishes a ring, `ravnd` refreshes and pins it
(crates/ravn-agent/src/remediation.rs:36-65 and 335-380), the actuator reloads the pinned file before
every command (crates/ravn-actuator/src/lib.rs:469-489, crates/ravn-actuator/src/main.rs:34-45).
*/
module Rotation {
  import opened Options
  import opened Schema
  import opened Crypto

  /** A document that parses to a ring with keys, which is the only kind anyone swaps in. */
  function Usable(d: Document): Option<Keyring> {
    match FromJson(d)
    case Ok(r) => if r.IsEmpty() then None else Some(r)
    case Err(_) => None
  }

  /** `load_pinned_keyring`: the keyring file if it is usable, else the single pinned key. */
  function LoadPinned(file: Option<Document>, pubkey: Option<Key>): Option<Keyring> {
    var ring := if file.Some? then Usable(file.value) else None;
    if ring.Some? then ring
    else if pubkey.Some? then Some(Keyring.Single(pubkey.value)) else None
  }

  /** Both sides compare trust sets by ids and default only. */
  predicate Changed(current: Keyring, fresh_: Keyring) {
    current.keys.Keys != fresh_.keys.Keys || current.defaultKid != fresh_.defaultKid
  }

  function Refreshed(ring: Keyring, file: Option<Document>, fetched: Option<Document>, persistOk: bool): (Keyring, Option<Document>) {
    var fresh_ := if fetched.Some? then Usable(fetched.value) else None;
    if fresh_.None? || !Changed(ring, fresh_.value) then (ring, file)
    else (fresh_.value, if persistOk then fetched else file)
  }

  function Reloaded(ring: Keyring, file: Option<Document>): Keyring {
    var fresh_ := if file.Some? then Usable(file.value) else None;
    if fresh_.None? || !Changed(ring, fresh_.value) then ring else fresh_.value
  }

  /** A document worth holding: keys that all decode, at least one, and a default among them if it names one. */
  predicate IsFit(d: Document) {
    && d.Doc? && d.keys != map[]
    && (forall kid :: kid in d.keys ==> d.keys[kid].Some?)
    && (d.activeKid.Some? ==> d.activeKid.value in d.keys)
  }

  /** Which documents are taken, and where: both sides take one exactly when it is fit and names other ids or
      another default than the ring they hold, and then hold its keys; everything else leaves ring and file
      alone. At a restart an unfit one counts as none. */
  lemma DocumentIsTakenExactlyWhen(ring: Keyring, file: Option<Document>, d: Document, persistOk: bool, pubkey: Option<Key>)
    ensures var taken := IsFit(d) && (d.keys.Keys != ring.keys.Keys || d.activeKid != ring.defaultKid);
            && (!taken ==> Refreshed(ring, file, Some(d), persistOk) == (ring, file) && Reloaded(ring, Some(d)) == ring)
            && (taken ==>
                  && Refreshed(ring, file, Some(d), persistOk) == (RingOf(d), if persistOk then Some(d) else file)
                  && Reloaded(ring, Some(d)) == RingOf(d))
    ensures LoadPinned(Some(d), pubkey) ==
            if IsFit(d) then Some(RingOf(d)) else if pubkey.Some? then Some(Keyring.Single(pubkey.value)) else None
    ensures Refreshed(ring, file, None, persistOk) == (ring, file) && Reloaded(ring, None) == ring
  {
    DocumentIsRingExactlyWhen(d);
    if FromJson(d).Ok? { RingOfIs(d); }
    hide FromJson;
  }

  /** The keys of a document as a ring. */
  function RingOf(d: Document): Keyring
    requires IsFit(d)
  {
    Keyring(map kid | kid in d.keys :: d.keys[kid].value, d.activeKid)
  }

  lemma RingOfIs(d: Document)
    requires FromJson(d).Ok?
    ensures IsFit(d) <==> !FromJson(d).value.IsEmpty()
    ensures IsFit(d) ==> FromJson(d).value == RingOf(d)
  {
    DocumentIsRingExactlyWhen(d);
    var ring := FromJson(d).value;
    if d.keys != map[] {
      var kid :| kid in d.keys;
      assert kid in ring.keys;
      assert ring.keys == RingOf(d).keys;
    } else {
      assert ring.keys.Keys == {};
    }
  }

  /** `ravnd`'s ring behind its lock, and the keyring file it pins. */
  class AgentTrust {
    var ring: Keyring
    var file: Option<Document>

    constructor (ring: Keyring, file: Option<Document>)
      ensures this.ring == ring && this.file == file
    {
      this.ring, this.file := ring, file;
    }

    /** `fetched` is the published document, or nothing when the control plane did not answer. */
    method RefreshKeyring(fetched: Option<Document>, persistOk: bool)
      modifies this
      ensures (ring, file) == Refreshed(old(ring), old(file), fetched, persistOk)
    {
      if fetched.None? {
        return;
      }
      var parsed := FromJson(fetched.value);
      if parsed.Err? || parsed.value.IsEmpty() {
        return;
      }
      if !Changed(ring, parsed.value) {
        return;
      }
      if persistOk {
        file := fetched;
      }
      ring := parsed.value;
    }
  }

  class ActuatorTrust {
    var ring: Keyring

    constructor (ring: Keyring)
      ensures this.ring == ring
    {
      this.ring := ring;
    }

    method ReloadKeyring(file: Option<Document>)
      modifies this
      ensures ring == Reloaded(old(ring), file)
    {
      if file.Some? {
        var parsed := FromJson(file.value);
        if parsed.Ok? && !parsed.value.IsEmpty() && Changed(ring, parsed.value) {
          ring := parsed.value;
        }
      }
    }
  }

  // ---- runs ----

  datatype Event =
    | ServerRestart(active: Key, previous: seq<Key>)
    | Refresh(reached: bool, persistOk: bool)
    | AgentRestart(readable: bool)
    | ActuatorRestart(readable: bool)
    | Command(readable: bool) // the actuator reloads before it looks at the command

  /** An enrolled host: the ring its control plane published at enrollment, the pinned key, and, if
      the control plane already sent one, the keyring file. */
  datatype Run =
    | Enrolled(active: Key, previous: seq<Key>, withKeyring: bool)
    | Then(before: Run, event: Event)

  datatype Host = Host(published: Keyring, agent: Keyring, file: Option<Document>, pubkey: Key, actuator: Keyring)

  /** A file that cannot be read is taken for one that is not there. */
  function Read(file: Option<Document>, readable: bool): Option<Document> { if readable then file else None }

  /** What the pinned files say. */
  function Pinned(file: Option<Document>, pubkey: Key): Keyring {
    LoadPinned(file, Some(pubkey)).value
  }

  function Next(h: Host, e: Event): Host {
    match e
    case ServerRestart(active, previous) => h.(published := RingWith(active, previous))
    case Refresh(reached, persistOk) =>
      var (ring, file) := Refreshed(h.agent, h.file, if reached then Some(h.published.ToJson()) else None, persistOk);
      h.(agent := ring, file := file)
    case AgentRestart(readable) => h.(agent := Pinned(Read(h.file, readable), h.pubkey))
    case ActuatorRestart(readable) => h.(actuator := Pinned(Read(h.file, readable), h.pubkey))
    case Command(readable) => h.(actuator := Reloaded(h.actuator, Read(h.file, readable)))
  }

  function After(run: Run): Host {
    match run
    case Enrolled(active, previous, withKeyring) =>
      var ring := RingWith(active, previous);
      var file := if withKeyring then Some(ring.ToJson()) else None;
      Host(ring, Pinned(file, active), file, active, Pinned(file, active))
    case Then(before, e) => Next(After(before), e)
  }

  function KeysIn(run: Run): set<Key> {
    match run
    case Enrolled(active, previous, _) => {active} + set k | k in previous
    case Then(before, ServerRestart(active, previous)) => KeysIn(before) + {active} + set k | k in previous
    case Then(before, _) => KeysIn(before)
  }

  /** The agent could write every refresh and read the file at every restart. */
  predicate AgentDiskWorks(run: Run) {
    run.Then? ==>
      && AgentDiskWorks(run.before)
      && (run.event.Refresh? ==> run.event.persistOk)
      && (run.event.AgentRestart? ==> run.event.readable)
  }

  /** A ring with keys from `ks` only, each under its own id, and a default among them. */
  ghost predicate Good(r: Keyring, ks: set<Key>) {
    r.WellKeyed() && r.DefaultInRing() && !r.IsEmpty() && r.keys.Values <= ks
  }

  ghost predicate Sound(h: Host, ks: set<Key>) {
    && Good(h.published, ks) && Good(h.agent, ks) && Good(h.actuator, ks)
    && Good(Pinned(h.file, h.pubkey), ks) && Good(Keyring.Single(h.pubkey), ks)
    && (h.file.Some? ==> Usable(h.file.value).Some?)
    && (h.file.None? ==> h.actuator == Pinned(h.file, h.pubkey))
  }

  lemma PublishedIsUsable(r: Keyring, ks: set<Key>)
    requires Good(r, ks)
    ensures Usable(r.ToJson()) == Some(r)
  {
    JsonRoundTrip(r);
  }

  lemma GoodGrows(h: Host, ks: set<Key>, more: set<Key>)
    requires Sound(h, ks) && ks <= more
    ensures Sound(h, more)
  {
  }

  lemma UnchangedIsEqual(a: Keyring, b: Keyring, ks: set<Key>)
    requires Good(a, ks) && Good(b, ks) && InjectiveIds(ks)
    ensures Changed(a, b) <==> a != b
  {
    if !Changed(a, b) { EqualKidsEqualRings(a, b); }
  }

  lemma RingWithIsGood(active: Key, previous: seq<Key>)
    ensures Good(RingWith(active, previous), {active} + set k | k in previous)
    ensures Good(Keyring.Single(active), {active})
  {
    RingWithIsSound(active, previous);
    RingWithIsSound(active, []);
    var r := RingWith(active, previous);
    assert KeyId(active) in r.keys;
  }

  lemma NextIsSound(h: Host, ks: set<Key>, e: Event)
    requires Sound(h, ks)
    requires e.ServerRestart? ==> Good(RingWith(e.active, e.previous), ks)
    ensures Sound(Next(h, e), ks)
  {
    match e
    case ServerRestart(active, previous) =>
    case Refresh(reached, persistOk) => PublishedIsUsable(h.published, ks);
    case AgentRestart(_) =>
    case ActuatorRestart(_) =>
    case Command(_) =>
  }

  lemma {:induction false} EveryStateIsSound(run: Run)
    ensures Sound(After(run), KeysIn(run))
  {
    match run
    case Enrolled(active, previous, withKeyring) =>
      RingWithIsGood(active, previous);
      PublishedIsUsable(RingWith(active, previous), KeysIn(run));
    case Then(before, e) =>
      EveryStateIsSound(before);
      GoodGrows(After(before), KeysIn(before), KeysIn(run));
      if e.ServerRestart? { RingWithIsGood(e.active, e.previous); }
      NextIsSound(After(before), KeysIn(run), e);
  }

  /** Whatever happened before, after a reload that read the file the actuator trusts what is pinned. */
  lemma ReloadedIsPinned(h: Host, ks: set<Key>)
    requires Sound(h, ks) && InjectiveIds(ks)
    ensures Reloaded(h.actuator, h.file) == Pinned(h.file, h.pubkey)
  {
    if h.file.Some? { UnchangedIsEqual(h.actuator, Usable(h.file.value).value, ks); }
  }

  /** A refresh leaves `ravnd` on what is pinned exactly when: it changed nothing and `ravnd` was on it
      before; or it changed the ring and either wrote it or found it pinned already. */
  lemma RefreshLeavesItPinnedExactlyWhen(h: Host, ks: set<Key>, reached: bool, persistOk: bool)
    requires Sound(h, ks) && InjectiveIds(ks)
    ensures var (h', pinned) := (Next(h, Refresh(reached, persistOk)), Pinned(h.file, h.pubkey));
            h'.agent == Pinned(h'.file, h'.pubkey) <==>
            if !reached || h.agent == h.published then h.agent == pinned else persistOk || h.published == pinned
  {
    PublishedIsUsable(h.published, ks);
    UnchangedIsEqual(h.agent, h.published, ks);
  }

  /** The last refresh that changed the agent's ring since enrollment or its last restart wrote it or
      found it pinned already; if there was none, that restart could read the file, or the file says no
      more than the single key it fell back to. */
  predicate PinsHold(run: Run) {
    match run
    case Enrolled(_, _, _) => true
    case Then(before, Refresh(reached, persistOk)) =>
      var h := After(before);
      if !reached || h.agent == h.published then PinsHold(before)
      else persistOk || h.published == Pinned(h.file, h.pubkey)
    case Then(before, AgentRestart(readable)) =>
      readable || Pinned(After(before).file, After(before).pubkey) == Keyring.Single(After(before).pubkey)
    case Then(before, _) => PinsHold(before)
  }

  lemma {:induction false} AgentIsPinnedExactlyWhen(run: Run)
    requires InjectiveIds(KeysIn(run))
    ensures After(run).agent == Pinned(After(run).file, After(run).pubkey) <==> PinsHold(run)
  {
    hide Refreshed, Reloaded, LoadPinned, Sound, RingWith;
    match run
    case Enrolled(_, _, _) =>
    case Then(before, e) =>
      AgentIsPinnedExactlyWhen(before);
      EveryStateIsSound(before);
      if e.Refresh? { RefreshLeavesItPinnedExactlyWhen(After(before), KeysIn(before), e.reached, e.persistOk); }
      PinnedWithoutFile(After(before).pubkey);
  }

  lemma PinnedWithoutFile(pubkey: Key)
    ensures Pinned(None, pubkey) == Keyring.Single(pubkey)
  {
  }

  lemma {:induction false} WorkingDiskHoldsPins(run: Run)
    requires AgentDiskWorks(run)
    ensures PinsHold(run)
  {
    hide After;
    if run.Then? { WorkingDiskHoldsPins(run.before); }
  }

  /** Over every run of server restarts with new keys, refreshes, restarts of either side and reloads,
      in which the agent's disk works: on a command whose reload reads the file, whatever became of
      earlier ones, `ravnd` and the actuator reach the same verdict at the same time, so what `ravnd`
      accepted is accepted while it has not expired. */
  lemma RotationAgreement(run: Run, env: Envelope, now: int, later: int)
    requires InjectiveIds(KeysIn(run)) && AgentDiskWorks(run)
    ensures var h := After(run);
            && VerifyWith(h.agent, env, now) == VerifyWith(After(Then(run, Command(true))).actuator, env, now)
            && (VerifyWith(h.agent, env, now).Ok? && later <= env.payload.expiresAt ==>
                  VerifyWith(After(Then(run, Command(true))).actuator, env, later).Ok?)
  {
    hide Pinned, Reloaded, Sound, VerifyWith, PinsHold, AgentDiskWorks;
    WorkingDiskHoldsPins(run);
    AgentIsPinnedExactlyWhen(run);
    EveryStateIsSound(run);
    ReloadedIsPinned(After(run), KeysIn(run));
    if VerifyWith(After(run).agent, env, now).Ok? && later <= env.payload.expiresAt {
      VerdictLasts(After(run).agent, env, now, later);
    }
  }

  // ---- exactly when the two agree ----

  /** The ring the actuator last read: from the file, or at a restart that could not read it, from the
      single key it falls back to. */
  function LastRead(run: Run): Keyring {
    match run
    case Enrolled(_, _, _) => Pinned(After(run).file, After(run).pubkey)
    case Then(before, ActuatorRestart(readable)) => Pinned(Read(After(before).file, readable), After(before).pubkey)
    case Then(before, Command(true)) => Pinned(After(before).file, After(before).pubkey)
    case Then(before, _) => LastRead(before)
  }

  lemma {:induction false} ActuatorHoldsLastRead(run: Run)
    requires InjectiveIds(KeysIn(run))
    ensures After(run).actuator == LastRead(run)
  {
    hide Refreshed, Reloaded, Pinned, Sound;
    match run
    case Enrolled(_, _, _) =>
    case Then(before, e) =>
      ActuatorHoldsLastRead(before);
      EveryStateIsSound(before);
      if e.Command? {
        if e.readable { ReloadedIsPinned(After(before), KeysIn(before)); } else { NothingToReload(After(before).actuator); }
      }
  }

  lemma NothingToReload(ring: Keyring)
    ensures Reloaded(ring, None) == ring
  {
  }

  /** Two rings that give every envelope the same verdict are the same ring. */
  ghost predicate SameVerdicts(a: Keyring, b: Keyring) {
    forall env, now :: VerifyWith(a, env, now) == VerifyWith(b, env, now)
  }

  lemma SameVerdictsTrustTheSame(a: Keyring, b: Keyring, ks: set<Key>, kid: string)
    requires Good(a, ks) && SameVerdicts(a, b) && kid in a.keys
    ensures kid in b.keys && b.keys[kid] == a.keys[kid]
  {
    hide SameVerdicts, VerifyWith;
    var p := AnyPayload(None);
    SignedVerifiesExactlyWhenTrusted(a, a.keys[kid], p, 0);
    SignedVerifiesExactlyWhenTrusted(b, a.keys[kid], p, 0);
    SameVerdict(a, b, Sign(a.keys[kid], p), 0);
  }

  lemma SameVerdict(a: Keyring, b: Keyring, env: Envelope, now: int)
    requires SameVerdicts(a, b)
    ensures VerifyWith(a, env, now) == VerifyWith(b, env, now)
  {
  }

  function AnyPayload(kid: Option<string>): Payload {
    Payload(0, 0, "", 0, Safe, [], [], None, NoRollback, PolicyAuto, 0, 0, 0, kid)
  }

  /** An envelope without a key id, signed by the default key of `a`, tells the defaults apart. */
  lemma SameVerdictsSameDefault(a: Keyring, b: Keyring, ks: set<Key>)
    requires Good(a, ks) && Good(b, ks) && SameVerdicts(a, b) && a.defaultKid.Some?
    ensures b.defaultKid == a.defaultKid
  {
    var key, p := a.keys[a.defaultKid.value], AnyPayload(None);
    var env := Envelope(p, Some(By(key, p)));
    assert VerifyWith(a, env, 0).Ok?;
    SameVerdict(a, b, env, 0);
  }

  lemma SameVerdictsSameRing(a: Keyring, b: Keyring, ks: set<Key>)
    requires Good(a, ks) && Good(b, ks)
    ensures SameVerdicts(a, b) <==> a == b
  {
    if SameVerdicts(a, b) {
      assert SameVerdicts(b, a) by { forall env, now ensures VerifyWith(b, env, now) == VerifyWith(a, env, now) { SameVerdict(a, b, env, now); } }
      forall kid | kid in a.keys ensures kid in b.keys && b.keys[kid] == a.keys[kid] { SameVerdictsTrustTheSame(a, b, ks, kid); }
      forall kid | kid in b.keys ensures kid in a.keys { SameVerdictsTrustTheSame(b, a, ks, kid); }
      assert a.keys == b.keys;
      hide VerifyWith, SameVerdicts, Good;
      if a.defaultKid.Some? { SameVerdictsSameDefault(a, b, ks); }
      if b.defaultKid.Some? { SameVerdictsSameDefault(b, a, ks); }
    }
  }

  lemma SameRingExactlyWhen(run: Run, readable: bool)
    requires InjectiveIds(KeysIn(run))
    ensures After(run).agent == After(Then(run, Command(readable))).actuator <==>
            if readable then PinsHold(run) else After(run).agent == LastRead(run)
  {
    hide After, Pinned, Reloaded, PinsHold;
    ActuatorHoldsLastRead(Then(run, Command(readable)));
    AgentIsPinnedExactlyWhen(run);
  }

  /** Over every run, failed writes and reads included: on a command, `ravnd` and the actuator give every
      envelope the same verdict exactly when the pins hold, if the actuator's reload could read the file,
      and otherwise exactly when `ravnd` is on the ring the actuator last read. */
  lemma AgreementExactlyWhenPinsHold(run: Run, readable: bool)
    requires InjectiveIds(KeysIn(run))
    ensures SameVerdicts(After(run).agent, After(Then(run, Command(readable))).actuator) <==>
            if readable then PinsHold(run) else After(run).agent == LastRead(run)
  {
    EveryStateIsSound(run);
    EveryStateIsSound(Then(run, Command(readable)));
    assert KeysIn(Then(run, Command(readable))) == KeysIn(run);
    hide After, KeysIn, Pinned, SameVerdicts, Good, PinsHold, LastRead;
    SameRingExactlyWhen(run, readable);
    SameVerdictsSameRing(After(run).agent, After(Then(run, Command(readable))).actuator, KeysIn(run));
  }

  lemma VerdictLasts(ring: Keyring, env: Envelope, now: int, later: int)
    requires VerifyWith(ring, env, now).Ok? && later <= env.payload.expiresAt
    ensures VerifyWith(ring, env, later).Ok?
  {
  }

  /** Once both could read the file, `ravnd` at a restart and the actuator at a reload, the two agree
      again, whatever failed before. */
  lemma RestartRestoresAgreement(run: Run)
    requires InjectiveIds(KeysIn(run))
    ensures After(Then(Then(run, AgentRestart(true)), Command(true))).actuator == After(Then(run, AgentRestart(true))).agent
  {
    EveryStateIsSound(run);
    ReloadedIsPinned(After(run), KeysIn(run));
  }

  /** A persist that failed is not made up for: as long as the published ring stays the same, later
      refreshes see no change and leave the file alone. */
  lemma FailedPersistIsNotRetried(run: Run, persistOk: bool)
    requires InjectiveIds(KeysIn(run))
    ensures var h := After(Then(run, Refresh(true, false)));
            After(Then(Then(run, Refresh(true, false)), Refresh(true, persistOk))) == h && h.file == After(run).file
  {
    EveryStateIsSound(run);
    var h := After(run);
    PublishedIsUsable(h.published, KeysIn(run));
    UnchangedIsEqual(h.agent, h.published, KeysIn(run));
  }

  /** What that means for the new key: `ravnd` dispatches its commands at once, and the actuator knows
      it exactly when the refresh was written and the reload could read it. */
  lemma NewKeyIsKnownExactlyWhen(a: Key, b: Key, p: Payload, persistOk: bool, readable: bool)
    requires KeyId(a) != KeyId(b)
    ensures var run := Then(Then(Enrolled(a, [], true), ServerRestart(b, [a])), Refresh(true, persistOk));
            var env := Sign(b, p);
            && VerifyWith(After(run).agent, env, p.expiresAt).Ok?
            && VerifyWith(After(Then(run, Command(readable))).actuator, env, p.expiresAt) ==
               (if persistOk && readable then Ok(()) else Err(UnknownKey))
  {
    var r0, first, both := Enrolled(a, [], true), Keyring.Single(a), Keyring.Single(b).Insert(a);
    var r1 := Then(r0, ServerRestart(b, [a]));
    RingWithIsGood(a, []);
    PublishedIsUsable(first, {a});
    assert After(r0) == Host(first, first, Some(first.ToJson()), a, first);
    assert RingWith(b, []) == Keyring.Single(b);
    assert [a][..|[a]| - 1] == [];
    assert RingWith(b, [a]) == both;
    assert After(r1) == After(r0).(published := both);
    RingWithIsGood(b, [a]);
    PublishedIsUsable(both, {b} + set k | k in [a]);
    assert KeyId(b) in both.keys && both.keys[KeyId(b)] == b && KeyId(b) !in first.keys;
    assert Changed(first, both) && !Changed(first, first);
    var r2 := Then(r1, Refresh(true, persistOk));
    assert After(r2) == After(r1).(agent := both, file := Some(if persistOk then both.ToJson() else first.ToJson()));
    assert After(Then(r2, Command(readable))).actuator == if persistOk && readable then both else first;
    hide Good, Usable, After;
  }
}
