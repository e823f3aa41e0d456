/**
Server, agent and actuator together: what one remediation may do from the matched template to the
privileged executor.
*/
module Pipeline {
  import opened Options
  import opened Schema
  import Crypto
  import Templates
  import Actuator
  import Agent
  import Rotation
  import Policy
  import Server
  import ServerRuns
  import Store

  /** At most once, end to end: across server restarts, re-deliveries, failing ledger writes and agent
      crashes, one proposal reaches the actuator at most once, as long as none is approved again after an
      approval that was not written. */
  lemma OneExecutionPerProposal(server: ServerRuns.Run, agent: Agent.Run, i: nat, j: nat, x: nat, y: nat)
    requires ServerRuns.FreshProposals(server) && ServerRuns.NoReapproval(server)
    requires !Agent.ForgottenBetween(agent, i, j)
    requires i < j < |Agent.At(agent).sent| && x < |ServerRuns.Issued(server)| && y < |ServerRuns.Issued(server)|
    requires ServerRuns.Issued(server)[x].env == Agent.At(agent).sent[i].env
    requires ServerRuns.Issued(server)[y].env == Agent.At(agent).sent[j].env
    ensures ServerRuns.Issued(server)[x].proposal != ServerRuns.Issued(server)[y].proposal
  {
    hide *;
    ServerRuns.OncePerProposalExactlyWhen(server);
    if ServerRuns.Issued(server)[x].proposal == ServerRuns.Issued(server)[y].proposal {
      IssuedOnce(server, x, y);
      Agent.SentTwiceOnlyIfForgotten(agent, i, j);
    }
  }

  // ---- what is sent was signed by the control plane ----

  /** A ring the agent may hold: the one some run of rotations over the keys `ks` leaves it with. */
  ghost predicate HeldRing(ring: Crypto.Keyring, ks: set<Crypto.Key>) {
    exists rotation: Rotation.Run :: Rotation.KeysIn(rotation) <= ks && Rotation.After(rotation).agent == ring
  }

  /** Every check of a signature used such a ring. */
  ghost predicate ChecksWithHeldRings(agent: Agent.Run, ks: set<Crypto.Key>) {
    agent.Then? ==>
      ChecksWithHeldRings(agent.before, ks) && (agent.event.CheckSignature? ==> HeldRing(agent.event.ring, ks))
  }

  /** The rings noted with what was sent, and with what is under way, are held ones. */
  ghost predicate RingsAreHeld(s: Agent.State, ks: set<Crypto.Key>) {
    && (forall i :: 0 <= i < |s.sent| ==> HeldRing(s.sent[i].ring, ks))
    && (s.phase.Verified? || s.phase.Recorded? ==> HeldRing(s.phase.ring, ks))
  }

  lemma {:induction false} SentUnderHeldRings(agent: Agent.Run, ks: set<Crypto.Key>)
    requires ChecksWithHeldRings(agent, ks)
    ensures RingsAreHeld(Agent.At(agent), ks)
  {
    hide HeldRing, Crypto.VerifyWith;
    if agent.Then? { SentUnderHeldRings(agent.before, ks); }
  }

  lemma HeldRingHolds(ring: Crypto.Keyring, ks: set<Crypto.Key>, kid: string)
    requires HeldRing(ring, ks) && kid in ring.keys
    ensures ring.keys[kid] in ks
  {
    var rotation: Rotation.Run :| Rotation.KeysIn(rotation) <= ks && Rotation.After(rotation).agent == ring;
    Rotation.EveryStateIsSound(rotation);
    hide Rotation.After, Rotation.KeysIn;
    assert ring.keys[kid] in ring.keys.Values;
  }

  ghost predicate SignedBy(env: Crypto.Envelope, ks: set<Crypto.Key>) {
    exists key :: key in ks && env.sig == Some(Crypto.By(key, env.payload))
  }

  /** Whatever an agent hands to the actuator was signed, over its whole payload, by a key that its
      control plane published or that it pinned at enrollment: over every run of deliveries and crashes,
      whatever rings it went through on the way. */
  lemma SentWasSignedByThePublished(agent: Agent.Run, ks: set<Crypto.Key>, i: nat)
    requires ChecksWithHeldRings(agent, ks) && i < |Agent.At(agent).sent|
    ensures SignedBy(Agent.At(agent).sent[i].env, ks)
  {
    Agent.EverythingSentVerified(agent);
    SentUnderHeldRings(agent, ks);
    var sent := Agent.At(agent).sent[i];
    assert HeldRing(sent.ring, ks) && Crypto.VerifyWith(sent.ring, sent.env, sent.now).Ok?;
    hide HeldRing, Agent.At, Crypto.VerifyWith, Agent.AllVerified, RingsAreHeld, ChecksWithHeldRings;
    Crypto.AcceptedWasSigned(sent.ring, sent.env, sent.now);
    var kid :| kid in sent.ring.keys && sent.env.sig == Some(Crypto.By(sent.ring.keys[kid], sent.env.payload));
    HeldRingHolds(sent.ring, ks, kid);
  }

  ghost predicate WasIssued(server: ServerRuns.Run, env: Crypto.Envelope) {
    exists x :: IsIssue(server, env, x)
  }

  ghost predicate IsIssue(server: ServerRuns.Run, env: Crypto.Envelope, x: int) {
    0 <= x < |ServerRuns.Issued(server)| && ServerRuns.Issued(server)[x].env == env
  }

  /** Of all the envelopes ever delivered to the agent, genuine or not, those that do carry a signature
      of one of the keys are ones the server queued. */
  ghost predicate DeliveredWereIssued(server: ServerRuns.Run, agent: Agent.Run, ks: set<Crypto.Key>) {
    agent.Then? ==>
      && DeliveredWereIssued(server, agent.before, ks)
      && (agent.event.Look? ==> Genuine(server, agent.event.env, ks))
  }

  ghost predicate Genuine(server: ServerRuns.Run, env: Crypto.Envelope, ks: set<Crypto.Key>) {
    SignedBy(env, ks) ==> WasIssued(server, env)
  }

  /** The same of what is under way and of what was sent. */
  ghost predicate HandledAreGenuine(server: ServerRuns.Run, s: Agent.State, ks: set<Crypto.Key>) {
    && (forall i :: 0 <= i < |s.sent| ==> Genuine(server, s.sent[i].env, ks))
    && (!s.phase.Idle? ==> Genuine(server, s.phase.env, ks))
  }

  lemma {:induction false} OnlyTheDeliveredIsHandled(server: ServerRuns.Run, agent: Agent.Run, ks: set<Crypto.Key>)
    requires DeliveredWereIssued(server, agent, ks)
    ensures HandledAreGenuine(server, Agent.At(agent), ks)
  {
    hide Genuine, Crypto.VerifyWith;
    if agent.Then? { OnlyTheDeliveredIsHandled(server, agent.before, ks); }
  }

  /** End to end, from the signatures alone: whatever else was delivered to the agent, as long as every
      delivered envelope with a signature of one of its control plane's keys came from the queue,
      everything handed to the actuator is a command of some proposal, and no two hand-overs are of the
      same one. */
  lemma EveryHandOverHasItsOwnProposal(server: ServerRuns.Run, agent: Agent.Run, ks: set<Crypto.Key>, i: nat, j: nat)
    requires ServerRuns.FreshProposals(server) && ServerRuns.NoReapproval(server)
    requires DeliveredWereIssued(server, agent, ks)
    requires ChecksWithHeldRings(agent, ks) && i < j < |Agent.At(agent).sent| && !Agent.ForgottenBetween(agent, i, j)
    ensures WasIssued(server, Agent.At(agent).sent[i].env) && WasIssued(server, Agent.At(agent).sent[j].env)
    ensures forall x, y :: IsIssue(server, Agent.At(agent).sent[i].env, x) && IsIssue(server, Agent.At(agent).sent[j].env, y) ==>
              ServerRuns.Issued(server)[x].proposal != ServerRuns.Issued(server)[y].proposal
  {
    hide SignedBy, WasIssued, ChecksWithHeldRings, DeliveredWereIssued, Agent.At, Agent.ForgottenBetween, ServerRuns.Issued,
         ServerRuns.FreshProposals, ServerRuns.NoReapproval;
    OnlyTheDeliveredIsHandled(server, agent, ks);
    assert Genuine(server, Agent.At(agent).sent[i].env, ks) && Genuine(server, Agent.At(agent).sent[j].env, ks);
    SentWasSignedByThePublished(agent, ks, i);
    SentWasSignedByThePublished(agent, ks, j);
    forall x, y | IsIssue(server, Agent.At(agent).sent[i].env, x) && IsIssue(server, Agent.At(agent).sent[j].env, y)
      ensures ServerRuns.Issued(server)[x].proposal != ServerRuns.Issued(server)[y].proposal
    {
      OneExecutionPerProposal(server, agent, i, j, x, y);
    }
  }

  // ---- a run to which this applies ----

  /** Rolls back without checking anything. */
  const PLAIN: Templates.Template :=
    Templates.Template("t", 1, Safe, "s", [], [], [], [NixRollback], None, NoRollback)

  function PendingRow(id: nat): Store.Row {
    Store.Row(Store.Proposal(id, 7, [], "t", map[]), Store.Pending, None, None, None, "f")
  }

  function Approval(id: nat): Server.Event {
    Server.Approve(id, Server.Ids(0, id, id), 0, 0, "admin", true, true, Store.Answered)
  }

  /** Two pending proposals, approved one after the other. */
  function TwoApprovals(key: Crypto.Key): ServerRuns.Run {
    ServerRuns.Then(ServerRuns.Then(ServerRuns.Start(ApprovingConfig(key), map[1 := PendingRow(1), 2 := PendingRow(2)]),
                                    Approval(1)), Approval(2))
  }

  function ApprovingConfig(key: Crypto.Key): Server.Config {
    Server.Config([PLAIN], Policy.Config([], false, 0, 0), key, 60)
  }

  function ApprovedEnvelope(key: Crypto.Key, id: nat): Crypto.Envelope {
    Crypto.Sign(key, Payload(id, 7, "t", 1, Safe, [], [NixRollback], None, NoRollback, Human("admin", 0), id, 0, 60, None))
  }

  /** Both delivered to an agent that trusts the key. */
  function TwoDeliveries(key: Crypto.Key): Agent.Run {
    var around := Agent.Around(Crypto.Keyring.Single(key), 0, Agent.Written, None);
    Agent.Handled(Agent.Handled(Agent.Start({}), ApprovedEnvelope(key, 1), around), ApprovedEnvelope(key, 2), around)
  }

  lemma PlainBuilds(key: Crypto.Key, id: nat, approval: ApprovalRef)
    ensures Server.Command(ApprovingConfig(key), PLAIN, PendingRow(id).proposal, Server.Ids(0, id, id), 0, approval)
            == Ok(Crypto.Sign(key, Payload(id, 7, "t", 1, Safe, [], [NixRollback], None, NoRollback, approval, id, 0, 60, None)))
  {
    assert Templates.ResolveCapability(NixRollback, map[]) == Ok(NixRollback);
    assert Templates.ResolveSteps([], map[]) == Ok([]);
    assert [NixRollback][1..] == [];
    assert Templates.ResolveSteps([NixRollback], map[]) == Ok([NixRollback] + []);
    assert Templates.ResolveConditions([], map[]) == Ok([]);
    assert Templates.ResolveVerify(None, map[]) == Ok(None);
    hide Templates.ResolveSteps, Templates.ResolveConditions, Templates.ResolveVerify, Templates.ResolveCapability;
    assert [NixRollback] + [] == [NixRollback];
    assert Templates.BuildCommand(PLAIN, map[], Templates.Stamp(id, 7, id, 0, 60, approval))
           == Ok(Payload(id, 7, "t", 1, Safe, [], [NixRollback], None, NoRollback, approval, id, 0, 60, None));
  }

  lemma ApprovalQueues(s: Server.State, key: Crypto.Key, id: nat)
    requires s.cfg == ApprovingConfig(key) && id in s.store.rows && s.store.rows[id] == PendingRow(id)
    ensures var (t, issue) := Server.Step(s, Approval(id));
            && issue == Some(Server.Issue(id, [], ApprovedEnvelope(key, id), 0)) && t.cfg == s.cfg
            && t.store.rows.Keys == s.store.rows.Keys
            && forall other :: other in s.store.rows && other != id ==> t.store.rows[other] == s.store.rows[other]
  {
    PlainBuilds(key, id, Human("admin", 0));
    assert Server.Get([PLAIN], "t") == Some(PLAIN);
    hide Server.Command;
  }

  lemma TwoAreIssued(key: Crypto.Key)
    ensures var server := TwoApprovals(key);
            && ServerRuns.FreshProposals(server) && ServerRuns.NoReapproval(server)
            && IsIssue(server, ApprovedEnvelope(key, 1), 0) && IsIssue(server, ApprovedEnvelope(key, 2), 1)
  {
    var r0 := ServerRuns.Start(ApprovingConfig(key), map[1 := PendingRow(1), 2 := PendingRow(2)]);
    var r1 := ServerRuns.Then(r0, Approval(1));
    var r2 := ServerRuns.Then(r1, Approval(2));
    ApprovalQueues(ServerRuns.At(r0), key, 1);
    ApprovalQueues(ServerRuns.At(r1), key, 2);
    hide Server.Step, ApprovedEnvelope;
    assert ServerRuns.Issued(r0) == [];
    assert ServerRuns.Issued(r1) == [] + [Server.Issue(1, [], ApprovedEnvelope(key, 1), 0)];
    assert ServerRuns.Issued(r2) == ServerRuns.Issued(r1) + [Server.Issue(2, [], ApprovedEnvelope(key, 2), 0)];
    assert ServerRuns.Lost(r0) == ServerRuns.Lost(r1) == {};
    assert ServerRuns.NoReapproval(r0) && ServerRuns.NoReapproval(r1) && ServerRuns.FreshProposals(r1);
  }

  lemma EnrolledHoldsItsKey(key: Crypto.Key)
    ensures HeldRing(Crypto.Keyring.Single(key), {key})
  {
    var rotation := Rotation.Enrolled(key, [], false);
    assert Rotation.After(rotation).agent == Crypto.Keyring.Single(key);
    assert Rotation.KeysIn(rotation) == {key};
  }

  lemma DeliveryHandsOver(agent: Agent.Run, server: ServerRuns.Run, key: Crypto.Key, id: nat, x: int)
    requires Agent.At(agent).phase.Idle? && id !in Agent.At(agent).seen && IsIssue(server, ApprovedEnvelope(key, id), x)
    requires Agent.AlwaysReadable(agent) && ChecksWithHeldRings(agent, {key}) && DeliveredWereIssued(server, agent, {key})
    ensures var around := Agent.Around(Crypto.Keyring.Single(key), 0, Agent.Written, None);
            var (s, run) := (Agent.At(agent), Agent.Handled(agent, ApprovedEnvelope(key, id), around));
            && Agent.At(run).phase.Idle? && Agent.At(run).seen == s.seen + {id} && |Agent.At(run).sent| == |s.sent| + 1
            && Agent.AlwaysReadable(run) && ChecksWithHeldRings(run, {key}) && DeliveredWereIssued(server, run, {key})
  {
    var ring, env := Crypto.Keyring.Single(key), ApprovedEnvelope(key, id);
    var around := Agent.Around(ring, 0, Agent.Written, None);
    Crypto.SignedVerifiesExactlyWhenTrusted(
      ring, key, Payload(id, 7, "t", 1, Safe, [], [NixRollback], None, NoRollback, Human("admin", 0), id, 0, 60, None), 0);
    Agent.FourSteps(agent, env, around);
    Agent.ProcessSends(Agent.At(agent), env, ring, 0, Agent.Written);
    EnrolledHoldsItsKey(key);
    assert Genuine(server, env, {key}) by { assert WasIssued(server, env); }
    HandledMeetsThem(agent, server, env, around, {key});
  }

  lemma HandledMeetsThem(agent: Agent.Run, server: ServerRuns.Run, env: Crypto.Envelope, around: Agent.Around, ks: set<Crypto.Key>)
    requires ChecksWithHeldRings(agent, ks) && DeliveredWereIssued(server, agent, ks)
    requires HeldRing(around.ring, ks) && Genuine(server, env, ks)
    ensures ChecksWithHeldRings(Agent.Handled(agent, env, around), ks)
    ensures DeliveredWereIssued(server, Agent.Handled(agent, env, around), ks)
  {
    hide HeldRing, Genuine;
    var looked := Agent.Then(agent, Agent.Look(env));
    var checked := Agent.Then(looked, Agent.CheckSignature(around.ring, around.now));
    var recorded := Agent.Then(checked, Agent.Event.Record(around.append));
    assert ChecksWithHeldRings(looked, ks) && ChecksWithHeldRings(checked, ks) && ChecksWithHeldRings(recorded, ks);
    assert DeliveredWereIssued(server, looked, ks) && DeliveredWereIssued(server, checked, ks) && DeliveredWereIssued(server, recorded, ks);
  }

  /** Whatever the key: two proposals are approved, both commands delivered and both handed over, under
      every hypothesis of the theorem. */
  lemma TwoProposalsTwoHandOvers(key: Crypto.Key)
    ensures var (server, agent, ks) := (TwoApprovals(key), TwoDeliveries(key), {key});
            && ServerRuns.FreshProposals(server) && ServerRuns.NoReapproval(server)
            && DeliveredWereIssued(server, agent, ks) && ChecksWithHeldRings(agent, ks)
            && |Agent.At(agent).sent| == 2 && !Agent.ForgottenBetween(agent, 0, 1)
  {
    TwoAreIssued(key);
    var around := Agent.Around(Crypto.Keyring.Single(key), 0, Agent.Written, None);
    var start := Agent.Start({});
    assert Agent.At(start) == Agent.State({}, {}, Agent.Idle, []);
    DeliveryHandsOver(start, TwoApprovals(key), key, 1, 0);
    hide TwoApprovals, IsIssue, Agent.Handled, Agent.At, ChecksWithHeldRings, DeliveredWereIssued, ApprovedEnvelope;
    var first := Agent.Handled(start, ApprovedEnvelope(key, 1), around);
    DeliveryHandsOver(first, TwoApprovals(key), key, 2, 1);
    Agent.ReadableForgetsNothing(TwoDeliveries(key), 0, 1);
  }

  lemma IssuedOnce(server: ServerRuns.Run, x: nat, y: nat)
    requires x < |ServerRuns.Issued(server)| && y < |ServerRuns.Issued(server)|
    requires ServerRuns.OncePerProposal(ServerRuns.Issued(server))
    requires ServerRuns.Issued(server)[x].proposal == ServerRuns.Issued(server)[y].proposal
    ensures x == y
  {
    hide ServerRuns.Issued;
  }

  /** The command for a fault whose template matched and whose parameters resolved. */
  ghost predicate BuiltFrom(cfg: Server.Config, f: Server.Fault, ids: Server.Ids, issued: int, approval: ApprovalRef, env: Crypto.Envelope) {
    && (forall t :: t in cfg.templates ==> Templates.Fault(t) == None)
    && Server.Prepared(cfg, f).Some?
    && var (t, values) := Server.Prepared(cfg, f).value;
       Server.Command(cfg, t, Server.ProposalFor(f, ids, t, values), ids, issued, approval) == Ok(env)
  }

  /** Its capabilities are those of the template with the values filled in, in order, every check only
      observing, every Kubernetes name valid. */
  ghost predicate Mirrors(env: Crypto.Envelope, t: Templates.Template, values: map<string, string>) {
    var p := env.payload;
    && |p.steps| == |t.steps| && |p.preconditions| == |t.preconditions| && p.verify.Some? == t.verify.Some?
    && (forall i :: 0 <= i < |p.steps| ==> Templates.Concrete(p.steps[i], t.steps[i], values))
    && (forall i :: 0 <= i < |p.preconditions| ==>
          Templates.Concrete(p.preconditions[i].check, t.preconditions[i].check, values) && p.preconditions[i].equals == t.preconditions[i].equals)
    && (p.verify.Some? ==> Templates.Concrete(p.verify.value.check, t.verify.value.check, values))
    && (forall c :: c in Checks(p) ==> c.UnitState? || c.PodState?)
  }

  lemma BuildFailsOnlyOnNames(cfg: Server.Config, f: Server.Fault, ids: Server.Ids, issued: int, approval: ApprovalRef)
    requires forall t :: t in cfg.templates ==> Templates.Fault(t) == None
    requires Server.Prepared(cfg, f).Some?
    ensures var (t, values) := Server.Prepared(cfg, f).value;
            match Server.Command(cfg, t, Server.ProposalFor(f, ids, t, values), ids, issued, approval)
            case Err(e) => e.InvalidKubeIdentifier?
            case Ok(env) => Mirrors(env, t, values)
  {
    hide Templates.Fault, Templates.BuildCommand, Templates.ResolveParams, Templates.Concrete, Server.MatchEvent;
    var (t, values) := Server.Prepared(cfg, f).value;
    MatchedIsLoaded(cfg.templates, f);
    var stamp := Templates.Stamp(ids.command, f.agentId, ids.nonce, issued, cfg.ttl, approval);
    Templates.ValidatedTemplateBuilds(t, path => f.Field(path), stamp);
    var built := Templates.BuildCommand(t, values, stamp);
    if built.Ok? {
      SameOperations(cfg.signer, built.value);
    }
  }

  /** Signing changes nothing but the key id. */
  lemma SameOperations(key: Crypto.Key, p: Payload)
    ensures var q := Crypto.Sign(key, p).payload;
            q.steps == p.steps && q.preconditions == p.preconditions && q.verify == p.verify && Checks(q) == Checks(p)
  {
  }

  /** Every party whose ring holds the signer's key accepts the command until it expires, and the
      actuator never refuses it for a Kubernetes name: only an invalid unit name can stop it. */
  lemma BuiltCommandsAreAccepted(cfg: Server.Config, f: Server.Fault, ids: Server.Ids, issued: int, approval: ApprovalRef,
                                 env: Crypto.Envelope, ring: Crypto.Keyring, now: int)
    requires BuiltFrom(cfg, f, ids, issued, approval, env)
    requires Crypto.KeyId(cfg.signer) in ring.keys && ring.keys[Crypto.KeyId(cfg.signer)] == cfg.signer
    ensures Crypto.VerifyWith(ring, env, now).Ok? <==> now <= issued + (if cfg.ttl > 1 then cfg.ttl else 1)
    ensures Actuator.InputsValid(env.payload) <==>
            forall c :: c in Actuator.Everything(env.payload) && (c.ResetFailed? || c.RestartUnit? || c.UnitState?) ==>
              Actuator.IsValidUnit(c.unit)
  {
    hide Crypto.VerifyWith, Crypto.Sign, Crypto.KeyId, Server.Prepared, Server.Command, Mirrors;
    var (t, values) := Server.Prepared(cfg, f).value;
    BuildFailsOnlyOnNames(cfg, f, ids, issued, approval);
    ServerRuns.BuiltFor(cfg, t, Server.ProposalFor(f, ids, t, values), ids, issued, approval);
    Crypto.SignedVerifiesExactlyWhenTrusted(ring, cfg.signer, env.payload, now);
    MirrorsHasValidNames(env, t, values);
  }

  /** And where the signer is trusted, a delivery before the expiry hands the command to the actuator
      exactly when its id is new and the ledger took it. */
  lemma FirstDeliveryIsHandedOver(cfg: Server.Config, f: Server.Fault, ids: Server.Ids, issued: int, approval: ApprovalRef,
                                  env: Crypto.Envelope, agent: Agent.Run, ring: Crypto.Keyring, now: int, append: Agent.Append)
    requires BuiltFrom(cfg, f, ids, issued, approval, env)
    requires Crypto.KeyId(cfg.signer) in ring.keys && ring.keys[Crypto.KeyId(cfg.signer)] == cfg.signer
    requires issued <= now <= issued + (if cfg.ttl > 1 then cfg.ttl else 1) && Agent.At(agent).phase.Idle?
    ensures var (s, t) := (Agent.At(agent), Agent.Process(Agent.At(agent), env, ring, now, append));
            t.sent == (if ids.command !in s.seen && append.Written? then s.sent + [Agent.Sent(env, ring, now)] else s.sent)
  {
    hide *;
    BuiltCommandsAreAccepted(cfg, f, ids, issued, approval, env, ring, now);
    Agent.ProcessSends(Agent.At(agent), env, ring, now, append);
    SendsWhenVerified(agent, env, ring, now, append);
    BuiltHasId(cfg, f, ids, issued, approval, env);
  }

  lemma SendsWhenVerified(agent: Agent.Run, env: Crypto.Envelope, ring: Crypto.Keyring, now: int, append: Agent.Append)
    requires Crypto.VerifyWith(ring, env, now).Ok?
    ensures Agent.Sends(Agent.At(agent), env, ring, now, append) <==>
            env.payload.commandId !in Agent.At(agent).seen && append.Written?
  {
    hide Agent.At, Crypto.VerifyWith;
  }

  lemma BuiltHasId(cfg: Server.Config, f: Server.Fault, ids: Server.Ids, issued: int, approval: ApprovalRef, env: Crypto.Envelope)
    requires BuiltFrom(cfg, f, ids, issued, approval, env)
    ensures env.payload.commandId == ids.command
  {
    hide Server.Prepared, Server.Command;
    var (t, values) := Server.Prepared(cfg, f).value;
    ServerRuns.BuiltFor(cfg, t, Server.ProposalFor(f, ids, t, values), ids, issued, approval);
  }

  lemma MirrorsHasValidNames(env: Crypto.Envelope, t: Templates.Template, values: map<string, string>)
    requires Mirrors(env, t, values)
    ensures forall c :: c in Actuator.Everything(env.payload) ==> Templates.KubeIdsValid(c)
  {
    hide IsValidK8sLabel, Templates.FieldsResolved, Templates.InertValues, Templates.NamesInCapability;
    var p := env.payload;
    forall c | c in Actuator.Everything(p) ensures Templates.KubeIdsValid(c) {
      if c in p.steps {
        var i :| 0 <= i < |p.steps| && p.steps[i] == c;
      } else {
        assert c in Checks(p);
        var i :| 0 <= i < |Checks(p)| && Checks(p)[i] == c;
        if i < |p.preconditions| { assert c == p.preconditions[i].check; }
      }
    }
  }

  /** From template to executor: for a command built from a validated template, however the executor
      behaves, nothing that changes the host runs before every precondition of the template was
      evaluated, in order, and observed to hold. */
  lemma NothingChangesUntilPreconditionsHold(
      cfg: Server.Config, f: Server.Fault, ids: Server.Ids, issued: int, approval: ApprovalRef, env: Crypto.Envelope,
      trace: seq<Actuator.Ran>, report: Actuator.Report, i: nat)
    requires BuiltFrom(cfg, f, ids, issued, approval, env)
    requires Actuator.Legit(env.payload, trace, report) && i < |trace| && !(trace[i].cap.UnitState? || trace[i].cap.PodState?)
    ensures var wanted := Server.Prepared(cfg, f).value.0.preconditions;
            |wanted| <= i && forall j :: 0 <= j < |wanted| ==>
              && trace[j].role == Actuator.Precondition
              && Templates.Concrete(trace[j].cap, wanted[j].check, Server.Prepared(cfg, f).value.1)
              && Actuator.Holds(trace[j].outcome, wanted[j].equals)
  {
    hide Actuator.Legit, Actuator.Holds, Templates.Concrete, Server.Prepared, Server.Command;
    BuildFailsOnlyOnNames(cfg, f, ids, issued, approval);
    Actuator.NothingMutatesBeforePreconditionsHold(env.payload, trace, report, i);
  }

  lemma {:induction false} MatchedIsLoaded(ts: seq<Templates.Template>, f: Server.Fault)
    requires Server.MatchEvent(ts, f).Some?
    ensures Server.MatchEvent(ts, f).value in ts
  {
    if !Server.Applies(ts[0], f) { MatchedIsLoaded(ts[1..], f); }
  }
}
