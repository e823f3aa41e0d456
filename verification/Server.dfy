/**
The control plane's remediation path: matching, policy, recording and queueing
(crates/ravn-server/src/remediation.rs:277-314 and 721-835), approval, rejection, pull and result
(crates/ravn-server/src/api.rs:390-510). One request runs at a time; ids and clock readings are
given by the event.
*/
module Server {
  import opened Options
  import opened Schema
  import Crypto
  import Actuator
  import Templates
  import Policy
  import Store
  import CommandQueue

  /** An event as far as remediation looks at it: its source and the fields templates may name. */
  datatype Fault = Fault(host: Policy.Host, agentId: nat, source: string, fields: map<string, string>, signature: string) {
    function Field(path: string): Option<string> { if path in fields then Some(fields[path]) else None }
  }

  datatype Config = Config(templates: seq<Templates.Template>, policy: Policy.Config, signer: Crypto.Key, ttl: int)

  // ---- the template registry ----

  predicate Applies(t: Templates.Template, f: Fault) {
    && t.source == f.source
    && forall i :: 0 <= i < |t.conditions| ==> t.conditions[i].0 in f.fields && f.fields[t.conditions[i].0] == t.conditions[i].1
  }

  function MatchEvent(ts: seq<Templates.Template>, f: Fault): Option<Templates.Template> {
    if ts == [] then None else if Applies(ts[0], f) then Some(ts[0]) else MatchEvent(ts[1..], f)
  }

  function Get(ts: seq<Templates.Template>, id: string): Option<Templates.Template> {
    if ts == [] then None else if ts[0].id == id then Some(ts[0]) else Get(ts[1..], id)
  }

  method MatchEventLoop(ts: seq<Templates.Template>, f: Fault) returns (r: Option<Templates.Template>)
    ensures r == MatchEvent(ts, f)
    ensures match r
            case None => forall i :: 0 <= i < |ts| ==> !Applies(ts[i], f)
            case Some(t) => exists i :: 0 <= i < |ts| && ts[i] == t && Applies(t, f) && forall j :: 0 <= j < i ==> !Applies(ts[j], f)
  {
    for i := 0 to |ts|
      invariant forall j :: 0 <= j < i ==> !Applies(ts[j], f)
      invariant MatchEvent(ts, f) == MatchEvent(ts[i..], f)
    {
      var t := ts[i];
      if t.source != f.source {
        continue;
      }
      var all := true;
      for k := 0 to |t.conditions|
        invariant all && forall m :: 0 <= m < k ==> f.Field(t.conditions[m].0) == Some(t.conditions[m].1)
      {
        if f.Field(t.conditions[k].0) != Some(t.conditions[k].1) {
          all := false;
          break;
        }
      }
      if all {
        return Some(t);
      }
    }
    r := None;
  }

  lemma {:induction false} GetIsFirst(ts: seq<Templates.Template>, id: string)
    ensures match Get(ts, id)
            case None => forall i :: 0 <= i < |ts| ==> ts[i].id != id
            case Some(t) => exists i :: 0 <= i < |ts| && ts[i] == t && t.id == id && forall j :: 0 <= j < i ==> ts[j].id != id
  {
    if ts != [] && ts[0].id != id {
      GetIsFirst(ts[1..], id);
      match Get(ts, id)
      case None =>
      case Some(t) =>
        var i :| 0 <= i < |ts| - 1 && ts[1..][i] == t && t.id == id && forall j :: 0 <= j < i ==> ts[1..][j].id != id;
        assert ts[i + 1] == t;
        forall j | 0 <= j < i + 1 ensures ts[j].id != id {
          if j > 0 { assert ts[1..][j - 1] == ts[j]; }
        }
    }
  }

  /** Approval looks a proposal's template up by id. It finds the template the event matched, for
      every template of the registry, exactly when no two different templates share an id; loading
      does not check that. */
  lemma LookupFindsTheMatchedTemplateExactlyWhen(ts: seq<Templates.Template>)
    ensures (forall i :: 0 <= i < |ts| ==> Get(ts, ts[i].id) == Some(ts[i])) <==>
            (forall i, j :: 0 <= i < |ts| && 0 <= j < |ts| && ts[i].id == ts[j].id ==> ts[i] == ts[j])
  {
    forall i | 0 <= i < |ts| ensures Get(ts, ts[i].id).Some? && Get(ts, ts[i].id).value in ts && Get(ts, ts[i].id).value.id == ts[i].id {
      GetIsFirst(ts, ts[i].id);
    }
  }

  // ---- the server as a machine ----

  datatype State = State(cfg: Config, hits: Policy.HitLog, store: Store.State, queue: CommandQueue.Queues)

  datatype Ids = Ids(proposal: nat, command: nat, nonce: nat)

  datatype Event =
    | Prepare(fault: Fault, ids: Ids, now: int, issued: int, write: Store.Io)
    | Approve(id: nat, ids: Ids, issued: int, recorded: int, user: string, seen: bool, read: bool, write: Store.Io)
    | Reject(id: nat, user: string, at: int, read: bool, write: Store.Io)
    | Pull(agent: nat)
    | Report(report: Actuator.Report, write: Store.Io)
    | Restart(cfg: Config)

  /** A command put in the queue: for which proposal and host, and when it was decided. */
  datatype Issue = Issue(proposal: nat, host: Policy.Host, env: Crypto.Envelope, at: int)

  function Prepared(cfg: Config, f: Fault): Option<(Templates.Template, map<string, string>)> {
    match MatchEvent(cfg.templates, f)
    case None => None
    case Some(t) =>
      match Templates.ResolveParams(t.parameters, path => f.Field(path))
      case None => None
      case Some(values) => Some((t, values))
  }

  /** The template does not fit the fault: another source, or a condition on a field that is absent or says
      something else. */
  ghost predicate PassedOver(t: Templates.Template, f: Fault) {
    t.source != f.source
    || exists i :: 0 <= i < |t.conditions| && !(t.conditions[i].0 in f.fields && f.fields[t.conditions[i].0] == t.conditions[i].1)
  }

  /** The first template that fits, if any does. */
  ghost predicate IsFirstFit(ts: seq<Templates.Template>, f: Fault, t: Templates.Template) {
    exists n :: 0 <= n < |ts| && ts[n] == t && !PassedOver(t, f) && forall j :: 0 <= j < n ==> PassedOver(ts[j], f)
  }

  /** Some parameter of the template has no value in the fault's fields, or one that cannot be the name of
      the Kubernetes object it is to name. */
  ghost predicate LacksParameter(t: Templates.Template, f: Fault) {
    exists p :: p in t.parameters &&
                (p.from !in f.fields || (p.name in {"namespace", "pod", "deployment", "name"} && !IsValidK8sLabel(f.fields[p.from])))
  }

  /** The values are the fault's own fields: one for each declared name, and it is the field declared for it. */
  ghost predicate TakenFrom(values: map<string, string>, t: Templates.Template, f: Fault) {
    && values.Keys == (set p | p in t.parameters :: p.name)
    && forall i :: 0 <= i < |t.parameters| && (forall j :: i < j < |t.parameters| ==> t.parameters[j].name != t.parameters[i].name) ==>
         t.parameters[i].from in f.fields && values[t.parameters[i].name] == f.fields[t.parameters[i].from]
  }

  lemma {:induction false} MatchIsFirstFit(ts: seq<Templates.Template>, f: Fault)
    ensures match MatchEvent(ts, f)
            case None => forall i :: 0 <= i < |ts| ==> PassedOver(ts[i], f)
            case Some(t) => IsFirstFit(ts, f, t)
  {
    if ts != [] && PassedOver(ts[0], f) {
      MatchIsFirstFit(ts[1..], f);
      var m := MatchEvent(ts[1..], f);
      hide PassedOver, MatchEvent;
      if m.Some? {
        var n :| 0 <= n < |ts| - 1 && ts[1..][n] == m.value && !PassedOver(m.value, f) && forall j :: 0 <= j < n ==> PassedOver(ts[1..][j], f);
        assert ts[n + 1] == m.value;
        forall j | 0 <= j < n + 1 ensures PassedOver(ts[j], f) {
          if j > 0 { assert ts[1..][j - 1] == ts[j]; }
        }
      } else {
        forall i | 0 <= i < |ts| ensures PassedOver(ts[i], f) {
          if i > 0 { assert ts[1..][i - 1] == ts[i]; }
        }
      }
    } else if ts != [] {
      assert ts[0] == MatchEvent(ts, f).value;
    }
  }

  /** What is prepared for a fault: nothing exactly when no template fits or the first one that does lacks a
      parameter; otherwise that template, with the fault's own fields as values. */
  lemma PreparedExactlyWhen(cfg: Config, f: Fault)
    ensures match Prepared(cfg, f)
            case None => (forall i :: 0 <= i < |cfg.templates| ==> PassedOver(cfg.templates[i], f)) || FirstFitLacks(cfg, f)
            case Some((t, values)) => IsFirstFit(cfg.templates, f, t) && !LacksParameter(t, f) && TakenFrom(values, t, f)
  {
    MatchIsFirstFit(cfg.templates, f);
    var m := MatchEvent(cfg.templates, f);
    hide MatchEvent, PassedOver, IsFirstFit, LacksParameter, TakenFrom;
    if m.Some? {
      ParametersAreFields(m.value, f);
      if Prepared(cfg, f).None? { assert IsFirstFit(cfg.templates, f, m.value) && LacksParameter(m.value, f); }
    }
  }

  ghost predicate FirstFitLacks(cfg: Config, f: Fault) { exists t :: IsFirstFit(cfg.templates, f, t) && LacksParameter(t, f) }

  lemma ParametersAreFields(t: Templates.Template, f: Fault)
    ensures var values := Templates.ResolveParams(t.parameters, path => f.Field(path));
            && (values.None? <==> LacksParameter(t, f))
            && (values.Some? ==> TakenFrom(values.value, t, f))
  {
    hide LacksParameter, TakenFrom, Templates.ResolveParams;
    var field := path => f.Field(path);
    Templates.ResolvedParamsAreTheFields(t.parameters, field);
    LacksExactlyWhenUnusable(t, f, field);
    if Templates.ResolveParams(t.parameters, field).Some? { FieldsAreTaken(t, f, field); }
  }

  lemma LacksExactlyWhenUnusable(t: Templates.Template, f: Fault, field: string -> Option<string>)
    requires forall path :: field(path) == f.Field(path)
    ensures LacksParameter(t, f) <==> exists i :: 0 <= i < |t.parameters| && Templates.Unusable(t.parameters[i], field)
  {
    hide IsValidK8sLabel;
    if LacksParameter(t, f) {
      var p :| p in t.parameters
        && (p.from !in f.fields || (p.name in {"namespace", "pod", "deployment", "name"} && !IsValidK8sLabel(f.fields[p.from])));
      var i :| 0 <= i < |t.parameters| && t.parameters[i] == p;
      assert Templates.Unusable(t.parameters[i], field);
    }
  }

  lemma FieldsAreTaken(t: Templates.Template, f: Fault, field: string -> Option<string>)
    requires Templates.ResolveParams(t.parameters, field).Some? && forall path :: field(path) == f.Field(path)
    ensures TakenFrom(Templates.ResolveParams(t.parameters, field).value, t, f)
  {
    hide Templates.ResolveParams, Templates.Unusable;
    Templates.ResolvedParamsAreTheFields(t.parameters, field);
    Templates.ResolvedParamsAreDeclared(t.parameters, field);
  }

  function Command(cfg: Config, t: Templates.Template, p: Store.Proposal, ids: Ids, issued: int, approval: ApprovalRef)
    : Result<Crypto.Envelope, Templates.RenderError>
  {
    match Templates.BuildCommand(t, p.params, Templates.Stamp(ids.command, p.agentId, ids.nonce, issued, cfg.ttl, approval))
    case Err(e) => Err(e)
    case Ok(payload) => Ok(Crypto.Sign(cfg.signer, payload))
  }

  lemma CommandHasItsId(cfg: Config, t: Templates.Template, p: Store.Proposal, ids: Ids, issued: int, approval: ApprovalRef)
    requires Command(cfg, t, p, ids, issued, approval).Ok?
    ensures Command(cfg, t, p, ids, issued, approval).value.payload.commandId == ids.command
  {
    hide Templates.ResolveSteps, Templates.ResolveConditions, Templates.ResolveVerify;
  }

  function ProposalFor(f: Fault, ids: Ids, t: Templates.Template, values: map<string, string>): Store.Proposal {
    Store.Proposal(ids.proposal, f.agentId, f.host, t.id, values)
  }

  function CallFor(f: Fault, t: Templates.Template, now: int): Policy.Call { Policy.Call(f.host, t.riskTier, t.id, now) }

  /** An automatic execution: recorded first, queued only if the record was acknowledged. */
  function AutoExecuted(s: State, f: Fault, t: Templates.Template, p: Store.Proposal, e: Event): (State, Option<Issue>)
    requires e.Prepare?
  {
    match Command(s.cfg, t, p, e.ids, e.issued, PolicyAuto)
    case Err(_) => (s, None)
    case Ok(env) =>
      var s' := s.(store := Store.Next(s.store, Store.InsertAutoApproved(p, env.payload.commandId, env.sig, f.signature, e.write)));
      if Store.Key(p) !in s.store.pendingKeys && e.write.Answered?
      then (s'.(queue := CommandQueue.Queued(s.queue, env)), Some(Issue(p.id, p.host, env, e.now)))
      else (s', None)
  }

  function PrepareStep(s: State, e: Event): (State, Option<Issue>)
    requires e.Prepare?
  {
    match Prepared(s.cfg, e.fault)
    case None => (s, None)
    case Some((t, values)) =>
      var (answer, hits) := Policy.Step(s.cfg.policy, s.hits, CallFor(e.fault, t, e.now));
      var p := ProposalFor(e.fault, e.ids, t, values);
      match answer.decision
      case Forbid => (s.(hits := hits), None)
      case Approve => (s.(hits := hits, store := Store.Next(s.store, Store.Insert(p, e.fault.signature, e.write))), None)
      case Auto => AutoExecuted(s.(hits := hits), e.fault, t, p, e)
  }

  /** The command an approval request would sign, if it gets that far. */
  function Approvable(s: State, e: Event): Option<Crypto.Envelope>
    requires e.Approve?
  {
    if !e.seen || !Store.IsPending(s.store.rows, e.id) then None
    else
      var p := s.store.rows[e.id].proposal;
      match Get(s.cfg.templates, p.templateId)
      case None => None
      case Some(t) =>
        match Command(s.cfg, t, p, e.ids, e.issued, Human(e.user, e.issued))
        case Err(_) => None
        case Ok(env) => Some(env)
  }

  /** An approval: queued first, recorded after, and whether recording worked is not looked at. */
  function ApproveStep(s: State, e: Event): (State, Option<Issue>)
    requires e.Approve?
  {
    match Approvable(s, e)
    case None => (s, None)
    case Some(env) =>
      var op := Store.Approve(e.id, Human(e.user, e.recorded), env.payload.commandId, env.sig, e.read, e.write);
      (s.(queue := CommandQueue.Queued(s.queue, env), store := Store.Next(s.store, op)),
       Some(Issue(e.id, s.store.rows[e.id].proposal.host, env, e.issued)))
  }

  function Step(s: State, e: Event): (State, Option<Issue>) {
    match e
    case Prepare(_, _, _, _, _) => PrepareStep(s, e)
    case Approve(_, _, _, _, _, _, _, _) => ApproveStep(s, e)
    case Reject(id, user, at, read, write) => (s.(store := Store.Next(s.store, Store.Reject(id, user, at, None, read, write))), None)
    case Pull(agent) => (s.(queue := CommandQueue.Drained(s.queue, agent)), None)
    case Report(report, write) => (s.(store := Store.Next(s.store, Store.RecordResult(report, write))), None)
    case Restart(cfg) => (State(cfg, map[], Store.Next(s.store, Store.Restart), map[]), None)
  }

  // ---- the code ----

  datatype Response = NotFound | Conflict | Unbuildable | Approved(commandId: nat)

  /** What an approval request is answered, and why. */
  function ReplyTo(s: State, e: Event): Response
    requires e.Approve?
  {
    if !e.seen || !Store.IsPending(s.store.rows, e.id) then NotFound
    else
      var p := s.store.rows[e.id].proposal;
      var t := Get(s.cfg.templates, p.templateId);
      if t.None? then Conflict
      else if Command(s.cfg, t.value, p, e.ids, e.issued, Human(e.user, e.issued)).Err? then Unbuildable
      else Approved(e.ids.command)
  }

  class Server {
    const cfg: Config
    const store: Store.RemediationStore
    const queue: CommandQueue.CommandQueue
    const engine: Policy.PolicyEngine

    ghost predicate Valid() { engine.Settings() == cfg.policy }

    ghost function View(): State
      reads store, queue, engine.breaker
    {
      State(cfg, engine.breaker.hits, store.View(), queue.pending)
    }

    constructor (cfg: Config, rows: Store.Table)
      ensures Valid() && fresh(store) && fresh(queue) && fresh(engine.breaker)
      ensures View() == State(cfg, map[], Store.At(Store.Start(rows)), map[])
    {
      this.cfg := cfg;
      this.store := new Store.RemediationStore(rows);
      this.queue := new CommandQueue.CommandQueue();
      this.engine := new Policy.PolicyEngine(cfg.policy.rules, cfg.policy.autoEnabled, cfg.policy.maxAuto, cfg.policy.window);
    }

    method PrepareInner(f: Fault, ids: Ids, now: int, issued: int, write: Store.Io)
      requires Valid()
      modifies store, queue, engine.breaker
      ensures View() == Step(old(View()), Event.Prepare(f, ids, now, issued, write)).0
    {
      hide Templates.BuildCommand, Policy.Step, Store.Next, Templates.ResolveParams;
      ghost var e := Event.Prepare(f, ids, now, issued, write);
      var matched := MatchEventLoop(cfg.templates, f);
      if matched.None? {
        return;
      }
      var t := matched.value;
      var params := Templates.ResolveParamsLoop(t.parameters, path => f.Field(path));
      if params.None? {
        return;
      }
      var proposal := ProposalFor(f, ids, t, params.value);
      var result := engine.Evaluate(f.host, t.riskTier, t.id, now);
      match result.decision
      case Forbid =>
      case Approve =>
        var inserted := store.Insert(proposal, f.signature, write);
      case Auto =>
        AutoExecute(f, t, proposal, e, ids, issued, write);
    }

    method AutoExecute(f: Fault, t: Templates.Template, proposal: Store.Proposal, ghost e: Event,
                       ids: Ids, issued: int, write: Store.Io)
      requires e.Prepare? && e.ids == ids && e.issued == issued && e.write == write
      modifies store, queue
      ensures View() == AutoExecuted(old(View()), f, t, proposal, e).0
    {
      hide Templates.BuildCommand, Policy.Step, Store.Next;
      var built := Command(cfg, t, proposal, ids, issued, PolicyAuto);
      if built.Err? {
        return;
      }
      var env := built.value;
      var inserted := store.InsertAutoApproved(proposal, env.payload.commandId, env.sig, f.signature, write);
      if inserted.Some? {
        queue.Enqueue(env);
      }
    }

    method ApproveRemediation(id: nat, ids: Ids, issued: int, recorded: int, user: string, seen: bool, read: bool, write: Store.Io)
      returns (r: Response)
      modifies store, queue
      ensures View() == Step(old(View()), Event.Approve(id, ids, issued, recorded, user, seen, read, write)).0
      ensures r == ReplyTo(old(View()), Event.Approve(id, ids, issued, recorded, user, seen, read, write))
    {
      hide Templates.BuildCommand, Policy.Step, Store.Next;
      var pending := store.PendingProposal(id, seen);
      if pending.None? {
        return NotFound;
      }
      var proposal := pending.value;
      var template := Get(cfg.templates, proposal.templateId);
      if template.None? {
        return Conflict;
      }
      var built := Command(cfg, template.value, proposal, ids, issued, Human(user, issued));
      if built.Err? {
        return Unbuildable;
      }
      var env := built.value;
      CommandHasItsId(cfg, template.value, proposal, ids, issued, Human(user, issued));
      queue.Enqueue(env);
      var found := store.Approve(id, Human(user, recorded), env.payload.commandId, env.sig, read, write);
      r := Approved(env.payload.commandId);
    }

    /** The handler gives no reason. */
    method RejectRemediation(id: nat, user: string, at: int, read: bool, write: Store.Io) returns (found: bool)
      modifies store
      ensures View() == Step(old(View()), Event.Reject(id, user, at, read, write)).0
      ensures found <==> write.Answered? && id in old(store.rows)
    {
      found := store.Reject(id, user, at, None, read, write);
    }

    method GetCommands(agent: nat) returns (envs: seq<Crypto.Envelope>)
      modifies queue
      ensures View() == Step(old(View()), Pull(agent)).0
      ensures envs == CommandQueue.Waiting(old(queue.pending), agent)
    {
      envs := queue.TakeFor(agent);
    }

    method PostCommandResult(report: Actuator.Report, write: Store.Io) returns (closed: set<nat>)
      modifies store
      ensures View() == Step(old(View()), Event.Report(report, write)).0
      ensures closed == if write.Answered? then set id | id in old(store.rows) && old(store.rows)[id].commandId == Some(report.commandId) else {}
    {
      closed := store.RecordResult(report, write);
    }
  }
}
