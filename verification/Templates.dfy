/**
From a template to a command: structural validation (crates/ravn-core/src/remediation.rs:239-275),
parameter resolution and the building of the envelope (crates/ravn-server/src/remediation.rs:316-468).
*/
module Templates {
  import opened Options
  import opened Schema
  import opened Placeholders
  import Text

  /** A declared parameter and the event path its value comes from. */
  datatype Param = Param(name: string, from: string)

  /** `parameters` lists the map's entries in key order. */
  datatype Template = Template(
    id: string, version: nat, riskTier: RiskTier, source: string, conditions: seq<(string, string)>,
    parameters: seq<Param>, preconditions: seq<Condition>, steps: seq<Capability>,
    verify: Option<Verify>, rollback: Rollback)

  datatype TemplateError = UndeclaredParameter(name: string) | NonReadOnlyCheck | NoSteps

  datatype RenderError = MissingValue(name: string) | InvalidKubeIdentifier(field: string, value: string)

  // ---- validation ----

  function NamesInCapability(cap: Capability): seq<string> {
    match cap
    case ResetFailed(u) => Names(u)
    case RestartUnit(u) => Names(u)
    case UnitState(u) => Names(u)
    case NixRollback => []
    case DeletePod(ns, pod) => Names(ns) + Names(pod)
    case RestartDeployment(ns, d) => Names(ns) + Names(d)
    case PodState(ns, p) => Names(ns) + Names(p)
  }

  function Declared(t: Template): set<string> { set p | p in t.parameters :: p.name }

  function FirstUndeclared(names: seq<string>, declared: set<string>): Option<TemplateError> {
    if names == [] then None
    else if names[0] !in declared then Some(UndeclaredParameter(names[0]))
    else FirstUndeclared(names[1..], declared)
  }

  function CheckFault(check: Capability, declared: set<string>): Option<TemplateError> {
    if !check.IsReadOnly() then Some(NonReadOnlyCheck)
    else FirstUndeclared(NamesInCapability(check), declared)
  }

  function ConditionsFault(cs: seq<Condition>, declared: set<string>): Option<TemplateError> {
    if cs == [] then None
    else
      var f := CheckFault(cs[0].check, declared);
      if f.Some? then f else ConditionsFault(cs[1..], declared)
  }

  function StepsFault(steps: seq<Capability>, declared: set<string>): Option<TemplateError> {
    if steps == [] then None
    else
      var f := FirstUndeclared(NamesInCapability(steps[0]), declared);
      if f.Some? then f else StepsFault(steps[1..], declared)
  }

  /** `Template::validate`: the first fault, if any. */
  function Fault(t: Template): Option<TemplateError> {
    var d := Declared(t);
    var f1 := ConditionsFault(t.preconditions, d);
    if f1.Some? then f1
    else
      var f2 := StepsFault(t.steps, d);
      if f2.Some? then f2
      else
        var f3 := if t.verify.Some? then CheckFault(t.verify.value.check, d) else None;
        if f3.Some? then f3
        else if t.steps == [] then Some(NoSteps) else None
  }

  /** What a validated template promises. */
  ghost predicate WellFormed(t: Template) {
    && (forall c :: c in t.preconditions ==> Sound(c.check, Declared(t)) && Observes(c.check))
    && (forall s :: s in t.steps ==> Sound(s, Declared(t)))
    && (t.verify.Some? ==> Sound(t.verify.value.check, Declared(t)) && Observes(t.verify.value.check))
    && t.steps != []
  }

  /** The two operations that change nothing. */
  predicate Observes(cap: Capability) { cap.UnitState? || cap.PodState? }

  /** Every placeholder of the capability is among the given names. */
  ghost predicate Sound(cap: Capability, names: set<string>) {
    forall n :: n in NamesInCapability(cap) ==> n in names
  }

  ghost predicate Uses(text: string, names: set<string>) { forall n :: n in Names(text) ==> n in names }

  /** Every field that a capability carries is searched for placeholders. */
  lemma SoundExactlyWhen(cap: Capability, names: set<string>)
    ensures Sound(cap, names) <==>
            match cap
            case ResetFailed(u) => Uses(u, names)
            case RestartUnit(u) => Uses(u, names)
            case UnitState(u) => Uses(u, names)
            case NixRollback => true
            case DeletePod(ns, pod) => Uses(ns, names) && Uses(pod, names)
            case RestartDeployment(ns, deployment) => Uses(ns, names) && Uses(deployment, names)
            case PodState(ns, podPrefix) => Uses(ns, names) && Uses(podPrefix, names)
  {
    hide Names;
  }

  lemma {:induction false} FirstUndeclaredMeans(names: seq<string>, declared: set<string>)
    ensures FirstUndeclared(names, declared) == None <==> forall n :: n in names ==> n in declared
  {
    if names != [] {
      FirstUndeclaredMeans(names[1..], declared);
      assert names == [names[0]] + names[1..];
    }
  }

  lemma {:induction false} ConditionsFaultMeans(cs: seq<Condition>, declared: set<string>)
    ensures ConditionsFault(cs, declared) == None <==>
            forall c :: c in cs ==> Sound(c.check, declared) && Observes(c.check)
  {
    if cs != [] {
      ConditionsFaultMeans(cs[1..], declared);
      FirstUndeclaredMeans(NamesInCapability(cs[0].check), declared);
      assert cs == [cs[0]] + cs[1..];
    }
  }

  lemma {:induction false} StepsFaultMeans(steps: seq<Capability>, declared: set<string>)
    ensures StepsFault(steps, declared) == None <==> forall s :: s in steps ==> Sound(s, declared)
  {
    if steps != [] {
      StepsFaultMeans(steps[1..], declared);
      FirstUndeclaredMeans(NamesInCapability(steps[0]), declared);
      assert steps[0] in steps && forall s :: s in steps <==> s == steps[0] || s in steps[1..];
    }
  }

  /** A template validates exactly when it has steps, all its checks only observe, and it uses no
      placeholder it does not declare. */
  lemma ValidatesExactlyWhenWellFormed(t: Template)
    ensures Fault(t) == None <==> WellFormed(t)
  {
    ConditionsFaultMeans(t.preconditions, Declared(t));
    StepsFaultMeans(t.steps, Declared(t));
    if t.verify.Some? { FirstUndeclaredMeans(NamesInCapability(t.verify.value.check), Declared(t)); }
  }

  // ---- resolution ----

  function Field(raw: string, values: Values): Result<string, RenderError> {
    match Resolve(raw, values)
    case Ok(s) => Ok(s)
    case Err(n) => Err(MissingValue(n))
  }

  /** Two Kubernetes identifiers: both are resolved before either is checked. */
  function KubePair(a: string, b: string, bField: string, values: Values): Result<(string, string), RenderError> {
    match Field(a, values)
    case Err(e) => Err(e)
    case Ok(x) =>
      match Field(b, values)
      case Err(e) => Err(e)
      case Ok(y) =>
        if !IsValidK8sLabel(x) then Err(InvalidKubeIdentifier("namespace", x))
        else if !IsValidK8sLabel(y) then Err(InvalidKubeIdentifier(bField, y))
        else Ok((x, y))
  }

  function WithUnit(raw: string, values: Values, make: string -> Capability): Result<Capability, RenderError> {
    match Field(raw, values)
    case Ok(u) => Ok(make(u))
    case Err(e) => Err(e)
  }

  function WithPair(r: Result<(string, string), RenderError>, make: (string, string) -> Capability): Result<Capability, RenderError> {
    match r
    case Ok(p) => Ok(make(p.0, p.1))
    case Err(e) => Err(e)
  }

  /** `Capability::resolve` (crates/ravn-core/src/remediation.rs:99-148). */
  function ResolveCapability(cap: Capability, values: Values): Result<Capability, RenderError> {
    match cap
    case ResetFailed(u) => WithUnit(u, values, x => ResetFailed(x))
    case RestartUnit(u) => WithUnit(u, values, x => RestartUnit(x))
    case UnitState(u) => WithUnit(u, values, x => UnitState(x))
    case NixRollback => Ok(NixRollback)
    case DeletePod(ns, pod) => WithPair(KubePair(ns, pod, "pod", values), (x, y) => DeletePod(x, y))
    case RestartDeployment(ns, d) =>
      WithPair(KubePair(ns, d, "deployment", values), (x, y) => RestartDeployment(x, y))
    case PodState(ns, p) => WithPair(KubePair(ns, p, "pod_prefix", values), (x, y) => PodState(x, y))
  }

  /** The Kubernetes names it carries are valid. */
  predicate KubeIdsValid(cap: Capability) {
    match cap
    case DeletePod(ns, pod) => IsValidK8sLabel(ns) && IsValidK8sLabel(pod)
    case RestartDeployment(ns, d) => IsValidK8sLabel(ns) && IsValidK8sLabel(d)
    case PodState(ns, p) => IsValidK8sLabel(ns) && IsValidK8sLabel(p)
    case _ => true
  }

  /** The same operation, and every string of it is the resolution of the string in the same place. */
  ghost predicate FieldsResolved(c: Capability, from: Capability, values: Values) {
    match from
    case ResetFailed(u) => c.ResetFailed? && Resolve(u, values) == Ok(c.unit)
    case RestartUnit(u) => c.RestartUnit? && Resolve(u, values) == Ok(c.unit)
    case UnitState(u) => c.UnitState? && Resolve(u, values) == Ok(c.unit)
    case NixRollback => c.NixRollback?
    case DeletePod(ns, pod) => c.DeletePod? && Resolve(ns, values) == Ok(c.namespace) && Resolve(pod, values) == Ok(c.pod)
    case RestartDeployment(ns, d) =>
      c.RestartDeployment? && Resolve(ns, values) == Ok(c.namespace) && Resolve(d, values) == Ok(c.deployment)
    case PodState(ns, p) => c.PodState? && Resolve(ns, values) == Ok(c.namespace) && Resolve(p, values) == Ok(c.podPrefix)
  }

  /** The field of that name is a Kubernetes name of the capability and resolves to `v`. */
  ghost predicate NameResolvesTo(cap: Capability, values: Values, field: string, v: string) {
    match cap
    case DeletePod(ns, pod) => Resolve(if field == "namespace" then ns else pod, values) == Ok(v) && field in {"namespace", "pod"}
    case RestartDeployment(ns, d) =>
      Resolve(if field == "namespace" then ns else d, values) == Ok(v) && field in {"namespace", "deployment"}
    case PodState(ns, p) => Resolve(if field == "namespace" then ns else p, values) == Ok(v) && field in {"namespace", "pod_prefix"}
    case _ => false
  }

  /** Values that leave no placeholder behind. */
  predicate InertValues(values: Values) { forall n :: n in values ==> Inert(values[n]) }

  lemma FieldMeans(raw: string, values: Values, names: set<string>)
    requires forall n :: n in Names(raw) ==> n in names
    requires names <= values.Keys
    ensures Field(raw, values).Ok? && Resolve(raw, values) == Ok(Field(raw, values).value)
    ensures InertValues(values) ==> Names(Field(raw, values).value) == []
  {
    ScannersAgree(raw, values);
    FirstMissingIsFirst(Names(raw), values);
    if InertValues(values) { OutputIsLiteral(raw, values); }
  }

  /** Resolving with a value for every declared name can fail only on a malformed Kubernetes name,
      keeps the kind of operation, resolves each string in its place, and yields valid names. */
  lemma ResolvedCapability(cap: Capability, values: Values)
    requires Sound(cap, values.Keys)
    ensures match ResolveCapability(cap, values)
            case Err(e) => e.InvalidKubeIdentifier? && !IsValidK8sLabel(e.value) && NameResolvesTo(cap, values, e.field, e.value)
            case Ok(c) => FieldsResolved(c, cap, values) && KubeIdsValid(c)
                          && (InertValues(values) ==> NamesInCapability(c) == [])
  {
    hide Resolve, Names, Text.FindPair, IsValidK8sLabel, InertValues, Field;
    match cap
    case ResetFailed(u) => FieldMeans(u, values, values.Keys);
    case RestartUnit(u) => FieldMeans(u, values, values.Keys);
    case UnitState(u) => FieldMeans(u, values, values.Keys);
    case NixRollback =>
    case DeletePod(ns, p) =>
      KubePairMeans(ns, p, "pod", values);
    case RestartDeployment(ns, d) =>
      KubePairMeans(ns, d, "deployment", values);
    case PodState(ns, p) =>
      KubePairMeans(ns, p, "pod_prefix", values);
  }

  lemma KubePairMeans(a: string, b: string, bField: string, values: Values)
    requires forall n :: n in Names(a) + Names(b) ==> n in values.Keys
    requires bField != "namespace"
    ensures match KubePair(a, b, bField, values)
            case Err(e) => e.InvalidKubeIdentifier? && !IsValidK8sLabel(e.value)
                           && e.field in {"namespace", bField}
                           && Resolve(if e.field == "namespace" then a else b, values) == Ok(e.value)
            case Ok(p) => Resolve(a, values) == Ok(p.0) && Resolve(b, values) == Ok(p.1)
                          && IsValidK8sLabel(p.0) && IsValidK8sLabel(p.1)
                          && (InertValues(values) ==> Names(p.0) == [] && Names(p.1) == [])
  {
    hide Resolve, Names, IsValidK8sLabel, InertValues, Field;
    FieldMeans(a, values, values.Keys);
    FieldMeans(b, values, values.Keys);
  }

  // ---- parameters ----

  const K8S_ID_PARAM_NAMES: set<string> := {"namespace", "pod", "deployment", "name"}

  /** `resolve_params`: a value for every declared parameter, or nothing. */
  function ResolveParams(params: seq<Param>, field: string -> Option<string>): Option<Values> {
    if params == [] then Some(map[])
    else
      var p := params[|params| - 1];
      var before := ResolveParams(params[..|params| - 1], field);
      if before.None? then None
      else if field(p.from).None? then None
      else if p.name in K8S_ID_PARAM_NAMES && !IsValidK8sLabel(field(p.from).value) then None
      else Some(before.value[p.name := field(p.from).value])
  }

  method ResolveParamsLoop(params: seq<Param>, field: string -> Option<string>) returns (r: Option<Values>)
    ensures r == ResolveParams(params, field)
  {
    var values: Values := map[];
    assert params[..|params|] == params;
    for i := 0 to |params|
      invariant ResolveParams(params[..i], field) == Some(values)
    {
      assert params[..i + 1][..i] == params[..i];
      var p := params[i];
      var value := field(p.from);
      if value.None? || (p.name in K8S_ID_PARAM_NAMES && !IsValidK8sLabel(value.value)) {
        StaysUnresolved(params, field, i + 1);
        return None;
      }
      values := values[p.name := value.value];
    }
    r := Some(values);
  }

  lemma {:induction false} StaysUnresolved(params: seq<Param>, field: string -> Option<string>, i: nat)
    requires i <= |params| && ResolveParams(params[..i], field).None?
    ensures ResolveParams(params, field).None?
    decreases |params|
  {
    if i < |params| {
      assert params[..|params| - 1][..i] == params[..i];
      StaysUnresolved(params[..|params| - 1], field, i);
    } else {
      assert params[..i] == params;
    }
  }

  lemma {:induction false} ResolvedParamsAreDeclared(params: seq<Param>, field: string -> Option<string>)
    requires ResolveParams(params, field).Some?
    ensures ResolveParams(params, field).value.Keys == set p | p in params :: p.name
  {
    if params != [] {
      ResolvedParamsAreDeclared(params[..|params| - 1], field);
      assert params == params[..|params| - 1] + [params[|params| - 1]];
    }
  }

  /** Whether a declared parameter has no value fit for use: its field is absent, or is to name a Kubernetes
      object and cannot. */
  predicate Unusable(p: Param, field: string -> Option<string>) {
    match field(p.from)
    case None => true
    case Some(v) => p.name in {"namespace", "pod", "deployment", "name"} && !IsValidK8sLabel(v)
  }

  /** Resolution fails exactly when some declared parameter is unusable, and otherwise gives every name the
      value of the field declared for it; the last declaration counts if there are several. */
  lemma {:induction false} ResolvedParamsAreTheFields(params: seq<Param>, field: string -> Option<string>)
    ensures ResolveParams(params, field) == None <==> exists i :: 0 <= i < |params| && Unusable(params[i], field)
    ensures forall values :: ResolveParams(params, field) == Some(values) ==>
              forall i :: 0 <= i < |params| && (forall j :: i < j < |params| ==> params[j].name != params[i].name) ==>
                params[i].name in values && field(params[i].from) == Some(values[params[i].name])
  {
    hide IsValidK8sLabel;
    if params != [] {
      var n := |params| - 1;
      var front, p := params[..n], params[n];
      ResolvedParamsAreTheFields(front, field);
      assert forall i :: 0 <= i < n ==> front[i] == params[i];
      if exists i :: 0 <= i < |front| && Unusable(front[i], field) {
        var i :| 0 <= i < |front| && Unusable(front[i], field);
        assert Unusable(params[i], field);
      } else if Unusable(p, field) {
        assert Unusable(params[n], field);
      } else {
        var before, values := ResolveParams(front, field).value, ResolveParams(params, field).value;
        forall i | 0 <= i < |params| && (forall j :: i < j < |params| ==> params[j].name != params[i].name)
          ensures params[i].name in values && field(params[i].from) == Some(values[params[i].name])
        {
          if i < n {
            assert params[n].name != params[i].name;
            assert front[i].name in before && field(front[i].from) == Some(before[front[i].name]);
          }
        }
      }
    }
  }

  // ---- the command ----

  function ResolveSteps(steps: seq<Capability>, values: Values): Result<seq<Capability>, RenderError> {
    if steps == [] then Ok([])
    else
      match ResolveCapability(steps[0], values)
      case Err(e) => Err(e)
      case Ok(c) =>
        match ResolveSteps(steps[1..], values)
        case Err(e) => Err(e)
        case Ok(cs) => Ok([c] + cs)
  }

  function ResolveConditions(cs: seq<Condition>, values: Values): Result<seq<Condition>, RenderError> {
    if cs == [] then Ok([])
    else
      match ResolveCapability(cs[0].check, values)
      case Err(e) => Err(e)
      case Ok(c) =>
        match ResolveConditions(cs[1..], values)
        case Err(e) => Err(e)
        case Ok(rest) => Ok([Condition(c, cs[0].equals)] + rest)
  }

  function ResolveVerify(v: Option<Verify>, values: Values): Result<Option<Verify>, RenderError> {
    match v
    case None => Ok(None)
    case Some(x) =>
      match ResolveCapability(x.check, values)
      case Err(e) => Err(e)
      case Ok(c) => Ok(Some(Verify(c, x.equals, x.timeoutS)))
  }

  /** What the server stamps on a command: fresh ids, the clock, the time to live, who approved. */
  datatype Stamp = Stamp(commandId: nat, agentId: nat, nonce: nat, now: int, ttl: int, approval: ApprovalRef)

  /** `build_command` up to the signature. */
  function BuildCommand(t: Template, values: Values, s: Stamp): Result<Payload, RenderError> {
    match ResolveSteps(t.steps, values)
    case Err(e) => Err(e)
    case Ok(steps) =>
      match ResolveConditions(t.preconditions, values)
      case Err(e) => Err(e)
      case Ok(preconditions) =>
        match ResolveVerify(t.verify, values)
        case Err(e) => Err(e)
        case Ok(verify) =>
          Ok(Payload(s.commandId, s.agentId, t.id, t.version, t.riskTier, preconditions, steps, verify,
                     t.rollback, s.approval, s.nonce, s.now, s.now + (if s.ttl > 1 then s.ttl else 1), None))
  }

  /** A resolved capability of the right kind, with valid names and, given inert values, no placeholder. */
  ghost predicate Concrete(c: Capability, from: Capability, values: Values) {
    && FieldsResolved(c, from, values) && KubeIdsValid(c)
    && (InertValues(values) ==> NamesInCapability(c) == [])
  }

  lemma {:induction false} StepsResolve(steps: seq<Capability>, values: Values)
    requires forall s :: s in steps ==> Sound(s, values.Keys)
    ensures match ResolveSteps(steps, values)
            case Err(e) => e.InvalidKubeIdentifier?
            case Ok(cs) => |cs| == |steps| && forall i :: 0 <= i < |cs| ==> Concrete(cs[i], steps[i], values)
  {
    hide ResolveCapability, Sound, Concrete;
    if steps != [] {
      ResolvedConcrete(steps[0], values);
      StepsResolve(steps[1..], values);
    }
  }

  lemma {:induction false} ConditionsResolve(cs: seq<Condition>, values: Values)
    requires forall c :: c in cs ==> Sound(c.check, values.Keys)
    ensures match ResolveConditions(cs, values)
            case Err(e) => e.InvalidKubeIdentifier?
            case Ok(rs) =>
              |rs| == |cs| && forall i :: 0 <= i < |rs| ==> Concrete(rs[i].check, cs[i].check, values) && rs[i].equals == cs[i].equals
  {
    hide ResolveCapability, Sound, Concrete;
    if cs != [] {
      ResolvedConcrete(cs[0].check, values);
      ConditionsResolve(cs[1..], values);
    }
  }

  lemma ResolvedConcrete(cap: Capability, values: Values)
    requires Sound(cap, values.Keys)
    ensures match ResolveCapability(cap, values)
            case Err(e) => e.InvalidKubeIdentifier?
            case Ok(c) => Concrete(c, cap, values)
  {
    hide ResolveCapability, Sound;
    ResolvedCapability(cap, values);
  }

  /** For a template that validates and parameters resolved for it, building the command can fail
      only on a malformed Kubernetes name. What it builds has the template's operations in order,
      checks that only observe, valid Kubernetes names and, if no value could bring one in, no
      placeholder anywhere. */
  lemma ValidatedTemplateBuilds(t: Template, field: string -> Option<string>, s: Stamp)
    requires Fault(t) == None && ResolveParams(t.parameters, field).Some?
    ensures var values := ResolveParams(t.parameters, field).value;
            match BuildCommand(t, values, s)
            case Err(e) => e.InvalidKubeIdentifier?
            case Ok(p) =>
              && |p.steps| == |t.steps| && |p.preconditions| == |t.preconditions|
              && p.verify.Some? == t.verify.Some?
              && (forall i :: 0 <= i < |p.steps| ==> Concrete(p.steps[i], t.steps[i], values))
              && (forall i :: 0 <= i < |p.preconditions| ==>
                    && Concrete(p.preconditions[i].check, t.preconditions[i].check, values)
                    && p.preconditions[i].equals == t.preconditions[i].equals)
              && (p.verify.Some? ==>
                    && Concrete(p.verify.value.check, t.verify.value.check, values)
                    && p.verify.value.equals == t.verify.value.equals && p.verify.value.timeoutS == t.verify.value.timeoutS)
              && p.rollback == t.rollback && p.riskTier == t.riskTier && p.templateId == t.id && p.templateVersion == t.version
              && p.commandId == s.commandId && p.agentId == s.agentId && p.approval == s.approval
              && p.nonce == s.nonce && p.issuedAt == s.now && p.expiresAt == s.now + (if s.ttl > 1 then s.ttl else 1)
              && (forall c :: c in Checks(p) ==> Observes(c))
  {
    hide Fault, Sound, ResolveCapability, ResolveParams, KubeIdsValid, InertValues;
    ValidatesExactlyWhenWellFormed(t);
    ResolvedParamsAreDeclared(t.parameters, field);
    var values := ResolveParams(t.parameters, field).value;
    StepsResolve(t.steps, values);
    ConditionsResolve(t.preconditions, values);
    if t.verify.Some? { ResolvedConcrete(t.verify.value.check, values); }
    var r := BuildCommand(t, values, s);
    if r.Ok? {
      ChecksReadOnly(t, values, r.value);
    }
  }

  lemma ChecksReadOnly(t: Template, values: Values, p: Payload)
    requires |p.preconditions| == |t.preconditions| && p.verify.Some? == t.verify.Some?
    requires forall i :: 0 <= i < |p.preconditions| ==> Concrete(p.preconditions[i].check, t.preconditions[i].check, values)
    requires p.verify.Some? ==> Concrete(p.verify.value.check, t.verify.value.check, values)
    requires forall c :: c in t.preconditions ==> Observes(c.check)
    requires t.verify.Some? ==> Observes(t.verify.value.check)
    ensures forall c :: c in Checks(p) ==> Observes(c)
  {
    forall i | 0 <= i < |p.preconditions| ensures Observes(p.preconditions[i].check) {
      assert t.preconditions[i] in t.preconditions;
    }
  }
}
