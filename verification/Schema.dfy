/**
The wire types of a remediation (crates/ravn-core/src/remediation.rs). Command and agent ids, and
times in whatever unit the clock counts, are integers.
*/
module Schema {
  import opened Options

  datatype RiskTier = Safe | Guarded | Dangerous

  /** The fixed set of typed operations (remediation.rs:47-88); there is no shell among them. */
  datatype Capability =
    | ResetFailed(unit: string)
    | RestartUnit(unit: string)
    | UnitState(unit: string)
    | NixRollback
    | DeletePod(namespace: string, pod: string)
    | RestartDeployment(namespace: string, deployment: string)
    | PodState(namespace: string, podPrefix: string)
  {
    predicate IsReadOnly() { UnitState? || PodState? }

    predicate IsKube() { DeletePod? || RestartDeployment? || PodState? }

    function KubeIds(): seq<string> {
      match this
      case DeletePod(ns, pod) => [ns, pod]
      case RestartDeployment(ns, deployment) => [ns, deployment]
      case PodState(ns, podPrefix) => [ns, podPrefix]
      case _ => []
    }

    function Unit(): Option<string> {
      match this
      case ResetFailed(u) => Some(u)
      case RestartUnit(u) => Some(u)
      case UnitState(u) => Some(u)
      case _ => None
    }
  }

  datatype Condition = Condition(check: Capability, equals: string)

  datatype Verify = Verify(check: Capability, equals: string, timeoutS: nat)

  datatype Rollback = NoRollback | NixGeneration

  datatype ApprovalRef = PolicyAuto | Human(user: string, approvedAt: int)

  /** Everything the signature covers (remediation.rs:516-556): every field but the signature. */
  datatype Payload = Payload(
    commandId: nat, agentId: nat, templateId: string, templateVersion: nat, riskTier: RiskTier,
    preconditions: seq<Condition>, steps: seq<Capability>, verify: Option<Verify>, rollback: Rollback,
    approval: ApprovalRef, nonce: nat, issuedAt: int, expiresAt: int, kid: Option<string>)

  /** All the capabilities that checks of the payload evaluate. */
  function Checks(p: Payload): seq<Capability> {
    seq(|p.preconditions|, i requires 0 <= i < |p.preconditions| => p.preconditions[i].check)
    + (if p.verify.Some? then [p.verify.value.check] else [])
  }

  predicate IsLabelChar(c: char) { 'a' <= c <= 'z' || '0' <= c <= '9' }

  /** A Kubernetes DNS label (remediation.rs:325-341). */
  predicate IsValidK8sLabel(s: string) {
    && 1 <= |s| <= 63
    && IsLabelChar(s[0]) && IsLabelChar(s[|s| - 1])
    && forall i :: 0 <= i < |s| ==> IsLabelChar(s[i]) || s[i] == '-'
  }

  // ---- the alphabets written out ----

  const LOWER: set<char> :=
    {'a', 'b', 'c', 'd', 'e', 'f', 'g', 'h', 'i', 'j', 'k', 'l', 'm',
     'n', 'o', 'p', 'q', 'r', 's', 't', 'u', 'v', 'w', 'x', 'y', 'z'}
  const UPPER: set<char> :=
    {'A', 'B', 'C', 'D', 'E', 'F', 'G', 'H', 'I', 'J', 'K', 'L', 'M',
     'N', 'O', 'P', 'Q', 'R', 'S', 'T', 'U', 'V', 'W', 'X', 'Y', 'Z'}
  const DIGITS: set<char> := {'0', '1', '2', '3', '4', '5', '6', '7', '8', '9'}

  /** What passes for a Kubernetes name: at most 63 lower-case letters, digits and dashes, with no dash
      at either end. */
  lemma LabelsAre(s: string)
    ensures IsValidK8sLabel(s) <==>
            && 1 <= |s| <= 63 && s[0] != '-' && s[|s| - 1] != '-'
            && forall i :: 0 <= i < |s| ==> s[i] in LOWER || s[i] in DIGITS || s[i] == '-'
  {
    forall i | 0 <= i < |s| ensures IsLabelChar(s[i]) <==> s[i] in LOWER || s[i] in DIGITS { LabelCharsAre(s[i]); }
    hide IsLabelChar, LOWER, DIGITS;
  }

  lemma LabelCharsAre(c: char)
    ensures IsLabelChar(c) <==> c in LOWER || c in DIGITS
    ensures c in LOWER || c in DIGITS ==> c != '-'
  {
  }
}
