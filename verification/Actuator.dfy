/**
The privileged actuator (crates/ravn-actuator/src/lib.rs:82-294 and 491-524): verify the envelope,
validate every identifier, check the preconditions, run the steps, poll the post-condition and, if
that fails, roll back.

The executor is arbitrary: `exec(i)` is what its `i`-th call answers. `clock(0)` is read when polling
starts and `clock(i)` after the `i`-th mismatch, in milliseconds.
*/
module Actuator {
  import opened Options
  import opened Schema
  import Crypto

  /** `Ok(observed)` or `Err` of one capability. */
  datatype Outcome = Done(observed: Option<string>) | Error

  datatype Status = Succeeded | PreconditionFailed | Failed | Rejected | Frozen

  datatype Report = Report(commandId: nat, status: Status, observed: Option<string>)

  /** Why a capability was run; the source has one loop or call for each. */
  datatype Role = Precondition | Step | Check | Undo

  datatype Ran = Ran(role: Role, cap: Capability, outcome: Outcome)

  // ---- identifiers ----

  predicate IsUnitChar(c: char) {
    'a' <= c <= 'z' || 'A' <= c <= 'Z' || '0' <= c <= '9' || c in {'.', '_', '-', '@', ':', '\\'}
  }

  predicate IsValidUnit(u: string) {
    1 <= |u| <= 256 && forall i :: 0 <= i < |u| ==> IsUnitChar(u[i])
  }

  predicate TargetsValid(cap: Capability) {
    && (cap.Unit().Some? ==> IsValidUnit(cap.Unit().value))
    && forall s :: s in cap.KubeIds() ==> IsValidK8sLabel(s)
  }

  function Everything(p: Payload): seq<Capability> { Checks(p) + p.steps }

  predicate InputsValid(p: Payload) { forall c :: c in Everything(p) ==> TargetsValid(c) }

  const MARKS: set<char> := {'.', '_', '-', '@', ':', '\\'}

  /** What passes for a unit name: at most 256 letters, digits, dots, underscores, dashes, at signs, colons
      and backslashes. */
  lemma UnitNamesAre(u: string)
    ensures IsValidUnit(u) <==>
            && 1 <= |u| <= 256
            && forall i :: 0 <= i < |u| ==>
                 u[i] in LOWER || u[i] in UPPER || u[i] in DIGITS || u[i] in MARKS
  {
    forall i | 0 <= i < |u|
      ensures IsUnitChar(u[i]) <==> u[i] in LOWER || u[i] in UPPER || u[i] in DIGITS || u[i] in MARKS
    {
      UnitCharsAre(u[i]);
    }
    hide IsUnitChar, LOWER, UPPER, DIGITS, MARKS;
  }

  lemma UnitCharsAre(c: char)
    ensures IsUnitChar(c) <==> c in LOWER || c in UPPER || c in DIGITS || c in MARKS
  {
  }

  /** The names an operation carries are fit to be passed on. */
  predicate CarriesFitNames(cap: Capability) {
    match cap
    case ResetFailed(u) => IsValidUnit(u)
    case RestartUnit(u) => IsValidUnit(u)
    case UnitState(u) => IsValidUnit(u)
    case NixRollback => true
    case DeletePod(ns, pod) => IsValidK8sLabel(ns) && IsValidK8sLabel(pod)
    case RestartDeployment(ns, deployment) => IsValidK8sLabel(ns) && IsValidK8sLabel(deployment)
    case PodState(ns, podPrefix) => IsValidK8sLabel(ns) && IsValidK8sLabel(podPrefix)
  }

  /** No name gets past validation unseen: inputs are valid exactly when every precondition, every step and
      the verification carry fit names, field by field. */
  lemma InputsAreValidExactlyWhen(p: Payload)
    ensures InputsValid(p) <==>
            && (forall i :: 0 <= i < |p.preconditions| ==> CarriesFitNames(p.preconditions[i].check))
            && (forall i :: 0 <= i < |p.steps| ==> CarriesFitNames(p.steps[i]))
            && (p.verify.Some? ==> CarriesFitNames(p.verify.value.check))
  {
    hide IsValidUnit, IsValidK8sLabel;
    forall c ensures TargetsValid(c) <==> CarriesFitNames(c) { TargetsAreItsNames(c); }
    var all, n := Everything(p), |p.preconditions|;
    forall i | 0 <= i < n ensures all[i] == p.preconditions[i].check && all[i] in all {}
    forall i | 0 <= i < |p.steps| ensures all[|Checks(p)| + i] == p.steps[i] && p.steps[i] in all {}
    if p.verify.Some? { assert all[n] == p.verify.value.check && all[n] in all; }
    hide TargetsValid, CarriesFitNames;
    if InputsValid(p) {
      forall i | 0 <= i < n ensures CarriesFitNames(p.preconditions[i].check) { assert all[i] in all; }
    } else {
      var c :| c in all && !TargetsValid(c);
      var i :| 0 <= i < |all| && all[i] == c;
      assert i < n || (p.verify.Some? && i == n) || c == p.steps[i - |Checks(p)|];
    }
  }

  lemma TargetsAreItsNames(c: Capability)
    ensures TargetsValid(c) <==> CarriesFitNames(c)
  {
    hide IsValidUnit, IsValidK8sLabel;
    if c.DeletePod? { assert c.KubeIds()[0] == c.namespace && c.KubeIds()[1] == c.pod; }
    if c.RestartDeployment? { assert c.KubeIds()[0] == c.namespace && c.KubeIds()[1] == c.deployment; }
    if c.PodState? { assert c.KubeIds()[0] == c.namespace && c.KubeIds()[1] == c.podPrefix; }
  }

  method ValidateInputs(p: Payload) returns (ok: bool)
    ensures ok <==> InputsValid(p)
  {
    var caps := Everything(p);
    for i := 0 to |caps|
      invariant forall j :: 0 <= j < i ==> TargetsValid(caps[j])
    {
      if !TargetsValid(caps[i]) {
        return false;
      }
    }
    ok := true;
  }

  // ---- what a trace may look like ----

  function OrEmpty(o: Option<string>): string { if o.Some? then o.value else "" }

  /** The answer is the expected text, or nothing where the empty text is expected. */
  predicate Holds(o: Outcome, equals: string) { o == Done(Some(equals)) || (o == Done(None) && equals == "") }

  /** An answer, but not that one. */
  predicate Mismatch(o: Outcome, equals: string) { o.Done? && !Holds(o, equals) }

  lemma HoldsExactlyWhenEqual(o: Outcome, equals: string)
    ensures Holds(o, equals) <==> o.Done? && OrEmpty(o.observed) == equals
    ensures Mismatch(o, equals) <==> o.Done? && OrEmpty(o.observed) != equals
  {
  }

  /** The part of a trace before verification, in order: all preconditions, then all steps. */
  function Scripted(p: Payload): nat { |p.preconditions| + |p.steps| }

  function ScriptAt(p: Payload, i: nat): (Role, Capability)
    requires i < Scripted(p)
  {
    if i < |p.preconditions| then (Precondition, p.preconditions[i].check)
    else (Step, p.steps[i - |p.preconditions|])
  }

  /** Entry `i` of the script went the way that lets the next one run. */
  predicate Passed(p: Payload, i: nat, o: Outcome)
    requires i < Scripted(p)
  {
    if i < |p.preconditions| then Holds(o, p.preconditions[i].equals) else o.Done?
  }

  /** The trace starts with the script, as far as it got, and only the last entry may have failed. */
  ghost predicate FollowsScript(p: Payload, t: seq<Ran>) {
    && (forall i :: 0 <= i < |t| && i < Scripted(p) ==> (t[i].role, t[i].cap) == ScriptAt(p, i))
    && (forall i :: 0 <= i < |t| - 1 && i < Scripted(p) ==> Passed(p, i, t[i].outcome))
  }

  /** What comes after the script: checks that did not hold yet, then perhaps one rollback. */
  ghost predicate VerifiesThenUndoes(p: Payload, t: seq<Ran>) {
    && (|t| > Scripted(p) ==> p.verify.Some?)
    && (forall i :: Scripted(p) <= i < |t| ==>
          && (t[i].role in {Check, Undo})
          && t[i].cap == (if t[i].role == Check then p.verify.value.check else NixRollback)
          && (i < |t| - 1 ==> t[i].role == Check)
          && (i < |t| - 2 ==> Mismatch(t[i].outcome, p.verify.value.equals)))
    && (RolledBack(t) ==>
          p.rollback == NixGeneration && |t| >= Scripted(p) + 2 && !Holds(t[|t| - 2].outcome, p.verify.value.equals))
    && (|t| > Scripted(p) + 1 && !RolledBack(t) ==> Mismatch(t[|t| - 2].outcome, p.verify.value.equals))
  }

  predicate RolledBack(t: seq<Ran>) { t != [] && t[|t| - 1].role == Undo }

  predicate ScriptDone(p: Payload, t: seq<Ran>) {
    && |t| >= Scripted(p)
    && forall i :: 0 <= i < Scripted(p) ==> Passed(p, i, t[i].outcome)
  }

  /** The verdict as a reading of the trace. */
  function Verdict(p: Payload, t: seq<Ran>): Status {
    var n := |t|;
    if ScriptDone(p, t) then
      if p.verify.None? then Succeeded
      else if n > Scripted(p) && t[n - 1].role == Check && Holds(t[n - 1].outcome, p.verify.value.equals) then Succeeded
      else if RolledBack(t) && t[n - 1].outcome.Error? then Frozen
      else Failed
    else if 0 < n <= |p.preconditions| && t[n - 1].outcome.Done? then PreconditionFailed
    else Failed
  }

  /** The observed state a report carries: what the failed precondition or the last check saw; after
      a failed verification an empty observation is left out. */
  function Observation(p: Payload, t: seq<Ran>): Option<string> {
    var n := if RolledBack(t) then |t| - 1 else |t|;
    if ScriptDone(p, t) then
      if p.verify.None? || n == 0 || t[n - 1].outcome.Error? then None
      else
        var seen := OrEmpty(t[n - 1].outcome.observed);
        if seen == "" && seen != p.verify.value.equals then None else Some(seen)
    else if 0 < |t| <= |p.preconditions| && t[|t| - 1].outcome.Done? then
      Some(OrEmpty(t[|t| - 1].outcome.observed))
    else None
  }

  /** Everything a run of the command may leave behind, whatever the executor does. */
  ghost predicate Legit(p: Payload, t: seq<Ran>, report: Report) {
    && FollowsScript(p, t) && VerifiesThenUndoes(p, t)
    && (ScriptDone(p, t) && p.verify.Some? ==> |t| > Scripted(p))
    && (ScriptDone(p, t) || (0 < |t| <= Scripted(p) && !Passed(p, |t| - 1, t[|t| - 1].outcome)))
    && (ScriptDone(p, t) && p.verify.Some? && !RolledBack(t) && p.rollback == NixGeneration ==>
          Holds(t[|t| - 1].outcome, p.verify.value.equals))
    && report.status == Verdict(p, t)
    && report.observed == Observation(p, t)
    && report.commandId == p.commandId
  }

  function Polls(p: Payload, t: seq<Ran>): int {
    |t| - Scripted(p) - (if RolledBack(t) then 1 else 0)
  }

  /** Each sleep between polls lasts at least half a second. */
  ghost predicate SleepsHalfASecond(clock: nat -> int) {
    && clock(0) <= clock(1)
    && forall i :: i >= 1 ==> clock(i) + 500 <= clock(i + 1)
  }

  /** Verification kept to its time budget: it made between one and twice the timeout plus one checks,
      went on only before the deadline, and took a mismatch for final only at or after it. */
  ghost predicate InTime(p: Payload, t: seq<Ran>, clock: nat -> int) {
    |t| > Scripted(p) ==>
      && p.verify.Some?
      && var (n, deadline) := (Polls(p, t), clock(0) + 1000 * p.verify.value.timeoutS);
         && 1 <= n <= 2 * p.verify.value.timeoutS + 1
         && (forall i :: 1 <= i < n ==> clock(i) < deadline)
         && (Mismatch(t[Scripted(p) + n - 1].outcome, p.verify.value.equals) ==> clock(n) >= deadline)
  }

  // ---- the command ----

  method RunPreconditions(p: Payload, exec: nat -> Outcome) returns (held: bool, t: seq<Ran>)
    ensures FollowsScript(p, t) && |t| <= |p.preconditions|
    ensures forall i :: 0 <= i < |t| ==> t[i].outcome == exec(i)
    ensures held ==> |t| == |p.preconditions| && forall i :: 0 <= i < |t| ==> Passed(p, i, t[i].outcome)
    ensures !held ==> t != [] && !Passed(p, |t| - 1, t[|t| - 1].outcome)
  {
    t := [];
    for i := 0 to |p.preconditions|
      invariant |t| == i && FollowsScript(p, t)
      invariant forall j :: 0 <= j < i ==> t[j].outcome == exec(j) && Passed(p, j, t[j].outcome)
    {
      var o := exec(i);
      t := t + [Ran(Precondition, p.preconditions[i].check, o)];
      HoldsExactlyWhenEqual(o, p.preconditions[i].equals);
      if o.Error? || OrEmpty(o.observed) != p.preconditions[i].equals {
        return false, t;
      }
    }
    held := true;
  }

  method RunSteps(p: Payload, before: seq<Ran>, exec: nat -> Outcome) returns (done: bool, t: seq<Ran>)
    requires FollowsScript(p, before) && |before| == |p.preconditions|
    requires forall i :: 0 <= i < |before| ==> before[i].outcome == exec(i) && Passed(p, i, before[i].outcome)
    ensures before <= t && FollowsScript(p, t) && |t| <= Scripted(p)
    ensures forall i :: 0 <= i < |t| ==> t[i].outcome == exec(i)
    ensures done ==> |t| == Scripted(p) && ScriptDone(p, t)
    ensures !done ==> |t| > |before| && !Passed(p, |t| - 1, t[|t| - 1].outcome)
  {
    t := before;
    for k := 0 to |p.steps|
      invariant |t| == |p.preconditions| + k && before <= t && FollowsScript(p, t)
      invariant forall j :: 0 <= j < |t| ==> t[j].outcome == exec(j) && Passed(p, j, t[j].outcome)
    {
      var o := exec(|t|);
      t := t + [Ran(Step, p.steps[k], o)];
      if o.Error? {
        return false, t;
      }
    }
    done := true;
  }

  lemma {:induction false} SleepsAdd(clock: nat -> int, n: nat)
    requires SleepsHalfASecond(clock)
    ensures clock(0) + 500 * n <= clock(n + 1)
  {
    if n > 0 {
      SleepsAdd(clock, n - 1);
      assert clock(n) + 500 <= clock(n + 1);
    }
  }

  /** The poll loop: stops on the expected state, on an error, or on a mismatch at or after the
      deadline. Between one and twice the timeout plus one checks are made. */
  method PollVerify(v: Verify, base: nat, exec: nat -> Outcome, clock: nat -> int) returns (checks: seq<Outcome>)
    requires SleepsHalfASecond(clock)
    ensures 1 <= |checks| <= 2 * v.timeoutS + 1
    ensures forall i :: 0 <= i < |checks| ==> checks[i] == exec(base + i)
    ensures forall i :: 0 <= i < |checks| - 1 ==> Mismatch(checks[i], v.equals)
    ensures forall i :: 1 <= i < |checks| ==> clock(i) < clock(0) + 1000 * v.timeoutS
    ensures Mismatch(checks[|checks| - 1], v.equals) ==> clock(|checks|) >= clock(0) + 1000 * v.timeoutS
  {
    hide Mismatch, SleepsHalfASecond;
    var deadline := clock(0) + 1000 * v.timeoutS;
    checks := [];
    while true
      invariant forall i :: 0 <= i < |checks| ==>
                  checks[i] == exec(base + i) && Mismatch(checks[i], v.equals)
      invariant forall i :: 1 <= i <= |checks| ==> clock(i) < deadline
      invariant |checks| <= 2 * v.timeoutS
      decreases 2 * v.timeoutS - |checks|
    {
      var n := |checks|;
      ghost var before := checks;
      checks := checks + [exec(base + n)];
      assert forall i :: 0 <= i < n ==> checks[i] == before[i];
      HoldsExactlyWhenEqual(checks[n], v.equals);
      if checks[n].Error? || OrEmpty(checks[n].observed) == v.equals {
        return;
      }
      SleepsAdd(clock, n);
      if clock(n + 1) >= deadline {
        return;
      }
      assert 500 * n < 1000 * v.timeoutS;
    }
  }

  method HandleCommand(ring: Crypto.Keyring, env: Crypto.Envelope, now: int, exec: nat -> Outcome, clock: nat -> int)
    returns (report: Report, t: seq<Ran>)
    requires SleepsHalfASecond(clock)
    ensures report.commandId == env.payload.commandId
    ensures forall i :: 0 <= i < |t| ==> t[i].outcome == exec(i)
    ensures report.status == Rejected <==> !Crypto.VerifyWith(ring, env, now).Ok? || !InputsValid(env.payload)
    ensures report.status == Rejected ==> t == [] && report.observed == None
    ensures report.status != Rejected ==> Legit(env.payload, t, report)
    ensures report.status != Rejected ==> InTime(env.payload, t, clock)
  {
    hide *;
    var p := env.payload;
    if Crypto.VerifyWith(ring, env, now).Err? {
      return Report(p.commandId, Rejected, None), [];
    }
    var valid := ValidateInputs(p);
    if !valid {
      return Report(p.commandId, Rejected, None), [];
    }
    var held;
    held, t := RunPreconditions(p, exec);
    ScriptIsAtLeast(p);
    if !held {
      var last := t[|t| - 1].outcome;
      report := Report(p.commandId, if last.Done? then PreconditionFailed else Failed,
                       if last.Done? then Some(OrEmpty(last.observed)) else None);
      StoppedInPreconditions(p, t, report);
      UncheckedIsInTime(p, t, clock);
      return;
    }
    var done;
    done, t := RunSteps(p, t, exec);
    if !done {
      report := Report(p.commandId, Failed, None);
      StoppedInSteps(p, t, report);
      UncheckedIsInTime(p, t, clock);
      return;
    }
    if p.verify.None? {
      report := Report(p.commandId, Succeeded, None);
      NothingToVerify(p, t, report);
      UncheckedIsInTime(p, t, clock);
      return;
    }
    report, t := VerifyPostcondition(p, t, exec, clock);
  }

  lemma UncheckedIsInTime(p: Payload, t: seq<Ran>, clock: nat -> int)
    requires |t| <= Scripted(p)
    ensures InTime(p, t, clock)
  {
  }

  lemma ScriptIsAtLeast(p: Payload)
    ensures Scripted(p) == |p.preconditions| + |p.steps|
  {
  }

  lemma StoppedInPreconditions(p: Payload, t: seq<Ran>, report: Report)
    requires FollowsScript(p, t) && 0 < |t| <= |p.preconditions| && !Passed(p, |t| - 1, t[|t| - 1].outcome)
    requires report == var last := t[|t| - 1].outcome;
               Report(p.commandId, if last.Done? then PreconditionFailed else Failed,
                      if last.Done? then Some(OrEmpty(last.observed)) else None)
    ensures report.status != Rejected && Legit(p, t, report)
  {
    assert (t[|t| - 1].role, t[|t| - 1].cap) == ScriptAt(p, |t| - 1);
  }

  lemma StoppedInSteps(p: Payload, t: seq<Ran>, report: Report)
    requires FollowsScript(p, t) && |p.preconditions| < |t| <= Scripted(p)
    requires !Passed(p, |t| - 1, t[|t| - 1].outcome) && report == Report(p.commandId, Failed, None)
    ensures report.status != Rejected && Legit(p, t, report)
  {
    assert (t[|t| - 1].role, t[|t| - 1].cap) == ScriptAt(p, |t| - 1);
  }

  lemma NothingToVerify(p: Payload, t: seq<Ran>, report: Report)
    requires FollowsScript(p, t) && |t| == Scripted(p) && ScriptDone(p, t) && p.verify.None?
    requires report == Report(p.commandId, Succeeded, None)
    ensures report.status != Rejected && Legit(p, t, report)
  {
    if t != [] { assert (t[|t| - 1].role, t[|t| - 1].cap) == ScriptAt(p, |t| - 1); }
  }

  lemma LastCheckHolds(p: Payload, t: seq<Ran>, report: Report)
    requires FollowsScript(p, t) && ScriptDone(p, t) && VerifiesThenUndoes(p, t) && !RolledBack(t)
    requires |t| > Scripted(p) && p.verify.Some? && Holds(t[|t| - 1].outcome, p.verify.value.equals)
    requires report == Report(p.commandId, Succeeded, Some(OrEmpty(t[|t| - 1].outcome.observed)))
    ensures report.status != Rejected && Legit(p, t, report)
  {
  }

  function WithChecks(check: Capability, script: seq<Ran>, checks: seq<Outcome>): seq<Ran> {
    script + seq(|checks|, i requires 0 <= i < |checks| => Ran(Check, check, checks[i]))
  }

  /** The verification stage of the command. */
  method VerifyPostcondition(p: Payload, script: seq<Ran>, exec: nat -> Outcome, clock: nat -> int)
    returns (report: Report, t: seq<Ran>)
    requires SleepsHalfASecond(clock) && p.verify.Some?
    requires FollowsScript(p, script) && |script| == Scripted(p) && ScriptDone(p, script)
    requires forall i :: 0 <= i < |script| ==> script[i].outcome == exec(i)
    ensures report.status != Rejected && Legit(p, t, report) && report.commandId == p.commandId
    ensures forall i :: 0 <= i < |t| ==> t[i].outcome == exec(i)
    ensures InTime(p, t, clock)
  {
    hide *;
    var v := p.verify.value;
    var checks := PollVerify(v, |script|, exec, clock);
    var last := checks[|checks| - 1];
    t := WithChecks(v.check, script, checks);
    CheckedIsLegit(p, script, checks, t, exec);
    HoldsExactlyWhenEqual(last, v.equals);
    if last.Done? && OrEmpty(last.observed) == v.equals {
      report := Report(p.commandId, Succeeded, Some(OrEmpty(last.observed)));
      LastCheckHolds(p, t, report);
      ChecksInTime(p, t, t, checks, clock);
      return;
    }
    ghost var checked := t;
    report, t := PerformRollback(p, t, if last.Done? then OrEmpty(last.observed) else "", exec);
    ChecksInTime(p, checked, t, checks, clock);
  }

  /** What the poll loop kept to still holds of the trace, with or without a rollback at its end. */
  lemma ChecksInTime(p: Payload, checked: seq<Ran>, t: seq<Ran>, checks: seq<Outcome>, clock: nat -> int)
    requires p.verify.Some? && checked <= t && |checked| == Scripted(p) + |checks| && Polls(p, t) == |checks|
    requires 1 <= |checks| <= 2 * p.verify.value.timeoutS + 1
    requires checked[|checked| - 1].outcome == checks[|checks| - 1]
    requires forall i :: 1 <= i < |checks| ==> clock(i) < clock(0) + 1000 * p.verify.value.timeoutS
    requires Mismatch(checks[|checks| - 1], p.verify.value.equals) ==> clock(|checks|) >= clock(0) + 1000 * p.verify.value.timeoutS
    ensures InTime(p, t, clock)
  {
    hide Scripted, Polls, Mismatch;
    assert t[|checked| - 1] == checked[|checked| - 1];
  }

  lemma WithChecksAt(check: Capability, script: seq<Ran>, checks: seq<Outcome>)
    ensures |WithChecks(check, script, checks)| == |script| + |checks|
    ensures forall i :: 0 <= i < |script| ==> WithChecks(check, script, checks)[i] == script[i]
    ensures forall i :: |script| <= i < |script| + |checks| ==>
              WithChecks(check, script, checks)[i] == Ran(Check, check, checks[i - |script|])
  {
  }

  lemma StillFollows(p: Payload, script: seq<Ran>, t: seq<Ran>)
    requires FollowsScript(p, script) && |script| == Scripted(p) && ScriptDone(p, script)
    requires |t| >= |script| && forall i :: 0 <= i < |script| ==> t[i] == script[i]
    ensures FollowsScript(p, t) && ScriptDone(p, t)
  {
  }

  lemma ChecksVerify(p: Payload, t: seq<Ran>)
    requires p.verify.Some? && |t| > Scripted(p)
    requires forall i :: Scripted(p) <= i < |t| ==> t[i].role == Check && t[i].cap == p.verify.value.check
    requires forall i :: Scripted(p) <= i < |t| - 1 ==> Mismatch(t[i].outcome, p.verify.value.equals)
    ensures VerifiesThenUndoes(p, t) && !RolledBack(t) && Polls(p, t) == |t| - Scripted(p)
  {
    assert t[|t| - 1].role == Check;
  }

  /** Whatever the poll loop ended on, the trace so far is in order. */
  lemma CheckedIsLegit(p: Payload, script: seq<Ran>, checks: seq<Outcome>, t: seq<Ran>, exec: nat -> Outcome)
    requires FollowsScript(p, script) && |script| == Scripted(p) && ScriptDone(p, script) && p.verify.Some? && checks != []
    requires forall i :: 0 <= i < |checks| - 1 ==> Mismatch(checks[i], p.verify.value.equals)
    requires t == WithChecks(p.verify.value.check, script, checks)
    requires forall i :: 0 <= i < |script| ==> script[i].outcome == exec(i)
    requires forall i :: 0 <= i < |checks| ==> checks[i] == exec(|script| + i)
    ensures FollowsScript(p, t) && ScriptDone(p, t) && VerifiesThenUndoes(p, t) && !RolledBack(t)
    ensures |t| == Scripted(p) + |checks| && Polls(p, t) == |checks| && t[|t| - 1].outcome == checks[|checks| - 1]
    ensures forall i :: 0 <= i < |t| ==> t[i].outcome == exec(i)
  {
    hide *;
    WithChecksAt(p.verify.value.check, script, checks);
    StillFollows(p, script, t);
    ChecksVerify(p, t);
    forall i | 0 <= i < |t| ensures t[i].outcome == exec(i) {
      if i >= |script| { assert checks[i - |script|] == exec(|script| + (i - |script|)); }
    }
  }

  method PerformRollback(p: Payload, before: seq<Ran>, observed: string, exec: nat -> Outcome)
    returns (report: Report, t: seq<Ran>)
    requires FollowsScript(p, before) && ScriptDone(p, before) && VerifiesThenUndoes(p, before)
    requires !RolledBack(before) && |before| > Scripted(p)
    requires !Holds(before[|before| - 1].outcome, p.verify.value.equals)
    requires forall i :: 0 <= i < |before| ==> before[i].outcome == exec(i)
    requires observed == (if before[|before| - 1].outcome.Done? then OrEmpty(before[|before| - 1].outcome.observed) else "")
    ensures report.commandId == p.commandId
    ensures report.status != Rejected && Legit(p, t, report) && Polls(p, t) == Polls(p, before) && before <= t
    ensures forall i :: 0 <= i < |t| ==> t[i].outcome == exec(i)
  {
    hide *;
    var state := if observed == "" then None else Some(observed);
    match p.rollback
    case NoRollback =>
      report, t := Report(p.commandId, Failed, state), before;
      NotUndone(p, before, state);
    case NixGeneration =>
      var o := exec(|before|);
      t := before + [Ran(Undo, NixRollback, o)];
      report := Report(p.commandId, if o.Done? then Failed else Frozen, state);
      Undone(p, before, state, o);
  }

  lemma NotUndone(p: Payload, t: seq<Ran>, state: Option<string>)
    requires FollowsScript(p, t) && ScriptDone(p, t) && VerifiesThenUndoes(p, t) && !RolledBack(t) && |t| > Scripted(p)
    requires !Holds(t[|t| - 1].outcome, p.verify.value.equals) && p.rollback == NoRollback
    requires var last := t[|t| - 1].outcome;
             state == if last.Done? && OrEmpty(last.observed) != "" then Some(OrEmpty(last.observed)) else None
    ensures Legit(p, t, Report(p.commandId, Failed, state))
  {
    hide FollowsScript;
  }

  lemma Undone(p: Payload, before: seq<Ran>, state: Option<string>, o: Outcome)
    requires FollowsScript(p, before) && ScriptDone(p, before) && VerifiesThenUndoes(p, before)
    requires !RolledBack(before) && |before| > Scripted(p) && p.rollback == NixGeneration
    requires !Holds(before[|before| - 1].outcome, p.verify.value.equals)
    requires var last := before[|before| - 1].outcome;
             state == if last.Done? && OrEmpty(last.observed) != "" then Some(OrEmpty(last.observed)) else None
    ensures var t := before + [Ran(Undo, NixRollback, o)];
            Legit(p, t, Report(p.commandId, if o.Done? then Failed else Frozen, state)) && Polls(p, t) == Polls(p, before)
  {
    var t := before + [Ran(Undo, NixRollback, o)];
    forall i | 0 <= i < |before| ensures t[i] == before[i] {}
    assert t[|t| - 1] == Ran(Undo, NixRollback, o) && t[|t| - 2] == before[|before| - 1];
  }

  /** The socket boundary: a host actuator refuses Kubernetes capabilities unseen. */
  method HandleConnection(ring: Crypto.Keyring, env: Crypto.Envelope, now: int, exec: nat -> Outcome, clock: nat -> int)
    returns (report: Report, t: seq<Ran>)
    requires SleepsHalfASecond(clock)
    ensures report.commandId == env.payload.commandId
    ensures forall i :: 0 <= i < |t| ==> t[i].outcome == exec(i)
    ensures report.status == Rejected <==>
              (exists c :: c in Everything(env.payload) && (c.DeletePod? || c.RestartDeployment? || c.PodState?))
              || !Crypto.VerifyWith(ring, env, now).Ok? || !InputsValid(env.payload)
    ensures report.status == Rejected ==> t == [] && report.observed == None
    ensures report.status != Rejected ==> Legit(env.payload, t, report) && InTime(env.payload, t, clock)
  {
    if exists c :: c in Everything(env.payload) && c.IsKube() {
      return Report(env.payload.commandId, Rejected, None), [];
    }
    report, t := HandleCommand(ring, env, now, exec, clock);
  }

  // ---- what legitimate traces promise ----

  /** The statuses, each by what happened. */
  lemma StatusMeans(p: Payload, t: seq<Ran>, report: Report)
    requires Legit(p, t, report)
    ensures report.status == Succeeded <==>
              ScriptDone(p, t) && (p.verify.Some? ==> !RolledBack(t) && Holds(t[|t| - 1].outcome, p.verify.value.equals))
    ensures report.status == Frozen <==>
              ScriptDone(p, t) && p.verify.Some? && p.rollback == NixGeneration && RolledBack(t) && t[|t| - 1].outcome.Error?
    ensures report.status == PreconditionFailed <==>
              0 < |t| <= |p.preconditions| && Mismatch(t[|t| - 1].outcome, p.preconditions[|t| - 1].equals)
    ensures report.status != Rejected
  {
  }

  /** The protocol on the executor's own answers: a precondition lets the run go on exactly when its answer
      is the expected text, or nothing where the empty text is expected; a step exactly when it did not
      err. What went on without anything after it succeeded. */
  lemma GoesOnExactlyWhen(p: Payload, t: seq<Ran>, report: Report, i: nat)
    requires Legit(p, t, report) && i < |t|
    ensures i < |p.preconditions| ==>
              var (o, want) := (t[i].outcome, p.preconditions[i].equals);
              (i < |t| - 1 || report.status == Succeeded) <==> o == Done(Some(want)) || (o == Done(None) && want == "")
    ensures |p.preconditions| <= i < |p.preconditions| + |p.steps| ==>
              ((i < |t| - 1 || report.status == Succeeded) <==> t[i].outcome != Error)
  {
  }

  /** What runs when, entry by entry: the preconditions in order, the steps in order, then the check of the
      verification again and again, and at most as the last entry a rollback. */
  lemma EntriesAre(p: Payload, t: seq<Ran>, report: Report, i: nat)
    requires Legit(p, t, report) && i < |t|
    ensures var (n, m) := (|p.preconditions|, |p.preconditions| + |p.steps|);
            (t[i].role, t[i].cap) ==
            if i < n then (Precondition, p.preconditions[i].check)
            else if i < m then (Step, p.steps[i - n])
            else if p.verify.Some? && t[i].role != Undo then (Check, p.verify.value.check)
            else (Undo, NixRollback)
    ensures t[i].role == Undo ==> i == |t| - 1 && p.rollback == NixGeneration
  {
    if i < |p.preconditions| + |p.steps| { assert (t[i].role, t[i].cap) == ScriptAt(p, i); }
  }

  /** A command succeeded exactly when every precondition was answered as expected, no step erred, and the
      last check, if there is one to make, was answered as expected. */
  lemma SucceededExactlyWhen(p: Payload, t: seq<Ran>, report: Report)
    requires Legit(p, t, report)
    ensures var (n, m) := (|p.preconditions|, |p.preconditions| + |p.steps|);
            report.status == Succeeded <==>
            && |t| >= m
            && (forall i :: 0 <= i < n ==>
                  t[i].outcome == Done(Some(p.preconditions[i].equals)) || (t[i].outcome == Done(None) && p.preconditions[i].equals == ""))
            && (forall i :: n <= i < m ==> t[i].outcome != Error)
            && (p.verify.Some? ==>
                  && |t| > m && t[|t| - 1].role == Check
                  && var (o, want) := (t[|t| - 1].outcome, p.verify.value.equals);
                     o == Done(Some(want)) || (o == Done(None) && want == ""))
  {
  }

  /** The observation reported, by what the executor answered: for a precondition that did not hold its
      answer, nothing counting as the empty text; for a check that held the expected text; for one that did
      not its answer, unless it was empty; otherwise none. */
  lemma ObservedIsTheAnswer(p: Payload, t: seq<Ran>, report: Report)
    requires Legit(p, t, report)
    ensures report.status == PreconditionFailed ==>
              match t[|t| - 1].outcome
              case Done(Some(v)) => report.observed == Some(v)
              case Done(None) => report.observed == Some("")
              case Error => false
    ensures report.status == Succeeded ==>
              report.observed == if p.verify.Some? then Some(p.verify.value.equals) else None
    ensures report.status == Failed || report.status == Frozen ==>
              var checks := |t| - |p.preconditions| - |p.steps| - (if RolledBack(t) then 1 else 0);
              if checks <= 0 then report.observed == None
              else
                match t[|p.preconditions| + |p.steps| + checks - 1].outcome
                case Done(Some(v)) => report.observed == if v == "" then None else Some(v)
                case _ => report.observed == None
  {
  }

  /** A failed step is never rolled back: a rollback means every precondition held, every step
      succeeded, a check failed, and it comes last. */
  lemma RollbackOnlyAfterFailedVerify(p: Payload, t: seq<Ran>, report: Report, i: nat)
    requires Legit(p, t, report) && i < |t| && t[i].role == Undo
    ensures i == |t| - 1 && ScriptDone(p, t) && p.rollback == NixGeneration && p.verify.Some?
    ensures !Holds(t[i - 1].outcome, p.verify.value.equals) && t[i - 1].role == Check
    ensures report.status == Failed || report.status == Frozen
  {
  }

  lemma PreconditionIsCheck(p: Payload, t: seq<Ran>, i: nat)
    requires FollowsScript(p, t) && i < |t| && i < |p.preconditions|
    ensures t[i].cap in Checks(p)
  {
    assert (t[i].role, t[i].cap) == ScriptAt(p, i);
    assert Checks(p)[i] == p.preconditions[i].check;
  }

  /** No capability that changes anything runs before every precondition was observed to hold,
      provided the checks of the payload only observe. */
  lemma NothingMutatesBeforePreconditionsHold(p: Payload, t: seq<Ran>, report: Report, i: nat)
    requires Legit(p, t, report) && i < |t| && !(t[i].cap.UnitState? || t[i].cap.PodState?)
    requires forall c :: c in Checks(p) ==> c.UnitState? || c.PodState?
    ensures i >= |p.preconditions|
    ensures forall j :: 0 <= j < |p.preconditions| ==>
              t[j].role == Precondition && t[j].cap == p.preconditions[j].check && Holds(t[j].outcome, p.preconditions[j].equals)
  {
    if i < |p.preconditions| { PreconditionIsCheck(p, t, i); }
    forall j | 0 <= j < |p.preconditions|
      ensures t[j].role == Precondition && t[j].cap == p.preconditions[j].check && Holds(t[j].outcome, p.preconditions[j].equals)
    {
      assert Passed(p, j, t[j].outcome);
      assert (t[j].role, t[j].cap) == ScriptAt(p, j);
    }
  }
}
