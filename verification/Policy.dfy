/**
The remediation policy engine (crates/ravn-server/src/policy.rs): first-match rules, the kill
switch, the dangerous-tier guard and the pruned sliding-window circuit breaker.

Times are integers (nanoseconds). `Reference` decides from the whole history of automatic
executions; the theorems say that the engine, which keeps only a pruned log, gives the same answers.
*/
module Policy {
  import opened Options
  import opened Schema
  import Glob

  datatype PolicyDecision = Auto | Approve | Forbid

  type Host = seq<Glob.byte>

  datatype PolicyRule = PolicyRule(host: Option<Host>, tier: RiskTier, decision: PolicyDecision) {
    predicate Applies(h: Host, t: RiskTier) {
      tier == t && (host.Some? ==> Glob.LiteralFirst(host.value, h))
    }
  }

  /** The first matching rule wins; without one the answer is `Approve`. */
  function Decide(rules: seq<PolicyRule>, host: Host, tier: RiskTier): PolicyDecision {
    if rules == [] then Approve
    else if rules[0].Applies(host, tier) then rules[0].decision
    else Decide(rules[1..], host, tier)
  }

  /** Default-deny: anything but `Approve` comes from a rule that applies with none before it. */
  lemma {:induction false} DecisionNeedsFirstMatchingRule(rules: seq<PolicyRule>, host: Host, tier: RiskTier)
    ensures var d := Decide(rules, host, tier);
            d == Approve || exists i :: FirstMatch(rules, host, tier, i) && rules[i].decision == d
    ensures forall i :: FirstMatch(rules, host, tier, i) ==> rules[i].decision == Decide(rules, host, tier)
  {
    if rules == [] {
    } else if rules[0].Applies(host, tier) {
      assert FirstMatch(rules, host, tier, 0);
    } else {
      DecisionNeedsFirstMatchingRule(rules[1..], host, tier);
      var d := Decide(rules, host, tier);
      if d != Approve {
        var i :| FirstMatch(rules[1..], host, tier, i) && rules[1..][i].decision == d;
        assert FirstMatch(rules, host, tier, i + 1);
      }
      forall i | FirstMatch(rules, host, tier, i) ensures rules[i].decision == d {
        assert forall j :: 0 <= j < i - 1 ==> rules[1..][j] == rules[j + 1];
        assert FirstMatch(rules[1..], host, tier, i - 1);
      }
    }
  }

  predicate FirstMatch(rules: seq<PolicyRule>, host: Host, tier: RiskTier, i: int) {
    && 0 <= i < |rules| && rules[i].Applies(host, tier)
    && forall j :: 0 <= j < i ==> !rules[j].Applies(host, tier)
  }

  /** On a host name without `*`, rules mean what they say: the decision is that of the first rule for the
      call's very tier whose pattern, if it has one, matches the host as a wildcard, and `Approve` if
      there is none. */
  lemma DecisionIsThatOfTheFirstFit(rules: seq<PolicyRule>, host: Host, tier: RiskTier)
    requires forall i :: 0 <= i < |host| ==> host[i] as int != '*' as int
    ensures if exists i :: Fits(rules, host, tier, i)
            then exists i :: Fits(rules, host, tier, i) && rules[i].decision == Decide(rules, host, tier)
                             && forall j :: 0 <= j < i ==> !Fits(rules, host, tier, j)
            else Decide(rules, host, tier) == Approve
  {
    forall i | 0 <= i < |rules| ensures Fits(rules, host, tier, i) <==> rules[i].Applies(host, tier) {
      if rules[i].host.Some? { Glob.FaithfulOnStarFreeText(rules[i].host.value, host); }
    }
    DecisionNeedsFirstMatchingRule(rules, host, tier);
    hide Fits, Decide;
    if exists i :: Fits(rules, host, tier, i) {
      var i := FirstFit(rules, host, tier);
      assert FirstMatch(rules, host, tier, i);
    }
  }

  ghost predicate Fits(rules: seq<PolicyRule>, host: Host, tier: RiskTier, i: int) {
    0 <= i < |rules| && rules[i].tier == tier && (rules[i].host.Some? ==> Glob.Matches(rules[i].host.value, host))
  }

  lemma FirstFit(rules: seq<PolicyRule>, host: Host, tier: RiskTier) returns (i: nat)
    requires exists k :: Fits(rules, host, tier, k)
    ensures Fits(rules, host, tier, i) && forall j :: 0 <= j < i ==> !Fits(rules, host, tier, j)
  {
    var k :| Fits(rules, host, tier, k);
    assert k >= 0;
    hide Fits;
    i := 0;
    while !Fits(rules, host, tier, i)
      invariant forall j :: 0 <= j < i ==> !Fits(rules, host, tier, j)
      invariant i <= k
      decreases k - i
    {
      i := i + 1;
    }
  }

  /** Whatever the host's name, a rule that decides is one for the call's tier, and its pattern, if it has
      one, matches the host. */
  lemma OnlyAFitDecides(rules: seq<PolicyRule>, host: Host, tier: RiskTier)
    ensures Decide(rules, host, tier) == Approve
            || exists i :: Fits(rules, host, tier, i) && rules[i].decision == Decide(rules, host, tier)
  {
    DecisionNeedsFirstMatchingRule(rules, host, tier);
    if Decide(rules, host, tier) != Approve {
      var i :| FirstMatch(rules, host, tier, i) && rules[i].decision == Decide(rules, host, tier);
      if rules[i].host.Some? { Glob.NeverAcceptsTooMuch(rules[i].host.value, host); }
      assert Fits(rules, host, tier, i);
    }
  }

  // ---- circuit breaker ----

  datatype Pair = Pair(host: Host, template: string)

  /** `(host, template)` to the recent automatic executions still in its log. */
  type HitLog = map<Pair, seq<int>>

  const U32: int := 0x1_0000_0000
  /** The longest duration chrono can represent: `i64::MAX` milliseconds. */
  const CHRONO_MAX: int := 0x7FFF_FFFF_FFFF_FFFF * 1_000_000

  /** A window chrono cannot represent counts as zero. */
  function Span(window: nat): nat { if window <= CHRONO_MAX then window else 0 }

  /** The window that counts is the configured one, up to the longest that chrono can represent. */
  lemma SpanIsTheWindow(window: nat)
    ensures Span(window) == if window <= 0x7FFF_FFFF_FFFF_FFFF * 1_000_000 then window else 0
  {
  }

  function After(ts: seq<int>, cutoff: int): seq<int> {
    if ts == [] then []
    else if ts[|ts| - 1] > cutoff then After(ts[..|ts| - 1], cutoff) + [ts[|ts| - 1]]
    else After(ts[..|ts| - 1], cutoff)
  }

  /** A length cast to `u32`. */
  function AsU32(n: nat): (r: nat)
    ensures n < U32 ==> r == n
    ensures r < 0x1_0000_0000 && (n - r) % 0x1_0000_0000 == 0
  {
    n % U32
  }

  function Logged(hits: HitLog, k: Pair): seq<int> { if k in hits then hits[k] else [] }

  /** The in-memory log behind its mutex; both methods run under the lock. */
  class CircuitBreaker {
    const maxAuto: nat
    const window: nat
    var hits: HitLog

    constructor (maxAuto: nat, window: nat)
      ensures this.maxAuto == maxAuto && this.window == window && hits == map[]
    {
      this.maxAuto, this.window, hits := maxAuto, window, map[];
    }

    /** Prunes the pair's log to the window and says whether it is full. */
    method Tripped(host: Host, template: string, now: int) returns (r: bool)
      modifies this
      ensures hits == old(hits)[Pair(host, template) := After(Logged(old(hits), Pair(host, template)), now - Span(window))]
      ensures r <==> AsU32(|Logged(hits, Pair(host, template))|) >= maxAuto
    {
      var cutoff := now - Span(window);
      var k := Pair(host, template);
      var entry := if k in hits then hits[k] else [];
      var kept, i := [], 0;
      assert entry[..|entry|] == entry;
      while i < |entry|
        invariant 0 <= i <= |entry| && kept == After(entry[..i], cutoff)
        invariant hits == old(hits)
      {
        assert entry[..i + 1][..i] == entry[..i];
        if entry[i] > cutoff { kept := kept + [entry[i]]; }
        i := i + 1;
      }
      hits := hits[k := kept];
      r := AsU32(|kept|) >= maxAuto;
    }

    method Record(host: Host, template: string, now: int)
      modifies this
      ensures hits == old(hits)[Pair(host, template) := Logged(old(hits), Pair(host, template)) + [now]]
    {
      var k := Pair(host, template);
      hits := hits[k := (if k in hits then hits[k] else []) + [now]];
    }
  }

  // ---- engine ----

  datatype Config = Config(rules: seq<PolicyRule>, autoEnabled: bool, maxAuto: nat, window: nat)

  datatype EvaluateResult = EvaluateResult(decision: PolicyDecision, breakerTripped: bool)

  datatype Call = Call(host: Host, tier: RiskTier, template: string, now: int) {
    function Key(): Pair { Pair(host, template) }
  }

  /** Every guardrail but the breaker: the rule, the kill switch, the dangerous tier. */
  function Permitted(c: Config, call: Call): PolicyDecision {
    var d := Decide(c.rules, call.host, call.tier);
    if d == Auto && (!c.autoEnabled || call.tier == Dangerous) then Approve else d
  }

  /** The breaker's turn: prune, and grant (and log) the call if the log is not full. */
  function BreakerStep(maxAuto: nat, span: nat, hits: HitLog, k: Pair, now: int): (bool, HitLog) {
    var kept := After(Logged(hits, k), now - span);
    if AsU32(|kept|) >= maxAuto then (false, hits[k := kept]) else (true, hits[k := kept + [now]])
  }

  function Step(c: Config, hits: HitLog, call: Call): (EvaluateResult, HitLog) {
    var d := Permitted(c, call);
    if d != Auto then (EvaluateResult(d, false), hits)
    else
      var (granted, hits') := BreakerStep(c.maxAuto, Span(c.window), hits, call.Key(), call.now);
      (EvaluateResult(if granted then Auto else Approve, !granted), hits')
  }

  class PolicyEngine {
    const rules: seq<PolicyRule>
    const autoEnabled: bool
    const breaker: CircuitBreaker

    constructor (rules: seq<PolicyRule>, autoEnabled: bool, maxAuto: nat, window: nat)
      ensures Settings() == Config(rules, autoEnabled, maxAuto, window)
      ensures fresh(breaker) && breaker.hits == map[]
    {
      this.rules, this.autoEnabled := rules, autoEnabled;
      this.breaker := new CircuitBreaker(maxAuto, window);
    }

    function Settings(): Config { Config(rules, autoEnabled, breaker.maxAuto, breaker.window) }

    /** The single decision entry point, one caller at a time. */
    method Evaluate(host: Host, tier: RiskTier, template: string, now: int) returns (r: EvaluateResult)
      modifies breaker
      ensures (r, breaker.hits) == Step(Settings(), old(breaker.hits), Call(host, tier, template, now))
    {
      var decision := Decide(rules, host, tier);
      if !autoEnabled {
        return EvaluateResult(if decision == Forbid then Forbid else Approve, false);
      }
      if decision == Auto && tier == Dangerous {
        decision := Approve;
      }
      if decision == Auto {
        var tripped := breaker.Tripped(host, template, now);
        if tripped {
          return EvaluateResult(Approve, true);
        }
        ghost var pruned := breaker.hits;
        breaker.Record(host, template, now);
        assert breaker.hits == old(breaker.hits)[Pair(host, template) := pruned[Pair(host, template)] + [now]];
      }
      r := EvaluateResult(decision, false);
    }
  }

  // ---- runs ----

  /** The calls of a run so far, latest outermost. */
  datatype History = Start | Then(before: History, call: Call)

  function HitsAfter(c: Config, h: History): HitLog {
    match h
    case Start => map[]
    case Then(before, call) => Step(c, HitsAfter(c, before), call).1
  }

  /** The engine's answer to `call` after the run `h`. */
  function Answer(c: Config, h: History, call: Call): EvaluateResult {
    Step(c, HitsAfter(c, h), call).0
  }

  /** Every automatic execution ever granted to the pair, in order: the full, unpruned history. */
  function AutoTimes(c: Config, h: History, k: Pair): seq<int> {
    match h
    case Start => []
    case Then(before, call) =>
      AutoTimes(c, before, k) +
      (if Answer(c, before, call).decision == Auto && call.Key() == k then [call.now] else [])
  }

  /** The clock never steps back within the run, nor from its end to `now`. */
  predicate MonotoneUpTo(h: History, now: int) {
    h.Then? ==> h.call.now <= now && MonotoneUpTo(h.before, h.call.now)
  }

  /** How many of `ts` lie in `(lo, hi]`. */
  function CountIn(ts: seq<int>, lo: int, hi: int): nat {
    if ts == [] then 0
    else CountIn(ts[..|ts| - 1], lo, hi) + (if lo < ts[|ts| - 1] <= hi then 1 else 0)
  }

  /** Which is the number of positions that hold such a time. */
  lemma {:induction false} CountInIsTheNumber(ts: seq<int>, lo: int, hi: int)
    ensures CountIn(ts, lo, hi) == |set i | 0 <= i < |ts| && lo < ts[i] <= hi|
  {
    hide CountIn;
    if ts == [] {
      NothingCounts(lo, hi);
    } else {
      var front, t := ts[..|ts| - 1], ts[|ts| - 1];
      assert ts == front + [t];
      CountInIsTheNumber(front, lo, hi);
      CountAppend(front, t, lo, hi);
      OneMorePosition(front, t, lo, hi);
    }
  }

  lemma OneMorePosition(ts: seq<int>, t: int, lo: int, hi: int)
    ensures |set i | 0 <= i < |ts + [t]| && lo < (ts + [t])[i] <= hi| ==
            |set i | 0 <= i < |ts| && lo < ts[i] <= hi| + (if lo < t <= hi then 1 else 0)
  {
    var all, front := set i | 0 <= i < |ts + [t]| && lo < (ts + [t])[i] <= hi, set i | 0 <= i < |ts| && lo < ts[i] <= hi;
    assert all == front + (if lo < t <= hi then {|ts|} else {});
  }

  /** The engine as it would be with the full history instead of a pruned log. */
  function Reference(c: Config, history: seq<int>, call: Call): EvaluateResult {
    var d := Permitted(c, call);
    if d != Auto then EvaluateResult(d, false)
    else if CountIn(history, call.now - Span(c.window), call.now) >= c.maxAuto then EvaluateResult(Approve, true)
    else EvaluateResult(Auto, false)
  }

  lemma {:induction false} AfterAfter(ts: seq<int>, a: int, b: int)
    requires a <= b
    ensures After(After(ts, a), b) == After(ts, b)
  {
    if ts != [] {
      var n := |ts| - 1;
      AfterAfter(ts[..n], a, b);
      if ts[n] > a { AfterAppend(After(ts[..n], a), ts[n], b); }
    }
  }

  lemma AfterAppend(ts: seq<int>, t: int, a: int)
    ensures After(ts + [t], a) == After(ts, a) + (if t > a then [t] else [])
  {
    assert (ts + [t])[..|ts|] == ts;
  }

  lemma {:induction false} AfterNoLonger(ts: seq<int>, a: int)
    ensures |After(ts, a)| <= |ts|
  {
    if ts != [] { AfterNoLonger(ts[..|ts| - 1], a); }
  }

  lemma {:induction false} AfterShrinks(ts: seq<int>, a: int, b: int)
    requires a <= b
    ensures |After(ts, b)| <= |After(ts, a)|
  {
    if ts != [] { AfterShrinks(ts[..|ts| - 1], a, b); }
  }

  lemma CountAppend(ts: seq<int>, t: int, lo: int, hi: int)
    ensures CountIn(ts + [t], lo, hi) == CountIn(ts, lo, hi) + (if lo < t <= hi then 1 else 0)
  {
    assert (ts + [t])[..|ts|] == ts;
  }

  lemma {:induction false} CountsAfter(ts: seq<int>, lo: int, hi: int)
    ensures CountIn(ts, lo, hi) <= |After(ts, lo)|
    ensures (forall i :: 0 <= i < |ts| ==> ts[i] <= hi) ==> CountIn(ts, lo, hi) == |After(ts, lo)|
  {
    if ts != [] {
      CountsAfter(ts[..|ts| - 1], lo, hi);
      if forall i :: 0 <= i < |ts| ==> ts[i] <= hi {
        assert forall i :: 0 <= i < |ts| - 1 ==> ts[..|ts| - 1][i] == ts[i];
      }
    }
  }

  lemma SameTail(log: seq<int>, history: seq<int>, a: int, b: int)
    requires a <= b && After(log, a) == After(history, a)
    ensures After(log, b) == After(history, b) == After(After(log, a), b)
  {
    AfterAfter(log, a, b);
    AfterAfter(history, a, b);
  }

  lemma SamePastSameFuture(log: seq<int>, history: seq<int>, a: int, b: int, t: int)
    requires a <= b && After(log, a) == After(history, a)
    ensures After(After(log, a), b) == After(history, b)
    ensures After(After(log, a) + [t], b) == After(history + [t], b)
  {
    SameTail(log, history, a, b);
    AfterAppend(After(log, a), t, b);
    AfterAppend(history, t, b);
  }

  /** The pair's pruned log and its full history agree on everything a call at `now` still counts,
      and the log has not outgrown the cap (so its `u32` length never wraps). */
  ghost predicate InStep(c: Config, hits: HitLog, history: seq<int>, k: Pair, now: int) {
    && After(Logged(hits, k), now - Span(c.window)) == After(history, now - Span(c.window))
    && |Logged(hits, k)| <= c.maxAuto
  }

  /** One visit to the breaker keeps the pair's pruned log in step with its full history. */
  lemma BreakerKeepsLog(maxAuto: nat, span: nat, hits: HitLog, history: seq<int>, k: Pair, at: int, now: int)
    requires at <= now && After(Logged(hits, k), at - span) == After(history, at - span)
    ensures var (granted, hits') := BreakerStep(maxAuto, span, hits, k, at);
            After(Logged(hits', k), now - span) == After(if granted then history + [at] else history, now - span)
  {
    SamePastSameFuture(Logged(hits, k), history, at - span, now - span, at);
  }

  lemma BreakerKeepsCap(maxAuto: nat, span: nat, hits: HitLog, k: Pair, at: int)
    requires |Logged(hits, k)| <= maxAuto < U32
    ensures var (granted, hits') := BreakerStep(maxAuto, span, hits, k, at);
            |Logged(hits', k)| <= maxAuto
  {
    AfterNoLonger(Logged(hits, k), at - span);
  }

  lemma VisitKeepsStep(c: Config, hits: HitLog, history: seq<int>, k: Pair, at: int, now: int)
    requires at <= now && c.maxAuto < U32 && InStep(c, hits, history, k, at)
    ensures InStep(c, hits, history, k, now)
    ensures var (granted, hits') := BreakerStep(c.maxAuto, Span(c.window), hits, k, at);
            InStep(c, hits', if granted then history + [at] else history, k, now)
  {
    SameTail(Logged(hits, k), history, at - Span(c.window), now - Span(c.window));
    BreakerKeepsLog(c.maxAuto, Span(c.window), hits, history, k, at, now);
    BreakerKeepsCap(c.maxAuto, Span(c.window), hits, k, at);
  }

  /** A call either leaves the pair's log alone or is one visit to the breaker for it. */
  lemma StepShape(c: Config, hits: HitLog, call: Call, k: Pair)
    ensures var (r, hits') := Step(c, hits, call);
            if Permitted(c, call) == Auto && call.Key() == k
            then (r.decision == Auto, hits') == BreakerStep(c.maxAuto, Span(c.window), hits, k, call.now)
            else Logged(hits', k) == Logged(hits, k) && !(r.decision == Auto && call.Key() == k)
  {
  }

  /** What every run keeps: pruning loses nothing that a later call could still count. */
  lemma {:induction false} PrunedLogMatchesHistory(c: Config, h: History, k: Pair, now: int)
    requires MonotoneUpTo(h, now) && c.maxAuto < U32
    ensures InStep(c, HitsAfter(c, h), AutoTimes(c, h, k), k, now)
  {
    hide Permitted, BreakerStep;
    match h
    case Start =>
    case Then(before, call) =>
      PrunedLogMatchesHistory(c, before, k, call.now);
      StepShape(c, HitsAfter(c, before), call, k);
      VisitKeepsStep(c, HitsAfter(c, before), AutoTimes(c, before, k), k, call.now, now);
      assert AutoTimes(c, before, k) + [] == AutoTimes(c, before, k);
  }

  lemma {:induction false} AutoTimesInThePast(c: Config, h: History, k: Pair, now: int)
    requires MonotoneUpTo(h, now)
    ensures forall i :: 0 <= i < |AutoTimes(c, h, k)| ==> AutoTimes(c, h, k)[i] <= now
  {
    if h.Then? { AutoTimesInThePast(c, h.before, k, h.call.now); }
  }

  lemma BreakerIsReference(maxAuto: nat, span: nat, hits: HitLog, history: seq<int>, k: Pair, at: int)
    requires |Logged(hits, k)| <= maxAuto < U32
    requires After(Logged(hits, k), at - span) == After(history, at - span)
    requires forall i :: 0 <= i < |history| ==> history[i] <= at
    ensures BreakerStep(maxAuto, span, hits, k, at).0 <==> CountIn(history, at - span, at) < maxAuto
  {
    assert CountIn(history, at - span, at) == |After(history, at - span)| by { CountsAfter(history, at - span, at); }
    assert |After(history, at - span)| <= maxAuto by { AfterNoLonger(Logged(hits, k), at - span); }
  }

  /** After every run the engine answers every call exactly as the full history would have it. */
  lemma EngineRefinesHistory(c: Config, h: History, call: Call)
    requires MonotoneUpTo(h, call.now) && c.maxAuto < U32
    ensures Answer(c, h, call) == Reference(c, AutoTimes(c, h, call.Key()), call)
  {
    hide After, CountIn, Permitted, AutoTimes, HitsAfter;
    var k := call.Key();
    PrunedLogMatchesHistory(c, h, k, call.now);
    AutoTimesInThePast(c, h, k, call.now);
    BreakerIsReference(c.maxAuto, Span(c.window), HitsAfter(c, h), AutoTimes(c, h, k), k, call.now);
  }

  /** Two histories, the one counting no more than the other, are answered differently exactly when the
      budget lies between their counts. */
  lemma ReferencesDifferExactlyWhen(c: Config, part: seq<int>, all: seq<int>, call: Call)
    requires CountIn(part, call.now - Span(c.window), call.now) <= CountIn(all, call.now - Span(c.window), call.now)
    ensures Reference(c, part, call) == Reference(c, all, call) <==>
            !(Permitted(c, call) == Auto && CountIn(part, call.now - Span(c.window), call.now) < c.maxAuto
              && c.maxAuto <= CountIn(all, call.now - Span(c.window), call.now))
  {
    hide Permitted, CountIn, Span;
  }

  lemma GrantMeansRoom(maxAuto: nat, span: nat, hits: HitLog, history: seq<int>, k: Pair, at: int)
    requires |Logged(hits, k)| <= maxAuto < U32
    requires After(Logged(hits, k), at - span) == After(history, at - span)
    requires BreakerStep(maxAuto, span, hits, k, at).0
    ensures |After(history, at - span)| < maxAuto
  {
    AfterNoLonger(Logged(hits, k), at - span);
  }

  lemma GrantKeepsBound(maxAuto: nat, span: nat, hits: HitLog, history: seq<int>, k: Pair, now: int, at: int)
    requires |Logged(hits, k)| <= maxAuto < U32
    requires After(Logged(hits, k), now - span) == After(history, now - span)
    requires BreakerStep(maxAuto, span, hits, k, now).0
    requires CountIn(history, at - span, at) <= maxAuto
    ensures CountIn(history + [now], at - span, at) <= maxAuto
  {
    hide *;
    CountAppend(history, now, at - span, at);
    if now <= at {
      GrantMeansRoom(maxAuto, span, hits, history, k, now);
      CountsAfter(history, at - span, at);
      AfterShrinks(history, now - span, at - span);
    }
  }

  /** The rate bound: no window of the configured length, wherever it ends, ever holds more than
      `maxAuto` automatic executions of one pair. A length that chrono cannot represent counts as none. */
  lemma RateBound(c: Config, h: History, k: Pair, now: int, at: int)
    requires MonotoneUpTo(h, now) && c.maxAuto < 0x1_0000_0000
    ensures var window := if c.window <= 0x7FFF_FFFF_FFFF_FFFF * 1_000_000 then c.window else 0;
            CountIn(AutoTimes(c, h, k), at - window, at) <= c.maxAuto
  {
    SpanBound(c, h, k, now, at);
    SpanIsTheWindow(c.window);
    hide AutoTimes, CountIn, Span;
  }

  lemma {:induction false} SpanBound(c: Config, h: History, k: Pair, now: int, at: int)
    requires MonotoneUpTo(h, now) && c.maxAuto < U32
    ensures CountIn(AutoTimes(c, h, k), at - Span(c.window), at) <= c.maxAuto
  {
    hide After, Permitted, BreakerStep;
    match h
    case Start =>
    case Then(before, call) =>
      SpanBound(c, before, k, call.now, at);
      var hits, past := HitsAfter(c, before), AutoTimes(c, before, k);
      PrunedLogMatchesHistory(c, before, k, call.now);
      StepShape(c, hits, call, k);
      if Answer(c, before, call).decision == Auto && call.Key() == k {
        GrantKeepsBound(c.maxAuto, Span(c.window), hits, past, k, call.now, at);
      }
      assert past + [] == past;
  }

  /** An automatic decision passed every guardrail, and the breaker trips exactly when the rule says
      `Auto`, the guards allow it and the whole budget of the window is spent. */
  lemma TripsExactlyWhenBudgetIsSpent(c: Config, h: History, call: Call)
    requires MonotoneUpTo(h, call.now) && c.maxAuto < 0x1_0000_0000
    ensures var window := if c.window <= 0x7FFF_FFFF_FFFF_FFFF * 1_000_000 then c.window else 0;
            var spent := CountIn(AutoTimes(c, h, call.Key()), call.now - window, call.now);
            var allowed := c.autoEnabled && call.tier != Dangerous && Decide(c.rules, call.host, call.tier) == Auto;
            && (Answer(c, h, call).breakerTripped <==> allowed && spent == c.maxAuto)
            && (Answer(c, h, call).decision == Auto <==> allowed && spent < c.maxAuto)
            && (Answer(c, h, call).decision == Forbid <==> Decide(c.rules, call.host, call.tier) == Forbid)
  {
    hide After, AutoTimes, HitsAfter, CountIn;
    EngineRefinesHistory(c, h, call);
    SpanBound(c, h, call.Key(), call.now, call.now);
    SpanIsTheWindow(c.window);
  }

  // ---- windows that chrono cannot represent ----

  /** One permitted call after the other, at the times 1 to `n`. */
  function Burst(call: Call, n: nat): History {
    if n == 0 then Start else Then(Burst(call, n - 1), call.(now := n))
  }

  lemma {:induction false} BurstIsMonotone(call: Call, n: nat, now: int)
    requires n <= now
    ensures MonotoneUpTo(Burst(call, n), now)
  {
    if n > 0 { BurstIsMonotone(call, n - 1, n); }
  }

  /** With a window of no length at all every call of a burst is granted. */
  lemma {:induction false} BurstIsGranted(c: Config, call: Call, n: nat, lo: int, hi: int)
    requires Permitted(c, call) == Auto && Span(c.window) == 0 && c.maxAuto > 0 && lo <= 0 && n <= hi
    ensures CountIn(AutoTimes(c, Burst(call, n), call.Key()), lo, hi) == n
    ensures forall i :: 0 <= i < |Logged(HitsAfter(c, Burst(call, n)), call.Key())| ==>
              Logged(HitsAfter(c, Burst(call, n)), call.Key())[i] <= n
  {
    hide *;
    if n > 0 {
      var h, k, now := Burst(call, n - 1), call.Key(), call.(now := n);
      BurstIsGranted(c, call, n - 1, lo, hi);
      PermittedAtAnyTime(c, call, n);
      BurstStep(call, n);
      GrantedAfterNothing(c, h, now);
      CountAppend(AutoTimes(c, h, k), n, lo, hi);
    } else {
      BurstStep(call, n);
      NothingYet(c, call.Key());
      NothingCounts(lo, hi);
      NothingLogged(call.Key());
    }
  }

  lemma BurstStep(call: Call, n: nat)
    ensures Burst(call, n) == if n == 0 then Start else Then(Burst(call, n - 1), call.(now := n))
    ensures call.(now := n).Key() == call.Key()
  {
  }

  lemma NothingLogged(k: Pair)
    ensures Logged(map[], k) == []
  {
  }

  lemma GrantedAfterNothing(c: Config, h: History, call: Call)
    requires Permitted(c, call) == Auto && Span(c.window) == 0 && c.maxAuto > 0
    requires forall i :: 0 <= i < |Logged(HitsAfter(c, h), call.Key())| ==> Logged(HitsAfter(c, h), call.Key())[i] <= call.now
    ensures Logged(HitsAfter(c, Then(h, call)), call.Key()) == [call.now]
    ensures AutoTimes(c, Then(h, call), call.Key()) == AutoTimes(c, h, call.Key()) + [call.now]
  {
    AfterNone(Logged(HitsAfter(c, h), call.Key()), call.now);
    hide Permitted, Span, After, Logged;
    var hits := HitsAfter(c, h);
    LoggedAt(hits, call.Key(), [] + [call.now]);
    assert Step(c, hits, call) == (EvaluateResult(Auto, false), hits[call.Key() := [] + [call.now]]);
  }

  lemma LoggedAt(hits: HitLog, k: Pair, ts: seq<int>)
    ensures Logged(hits[k := ts], k) == ts
  {
  }

  lemma PermittedAtAnyTime(c: Config, call: Call, n: int)
    ensures Permitted(c, call.(now := n)) == Permitted(c, call)
  {
  }

  lemma {:induction false} NothingIsGranted(c: Config, h: History, k: Pair)
    requires c.maxAuto == 0 || NeverPermits(c)
    ensures AutoTimes(c, h, k) == []
  {
    hide Permitted, After;
    if h.Then? { NothingIsGranted(c, h.before, k); }
  }

  ghost predicate NeverPermits(c: Config) { forall call :: Permitted(c, call) != Auto }

  predicate KeepsBudget(c: Config, h: History, k: Pair, at: int) { CountIn(AutoTimes(c, h, k), at - c.window, at) <= c.maxAuto }

  /** No window of the configured length ever holds more than the budget, in any run with a monotone clock. */
  ghost predicate AlwaysKeepsBudget(c: Config) {
    forall h, k, now, at :: MonotoneUpTo(h, now) ==> KeepsBudget(c, h, k, at)
  }

  lemma BurstBreaksBudget(c: Config, call: Call)
    requires Permitted(c, call) == Auto && 0 < c.maxAuto < c.window && Span(c.window) == 0
    ensures !AlwaysKeepsBudget(c)
  {
    hide *;
    var n := c.maxAuto + 1;
    BurstIsMonotone(call, n, n);
    BurstIsGranted(c, call, n, n - c.window, n);
    BudgetBrokenBy(c, Burst(call, n), call.Key(), n);
  }

  lemma BudgetBrokenBy(c: Config, h: History, k: Pair, now: int)
    requires MonotoneUpTo(h, now) && CountIn(AutoTimes(c, h, k), now - c.window, now) > c.maxAuto
    ensures !AlwaysKeepsBudget(c)
  {
    hide MonotoneUpTo, CountIn, AutoTimes;
    assert !KeepsBudget(c, h, k, now);
  }

  /** The settings that always keep the budget: those whose window chrono can represent, and those that grant
      nothing at all. A longer window counts as none, and then a burst of permitted calls has no bound. */
  lemma BudgetIsKeptExactlyWhen(c: Config)
    requires c.maxAuto < 0x1_0000_0000
    ensures AlwaysKeepsBudget(c) <==> c.window <= 0x7FFF_FFFF_FFFF_FFFF * 1_000_000 || c.maxAuto == 0 || NeverPermits(c)
  {
    hide Permitted, AutoTimes, Span, MonotoneUpTo, CountIn;
    if c.window <= 0x7FFF_FFFF_FFFF_FFFF * 1_000_000 {
      forall h, k, now, at | MonotoneUpTo(h, now) ensures KeepsBudget(c, h, k, at) { RateBound(c, h, k, now, at); }
    } else if c.maxAuto == 0 || NeverPermits(c) {
      forall h, k, now, at | MonotoneUpTo(h, now) ensures KeepsBudget(c, h, k, at) {
        NothingIsGranted(c, h, k);
        NothingCounts(at - c.window, at);
      }
    } else {
      hide AlwaysKeepsBudget;
      SpanIsTheWindow(c.window);
      var call :| Permitted(c, call) == Auto;
      BurstBreaksBudget(c, call);
    }
  }

  lemma NothingCounts(lo: int, hi: int)
    ensures CountIn([], lo, hi) == 0
  {
  }

  // ---- without a monotone clock ----

  function UpTo(ts: seq<int>, cutoff: int): seq<int> {
    if ts == [] then []
    else if ts[|ts| - 1] > cutoff then UpTo(ts[..|ts| - 1], cutoff)
    else UpTo(ts[..|ts| - 1], cutoff) + [ts[|ts| - 1]]
  }

  /** The executions of the pair that pruning took out of its log, over the whole run. */
  function Forgotten(c: Config, h: History, k: Pair): seq<int> {
    match h
    case Start => []
    case Then(before, call) =>
      if Permitted(c, call) == Auto && call.Key() == k
      then Forgotten(c, before, k) + UpTo(Logged(HitsAfter(c, before), k), call.now - Span(c.window))
      else Forgotten(c, before, k)
  }

  lemma {:induction false} AfterConcat(x: seq<int>, y: seq<int>, a: int)
    ensures After(x + y, a) == After(x, a) + After(y, a)
  {
    if y == [] {
      assert x + y == x;
    } else {
      AfterConcat(x, y[..|y| - 1], a);
      assert (x + y)[..|x + y| - 1] == x + y[..|y| - 1];
    }
  }

  lemma {:induction false} PruneSplits(ts: seq<int>, cutoff: int, a: int)
    ensures |After(After(ts, cutoff), a)| + |After(UpTo(ts, cutoff), a)| == |After(ts, a)|
    ensures After(UpTo(ts, cutoff), a) == [] ==> After(After(ts, cutoff), a) == After(ts, a)
  {
    if ts != [] {
      var front, last := ts[..|ts| - 1], ts[|ts| - 1];
      PruneSplits(front, cutoff, a);
      AfterAppend(After(front, cutoff), last, a);
      AfterAppend(UpTo(front, cutoff), last, a);
    }
  }

  lemma {:induction false} AfterNone(ts: seq<int>, a: int)
    ensures After(ts, a) == [] <==> forall i :: 0 <= i < |ts| ==> ts[i] <= a
  {
    if ts != [] {
      AfterNone(ts[..|ts| - 1], a);
      assert forall i :: 0 <= i < |ts| - 1 ==> ts[..|ts| - 1][i] == ts[i];
    }
  }

  /** What the log and the history hold past a point differ by what was forgotten past it. */
  ghost predicate Accounts(log: seq<int>, forgotten: seq<int>, history: seq<int>, a: int) {
    && |After(log, a)| + |After(forgotten, a)| == |After(history, a)|
    && (After(forgotten, a) == [] ==> After(log, a) == After(history, a))
  }

  lemma VisitAccounts(log: seq<int>, forgotten: seq<int>, history: seq<int>, cutoff: int, a: int, granted: seq<int>)
    requires Accounts(log, forgotten, history, a)
    ensures Accounts(After(log, cutoff) + granted, forgotten + UpTo(log, cutoff), history + granted, a)
  {
    PruneSplits(log, cutoff, a);
    AfterConcat(After(log, cutoff), granted, a);
    AfterConcat(forgotten, UpTo(log, cutoff), a);
    AfterConcat(history, granted, a);
  }

  lemma {:induction false} RunAccounts(c: Config, h: History, k: Pair, a: int)
    ensures Accounts(Logged(HitsAfter(c, h), k), Forgotten(c, h, k), AutoTimes(c, h, k), a)
  {
    hide Permitted, After, UpTo, Accounts;
    match h
    case Start => NothingToAccount(a);
    case Then(before, call) =>
      RunAccounts(c, before, k, a);
      StepShape(c, HitsAfter(c, before), call, k);
      var log, past := Logged(HitsAfter(c, before), k), AutoTimes(c, before, k);
      var granted := if Answer(c, before, call).decision == Auto && call.Key() == k then [call.now] else [];
      if Permitted(c, call) == Auto && call.Key() == k {
        VisitAccounts(log, Forgotten(c, before, k), past, call.now - Span(c.window), a, granted);
        assert After(log, call.now - Span(c.window)) + [] == After(log, call.now - Span(c.window));
      }
      assert past + [] == past;
  }

  lemma NothingToAccount(a: int)
    ensures Accounts([], [], [], a)
  {
  }

  /** Whatever the clock does: at any time the pruned log agrees with the full history on the window
      exactly when nothing it has forgotten lies in that window. */
  lemma LogIsRightExactlyWhenNothingForgottenMatters(c: Config, h: History, k: Pair, now: int)
    ensures After(Logged(HitsAfter(c, h), k), now - Span(c.window)) == After(AutoTimes(c, h, k), now - Span(c.window)) <==>
            forall i :: 0 <= i < |Forgotten(c, h, k)| ==> Forgotten(c, h, k)[i] <= now - Span(c.window)
  {
    hide After, Forgotten, AutoTimes, HitsAfter;
    RunAccounts(c, h, k, now - Span(c.window));
    AfterNone(Forgotten(c, h, k), now - Span(c.window));
  }

  lemma OneAfter(t: int, a: int)
    ensures After([t], a) == if t > a then [t] else []
  {
    assert [t][..0] == [];
  }

  lemma GrantedVisit(hits: HitLog, k: Pair, kept: seq<int>, now: int)
    requires hits.Keys <= {k} && After(Logged(hits, k), now - 10) == kept && |kept| < 2
    ensures BreakerStep(2, 10, hits, k, now) == (true, map[k := kept + [now]])
  {
    hide After;
    assert hits[k := kept + [now]] == map[k := kept + [now]];
  }

  lemma VisitsOfTheExample(k: Pair)
    ensures BreakerStep(2, 10, map[], k, 0) == (true, map[k := [0]])
    ensures BreakerStep(2, 10, map[k := [0]], k, 1) == (true, map[k := [0, 1]])
    ensures BreakerStep(2, 10, map[k := [0, 1]], k, 20) == (true, map[k := [20]])
    ensures BreakerStep(2, 10, map[k := [20]], k, 2).0
  {
    assert After([], 0 - 10) == [];
    hide After, BreakerStep;
    OneAfter(0, 1 - 10);
    OneAfter(20, 2 - 10);
    OneAfter(0, 20 - 10);
    AfterAppend([0], 1, 20 - 10);
    assert [] + [0] == [0] && [0] + [1] == [0, 1] && [] + [20] == [20];
    GrantedVisit(map[], k, [], 0);
    GrantedVisit(map[k := [0]], k, [0], 1);
    GrantedVisit(map[k := [0, 1]], k, [], 20);
    GrantedVisit(map[k := [20]], k, [20], 2);
  }

  lemma ExampleStep(c: Config, h: History, call: Call, hits': HitLog)
    requires c.maxAuto == 2 && Span(c.window) == 10 && Permitted(c, call) == Auto
    requires BreakerStep(2, 10, HitsAfter(c, h), call.Key(), call.now) == (true, hits')
    ensures HitsAfter(c, Then(h, call)) == hits'
    ensures AutoTimes(c, Then(h, call), call.Key()) == AutoTimes(c, h, call.Key()) + [call.now]
  {
    hide BreakerStep;
  }

  /** A clock that steps back breaks the rate bound: with a budget of two per ten units, the calls
      at 0, 1, 20 and 2 are all granted, and three of them fall within `(-8, 2]`. */
  lemma RateBoundNeedsMonotoneClock()
    ensures var c := Config([PolicyRule(None, Safe, Auto)], true, 2, 10);
            var h := Then(Then(Then(Then(Start, Call([], Safe, "t", 0)), Call([], Safe, "t", 1)), Call([], Safe, "t", 20)), Call([], Safe, "t", 2));
            CountIn(AutoTimes(c, h, Pair([], "t")), 2 - 10, 2) == 3
  {
    var c, k := Config([PolicyRule(None, Safe, Auto)], true, 2, 10), Pair([], "t");
    var h1 := Then(Start, Call([], Safe, "t", 0));
    var h2 := Then(h1, Call([], Safe, "t", 1));
    var h3 := Then(h2, Call([], Safe, "t", 20));
    var h4 := Then(h3, Call([], Safe, "t", 2));
    VisitsOfTheExample(k);
    assert Permitted(c, h1.call) == Permitted(c, h2.call) == Permitted(c, h3.call) == Permitted(c, h4.call) == Auto;
    hide BreakerStep, CountIn, Permitted, Step, HitsAfter, AutoTimes;
    assert HitsAfter(c, Start) == map[] && AutoTimes(c, Start, k) == [] by { NothingYet(c, k); }
    ExampleStep(c, Start, h1.call, map[k := [0]]);
    ExampleStep(c, h1, h2.call, map[k := [0, 1]]);
    ExampleStep(c, h2, h3.call, map[k := [20]]);
    ExampleStep(c, h3, h4.call, BreakerStep(2, 10, map[k := [20]], k, 2).1);
    CountOfTheExample();
  }

  lemma NothingYet(c: Config, k: Pair)
    ensures HitsAfter(c, Start) == map[] && AutoTimes(c, Start, k) == []
  {
  }

  lemma CountOfTheExample()
    ensures CountIn([] + [0] + [1] + [20] + [2], -8, 2) == 3
  {
    CountAppend([], 0, -8, 2);
    CountAppend([] + [0], 1, -8, 2);
    CountAppend([] + [0] + [1], 20, -8, 2);
    CountAppend([] + [0] + [1] + [20], 2, -8, 2);
    assert CountIn([], -8, 2) == 0;
    hide CountIn;
  }
}
