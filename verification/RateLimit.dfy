/**
The HTTP ingest rate limiter (crates/ravn-server/src/state.rs:81-113), over real numbers with the
clock reading of each call as a parameter. The bucket keeps one running number; the theorems say
that its answers are those of an account kept over the whole history of calls.
*/
module RateLimit {
  class TokenBucket {
    const capacity: real
    const refillRate: real
    var tokens: real
    var lastRefill: real

    constructor (capacity: real, refillRate: real, now: real)
      ensures this.capacity == capacity && this.refillRate == refillRate
      ensures Content() == Level(capacity, now)
    {
      this.capacity, this.refillRate := capacity, refillRate;
      tokens, lastRefill := capacity, now;
    }

    function Content(): Level reads this { Level(tokens, lastRefill) }

    method Consume(now: real, amount: real) returns (admitted: bool)
      modifies this
      ensures (admitted, Content()) == Take(capacity, refillRate, old(Content()), now, amount)
    {
      var elapsed := if now >= lastRefill then now - lastRefill else 0.0;
      lastRefill := now;
      tokens := tokens + elapsed * refillRate;
      if tokens > capacity { tokens := capacity; }
      if tokens >= amount {
        tokens := tokens - amount;
        admitted := true;
      } else {
        admitted := false;
      }
    }
  }

  /** What accrues from `a` to `b`. */
  function Gain(rate: real, a: real, b: real): real { (b - a) * rate }

  datatype Level = Level(tokens: real, at: real)

  /** What the bucket holds at `now`; an earlier reading counts as no time at all. */
  function Refilled(capacity: real, rate: real, l: Level, now: real): real {
    var t := l.tokens + (if now >= l.at then Gain(rate, l.at, now) else 0.0);
    if t > capacity then capacity else t
  }

  function Take(capacity: real, rate: real, l: Level, now: real, amount: real): (bool, Level) {
    var t := Refilled(capacity, rate, l, now);
    (t >= amount, Level(if t >= amount then t - amount else t, now))
  }

  // ---- runs ----

  /** A bucket's life so far, latest call outermost. */
  datatype History = Created(at: real) | Then(before: History, now: real, amount: real)

  function After(capacity: real, rate: real, h: History): Level {
    match h
    case Created(at) => Level(capacity, at)
    case Then(before, now, amount) => Take(capacity, rate, After(capacity, rate, before), now, amount).1
  }

  predicate Admits(capacity: real, rate: real, h: History, now: real, amount: real) {
    Take(capacity, rate, After(capacity, rate, h), now, amount).0
  }

  function LastTime(h: History): real { if h.Created? then h.at else h.now }

  predicate Monotone(h: History) {
    h.Then? ==> LastTime(h.before) <= h.now && Monotone(h.before)
  }

  function Calls(h: History): nat { if h.Created? then 0 else 1 + Calls(h.before) }

  /** The amount admitted by the last `k` calls. */
  function AdmittedSince(capacity: real, rate: real, h: History, k: nat): real {
    if h.Created? || k == 0 then 0.0
    else
      AdmittedSince(capacity, rate, h.before, k - 1)
      + (if Admits(capacity, rate, h.before, h.now, h.amount) then h.amount else 0.0)
  }

  /** When the `k`-th last call was made; counting past the first call, when the bucket was made. */
  function StartOf(h: History, k: nat): real
    requires k >= 1
  {
    if h.Created? then h.at else if k == 1 then h.now else StartOf(h.before, k - 1)
  }

  lemma GainAdds(rate: real, a: real, b: real, c: real)
    ensures Gain(rate, a, b) + Gain(rate, b, c) == Gain(rate, a, c)
    ensures Gain(rate, a, a) == 0.0
    ensures rate >= 0.0 && b <= c ==> Gain(rate, b, c) >= 0.0
  {
  }

  /** What was admitted from the `k`-th last call on, plus `x`, stays within the capacity plus what the time
      since then has refilled at the given rate. */
  predicate FitsSince(capacity: real, rate: real, h: History, now: real, x: real, k: nat)
    requires k >= 1
  {
    AdmittedSince(capacity, rate, h, k) + x <= capacity + (now - StartOf(h, k)) * rate
  }

  lemma FitsSinceIs(capacity: real, rate: real, h: History, now: real, x: real, k: nat)
    requires k >= 1
    ensures FitsSince(capacity, rate, h, now, x, k) <==>
            AdmittedSince(capacity, rate, h, k) + x <= capacity + Gain(rate, StartOf(h, k), now)
  {
    hide AdmittedSince, StartOf;
  }

  /** `x` fits: it does so from every start point. */
  ghost predicate Fits(capacity: real, rate: real, h: History, now: real, x: real) {
    x <= capacity && forall k :: 1 <= k <= Calls(h) + 1 ==> FitsSince(capacity, rate, h, now, x, k)
  }

  lemma FitsCreated(capacity: real, rate: real, at: real, now: real, x: real)
    ensures Fits(capacity, rate, Created(at), now, x) <==> x <= capacity && x <= capacity + Gain(rate, at, now)
  {
    FitsSinceIs(capacity, rate, Created(at), now, x, 1);
    hide Gain, FitsSince;
    assert Calls(Created(at)) == 0 && AdmittedSince(capacity, rate, Created(at), 1) == 0.0;
  }

  lemma TakeLeaves(capacity: real, rate: real, before: History, now: real, amount: real)
    ensures After(capacity, rate, Then(before, now, amount)) ==
            Level(Refilled(capacity, rate, After(capacity, rate, before), now)
                  - (if Admits(capacity, rate, before, now, amount) then amount else 0.0), now)
  {
    hide Refilled;
  }

  lemma FitsStep(capacity: real, rate: real, h: History, now: real, x: real)
    requires h.Then?
    ensures var taken := if Admits(capacity, rate, h.before, h.now, h.amount) then h.amount else 0.0;
            Fits(capacity, rate, h, now, x) <==>
            x <= capacity && Fits(capacity, rate, h.before, h.now, x + taken - Gain(rate, h.now, now))
  {
    hide Admits, Gain, FitsSince;
    forall g: History, at, z, k | k >= 1
      ensures FitsSince(capacity, rate, g, at, z, k) <==>
              AdmittedSince(capacity, rate, g, k) + z <= capacity + Gain(rate, StartOf(g, k), at)
    {
      FitsSinceIs(capacity, rate, g, at, z, k);
    }
    var taken := if Admits(capacity, rate, h.before, h.now, h.amount) then h.amount else 0.0;
    var y := x + taken - Gain(rate, h.now, now);
    assert AdmittedSince(capacity, rate, h, 1) == taken;
    if Fits(capacity, rate, h, now, x) {
      assert y <= capacity by { assert StartOf(h, 1) == h.now && FitsSince(capacity, rate, h, now, x, 1); }
      forall k | 1 <= k <= Calls(h.before) + 1 ensures FitsSince(capacity, rate, h.before, h.now, y, k) {
        assert FitsSince(capacity, rate, h, now, x, k + 1);
        assert AdmittedSince(capacity, rate, h, k + 1) + x <= capacity + Gain(rate, StartOf(h, k + 1), now);
        GainAdds(rate, StartOf(h.before, k), h.now, now);
      }
    }
    if x <= capacity && Fits(capacity, rate, h.before, h.now, y) {
      forall k | 1 <= k <= Calls(h) + 1 ensures FitsSince(capacity, rate, h, now, x, k) {
        if k > 1 {
          assert FitsSince(capacity, rate, h.before, h.now, y, k - 1);
          assert AdmittedSince(capacity, rate, h.before, k - 1) + y <= capacity + Gain(rate, StartOf(h.before, k - 1), h.now);
          GainAdds(rate, StartOf(h.before, k - 1), h.now, now);
        }
      }
    }
  }

  lemma {:induction false} LevelIsTheTightestAccount(capacity: real, rate: real, h: History, now: real, x: real)
    requires Monotone(h) && LastTime(h) <= now
    ensures Refilled(capacity, rate, After(capacity, rate, h), now) >= x <==> Fits(capacity, rate, h, now, x)
  {
    hide Admits, Gain, Fits;
    match h
    case Created(at) =>
      FitsCreated(capacity, rate, at, now, x);
    case Then(before, t, a) =>
      var taken := if Admits(capacity, rate, before, t, a) then a else 0.0;
      LevelIsTheTightestAccount(capacity, rate, before, t, x + taken - Gain(rate, t, now));
      FitsStep(capacity, rate, h, now, x);
      TakeLeaves(capacity, rate, before, t, a);
  }

  /** A call is admitted exactly when its amount fits at every start point: the bucket's creation,
      any earlier call, or this call itself. */
  lemma AdmittedExactlyWhenItFits(capacity: real, rate: real, h: History, now: real, amount: real)
    requires Monotone(h) && LastTime(h) <= now
    ensures Admits(capacity, rate, h, now, amount) <==> Fits(capacity, rate, h, now, amount)
  {
    LevelIsTheTightestAccount(capacity, rate, h, now, amount);
  }

  lemma GainIs(rate: real, a: real, b: real)
    ensures Gain(rate, a, b) == (b - a) * rate
  {
  }

  /** Any stretch of calls, from the `k`-th last one to the last one of any run, admits at most the
      capacity plus the refill over the time the stretch takes. */
  lemma StretchBound(capacity: real, rate: real, h: History, k: nat)
    requires Monotone(h) && 1 <= k <= Calls(h) && rate >= 0.0 && capacity >= 0.0
    ensures AdmittedSince(capacity, rate, h, k) <= capacity + (LastTime(h) - StartOf(h, k)) * rate
  {
    StretchGains(capacity, rate, h, k);
    GainIs(rate, StartOf(h, k), LastTime(h));
    hide AdmittedSince, StartOf, LastTime;
  }

  lemma {:induction false} StretchGains(capacity: real, rate: real, h: History, k: nat)
    requires Monotone(h) && 1 <= k <= Calls(h) && rate >= 0.0 && capacity >= 0.0
    ensures AdmittedSince(capacity, rate, h, k) <= capacity + Gain(rate, StartOf(h, k), LastTime(h))
  {
    hide Admits, Gain, FitsSince;
    GainAdds(rate, h.now, h.now, h.now);
    if Admits(capacity, rate, h.before, h.now, h.amount) {
      AdmittedExactlyWhenItFits(capacity, rate, h.before, h.now, h.amount);
      if k > 1 {
        FitsSinceIs(capacity, rate, h.before, h.now, h.amount, k - 1);
        assert AdmittedSince(capacity, rate, h.before, k - 1) + h.amount
            <= capacity + Gain(rate, StartOf(h.before, k - 1), h.now);
      }
    } else if k > 1 {
      StretchGains(capacity, rate, h.before, k - 1);
      GainAdds(rate, StartOf(h.before, k - 1), LastTime(h.before), h.now);
    }
  }
}
