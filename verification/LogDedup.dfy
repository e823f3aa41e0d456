/**
The pod-log deduplicator (crates/ravn-k8s/src/logs.rs:90-165): one LRU cache with a time-to-live
per pod. Lines enter as their 64-bit hashes and the clock reading of each call is a parameter.

`Emits` is the reference: it answers from the whole call history of a pod and knows no cache.
*/
module LogDedup {
  import Sets

  datatype Slot = Slot(hash: nat, seenAt: int)

  /** An `LruCache`: its slots, most recently used first. */
  type Cache = seq<Slot>

  /** Position of `x`, or the length when it is absent. */
  function Find(s: seq<nat>, x: nat): (i: nat)
    ensures i <= |s| && (i < |s| <==> x in s) && (i < |s| ==> s[i] == x) && x !in s[..i]
  {
    if s == [] then 0
    else if s[0] == x then 0
    else
      assert forall j :: 0 <= j < |s| - 1 ==> s[1..][j] == s[j + 1];
      var i := Find(s[1..], x);
      assert s[..i + 1] == [s[0]] + s[1..][..i];
      i + 1
  }

  function Hashes(c: Cache): (hs: seq<nat>)
    ensures |hs| == |c| && forall i :: 0 <= i < |c| ==> hs[i] == c[i].hash
  {
    seq(|c|, i requires 0 <= i < |c| => c[i].hash)
  }

  function DropAt<T>(s: seq<T>, i: nat): seq<T>
    requires i < |s|
  {
    s[..i] + s[i + 1..]
  }

  /** `LruCache::get_mut`: a hit moves the slot to the front. */
  function Touch(c: Cache, i: nat): Cache
    requires i < |c|
  {
    [c[i]] + DropAt(c, i)
  }

  /** `LruCache::put`: replaces in place of an old slot, else evicts the oldest when full. */
  function Put(c: Cache, cap: nat, hash: nat, now: int): Cache
    requires cap > 0
  {
    var i := Find(Hashes(c), hash);
    if i < |c| then [Slot(hash, now)] + DropAt(c, i)
    else if |c| >= cap then [Slot(hash, now)] + c[..cap - 1]
    else [Slot(hash, now)] + c
  }

  /** `Instant::duration_since`, which never goes below zero. */
  function Age(now: int, seenAt: int): nat { if now >= seenAt then now - seenAt else 0 }

  /** One lookup in one pod's cache: whether the line goes out, and the cache afterwards. */
  function Lookup(c: Cache, cap: nat, ttl: nat, hash: nat, now: int): (bool, Cache)
    requires cap > 0
  {
    var i := Find(Hashes(c), hash);
    if i < |c| then
      var touched := Touch(c, i);
      if Age(now, c[i].seenAt) < ttl then (false, touched) else (true, Put(touched, cap, hash, now))
    else (true, Put(c, cap, hash, now))
  }

  function CacheOf(pods: map<string, Cache>, pod: string): Cache { if pod in pods then pods[pod] else [] }

  class LogDeduper {
    const perPodCap: nat
    const ttl: nat
    var pods: map<string, Cache>

    ghost predicate Valid() reads this { perPodCap > 0 && Bounded(perPodCap, pods) }

    constructor (perPodCap: nat, ttl: nat)
      requires perPodCap > 0
      ensures Valid() && this.perPodCap == perPodCap && this.ttl == ttl && pods == map[]
    {
      this.perPodCap, this.ttl, pods := perPodCap, ttl, map[];
    }

    method IsNew(pod: string, hash: nat, now: int) returns (r: bool)
      requires Valid()
      modifies this
      ensures Valid()
      ensures var (emit, cache) := Lookup(CacheOf(old(pods), pod), perPodCap, ttl, hash, now);
              r == emit && pods == old(pods)[pod := cache]
    {
      var cache := if pod in pods then pods[pod] else [];
      LookupKeepsCap(cache, perPodCap, ttl, hash, now);
      var i := Find(Hashes(cache), hash);
      r := true;
      if i < |cache| {
        var seenAt := cache[i].seenAt;
        cache := Touch(cache, i);
        if Age(now, seenAt) < ttl {
          r := false;
        }
      }
      if r {
        cache := Put(cache, perPodCap, hash, now);
      }
      pods := pods[pod := cache];
    }

    method RemovePod(pod: string)
      requires Valid()
      modifies this
      ensures Valid() && pods == old(pods) - {pod}
    {
      pods := pods - {pod};
    }

    /** The metric: the number of slots in use, never above the cap times the pods tracked. */
    method TotalEntries() returns (total: nat)
      requires Valid()
      ensures total == Slots(pods, pods.Keys) && total <= perPodCap * |pods|
    {
      SlotsBounded(perPodCap, pods, pods.Keys);
      assert Slots(pods, {}) == 0;
      hide Slots, Bounded;
      total := 0;
      var rest := pods.Keys;
      while rest != {}
        invariant rest <= pods.Keys && total + Slots(pods, rest) == Slots(pods, pods.Keys)
        decreases |rest|
      {
        var p :| p in rest;
        SlotsTakeOut(pods, rest, p);
        total := total + |pods[p]|;
        rest := rest - {p};
      }
    }
  }

  predicate Bounded(cap: nat, pods: map<string, Cache>) {
    forall p :: p in pods ==> |pods[p]| <= cap
  }

  ghost function Slots(pods: map<string, Cache>, keys: set<string>): nat
    requires keys <= pods.Keys
  {
    if keys == {} then 0
    else
      var p :| p in keys;
      |pods[p]| + Slots(pods, keys - {p})
  }

  lemma {:induction false} SlotsTakeOut(pods: map<string, Cache>, keys: set<string>, p: string)
    requires keys <= pods.Keys && p in keys
    ensures Slots(pods, keys) == |pods[p]| + Slots(pods, keys - {p})
    decreases keys
  {
    var q :| q in keys && Slots(pods, keys) == |pods[q]| + Slots(pods, keys - {q});
    if q != p {
      SlotsTakeOut(pods, keys - {q}, p);
      SlotsTakeOut(pods, keys - {p}, q);
      assert keys - {q} - {p} == keys - {p} - {q};
    }
  }

  lemma {:induction false} SlotsBounded(cap: nat, pods: map<string, Cache>, keys: set<string>)
    requires Bounded(cap, pods) && keys <= pods.Keys
    ensures Slots(pods, keys) <= cap * |keys|
    decreases keys
  {
    if keys != {} {
      var p :| p in keys && Slots(pods, keys) == |pods[p]| + Slots(pods, keys - {p});
      SlotsBounded(cap, pods, keys - {p});
      assert |keys| == |keys - {p}| + 1;
      assert cap * |keys| == cap * |keys - {p}| + cap;
    }
  }

  lemma LookupKeepsCap(c: Cache, cap: nat, ttl: nat, hash: nat, now: int)
    requires cap > 0 && |c| <= cap
    ensures |Lookup(c, cap, ttl, hash, now).1| <= cap
  {
  }

  // ---- the history of one pod ----

  /** The calls on one pod since it was created or removed, latest outermost. */
  datatype History = Fresh | Then(before: History, hash: nat, now: int)

  function CacheAfter(cap: nat, ttl: nat, h: History): Cache
    requires cap > 0
  {
    match h
    case Fresh => []
    case Then(before, hash, now) => Lookup(CacheAfter(cap, ttl, before), cap, ttl, hash, now).1
  }

  /** The code's answer to a call after the history `h`. */
  predicate Answers(cap: nat, ttl: nat, h: History, x: nat, now: int)
    requires cap > 0
  {
    Lookup(CacheAfter(cap, ttl, h), cap, ttl, x, now).0
  }

  predicate Called(h: History, x: nat) {
    h.Then? && (h.hash == x || Called(h.before, x))
  }

  /** The other hashes called since the last call of `x`. */
  function OthersSince(h: History, x: nat): set<nat> {
    if h.Fresh? || h.hash == x then {} else {h.hash} + OthersSince(h.before, x)
  }

  /** The reference: a line goes out unless it was called before, its last emission is younger than
      the time-to-live, and fewer than `cap` distinct other lines were called since its last call. */
  predicate Emits(cap: nat, ttl: nat, h: History, x: nat, now: int)
    decreases h, 1
  {
    !(Called(h, x) && 0 < ttl && now < LastEmission(cap, ttl, h, x) + ttl && |OthersSince(h, x)| < cap)
  }

  function LastEmission(cap: nat, ttl: nat, h: History, x: nat): int
    decreases h, 0
  {
    if h.Fresh? then 0
    else if h.hash == x && Emits(cap, ttl, h.before, x, h.now) then h.now
    else LastEmission(cap, ttl, h.before, x)
  }

  predicate Distinct(r: seq<nat>) {
    forall i, j :: 0 <= i < j < |r| ==> r[i] != r[j]
  }

  function MoveToFront(r: seq<nat>, x: nat): seq<nat> {
    var i := Find(r, x);
    [x] + (if i < |r| then DropAt(r, i) else r)
  }

  /** The hashes seen, most recently called first: the stack whose top `cap` the cache holds. */
  function Recency(h: History): seq<nat> {
    if h.Fresh? then [] else MoveToFront(Recency(h.before), h.hash)
  }

  lemma FoundAt(r: seq<nat>, x: nat, i: nat)
    requires Distinct(r) && i < |r| && r[i] == x
    ensures Find(r, x) == i
  {
  }

  lemma DropAtIndex<T>(s: seq<T>, i: nat, k: nat)
    requires i < |s| && k < |s| && k != i
    ensures |DropAt(s, i)| == |s| - 1 && DropAt(s, i)[if k < i then k else k - 1] == s[k]
  {
  }

  lemma DropAtKeeps(r: seq<nat>, i: nat)
    requires Distinct(r) && i < |r|
    ensures Distinct(DropAt(r, i)) && r[i] !in DropAt(r, i)
  {
    var d := DropAt(r, i);
    forall a | 0 <= a < |d| ensures d[a] == r[if a < i then a else a + 1] {
    }
  }

  lemma MovedStaysDistinct(r: seq<nat>, x: nat)
    requires Distinct(r)
    ensures Distinct(MoveToFront(r, x))
  {
    var i := Find(r, x);
    if i < |r| { DropAtKeeps(r, i); }
    var rest := if i < |r| then DropAt(r, i) else r;
    assert Distinct(rest) && x !in rest;
    assert MoveToFront(r, x) == [x] + rest;
  }

  lemma ElsewhereDiffers(r: seq<nat>, x: nat, k: nat)
    requires Distinct(r) && k < |r| && k != Find(r, x)
    ensures r[k] != x
  {
  }

  /** The stack below its new front: the `j`-th place holds what was there, or one further down. */
  lemma MovedAt(r: seq<nat>, x: nat, k: nat)
    requires Distinct(r) && k < |r| && r[k] != x
    ensures var at, m := if k < Find(r, x) then k + 1 else k, MoveToFront(r, x);
            at < |m| && m[at] == r[k]
  {
    var i := Find(r, x);
    hide Find;
    if i < |r| { DropAtIndex(r, i, k); }
  }

  lemma MovedHolds(r: seq<nat>, x: nat, y: nat)
    ensures y in MoveToFront(r, x) ==> y == x || y in r
  {
  }

  /** Where an element ends up when another one moves to the front. */
  lemma FindMoved(r: seq<nat>, x: nat, y: nat)
    requires Distinct(r)
    ensures var i, k, m := Find(r, x), Find(r, y), MoveToFront(r, x);
            && (y in m <==> y == x || y in r)
            && (y == x ==> Find(m, y) == 0)
            && (y != x && y in r ==> Find(m, y) == if k < i then k + 1 else k)
  {
    var i, k, m := Find(r, x), Find(r, y), MoveToFront(r, x);
    MovedStaysDistinct(r, x);
    MovedHolds(r, x, y);
    assert m[0] == x;
    hide MoveToFront;
    if y == x {
      FoundAt(m, y, 0);
    } else if y in r {
      MovedAt(r, x, k);
      FoundAt(m, y, if k < i then k + 1 else k);
    }
  }

  lemma {:induction false} RecencyIsDistinct(h: History)
    ensures Distinct(Recency(h))
  {
    if h.Then? {
      RecencyIsDistinct(h.before);
      MovedStaysDistinct(Recency(h.before), h.hash);
    }
  }

  lemma {:induction false} RecencyHoldsCalled(h: History, x: nat)
    ensures x in Recency(h) <==> Called(h, x)
  {
    if h.Then? {
      RecencyHoldsCalled(h.before, x);
      RecencyIsDistinct(h.before);
      FindMoved(Recency(h.before), h.hash, x);
    }
  }

  lemma {:induction false} OthersAreInFront(h: History, x: nat, y: nat)
    requires Called(h, x)
    ensures y in OthersSince(h, x) <==> y in Recency(h) && Find(Recency(h), y) < Find(Recency(h), x)
  {
    hide Find, MoveToFront;
    var r := Recency(h.before);
    RecencyIsDistinct(h.before);
    FindMoved(r, h.hash, x);
    FindMoved(r, h.hash, y);
    if h.hash != x {
      OthersAreInFront(h.before, x, y);
      RecencyHoldsCalled(h.before, x);
    }
  }

  function SetOf(r: seq<nat>): set<nat> { set y | y in r }

  lemma {:induction false} DistinctSize(r: seq<nat>)
    requires Distinct(r)
    ensures |SetOf(r)| == |r|
  {
    if r != [] {
      var front, last := r[..|r| - 1], r[|r| - 1];
      DistinctSize(front);
      assert r == front + [last];
      assert SetOf(r) == SetOf(front) + {last};
      assert last !in front;
    }
  }

  lemma InFront(r: seq<nat>, n: nat, y: nat)
    requires Distinct(r) && n <= |r|
    ensures y in r[..n] <==> y in r && Find(r, y) < n
  {
    if y in r[..n] {
      var j :| 0 <= j < n && r[j] == y;
      FoundAt(r, y, j);
    }
    if Find(r, y) < n { assert r[..n][Find(r, y)] == y; }
  }

  /** Stack distance: the position of `x` is the number of distinct others called since. */
  lemma PositionIsStackDistance(h: History, x: nat)
    requires Called(h, x)
    ensures |OthersSince(h, x)| == Find(Recency(h), x)
  {
    hide Recency, OthersSince;
    var r := Recency(h);
    var n := Find(r, x);
    RecencyIsDistinct(h);
    assert Distinct(r[..n]);
    DistinctSize(r[..n]);
    forall y ensures y in OthersSince(h, x) <==> y in r[..n] {
      OthersAreInFront(h, x, y);
      InFront(r, n, y);
    }
    assert OthersSince(h, x) == SetOf(r[..n]);
  }

  /** What the cache holds: the top of the recency stack, each slot with its last emission. */
  ghost predicate Mirrors(cap: nat, ttl: nat, c: Cache, h: History) {
    var r := Recency(h);
    && |c| == (if |r| < cap then |r| else cap)
    && forall i :: 0 <= i < |c| ==> c[i] == Slot(r[i], LastEmission(cap, ttl, h, r[i]))
  }

  /** The cache without the slot at `i`, or, if the line is not held, without the one it evicts. */
  function Behind(cap: nat, c: Cache, i: nat): Cache
    requires cap > 0
  {
    if i < |c| then DropAt(c, i) else if |c| >= cap then c[..cap - 1] else c
  }

  /** A hash is in the cache exactly when its stack distance is below the cap, at that position. */
  lemma FindInCache(cap: nat, ttl: nat, c: Cache, h: History, x: nat)
    requires Mirrors(cap, ttl, c, h)
    ensures var i := Find(Recency(h), x);
            Find(Hashes(c), x) == if i < |c| then i else |c|
  {
    var r := Recency(h);
    RecencyIsDistinct(h);
    assert Hashes(c) == r[..|c|];
    InFront(r, |c|, x);
    var k := Find(Hashes(c), x);
    if k < |c| {
      assert r[k] == x;
      FoundAt(r, x, k);
    }
  }

  lemma LookupMatches(cap: nat, ttl: nat, c: Cache, h: History, x: nat, now: int)
    requires cap > 0 && Mirrors(cap, ttl, c, h)
    ensures Lookup(c, cap, ttl, x, now).0 == Emits(cap, ttl, h, x, now)
  {
    hide Recency, OthersSince;
    FindInCache(cap, ttl, c, h, x);
    RecencyHoldsCalled(h, x);
    if Called(h, x) { PositionIsStackDistance(h, x); }
  }

  /** The slots behind the front one: the old stack without the line, untouched. */
  lemma RestMirrors(cap: nat, ttl: nat, c: Cache, h: History, x: nat, now: int, j: nat)
    requires cap > 0 && Mirrors(cap, ttl, c, h) && j < |Behind(cap, c, Find(Recency(h), x))|
    ensures j + 1 < |Recency(Then(h, x, now))|
    ensures var y := Recency(Then(h, x, now))[j + 1];
            Behind(cap, c, Find(Recency(h), x))[j] == Slot(y, LastEmission(cap, ttl, Then(h, x, now), y))
  {
    hide *;
    var r := Recency(h);
    var i := Find(r, x);
    var k := if i < |c| && j >= i then j + 1 else j;
    RecencyIsDistinct(h);
    BehindAt(cap, c, i, j);
    MirrorsAt(cap, ttl, c, h, k);
    ElsewhereDiffers(r, x, k);
    MovedAt(r, x, k);
    EmissionElsewhere(cap, ttl, h, x, now, r[k]);
    RecencyMoves(h, x, now);
  }

  lemma MirrorsAt(cap: nat, ttl: nat, c: Cache, h: History, k: nat)
    requires Mirrors(cap, ttl, c, h) && k < |c|
    ensures |c| <= |Recency(h)| && c[k] == Slot(Recency(h)[k], LastEmission(cap, ttl, h, Recency(h)[k]))
  {
  }

  lemma RecencyMoves(h: History, x: nat, now: int)
    ensures Recency(Then(h, x, now)) == MoveToFront(Recency(h), x)
  {
  }

  lemma BehindAt(cap: nat, c: Cache, i: nat, j: nat)
    requires cap > 0 && j < |Behind(cap, c, i)|
    ensures var k := if i < |c| && j >= i then j + 1 else j;
            k < |c| && Behind(cap, c, i)[j] == c[k]
  {
  }

  lemma EmissionElsewhere(cap: nat, ttl: nat, h: History, x: nat, now: int, y: nat)
    requires y != x
    ensures LastEmission(cap, ttl, Then(h, x, now), y) == LastEmission(cap, ttl, h, y)
  {
  }

  lemma LookupMirrors(cap: nat, ttl: nat, c: Cache, h: History, x: nat, now: int)
    requires cap > 0 && Mirrors(cap, ttl, c, h)
    ensures Mirrors(cap, ttl, Lookup(c, cap, ttl, x, now).1, Then(h, x, now))
  {
    hide Lookup;
    var h' := Then(h, x, now);
    var rest, c' := Behind(cap, c, Find(Recency(h), x)), Lookup(c, cap, ttl, x, now).1;
    LookupFront(cap, ttl, c, h, x, now);
    assert Recency(h')[0] == x;
    forall j | 0 <= j < |c'|
      ensures j < |Recency(h')| && c'[j] == Slot(Recency(h')[j], LastEmission(cap, ttl, h', Recency(h')[j]))
    {
      if j > 0 { RestMirrors(cap, ttl, c, h, x, now, j - 1); }
    }
  }

  /** After a lookup the line's slot is in front, stamped with its last emission. */
  lemma LookupFront(cap: nat, ttl: nat, c: Cache, h: History, x: nat, now: int)
    requires cap > 0 && Mirrors(cap, ttl, c, h)
    ensures var i := Find(Recency(h), x);
            Lookup(c, cap, ttl, x, now).1 == [Slot(x, LastEmission(cap, ttl, Then(h, x, now), x))] + Behind(cap, c, i)
  {
    hide Recency, OthersSince;
    LookupMatches(cap, ttl, c, h, x, now);
    FindInCache(cap, ttl, c, h, x);
    var i := Find(Recency(h), x);
    if i < |c| {
      LookupHit(c, cap, ttl, x, now, i);
    } else {
      LookupMiss(c, cap, ttl, x, now);
    }
  }

  lemma LookupMiss(c: Cache, cap: nat, ttl: nat, x: nat, now: int)
    requires cap > 0 && Find(Hashes(c), x) == |c|
    ensures Lookup(c, cap, ttl, x, now) == (true, [Slot(x, now)] + (if |c| >= cap then c[..cap - 1] else c))
  {
  }

  lemma LookupHit(c: Cache, cap: nat, ttl: nat, x: nat, now: int, i: nat)
    requires cap > 0 && i < |c| && i == Find(Hashes(c), x)
    ensures var (emit, c') := Lookup(c, cap, ttl, x, now);
            c' == [Slot(x, if emit then now else c[i].seenAt)] + DropAt(c, i)
  {
    var touched := Touch(c, i);
    assert Hashes(touched)[0] == x;
    assert Find(Hashes(touched), x) == 0;
    assert DropAt(touched, 0) == DropAt(c, i);
  }

  lemma {:induction false} CacheMirrorsHistory(cap: nat, ttl: nat, h: History)
    requires cap > 0
    ensures Mirrors(cap, ttl, CacheAfter(cap, ttl, h), h)
  {
    if h.Then? {
      CacheMirrorsHistory(cap, ttl, h.before);
      LookupMirrors(cap, ttl, CacheAfter(cap, ttl, h.before), h.before, h.hash, h.now);
    }
  }

  /** The LRU cache answers every call of every run as the cache-free reference does. */
  lemma StackDistanceTheorem(cap: nat, ttl: nat, h: History, x: nat, now: int)
    requires cap > 0
    ensures Answers(cap, ttl, h, x, now) == Emits(cap, ttl, h, x, now)
  {
    CacheMirrorsHistory(cap, ttl, h);
    LookupMatches(cap, ttl, CacheAfter(cap, ttl, h), h, x, now);
  }

  // ---- against an unbounded map ----

  function Seen(h: History): set<nat> { if h.Fresh? then {} else Seen(h.before) + {h.hash} }

  /** A deduplicator that never forgets: only the time-to-live counts. */
  predicate UnboundedEmits(ttl: nat, h: History, x: nat, now: int)
    decreases h, 1
  {
    !(Called(h, x) && 0 < ttl && now < UnboundedLast(ttl, h, x) + ttl)
  }

  function UnboundedLast(ttl: nat, h: History, x: nat): int
    decreases h, 0
  {
    if h.Fresh? then 0
    else if h.hash == x && UnboundedEmits(ttl, h.before, x, h.now) then h.now
    else UnboundedLast(ttl, h.before, x)
  }

  lemma {:induction false} OthersAreSeen(h: History, x: nat)
    ensures OthersSince(h, x) <= Seen(h) - {x}
  {
    if h.Then? { OthersAreSeen(h.before, x); }
  }

  /** As long as a pod shows at most `cap` distinct lines, the bound is never felt. */
  lemma {:induction false} UnboundedUpToCap(cap: nat, ttl: nat, h: History, x: nat, now: int)
    requires cap > 0 && |Seen(h) + {x}| <= cap
    ensures Emits(cap, ttl, h, x, now) == UnboundedEmits(ttl, h, x, now)
    ensures LastEmission(cap, ttl, h, x) == UnboundedLast(ttl, h, x)
  {
    OthersAreSeen(h, x);
    Sets.SubsetIsSmaller(OthersSince(h, x), Seen(h) - {x});
    assert Seen(h) + {x} == (Seen(h) - {x}) + {x};
    if h.Then? {
      Sets.SubsetIsSmaller(Seen(h.before) + {x}, Seen(h) + {x});
      UnboundedUpToCap(cap, ttl, h.before, x, h.now);
    }
  }

  // ---- runs over many pods ----

  datatype Event = Line(pod: string, hash: nat, now: int) | Removed(pod: string)

  datatype Run = Start | Step(before: Run, event: Event)

  function PodsAfter(cap: nat, ttl: nat, run: Run): map<string, Cache>
    requires cap > 0
  {
    match run
    case Start => map[]
    case Step(before, Line(pod, hash, now)) =>
      var pods := PodsAfter(cap, ttl, before);
      pods[pod := Lookup(CacheOf(pods, pod), cap, ttl, hash, now).1]
    case Step(before, Removed(pod)) => PodsAfter(cap, ttl, before) - {pod}
  }

  /** What one pod saw of the run since it was last removed. */
  function HistoryOf(run: Run, pod: string): History {
    match run
    case Start => Fresh
    case Step(before, Line(p, hash, now)) =>
      if p == pod then Then(HistoryOf(before, pod), hash, now) else HistoryOf(before, pod)
    case Step(before, Removed(p)) => if p == pod then Fresh else HistoryOf(before, pod)
  }

  lemma {:induction false} PodsAreIndependent(cap: nat, ttl: nat, run: Run, pod: string)
    requires cap > 0
    ensures CacheOf(PodsAfter(cap, ttl, run), pod) == CacheAfter(cap, ttl, HistoryOf(run, pod))
    ensures Bounded(cap, PodsAfter(cap, ttl, run))
  {
    if run.Step? {
      PodsAreIndependent(cap, ttl, run.before, pod);
      if run.event.Line? {
        LookupKeepsCap(CacheOf(PodsAfter(cap, ttl, run.before), run.event.pod), cap, ttl, run.event.hash, run.event.now);
      }
    }
  }

  /** In every interleaving over pods, with pods removed at any point, a line goes out exactly when
      the reference says so for that pod's own history. */
  lemma DedupOverManyPods(cap: nat, ttl: nat, run: Run, pod: string, x: nat, now: int)
    requires cap > 0
    ensures Lookup(CacheOf(PodsAfter(cap, ttl, run), pod), cap, ttl, x, now).0
            == Emits(cap, ttl, HistoryOf(run, pod), x, now)
  {
    PodsAreIndependent(cap, ttl, run, pod);
    StackDistanceTheorem(cap, ttl, HistoryOf(run, pod), x, now);
  }
}
