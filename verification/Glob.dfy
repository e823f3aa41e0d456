/**
Host-scope globs of the policy engine (crates/ravn-server/src/policy.rs:230-258).

`Matches` is the declarative wildcard meaning. `GlobMatch` is the two-pointer matcher, which tests
literal equality before it looks for a `*` and remembers only the last star. `LiteralFirst` is the
meaning that matcher has on every text; the two meanings agree on a text for every pattern exactly
when the text holds no `*`.
*/
module Glob {
  import opened Options

  newtype byte = x: int | 0 <= x < 256

  const STAR: byte := 42
  const QUESTION: byte := 63

  /** `?` is any one byte, `*` any run (also the empty one), every other byte itself. */
  ghost predicate Matches(p: seq<byte>, t: seq<byte>)
    decreases |p|
  {
    if p == [] then t == []
    else if p[0] == STAR then exists k :: 0 <= k <= |t| && Matches(p[1..], t[k..])
    else t != [] && (p[0] == QUESTION || p[0] == t[0]) && Matches(p[1..], t[1..])
  }

  /** As `Matches`, except that a `*` facing a `*` of the text stands for just that byte. */
  predicate LiteralFirst(p: seq<byte>, t: seq<byte>)
    decreases |p|
  {
    if p == [] then t == []
    else if t != [] && (p[0] == QUESTION || p[0] == t[0]) then LiteralFirst(p[1..], t[1..])
    else p[0] == STAR && exists k :: 0 <= k <= |t| && LiteralFirst(p[1..], t[k..])
  }

  /** Some match of the pattern rest after star `s` starts beyond text position `from`. */
  ghost predicate Later(p: seq<byte>, t: seq<byte>, s: nat, from: nat)
    requires s < |p|
  {
    exists k :: from < k <= |t| && LiteralFirst(p[s + 1..], t[k..])
  }

  /** `n` bytes of the pattern from `a` match the text from `y` one for one. */
  ghost predicate LiteralRun(p: seq<byte>, a: nat, t: seq<byte>, y: nat, n: nat)
    requires a + n <= |p| && y + n <= |t|
  {
    forall i :: a <= i < a + n ==> p[i] == QUESTION || p[i] == t[y + (i - a)]
  }

  predicate Accepts(b: byte, t: seq<byte>, x: nat) { x < |t| && (b == QUESTION || b == t[x]) }

  /** A match takes one byte that the pattern's first accepts, or leaves to a star any number of them. */
  lemma FirstTakes(p: seq<byte>, a: nat, t: seq<byte>, x: nat) returns (z: nat)
    requires a < |p| && x <= |t| && LiteralFirst(p[a..], t[x..])
    ensures x <= z <= |t| && LiteralFirst(p[a + 1..], t[z..])
    ensures if Accepts(p[a], t, x) then z == x + 1 else p[a] == STAR
  {
    var q, u := p[a..], t[x..];
    assert q[1..] == p[a + 1..];
    if Accepts(p[a], t, x) {
      assert u[1..] == t[x + 1..];
      z := x + 1;
    } else {
      var k :| 0 <= k <= |u| && LiteralFirst(q[1..], u[k..]);
      assert u[k..] == t[x + k..];
      z := x + k;
    }
  }

  /** Why the last star is enough: a match that starts the same pattern stretch at or after `y`
      never gets behind the literal run that started at `y`. */
  lemma {:induction false} LaterStartStaysBehind(p: seq<byte>, a: nat, t: seq<byte>, y: nat, n: nat, x: nat)
    returns (j: nat)
    requires a + n <= |p| && y + n <= |t| && LiteralRun(p, a, t, y, n)
    requires y <= x <= |t| && LiteralFirst(p[a..], t[x..])
    ensures y + n <= j <= |t| && LiteralFirst(p[a + n..], t[j..])
    decreases n
  {
    hide LiteralFirst;
    if n == 0 {
      return x;
    }
    var z := FirstTakes(p, a, t, x);
    assert x == y ==> Accepts(p[a], t, x);
    j := LaterStartStaysBehind(p, a + 1, t, y + 1, n - 1, z);
  }

  /** Splitting a star at the current position: it ends here, or somewhere later. */
  lemma StarHereOrLater(p: seq<byte>, t: seq<byte>, s: nat, i: nat)
    requires s < |p| && i <= |t| && p[s] == STAR && (i < |t| ==> t[i] != STAR)
    ensures LiteralFirst(p[s..], t[i..]) <==> LiteralFirst(p[s + 1..], t[i..]) || Later(p, t, s, i)
  {
    var q, u := p[s..], t[i..];
    assert q[1..] == p[s + 1..];
    if LiteralFirst(q, u) {
      var k :| 0 <= k <= |u| && LiteralFirst(q[1..], u[k..]);
      assert u[k..] == t[i + k..];
      if k == 0 { assert u[0..] == u; } else { assert i < i + k <= |t|; }
    }
    if LiteralFirst(p[s + 1..], t[i..]) {
      assert u[0..] == u;
      assert LiteralFirst(q[1..], u[0..]);
    }
    if Later(p, t, s, i) {
      var k :| i < k <= |t| && LiteralFirst(p[s + 1..], t[k..]);
      assert u[k - i..] == t[k..];
      assert LiteralFirst(q[1..], u[k - i..]);
    }
  }

  /** A match that reaches a star in the pattern ends that star somewhere at or after `j`. */
  lemma StarEndsSomewhere(p: seq<byte>, t: seq<byte>, s: nat, j: nat) returns (m: nat)
    requires s < |p| && j <= |t| && p[s] == STAR && LiteralFirst(p[s..], t[j..])
    ensures j <= m <= |t| && LiteralFirst(p[s + 1..], t[m..])
  {
    var q, u := p[s..], t[j..];
    assert q[1..] == p[s + 1..];
    if u != [] && u[0] == STAR {
      m := j + 1;
      assert u[1..] == t[m..];
    } else {
      var d :| 0 <= d <= |u| && LiteralFirst(q[1..], u[d..]);
      m := j + d;
      assert u[d..] == t[m..];
    }
  }

  /** A newly met star makes the older one redundant. */
  lemma NewStarSubsumesOld(p: seq<byte>, t: seq<byte>, s: nat, starTi: nat, pi: nat, ti: nat)
    requires s < pi < |p| && starTi <= ti < |t| && pi - (s + 1) == ti - starTi
    requires LiteralRun(p, s + 1, t, starTi, pi - (s + 1))
    requires p[pi] == STAR && t[ti] != STAR && Later(p, t, s, starTi)
    ensures LiteralFirst(p[pi..], t[ti..])
  {
    hide LiteralFirst, LiteralRun;
    var k :| starTi < k <= |t| && LiteralFirst(p[s + 1..], t[k..]);
    var j := LaterStartStaysBehind(p, s + 1, t, starTi, pi - (s + 1), k);
    var m := StarEndsSomewhere(p, t, pi, j);
    if m > ti { assert Later(p, t, pi, ti); }
    StarHereOrLater(p, t, pi, ti);
  }

  /** At the end of the text the pattern rest in hand decides; no restart of the star can help. */
  lemma EndOfTextDecides(p: seq<byte>, t: seq<byte>, s: nat, starTi: nat, pi: nat)
    requires s < pi <= |p| && starTi <= |t| && pi - (s + 1) == |t| - starTi
    requires LiteralRun(p, s + 1, t, starTi, pi - (s + 1))
    requires Later(p, t, s, starTi)
    ensures LiteralFirst(p[pi..], [])
  {
    var k :| starTi < k <= |t| && LiteralFirst(p[s + 1..], t[k..]);
    var j := LaterStartStaysBehind(p, s + 1, t, starTi, pi - (s + 1), k);
    assert t[j..] == [];
  }

  lemma {:induction false} OnlyStarsMatchEmpty(p: seq<byte>)
    ensures LiteralFirst(p, []) <==> forall i :: 0 <= i < |p| ==> p[i] == STAR
  {
    if p != [] {
      OnlyStarsMatchEmpty(p[1..]);
      var e: seq<byte> := [];
      assert e[0..] == e;
      if LiteralFirst(p, e) {
        var k :| 0 <= k <= |e| && LiteralFirst(p[1..], e[k..]);
        assert e[k..] == e;
        forall i | 0 <= i < |p| ensures p[i] == STAR {
          if i > 0 { assert p[1..][i - 1] == STAR; }
        }
      }
      if forall i :: 0 <= i < |p| ==> p[i] == STAR {
        assert forall i :: 0 <= i < |p[1..]| ==> p[1..][i] == p[i + 1];
        assert LiteralFirst(p[1..], e[0..]);
      }
    }
  }

  /** What the matcher's variables say: since the last star, pattern and text ran in step. */
  ghost predicate Tracked(p: seq<byte>, t: seq<byte>, pi: nat, ti: nat, star: Option<nat>, starTi: nat) {
    && pi <= |p| && starTi <= ti <= |t|
    && (star.Some? ==>
          && star.value < pi && p[star.value] == STAR && pi - (star.value + 1) == ti - starTi
          && LiteralRun(p, star.value + 1, t, starTi, pi - (star.value + 1)))
  }

  /** What is left to try: the rest in hand, or the last star ending later. */
  ghost predicate Open(p: seq<byte>, t: seq<byte>, pi: nat, ti: nat, star: Option<nat>, starTi: nat)
    requires Tracked(p, t, pi, ti, star, starTi)
  {
    LiteralFirst(p[pi..], t[ti..]) || (star.Some? && Later(p, t, star.value, starTi))
  }

  lemma LiteralStep(p: seq<byte>, t: seq<byte>, pi: nat, ti: nat, star: Option<nat>, starTi: nat)
    requires Tracked(p, t, pi, ti, star, starTi)
    requires ti < |t| && pi < |p| && (p[pi] == QUESTION || p[pi] == t[ti])
    ensures Tracked(p, t, pi + 1, ti + 1, star, starTi)
    ensures Open(p, t, pi + 1, ti + 1, star, starTi) <==> Open(p, t, pi, ti, star, starTi)
  {
    assert p[pi..][1..] == p[pi + 1..] && t[ti..][1..] == t[ti + 1..];
  }

  lemma StarStep(p: seq<byte>, t: seq<byte>, pi: nat, ti: nat, star: Option<nat>, starTi: nat)
    requires Tracked(p, t, pi, ti, star, starTi)
    requires ti < |t| && pi < |p| && p[pi] == STAR && t[ti] != STAR
    ensures Tracked(p, t, pi + 1, ti, Some(pi), ti)
    ensures Open(p, t, pi + 1, ti, Some(pi), ti) <==> Open(p, t, pi, ti, star, starTi)
  {
    if star.Some? && Later(p, t, star.value, starTi) {
      NewStarSubsumesOld(p, t, star.value, starTi, pi, ti);
    }
    StarHereOrLater(p, t, pi, ti);
  }

  lemma BacktrackStep(p: seq<byte>, t: seq<byte>, pi: nat, ti: nat, star: Option<nat>, starTi: nat)
    requires Tracked(p, t, pi, ti, star, starTi) && star.Some? && ti < |t|
    requires pi < |p| ==> p[pi] != QUESTION && p[pi] != t[ti] && p[pi] != STAR
    ensures Tracked(p, t, star.value + 1, starTi + 1, star, starTi + 1)
    ensures Open(p, t, star.value + 1, starTi + 1, star, starTi + 1) <==> Open(p, t, pi, ti, star, starTi)
  {
    DeadEnd(p, t, pi, ti);
  }

  lemma DeadEnd(p: seq<byte>, t: seq<byte>, pi: nat, ti: nat)
    requires pi <= |p| && ti < |t| && (pi < |p| ==> p[pi] != QUESTION && p[pi] != t[ti] && p[pi] != STAR)
    ensures !LiteralFirst(p[pi..], t[ti..])
  {
  }

  /** The closing scan over trailing stars decides whether the pattern rest matches the empty text. */
  lemma TrailingStars(p: seq<byte>, from: nat, to: nat)
    requires from <= to <= |p| && (forall i :: from <= i < to ==> p[i] == STAR)
    requires to < |p| ==> p[to] != STAR
    ensures LiteralFirst(p[from..], []) <==> to == |p|
  {
    OnlyStarsMatchEmpty(p[from..]);
    if to < |p| { assert p[from..][to - from] != STAR; }
  }

  /** The two-pointer matcher with backtracking to the last star, on every pattern and text. */
  method GlobMatch(p: seq<byte>, t: seq<byte>) returns (r: bool)
    ensures r <==> LiteralFirst(p, t)
    ensures STAR !in t ==> (r <==> Matches(p, t))
  {
    FaithfulOnStarFreeText(p, t);
    hide LiteralFirst, Matches;
    var pi: nat, ti: nat := 0, 0;
    var star: Option<nat> := None;
    var starTi: nat := 0;
    assert p[0..] == p && t[0..] == t;
    while ti < |t|
      invariant Tracked(p, t, pi, ti, star, starTi)
      invariant LiteralFirst(p, t) <==> Open(p, t, pi, ti, star, starTi)
      decreases |t| - starTi, |t| - ti, |p| - pi
    {
      if pi < |p| && (p[pi] == QUESTION || p[pi] == t[ti]) {
        LiteralStep(p, t, pi, ti, star, starTi);
        pi, ti := pi + 1, ti + 1;
      } else if pi < |p| && p[pi] == STAR {
        StarStep(p, t, pi, ti, star, starTi);
        star, starTi, pi := Some(pi), ti, pi + 1;
      } else if star.Some? {
        BacktrackStep(p, t, pi, ti, star, starTi);
        pi, starTi, ti := star.value + 1, starTi + 1, starTi + 1;
      } else {
        DeadEnd(p, t, pi, ti);
        return false;
      }
    }
    if star.Some? && Later(p, t, star.value, starTi) {
      EndOfTextDecides(p, t, star.value, starTi, pi);
    }
    assert t[ti..] == [];
    ghost var pi0 := pi;
    while pi < |p| && p[pi] == STAR
      invariant pi0 <= pi <= |p|
      invariant forall i :: pi0 <= i < pi ==> p[i] == STAR
    {
      pi := pi + 1;
    }
    TrailingStars(p, pi0, pi);
    r := pi == |p|;
  }

  /** Whatever the matcher accepts, the wildcard meaning accepts too, on every text. */
  lemma {:induction false} NeverAcceptsTooMuch(p: seq<byte>, t: seq<byte>)
    requires LiteralFirst(p, t)
    ensures Matches(p, t)
    decreases |p|
  {
    if p != [] {
      if t != [] && (p[0] == QUESTION || p[0] == t[0]) {
        NeverAcceptsTooMuch(p[1..], t[1..]);
      } else {
        var k :| 0 <= k <= |t| && LiteralFirst(p[1..], t[k..]);
        NeverAcceptsTooMuch(p[1..], t[k..]);
      }
    }
  }

  lemma {:induction false} FaithfulOnStarFreeText(p: seq<byte>, t: seq<byte>)
    ensures STAR !in t ==> (LiteralFirst(p, t) <==> Matches(p, t))
    decreases |p|
  {
    if LiteralFirst(p, t) { NeverAcceptsTooMuch(p, t); }
    if STAR !in t && Matches(p, t) && p != [] {
      if p[0] == STAR {
        var k :| 0 <= k <= |t| && Matches(p[1..], t[k..]);
        FaithfulOnStarFreeText(p[1..], t[k..]);
        assert LiteralFirst(p[1..], t[k..]);
      } else {
        FaithfulOnStarFreeText(p[1..], t[1..]);
      }
    }
  }

  /** `n` question marks match exactly the texts of length `n`, under both meanings. */
  lemma {:induction false} QuestionMarks(n: nat, t: seq<byte>)
    ensures LiteralFirst(seq(n, _ => QUESTION), t) <==> |t| == n
    ensures Matches(seq(n, _ => QUESTION), t) <==> |t| == n
  {
    var q := seq(n, _ => QUESTION);
    if n > 0 {
      assert q[1..] == seq(n - 1, _ => QUESTION);
      if t != [] { QuestionMarks(n - 1, t[1..]); }
    }
  }

  /** The pattern that goes wrong on a text whose first `*` is at `i`: the text up to there, a `*`,
      and one `?` for every remaining byte. */
  function Misjudged(t: seq<byte>, i: nat): (p: seq<byte>)
    requires i < |t|
  {
    t[..i] + [STAR] + seq(|t| - i, _ => QUESTION)
  }

  lemma {:induction false} MisjudgedIsMisjudged(t: seq<byte>, i: nat)
    requires i < |t| && t[i] == STAR && STAR !in t[..i]
    ensures Matches(Misjudged(t, i), t) && !LiteralFirst(Misjudged(t, i), t)
    decreases i
  {
    var p := Misjudged(t, i);
    if i == 0 {
      assert p[1..] == seq(|t|, _ => QUESTION);
      QuestionMarks(|t|, t[1..]);
      QuestionMarks(|t|, t[0..]);
      assert Matches(p[1..], t[0..]);
    } else {
      assert t[..i][0] == t[0];
      assert t[1..][..i - 1] == t[..i][1..];
      MisjudgedIsMisjudged(t[1..], i - 1);
      assert p[1..] == Misjudged(t[1..], i - 1);
    }
  }

  /** What the wildcards look like, `*` being byte 42 and `?` byte 63: a plain text followed by `*` accepts
      the texts it starts, on its own it accepts itself, and `?` accepts any one byte. */
  lemma {:induction false} WildcardsAre(p: seq<byte>, t: seq<byte>)
    requires forall i :: 0 <= i < |p| ==> p[i] != 42 && p[i] != 63
    ensures Matches(p + [42], t) <==> p <= t
    ensures Matches(p, t) <==> p == t
    ensures Matches(p + [63], t) <==> p <= t && |t| == |p| + 1
  {
    var star, any := p + [42], p + [63];
    if p == [] {
      assert star[1..] == [] && any[1..] == [];
      assert t[|t|..] == [];
      assert Matches(star[1..], t[|t|..]);
      if t != [] { assert |t[1..]| == |t| - 1; }
    } else {
      assert star[1..] == p[1..] + [42] && any[1..] == p[1..] + [63];
      if t != [] {
        WildcardsAre(p[1..], t[1..]);
        assert p == [p[0]] + p[1..] && t == [t[0]] + t[1..];
        assert p <= t <==> p[0] == t[0] && p[1..] <= t[1..];
      }
    }
  }

  /** The exact condition on a text for the matcher to be right about it whatever the pattern. */
  lemma FaithfulExactlyOnStarFreeTexts(t: seq<byte>)
    ensures (forall p :: LiteralFirst(p, t) <==> Matches(p, t)) <==> STAR !in t
  {
    if STAR !in t {
      forall p ensures LiteralFirst(p, t) <==> Matches(p, t) { FaithfulOnStarFreeText(p, t); }
    } else {
      var i := FirstStar(t);
      MisjudgedIsMisjudged(t, i);
    }
  }

  lemma {:induction false} FirstStar(t: seq<byte>) returns (i: nat)
    requires STAR in t
    ensures i < |t| && t[i] == STAR && STAR !in t[..i]
  {
    if t[0] == STAR {
      return 0;
    }
    i := FirstStar(t[1..]);
    i := i + 1;
    assert t[..i] == [t[0]] + t[1..][..i - 1];
  }
}
