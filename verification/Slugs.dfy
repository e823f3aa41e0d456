/**
File names for fault signatures (crates/ravn-server/src/knowledge.rs:50-93): when two signatures end
up in one file.
*/
module Slugs {
  import opened Decimal
  import opened Frontmatter
  import opened Lines
  import opened Text
  import RoundTrip
  import Schema

  predicate IsUpper(c: char) { 'A' <= c <= 'Z' }

  predicate IsKept(c: char) { 'a' <= c <= 'z' || IsUpper(c) || IsDigit(c) || c == '.' || c == '_' }

  function Lower(c: char): char { if IsUpper(c) then c - 'A' + 'a' else c }

  /** What is kept: letters, digits, dots and underscores; and how: each capital as its small letter. */
  lemma KeptAre(c: char)
    ensures IsKept(c) <==> c in Schema.LOWER || c in Schema.UPPER || c in Schema.DIGITS || c == '.' || c == '_'
    ensures c in Schema.UPPER ==> Lower(c) in Schema.LOWER && Lower(c) as int == c as int + 32
    ensures c !in Schema.UPPER ==> Lower(c) == c
  {
  }

  /** Characters kept in lower case, every run of others one dash. */
  function Dashed(s: string, lastDash: bool): string {
    if s == [] then []
    else if IsKept(s[0]) then [Lower(s[0])] + Dashed(s[1..], false)
    else if lastDash then Dashed(s[1..], true)
    else ['-'] + Dashed(s[1..], true)
  }

  function Slug(signature: string): string { TrimMatches(Dashed(signature, false), '-') }

  method SlugLoop(signature: string) returns (r: string)
    ensures r == Slug(signature)
  {
    var out, lastDash := [], false;
    for i := 0 to |signature|
      invariant out + Dashed(signature[i..], lastDash) == Dashed(signature, false)
    {
      var ch := signature[i];
      assert signature[i..][1..] == signature[i + 1..];
      if IsKept(ch) {
        out := out + [Lower(ch)];
        lastDash := false;
      } else if !lastDash {
        out := out + ['-'];
        lastDash := true;
      }
    }
    assert signature[|signature|..] == [] && out + [] == out;
    r := TrimMatches(out, '-');
  }

  /** What a file stem looks like: kept characters in lower case, single dashes between them. */
  predicate IsStem(s: string) {
    && (forall i :: 0 <= i < |s| ==> StemChar(s[i]))
    && (s != [] ==> s[0] != '-' && s[|s| - 1] != '-')
    && NoDashPair(s)
  }

  predicate StemChar(c: char) { c == '-' || (IsKept(c) && !IsUpper(c)) }

  predicate NoDashPair(s: string) { forall i {:trigger PairAt(s, '-', i)} :: 0 <= i < |s| ==> !PairAt(s, '-', i) }

  lemma {:induction false} DashedIsTidy(s: string, lastDash: bool)
    ensures var d := Dashed(s, lastDash);
            && (forall i :: 0 <= i < |d| ==> StemChar(d[i])) && NoDashPair(d) && (lastDash && d != [] ==> d[0] != '-')
  {
    if s != [] {
      var d, rest := Dashed(s, lastDash), Dashed(s[1..], !IsKept(s[0]));
      DashedIsTidy(s[1..], !IsKept(s[0]));
      if d != rest {
        assert d[1..] == rest;
        forall i | 0 <= i < |d| ensures !PairAt(d, '-', i) {
          if i > 0 { assert PairAt(d, '-', i) == PairAt(rest, '-', i - 1); }
        }
      }
    }
  }

  lemma {:induction false} TrimStartMatchesIsSuffix(s: string)
    ensures var t := TrimStartMatches(s, '-');
            |t| <= |s| && t == s[|s| - |t|..] && (t != [] ==> t[0] != '-')
  {
    if s != [] && s[0] == '-' { TrimStartMatchesIsSuffix(s[1..]); }
  }

  /** A slug is always a stem: no separators, blanks, capitals or stray dashes. */
  lemma SlugIsStem(signature: string)
    ensures IsStem(Slug(signature))
  {
    var d := Dashed(signature, false);
    DashedIsTidy(signature, false);
    TrimStartMatchesIsSuffix(d);
    var t := TrimStartMatches(d, '-');
    RoundTrip.TrimEndMatchesPrefix(t, '-');
    var u, k := TrimEndMatches(t, '-'), |d| - |t|;
    assert u == d[k..k + |u|];
    forall i | 0 <= i < |u| ensures StemChar(u[i]) && !PairAt(u, '-', i) {
      assert u[i] == d[k + i];
      assert !PairAt(d, '-', k + i);
    }
  }

  /** How many of the first characters are kept. */
  function KeptPrefix(s: string): (n: nat)
    ensures n <= |s| && (forall i :: 0 <= i < n ==> IsKept(s[i])) && (n < |s| ==> !IsKept(s[n]))
  {
    if s == [] || !IsKept(s[0]) then 0 else 1 + KeptPrefix(s[1..])
  }

  function Lowered(s: string): string { seq(|s|, i requires 0 <= i < |s| => Lower(s[i])) }

  /** The maximal runs of kept characters, in lower case: what a signature is made of once separators
      are forgotten. */
  function Words(s: string): seq<string> {
    if s == [] then []
    else if KeptPrefix(s) == 0 then Words(s[1..])
    else [Lowered(s[..KeptPrefix(s)])] + Words(s[KeptPrefix(s)..])
  }

  function Dashes(ws: seq<string>): string {
    if ws == [] then [] else if |ws| == 1 then ws[0] else ws[0] + ['-'] + Dashes(ws[1..])
  }

  predicate IsWord(w: string) { w != [] && forall i :: 0 <= i < |w| ==> StemChar(w[i]) && w[i] != '-' }

  lemma {:induction false} WordsAreWords(s: string)
    ensures forall i :: 0 <= i < |Words(s)| ==> IsWord(Words(s)[i])
    decreases |s|
  {
    if s != [] {
      if KeptPrefix(s) == 0 {
        WordsAreWords(s[1..]);
      } else {
        WordsAreWords(s[KeptPrefix(s)..]);
        var w := Lowered(s[..KeptPrefix(s)]);
        forall i | 0 <= i < |w| ensures StemChar(w[i]) && w[i] != '-' { assert IsKept(s[i]); }
      }
    }
  }

  lemma DashedOne(s: string, lastDash: bool)
    requires s != []
    ensures IsKept(s[0]) ==> Dashed(s, lastDash) == [Lower(s[0])] + Dashed(s[1..], false)
    ensures !IsKept(s[0]) ==> Dashed(s, true) == Dashed(s[1..], true) && Dashed(s, false) == ['-'] + Dashed(s[1..], true)
  {
  }

  lemma LoweredOne(s: string)
    requires s != []
    ensures Lowered(s) == [Lower(s[0])] + Lowered(s[1..])
  {
  }

  lemma {:induction false} DashedKept(s: string, n: nat, lastDash: bool)
    requires 0 < n <= |s| && forall i :: 0 <= i < n ==> IsKept(s[i])
    ensures Dashed(s, lastDash) == Lowered(s[..n]) + Dashed(s[n..], false)
  {
    hide Dashed, Lowered, IsKept;
    DashedOne(s, lastDash);
    LoweredOne(s[..n]);
    assert s[..n][1..] == s[1..][..n - 1];
    if n == 1 {
      assert Lowered([]) == [] by { NothingLowered(); }
      assert s[1..][..0] == [];
    } else {
      DashedKept(s[1..], n - 1, false);
      assert s[1..][n - 1..] == s[n..];
    }
  }

  lemma NothingLowered()
    ensures Lowered([]) == [] && Dashed([], true) == [] && Dashed([], false) == []
  {
  }

  lemma WordsOne(s: string)
    requires s != []
    ensures KeptPrefix(s) == 0 ==> !IsKept(s[0]) && Words(s) == Words(s[1..])
    ensures KeptPrefix(s) > 0 ==> Words(s) == [Lowered(s[..KeptPrefix(s)])] + Words(s[KeptPrefix(s)..])
  {
  }

  lemma DashesOne(w: string, ws: seq<string>)
    ensures Dashes([w] + ws) == if ws == [] then w else w + ['-'] + Dashes(ws)
  {
    assert ([w] + ws)[1..] == ws;
  }

  /** With leading separators dropped, what is left is the words with dashes between, and perhaps one
      dash at the end. */
  lemma {:induction false} DashedIsWords(s: string)
    ensures var (d, j) := (Dashed(s, true), Dashes(Words(s)));
            d == j || (Words(s) != [] && d == j + ['-'])
    decreases |s|
  {
    hide *;
    if s == [] {
      NothingLowered();
      NoWords();
      return;
    }
    var n := KeptPrefix(s);
    WordsOne(s);
    if n == 0 {
      DashedOne(s, true);
      DashedIsWords(s[1..]);
      return;
    }
    var w, rest := Lowered(s[..n]), s[n..];
    DashedKept(s, n, true);
    DashesOne(w, Words(rest));
    DashedIsWords(rest);
    NoWords();
    if rest == [] {
      NothingLowered();
    } else {
      DashedOne(rest, true);
      DashedOne(rest, false);
      var tail, j := Dashed(rest, true), Dashes(Words(rest));
      assert Dashed(s, true) == w + ['-'] + tail;
      if tail != j { assert w + ['-'] + (j + ['-']) == (w + ['-'] + j) + ['-']; }
    }
  }

  lemma NoWords()
    ensures Words([]) == [] && Dashes([]) == []
  {
  }

  lemma {:induction false} DashesEnd(ws: seq<string>)
    requires ws != [] && forall i :: 0 <= i < |ws| ==> IsWord(ws[i])
    ensures Dashes(ws) != [] && Dashes(ws)[|Dashes(ws)| - 1] != '-' && Dashes(ws)[0] != '-'
  {
    assert IsWord(ws[0]);
    if |ws| > 1 { DashesEnd(ws[1..]); }
  }

  /** A slug is the words of the signature with dashes between them. */
  lemma SlugIsWords(signature: string)
    ensures Slug(signature) == Dashes(Words(signature))
  {
    var j, ws := Dashes(Words(signature)), Words(signature);
    WordsAreWords(signature);
    if ws != [] { DashesEnd(ws); }
    DashedIsWords(signature);
    var d := Dashed(signature, true);
    hide Words, Dashes, Dashed;
    assert TrimStartMatches(Dashed(signature, false), '-') == d by { LeadingDash(signature, d); }
    if d == j {
      RoundTrip.NoTrailing(j, '-');
    } else {
      assert d[..|d| - 1] == j;
      RoundTrip.NoTrailing(j, '-');
    }
  }

  lemma LeadingDash(s: string, d: string)
    requires d == Dashed(s, true)
    ensures TrimStartMatches(Dashed(s, false), '-') == d
  {
    DashedIsTidy(s, true);
    RoundTrip.NoLeading(d, '-');
    if s != [] && !IsKept(s[0]) {
      assert Dashed(s, false) == ['-'] + d;
      assert (['-'] + d)[1..] == d;
    }
  }

  lemma {:induction false} DashesSplit(ws: seq<string>)
    requires ws != [] && forall i :: 0 <= i < |ws| ==> IsWord(ws[i])
    ensures Split(Dashes(ws), '-') == ws
  {
    assert IsWord(ws[0]);
    if |ws| == 1 {
      SplitNone(ws[0], '-');
    } else {
      DashesSplit(ws[1..]);
      SplitAfter(ws[0], '-', Dashes(ws[1..]));
    }
  }

  /** Two signatures share a file exactly when they are made of the same words, whatever separates
      them and whatever their case. */
  lemma SharedFileExactlyWhenSameWords(a: string, b: string)
    ensures Slug(a) == Slug(b) <==> Words(a) == Words(b)
  {
    SlugIsWords(a);
    SlugIsWords(b);
    WordsAreWords(a);
    WordsAreWords(b);
    hide Slug, Words;
    if Words(a) != [] { DashesEnd(Words(a)); DashesSplit(Words(a)); }
    if Words(b) != [] { DashesEnd(Words(b)); DashesSplit(Words(b)); }
  }

  /** `fault_signature`: every signature has this form. */
  function FaultSignature(source: string, key: string, state: string): string { source + ":" + key + ":" + state }

  /** The key of a workload in a namespace. */
  function WorkloadKey(namespace: string, name: string): string {
    if namespace == [] then name else namespace + "/" + name
  }

  lemma {:induction false} WordsAcross(a: string, sep: char, b: string)
    requires !IsKept(sep)
    ensures Words(a + [sep] + b) == Words(a) + Words(b)
    decreases |a|
  {
    hide KeptPrefix, Lowered, Words;
    var s := a + [sep] + b;
    if a == [] {
      NoWords();
      NoPrefix(s);
      WordsOne(s);
      assert s[1..] == b && Words(a) + Words(b) == Words(b);
      return;
    }
    RunAcross(a, sep, b);
    WordsOne(a);
    WordsOne(s);
    var n := KeptPrefix(a);
    if n == 0 {
      WordsAcross(a[1..], sep, b);
      assert s[1..] == a[1..] + [sep] + b;
    } else {
      WordsAcross(a[n..], sep, b);
      assert s[..n] == a[..n] && s[n..] == a[n..] + [sep] + b;
    }
  }

  lemma NoPrefix(s: string)
    requires s != [] && !IsKept(s[0])
    ensures KeptPrefix(s) == 0
  {
  }

  lemma {:induction false} RunAcross(a: string, sep: char, b: string)
    requires !IsKept(sep)
    ensures KeptPrefix(a + [sep] + b) == KeptPrefix(a)
  {
    var s := a + [sep] + b;
    if a != [] && IsKept(a[0]) {
      RunAcross(a[1..], sep, b);
      assert s[1..] == a[1..] + [sep] + b;
    }
  }

  /** So signatures share a file exactly when source, key and state, put together, have the same words. */
  lemma SignatureWords(source: string, key: string, state: string)
    ensures Words(FaultSignature(source, key, state)) == Words(source) + Words(key) + Words(state)
  {
    hide Words;
    WordsAcross(source, ':', key + ":" + state);
    WordsAcross(key, ':', state);
    assert FaultSignature(source, key, state) == source + [':'] + (key + [':'] + state);
  }

  /** Real faults do share one: a workload `b-c` in namespace `a` and a workload `c` in namespace
      `a-b`, for the same reason, have different signatures and the same file. */
  lemma DifferentWorkloadsShareAFile(a: string, b: string, c: string, reason: string)
    requires Schema.IsValidK8sLabel(a) && Schema.IsValidK8sLabel(b) && Schema.IsValidK8sLabel(c)
    requires |a| + 1 + |b| <= 63 && |b| + 1 + |c| <= 63
    ensures var (one, other) := (FaultSignature("KubeWorkload", WorkloadKey(a, b + "-" + c), reason),
                                 FaultSignature("KubeWorkload", WorkloadKey(a + "-" + b, c), reason));
            && Schema.IsValidK8sLabel(b + "-" + c) && Schema.IsValidK8sLabel(a + "-" + b)
            && one != other && Slug(one) == Slug(other)
  {
    hide Words, Slug;
    var one, other := FaultSignature("KubeWorkload", WorkloadKey(a, b + "-" + c), reason),
                      FaultSignature("KubeWorkload", WorkloadKey(a + "-" + b, c), reason);
    SignatureWords("KubeWorkload", WorkloadKey(a, b + "-" + c), reason);
    SignatureWords("KubeWorkload", WorkloadKey(a + "-" + b, c), reason);
    WordsAcross(a, '/', b + "-" + c);
    WordsAcross(b, '-', c);
    WordsAcross(a + "-" + b, '/', c);
    WordsAcross(a, '-', b);
    assert Words(WorkloadKey(a, b + "-" + c)) == Words(WorkloadKey(a + "-" + b, c));
    SharedFileExactlyWhenSameWords(one, other);
    var at := |"KubeWorkload"| + 1 + |a|;
    assert one[at] == '/' && other[at] == '-';
  }
}
