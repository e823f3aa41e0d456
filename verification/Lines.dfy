/**
Splitting text: the parts of the Rust standard library's `str` that line-oriented parsing uses.
*/
module Lines {
  import opened Options

  predicate StartsWith(s: string, p: string) { |p| <= |s| && s[..|p|] == p }

  /** `split_once` at a character: what lies before and after its first occurrence. */
  function SplitOnce(s: string, c: char): Option<(string, string)> {
    if s == [] then None
    else if s[0] == c then Some(([], s[1..]))
    else
      match SplitOnce(s[1..], c)
      case None => None
      case Some((a, b)) => Some(([s[0]] + a, b))
  }

  /** `split` at a character: always at least one piece. */
  function Split(s: string, c: char): (r: seq<string>)
    ensures r != []
  {
    if s == [] then [[]]
    else if s[0] == c then [[]] + Split(s[1..], c)
    else Glue([s[0]], Split(s[1..], c))
  }

  /** Text put before the first piece. */
  function Glue(a: string, pieces: seq<string>): (r: seq<string>)
    requires pieces != []
    ensures r != [] && r[0] == a + pieces[0] && r[1..] == pieces[1..]
  {
    [a + pieces[0]] + pieces[1..]
  }

  function StripCr(s: string): string { if s != [] && s[|s| - 1] == '\r' then s[..|s| - 1] else s }

  /** `lines`: a final line end does not start another line; `\r\n` counts as one line end. */
  function Lines(s: string): seq<string>
    decreases |s|
  {
    if s == [] then []
    else
      match SplitOnce(s, '\n')
      case None => [s]
      case Some((a, b)) => SplitOnceShortens(s, '\n'); [StripCr(a)] + Lines(b)
  }

  /** First position of `p` in `s`, if any. */
  function FindText(s: string, p: string): Option<nat> {
    if StartsWith(s, p) then Some(0)
    else if s == [] then None
    else
      match FindText(s[1..], p)
      case None => None
      case Some(i) => Some(i + 1)
  }

  function TrimStartMatches(s: string, c: char): string { if s != [] && s[0] == c then TrimStartMatches(s[1..], c) else s }

  function TrimEndMatches(s: string, c: char): string {
    if s != [] && s[|s| - 1] == c then TrimEndMatches(s[..|s| - 1], c) else s
  }

  /** What is found lies inside the text, where it was found. */
  lemma {:induction false} FoundIsInside(s: string, p: string)
    requires FindText(s, p).Some?
    ensures FindText(s, p).value + |p| <= |s| && s[FindText(s, p).value..FindText(s, p).value + |p|] == p
  {
    if !StartsWith(s, p) {
      FoundIsInside(s[1..], p);
      var i := FindText(s[1..], p).value;
      assert s[1..][i..i + |p|] == s[i + 1..i + 1 + |p|];
    }
  }

  lemma {:induction false} SplitOnceShortens(s: string, c: char)
    ensures SplitOnce(s, c).Some? ==> s == SplitOnce(s, c).value.0 + [c] + SplitOnce(s, c).value.1
  {
    if s != [] && s[0] != c {
      SplitOnceShortens(s[1..], c);
      match SplitOnce(s[1..], c)
      case None =>
      case Some((a, b)) =>
        assert s == [s[0]] + s[1..];
        assert [s[0]] + (a + [c] + b) == [s[0]] + a + [c] + b;
    }
  }

  lemma {:induction false} SplitOnceAfter(a: string, c: char, b: string)
    requires c !in a
    ensures SplitOnce(a + [c] + b, c) == Some((a, b))
  {
    var s := a + [c] + b;
    if a == [] {
      assert s[0] == c && s[1..] == b;
    } else {
      SplitOnceAfter(a[1..], c, b);
      assert s[1..] == a[1..] + [c] + b;
      assert [a[0]] + a[1..] == a;
    }
  }

  lemma {:induction false} SplitOnceNone(s: string, c: char)
    requires c !in s
    ensures SplitOnce(s, c) == None
  {
    if s != [] { SplitOnceNone(s[1..], c); }
  }

  lemma {:induction false} SplitNone(s: string, c: char)
    requires c !in s
    ensures Split(s, c) == [s]
  {
    if s != [] {
      SplitNone(s[1..], c);
      assert [s[0]] + s[1..] == s;
    }
  }

  lemma {:induction false} SplitAfter(a: string, c: char, b: string)
    requires c !in a
    ensures Split(a + [c] + b, c) == [a] + Split(b, c)
  {
    var s := a + [c] + b;
    if a == [] {
      assert s[0] == c && s[1..] == b;
    } else {
      SplitAfter(a[1..], c, b);
      assert s[1..] == a[1..] + [c] + b;
      assert Split(s, c) == Glue([a[0]], [a[1..]] + Split(b, c));
      assert [a[0]] + a[1..] == a;
    }
  }

  // ---- blocks of lines ----

  /** Each line followed by a line end. */
  function Unlines(ls: seq<string>): string {
    if ls == [] then [] else ls[0] + ['\n'] + Unlines(ls[1..])
  }

  /** The lines with a line end between them. */
  function Joined(ls: seq<string>): string
    requires ls != []
  {
    if |ls| == 1 then ls[0] else ls[0] + ['\n'] + Joined(ls[1..])
  }

  lemma {:induction false} UnlinesAppend(a: seq<string>, b: seq<string>)
    ensures Unlines(a + b) == Unlines(a) + Unlines(b)
  {
    if a == [] {
      assert a + b == b;
    } else {
      UnlinesAppend(a[1..], b);
      assert (a + b)[1..] == a[1..] + b;
    }
  }

  lemma {:induction false} UnlinesIsJoined(ls: seq<string>)
    requires ls != []
    ensures Unlines(ls) == Joined(ls) + ['\n']
  {
    if |ls| == 1 {
      assert ls[1..] == [];
    } else {
      UnlinesIsJoined(ls[1..]);
    }
  }

  /** A line as it survives being written and read back. */
  predicate OneLine(l: string) { '\n' !in l && (l == [] || l[|l| - 1] != '\r') }

  /** Lines joined and split again are the same lines, unless the last one is empty. */
  lemma {:induction false} LinesOfJoined(ls: seq<string>)
    requires ls != [] && (forall i :: 0 <= i < |ls| ==> OneLine(ls[i])) && ls[|ls| - 1] != []
    ensures Lines(Joined(ls)) == ls
  {
    if |ls| == 1 {
      SplitOnceNone(ls[0], '\n');
    } else {
      LinesOfJoined(ls[1..]);
      SplitOnceAfter(ls[0], '\n', Joined(ls[1..]));
      assert StripCr(ls[0]) == ls[0];
    }
  }

  const CLOSER: string := "\n---\n"

  lemma FindOne(c: char, s: string)
    requires !StartsWith([c] + s, CLOSER) && FindText(s, CLOSER).Some?
    ensures FindText([c] + s, CLOSER) == Some(1 + FindText(s, CLOSER).value)
  {
    assert ([c] + s)[1..] == s;
  }

  lemma FindAtOnce(s: string)
    ensures FindText(CLOSER + s, CLOSER) == Some(0)
  {
    assert StartsWith(CLOSER + s, CLOSER);
  }

  /** The closing fence is found right after the block: no line in it is a fence, and what follows may
      contain anything. */
  lemma {:induction false} CloserAfterLines(ls: seq<string>, body: string)
    requires ls != [] && (forall i :: 0 <= i < |ls| ==> '\n' !in ls[i] && ls[i] != "---")
    ensures FindText(Joined(ls) + CLOSER + body, CLOSER) == Some(|Joined(ls)|)
  {
    hide FindText, StartsWith;
    if |ls| == 1 {
      FindAtOnce(body);
      FoundAfter(ls[0], CLOSER + body);
      assert Joined(ls) + CLOSER + body == ls[0] + (CLOSER + body);
    } else {
      CloserAfterLines(ls[1..], body);
      var rest := Joined(ls[1..]) + CLOSER + body;
      NoFenceHere(ls[1..], body);
      FindOne('\n', rest);
      FoundAfter(ls[0], ['\n'] + rest);
      assert Joined(ls) + CLOSER + body == ls[0] + (['\n'] + rest);
    }
  }

  /** A stretch without line ends only shifts the search. */
  lemma {:induction false} FoundAfter(a: string, s: string)
    requires '\n' !in a && FindText(s, CLOSER).Some?
    ensures FindText(a + s, CLOSER) == Some(|a| + FindText(s, CLOSER).value)
  {
    if a == [] {
      assert a + s == s;
    } else {
      FoundAfter(a[1..], s);
      assert (a + s)[1..] == a[1..] + s;
      assert (a + s)[0] != CLOSER[0];
    }
  }

  lemma NoFenceHere(ls: seq<string>, body: string)
    requires ls != [] && '\n' !in ls[0] && ls[0] != "---"
    ensures !StartsWith(['\n'] + (Joined(ls) + CLOSER + body), CLOSER)
  {
    var t := ['\n'] + (Joined(ls) + CLOSER + body);
    var after := if |ls| == 1 then CLOSER[1..] + body else Joined(ls[1..]) + CLOSER + body;
    assert t == ['\n'] + ls[0] + ['\n'] + after;
    if StartsWith(t, CLOSER) { FenceMeans(ls[0], after); }
  }

  lemma FenceMeans(l: string, after: string)
    requires '\n' !in l && StartsWith(['\n'] + l + ['\n'] + after, CLOSER)
    ensures l == "---"
  {
    var t := ['\n'] + l + ['\n'] + after;
    assert t[|l| + 1] == '\n' && forall i :: 0 <= i < |l| ==> t[i + 1] == l[i];
    assert forall i :: 0 <= i < 5 ==> t[i] == t[..5][i];
    assert t[1] == '-' && t[2] == '-' && t[3] == '-' && t[4] == '\n';
  }
}
