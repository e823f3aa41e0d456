/**
The reader of truncated JSON (crates/ravn-server/src/inference.rs:165-198): a string field pulled out
of a model's answer that may stop anywhere. What a string field is follows section 7 of RFC 8259,
without the escapes `\b`, `\f` and `\u`.
*/
module Inference {
  import opened Options
  import opened Text
  import opened Lines

  function Unescape(c: char): char {
    match c
    case 'n' => '\n'
    case 't' => '\t'
    case 'r' => '\r'
    case _ => c
  }

  /** What the character loop collects, and whether it saw the closing quote. */
  function Scan(s: string, escaped: bool): (string, bool) {
    if s == [] then ([], false)
    else if escaped then Collected(Unescape(s[0]), Scan(s[1..], false))
    else if s[0] == '\\' then Scan(s[1..], true)
    else if s[0] == '"' then ([], true)
    else Collected(s[0], Scan(s[1..], false))
  }

  function Collected(c: char, r: (string, bool)): (string, bool) { ([c] + r.0, r.1) }

  function Answer(r: (string, bool)): Option<string> { if r.1 || r.0 != [] then Some(r.0) else None }

  method ScanLoop(s: string) returns (r: Option<string>)
    ensures r == Answer(Scan(s, false))
  {
    var out, escaped := [], false;
    assert s[0..] == s && out + Scan(s, false).0 == Scan(s, false).0;
    for i := 0 to |s|
      invariant Scan(s, false) == (out + Scan(s[i..], escaped).0, Scan(s[i..], escaped).1)
    {
      var c := s[i];
      assert s[i..][1..] == s[i + 1..];
      if escaped {
        assert out + ([Unescape(c)] + Scan(s[i + 1..], false).0) == out + [Unescape(c)] + Scan(s[i + 1..], false).0;
        out := out + [Unescape(c)];
        escaped := false;
      } else if c == '\\' {
        escaped := true;
      } else if c == '"' {
        assert out + [] == out;
        return Some(out);
      } else {
        assert out + ([c] + Scan(s[i + 1..], false).0) == out + [c] + Scan(s[i + 1..], false).0;
        out := out + [c];
      }
    }
    assert s[|s|..] == [] && out + [] == out;
    r := if out == [] then None else Some(out);
  }

  function Needle(key: string): string { "\"" + key + "\"" }

  function Extract(content: string, key: string): Option<string> {
    match FindText(content, Needle(key))
    case None => None
    case Some(i) =>
      FoundIsInside(content, Needle(key));
      match SplitOnce(content[i + |Needle(key)|..], ':')
      case None => None
      case Some((_, after)) =>
        var value := TrimStart(after);
        if value == [] || value[0] != '"' then None else Answer(Scan(value[1..], false))
  }

  method ExtractStringField(content: string, key: string) returns (r: Option<string>)
    ensures r == Extract(content, key)
  {
    hide Scan, FindText, SplitOnce, TrimStart, Answer;
    var needle := Needle(key);
    var at := FindText(content, needle);
    if at.None? {
      return None;
    }
    FoundIsInside(content, needle);
    var split := SplitOnce(content[at.value + |needle|..], ':');
    if split.None? {
      return None;
    }
    var value := TrimStart(split.value.1);
    if value == [] || value[0] != '"' {
      return None;
    }
    r := ScanLoop(value[1..]);
  }

  // ---- a JSON string and its text ----

  /** A character of a JSON string as written: itself, or one of the two-character escapes. */
  datatype Unit = Raw(c: char) | Escape(c: char)

  predicate ValidUnit(u: Unit) {
    match u
    case Raw(c) => c != '"' && c != '\\' && c as int >= 0x20
    case Escape(c) => c in {'"', '\\', '/', 'n', 'r', 't'}
  }

  predicate Valid(us: seq<Unit>) { forall i :: 0 <= i < |us| ==> ValidUnit(us[i]) }

  function UnitText(u: Unit): string { if u.Raw? then [u.c] else ['\\', u.c] }

  /** The character meant. */
  function UnitValue(u: Unit): char {
    match u
    case Raw(c) => c
    case Escape('n') => '\n'
    case Escape('r') => '\r'
    case Escape('t') => '\t'
    case Escape(c) => c
  }

  function Written(us: seq<Unit>): string { if us == [] then [] else UnitText(us[0]) + Written(us[1..]) }

  function Value(us: seq<Unit>): string { if us == [] then [] else [UnitValue(us[0])] + Value(us[1..]) }

  lemma OneUnit(u: Unit, s: string)
    requires ValidUnit(u)
    ensures Scan(UnitText(u) + s, false) == Collected(UnitValue(u), Scan(s, false))
  {
    var t := UnitText(u) + s;
    if u.Raw? {
      assert t[1..] == s;
    } else {
      assert t[1..][1..] == s && t[1..][0] == u.c;
    }
  }

  /** A complete string scans to its value, whatever follows the closing quote. */
  lemma {:induction false} WholeString(us: seq<Unit>, rest: string)
    requires Valid(us)
    ensures Scan(Written(us) + "\"" + rest, false) == (Value(us), true)
  {
    if us == [] {
      assert (Written(us) + "\"" + rest)[0] == '"';
    } else {
      WholeString(us[1..], rest);
      OneUnit(us[0], Written(us[1..]) + "\"" + rest);
      assert Written(us) + "\"" + rest == UnitText(us[0]) + (Written(us[1..]) + "\"" + rest);
    }
  }

  /** How many units lie wholly within the first `n` characters. */
  function Whole(us: seq<Unit>, n: nat): (k: nat)
    ensures k <= |us|
  {
    if us == [] || n < |UnitText(us[0])| then 0 else 1 + Whole(us[1..], n - |UnitText(us[0])|)
  }

  /** It is the number meant: that many units fit, and one more, if there is one, does not. */
  lemma {:induction false} WholeIsWhole(us: seq<Unit>, n: nat)
    ensures var k := Whole(us, n); |Written(us[..k])| <= n && (k < |us| ==> n < |Written(us[..k + 1])|)
    ensures n >= |Written(us)| ==> Whole(us, n) == |us|
  {
    if us != [] {
      var first := UnitText(us[0]);
      assert us[..1][1..] == [];
      if n >= |first| {
        WholeIsWhole(us[1..], n - |first|);
        var k := Whole(us[1..], n - |first|);
        assert us[..k + 1][1..] == us[1..][..k];
        if k < |us| - 1 { assert us[..k + 2][1..] == us[1..][..k + 1]; }
      } else {
        assert us[..0] == [] && Written(us[..1]) == first + [];
        assert Written(us) == first + Written(us[1..]);
      }
    }
  }

  /** A string cut before its closing quote scans to the value of the units wholly before the cut. */
  lemma {:induction false} CutString(us: seq<Unit>, n: nat)
    requires Valid(us) && n <= |Written(us)|
    ensures Scan(Written(us)[..n], false) == (Value(us[..Whole(us, n)]), false)
  {
    if us == [] {
      assert Written(us)[..n] == [];
    } else {
      var first, w := UnitText(us[0]), Written(us);
      if n < |first| {
        assert us[..0] == [];
        if n == 1 { assert w[..n] == ['\\'] && w[..n][1..] == []; }
      } else {
        var k := Whole(us[1..], n - |first|);
        CutString(us[1..], n - |first|);
        OneUnit(us[0], Written(us[1..])[..n - |first|]);
        assert w[..n] == first + Written(us[1..])[..n - |first|];
        assert us[..k + 1][1..] == us[1..][..k];
      }
    }
  }

  lemma {:induction false} ValuePrefix(us: seq<Unit>, k: nat)
    requires k <= |us|
    ensures Value(us[..k]) <= Value(us)
  {
    if k > 0 {
      ValuePrefix(us[1..], k - 1);
      assert us[..k][1..] == us[1..][..k - 1];
    }
  }

  // ---- reaching the string ----

  predicate Blank(s: string) { forall i :: 0 <= i < |s| ==> IsSpace(s[i]) }

  lemma {:induction false} TrimBlank(ws: string, s: string)
    requires Blank(ws) && (s == [] || !IsSpace(s[0]))
    ensures TrimStart(ws + s) == s
  {
    if ws == [] {
      assert ws + s == s;
    } else {
      TrimBlank(ws[1..], s);
      assert (ws + s)[1..] == ws[1..] + s;
    }
  }

  /** `p` first occurs in `pre + p` at its end, so nowhere in `pre`, not even across the seam. */
  predicate FirstAt(pre: string, p: string) { FindText(pre + p, p) == Some(|pre|) }

  /** What follows the first occurrence does not matter. */
  lemma {:induction false} FoundInLonger(s: string, p: string, more: string)
    requires FindText(s, p).Some?
    ensures FindText(s + more, p) == FindText(s, p)
  {
    if StartsWith(s, p) {
      assert (s + more)[..|p|] == s[..|p|];
    } else if |s| >= |p| {
      FoundInLonger(s[1..], p, more);
      assert (s + more)[1..] == s[1..] + more && (s + more)[..|p|] == s[..|p|];
    } else {
      FoundIsInside(s, p);
    }
  }

  lemma {:induction false} NotFoundInPrefix(s: string, p: string, n: nat)
    requires FindText(s, p).Some? && n < FindText(s, p).value + |p| && n <= |s|
    ensures FindText(s[..n], p) == None
  {
    if StartsWith(s, p) {
      ShorterHasNone(s[..n], p);
    } else if n > 0 {
      NotFoundInPrefix(s[1..], p, n - 1);
      assert s[..n][1..] == s[1..][..n - 1];
      assert |p| <= n ==> s[..n][..|p|] == s[..|p|];
    } else {
      ShorterHasNone(s[..n], p);
    }
  }

  lemma {:induction false} ShorterHasNone(s: string, p: string)
    requires |s| < |p|
    ensures FindText(s, p) == None
  {
    if s != [] { ShorterHasNone(s[1..], p); }
  }

  /** From the needle on: what the extraction makes of the text that follows it. */
  function AfterNeedle(rest: string): Option<string> {
    match SplitOnce(rest, ':')
    case None => None
    case Some((_, after)) =>
      var value := TrimStart(after);
      if value == [] || value[0] != '"' then None else Answer(Scan(value[1..], false))
  }

  lemma ExtractAfter(pre: string, key: string, rest: string)
    requires FirstAt(pre, Needle(key))
    ensures Extract(pre + Needle(key) + rest, key) == AfterNeedle(rest)
  {
    var needle := Needle(key);
    FoundInLonger(pre + needle, needle, rest);
    assert (pre + needle + rest)[|pre| + |needle|..] == rest;
  }

  lemma AfterColon(mid: string, ws: string, s: string)
    requires ':' !in mid && Blank(ws)
    ensures AfterNeedle(mid + ":" + ws + "\"" + s) == Answer(Scan(s, false))
  {
    hide Scan, Answer, TrimStart;
    SplitOnceAfter(mid, ':', ws + "\"" + s);
    assert mid + ":" + ws + "\"" + s == mid + [':'] + (ws + "\"" + s);
    TrimBlank(ws, "\"" + s);
    assert ws + "\"" + s == ws + ("\"" + s) && ("\"" + s)[1..] == s;
  }

  lemma BeforeTheQuote(mid: string, ws: string, n: nat)
    requires ':' !in mid && Blank(ws) && n <= |mid| + 1 + |ws|
    ensures AfterNeedle((mid + ":" + ws)[..n]) == None
  {
    hide Scan, Answer, TrimStart;
    var s := mid + ":" + ws;
    if n <= |mid| {
      assert s[..n] == mid[..n];
      SplitOnceNone(mid[..n], ':');
    } else {
      var spaces := ws[..n - |mid| - 1];
      assert s[..n] == mid + [':'] + spaces;
      SplitOnceAfter(mid, ':', spaces);
      TrimBlank(spaces, []);
      assert spaces + [] == spaces;
    }
  }

  /** The text of a first field: what comes before its name, then the name, and a string value. */
  function FieldText(pre: string, key: string, mid: string, ws: string, us: seq<Unit>, rest: string): string {
    pre + ("\"" + key + "\"") + (mid + ":" + ws + "\"" + (Written(us) + "\"" + rest))
  }

  /** Where the value starts. */
  function Opening(pre: string, key: string, mid: string, ws: string): nat { |pre| + |key| + 2 + |mid| + 1 + |ws| + 1 }

  /** What a text whose units `read` arrived yields: nothing while there is none. */
  function Partial(read: seq<Unit>): Option<string> { if read == [] then None else Some(Value(read)) }

  lemma CutInValue(us: seq<Unit>, rest: string, n: nat)
    requires Valid(us) && n <= |Written(us) + "\"" + rest|
    ensures Answer(Scan((Written(us) + "\"" + rest)[..n], false)) ==
            if n > |Written(us)| then Some(Value(us)) else Partial(us[..Whole(us, n)])
  {
    var w, s := Written(us), Written(us) + "\"" + rest;
    if n > |w| {
      var rest' := rest[..n - |w| - 1];
      assert s[..n] == w + "\"" + rest';
      hide Scan, Written, Value;
      WholeString(us, rest');
    } else {
      assert s[..n] == w[..n];
      hide Scan, Written, Whole;
      CutString(us, n);
    }
  }

  /** Cut anywhere, the text of the object yields exactly what arrived of the field's value: nothing
      before the value has begun, the units wholly before the cut within it, and all of it once the
      closing quote is there. */
  lemma CutAnywhere(pre: string, key: string, mid: string, ws: string, us: seq<Unit>, rest: string, n: nat)
    requires FirstAt(pre, "\"" + key + "\"") && ':' !in mid && Blank(ws) && Valid(us)
    requires n <= |FieldText(pre, key, mid, ws, us, rest)|
    ensures var (r, m) := (Extract(FieldText(pre, key, mid, ws, us, rest)[..n], key), n - Opening(pre, key, mid, ws));
            r == if m < 0 then None
                 else if m > |Written(us)| then Some(Value(us))
                 else Partial(us[..Whole(us, m)])
    ensures var r := Extract(FieldText(pre, key, mid, ws, us, rest)[..n], key); r.Some? ==> r.value <= Value(us)
  {
    hide Scan, Extract, AfterNeedle, Written, Value, FindText, Answer, FirstAt, Whole, Partial;
    var needle, start, s := Needle(key), |pre| + |Needle(key)|, Written(us) + "\"" + rest;
    var text, lead := FieldText(pre, key, mid, ws, us, rest), mid + ":" + ws;
    if n < start {
      assert text[..n] == (pre + needle)[..n];
      TooShort(pre, key, n);
    } else if n < Opening(pre, key, mid, ws) {
      var m := n - start;
      assert text[..n] == pre + needle + lead[..m];
      ExtractAfter(pre, key, lead[..m]);
      BeforeTheQuote(mid, ws, m);
    } else {
      var m := n - Opening(pre, key, mid, ws);
      assert text[..n] == pre + needle + (lead + "\"" + s[..m]);
      ExtractAfter(pre, key, lead + "\"" + s[..m]);
      AfterColon(mid, ws, s[..m]);
      CutInValue(us, rest, m);
      PartialIsPrefix(us, m);
    }
  }

  /** So what comes out is always a first part of the value. */
  lemma PartialIsPrefix(us: seq<Unit>, n: nat)
    ensures Partial(us[..Whole(us, n)]).Some? ==> Partial(us[..Whole(us, n)]).value <= Value(us)
  {
    ValuePrefix(us, Whole(us, n));
  }

  lemma TooShort(pre: string, key: string, n: nat)
    requires FirstAt(pre, Needle(key)) && n < |pre| + |Needle(key)|
    ensures Extract((pre + Needle(key))[..n], key) == None
  {
    NotFoundInPrefix(pre + Needle(key), Needle(key), n);
  }
}
