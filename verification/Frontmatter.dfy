/**
The knowledge base's storage format (crates/ravn-server/src/knowledge.rs:98-307): a markdown entry
behind a hand-written front matter, its printer and its parser, with the nested parsers for
parameters and outcomes. The main result is that what is printed reads back.

How timestamps are written is a parameter: `Codec` stands for `to_rfc3339` and `parse_from_rfc3339`.
*/
module Frontmatter {
  import opened Options
  import opened Text
  import opened Lines
  import opened Decimal

  datatype Codec = Codec(show: int -> string, read: string -> Option<int>)

  datatype Outcome = Outcome(ts: int, result: string, ttrS: Option<int>, approver: string)

  /** A `BTreeMap<String, String>` as its entries in key order. */
  type Params = seq<(string, string)>

  datatype Entry = Entry(
    faultSignature: string, templateUsed: string, params: Params, outcomes: seq<Outcome>,
    occurrences: nat, lastSeen: int, body: string)

  datatype ParseError = NoOpener | NoCloser

  // ---- ordered maps ----

  /** Lexicographic order on code points. */
  predicate Less(a: string, b: string) {
    if b == [] then false
    else if a == [] then true
    else a[0] < b[0] || (a[0] == b[0] && Less(a[1..], b[1..]))
  }

  predicate Sorted(m: Params) { forall i, j :: 0 <= i < j < |m| ==> Less(m[i].0, m[j].0) }

  function Insert(m: Params, k: string, v: string): Params {
    if m == [] then [(k, v)]
    else if Less(k, m[0].0) then [(k, v)] + m
    else if k == m[0].0 then [(k, v)] + m[1..]
    else [m[0]] + Insert(m[1..], k, v)
  }

  lemma {:induction false} LessIsStrict(a: string, b: string)
    requires Less(a, b)
    ensures !Less(b, a) && a != b
  {
    if a != [] && a[0] == b[0] { LessIsStrict(a[1..], b[1..]); }
  }

  lemma {:induction false} InsertLargest(m: Params, k: string, v: string)
    requires forall i :: 0 <= i < |m| ==> Less(m[i].0, k)
    ensures Insert(m, k, v) == m + [(k, v)]
  {
    if m != [] {
      LessIsStrict(m[0].0, k);
      InsertLargest(m[1..], k, v);
      assert [m[0]] + m[1..] == m;
    }
  }

  // ---- printing ----

  datatype Field = Signature | Template | Parameters | Occurrences | Seen

  function Key(f: Field): string {
    match f
    case Signature => "fault_signature:"
    case Template => "template_used:"
    case Parameters => "params:"
    case Occurrences => "occurrences:"
    case Seen => "last_seen:"
  }

  const OUTCOMES: string := "outcomes:"
  const OPENER: string := "---\n"

  function Quoted(s: string): string { "\"" + s + "\"" }

  function PairText(kv: (string, string)): string { kv.0 + ":" + (" " + kv.1) }

  function RenderParams(m: Params): string {
    if m == [] then ""
    else if |m| == 1 then PairText(m[0])
    else PairText(m[0]) + "," + (" " + RenderParams(m[1..]))
  }

  function Braced(s: string): string { "{ " + s + " }" }

  function TtrText(t: Option<int>): string { if t.Some? then Show(t.value) else "null" }

  function OutcomeFields(c: Codec, o: Outcome): string {
    ("ts" + ":" + (" " + c.show(o.ts))) + "," +
    ((" result" + ":" + (" " + o.result)) + "," +
     ((" ttr_s" + ":" + (" " + TtrText(o.ttrS))) + "," +
      (" approver" + ":" + (" " + Quoted(o.approver)))))
  }

  function OutcomeText(c: Codec, o: Outcome): string { Braced(OutcomeFields(c, o)) }

  function ItemLine(c: Codec, o: Outcome): string { "  - " + OutcomeText(c, o) }

  function FieldText(f: Field, v: string): string { Key(f) + " " + v }

  function Items(c: Codec, os: seq<Outcome>): seq<string> {
    seq(|os|, i requires 0 <= i < |os| => ItemLine(c, os[i]))
  }

  function OutcomeLines(c: Codec, os: seq<Outcome>): seq<string> {
    if os == [] then ["outcomes: []"] else [OUTCOMES] + Items(c, os)
  }

  function HeadLines(e: Entry): seq<string> {
    [FieldText(Signature, Quoted(e.faultSignature)), FieldText(Template, e.templateUsed),
     FieldText(Parameters, Braced(RenderParams(e.params)))]
  }

  function TailLines(c: Codec, e: Entry): seq<string> {
    [FieldText(Occurrences, Show(e.occurrences)), FieldText(Seen, c.show(e.lastSeen))]
  }

  function FrontLines(c: Codec, e: Entry): seq<string> { HeadLines(e) + OutcomeLines(c, e.outcomes) + TailLines(c, e) }

  function WithNewline(body: string): string { if body != [] && body[|body| - 1] == '\n' then body else body + "\n" }

  /** The printed entry. */
  function Markdown(c: Codec, e: Entry): string { OPENER + Unlines(FrontLines(c, e)) + OPENER + WithNewline(e.body) }

  lemma AddLine(ls: seq<string>, l: string)
    ensures Unlines(ls + [l]) == Unlines(ls) + l + "\n"
  {
    UnlinesAppend(ls, [l]);
    assert [l][1..] == [] && Unlines([l]) == l + ['\n'];
  }

  /** `to_markdown`: a string that grows line by line. */
  method ToMarkdown(c: Codec, e: Entry) returns (s: string)
    ensures s == Markdown(c, e)
  {
    hide *;
    ghost var ls: seq<string> := [];
    s := OPENER;
    var head := HeadLines(e);
    NoLines();
    for i := 0 to |head|
      invariant ls == head[..i] && s == OPENER + Unlines(ls)
    {
      AddLine(ls, head[i]);
      s := s + head[i] + "\n";
      ls := ls + [head[i]];
    }
    if e.outcomes == [] {
      AddLine(ls, "outcomes: []");
      s := s + "outcomes: []" + "\n";
      ls := ls + ["outcomes: []"];
    } else {
      OneMoreItem(c, e.outcomes, 0);
      AddLine(ls, OUTCOMES);
      s := s + OUTCOMES + "\n";
      ls := ls + [OUTCOMES];
      for i := 0 to |e.outcomes|
        invariant ls == head + [OUTCOMES] + Items(c, e.outcomes[..i]) && s == OPENER + Unlines(ls)
      {
        var l := ItemLine(c, e.outcomes[i]);
        AddLine(ls, l);
        OneMoreItem(c, e.outcomes, i);
        s := s + l + "\n";
        ls := ls + [l];
      }
      assert e.outcomes[..|e.outcomes|] == e.outcomes;
    }
    FrontIs(c, e, ls);
    var tail := TailLines(c, e);
    for i := 0 to |tail|
      invariant ls == head + OutcomeLines(c, e.outcomes) + tail[..i] && s == OPENER + Unlines(ls)
    {
      AddLine(ls, tail[i]);
      s := s + tail[i] + "\n";
      ls := ls + [tail[i]];
    }
    s := s + OPENER + e.body;
    if e.body == [] || e.body[|e.body| - 1] != '\n' {
      s := s + "\n";
    }
    assert tail[..|tail|] == tail;
    MarkdownIs(c, e, ls, s);
  }

  lemma NoLines()
    ensures Unlines([]) == []
  {
  }

  lemma OneMoreItem(c: Codec, os: seq<Outcome>, i: nat)
    requires i < |os|
    ensures Items(c, os[..0]) == []
    ensures Items(c, os[..i + 1]) == Items(c, os[..i]) + [ItemLine(c, os[i])]
  {
  }

  lemma FrontIs(c: Codec, e: Entry, ls: seq<string>)
    requires ls == HeadLines(e) + (if e.outcomes == [] then ["outcomes: []"] else [OUTCOMES] + Items(c, e.outcomes))
    ensures ls == HeadLines(e) + OutcomeLines(c, e.outcomes)
  {
  }

  lemma MarkdownIs(c: Codec, e: Entry, ls: seq<string>, s: string)
    requires ls == HeadLines(e) + OutcomeLines(c, e.outcomes) + TailLines(c, e)
    requires s == OPENER + Unlines(ls) + OPENER + e.body + (if e.body == [] || e.body[|e.body| - 1] != '\n' then "\n" else "")
    ensures s == Markdown(c, e)
  {
    hide Unlines, HeadLines, OutcomeLines, TailLines;
    assert ls == FrontLines(c, e);
  }

  lemma Labelled(name: string, v: string)
    ensures name + ":" + (" " + v) == name + ": " + v
  {
  }

  /** An outcome's line on disk. */
  lemma OutcomeOnDisk(c: Codec, o: Outcome)
    ensures ItemLine(c, o) ==
            "  - " + ("{ " + (("ts: " + c.show(o.ts)) + "," + ((" result: " + o.result) + "," +
                     ((" ttr_s: " + (if o.ttrS.Some? then Show(o.ttrS.value) else "null")) + "," +
                      (" approver: " + ("\"" + o.approver + "\""))))) + " }")
  {
    hide Show;
    Labelled("ts", c.show(o.ts));
    Labelled(" result", o.result);
    Labelled(" ttr_s", TtrText(o.ttrS));
    Labelled(" approver", Quoted(o.approver));
    assert "ts" + ": " == "ts: " && " result" + ": " == " result: ";
    assert " ttr_s" + ": " == " ttr_s: " && " approver" + ": " == " approver: ";
  }

  /** The lines on disk of an entry, here one with two parameters. */
  lemma EntryOnDisk(c: Codec, e: Entry, k: string, v: string, l: string, w: string)
    requires e.params == [(k, v), (l, w)]
    ensures FrontLines(c, e) ==
            ["fault_signature: " + ("\"" + e.faultSignature + "\""), "template_used: " + e.templateUsed,
             "params: " + ("{ " + (k + ":" + (" " + v) + "," + (" " + (l + ":" + (" " + w)))) + " }")]
            + (if e.outcomes == [] then ["outcomes: []"] else ["outcomes:"] + Items(c, e.outcomes))
            + ["occurrences: " + Show(e.occurrences), "last_seen: " + c.show(e.lastSeen)]
    ensures Markdown(c, e) == "---\n" + Unlines(FrontLines(c, e)) + "---\n" + WithNewline(e.body)
  {
    hide Show, Unlines, Items, RenderParams;
    TwoParams(e.params, k, v, l, w);
    assert "fault_signature:" + " " == "fault_signature: " && "template_used:" + " " == "template_used: ";
    assert "params:" + " " == "params: " && "occurrences:" + " " == "occurrences: " && "last_seen:" + " " == "last_seen: ";
  }

  lemma TwoParams(m: Params, k: string, v: string, l: string, w: string)
    requires m == [(k, v), (l, w)]
    ensures RenderParams(m) == k + ":" + (" " + v) + "," + (" " + (l + ":" + (" " + w)))
  {
    assert m[1..] == [(l, w)];
  }

  // ---- parsing ----

  function TrimMatches(s: string, c: char): string { TrimEndMatches(TrimStartMatches(s, c), c) }

  function Unquote(s: string): string { TrimMatches(Trim(s), '"') }

  /** What stands between the braces. */
  function Inner(raw: string): string { Trim(TrimEndMatches(TrimStartMatches(Trim(raw), '{'), '}')) }

  function ParsePairs(pieces: seq<string>, m: Params): Params {
    if pieces == [] then m
    else
      match SplitOnce(pieces[0], ':')
      case None => ParsePairs(pieces[1..], m)
      case Some((k, v)) => ParsePairs(pieces[1..], Insert(m, Trim(k), Trim(v)))
  }

  function ParseParams(raw: string): Params {
    if Inner(raw) == [] then [] else ParsePairs(Split(Inner(raw), ','), [])
  }

  method ParseParamsLoop(raw: string) returns (m: Params)
    ensures m == ParseParams(raw)
  {
    hide Insert, Trim, SplitOnce, Split, Inner;
    m := [];
    var inner := Inner(raw);
    if inner == [] {
      return;
    }
    var pieces := Split(inner, ',');
    for i := 0 to |pieces|
      invariant ParsePairs(pieces, []) == ParsePairs(pieces[i..], m)
    {
      assert pieces[i..][1..] == pieces[i + 1..];
      match SplitOnce(pieces[i], ':')
      case None =>
      case Some((k, v)) => m := Insert(m, Trim(k), Trim(v));
    }
  }

  const QUOTE: char := '"'

  function Deeper(c: char, depth: int, quoted: bool): int {
    if quoted then depth else if c == '{' || c == '[' then depth + 1 else if c == '}' || c == ']' then depth - 1 else depth
  }

  /** The pieces between the commas outside quotes and outside brackets, scanning on from the given
      nesting depth and quote state. */
  function SplitTop(s: string, depth: int, quoted: bool): (r: seq<string>)
    ensures r != []
  {
    if s == [] then [[]]
    else if s[0] == '"' then Glue(['"'], SplitTop(s[1..], depth, !quoted))
    else if s[0] == ',' && depth == 0 && !quoted then [[]] + SplitTop(s[1..], depth, quoted)
    else Glue([s[0]], SplitTop(s[1..], Deeper(s[0], depth, quoted), quoted))
  }

  lemma GlueGlue(a: string, b: string, pieces: seq<string>)
    requires pieces != []
    ensures Glue(a, Glue(b, pieces)) == Glue(a + b, pieces)
  {
    assert a + (b + pieces[0]) == (a + b) + pieces[0];
  }

  lemma GlueNothing(pieces: seq<string>)
    requires pieces != []
    ensures Glue([], pieces) == pieces
  {
    assert [] + pieces[0] == pieces[0];
  }

  lemma ScanStep(s: string, start: nat, i: nat, depth: int, quoted: bool)
    requires start <= i < |s|
    ensures Glue(s[start..i], SplitTop(s[i..], depth, quoted)) ==
            if s[i] == QUOTE then Glue(s[start..i + 1], SplitTop(s[i + 1..], depth, !quoted))
            else if s[i] == ',' && depth == 0 && !quoted
            then [s[start..i]] + Glue(s[i + 1..i + 1], SplitTop(s[i + 1..], depth, quoted))
            else Glue(s[start..i + 1], SplitTop(s[i + 1..], Deeper(s[i], depth, quoted), quoted))
  {
    hide Glue, Deeper;
    assert s[i..][1..] == s[i + 1..] && s[start..i] + [s[i]] == s[start..i + 1] && s[i + 1..i + 1] == [];
    if s[i] == QUOTE {
      GlueGlue(s[start..i], [s[i]], SplitTop(s[i + 1..], depth, !quoted));
    } else if s[i] == ',' && depth == 0 && !quoted {
      CutHere(s[start..i], SplitTop(s[i + 1..], depth, quoted));
      GlueNothing(SplitTop(s[i + 1..], depth, quoted));
    } else {
      GlueGlue(s[start..i], [s[i]], SplitTop(s[i + 1..], Deeper(s[i], depth, quoted), quoted));
    }
  }

  /** `split_top_level`: one scan with a bracket depth and a quote flag. */
  method SplitTopLevel(s: string) returns (parts: seq<string>)
    ensures parts == SplitTop(s, 0, false)
  {
    hide Glue, SplitTop;
    parts := [];
    var depth: int, start, quoted := 0, 0, false;
    GlueNothing(SplitTop(s, 0, false));
    assert s[0..0] == [] && s[0..] == s;
    for i := 0 to |s|
      invariant 0 <= start <= i
      invariant SplitTop(s, 0, false) == parts + Glue(s[start..i], SplitTop(s[i..], depth, quoted))
    {
      var ch := s[i];
      ScanStep(s, start, i, depth, quoted);
      if ch == '"' {
        quoted := !quoted;
      } else if ch == ',' && depth == 0 && !quoted {
        parts := parts + [s[start..i]];
        start := i + 1;
      } else if !quoted && (ch == '{' || ch == '[') {
        depth := depth + 1;
      } else if !quoted && (ch == '}' || ch == ']') {
        depth := depth - 1;
      }
    }
    LastPiece(s[start..], depth, quoted);
    assert s[start..|s|] == s[start..] && s[|s|..] == [];
    parts := parts + [s[start..]];
  }

  lemma CutHere(a: string, pieces: seq<string>)
    requires pieces != []
    ensures Glue(a, [[]] + pieces) == [a] + pieces
  {
    assert a + [] == a;
  }

  lemma LastPiece(a: string, depth: int, quoted: bool)
    ensures Glue(a, SplitTop([], depth, quoted)) == [a]
  {
    assert a + [] == a;
  }

  // ---- where a text is split ----

  function Quotes(s: string): nat { if s == [] then 0 else Quotes(s[..|s| - 1]) + (if s[|s| - 1] == '"' then 1 else 0) }

  /** How many brackets are open at the end of `s`, those inside quotes not counted. */
  function Nesting(s: string): int {
    if s == [] then 0
    else
      var front, c := s[..|s| - 1], s[|s| - 1];
      if Quotes(front) % 2 == 1 then Nesting(front)
      else if c in {'{', '['} then Nesting(front) + 1
      else if c in {'}', ']'} then Nesting(front) - 1
      else Nesting(front)
  }

  /** A comma separates when as many quotes were closed as opened before it, and as many brackets. */
  predicate Separates(s: string, i: nat)
    requires i < |s|
  {
    s[i] == ',' && Quotes(s[..i]) % 2 == 0 && Nesting(s[..i]) == 0
  }

  /** The positions from `k` on that separate. */
  function Separators(s: string, k: nat): (cuts: seq<nat>)
    requires k <= |s|
    ensures forall m :: 0 <= m < |cuts| ==> k <= cuts[m] < |s| && Separates(s, cuts[m])
    ensures forall i :: k <= i < |s| && Separates(s, i) ==> i in cuts
    ensures forall m, n :: 0 <= m < n < |cuts| ==> cuts[m] < cuts[n]
    decreases |s| - k
  {
    if k == |s| then [] else if Separates(s, k) then [k] + Separators(s, k + 1) else Separators(s, k + 1)
  }

  /** The stretches from `k` on between the given positions. */
  function Stretches(s: string, k: nat, cuts: seq<nat>): (pieces: seq<string>)
    requires k <= |s|
    requires forall m :: 0 <= m < |cuts| ==> k <= cuts[m] < |s|
    requires forall m, n :: 0 <= m < n < |cuts| ==> cuts[m] < cuts[n]
    ensures pieces != []
    decreases |cuts|
  {
    if cuts == [] then [s[k..]] else [s[k..cuts[0]]] + Stretches(s, cuts[0] + 1, cuts[1..])
  }

  lemma {:induction false} SplitsFrom(s: string, k: nat)
    requires k <= |s|
    ensures SplitTop(s[k..], Nesting(s[..k]), Quotes(s[..k]) % 2 == 1) == Stretches(s, k, Separators(s, k))
    decreases |s| - k
  {
    hide *;
    SplitStep(s, k);
    SeparatorsStep(s, k);
    if k < |s| {
      SplitsFrom(s, k + 1);
      var cuts := Separators(s, k + 1);
      if Separates(s, k) { StretchesCut(s, k, cuts); } else { StretchesGrow(s, k, cuts); }
    } else {
      NoMoreStretches(s, k);
    }
  }

  /** One step of the scan, with depth and quote state read off the text before it. */
  lemma SplitStep(s: string, k: nat)
    requires k <= |s|
    ensures var pieces := SplitTop(s[k..], Nesting(s[..k]), Quotes(s[..k]) % 2 == 1);
            if k == |s| then pieces == [[]]
            else
              var rest := SplitTop(s[k + 1..], Nesting(s[..k + 1]), Quotes(s[..k + 1]) % 2 == 1);
              pieces == if Separates(s, k) then [[]] + rest else Glue([s[k]], rest)
  {
    hide Glue, Quotes, Nesting;
    if k < |s| {
      assert s[k..][1..] == s[k + 1..];
      StateAfter(s, k);
    }
  }

  lemma StateAfter(s: string, k: nat)
    requires k < |s|
    ensures Quotes(s[..k + 1]) == Quotes(s[..k]) + (if s[k] == QUOTE then 1 else 0)
    ensures Nesting(s[..k + 1]) == Deeper(s[k], Nesting(s[..k]), Quotes(s[..k]) % 2 == 1)
  {
    assert s[..k + 1][..k] == s[..k];
  }

  lemma SeparatorsStep(s: string, k: nat)
    requires k <= |s|
    ensures Separators(s, k) ==
            if k == |s| then [] else if Separates(s, k) then [k] + Separators(s, k + 1) else Separators(s, k + 1)
    ensures forall m :: 0 <= m < |Separators(s, k)| ==> k <= Separators(s, k)[m] < |s|
    ensures forall m, n :: 0 <= m < n < |Separators(s, k)| ==> Separators(s, k)[m] < Separators(s, k)[n]
  {
    hide Separates;
  }

  lemma StretchesCut(s: string, k: nat, cuts: seq<nat>)
    requires k < |s| && forall m :: 0 <= m < |cuts| ==> k + 1 <= cuts[m] < |s|
    requires forall m, n :: 0 <= m < n < |cuts| ==> cuts[m] < cuts[n]
    ensures Stretches(s, k, [k] + cuts) == [[]] + Stretches(s, k + 1, cuts)
  {
    assert ([k] + cuts)[1..] == cuts && s[k..k] == [];
  }

  lemma StretchesGrow(s: string, k: nat, cuts: seq<nat>)
    requires k < |s| && forall m :: 0 <= m < |cuts| ==> k + 1 <= cuts[m] < |s|
    requires forall m, n :: 0 <= m < n < |cuts| ==> cuts[m] < cuts[n]
    ensures Stretches(s, k, cuts) == Glue([s[k]], Stretches(s, k + 1, cuts))
  {
    if cuts == [] {
      assert s[k..] == [s[k]] + s[k + 1..];
    } else {
      assert s[k..cuts[0]] == [s[k]] + s[k + 1..cuts[0]];
    }
  }

  lemma NoMoreStretches(s: string, k: nat)
    requires k == |s|
    ensures Stretches(s, k, []) == [[]]
  {
    assert s[k..] == [];
  }

  /** The pieces are the stretches between exactly the commas that stand outside quotes and outside brackets. */
  lemma SplitsExactlyAtSeparators(s: string)
    ensures SplitTop(s, 0, false) == Stretches(s, 0, Separators(s, 0))
  {
    hide *;
    SplitsFrom(s, 0);
    assert s[0..] == s && s[..0] == [];
    NothingOpen();
  }

  lemma NothingOpen()
    ensures Quotes([]) == 0 && Nesting([]) == 0
  {
  }

  datatype Draft = Draft(ts: Option<int>, result: Option<string>, ttrS: Option<int>, approver: string)

  function SetDraft(c: Codec, d: Draft, k: string, v: string): Draft {
    if k == "ts" then d.(ts := c.read(v))
    else if k == "result" then d.(result := Some(v))
    else if k == "ttr_s" then d.(ttrS := if v == "null" then None else ReadI64(v))
    else if k == "approver" then d.(approver := Unquote(v))
    else d
  }

  /** One piece without a colon spoils the whole outcome. */
  function ParseFields(c: Codec, pieces: seq<string>, d: Draft): Option<Draft> {
    if pieces == [] then Some(d)
    else
      match SplitOnce(pieces[0], ':')
      case None => None
      case Some((k, v)) => ParseFields(c, pieces[1..], SetDraft(c, d, Trim(k), Trim(v)))
  }

  const BLANK: Draft := Draft(None, None, None, "")

  function Finished(d: Option<Draft>): Option<Outcome> {
    if d.Some? && d.value.ts.Some? && d.value.result.Some?
    then Some(Outcome(d.value.ts.value, d.value.result.value, d.value.ttrS, d.value.approver))
    else None
  }

  function ParseOutcome(c: Codec, raw: string): Option<Outcome> {
    Finished(ParseFields(c, SplitTop(Inner(raw), 0, false), BLANK))
  }

  method ParseOutcomeLoop(c: Codec, raw: string) returns (o: Option<Outcome>)
    ensures o == ParseOutcome(c, raw)
  {
    hide SetDraft, Trim, SplitOnce, SplitTop, Inner;
    var pieces := SplitTopLevel(Inner(raw));
    var d := BLANK;
    for i := 0 to |pieces|
      invariant ParseFields(c, pieces, BLANK) == ParseFields(c, pieces[i..], d)
    {
      assert pieces[i..][1..] == pieces[i + 1..];
      match SplitOnce(pieces[i], ':')
      case None => return None;
      case Some((k, v)) => d := SetDraft(c, d, Trim(k), Trim(v));
    }
    if d.ts.None? || d.result.None? {
      return None;
    }
    o := Some(Outcome(d.ts.value, d.result.value, d.ttrS, d.approver));
  }

  /** Which field a line sets, in the order the prefixes are tried. */
  function Kind(line: string): Option<Field> {
    if StartsWith(line, Key(Signature)) then Some(Signature)
    else if StartsWith(line, Key(Template)) then Some(Template)
    else if StartsWith(line, Key(Parameters)) then Some(Parameters)
    else if StartsWith(line, Key(Occurrences)) then Some(Occurrences)
    else if StartsWith(line, Key(Seen)) then Some(Seen)
    else None
  }

  function Set(c: Codec, e: Entry, f: Field, v: string): Entry {
    match f
    case Signature => e.(faultSignature := Unquote(v))
    case Template => e.(templateUsed := v)
    case Parameters => e.(params := ParseParams(v))
    case Occurrences => e.(occurrences := if ReadU64(v).Some? then ReadU64(v).value else 0)
    case Seen => e.(lastSeen := if c.read(v).Some? then c.read(v).value else e.lastSeen)
  }

  /** The text of a list item, for an indented `- ` line. */
  function ItemOf(line: string): Option<string> {
    var t := TrimStart(line);
    if StartsWith(t, "- ") then Some(Trim(t[2..])) else None
  }

  function CountItems(ls: seq<string>): (n: nat)
    ensures n <= |ls|
  {
    if ls == [] || ItemOf(ls[0]).None? then 0 else 1 + CountItems(ls[1..])
  }

  function ItemsOf(c: Codec, ls: seq<string>): seq<Outcome> {
    if ls == [] || ItemOf(ls[0]).None? then []
    else
      match ParseOutcome(c, ItemOf(ls[0]).value)
      case None => ItemsOf(c, ls[1..])
      case Some(o) => [o] + ItemsOf(c, ls[1..])
  }

  function ParseFront(c: Codec, ls: seq<string>, e: Entry): Entry
    decreases |ls|
  {
    if ls == [] then e
    else
      var line := TrimEnd(ls[0]);
      if Kind(line).Some? then ParseFront(c, ls[1..], Set(c, e, Kind(line).value, Trim(line[|Key(Kind(line).value)|..])))
      else if Trim(line) == OUTCOMES then
        ParseFront(c, ls[1 + CountItems(ls[1..])..], e.(outcomes := e.outcomes + ItemsOf(c, ls[1..])))
      else ParseFront(c, ls[1..], e)
  }

  function FromMarkdown(c: Codec, text: string, now: int): Result<Entry, ParseError> {
    if !StartsWith(text, OPENER) then Err(NoOpener)
    else
      var rest := text[|OPENER|..];
      match FindText(rest, CLOSER)
      case None => Err(NoCloser)
      case Some(i) =>
        FoundIsInside(rest, CLOSER);
        Ok(ParseFront(c, Lines.Lines(rest[..i]), Entry("", "", [], [], 0, now, rest[i + |CLOSER|..])))
  }

  /** `from_markdown`: one pass over the lines, with an inner one over list items. `now` is the clock
      reading that an entry without a readable `last_seen` gets. */
  method FromMarkdownLoop(c: Codec, text: string, now: int) returns (r: Result<Entry, ParseError>)
    ensures r == FromMarkdown(c, text, now)
  {
    hide Set, Kind, ParseOutcome, TrimEnd, Trim, ItemOf, Lines.Lines, FindText, ParseFront, ItemsOf, CountItems;
    if !StartsWith(text, OPENER) {
      return Err(NoOpener);
    }
    var rest := text[|OPENER|..];
    var closer := FindText(rest, CLOSER);
    if closer.None? {
      return Err(NoCloser);
    }
    FoundIsInside(rest, CLOSER);
    var ls := Lines.Lines(rest[..closer.value]);
    var e := Entry("", "", [], [], 0, now, rest[closer.value + |CLOSER|..]);
    ghost var all := ParseFront(c, ls, e);
    var i := 0;
    assert ls[0..] == ls;
    while i < |ls|
      invariant i <= |ls| && ParseFront(c, ls[i..], e) == all
    {
      var line := TrimEnd(ls[i]);
      var kind := Kind(line);
      ParseFrontStep(c, ls, i, e);
      i := i + 1;
      if kind.Some? {
        KindStarts(line);
        e := Set(c, e, kind.value, Trim(line[|Key(kind.value)|..]));
      } else if Trim(line) == OUTCOMES {
        i, e := TakeItems(c, ls, i, e);
      }
    }
    ParseFrontEnd(c, ls, i, e);
    r := Ok(e);
  }

  lemma ParseFrontStep(c: Codec, ls: seq<string>, i: nat, e: Entry)
    requires i < |ls|
    ensures var line := TrimEnd(ls[i]);
            && (Kind(line).Some? ==> |Key(Kind(line).value)| <= |line|)
            && ParseFront(c, ls[i..], e) ==
               (if Kind(line).Some? then ParseFront(c, ls[i + 1..], Set(c, e, Kind(line).value, Trim(line[|Key(Kind(line).value)|..])))
                else if Trim(line) == OUTCOMES then
                  ParseFront(c, ls[i + 1 + CountItems(ls[i + 1..])..], e.(outcomes := e.outcomes + ItemsOf(c, ls[i + 1..])))
                else ParseFront(c, ls[i + 1..], e))
  {
    hide Set, Trim, TrimEnd, ItemsOf, CountItems;
    var n := CountItems(ls[i + 1..]);
    assert ls[i..][1..] == ls[i + 1..] && ls[i..][1 + n..] == ls[i + 1 + n..];
  }

  lemma ParseFrontEnd(c: Codec, ls: seq<string>, i: nat, e: Entry)
    requires i == |ls|
    ensures ParseFront(c, ls[i..], e) == e
  {
  }

  /** The inner loop over the items of the block list. */
  method TakeItems(c: Codec, ls: seq<string>, from: nat, before: Entry) returns (i: nat, e: Entry)
    requires from <= |ls|
    ensures i == from + CountItems(ls[from..])
    ensures e == before.(outcomes := before.outcomes + ItemsOf(c, ls[from..]))
  {
    hide ParseOutcome, ItemOf, TrimStart, Trim;
    i, e := from, before;
    while i < |ls| && ItemOf(ls[i]).Some?
      invariant from <= i <= |ls| && e == before.(outcomes := e.outcomes)
      invariant before.outcomes + ItemsOf(c, ls[from..]) == e.outcomes + ItemsOf(c, ls[i..])
      invariant from + CountItems(ls[from..]) == i + CountItems(ls[i..])
    {
      var o := ParseOutcomeLoop(c, ItemOf(ls[i]).value);
      assert ls[i..][1..] == ls[i + 1..];
      if o.Some? {
        e := e.(outcomes := e.outcomes + [o.value]);
      }
      i := i + 1;
    }
  }

  lemma KindStarts(line: string)
    requires Kind(line).Some?
    ensures |Key(Kind(line).value)| <= |line|
  {
  }
}
