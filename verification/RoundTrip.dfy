/** Printed knowledge-base entries read back (crates/ravn-server/src/knowledge.rs:124-290). */
module RoundTrip {
  import opened Options
  import opened Text
  import opened Lines
  import opened Decimal
  import opened Frontmatter

  // ---- what can be printed ----

  /** None of the characters that outcome splitting looks at. */
  predicate PlainChar(ch: char) { ch !in {'"', '{', '}', '[', ']', ',', '\n'} }

  predicate Plain(s: string) { forall i :: 0 <= i < |s| ==> PlainChar(s[i]) }

  predicate NoQuoteEnds(s: string) { s == [] || (s[0] != '"' && s[|s| - 1] != '"') }

  ghost predicate TimeOk(c: Codec, t: int) { c.read(c.show(t)) == Some(t) && Trimmed(c.show(t)) && Plain(c.show(t)) && c.show(t) != [] }

  ghost predicate PrintableOutcome(c: Codec, o: Outcome) {
    && TimeOk(c, o.ts)
    && Trimmed(o.result) && Plain(o.result)
    && (o.ttrS.Some? ==> I64_MIN <= o.ttrS.value <= I64_MAX)
    && '"' !in o.approver && '\n' !in o.approver
  }

  predicate PrintableParam(kv: (string, string)) {
    && Trimmed(kv.0) && ',' !in kv.0 && ':' !in kv.0 && '\n' !in kv.0
    && Trimmed(kv.1) && ',' !in kv.1 && '\n' !in kv.1
  }

  predicate PrintableParams(m: Params) { Sorted(m) && forall i :: 0 <= i < |m| ==> PrintableParam(m[i]) }

  ghost predicate Printable(c: Codec, e: Entry) {
    && '\n' !in e.faultSignature && NoQuoteEnds(e.faultSignature)
    && Trimmed(e.templateUsed) && '\n' !in e.templateUsed
    && PrintableParams(e.params)
    && (forall i :: 0 <= i < |e.outcomes| ==> PrintableOutcome(c, e.outcomes[i]))
    && e.occurrences <= U64_MAX && TimeOk(c, e.lastSeen)
  }

  // ---- trimming and quoting ----

  lemma {:induction false} TrimEndKeeps(a: string, b: string)
    requires b != [] && !IsSpace(b[|b| - 1])
    ensures TrimEnd(a + b) == a + b
  {
  }

  lemma TrimEndSpace(a: string)
    ensures TrimEnd(a + " ") == TrimEnd(a)
  {
    assert (a + " ")[..|a|] == a;
  }

  lemma TrimStartSpace(a: string)
    ensures TrimStart(" " + a) == TrimStart(a)
  {
    assert (" " + a)[1..] == a;
  }

  lemma TrimSpaced(v: string)
    requires Trimmed(v)
    ensures Trim(" " + v) == v
  {
    TrimStartSpace(v);
    TrimmedIsKept(v);
  }

  lemma {:induction false} NoLeading(s: string, c: char)
    requires s == [] || s[0] != c
    ensures TrimStartMatches(s, c) == s
  {
  }

  lemma NoTrailing(s: string, c: char)
    requires s == [] || s[|s| - 1] != c
    ensures TrimEndMatches(s, c) == s
  {
  }

  lemma {:induction false} TrimMatchesEnds(s: string, c: char)
    ensures var t := TrimStartMatches(s, c); t == [] || t[0] != c
    ensures |TrimStartMatches(s, c)| <= |s|
  {
    if s != [] && s[0] == c { TrimMatchesEnds(s[1..], c); }
  }

  lemma {:induction false} TrimEndMatchesPrefix(s: string, c: char)
    ensures var t := TrimEndMatches(s, c); |t| <= |s| && t == s[..|t|] && (t == [] || t[|t| - 1] != c)
  {
    if s != [] && s[|s| - 1] == c { TrimEndMatchesPrefix(s[..|s| - 1], c); }
  }

  /** Quoting survives unquoting exactly for texts that neither start nor end with a quote. */
  lemma UnquoteQuoted(s: string)
    ensures Unquote(Quoted(s)) == s <==> NoQuoteEnds(s)
  {
    TrimmedIsKept(Quoted(s));
    assert Quoted(s)[1..] == s + "\"";
    if NoQuoteEnds(s) {
      if s == [] {
        assert TrimStartMatches("\"", '"') == TrimStartMatches([], '"');
      } else {
        NoLeading(s + "\"", '"');
        assert (s + "\"")[..|s|] == s;
        NoTrailing(s, '"');
      }
    } else {
      var t := TrimStartMatches(Quoted(s), '"');
      TrimMatchesEnds(Quoted(s), '"');
      TrimEndMatchesPrefix(t, '"');
    }
  }

  lemma TrimBetweenSpaces(x: string)
    ensures Trim(" " + x + " ") == Trim(x)
  {
    if TrimStart(x) == [] {
      AllSpaces(x, " ");
      assert " " + x + " " == " " + (x + " ");
      TrimStartSpace(x + " ");
    } else {
      TrimStartAppend(x, " ");
      assert " " + x + " " == " " + (x + " ");
      TrimStartSpace(x + " ");
      TrimEndSpace(TrimStart(x));
    }
  }

  lemma {:induction false} AllSpaces(x: string, y: string)
    requires TrimStart(x) == []
    ensures TrimStart(x + y) == TrimStart(y)
  {
    if x == [] {
      assert x + y == y;
    } else {
      AllSpaces(x[1..], y);
      assert (x + y)[1..] == x[1..] + y;
    }
  }

  lemma {:induction false} TrimStartAppend(x: string, y: string)
    requires TrimStart(x) != []
    ensures TrimStart(x + y) == TrimStart(x) + y
  {
    if IsSpace(x[0]) {
      TrimStartAppend(x[1..], y);
      assert (x + y)[1..] == x[1..] + y;
    }
  }

  /** The braces come off again; the text between them only loses outer white space. */
  lemma InnerOfBraced(x: string)
    ensures Inner(Braced(x)) == Trim(x)
  {
    hide Trim;
    var s := Braced(x);
    assert Trim(s) == s by { TrimmedIsKept(s); }
    assert s[1..] == " " + x + " }";
    NoLeading(" " + x + " }", '{');
    assert TrimStartMatches(s, '{') == " " + x + " }";
    assert (" " + x + " }")[..|x| + 2] == " " + x + " ";
    NoTrailing(" " + x + " ", '}');
    assert TrimEndMatches(" " + x + " }", '}') == " " + x + " ";
    TrimBetweenSpaces(x);
  }

  // ---- parameters ----

  /** The rendered parameters without the space that an empty last value leaves at the end. */
  function Tight(m: Params): string
    requires m != []
  {
    if |m| == 1 then (if m[0].1 == "" then m[0].0 + ":" else PairText(m[0]))
    else PairText(m[0]) + "," + (" " + Tight(m[1..]))
  }

  lemma {:induction false} RenderEnds(m: Params)
    requires m != [] && forall i :: 0 <= i < |m| ==> PrintableParam(m[i])
    ensures Tight(m) != [] && !IsSpace(Tight(m)[0]) && !IsSpace(Tight(m)[|Tight(m)| - 1])
    ensures RenderParams(m) == Tight(m) || RenderParams(m) == Tight(m) + " "
  {
    if |m| > 1 {
      RenderEnds(m[1..]);
      assert PrintableParam(m[0]);
      assert PairText(m[0]) + "," + (" " + (Tight(m[1..]) + " ")) == PairText(m[0]) + "," + (" " + Tight(m[1..])) + " ";
    } else {
      assert PrintableParam(m[0]);
      if m[0].1 == "" { assert PairText(m[0]) == m[0].0 + ":" + " "; }
    }
  }

  lemma TrimRendered(m: Params)
    requires m != [] && forall i :: 0 <= i < |m| ==> PrintableParam(m[i])
    ensures Trim(RenderParams(m)) == Tight(m) && Tight(m) != []
  {
    hide RenderParams, Tight;
    RenderEnds(m);
    var t := Tight(m);
    TrimmedIsKept(t);
    if RenderParams(m) != t {
      TrimStartAppend(t, " ");
      TrimEndSpace(t);
    }
  }

  ghost predicate PieceFor(piece: string, kv: (string, string)) {
    SplitOnce(piece, ':').Some? && Trim(SplitOnce(piece, ':').value.0) == kv.0 && Trim(SplitOnce(piece, ':').value.1) == kv.1
  }

  lemma PairPiece(lead: string, kv: (string, string), piece: string)
    requires lead == "" || lead == " "
    requires PrintableParam(kv) && (piece == lead + PairText(kv) || (kv.1 == "" && piece == lead + (kv.0 + ":")))
    ensures PieceFor(piece, kv) && ',' !in piece
  {
    hide Trim, SplitOnce;
    var after := if piece == lead + PairText(kv) then " " + kv.1 else "";
    assert piece == (lead + kv.0) + [':'] + after;
    SplitOnceAfter(lead + kv.0, ':', after);
    TrimSpaced(kv.0);
    TrimmedIsKept(kv.0);
    assert lead + kv.0 == kv.0 || lead + kv.0 == " " + kv.0;
    TrimSpaced(kv.1);
    assert Trim("") == "" by { TrimmedIsKept(""); }
  }

  ghost predicate PiecesFor(pieces: seq<string>, m: Params) {
    |pieces| == |m| && forall i :: 0 <= i < |m| ==> PieceFor(pieces[i], m[i])
  }

  lemma {:induction false} SplitTight(m: Params, lead: string)
    requires lead == "" || lead == " "
    requires m != [] && forall i :: 0 <= i < |m| ==> PrintableParam(m[i])
    ensures PiecesFor(Split(lead + Tight(m), ','), m)
  {
    hide PieceFor, Split, PrintableParam, PairText;
    if |m| == 1 {
      PairPiece(lead, m[0], lead + Tight(m));
      SplitNone(lead + Tight(m), ',');
    } else {
      SplitTight(m[1..], " ");
      PairPiece(lead, m[0], lead + PairText(m[0]));
      SplitAfter(lead + PairText(m[0]), ',', " " + Tight(m[1..]));
      assert lead + Tight(m) == (lead + PairText(m[0])) + [','] + (" " + Tight(m[1..]));
    }
  }

  lemma {:induction false} PairsInsertInOrder(pieces: seq<string>, m: Params, done: nat)
    requires PiecesFor(pieces, m) && Sorted(m) && done <= |m|
    ensures ParsePairs(pieces[done..], m[..done]) == m
    decreases |m| - done
  {
    hide PieceFor, ParsePairs, Insert, Less;
    if done < |m| {
      PairsInsertInOrder(pieces, m, done + 1);
      OnePair(pieces[done..], m[..done], m[done]);
      InsertLargest(m[..done], m[done].0, m[done].1);
      assert m[..done] + [m[done]] == m[..done + 1] && pieces[done..][1..] == pieces[done + 1..];
      assert m[done] == (m[done].0, m[done].1);
    } else {
      assert m[..done] == m && pieces[done..] == [];
      NoPairs(m);
    }
  }

  lemma NoPairs(m: Params)
    ensures ParsePairs([], m) == m
  {
  }

  lemma OnePair(pieces: seq<string>, m: Params, kv: (string, string))
    requires pieces != [] && PieceFor(pieces[0], kv)
    ensures ParsePairs(pieces, m) == ParsePairs(pieces[1..], Insert(m, kv.0, kv.1))
  {
    hide Trim, Insert, SplitOnce;
  }

  /** Parameters print and parse back, empty keys and values included. */
  lemma ParamsRoundTrip(m: Params)
    requires PrintableParams(m)
    ensures ParseParams(Braced(RenderParams(m))) == m
  {
    hide Trim, Tight, Split, ParsePairs, Inner, RenderParams, Braced;
    InnerOfBraced(RenderParams(m));
    if m == [] {
      assert RenderParams(m) == "" by { RenderNone(); }
      TrimmedIsKept("");
    } else {
      TrimRendered(m);
      SplitTight(m, "");
      assert "" + Tight(m) == Tight(m);
      var pieces := Split(Tight(m), ',');
      PairsInsertInOrder(pieces, m, 0);
      assert pieces[0..] == pieces && m[..0] == [];
    }
  }

  lemma RenderNone()
    ensures RenderParams([]) == ""
  {
  }

  // ---- outcomes ----

  lemma {:induction false} PlainGlues(a: string, s: string)
    requires Plain(a)
    ensures SplitTop(a + s, 0, false) == Glue(a, SplitTop(s, 0, false))
  {
    if a == [] {
      assert a + s == s;
      GlueNothing(SplitTop(s, 0, false));
    } else {
      PlainGlues(a[1..], s);
      assert PlainChar(a[0]);
      assert (a + s)[1..] == a[1..] + s && (a + s)[0] == a[0];
      GlueGlue([a[0]], a[1..], SplitTop(s, 0, false));
      assert [a[0]] + a[1..] == a;
    }
  }

  lemma {:induction false} InsideQuotes(a: string)
    requires '"' !in a
    ensures SplitTop(a + "\"", 0, true) == [a + "\""]
  {
    if a == [] {
      assert (a + "\"")[1..] == [] && a + "\"" == ['"'] + [];
    } else {
      InsideQuotes(a[1..]);
      assert (a + "\"")[1..] == a[1..] + "\"";
      assert [a[0]] + (a[1..] + "\"") == a + "\"";
    }
  }

  /** A plain piece ends at the comma that follows it. */
  lemma PlainPiece(a: string, s: string)
    requires Plain(a)
    ensures SplitTop(a + "," + s, 0, false) == [a] + SplitTop(s, 0, false)
  {
    assert a + "," + s == a + ("," + s);
    PlainGlues(a, "," + s);
    assert ("," + s)[1..] == s;
    assert SplitTop("," + s, 0, false) == [[]] + SplitTop(s, 0, false);
    CutHere(a, SplitTop(s, 0, false));
  }

  lemma QuotedPiece(a: string, s: string)
    requires Plain(a) && '"' !in s
    ensures SplitTop(a + Quoted(s), 0, false) == [a + Quoted(s)]
  {
    PlainGlues(a, Quoted(s));
    InsideQuotes(s);
    assert Quoted(s)[1..] == s + "\"";
    assert ['"'] + (s + "\"") == Quoted(s);
    assert SplitTop(Quoted(s), 0, false) == Glue(['"'], [s + "\""]);

  }

  lemma TtrTextReads(t: Option<int>)
    requires t.Some? ==> I64_MIN <= t.value <= I64_MAX
    ensures Plain(TtrText(t)) && Trimmed(TtrText(t))
    ensures (if TtrText(t) == "null" then None else ReadI64(TtrText(t))) == t
  {
    if t.Some? {
      I64RoundTrip(t.value);
      ShowIsPlain(t.value);
      assert Show(t.value)[0] != 'n';
    }
  }

  function FieldPiece(k: string, v: string): string { k + ":" + (" " + v) }

  lemma FieldPieces(c: Codec, o: Outcome)
    requires PrintableOutcome(c, o)
    ensures SplitTop(OutcomeFields(c, o), 0, false) ==
            [FieldPiece("ts", c.show(o.ts)), FieldPiece(" result", o.result), FieldPiece(" ttr_s", TtrText(o.ttrS)),
             FieldPiece(" approver", Quoted(o.approver))]
  {
    hide SplitTop, TtrText, Quoted;
    TtrTextReads(o.ttrS);
    var p0, p1, p2 := FieldPiece("ts", c.show(o.ts)), FieldPiece(" result", o.result), FieldPiece(" ttr_s", TtrText(o.ttrS));
    assert Plain(p0) && Plain(p1) && Plain(p2);
    var p3 := " approver" + ":" + (" " + Quoted(o.approver));
    assert p3 == " approver: " + Quoted(o.approver);
    QuotedPiece(" approver: ", o.approver);
    PlainPiece(p2, p3);
    PlainPiece(p1, p2 + "," + p3);
    PlainPiece(p0, p1 + "," + (p2 + "," + p3));
    assert OutcomeFields(c, o) == p0 + "," + (p1 + "," + (p2 + "," + p3));
  }

  lemma OneField(c: Codec, pieces: seq<string>, d: Draft, k: string, name: string, v: string)
    requires pieces != [] && pieces[0] == FieldPiece(k, v) && ':' !in k && Trim(k) == name && Trimmed(v)
    ensures ParseFields(c, pieces, d) == ParseFields(c, pieces[1..], SetDraft(c, d, name, v))
  {
    hide Trim, SetDraft, SplitOnce;
    SplitOnceAfter(k, ':', " " + v);
    TrimSpaced(v);
  }

  lemma FieldNames()
    ensures Trim("ts") == "ts" && Trim(" result") == "result" && Trim(" ttr_s") == "ttr_s" && Trim(" approver") == "approver"
  {
    hide TrimStart, TrimEnd, Trim;
    TrimmedIsKept("ts");
    TrimSpaced("result");
    TrimSpaced("ttr_s");
    TrimSpaced("approver");
    assert " " + "result" == " result" && " " + "ttr_s" == " ttr_s" && " " + "approver" == " approver";
  }

  lemma DraftFilled(c: Codec, o: Outcome)
    requires PrintableOutcome(c, o)
    ensures Finished(Some(SetDraft(c, SetDraft(c, SetDraft(c, SetDraft(c, BLANK, "ts", c.show(o.ts)), "result", o.result),
                                               "ttr_s", TtrText(o.ttrS)), "approver", Quoted(o.approver)))) == Some(o)
  {
    hide TtrText, Quoted, Unquote, ReadI64;
    TtrTextReads(o.ttrS);
    UnquoteQuoted(o.approver);
  }

  lemma OutcomeEnds(c: Codec, o: Outcome)
    requires PrintableOutcome(c, o)
    ensures Trim(OutcomeFields(c, o)) == OutcomeFields(c, o)
  {
    var s := OutcomeFields(c, o);
    assert s[0] == 't' && s[|s| - 1] == '"';
    TrimmedIsKept(s);
  }

  /** An outcome prints and parses back, through braces, top-level commas, quotes and numbers. */
  lemma OutcomeRoundTrip(c: Codec, o: Outcome)
    requires PrintableOutcome(c, o)
    ensures ParseOutcome(c, OutcomeText(c, o)) == Some(o)
  {
    hide Trim, SplitTop, OutcomeFields, SetDraft, Inner, Braced, Finished, ParseFields, FieldPiece, Quoted, TtrText, Trimmed;
    InnerOfBraced(OutcomeFields(c, o));
    OutcomeEnds(c, o);
    FieldPieces(c, o);
    FieldNames();
    FieldValuesTrimmed(c, o);
    var pieces := [FieldPiece("ts", c.show(o.ts)), FieldPiece(" result", o.result), FieldPiece(" ttr_s", TtrText(o.ttrS)),
                   FieldPiece(" approver", Quoted(o.approver))];
    var d1 := SetDraft(c, BLANK, "ts", c.show(o.ts));
    var d2 := SetDraft(c, d1, "result", o.result);
    var d3 := SetDraft(c, d2, "ttr_s", TtrText(o.ttrS));
    var d4 := SetDraft(c, d3, "approver", Quoted(o.approver));
    OneField(c, pieces, BLANK, "ts", "ts", c.show(o.ts));
    OneField(c, pieces[1..], d1, " result", "result", o.result);
    OneField(c, pieces[2..], d2, " ttr_s", "ttr_s", TtrText(o.ttrS));
    OneField(c, pieces[3..], d3, " approver", "approver", Quoted(o.approver));
    assert pieces[1..][1..] == pieces[2..] && pieces[2..][1..] == pieces[3..] && pieces[3..][1..] == [];
    NoMoreFields(c, d4);
    DraftFilled(c, o);
  }

  lemma NoMoreFields(c: Codec, d: Draft)
    ensures ParseFields(c, [], d) == Some(d)
  {
  }

  lemma FieldValuesTrimmed(c: Codec, o: Outcome)
    requires PrintableOutcome(c, o)
    ensures Trimmed(c.show(o.ts)) && Trimmed(o.result) && Trimmed(TtrText(o.ttrS)) && Trimmed(Quoted(o.approver))
  {
    TtrTextReads(o.ttrS);
  }

  // ---- the front matter ----

  /** A field line is recognised, and gives its value back. */
  lemma KindOf(f: Field, v: string)
    requires Trimmed(v)
    ensures var line := TrimEnd(FieldText(f, v));
            Kind(line) == Some(f) && |Key(f)| <= |line| && Trim(line[|Key(f)|..]) == v
  {
    hide Trim;
    var line := TrimEnd(FieldText(f, v));
    if v == "" {
      assert FieldText(f, v) == Key(f) + " ";
      TrimEndSpace(Key(f));
      assert line == Key(f) && line[|Key(f)|..] == "";
      TrimmedIsKept("");
    } else {
      TrimEndKeeps(Key(f) + " ", v);
      assert line == Key(f) + (" " + v);
      TrimSpaced(v);
    }
    assert line[..|Key(f)|] == Key(f) && line[0] == Key(f)[0];
    FirstLetters(line, f);
  }

  lemma FirstLetters(line: string, f: Field)
    requires |Key(f)| <= |line| && line[..|Key(f)|] == Key(f)
    ensures Kind(line) == Some(f)
  {
    assert line[0] == line[..|Key(f)|][0];
    forall g | StartsWith(line, Key(g)) ensures g == f {
      assert line[0] == line[..|Key(g)|][0];
    }
  }

  lemma FieldStep(c: Codec, ls: seq<string>, e: Entry, f: Field, v: string)
    requires ls != [] && ls[0] == FieldText(f, v) && Trimmed(v)
    ensures ParseFront(c, ls, e) == ParseFront(c, ls[1..], Set(c, e, f, v))
  {
    hide Trim, TrimEnd, Kind, Set, FieldText, ParseFront, ItemsOf, CountItems;
    KindOf(f, v);
    ParseFrontStep(c, ls, 0, e);
    assert ls[0..] == ls;
  }

  lemma ItemIsRead(c: Codec, o: Outcome)
    ensures ItemOf(ItemLine(c, o)) == Some(OutcomeText(c, o))
  {
    hide OutcomeFields, Trim;
    var t := OutcomeText(c, o);
    assert "  - " + t == " " + (" " + ("- " + t));
    TrimStartSpace(" " + ("- " + t));
    TrimStartSpace("- " + t);
    assert TrimStart("- " + t) == "- " + t;
    assert ("- " + t)[2..] == t;
    TrimmedIsKept(t);
  }

  lemma FieldIsNoItem(f: Field, v: string)
    ensures ItemOf(FieldText(f, v)) == None
  {
    hide Trim;
    var l := FieldText(f, v);
    assert l[0] == Key(f)[0];
    assert TrimStart(l) == l;
    assert l[..2][0] == l[0];
  }

  lemma {:induction false} ItemsAreRead(c: Codec, os: seq<Outcome>, tail: seq<string>)
    requires forall i :: 0 <= i < |os| ==> PrintableOutcome(c, os[i])
    requires tail != [] && ItemOf(tail[0]) == None
    ensures ItemsOf(c, Items(c, os) + tail) == os
    ensures CountItems(Items(c, os) + tail) == |os|
  {
    hide PrintableOutcome, ItemLine, OutcomeText, ItemOf, ParseOutcome;
    if os == [] {
      assert Items(c, os) + tail == tail;
    } else {
      ItemsAreRead(c, os[1..], tail);
      ItemIsRead(c, os[0]);
      OutcomeRoundTrip(c, os[0]);
      var ls := Items(c, os) + tail;
      assert ls[0] == ItemLine(c, os[0]);
      assert ls[1..] == Items(c, os[1..]) + tail;
      assert [os[0]] + os[1..] == os;
    }
  }

  lemma HeaderLines()
    ensures Kind(TrimEnd(OUTCOMES)) == None && Trim(TrimEnd(OUTCOMES)) == OUTCOMES
    ensures Kind(TrimEnd("outcomes: []")) == None && Trim(TrimEnd("outcomes: []")) != OUTCOMES
  {
    TrimmedIsKept(OUTCOMES);
    TrimmedIsKept("outcomes: []");
    NotAField(OUTCOMES);
    NotAField("outcomes: []");
    hide Trim, TrimEnd, Kind;
    assert |"outcomes: []"| == 12 && |OUTCOMES| == 9;
  }

  lemma NotAField(line: string)
    requires |line| > 1 && line[0] == 'o' && line[1] == 'u'
    ensures Kind(line) == None
  {
    forall g ensures !StartsWith(line, Key(g)) {
      assert Key(g)[0] != 'o' || Key(g)[1] != 'u';
    }
  }

  /** The whole block list of outcomes, or its empty form. */
  lemma OutcomesStep(c: Codec, os: seq<Outcome>, tail: seq<string>, e: Entry)
    requires forall i :: 0 <= i < |os| ==> PrintableOutcome(c, os[i])
    requires tail != [] && ItemOf(tail[0]) == None
    ensures ParseFront(c, OutcomeLines(c, os) + tail, e) == ParseFront(c, tail, e.(outcomes := e.outcomes + os))
  {
    hide *;
    HeaderLines();
    OutcomeLinesAre(c, os);
    if os == [] {
      PlainLineStep(c, "outcomes: []", tail, e);
      assert e.outcomes + os == e.outcomes;
    } else {
      ItemsAreRead(c, os, tail);
      ItemsLength(c, os);
      HeaderStep(c, OUTCOMES, Items(c, os), tail, e);
      assert [OUTCOMES] + Items(c, os) + tail == [OUTCOMES] + (Items(c, os) + tail);
    }
  }

  lemma OutcomeLinesAre(c: Codec, os: seq<Outcome>)
    ensures OutcomeLines(c, os) == if os == [] then ["outcomes: []"] else [OUTCOMES] + Items(c, os)
  {
  }

  lemma PlainLineStep(c: Codec, line: string, tail: seq<string>, e: Entry)
    requires Kind(TrimEnd(line)) == None && Trim(TrimEnd(line)) != OUTCOMES
    ensures ParseFront(c, [line] + tail, e) == ParseFront(c, tail, e)
  {
    hide *;
    ParseFrontStep(c, [line] + tail, 0, e);
    assert ([line] + tail)[0..] == [line] + tail && ([line] + tail)[0 + 1..] == tail;
  }

  lemma HeaderStep(c: Codec, line: string, items: seq<string>, tail: seq<string>, e: Entry)
    requires Kind(TrimEnd(line)) == None && Trim(TrimEnd(line)) == OUTCOMES
    requires CountItems(items + tail) == |items|
    ensures ParseFront(c, [line] + (items + tail), e) == ParseFront(c, tail, e.(outcomes := e.outcomes + ItemsOf(c, items + tail)))
  {
    hide *;
    var ls := [line] + (items + tail);
    ParseFrontStep(c, ls, 0, e);
    assert ls[0..] == ls && ls[0 + 1..] == items + tail && ls[0 + 1 + |items|..] == tail;
  }

  lemma ItemsLength(c: Codec, os: seq<Outcome>)
    ensures |Items(c, os)| == |os|
  {
  }

  // ---- the lines ----

  predicate GoodLine(l: string) { OneLine(l) && l != "---" && l != [] }

  lemma FieldIsGood(f: Field, v: string)
    requires '\n' !in v && (v == [] || v[|v| - 1] != '\r')
    ensures GoodLine(FieldText(f, v))
  {
    var l := FieldText(f, v);
    assert l[0] == Key(f)[0];
    forall i | 0 <= i < |l| ensures l[i] != '\n' {
      if i < |Key(f)| { assert l[i] == Key(f)[i]; }
      if i > |Key(f)| { assert l[i] == v[i - |Key(f)| - 1]; }
    }
  }

  lemma {:induction false} RenderedIsOneLine(m: Params)
    requires forall i :: 0 <= i < |m| ==> PrintableParam(m[i])
    ensures '\n' !in RenderParams(m)
  {
    if m != [] {
      assert PrintableParam(m[0]);
      if |m| > 1 { RenderedIsOneLine(m[1..]); }
    }
  }

  lemma FieldsAreOneLine(c: Codec, o: Outcome)
    requires PrintableOutcome(c, o)
    ensures '\n' !in OutcomeFields(c, o)
  {
    hide TtrText;
    TtrTextReads(o.ttrS);
    var ts, ttr := c.show(o.ts), TtrText(o.ttrS);
    assert '\n' !in ts && '\n' !in o.result && '\n' !in ttr && '\n' !in o.approver;
    var p3 := " approver" + ":" + (" " + Quoted(o.approver));
    var p2 := (" ttr_s" + ":" + (" " + ttr)) + "," + p3;
    assert '\n' !in p3;
    assert '\n' !in p2;
    var p1 := (" result" + ":" + (" " + o.result)) + "," + p2;
    assert '\n' !in p1;
  }

  lemma OutcomeIsOneLine(c: Codec, o: Outcome)
    requires PrintableOutcome(c, o)
    ensures GoodLine(ItemLine(c, o))
  {
    FieldsAreOneLine(c, o);
    hide OutcomeFields, PrintableOutcome;
    var l := ItemLine(c, o);
    assert l[0] == ' ' && l[|l| - 1] == '}';
  }

  lemma HeadIsGood(c: Codec, e: Entry)
    requires Printable(c, e)
    ensures forall i :: 0 <= i < |HeadLines(e)| ==> GoodLine(HeadLines(e)[i])
  {
    hide GoodLine, FieldText, RenderParams, PrintableOutcome;
    FieldIsGood(Signature, Quoted(e.faultSignature));
    assert e.templateUsed == [] || e.templateUsed[|e.templateUsed| - 1] != '\r';
    FieldIsGood(Template, e.templateUsed);
    RenderedIsOneLine(e.params);
    FieldIsGood(Parameters, Braced(RenderParams(e.params)));
  }

  lemma TailIsGood(c: Codec, e: Entry)
    requires Printable(c, e)
    ensures forall i :: 0 <= i < |TailLines(c, e)| ==> GoodLine(TailLines(c, e)[i])
  {
    hide GoodLine, FieldText, PrintableOutcome, PrintableParams;
    ShowIsPlain(e.occurrences);
    hide Show;
    FieldIsGood(Occurrences, Show(e.occurrences));
    var t := c.show(e.lastSeen);
    assert '\n' !in t && (t == [] || t[|t| - 1] != '\r');
    FieldIsGood(Seen, t);
  }

  lemma OutcomesAreGood(c: Codec, os: seq<Outcome>)
    requires forall i :: 0 <= i < |os| ==> PrintableOutcome(c, os[i])
    ensures forall i :: 0 <= i < |OutcomeLines(c, os)| ==> GoodLine(OutcomeLines(c, os)[i])
  {
    hide PrintableOutcome, ItemLine;
    var ls := OutcomeLines(c, os);
    forall i | 0 <= i < |ls| ensures GoodLine(ls[i]) {
      if os != [] && i > 0 {
        OutcomeIsOneLine(c, os[i - 1]);
        assert ls[i] == ItemLine(c, os[i - 1]);
      }
    }
  }

  lemma FrontIsGood(c: Codec, e: Entry)
    requires Printable(c, e)
    ensures FrontLines(c, e) != [] && forall i :: 0 <= i < |FrontLines(c, e)| ==> GoodLine(FrontLines(c, e)[i])
  {
    hide GoodLine, PrintableOutcome, OutcomeLines, HeadLines, TailLines;
    HeadIsGood(c, e);
    TailIsGood(c, e);
    OutcomesAreGood(c, e.outcomes);
    HeadLength(e);
  }

  lemma HeadLength(e: Entry)
    ensures |HeadLines(e)| == 3
  {
  }

  // ---- the theorem ----

  /** Reading the front matter of a printed entry sets every field to what it was. */
  lemma FrontReads(c: Codec, e: Entry, now: int, body: string)
    requires Printable(c, e)
    ensures ParseFront(c, FrontLines(c, e), Entry("", "", [], [], 0, now, body)) == e.(body := body)
  {
    hide *;
    var e0 := Entry("", "", [], [], 0, now, body);
    var e3 := e0.(faultSignature := e.faultSignature, templateUsed := e.templateUsed, params := e.params);
    var rest := OutcomeLines(c, e.outcomes) + TailLines(c, e);
    HeadReads(c, e, e0, rest);
    assert FrontLines(c, e) == HeadLines(e) + rest by { FrontIsHeadAndRest(c, e); }
    TailReads(c, e, e3);
    assert [] + e.outcomes == e.outcomes;
  }

  lemma FrontIsHeadAndRest(c: Codec, e: Entry)
    ensures FrontLines(c, e) == HeadLines(e) + (OutcomeLines(c, e.outcomes) + TailLines(c, e))
  {
    hide OutcomeLines, HeadLines, TailLines;
  }

  lemma HeadReads(c: Codec, e: Entry, e0: Entry, rest: seq<string>)
    requires Printable(c, e)
    ensures ParseFront(c, HeadLines(e) + rest, e0) ==
            ParseFront(c, rest, e0.(faultSignature := e.faultSignature, templateUsed := e.templateUsed, params := e.params))
  {
    ValuesTrimmed(c, e);
    HeadLinesAre(e);
    hide *;
    var ls := HeadLines(e) + rest;
    SetsHead(c, e, e0);
    var e1 := e0.(faultSignature := e.faultSignature);
    SetsHead(c, e, e1);
    var e2 := e1.(templateUsed := e.templateUsed);
    SetsHead(c, e, e2);
    FieldStep(c, ls, e0, Signature, Quoted(e.faultSignature));
    FieldStep(c, ls[1..], e1, Template, e.templateUsed);
    FieldStep(c, ls[1..][1..], e2, Parameters, Braced(RenderParams(e.params)));
    assert ls[1..][1..][1..] == rest;
  }

  lemma HeadLinesAre(e: Entry)
    ensures HeadLines(e) == [FieldText(Signature, Quoted(e.faultSignature)), FieldText(Template, e.templateUsed),
                             FieldText(Parameters, Braced(RenderParams(e.params)))]
  {
  }

  lemma TailLinesAre(c: Codec, e: Entry)
    ensures TailLines(c, e) == [FieldText(Occurrences, Show(e.occurrences)), FieldText(Seen, c.show(e.lastSeen))]
  {
  }

  lemma PrintableParts(c: Codec, e: Entry)
    requires Printable(c, e)
    ensures forall i :: 0 <= i < |e.outcomes| ==> PrintableOutcome(c, e.outcomes[i])
    ensures PrintableParams(e.params) && NoQuoteEnds(e.faultSignature) && e.occurrences <= U64_MAX && TimeOk(c, e.lastSeen)
  {
    hide PrintableOutcome, PrintableParams, NoQuoteEnds, TimeOk;
  }

  lemma TailReads(c: Codec, e: Entry, e3: Entry)
    requires Printable(c, e)
    ensures ParseFront(c, OutcomeLines(c, e.outcomes) + TailLines(c, e), e3) ==
            e3.(outcomes := e3.outcomes + e.outcomes, occurrences := e.occurrences, lastSeen := e.lastSeen)
  {
    ValuesTrimmed(c, e);
    TailLinesAre(c, e);
    PrintableParts(c, e);
    hide *;
    var tail := TailLines(c, e);
    FieldIsNoItem(Occurrences, Show(e.occurrences));
    OutcomesStep(c, e.outcomes, tail, e3);
    var e4 := e3.(outcomes := e3.outcomes + e.outcomes);
    SetsTail(c, e, e4);
    FieldStep(c, tail, e4, Occurrences, Show(e.occurrences));
    var e5 := e4.(occurrences := e.occurrences);
    SetsTail(c, e, e5);
    FieldStep(c, tail[1..], e5, Seen, c.show(e.lastSeen));
    assert tail[1..][1..] == [];
    ParseFrontEnd(c, [], 0, e5.(lastSeen := e.lastSeen));
    assert tail[2..][0..] == [];
  }

  lemma ValuesTrimmed(c: Codec, e: Entry)
    requires Printable(c, e)
    ensures Trimmed(Quoted(e.faultSignature)) && Trimmed(e.templateUsed) && Trimmed(Braced(RenderParams(e.params)))
    ensures Trimmed(Show(e.occurrences)) && Trimmed(c.show(e.lastSeen))
  {
    hide RenderParams, PrintableOutcome;
    ShowIsPlain(e.occurrences);
  }

  /** What each field line sets. */
  lemma SetsHead(c: Codec, e: Entry, x: Entry)
    requires Printable(c, e)
    ensures Set(c, x, Signature, Quoted(e.faultSignature)) == x.(faultSignature := e.faultSignature)
    ensures Set(c, x, Template, e.templateUsed) == x.(templateUsed := e.templateUsed)
    ensures Set(c, x, Parameters, Braced(RenderParams(e.params))) == x.(params := e.params)
  {
    PrintableParts(c, e);
    hide Unquote, Quoted, ParseParams, RenderParams, Braced, PrintableParams, NoQuoteEnds, Printable;
    UnquoteQuoted(e.faultSignature);
    ParamsRoundTrip(e.params);
  }

  lemma SetsTail(c: Codec, e: Entry, x: Entry)
    requires Printable(c, e)
    ensures Set(c, x, Occurrences, Show(e.occurrences)) == x.(occurrences := e.occurrences)
    ensures Set(c, x, Seen, c.show(e.lastSeen)) == x.(lastSeen := e.lastSeen)
  {
    PrintableParts(c, e);
    hide Show, ReadU64, Printable;
    U64RoundTrip(e.occurrences);
  }

  /** The whole format: a printed entry reads back as itself, its body up to one final line end. */
  lemma MarkdownRoundTrip(c: Codec, e: Entry, now: int)
    requires Printable(c, e)
    ensures FromMarkdown(c, Markdown(c, e), now) == Ok(e.(body := WithNewline(e.body)))
  {
    hide *;
    var ls, body := FrontLines(c, e), WithNewline(e.body);
    FrontIsGood(c, e);
    GoodLinesMean(ls);
    UnlinesIsJoined(ls);
    TextIs(c, e, ls, body);
    CloserAfterLines(ls, body);
    LinesOfJoined(ls);
    FrontReads(c, e, now, body);
    ReadsAs(c, Markdown(c, e), Joined(ls), body, now);
  }

  lemma GoodLinesMean(ls: seq<string>)
    requires ls != [] && forall i :: 0 <= i < |ls| ==> GoodLine(ls[i])
    ensures forall i :: 0 <= i < |ls| ==> OneLine(ls[i]) && '\n' !in ls[i] && ls[i] != "---"
    ensures ls[|ls| - 1] != []
  {
  }

  lemma TextIs(c: Codec, e: Entry, ls: seq<string>, body: string)
    requires ls == FrontLines(c, e) && ls != [] && body == WithNewline(e.body) && Unlines(ls) == Joined(ls) + ['\n']
    ensures Markdown(c, e) == OPENER + (Joined(ls) + CLOSER + body)
  {
    hide Unlines, Joined, FrontLines, WithNewline;
    assert CLOSER == ['\n'] + OPENER;
  }

  lemma ReadsAs(c: Codec, text: string, front: string, body: string, now: int)
    requires text == OPENER + (front + CLOSER + body)
    requires FindText(front + CLOSER + body, CLOSER) == Some(|front|)
    ensures FromMarkdown(c, text, now) == Ok(ParseFront(c, Lines.Lines(front), Entry("", "", [], [], 0, now, body)))
  {
    hide ParseFront, Lines.Lines, FindText;
    var rest := front + CLOSER + body;
    assert text[..|OPENER|] == OPENER && text[|OPENER|..] == rest;
    assert rest[..|front|] == front && rest[|front| + |CLOSER|..] == body;
  }
}
