/**
The `{{name}}` scanner, written twice in crates/ravn-core/src/remediation.rs: `resolve_str`
(397-415) substitutes, `placeholders_in_str` (444-454) only collects the names.
*/
module Placeholders {
  import opened Options
  import opened Text

  type Values = map<string, string>

  /** Substitution; the error carries the name without a value. */
  function Resolve(raw: string, values: Values): Result<string, string>
    decreases |raw|
  {
    var i := FindPair(raw, '{');
    if i == |raw| then Ok(raw)
    else
      var after := raw[i + 2..];
      var e := FindPair(after, '}');
      if e == |after| then Ok(raw)
      else
        var name := Trim(after[..e]);
        if name !in values then Err(name)
        else Prepend(raw[..i] + values[name], Resolve(after[e + 2..], values))
  }

  function Prepend(s: string, r: Result<string, string>): Result<string, string> {
    if r.Ok? then Ok(s + r.value) else r
  }

  function Names(raw: string): seq<string>
    decreases |raw|
  {
    var i := FindPair(raw, '{');
    if i == |raw| then []
    else
      var after := raw[i + 2..];
      var e := FindPair(after, '}');
      if e == |after| then [] else [Trim(after[..e])] + Names(after[e + 2..])
  }

  lemma NamesStep(raw: string)
    ensures FindPair(raw, '{') == |raw| ==> Names(raw) == []
    ensures FindPair(raw, '{') < |raw| ==>
              var after := raw[FindPair(raw, '{') + 2..];
              var e := FindPair(after, '}');
              Names(raw) == if e == |after| then [] else [Trim(after[..e])] + Names(after[e + 2..])
  {
    hide FindPair, Trim;
  }

  lemma ResolveStep(raw: string, values: Values)
    ensures FindPair(raw, '{') == |raw| ==> Resolve(raw, values) == Ok(raw)
    ensures FindPair(raw, '{') < |raw| ==>
              var i := FindPair(raw, '{');
              var after := raw[i + 2..];
              var e := FindPair(after, '}');
              Resolve(raw, values) ==
              if e == |after| then Ok(raw)
              else
                var name := Trim(after[..e]);
                if name !in values then Err(name)
                else Prepend(raw[..i] + values[name], Resolve(after[e + 2..], values))
  {
    hide FindPair, Trim, Prepend;
  }

  method ResolveStr(raw: string, values: Values) returns (r: Result<string, string>)
    ensures r == Resolve(raw, values)
  {
    hide FindPair, Trim, Prepend;
    var out, rest := [], raw;
    assert Resolve(raw, values) == Prepend([], Resolve(raw, values)) by { PrependNothing(Resolve(raw, values)); }
    while FindPair(rest, '{') < |rest|
      invariant Resolve(raw, values) == Prepend(out, Resolve(rest, values))
      decreases |rest|
    {
      var start := FindPair(rest, '{');
      var literal := rest[..start];
      var after := rest[start + 2..];
      var end := FindPair(after, '}');
      if end == |after| {
        assert out + literal + rest[start..] == out + rest;
        PrependOk(out, rest);
        return Ok(out + literal + rest[start..]);
      }
      var name := Trim(after[..end]);
      if name !in values {
        PrependError(out, name);
        return Err(name);
      }
      PrependTwice(out, literal + values[name], Resolve(after[end + 2..], values));
      assert out + literal + values[name] == out + (literal + values[name]);
      out := out + literal + values[name];
      rest := after[end + 2..];
    }
    PrependOk(out, rest);
    r := Ok(out + rest);
  }

  method PlaceholdersInStr(raw: string) returns (names: seq<string>)
    ensures names == Names(raw)
  {
    hide FindPair, Trim, Names;
    names := [];
    var rest := raw;
    while FindPair(rest, '{') < |rest|
      invariant Names(raw) == names + Names(rest)
      decreases |rest|
    {
      NamesStep(rest);
      var after := rest[FindPair(rest, '{') + 2..];
      var end := FindPair(after, '}');
      if end == |after| {
        break;
      }
      names := names + [Trim(after[..end])];
      rest := after[end + 2..];
    }
    NamesStep(rest);
  }

  lemma PrependOk(a: string, b: string)
    ensures Prepend(a, Ok(b)) == Ok(a + b)
  {
  }

  lemma PrependError(a: string, e: string)
    ensures Prepend(a, Err(e)) == Err(e)
  {
  }

  lemma PrependNothing(r: Result<string, string>)
    ensures Prepend([], r) == r
  {
    if r.Ok? { assert [] + r.value == r.value; }
  }

  lemma PrependTwice(a: string, b: string, r: Result<string, string>)
    ensures Prepend(a, Prepend(b, r)) == Prepend(a + b, r)
  {
    if r.Ok? { assert a + (b + r.value) == (a + b) + r.value; }
  }

  // ---- what substitution is ----

  /** The text holds no such pair of characters. */
  predicate Free(s: string, c: char) { forall i :: 0 <= i < |s| - 1 ==> !(s[i] == c && s[i + 1] == c) }

  lemma FreeIsUnfound(s: string, c: char)
    ensures Free(s, c) <==> FindPair(s, c) == |s|
  {
    if Free(s, c) {
      forall j: nat | j < |s| ensures !PairAt(s, c, j) {}
      NoPair(s, c);
    } else {
      var i :| 0 <= i < |s| - 1 && s[i] == c && s[i + 1] == c;
      assert PairAt(s, c, i);
    }
  }

  /** A text without `{{` stays as it is. */
  lemma LiteralStays(text: string, values: Values)
    requires Free(text, '{')
    ensures Resolve(text, values) == Ok(text) && Names(text) == []
  {
    FreeIsUnfound(text, '{');
  }

  /** `literal{{name}}rest`, read from the left, is the literal, the value of the trimmed name and what the
      rest resolves to; without a value it is an error that carries the name. */
  lemma ReferenceIsReplaced(literal: string, name: string, rest: string, values: Values)
    requires Free(literal, '{') && (literal != [] ==> literal[|literal| - 1] != '{')
    requires Free(name, '}') && (name != [] ==> name[|name| - 1] != '}')
    ensures var text, n := literal + "{{" + name + "}}" + rest, Trim(name);
            && Names(text) == [n] + Names(rest)
            && (n !in values ==> Resolve(text, values) == Err(n))
            && (n in values && Resolve(rest, values).Err? ==> Resolve(text, values) == Resolve(rest, values))
            && (n in values && Resolve(rest, values).Ok? ==>
                  Resolve(text, values) == Ok(literal + values[n] + Resolve(rest, values).value))
  {
    hide *;
    var text, n := literal + "{{" + name + "}}" + rest, Trim(name);
    var after := name + ['}', '}'] + rest;
    TextIs(literal, name, rest);
    FreeIsQuiet(literal, '{');
    FreeIsQuiet(name, '}');
    OpensAfter(literal, '{', after);
    OpensAfter(name, '}', rest);
    NamesStep(text);
    ResolveStep(text, values);
    if n in values {
      if Resolve(rest, values).Ok? {
        PrependOk(literal + values[n], Resolve(rest, values).value);
      } else {
        PrependError(literal + values[n], Resolve(rest, values).error);
      }
    }
  }

  lemma TextIs(literal: string, name: string, rest: string)
    ensures literal + "{{" + name + "}}" + rest == literal + ['{', '{'] + (name + ['}', '}'] + rest)
  {
  }

  lemma OpensAfter(s: string, c: char, rest: string)
    requires Quiet(s, c)
    ensures var text := s + [c, c] + rest;
            FindPair(text, c) == |s| < |text| && text[..|s|] == s && text[|s| + 2..] == rest
  {
    FindAfterQuiet(s, [c, c] + rest, c);
    PairIsFirst([c, c] + rest, c, 0);
    assert s + [c, c] + rest == s + ([c, c] + rest);
    hide FindPair;
  }

  lemma FreeIsQuiet(s: string, c: char)
    requires Free(s, c) && (s != [] ==> s[|s| - 1] != c)
    ensures Quiet(s, c)
  {
    FreeIsUnfound(s, c);
  }

  /** An opening that is never closed stays as it is. */
  lemma UnclosedStays(literal: string, rest: string, values: Values)
    requires Free(literal, '{') && (literal != [] ==> literal[|literal| - 1] != '{') && Free(rest, '}')
    ensures Resolve(literal + "{{" + rest, values) == Ok(literal + "{{" + rest) && Names(literal + "{{" + rest) == []
  {
    hide *;
    var text := literal + "{{" + rest;
    FreeIsQuiet(literal, '{');
    FreeIsUnfound(rest, '}');
    OpensAfter(literal, '{', rest);
    NamesStep(text);
    ResolveStep(text, values);
  }

  // ---- the two scanners agree ----

  /** The first name without a value, if there is one. */
  function FirstMissing(names: seq<string>, values: Values): Option<string> {
    if names == [] then None
    else if names[0] !in values then Some(names[0])
    else FirstMissing(names[1..], values)
  }

  lemma {:induction false} FirstMissingIsFirst(names: seq<string>, values: Values)
    ensures match FirstMissing(names, values)
            case None => forall n :: n in names ==> n in values
            case Some(m) => exists i :: 0 <= i < |names| && names[i] == m && m !in values
                                     && forall j :: 0 <= j < i ==> names[j] in values
  {
    if names != [] && names[0] in values {
      FirstMissingIsFirst(names[1..], values);
      match FirstMissing(names[1..], values)
      case None =>
      case Some(m) =>
        var i :| 0 <= i < |names[1..]| && names[1..][i] == m && m !in values
              && forall j :: 0 <= j < i ==> names[1..][j] in values;
        assert names[i + 1] == m;
        forall j | 0 <= j < i + 1 ensures names[j] in values {
          if j > 0 { assert names[1..][j - 1] == names[j]; }
        }
    }
  }

  lemma PrependKeepsVerdict(a: string, r: Result<string, string>)
    ensures Prepend(a, r).Ok? == r.Ok? && (r.Err? ==> Prepend(a, r) == r)
  {
  }

  lemma FirstMissingStep(n: string, rest: seq<string>, values: Values)
    ensures FirstMissing([], values) == None
    ensures FirstMissing([n] + rest, values) == if n !in values then Some(n) else FirstMissing(rest, values)
  {
    assert ([n] + rest)[1..] == rest;
  }

  /** Resolving fails exactly on the first collected name that has no value. */
  lemma {:induction false} ScannersAgree(raw: string, values: Values)
    ensures match FirstMissing(Names(raw), values)
            case None => Resolve(raw, values).Ok?
            case Some(m) => Resolve(raw, values) == Err(m)
    decreases |raw|
  {
    hide *;
    NamesStep(raw);
    ResolveStep(raw, values);
    FirstMissingStep([], [], values);
    var i := FindPair(raw, '{');
    if i < |raw| {
      var after := raw[i + 2..];
      var e := FindPair(after, '}');
      if e < |after| {
        var name, rest := Trim(after[..e]), after[e + 2..];
        ScannersAgree(rest, values);
        FirstMissingStep(name, Names(rest), values);
        if name in values { PrependKeepsVerdict(raw[..i] + values[name], Resolve(rest, values)); }
      }
    }
  }

  // ---- what resolving leaves behind ----

  /** A value that cannot bring a placeholder into being: no `{{` and no brace at its end. */
  predicate Inert(v: string) { Quiet(v, '{') }

  /** A name that some template text can refer to. */
  predicate Referenceable(n: string) { Trimmed(n) && FindPair(n, '}') == |n| }

  lemma {:induction false} NamesAreReferenceable(raw: string, n: string)
    requires n in Names(raw)
    ensures Referenceable(n)
    decreases |raw|
  {
    hide *;
    NamesStep(raw);
    var after := raw[FindPair(raw, '{') + 2..];
    var e := FindPair(after, '}');
    if n == Trim(after[..e]) {
      TrimIsTrimmed(after[..e]);
      var k := TrimIsInfix(after[..e]);
      forall j: nat | j < |n| ensures !PairAt(n, '}', j) {
        assert !PairAt(after, '}', k + j);
        InfixPairs(after, n, k, '}', j);
      }
      NoPair(n, '}');
      ReferenceableIs(n);
    } else {
      NamesAreReferenceable(after[e + 2..], n);
    }
  }

  lemma ReferenceableIs(n: string)
    ensures Referenceable(n) == (Trimmed(n) && FindPair(n, '}') == |n|)
  {
    hide Trimmed, FindPair;
  }

  lemma InfixPairs(s: string, n: string, k: nat, c: char, j: nat)
    requires k + |n| <= |s| && n == s[k..k + |n|] && !PairAt(s, c, k + j)
    ensures !PairAt(n, c, j)
  {
  }

  lemma NamesAfterQuiet(a: string, b: string)
    requires Quiet(a, '{')
    ensures Names(a + b) == Names(b)
  {
    hide *;
    var s := a + b;
    FindAfterQuiet(a, b, '{');
    NamesStep(s);
    NamesStep(b);
    var i := FindPair(b, '{');
    if i < |b| { assert s[|a| + i + 2..] == b[i + 2..]; }
  }

  lemma InertIs(v: string)
    ensures Inert(v) == Quiet(v, '{')
  {
    hide Quiet;
  }

  lemma ResolveLiteral(s: string, values: Values)
    requires Names(s) == []
    ensures Resolve(s, values) == Ok(s)
  {
    NamesStep(s);
    ResolveStep(s, values);
    hide *;
  }

  /** With inert values for the names in use, the output has no placeholders, and resolving it
      again, whatever the values, is the identity. */
  lemma {:induction false} OutputIsLiteral(raw: string, values: Values)
    requires Resolve(raw, values).Ok?
    requires forall n :: n in Names(raw) && n in values ==> Inert(values[n])
    ensures Names(Resolve(raw, values).value) == []
    ensures forall other :: Resolve(Resolve(raw, values).value, other) == Resolve(raw, values)
    decreases |raw|
  {
    hide *;
    NamesStep(raw);
    ResolveStep(raw, values);
    var i, out := FindPair(raw, '{'), Resolve(raw, values).value;
    if i < |raw| {
      var after := raw[i + 2..];
      var e := FindPair(after, '}');
      if e < |after| {
        var name, rest := Trim(after[..e]), after[e + 2..];
        assert Names(raw)[0] == name && forall n :: n in Names(rest) ==> n in Names(raw);
        PrependKeepsVerdict(raw[..i] + values[name], Resolve(rest, values));
        OutputIsLiteral(rest, values);
        InertIs(values[name]);
        PrependOk(raw[..i] + values[name], Resolve(rest, values).value);
        BeforePairIsQuiet(raw, '{');
        QuietThenQuiet(raw[..i], values[name], '{');
        NamesAfterQuiet(raw[..i] + values[name], Resolve(rest, values).value);
      }
    }
    forall other ensures Resolve(out, other) == Resolve(raw, values) { ResolveLiteral(out, other); }
  }

  lemma {:induction false} BraceFreeIsInert(v: string)
    requires '{' !in v
    ensures Inert(v)
  {
    NoPair(v, '{');
  }

  /** In particular, values without an opening brace: the output has no placeholder and resolving it
      again is the identity. */
  lemma BraceFreeValuesLeaveNothing(raw: string, values: Values)
    requires Resolve(raw, values).Ok? && forall n :: n in values ==> '{' !in values[n]
    ensures Names(Resolve(raw, values).value) == []
    ensures Resolve(Resolve(raw, values).value, values) == Resolve(raw, values)
  {
    hide Resolve, Names, Inert;
    forall n | n in Names(raw) && n in values ensures Inert(values[n]) { BraceFreeIsInert(values[n]); }
    OutputIsLiteral(raw, values);
  }

  lemma PadName(n: string)
    requires Trimmed(n)
    ensures Trim(n + " ") == n
  {
    var s := n + " ";
    assert s[..|s| - 1] == n;
    if n == [] {
      assert s[1..] == [];
    } else {
      assert s[0] == n[0];
    }
    TrimmedIsKept(n);
  }

  /** A text that refers to `n` and goes on with `tail`. */
  function Referring(n: string, tail: string): string { "{{" + n + " }}" + tail }

  lemma ResolveReferring(n: string, tail: string, values: Values)
    requires Referenceable(n) && n in values
    ensures Resolve(Referring(n, tail), values) == Prepend(values[n], Resolve(tail, values))
  {
    var raw, padded := Referring(n, tail), n + " ";
    PairIsFirst(raw, '{', 0);
    var after := raw[2..];
    assert after == padded + ("}}" + tail);
    assert Quiet(padded, '}') by {
      forall j: nat | j < |padded| ensures !PairAt(padded, '}', j) {
        if j < |n| { assert !PairAt(n, '}', j); }
      }
      NoPair(padded, '}');
    }
    FindAfterQuiet(padded, "}}" + tail, '}');
    PairIsFirst("}}" + tail, '}', 0);
    assert after[..|padded|] == padded && after[|padded| + 2..] == tail;
    PadName(n);
    assert [] + values[n] == values[n] && raw[..0] == [];
  }

  /** A value that is not inert can be made to leave a placeholder behind. */
  lemma ResidueFrom(n: string, values: Values) returns (raw: string)
    requires Referenceable(n) && n in values && !Inert(values[n])
    ensures Resolve(raw, values).Ok? && Names(Resolve(raw, values).value) != []
  {
    hide FindPair, Resolve, Names, Trim, Trimmed;
    var v := values[n];
    var tail := if FindPair(v, '{') < |v| then "}}" else "{}}";
    raw := Referring(n, tail);
    NoPair(tail, '{');
    ResolveStep(tail, values);
    ResolveReferring(n, tail, values);
    var out := v + tail;
    assert Resolve(raw, values) == Ok(out);
    var i := if FindPair(v, '{') < |v| then FindPair(v, '{') else |v| - 1;
    assert PairAt(v, '{', i) || i == |v| - 1;
    assert PairAt(out, '{', i);
    var k := FindPair(out, '{');
    assert k <= i;
    NamesStep(out);
    var after := out[k + 2..];
    assert k + 2 <= |out| - 2;
    assert after[|after| - 2] == out[|out| - 2] == tail[|tail| - 2] == '}';
    assert after[|after| - 1] == out[|out| - 1] == tail[|tail| - 1] == '}';
    assert PairAt(after, '}', |after| - 2);
    assert FindPair(after, '}') < |after|;
  }

  /** The exact condition on the values: resolving never leaves a placeholder, whatever the template
      text, exactly when every value that a text can refer to is inert. */
  lemma NoResidueExactlyWhenInert(values: Values)
    ensures (forall raw :: Resolve(raw, values).Ok? ==> Names(Resolve(raw, values).value) == [])
            <==> (forall n :: n in values && Referenceable(n) ==> Inert(values[n]))
  {
    if forall n :: n in values && Referenceable(n) ==> Inert(values[n]) {
      forall raw | Resolve(raw, values).Ok? ensures Names(Resolve(raw, values).value) == [] {
        forall n | n in Names(raw) && n in values ensures Inert(values[n]) { NamesAreReferenceable(raw, n); }
        OutputIsLiteral(raw, values);
      }
    } else {
      var n :| n in values && Referenceable(n) && !Inert(values[n]);
      var raw := ResidueFrom(n, values);
    }
  }
}
