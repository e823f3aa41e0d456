/** String primitives of the Rust standard library that the sources lean on. */
module Text {
  /** The Unicode `White_Space` characters, which `str::trim` strips. */
  predicate IsSpace(c: char) {
    || 0x09 <= c as int <= 0x0D || c as int == 0x20 || c as int == 0x85 || c as int == 0xA0
    || c as int == 0x1680 || 0x2000 <= c as int <= 0x200A || c as int == 0x2028 || c as int == 0x2029
    || c as int == 0x202F || c as int == 0x205F || c as int == 0x3000
  }

  /** All 25 of them. */
  lemma SpacesAre(c: char)
    ensures IsSpace(c) <==>
            c as int in {9, 10, 11, 12, 13, 32, 133, 160, 5760, 8192, 8193, 8194, 8195, 8196, 8197, 8198, 8199, 8200, 8201, 8202,
                         8232, 8233, 8239, 8287, 12288}
  {
  }

  function TrimStart(s: string): string {
    if s != [] && IsSpace(s[0]) then TrimStart(s[1..]) else s
  }

  function TrimEnd(s: string): string {
    if s != [] && IsSpace(s[|s| - 1]) then TrimEnd(s[..|s| - 1]) else s
  }

  function Trim(s: string): string { TrimEnd(TrimStart(s)) }

  /** Neither end is white space. */
  predicate Trimmed(s: string) {
    s == [] || (!IsSpace(s[0]) && !IsSpace(s[|s| - 1]))
  }

  lemma TrimmedIsKept(s: string)
    requires Trimmed(s)
    ensures Trim(s) == s && TrimStart(s) == s && TrimEnd(s) == s
  {
  }

  lemma {:induction false} TrimIsTrimmed(s: string)
    ensures Trimmed(Trim(s))
  {
    TrimStartIsSuffix(s);
    TrimEndIsPrefix(TrimStart(s));
  }

  lemma {:induction false} TrimStartIsSuffix(s: string)
    ensures |TrimStart(s)| <= |s| && TrimStart(s) == s[|s| - |TrimStart(s)|..]
    ensures TrimStart(s) == [] || !IsSpace(TrimStart(s)[0])
  {
    if s != [] && IsSpace(s[0]) { TrimStartIsSuffix(s[1..]); }
  }

  lemma {:induction false} TrimEndIsPrefix(s: string)
    ensures |TrimEnd(s)| <= |s| && TrimEnd(s) == s[..|TrimEnd(s)|]
    ensures TrimEnd(s) == [] || !IsSpace(TrimEnd(s)[|TrimEnd(s)| - 1])
  {
    if s != [] && IsSpace(s[|s| - 1]) { TrimEndIsPrefix(s[..|s| - 1]); }
  }

  lemma TrimIsInfix(s: string) returns (k: nat)
    ensures k + |Trim(s)| <= |s| && Trim(s) == s[k..k + |Trim(s)|]
  {
    hide TrimStart, TrimEnd;
    TrimStartIsSuffix(s);
    TrimEndIsPrefix(TrimStart(s));
    k := |s| - |TrimStart(s)|;
  }

  predicate PairAt(s: string, c: char, j: nat) {
    j + 1 < |s| && s[j] == c && s[j + 1] == c
  }

  /** `find` for a doubled character: the first position of `cc`, or the length. */
  function FindPair(s: string, c: char): (i: nat)
    ensures i <= |s| && (i < |s| ==> i + 1 < |s| && PairAt(s, c, i))
    ensures forall j: nat :: j < i ==> !PairAt(s, c, j)
  {
    if |s| < 2 then |s|
    else if s[0] == c && s[1] == c then 0
    else
      var i := FindPair(s[1..], c);
      assert forall j: nat :: 0 < j ==> PairAt(s, c, j) == PairAt(s[1..], c, j - 1);
      i + 1
  }

  /** `s` has no `cc`, and appending anything cannot make one across the seam. */
  predicate Quiet(s: string, c: char) {
    FindPair(s, c) == |s| && (s != [] ==> s[|s| - 1] != c)
  }

  lemma PairIsFirst(s: string, c: char, i: nat)
    requires PairAt(s, c, i)
    requires forall j: nat :: j < i ==> !PairAt(s, c, j)
    ensures FindPair(s, c) == i
  {
  }

  lemma NoPair(s: string, c: char)
    requires forall j: nat :: j < |s| ==> !PairAt(s, c, j)
    ensures FindPair(s, c) == |s|
  {
  }

  /** What comes before the first pair is quiet. */
  lemma BeforePairIsQuiet(s: string, c: char)
    requires FindPair(s, c) < |s|
    ensures Quiet(s[..FindPair(s, c)], c)
  {
    var i := FindPair(s, c);
    forall j: nat | j < i ensures !PairAt(s[..i], c, j) { assert !PairAt(s, c, j); }
    NoPair(s[..i], c);
    if i > 0 { assert !PairAt(s, c, i - 1); }
  }

  lemma QuietThenQuiet(a: string, b: string, c: char)
    requires Quiet(a, c) && Quiet(b, c)
    ensures Quiet(a + b, c)
  {
    FindAfterQuiet(a, b, c);
  }

  /** A quiet prefix only shifts the search. */
  lemma FindAfterQuiet(a: string, b: string, c: char)
    requires Quiet(a, c)
    ensures FindPair(a + b, c) == |a| + FindPair(b, c)
  {
    var s, i := a + b, |a| + FindPair(b, c);
    forall j: nat | j < i ensures !PairAt(s, c, j) {
      if j + 1 < |a| { assert !PairAt(a, c, j); }
      if j >= |a| { assert !PairAt(b, c, j - |a|); }
    }
    if FindPair(b, c) < |b| { PairIsFirst(s, c, i); } else { NoPair(s, c); }
  }
}
