/** Decimal numbers as `to_string` prints and `str::parse` reads them. */
module Decimal {
  import opened Options

  const U64_MAX: int := 0xFFFF_FFFF_FFFF_FFFF
  const I64_MIN: int := -0x8000_0000_0000_0000
  const I64_MAX: int := 0x7FFF_FFFF_FFFF_FFFF

  function Digit(d: nat): char
    requires d < 10
  {
    '0' + d as char
  }

  predicate IsDigit(c: char) { '0' <= c <= '9' }

  function ShowNat(n: nat): (s: string)
    ensures s != [] && forall i :: 0 <= i < |s| ==> IsDigit(s[i])
  {
    if n < 10 then [Digit(n)] else ShowNat(n / 10) + [Digit(n % 10)]
  }

  /** Decimal notation: the numbers below ten are their digits, and each further digit stands behind. */
  lemma DecimalIs(n: nat, d: nat)
    requires d < 10
    ensures ShowNat(d) == ["0123456789"[d]]
    ensures n > 0 ==> ShowNat(10 * n + d) == ShowNat(n) + ["0123456789"[d]]
  {
    if n > 0 { assert (10 * n + d) / 10 == n && (10 * n + d) % 10 == d; }
  }

  function Show(n: int): string { if n < 0 then "-" + ShowNat(-n) else ShowNat(n) }

  function ReadNat(s: string): Option<nat> {
    if s == [] || !IsDigit(s[|s| - 1]) then None
    else
      var d := (s[|s| - 1] - '0') as nat;
      if |s| == 1 then Some(d)
      else
        match ReadNat(s[..|s| - 1])
        case None => None
        case Some(n) => Some(10 * n + d)
  }

  /** `parse::<u64>`: an optional plus sign, then digits within range. */
  function ReadU64(s: string): Option<nat> {
    match ReadNat(if s != [] && s[0] == '+' then s[1..] else s)
    case None => None
    case Some(n) => if n <= U64_MAX then Some(n) else None
  }

  /** `parse::<i64>`: an optional sign, then digits within range. */
  function ReadI64(s: string): Option<int> {
    if s != [] && s[0] == '-' then
      match ReadNat(s[1..])
      case None => None
      case Some(n) => if n <= -I64_MIN then Some(-(n as int)) else None
    else
      match ReadNat(if s != [] && s[0] == '+' then s[1..] else s)
      case None => None
      case Some(n) => if n <= I64_MAX then Some(n) else None
  }

  lemma {:induction false} ReadNatOfShow(n: nat)
    ensures ReadNat(ShowNat(n)) == Some(n)
  {
    if n >= 10 {
      ReadNatOfShow(n / 10);
      var s := ShowNat(n);
      assert s[..|s| - 1] == ShowNat(n / 10);
      assert s[|s| - 1] == Digit(n % 10);
    }
  }

  /** Printing and reading gives the number back exactly when it fits. */
  lemma U64RoundTrip(n: nat)
    ensures ReadU64(Show(n)) == Some(n) <==> n <= 0xFFFF_FFFF_FFFF_FFFF
  {
    ReadNatOfShow(n);
  }

  lemma I64RoundTrip(n: int)
    ensures ReadI64(Show(n)) == Some(n) <==> -0x8000_0000_0000_0000 <= n <= 0x7FFF_FFFF_FFFF_FFFF
  {
    if n < 0 {
      ReadNatOfShow(-n);
      assert Show(n)[1..] == ShowNat(-n);
    } else {
      ReadNatOfShow(n);
    }
  }

  lemma ShowIsPlain(n: int)
    ensures Show(n) != [] && forall i :: 0 <= i < |Show(n)| ==> IsDigit(Show(n)[i]) || Show(n)[i] == '-'
  {
  }
}
