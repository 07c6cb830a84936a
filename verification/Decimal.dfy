/** Whole numbers as JavaScript spells them, and back.

    Digits, with a minus sign in front of negative numbers. Every other spelling reads as not a number,
    which is less than JavaScript accepts and all that the sources write. */
module Decimal {
  import opened Options

  function Digit(d: nat): char
    requires d < 10
  {
    '0' + d as char
  }

  predicate IsDigit(c: char) { '0' <= c <= '9' }

  function DigitValue(c: char): nat
    requires IsDigit(c)
  {
    (c - '0') as nat
  }

  function PrintNat(n: nat): (s: string)
    ensures s != [] && forall i :: 0 <= i < |s| ==> IsDigit(s[i])
  {
    if n < 10 then [Digit(n)] else PrintNat(n / 10) + [Digit(n % 10)]
  }

  function Print(n: int): string {
    if n < 0 then "-" + PrintNat(-n) else PrintNat(n)
  }

  function ParseNat(s: string): Option<nat> {
    if s == [] || !IsDigit(s[|s| - 1]) then None
    else if |s| == 1 then Some(DigitValue(s[0]))
    else
      match ParseNat(s[..|s| - 1])
      case None => None
      case Some(high) => Some(high * 10 + DigitValue(s[|s| - 1]))
  }

  function Parse(s: string): Option<int> {
    if s != [] && s[0] == '-' then
      match ParseNat(s[1..])
      case None => None
      case Some(n) => var magnitude: int := n; Some(-magnitude)
    else
      match ParseNat(s)
      case None => None
      case Some(n) => Some(n)
  }

  lemma {:induction false} ParseNatOfPrint(n: nat)
    ensures ParseNat(PrintNat(n)) == Some(n)
  {
    if n >= 10 {
      var s := PrintNat(n);
      ParseNatOfPrint(n / 10);
      assert s[..|s| - 1] == PrintNat(n / 10);
      assert n / 10 * 10 + n % 10 == n;
    }
  }

  lemma {:induction false} ParseOfPrint(n: int)
    ensures Parse(Print(n)) == Some(n)
  {
    var magnitude := if n < 0 then -n else n;
    ParseNatOfPrint(magnitude);
  }

  lemma {:induction false} ParseNatIff(s: string)
    ensures ParseNat(s).Some? <==> s != "" && forall i :: 0 <= i < |s| ==> 48 <= s[i] as int <= 57
  {
    if |s| > 1 {
      ParseNatIff(s[..|s| - 1]);
    }
  }

  /** Only digits, behind a minus sign if need be, are a number. */
  lemma {:induction false} ParseIff(s: string)
    ensures var digits := if s != "" && s[0] == '-' then s[1..] else s;
      Parse(s).Some? <==> digits != "" && forall i :: 0 <= i < |digits| ==> 48 <= digits[i] as int <= 57
  {
    ParseNatIff(if s != "" && s[0] == '-' then s[1..] else s);
  }
}
