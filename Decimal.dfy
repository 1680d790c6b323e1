/** Decimal text of a C# `int`, as string concatenation (`"T " + v`) renders it
    through Int32.ToString with the invariant "-" sign, and the parser that
    reads such text back. */
module Decimal {

  datatype Option<T> = None | Some(value: T)
  {
    /** The value held, or `default` when there is none. */
    function GetOr(default: T): T {
      match this
      case Some(v) => v
      case None => default
    }
  }

  predicate IsDigit(c: char) {
    '0' <= c <= '9'
  }

  function DigitChar(d: nat): (c: char)
    requires d < 10
    ensures IsDigit(c) && DigitValue(c) == d
  {
    (d + '0' as int) as char
  }

  function DigitValue(c: char): (d: nat)
    requires IsDigit(c)
    ensures d < 10
  {
    c as int - '0' as int
  }

  predicate AllDigits(s: string) {
    forall i :: 0 <= i < |s| ==> IsDigit(s[i])
  }

  /** The canonical spelling of a natural number: one or more digits and no
      leading zero unless the number is zero itself. */
  predicate IsCanonicalNat(s: string) {
    |s| >= 1 && AllDigits(s) && (s[0] == '0' ==> |s| == 1)
  }

  /** The canonical spelling of an integer: a canonical natural, or a minus
      sign followed by the canonical spelling of a positive number. */
  predicate IsCanonicalInt(s: string) {
    IsCanonicalNat(s) || (|s| >= 2 && s[0] == '-' && IsCanonicalNat(s[1..]) && s[1] != '0')
  }

  /** Digits of `n`, most significant first. */
  function NatToDecimal(n: nat): (s: string)
    ensures IsCanonicalNat(s)
    ensures (n == 0) == (s[0] == '0')
  {
    if n < 10 then [DigitChar(n)] else NatToDecimal(n / 10) + [DigitChar(n % 10)]
  }

  /** Int32.ToString: a leading "-" for a negative value, then the digits of
      its magnitude. */
  function IntToDecimal(i: int): (s: string)
    ensures IsCanonicalInt(s)
    ensures (i < 0) == (s[0] == '-')
  {
    if i < 0 then "-" + NatToDecimal(-i) else NatToDecimal(i)
  }

  /** Value of a non-empty digit string, read most significant digit first. */
  function ParseNat(s: string): nat
    requires |s| >= 1 && AllDigits(s)
  {
    if |s| == 1 then DigitValue(s[0])
    else ParseNat(s[..|s| - 1]) * 10 + DigitValue(s[|s| - 1])
  }

  /** Reads back exactly the canonical spellings; anything else is `None`. */
  function ParseInt(s: string): Option<int> {
    if IsCanonicalNat(s) then Some(ParseNat(s))
    else if IsCanonicalInt(s) then Some(-(ParseNat(s[1..]) as int))
    else None
  }

  lemma {:induction false} ParseNatToDecimal(n: nat)
    ensures ParseNat(NatToDecimal(n)) == n
  {
    if n >= 10 {
      var s := NatToDecimal(n);
      assert s[..|s| - 1] == NatToDecimal(n / 10);
      ParseNatToDecimal(n / 10);
    }
  }

  /** A canonical digit string with a non-zero first digit denotes a positive number. */
  lemma {:induction false} ParseNatPositive(s: string)
    requires |s| >= 1 && AllDigits(s) && s[0] != '0'
    ensures ParseNat(s) > 0
  {
    if |s| > 1 {
      ParseNatPositive(s[..|s| - 1]);
    }
  }

  /** Every canonical digit string is the rendering of the number it denotes. */
  lemma {:induction false} NatToDecimalParseNat(s: string)
    requires IsCanonicalNat(s)
    ensures NatToDecimal(ParseNat(s)) == s
  {
    if |s| > 1 {
      var p := s[..|s| - 1];
      assert IsCanonicalNat(p);
      ParseNatPositive(p);
      NatToDecimalParseNat(p);
      var n := ParseNat(s);
      assert n / 10 == ParseNat(p) && n % 10 == DigitValue(s[|s| - 1]);
    }
  }

  /** Reading back the rendering of any integer gives that integer. */
  lemma DecimalRoundTrip(i: int)
    ensures ParseInt(IntToDecimal(i)) == Some(i)
  {
    var s := IntToDecimal(i);
    if i < 0 {
      var m := NatToDecimal(-i);
      assert s[1..] == m && !IsDigit(s[0]);
      ParseNatToDecimal(-i);
      assert !IsCanonicalNat(s) && IsCanonicalNat(m) && m[0] != '0';
    } else {
      ParseNatToDecimal(i);
      assert IsCanonicalNat(s);
    }
  }

  /** Whatever the parser accepts is the rendering of the value it reads, so
      each integer has exactly one decimal spelling. */
  lemma DecimalCanonical(s: string, i: int)
    requires ParseInt(s) == Some(i)
    ensures IntToDecimal(i) == s
  {
    if IsCanonicalNat(s) {
      NatToDecimalParseNat(s);
      if s[0] != '0' {
        ParseNatPositive(s);
      }
    } else {
      ParseNatPositive(s[1..]);
      NatToDecimalParseNat(s[1..]);
    }
  }
}
