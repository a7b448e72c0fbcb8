/**
 * Decimal text of natural numbers: the zero-padded fixed-width fields that
 * strftime/strptime use for '%Y', '%m', '%d', '%H', '%M', '%S' and '%f', and
 * the shortest form that str.format writes for an integer.
 */
module Digits {
  import opened Wrappers

  predicate IsDigit(c: char) { '0' <= c <= '9' }

  predicate AllDigits(s: string) { forall i :: 0 <= i < |s| ==> IsDigit(s[i]) }

  function DigitChar(d: nat): (c: char)
    requires d < 10
    ensures IsDigit(c)
  {
    ('0' as int + d) as char
  }

  function DigitValue(c: char): (d: nat)
    requires IsDigit(c)
    ensures d < 10 && DigitChar(d) == c
  {
    c as int - '0' as int
  }

  function Pow10(w: nat): (p: nat)
    ensures p >= 1
  {
    if w == 0 then 1 else 10 * Pow10(w - 1)
  }

  /** n written with exactly w digits, most significant first, padded with '0'. */
  function Padded(n: nat, w: nat): (s: string)
    ensures |s| == w && AllDigits(s)
  {
    if w == 0 then [] else Padded(n / 10, w - 1) + [DigitChar(n % 10)]
  }

  /** The number a non-empty run of digits denotes; None if some character is not a digit. */
  function ParseDigits(s: string): (r: Option<nat>)
    ensures r.Some? <==> AllDigits(s)
  {
    if s == [] then Some(0)
    else if !IsDigit(s[|s| - 1]) then None
    else match ParseDigits(s[..|s| - 1])
      case None => None
      case Some(high) => Some(10 * high + DigitValue(s[|s| - 1]))
  }

  /** Reading back a padded field gives the number, when it fits in the width. */
  lemma {:induction false} ParsePadded(n: nat, w: nat)
    requires n < Pow10(w)
    ensures ParseDigits(Padded(n, w)) == Some(n)
  {
    if w > 0 {
      var s := Padded(n, w);
      assert s[..|s| - 1] == Padded(n / 10, w - 1);
      ParsePadded(n / 10, w - 1);
    }
  }

  /** A parsed field is below 10^width. */
  lemma {:induction false} ParseDigitsBound(s: string)
    requires AllDigits(s)
    ensures ParseDigits(s).value < Pow10(|s|)
  {
    if s != [] {
      ParseDigitsBound(s[..|s| - 1]);
    }
  }

  /** Padding the parsed number back to the text's width gives the text itself. */
  lemma {:induction false} PaddedParse(s: string)
    requires AllDigits(s)
    ensures Padded(ParseDigits(s).value, |s|) == s
  {
    if s != [] {
      var init := s[..|s| - 1];
      PaddedParse(init);
      var n := ParseDigits(s).value;
      assert n / 10 == ParseDigits(init).value;
      assert n % 10 == DigitValue(s[|s| - 1]);
      assert s == init + [s[|s| - 1]];
    }
  }

  /** str(n): the shortest decimal text of n. */
  function Decimal(n: nat): (s: string)
    ensures |s| >= 1 && AllDigits(s)
  {
    if n < 10 then [DigitChar(n)] else Decimal(n / 10) + [DigitChar(n % 10)]
  }

  lemma {:induction false} ParseDecimal(n: nat)
    ensures ParseDigits(Decimal(n)) == Some(n)
  {
    if n >= 10 {
      var s := Decimal(n);
      assert s[..|s| - 1] == Decimal(n / 10);
      ParseDecimal(n / 10);
    } else {
      assert Decimal(n)[..0] == [];
    }
  }

  /** Different numbers have different decimal texts. */
  lemma DecimalInjective(a: nat, b: nat)
    requires Decimal(a) == Decimal(b)
    ensures a == b
  {
    ParseDecimal(a);
    ParseDecimal(b);
  }
}
