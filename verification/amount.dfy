/** Amounts of backend/parser.py. Every pattern forces an integer part of
    digits (and, after a currency tag, thousands commas) and exactly two
    fraction digits; the source drops the commas and calls `float`. Here the
    same text is read exactly, as a whole number of paise. */
module Amount {
  import opened Text

  predicate AllDigits(s: string)
  {
    forall i :: 0 <= i < |s| ==> IsDigit(s[i])
  }

  predicate DigitsAndCommas(s: string)
  {
    forall i :: 0 <= i < |s| ==> IsDigit(s[i]) || s[i] == ','
  }

  function DigitValue(c: char): nat
    requires IsDigit(c)
  {
    c as int - '0' as int
  }

  /** The value of a decimal numeral; the empty numeral is 0. */
  function DecimalValue(s: string): nat
    requires AllDigits(s)
  {
    if |s| == 0 then 0 else DecimalValue(s[..|s| - 1]) * 10 + DigitValue(s[|s| - 1])
  }

  /** `s.replace(",", "")` */
  function WithoutCommas(s: string): (r: string)
    ensures |r| <= |s|
    ensures forall i :: 0 <= i < |r| ==> r[i] != ','
    ensures DigitsAndCommas(s) ==> AllDigits(r)
  {
    if |s| == 0 then ""
    else (if s[0] == ',' then "" else [s[0]]) + WithoutCommas(s[1..])
  }

  /** One character: a comma is dropped, anything else is kept. */
  lemma WithoutCommasChar(c: char)
    ensures WithoutCommas([c]) == if c == ',' then "" else [c]
  {
    assert [c][1..] == "";
  }

  /** Commas are dropped independently of their surroundings: with
      `WithoutCommasChar`, every non-comma character survives, in order. */
  lemma {:induction false} WithoutCommasAppend(a: string, b: string)
    ensures WithoutCommas(a + b) == WithoutCommas(a) + WithoutCommas(b)
    decreases |a|
  {
    if |a| == 0 {
      assert a + b == b;
    } else {
      assert (a + b)[0] == a[0] && (a + b)[1..] == a[1..] + b;
      WithoutCommasAppend(a[1..], b);
    }
  }

  /** The amount `intPart.frac` in paise: the integer part read with its
      commas removed gives the rupees, and the two fraction digits the
      paise. */
  function Paise(intPart: string, frac: string): (p: nat)
    requires DigitsAndCommas(intPart)
    requires |frac| == 2 && AllDigits(frac)
    ensures p / 100 == DecimalValue(WithoutCommas(intPart))
    ensures p % 100 == DecimalValue(frac)
  {
    TwoDigitsBelow100(frac);
    SplitHundreds(DecimalValue(WithoutCommas(intPart)), DecimalValue(frac));
    DecimalValue(WithoutCommas(intPart)) * 100 + DecimalValue(frac)
  }

  lemma TwoDigitsBelow100(frac: string)
    requires |frac| == 2 && AllDigits(frac)
    ensures DecimalValue(frac) < 100
  {
    assert frac[..1][..0] == "";
    assert DecimalValue(frac[..1]) == DigitValue(frac[0]);
    assert DecimalValue(frac) == DigitValue(frac[0]) * 10 + DigitValue(frac[1]);
  }

  lemma SplitHundreds(q: nat, r: nat)
    requires r < 100
    ensures (q * 100 + r) / 100 == q && (q * 100 + r) % 100 == r
  {
  }

  /** A thousands comma inside the integer part does not change the
      amount. */
  lemma PaiseIgnoresComma(a: string, b: string, frac: string)
    requires DigitsAndCommas(a) && DigitsAndCommas(b)
    requires |frac| == 2 && AllDigits(frac)
    ensures DigitsAndCommas(a + "," + b) && DigitsAndCommas(a + b)
    ensures Paise(a + "," + b, frac) == Paise(a + b, frac)
  {
    WithoutCommasAppend(a + ",", b);
    WithoutCommasAppend(a, ",");
    WithoutCommasChar(',');
    WithoutCommasAppend(a, b);
    assert WithoutCommas(a + ",") == WithoutCommas(a);
  }

  function DigitChar(d: nat): (c: char)
    requires d < 10
    ensures IsDigit(c) && DigitValue(c) == d
  {
    ('0' as int + d) as char
  }

  /** The shortest decimal numeral of `n`. */
  function DecimalText(n: nat): (s: string)
    ensures |s| > 0 && AllDigits(s)
  {
    if n < 10 then [DigitChar(n)] else DecimalText(n / 10) + [DigitChar(n % 10)]
  }

  lemma {:induction false} DecimalTextValue(n: nat)
    ensures DecimalValue(DecimalText(n)) == n
  {
    var s := DecimalText(n);
    if n >= 10 {
      assert s[..|s| - 1] == DecimalText(n / 10);
      DecimalTextValue(n / 10);
    } else {
      assert s[..0] == "";
    }
  }

  lemma {:induction false} WithoutCommasFixed(s: string)
    requires AllDigits(s)
    ensures WithoutCommas(s) == s
  {
    if |s| > 0 {
      WithoutCommasFixed(s[1..]);
      assert s == [s[0]] + s[1..];
    }
  }

  /** The two fraction digits of an amount in paise. */
  function FractionText(paise: nat): (f: string)
    ensures |f| == 2 && AllDigits(f)
  {
    [DigitChar(paise / 10 % 10), DigitChar(paise % 10)]
  }

  lemma FractionValue(paise: nat)
    ensures DecimalValue(FractionText(paise)) == paise % 100
  {
    var f := FractionText(paise);
    assert f[..1] == [f[0]] && [f[0]][..0] == "";
    assert DecimalValue(f[..1]) == paise / 10 % 10;
    assert DecimalValue(f) == (paise / 10 % 10) * 10 + paise % 10;
  }

  lemma SameHundreds(a: nat, b: nat)
    requires a / 100 == b / 100 && a % 100 == b % 100
    ensures a == b
  {
  }

  /** Reading undoes writing: an amount written as rupees, ".", and two
      paise digits reads back as the same number of paise. */
  lemma PaiseRoundTrip(paise: nat)
    ensures Paise(DecimalText(paise / 100), FractionText(paise)) == paise
  {
    var t := DecimalText(paise / 100);
    DecimalTextValue(paise / 100);
    WithoutCommasFixed(t);
    FractionValue(paise);
    SameHundreds(Paise(t, FractionText(paise)), paise);
  }
}
