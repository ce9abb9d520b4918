/**
 * Prices and their two-decimal text form. A price is held as a whole number of
 * hundredths (piastres), so `12.5` is `1250`; its text is what Python's
 * `f"{float(p):.2f}"` prints for such a value.
 */
module Price {
  import opened Wrappers

  predicate IsDigit(c: char)
  {
    '0' <= c <= '9'
  }

  predicate AllDigits(s: string)
  {
    forall i :: 0 <= i < |s| ==> IsDigit(s[i])
  }

  function DigitChar(d: nat): (c: char)
    requires d < 10
    ensures IsDigit(c)
  {
    ('0' as int + d) as char
  }

  function DigitValue(c: char): (d: nat)
    requires IsDigit(c)
    ensures d < 10 && DigitChar(d) == c
  {
    (c as int - '0' as int) as nat
  }

  /** The decimal numeral of `n`: digits only, no leading zero except for `0` itself. */
  function NatToDecimal(n: nat): (r: string)
    ensures |r| >= 1 && AllDigits(r)
    ensures r[0] == '0' ==> n == 0 && r == "0"
  {
    if n < 10 then [DigitChar(n)]
    else NatToDecimal(n / 10) + [DigitChar(n % 10)]
  }

  /** The value of a string of decimal digits. */
  function DecimalToNat(s: string): nat
    requires AllDigits(s)
  {
    if s == [] then 0
    else 10 * DecimalToNat(s[..|s| - 1]) + DigitValue(s[|s| - 1])
  }

  /** The shape every printed price has: optional `-`, digits, `.`, exactly two digits. */
  predicate TwoDecimalText(r: string)
  {
    && |r| >= 4
    && r[|r| - 3] == '.'
    && IsDigit(r[|r| - 2]) && IsDigit(r[|r| - 1])
    && (r[0] == '-' || IsDigit(r[0]))
    && forall i :: 0 < i < |r| - 3 ==> IsDigit(r[i])
  }

  /** The text of a non-negative price of `m` hundredths: whole part, `.`, two digits. */
  function UnsignedText(m: nat): (r: string)
    ensures |r| >= 4 && IsDigit(r[0]) && r[|r| - 3] == '.'
    ensures AllDigits(r[..|r| - 3]) && AllDigits(r[|r| - 2..])
    ensures r[0] == '0' ==> r[1] == '.'
  {
    NatToDecimal(m / 100) + "." + [DigitChar(m % 100 / 10), DigitChar(m % 10)]
  }

  /** The text of a price of `c` hundredths, as `:.2f` prints it. */
  function FormatPrice(c: int): (r: string)
    ensures TwoDecimalText(r)
    ensures c >= 0 <==> r[0] != '-'
    ensures forall i :: 0 <= i < |r| ==> r[i] == '-' || r[i] == '.' || IsDigit(r[i])
    ensures var w := if r[0] == '-' then 1 else 0; r[w] == '0' ==> r[w + 1] == '.'
  {
    if c < 0 then "-" + UnsignedText(-c) else UnsignedText(c)
  }

  /** Reads back `digits.dd`; `None` for any other text. */
  function ParseUnsigned(s: string): Option<nat>
  {
    if |s| < 4 || s[|s| - 3] != '.' || !AllDigits(s[..|s| - 3]) || !AllDigits(s[|s| - 2..]) then None
    else Some(DecimalToNat(s[..|s| - 3]) * 100 + DigitValue(s[|s| - 2]) * 10 + DigitValue(s[|s| - 1]))
  }

  /** Reads back a price printed with exactly two decimals; `None` for any other text. */
  function ParsePrice(s: string): Option<int>
  {
    if |s| > 0 && s[0] == '-' then
      match ParseUnsigned(s[1..])
      case Some(m) => Some(-(m as int))
      case None => None
    else
      match ParseUnsigned(s)
      case Some(m) => Some(m as int)
      case None => None
  }

  lemma {:induction false} DecimalRoundTrip(n: nat)
    ensures DecimalToNat(NatToDecimal(n)) == n
  {
    if n >= 10 {
      var r := NatToDecimal(n);
      assert r[..|r| - 1] == NatToDecimal(n / 10);
      DecimalRoundTrip(n / 10);
    }
  }

  lemma UnsignedRoundTrip(m: nat)
    ensures ParseUnsigned(UnsignedText(m)) == Some(m)
  {
    var w := NatToDecimal(m / 100);
    var d1, d2 := DigitChar(m % 100 / 10), DigitChar(m % 10);
    var s := UnsignedText(m);
    assert s == w + "." + [d1, d2];
    assert s[..|s| - 3] == w;
    assert s[|s| - 2] == d1 && s[|s| - 1] == d2;
    DecimalRoundTrip(m / 100);
    assert DigitValue(d1) == m % 100 / 10 && DigitValue(d2) == m % 10;
  }

  /** Printing a price and reading it back gives the same number of hundredths. */
  lemma PriceRoundTrip(c: int)
    ensures ParsePrice(FormatPrice(c)) == Some(c)
  {
    if c < 0 {
      NegativeRoundTrip(-c);
    } else {
      NonNegativeRoundTrip(c);
    }
  }

  lemma NegativeRoundTrip(m: nat)
    ensures ParsePrice("-" + UnsignedText(m)) == Some(-(m as int))
  {
    var u := UnsignedText(m);
    var s := "-" + u;
    assert s[0] == '-' && s[1..] == u;
    UnsignedRoundTrip(m);
  }

  lemma NonNegativeRoundTrip(m: nat)
    ensures ParsePrice(UnsignedText(m)) == Some(m as int)
  {
    UnsignedRoundTrip(m);
  }

  /** The price 12.5 is printed as `12.50`. */
  lemma TwelveFifty()
    ensures FormatPrice(1250) == "12.50"
  {
    assert NatToDecimal(12) == "12" by {
      assert NatToDecimal(1) == "1";
    }
    assert UnsignedText(1250) == "12" + "." + "50";
  }

  /** A zero price is printed as `0.00`. */
  lemma ZeroPrice()
    ensures FormatPrice(0) == "0.00"
  {
    assert UnsignedText(0) == "0" + "." + "00";
  }

  /** A price of -0.05 is printed as `-0.05`, with its leading zero. */
  lemma MinusFivePiastres()
    ensures FormatPrice(-5) == "-0.05"
  {
    assert UnsignedText(5) == "0" + "." + "05";
  }
}
