/** Money and quantities in hundredths (cents): the single rounding rule of the
    model and the "{:.2f}" rendering with the parser that reads it back. */
module Money {
  import opened Wrappers
  import opened Strings

  /** n / d rounded to the nearest integer, ties away from zero. Every rounding in
      the pipeline goes through this function: unit x rate (d = 100) and
      subtotal x 10% (d = 100 after scaling by 10). */
  function RoundDiv(n: int, d: int): (q: int)
    requires 0 < d
    ensures -d <= 2 * (n - d * q) <= d
    ensures 2 * (n - d * q) == d ==> n < 0
    ensures 2 * (n - d * q) == -d ==> 0 < n
  {
    if n >= 0 then (2 * n + d) / (2 * d) else -((2 * -n + d) / (2 * d))
  }

  /** No other integer is closer to n / d than RoundDiv(n, d). */
  lemma RoundDivNearest(n: int, d: int, k: int)
    requires 0 < d
    ensures var e := n - d * RoundDiv(n, d);
            (if e < 0 then -e else e) <= (if n - d * k < 0 then -(n - d * k) else n - d * k)
  {
    var q := RoundDiv(n, d);
    var e := n - d * q;
    assert n - d * k == e + d * (q - k);
    if q - k >= 1 {
      assert d * (q - k) >= d;
    } else if q - k <= -1 {
      assert d * (q - k) <= -d;
    }
  }

  /** The cents amount of unit x rate, both in cents. */
  function Product(unit: int, rate: int): int
  {
    RoundDiv(unit * rate, 100)
  }

  /** "{:.2f}".format of an amount already in cents: an optional '-', the
      integer part without leading zeros, '.', and exactly two digits. */
  function FormatCents(c: int): (s: string)
    ensures 4 <= |s| && s[|s| - 3] == '.'
    ensures IsDigit(s[|s| - 2]) && IsDigit(s[|s| - 1])
    ensures s[0] == '-' <==> c < 0
  {
    (if c < 0 then "-" else "") + Unsigned(if c < 0 then -c else c)
  }

  /** The digits of m / 100, '.', and the two digits of m % 100. */
  function Unsigned(m: nat): (s: string)
    ensures 4 <= |s| && s[|s| - 3] == '.' && IsDigit(s[0])
    ensures IsDigit(s[|s| - 2]) && IsDigit(s[|s| - 1])
  {
    NatToDigits(m / 100) + "." + Pad2(m % 100)
  }

  /** Reads a decimal with at most two fraction digits back into cents, as
      float(...) followed by "{:.2f}" does for such strings; None for
      anything else. */
  function ParseCents(s: string): (r: Option<int>)
    ensures r.Some? && s != [] && s[0] == '-' ==> r.value <= 0
  {
    if s != [] && s[0] == '-' then
      var m :- ParseUnsigned(s[1..]);
      Some(-(m as int))
    else
      ParseUnsigned(s)
  }

  function ParseUnsigned(s: string): (r: Option<nat>)
  {
    var parts := Split(s, '.');
    var whole := parts[0];
    if whole == [] || !AllDigits(whole) then None
    else if |parts| == 1 then Some(100 * DigitsToNat(whole))
    else if |parts| == 2 && 1 <= |parts[1]| <= 2 && AllDigits(parts[1]) then
      var frac := DigitsToNat(parts[1]);
      Some(100 * DigitsToNat(whole) + (if |parts[1]| == 1 then 10 * frac else frac))
    else None
  }

  /** Rendering then reading gives back the same number of cents. */
  lemma ParseFormatCents(c: int)
    ensures ParseCents(FormatCents(c)) == Some(c)
  {
    var m := if c < 0 then -c else c;
    var t := Unsigned(m);
    ParseUnsignedFormat(m);
    if c < 0 {
      assert FormatCents(c) == "-" + t;
      assert ("-" + t)[1..] == t;
    } else {
      assert FormatCents(c) == t;
    }
  }

  lemma ParseUnsignedFormat(m: nat)
    ensures ParseUnsigned(Unsigned(m)) == Some(m)
  {
    ParseUnsignedParts(NatToDigits(m / 100), Pad2(m % 100));
    DigitsRoundTrip(m / 100);
    assert 100 * (m / 100) + m % 100 == m;
  }

  /** A digit string, '.', and two digits read as whole x 100 + fraction. */
  lemma ParseUnsignedParts(whole: string, frac: string)
    requires whole != [] && AllDigits(whole) && |frac| == 2 && AllDigits(frac)
    ensures ParseUnsigned(whole + "." + frac) == Some(100 * DigitsToNat(whole) + DigitsToNat(frac))
  {
    var s := whole + "." + frac;
    assert '.' !in whole && '.' !in frac by {
      assert !IsDigit('.');
    }
    assert s == whole + ['.'] + frac;
    SplitAround(whole, frac, '.');
    var parts := Split(s, '.');
    assert parts[0] == whole && parts[1] == frac;
  }

  /** Rendering is one-to-one: two amounts print alike only when equal. */
  lemma FormatCentsInjective(a: int, b: int)
    requires FormatCents(a) == FormatCents(b)
    ensures a == b
  {
    ParseFormatCents(a);
    ParseFormatCents(b);
  }
}
