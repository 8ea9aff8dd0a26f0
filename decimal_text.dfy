/**
 * Decimal text of non-negative whole numbers, as JavaScript template literals
 * (`${n}`) print them, and the parsers that read the habit screen's two labels back.
 */
module DecimalText {
  import opened Wrappers

  predicate IsDigit(c: char) {
    '0' <= c <= '9'
  }

  predicate AllDigits(s: string) {
    forall j :: 0 <= j < |s| ==> IsDigit(s[j])
  }

  function DigitChar(d: nat): (c: char)
    requires d < 10
    ensures IsDigit(c)
  {
    (48 + d) as char
  }

  function DigitValue(c: char): nat
    requires IsDigit(c)
  {
    c as int - 48
  }

  /** `${n}` for a whole number `n >= 0`: its digits, most significant first. */
  function Decimal(n: nat): (s: string)
    ensures |s| >= 1 && AllDigits(s)
    ensures s[0] == '0' ==> n == 0
  {
    if n < 10 then [DigitChar(n)] else Decimal(n / 10) + [DigitChar(n % 10)]
  }

  /** The number a string of digits spells. */
  function DigitsValue(s: string): nat
    requires AllDigits(s)
  {
    if s == [] then 0 else DigitsValue(s[..|s| - 1]) * 10 + DigitValue(s[|s| - 1])
  }

  /** Reads canonical decimal text only: digits, with no leading zero unless the number is 0. */
  function ParseNat(s: string): Option<nat> {
    if s != [] && AllDigits(s) && (s == "0" || s[0] != '0') then Some(DigitsValue(s)) else None
  }

  /** Index of the first `c` in `s`, or `|s|` when there is none. */
  function FirstIndex(s: string, c: char): (i: nat)
    ensures i <= |s|
    ensures forall j :: 0 <= j < i ==> s[j] != c
    ensures i < |s| ==> s[i] == c
  {
    if s == [] then 0 else if s[0] == c then 0 else 1 + FirstIndex(s[1..], c)
  }

  /** Reads a "k/n" label. */
  function ParseFraction(s: string): Option<(nat, nat)> {
    var i := FirstIndex(s, '/');
    if i == |s| then None
    else match (ParseNat(s[..i]), ParseNat(s[i + 1..]))
      case (Some(k), Some(n)) => Some((k, n))
      case _ => None
  }

  /** Reads a "p%" label. */
  function ParsePercent(s: string): Option<nat> {
    if s != [] && s[|s| - 1] == '%' then ParseNat(s[..|s| - 1]) else None
  }

  lemma {:induction false} DecimalRoundTrip(n: nat)
    ensures ParseNat(Decimal(n)) == Some(n)
  {
    var s := Decimal(n);
    assert n == 0 ==> s == "0";
    if n < 10 {
      assert DigitsValue(s) == DigitsValue([]) * 10 + DigitValue(DigitChar(n));
    } else {
      DecimalRoundTrip(n / 10);
      assert s[..|s| - 1] == Decimal(n / 10);
      assert DigitsValue(s) == (n / 10) * 10 + DigitValue(DigitChar(n % 10));
    }
  }

  /** The "k/n" label gives back both numbers. */
  lemma FractionRoundTrip(k: nat, n: nat)
    ensures ParseFraction(Decimal(k) + "/" + Decimal(n)) == Some((k, n))
  {
    var s := Decimal(k) + "/" + Decimal(n);
    var i := |Decimal(k)|;
    assert s[i] == '/';
    assert forall j :: 0 <= j < i ==> s[j] == Decimal(k)[j];
    assert FirstIndex(s, '/') == i;
    assert s[..i] == Decimal(k);
    assert s[i + 1..] == Decimal(n);
    DecimalRoundTrip(k);
    DecimalRoundTrip(n);
  }

  /** The "p%" label gives back the percentage. */
  lemma PercentRoundTrip(p: nat)
    ensures ParsePercent(Decimal(p) + "%") == Some(p)
  {
    var s := Decimal(p) + "%";
    assert s[..|s| - 1] == Decimal(p);
    DecimalRoundTrip(p);
  }
}
