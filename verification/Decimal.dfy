/** Decimal text of natural numbers. */
module Decimal {
  import opened Positional

  predicate IsDigit(c: char) { '0' <= c <= '9' }

  function DigitChar(d: nat): (c: char)
    requires d < 10
    ensures IsDigit(c)
  {
    (48 + d) as char
  }

  /** The number a digit string denotes. */
  function FromText(s: string): nat {
    if s == [] then 0 else FromText(s[..|s| - 1]) * 10 + s[|s| - 1] as int % 48
  }

  /** The shortest decimal text, "0" for zero. */
  function ToText(n: nat): (s: string)
    ensures s != []
  {
    if n < 10 then [DigitChar(n)] else ToText(n / 10) + [DigitChar(n % 10)]
  }

  /** `n` padded with zeros to `k` characters. */
  function ZeroPadded(n: nat, k: nat): (s: string)
    ensures |s| == k
    ensures AllDigits(s)
  {
    var ds := Digits(n, 10, k);
    seq(k, i requires 0 <= i < k => DigitChar(ds[i]))
  }

  predicate AllDigits(s: string) {
    forall i :: 0 <= i < |s| ==> IsDigit(s[i])
  }

  lemma {:induction false} TextRoundTrip(n: nat)
    ensures FromText(ToText(n)) == n && AllDigits(ToText(n))
  {
    if n < 10 {
      assert ToText(n)[..0] == [];
    } else {
      TextRoundTrip(n / 10);
      assert ToText(n)[..|ToText(n)| - 1] == ToText(n / 10);
    }
  }

  lemma {:induction false} FromDigits(ds: seq<nat>, s: string)
    requires AllBelow(ds, 10) && |s| == |ds|
    requires forall i :: 0 <= i < |ds| ==> s[i] == DigitChar(ds[i])
    ensures FromText(s) == Value(ds, 10)
  {
    if ds == [] {
    } else {
      FromDigits(ds[..|ds| - 1], s[..|s| - 1]);
    }
  }

  /** A digit string is the padded text of the number it denotes. */
  lemma PaddedText(s: string)
    requires AllDigits(s)
    ensures ZeroPadded(FromText(s), |s|) == s && FromText(s) < Pow(10, |s|)
  {
    var ds: seq<nat> := seq(|s|, i requires 0 <= i < |s| => s[i] as int - 48);
    assert AllBelow(ds, 10);
    FromDigits(ds, s);
    DigitsOfValue(ds, 10);
  }

  lemma PaddedRoundTrip(n: nat, k: nat)
    requires n < Pow(10, k)
    ensures FromText(ZeroPadded(n, k)) == n
  {
    FromDigits(Digits(n, 10, k), ZeroPadded(n, k));
    ValueOfDigits(n, 10, k);
  }
}
