/** Base64 (RFC 4648 sections 4 and 5): the standard text with padding, a strict reader, and the
    browser's forgiving one. */
module Base64 {
  import opened Positional
  import opened Radix
  import opened Wrappers

  function Letter(d: nat): char
    requires d < 64
  {
    if d < 26 then (65 + d) as char
    else if d < 52 then (71 + d) as char
    else if d < 62 then (d - 4) as char
    else if d == 62 then '+' else '/'
  }

  function Sextet(c: char): (d: Option<nat>)
    ensures d.Some? ==> d.value < 64 && Letter(d.value) == c
  {
    if 'A' <= c <= 'Z' then Some(c as int - 65)
    else if 'a' <= c <= 'z' then Some(c as int - 71)
    else if '0' <= c <= '9' then Some(c as int + 4)
    else if c == '+' then Some(62) else if c == '/' then Some(63) else None
  }

  function Letters(ds: seq<nat>): (s: string)
    requires AllBelow(ds, 64)
    ensures |s| == |ds| && forall i :: 0 <= i < |ds| ==> s[i] == Letter(ds[i])
  {
    seq(|ds|, i requires 0 <= i < |ds| => Letter(ds[i]))
  }

  function Body(data: seq<Byte>): (s: string)
    ensures |s| == |EncodeDigits(data, 6)|
  {
    assert Pow(2, 6) == 64;
    Letters(EncodeDigits(data, 6))
  }

  /** Padding that completes `n` letters to a multiple of four. */
  function Fill(n: nat): (p: string)
    ensures |p| == (4 - n % 4) % 4 && forall i :: 0 <= i < |p| ==> p[i] == '='
  {
    seq((4 - n % 4) % 4, i => '=')
  }

  /** The padded standard text: `STANDARD.encode`, `btoa`. */
  function Encode(data: seq<Byte>): string {
    Body(data) + Fill(|Body(data)|)
  }

  predicate AllLetters(s: string) {
    forall i :: 0 <= i < |s| ==> Sextet(s[i]).Some?
  }

  function Sextets(s: string): (ds: seq<nat>)
    requires AllLetters(s)
    ensures AllBelow(ds, 64) && |ds| == |s|
  {
    seq(|s|, i requires 0 <= i < |s| => Sextet(s[i]).value)
  }

  /** `s` without its last one or two `=`. */
  function StripFill(s: string): string {
    if s != [] && s[|s| - 1] == '=' then
      if |s| > 1 && s[|s| - 2] == '=' then s[..|s| - 2] else s[..|s| - 1]
    else s
  }

  /** `STANDARD.decode`: only text an encoder can have written. */
  function DecodeStrict(s: string): Option<seq<Byte>> {
    var body := StripFill(s);
    if |s| % 4 == 0 && AllLetters(body) && Encode(DecodeDigits(Sextets(body), 6)) == s
    then Some(DecodeDigits(Sextets(body), 6)) else None
  }

  predicate IsSpace(c: char) {
    c == ' ' || c == '\t' || c == '\n' || c == '\r' || c as int == 12
  }

  function WithoutSpace(s: string): string {
    if s == [] then [] else (if IsSpace(s[0]) then [] else [s[0]]) + WithoutSpace(s[1..])
  }

  /** `atob`, the forgiving-base64 decoder. */
  function Atob(s: string): Option<seq<Byte>> {
    var t := WithoutSpace(s);
    var body := if |t| % 4 == 0 then StripFill(t) else t;
    if |body| % 4 == 1 || !AllLetters(body) then None else Some(DecodeDigits(Sextets(body), 6))
  }

  // ---- round trips ----

  lemma LetterSextet(d: nat)
    requires d < 64
    ensures Sextet(Letter(d)) == Some(d)
  {}

  const UPPER := "ABCDEFGHIJKLMNOPQRSTUVWXYZ"
  const LOWER := "abcdefghijklmnopqrstuvwxyz"
  const DIGITS := "0123456789"
  const STANDARD := UPPER + LOWER + DIGITS + "+/"

  lemma Runs()
    ensures |UPPER| == |LOWER| == 26 && |DIGITS| == 10
    ensures forall i :: 0 <= i < 26 ==> UPPER[i] as int == 65 + i && LOWER[i] as int == 97 + i
    ensures forall i :: 0 <= i < 10 ==> DIGITS[i] as int == 48 + i
  {
    assert forall i :: 0 <= i < 26 ==> UPPER[i] as int == 65 + i;
    assert forall i :: 0 <= i < 26 ==> LOWER[i] as int == 97 + i;
  }

  lemma LetterTable(d: nat)
    requires d < 64
    ensures |STANDARD| == 64 && Letter(d) == STANDARD[d]
  {
    Runs();
    hide UPPER, LOWER, DIGITS;
  }

  lemma Pow64()
    ensures Pow(2, 6) == 64
  {}

  /** RFC 4648, section 4: letters of the alphabet for base-64 digits that denote the number of the bytes, shifted to
      fill the last digit, and equals signs up to a multiple of four. */
  lemma EncodeIs(data: seq<Byte>)
    ensures var s := Encode(data);
            exists ds: seq<nat> ::
              && Denotes(ds, data, 6) && |ds| <= |s| < |ds| + 4 && |s| % 4 == 0
              && (forall i :: 0 <= i < |ds| ==> ds[i] < 64 && s[i] == STANDARD[ds[i]])
              && (forall i :: |ds| <= i < |s| ==> s[i] == '=')
  {
    hide EncodeDigits, Denotes, STANDARD, Letter, Pow;
    Pow64();
    EncodeDenotes(data, 6);
    var ds, s := EncodeDigits(data, 6), Encode(data);
    LetterTable(0);
    assert s == Letters(ds) + Fill(|ds|);
    forall i | 0 <= i < |ds| ensures ds[i] < 64 && s[i] == STANDARD[ds[i]] { LetterTable(ds[i]); }
  }

  lemma SextetCount(n: nat)
    ensures (8 * n + 5) / 6 % 4 != 1
  {
    var q, r := n / 3, n % 3;
    assert n == 3 * q + r;
    assert (8 * n + 5) / 6 == 4 * q + (8 * r + 5) / 6;
  }

  lemma BodyBack(data: seq<Byte>)
    ensures AllLetters(Body(data)) && DecodeDigits(Sextets(Body(data)), 6) == data
    ensures |Body(data)| % 4 != 1
  {
    hide EncodeDigits, DecodeDigits, Letter, Sextet;
    assert Pow(2, 6) == 64;
    var ds := EncodeDigits(data, 6);
    forall i | 0 <= i < |ds| ensures Sextet(Body(data)[i]) == Some(ds[i]) { LetterSextet(ds[i]); }
    assert Sextets(Body(data)) == ds;
    EncodeFlatten(data, 6);
    SextetCount(|data|);
    RoundTrip(data, 6);
  }

  predicate NoFill(s: string) {
    forall i :: 0 <= i < |s| ==> s[i] != '='
  }

  lemma LettersNoFill(s: string)
    requires AllLetters(s)
    ensures NoFill(s)
  {}

  lemma StripFilled(b: string)
    requires NoFill(b)
    ensures |b + Fill(|b|)| % 4 == 0
    ensures |b| % 4 != 1 ==> StripFill(b + Fill(|b|)) == b
    ensures |b| % 4 == 1 ==> !AllLetters(StripFill(b + Fill(|b|)))
  {
    var t := b + Fill(|b|);
    var n := |Fill(|b|)|;
    assert forall i :: |b| <= i < |t| ==> t[i] == '=';
    assert forall i :: 0 <= i < |b| ==> t[i] == b[i];
    if |b| % 4 == 1 {
      assert n == 3 && StripFill(t) == t[..|t| - 2];
      assert StripFill(t)[|b|] == '=';
    } else {
      assert n <= 2;
    }
  }

  lemma StripEncode(data: seq<Byte>)
    ensures StripFill(Encode(data)) == Body(data) && |Encode(data)| % 4 == 0
  {
    hide Body, Sextet;
    BodyBack(data);
    LettersNoFill(Body(data));
    StripFilled(Body(data));
  }

  lemma StrictRoundTrip(data: seq<Byte>)
    ensures DecodeStrict(Encode(data)) == Some(data)
  {
    hide EncodeDigits, DecodeDigits, Body, Fill;
    StripEncode(data);
    BodyBack(data);
  }

  lemma {:induction false} NoSpace(s: string)
    requires forall i :: 0 <= i < |s| ==> !IsSpace(s[i])
    ensures WithoutSpace(s) == s
  {
    if s != [] { NoSpace(s[1..]); }
  }

  lemma {:induction false} SpaceDropped(a: string, c: char, b: string)
    requires c == ' ' || c == '\t' || c == '\n' || c == '\r' || c as int == 12
    ensures WithoutSpace(a + [c] + b) == WithoutSpace(a + b)
  {
    if a == [] {
      assert a + [c] + b == [c] + b && a + b == b;
    } else {
      assert (a + [c] + b)[1..] == a[1..] + [c] + b && (a + b)[1..] == a[1..] + b;
      SpaceDropped(a[1..], c, b);
    }
  }

  /** White space anywhere changes nothing for the browser's decoder. */
  lemma AtobIgnoresSpace(a: string, c: char, b: string)
    requires c == ' ' || c == '\t' || c == '\n' || c == '\r' || c as int == 12
    ensures Atob(a + [c] + b) == Atob(a + b)
  {
    SpaceDropped(a, c, b);
  }

  lemma AtobRoundTrip(data: seq<Byte>)
    ensures Atob(Encode(data)) == Some(data)
  {
    hide EncodeDigits, DecodeDigits;
    StripEncode(data);
    BodyBack(data);
    forall i | 0 <= i < |Encode(data)| ensures !IsSpace(Encode(data)[i]) {
      if i < |Body(data)| { assert Sextet(Body(data)[i]).Some?; }
    }
    NoSpace(Encode(data));
  }
}
