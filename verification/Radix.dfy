/** The bit-group view of RFC 4648: bytes are a stream of bits that is cut again into groups
    of `w` bits, the last group filled up with zero bits. */
module Radix {
  import opened Positional

  type BitString = b: seq<nat> | AllBelow(b, 2)

  function Zeros(n: nat): (z: BitString)
    ensures |z| == n && forall i :: 0 <= i < n ==> z[i] == 0
  {
    seq(n, i => 0)
  }

  /** The bits of a list of `w`-bit numbers, in order. */
  function Flatten(ds: seq<nat>, w: nat): (b: BitString)
    ensures |b| == |ds| * w
  {
    if ds == [] then [] else
      MulDistr(1, |ds| - 1, w);
      Digits(ds[0], 2, w) + Flatten(ds[1..], w)
  }

  /** Cuts off as many full `w`-bit numbers as there are. */
  function Group(b: BitString, w: nat): (ds: seq<nat>)
    requires w > 0
    ensures AllBelow(ds, Pow(2, w))
    decreases |b|
  {
    if |b| < w then [] else
      DigitsOfValue(b[..w], 2);
      [Value(b[..w], 2)] + Group(b[w..], w)
  }

  /** Zero bits missing from the last group of `n` bits. */
  function PadLen(n: nat, w: nat): (p: nat)
    requires w > 0
    ensures p < w
  {
    if n % w == 0 then 0 else w - n % w
  }

  function EncodeDigits(data: seq<Byte>, w: nat): (ds: seq<nat>)
    requires w > 0
    ensures AllBelow(ds, Pow(2, w))
  {
    var b := Flatten(data, 8);
    Group(b + Zeros(PadLen(|b|, w)), w)
  }

  /** What a decoder keeps: full bytes only, a rest of fewer than eight bits is dropped. */
  function DecodeDigits(ds: seq<nat>, w: nat): (data: seq<Byte>) {
    var g := Group(Flatten(ds, w), 8);
    assert Pow(2, 8) == 256;
    assert forall i :: 0 <= i < |g| ==> 0 <= g[i] < 256;
    g
  }

  lemma {:induction false} FlattenConcat(ds: seq<nat>, es: seq<nat>, w: nat)
    ensures Flatten(ds + es, w) == Flatten(ds, w) + Flatten(es, w)
  {
    if ds == [] {
      assert ds + es == es;
    } else {
      assert (ds + es)[1..] == ds[1..] + es;
      FlattenConcat(ds[1..], es, w);
    }
  }

  lemma FlattenSnoc(ds: seq<nat>, d: nat, w: nat)
    ensures Flatten(ds + [d], w) == Flatten(ds, w) + Digits(d, 2, w)
  {
    FlattenConcat(ds, [d], w);
    assert [d][1..] == [];
    assert Flatten([d], w) == Digits(d, 2, w) + [];
  }

  /** Grouping undoes flattening, and a partial group at the end is ignored. */
  lemma {:induction false} GroupFlatten(ds: seq<nat>, t: BitString, w: nat)
    requires |t| < w && AllBelow(ds, Pow(2, w))
    ensures Group(Flatten(ds, w) + t, w) == ds
  {
    var b := Flatten(ds, w) + t;
    if ds == [] {
      assert b == t;
    } else {
      MulDistr(1, |ds| - 1, w);
      assert b[..w] == Digits(ds[0], 2, w);
      assert b[w..] == Flatten(ds[1..], w) + t;
      ValueOfDigits(ds[0], 2, w);
      GroupFlatten(ds[1..], t, w);
    }
  }

  /** Flattening undoes grouping up to a rest of fewer than `w` bits. */
  lemma {:induction false} FlattenGroup(b: BitString, w: nat)
    requires w > 0
    ensures Flatten(Group(b, w), w) <= b
    ensures |b| - |Flatten(Group(b, w), w)| < w
    decreases |b|
  {
    if |b| < w {
    } else {
      FlattenGroup(b[w..], w);
      DigitsOfValue(b[..w], 2);
      assert Group(b, w)[1..] == Group(b[w..], w);
      assert b == b[..w] + b[w..];
    }
  }

  lemma GroupLength(b: BitString, w: nat)
    requires w > 0
    ensures |Group(b, w)| == |b| / w
    ensures |b| / w * w <= |b|
    ensures Flatten(Group(b, w), w) == b[..|b| / w * w]
  {
    FlattenGroup(b, w);
    var n := |Group(b, w)|;
    DivModUnique(|b|, n, |b| - n * w, w);
  }

  lemma PadMultiple(n: nat, w: nat)
    requires w > 0
    ensures (n + PadLen(n, w)) / w * w == n + PadLen(n, w)
    ensures (n + PadLen(n, w)) / w == (n + w - 1) / w
  {
    var q, r := n / w, n % w;
    DivMod(n, w);
    MulDistr(q, 1, w);
    if r == 0 {
      DivModUnique(n, q, 0, w);
      DivModUnique(n + w - 1, q, w - 1, w);
    } else {
      DivModUnique(n + w - r, q + 1, 0, w);
      DivModUnique(n + w - 1, q + 1, r - 1, w);
    }
  }

  lemma EncodeFlatten(data: seq<Byte>, w: nat)
    requires w > 0
    ensures Flatten(EncodeDigits(data, w), w) == Flatten(data, 8) + Zeros(PadLen(8 * |data|, w))
    ensures |EncodeDigits(data, w)| == (8 * |data| + w - 1) / w
  {
    hide Flatten, Group, Zeros, PadLen;
    var b := Flatten(data, 8);
    var padded := b + Zeros(PadLen(|b|, w));
    GroupLength(padded, w);
    PadMultiple(|b|, w);
    assert padded[..|padded| / w * w] == padded;
  }

  /** The bits of a list of numbers denote what the list denotes. */
  lemma {:induction false} FlattenDenotes(ds: seq<nat>, w: nat)
    requires AllBelow(ds, Pow(2, w))
    ensures Value(Flatten(ds, w), 2) == Value(ds, Pow(2, w))
    decreases |ds|
  {
    if ds != [] {
      var init, last := ds[..|ds| - 1], ds[|ds| - 1];
      FlattenDenotes(init, w);
      assert ds == init + [last];
      FlattenSnoc(init, last, w);
      ValueConcat(Flatten(init, w), Digits(last, 2, w), 2);
      ValueOfDigits(last, 2, w);
    }
  }

  lemma {:induction false} ValueOfZeros(n: nat)
    ensures Value(Zeros(n), 2) == 0
  {
    if n > 0 {
      assert Zeros(n)[..n - 1] == Zeros(n - 1);
      ValueOfZeros(n - 1);
    }
  }

  /** Base-2^w digits, as many as needed, that denote the number of the bytes, most significant bit first, shifted by
      the bits that fill up the last digit. */
  predicate Denotes(ds: seq<nat>, data: seq<Byte>, w: nat)
    requires w > 0
  {
    && AllBelow(ds, Pow(2, w)) && |ds| == (8 * |data| + w - 1) / w && |ds| * w >= 8 * |data|
    && Value(ds, Pow(2, w)) == Value(data, 256) * Pow(2, |ds| * w - 8 * |data|)
  }

  lemma EncodeDenotes(data: seq<Byte>, w: nat)
    requires w > 0
    ensures Denotes(EncodeDigits(data, w), data, w)
  {
    hide Flatten, EncodeDigits, Zeros, Value, PadLen, Digits;
    var ds, pad := EncodeDigits(data, w), PadLen(8 * |data|, w);
    EncodeFlatten(data, w);
    assert |ds| * w == 8 * |data| + pad;
    FlattenDenotes(ds, w);
    assert Pow(2, 8) == 256;
    FlattenDenotes(data, 8);
    ValueConcat(Flatten(data, 8), Zeros(pad), 2);
    ValueOfZeros(pad);
  }

  lemma {:induction false} BelowPow(b: BitString)
    ensures Value(b, 2) < Pow(2, |b|)
  {
    DigitsOfValue(b, 2);
  }

  /** The decoder returns the bytes whose number is that of the digits without the bits that fill no byte. */
  lemma DecodeDenotes(ds: seq<nat>, w: nat)
    requires 0 < w && AllBelow(ds, Pow(2, w))
    ensures var data, rest := DecodeDigits(ds, w), |ds| * w % 8;
            && |data| == |ds| * w / 8
            && 0 <= Value(ds, Pow(2, w)) - Value(data, 256) * Pow(2, rest) < Pow(2, rest)
  {
    hide Flatten, Group, Value, Digits;
    var b, data, rest := Flatten(ds, w), DecodeDigits(ds, w), |ds| * w % 8;
    GroupLength(b, 8);
    DivMod(|b|, 8);
    var kept, low := b[..|b| / 8 * 8], b[|b| / 8 * 8..];
    assert b == kept + low && |low| == rest;
    FlattenDenotes(ds, w);
    assert Pow(2, 8) == 256;
    FlattenDenotes(data, 8);
    ValueConcat(kept, low, 2);
    BelowPow(low);
  }

  /** The encoder's output is the only digit string that flattens to the padded input. */
  lemma EncodeUnique(ds: seq<nat>, data: seq<Byte>, pad: nat, w: nat)
    requires 0 < w && pad < w && AllBelow(ds, Pow(2, w))
    requires Flatten(ds, w) == Flatten(data, 8) + Zeros(pad)
    ensures ds == EncodeDigits(data, w)
  {
    PadUnique(8 * |data|, pad, |ds|, w);
    GroupFlatten(ds, [], w);
    assert Flatten(ds, w) + [] == Flatten(ds, w);
  }

  /** Decoding undoes encoding for every group width up to a byte. */
  lemma RoundTrip(data: seq<Byte>, w: nat)
    requires 0 < w <= 8
    ensures DecodeDigits(EncodeDigits(data, w), w) == data
  {
    EncodeFlatten(data, w);
    assert Pow(2, 8) == 256;
    GroupFlatten(data, Zeros(PadLen(8 * |data|, w)), 8);
  }

  /** The digit strings an encoder can produce. */
  predicate Canonical(ds: seq<nat>, w: nat) {
    var b := Flatten(ds, w);
    var rest := b[|b| / 8 * 8..];
    |rest| < w && rest == Zeros(|rest|)
  }

  /** Encoding undoes decoding exactly on the canonical digit strings: short leftover, all zero. */
  lemma CanonicalIff(ds: seq<nat>, w: nat)
    requires 0 < w <= 8 && AllBelow(ds, Pow(2, w))
    ensures EncodeDigits(DecodeDigits(ds, w), w) == ds <==> Canonical(ds, w)
  {
    hide Flatten, Group, EncodeDigits, AllBelow, Pow;
    var b := Flatten(ds, w);
    var data := DecodeDigits(ds, w);
    GroupLength(b, 8);
    var kept, rest := b[..|b| / 8 * 8], b[|b| / 8 * 8..];
    assert b == kept + rest && kept == Flatten(data, 8);
    if EncodeDigits(data, w) == ds {
      EncodeFlatten(data, w);
      assert rest == Zeros(PadLen(8 * |data|, w));
    }
    if Canonical(ds, w) { EncodeUnique(ds, data, |rest|, w); }
  }

  lemma PadUnique(n: nat, p: nat, q: nat, w: nat)
    requires 0 <= p < w && n + p == q * w
    ensures p == PadLen(n, w)
  {
    if p == 0 {
      DivModUnique(n, q, 0, w);
    } else {
      MulDistr(q, 1, w);
      DivModUnique(n, q - 1, w - p, w);
    }
  }
}
