/** Number formats of backend/src/crypto.rs: the lower-case hexadecimal printer (shared with
    backend/src/backup.rs), its reader, and the bit length of an SSH multi-precision integer. */
module Crypto {
  import opened Wrappers
  import opened Positional
  import opened Basics
  import opened Hexadecimal

  type Bytes = seq<Byte>

  const PLUS: Byte := 43

  // ---- hexadecimal ----

  /** `{:02x}` of every byte. */
  function Hex(data: Bytes): (t: Bytes)
    ensures |t| == 2 * |data|
  {
    if data == [] then [] else [LowerHex(data[0] / 16), LowerHex(data[0] % 16)] + Hex(data[1..])
  }

  predicate IsSpace(b: Byte) { b == 32 || 9 <= b <= 13 }

  function TrimStart(t: Bytes): (r: Bytes)
    ensures |r| <= |t|
  {
    if t != [] && IsSpace(t[0]) then TrimStart(t[1..]) else t
  }

  function TrimEnd(t: Bytes): (r: Bytes)
    ensures |r| <= |t|
  {
    if t != [] && IsSpace(t[|t| - 1]) then TrimEnd(t[..|t| - 1]) else t
  }

  function Trim(t: Bytes): Bytes {
    TrimEnd(TrimStart(t))
  }

  lemma {:induction false} TrimStartIs(a: Bytes, t: Bytes)
    requires (forall i :: 0 <= i < |a| ==> IsSpace(a[i])) && (t != [] ==> !IsSpace(t[0]))
    ensures TrimStart(a + t) == t
  {
    if a == [] {
      assert a + t == t;
    } else {
      assert (a + t)[1..] == a[1..] + t;
      TrimStartIs(a[1..], t);
    }
  }

  lemma {:induction false} TrimEndIs(t: Bytes, b: Bytes)
    requires (forall i :: 0 <= i < |b| ==> IsSpace(b[i])) && (t != [] ==> !IsSpace(t[|t| - 1]))
    ensures TrimEnd(t + b) == t
  {
    if b == [] {
      assert t + b == t;
    } else {
      assert (t + b)[..|t + b| - 1] == t + b[..|b| - 1];
      TrimEndIs(t, b[..|b| - 1]);
    }
  }

  /** Trimming takes the white space off both ends and nothing else. */
  lemma TrimIs(a: Bytes, t: Bytes, b: Bytes)
    requires forall i :: 0 <= i < |a| ==> IsSpace(a[i])
    requires forall i :: 0 <= i < |b| ==> IsSpace(b[i])
    requires t != [] ==> !IsSpace(t[0]) && !IsSpace(t[|t| - 1])
    ensures Trim(a + t + b) == t
  {
    if t == [] {
      assert a + t + b == (a + b) + [];
      TrimStartIs(a + b, []);
    } else {
      assert a + t + b == a + (t + b);
      TrimStartIs(a, t + b);
      TrimEndIs(t, b);
    }
  }

  /** `trim_start_matches("0x")`: as often as it occurs. */
  function StripPrefix(t: Bytes): Bytes {
    if |t| >= 2 && t[0] == 48 && t[1] == 120 then StripPrefix(t[2..]) else t
  }

  /** `u8::from_str_radix` on two characters: a plus sign is allowed in front of a digit. */
  function ReadPair(a: Byte, b: Byte): Option<Byte> {
    match NibbleOf(b)
    case None => None
    case Some(low) =>
      if a == PLUS then Some(low) else
        match NibbleOf(a) case None => None case Some(high) => Some(high * 16 + low)
  }

  function ReadPairs(t: Bytes): (r: Option<Bytes>)
    requires |t| % 2 == 0
    ensures r.Some? ==> |r.value| == |t| / 2
  {
    if t == [] then Some([]) else
      match (ReadPair(t[0], t[1]), ReadPairs(t[2..]))
      case (Some(b), Some(bs)) => Some([b] + bs)
      case _ => None
  }

  function Padded(t: Bytes): (r: Bytes)
    ensures |r| % 2 == 0
  {
    if |t| % 2 == 1 then [48] + t else t
  }

  /** `hex_to_bytes`. */
  function HexToBytes(t: Bytes): Option<Bytes> {
    ReadPairs(Padded(StripPrefix(Trim(t))))
  }

  predicate IsHex(t: Bytes) {
    forall i :: 0 <= i < |t| ==> NibbleOf(t[i]).Some?
  }

  /** The digits of a hexadecimal text. */
  function Nibbles(t: Bytes): (ns: seq<nat>)
    requires IsHex(t)
    ensures |ns| == |t| && AllBelow(ns, 16)
  {
    seq(|t|, i requires 0 <= i < |t| => NibbleOf(t[i]).value)
  }

  lemma HexTextIsClean(t: Bytes)
    requires IsHex(t)
    ensures StripPrefix(Trim(t)) == t
  {
    if t != [] { assert NibbleOf(t[0]).Some? && NibbleOf(t[|t| - 1]).Some?; }
    if |t| >= 2 { assert NibbleOf(t[1]).Some?; }
  }

  lemma HexTrims(t: Bytes)
    requires IsHex(t)
    ensures Trim(t) == t
  {
    if t != [] { assert NibbleOf(t[0]).Some? && NibbleOf(t[|t| - 1]).Some?; }
  }

  lemma {:induction false} HexIsHex(data: Bytes)
    ensures IsHex(Hex(data))
  {
    if data != [] { HexIsHex(data[1..]); }
  }

  /** Digests are printed in lower case. */
  lemma {:induction false} HexIsLower(data: Bytes)
    ensures forall i :: 0 <= i < |Hex(data)| ==> 48 <= Hex(data)[i] <= 57 || 97 <= Hex(data)[i] <= 102
  {
    if data != [] { HexIsLower(data[1..]); }
  }

  lemma PairBack(b: Byte)
    ensures ReadPair(LowerHex(b / 16), LowerHex(b % 16)) == Some(b)
  {
    assert NibbleOf(LowerHex(b / 16)) == Some(b / 16);
    assert NibbleOf(LowerHex(b % 16)) == Some(b % 16);
    DivMod(b, 16);
  }

  lemma {:induction false} PairsBack(data: Bytes)
    ensures ReadPairs(Hex(data)) == Some(data)
  {
    hide ReadPair, LowerHex;
    if data != [] {
      PairsBack(data[1..]);
      PairBack(data[0]);
      assert Hex(data)[2..] == Hex(data[1..]);
      assert [data[0]] + data[1..] == data;
    }
  }

  /** The reader inverts the printer on every byte sequence. */
  lemma HexRoundTrip(data: Bytes)
    ensures HexToBytes(Hex(data)) == Some(data)
  {
    HexIsHex(data);
    HexTextIsClean(Hex(data));
    PairsBack(data);
  }

  /** Printed digests can be compared instead of the digests, with or without surrounding white space. */
  lemma HexDistinguishes(a: Bytes, b: Bytes)
    ensures Trim(Hex(a)) == Hex(a)
    ensures Hex(a) == Hex(b) ==> a == b
  {
    HexRoundTrip(a);
    HexRoundTrip(b);
    HexIsHex(a);
    HexTrims(Hex(a));
  }

  /** Two hexadecimal digits and the byte they make. */
  lemma PairDenotes(a: Byte, b: Byte)
    requires NibbleOf(a).Some? && NibbleOf(b).Some?
    ensures ReadPair(a, b).Some?
    ensures Value(Nibbles([a, b]), 16) == ReadPair(a, b).value == Value([ReadPair(a, b).value], 256)
  {
    var ns := Nibbles([a, b]);
    assert ns == [NibbleOf(a).value, NibbleOf(b).value];
    assert ns[..1] == [ns[0]] && ns[..1][..0] == [];
    assert Value(ns[..1], 16) == ns[0];
    assert [ReadPair(a, b).value][..0] == [];
  }

  lemma {:induction false} PairsDenote(t: Bytes)
    requires IsHex(t) && |t| % 2 == 0
    ensures ReadPairs(t).Some? && Value(ReadPairs(t).value, 256) == Value(Nibbles(t), 16)
    decreases |t|
  {
    hide ReadPair, NibbleOf, Value, Pow;
    if t == [] {
      EmptyValue(256);
      EmptyValue(16);
    } else {
      var rest := t[2..];
      PairsDenote(rest);
      PairDenotes(t[0], t[1]);
      var b, bs := ReadPair(t[0], t[1]).value, ReadPairs(rest).value;
      assert Nibbles(t) == Nibbles([t[0], t[1]]) + Nibbles(rest);
      ValueConcat([b], bs, 256);
      ValueConcat(Nibbles([t[0], t[1]]), Nibbles(rest), 16);
      PowSquare(|bs|);
    }
  }

  lemma EmptyValue(b: nat)
    ensures Value([], b) == 0
  {}

  lemma {:induction false} PowSquare(n: nat)
    ensures Pow(256, n) == Pow(16, 2 * n)
  {
    if n > 0 {
      PowSquare(n - 1);
      assert Pow(16, 2 * n) == Pow(16, 2 * n - 2) * 16 * 16;
    }
  }

  lemma ZeroIsHex()
    ensures NibbleOf(48) == Some(0)
  {}

  /** Hexadecimal digits, of odd or even number and either case, denote the same number as the bytes. */
  lemma HexDenotes(t: Bytes)
    requires IsHex(t)
    ensures HexToBytes(t).Some?
    ensures |HexToBytes(t).value| == (|t| + 1) / 2
    ensures Value(HexToBytes(t).value, 256) == Value(Nibbles(t), 16)
  {
    hide Value, Pow, ReadPairs, NibbleOf;
    HexTextIsClean(t);
    assert IsHex(Padded(t)) by { ZeroIsHex(); }
    PairsDenote(Padded(t));
    if |t| % 2 == 1 {
      ZeroIsHex();
      ValueHead(Nibbles(Padded(t)), 16);
      assert Nibbles(Padded(t))[1..] == Nibbles(t);
    }
  }

  /** Hexadecimal digits and, where the high digit of a byte would stand, plus signs. */
  predicate HexOrPlus(t: Bytes) {
    forall i :: 0 <= i < |t| ==> NibbleOf(t[i]).Some? || (i % 2 == 0 && t[i] == PLUS)
  }

  lemma {:induction false} PairsAccept(t: Bytes)
    requires |t| % 2 == 0
    ensures ReadPairs(t).Some? <==> HexOrPlus(t)
    decreases |t|
  {
    if t != [] {
      var rest := t[2..];
      PairsAccept(rest);
      assert forall i :: 0 <= i < |rest| ==> rest[i] == t[i + 2];
      if ReadPairs(t).Some? {
        forall i | 0 <= i < |t| ensures NibbleOf(t[i]).Some? || (i % 2 == 0 && t[i] == PLUS) {
          if i >= 2 { assert t[i] == rest[i - 2]; }
        }
      }
    }
  }

  /** What is accepted of any text, and when that is what "hexadecimal digits" would mean: not exactly for the
      texts that are accepted with a plus sign in them. */
  lemma HexAcceptsIff(t: Bytes)
    ensures var u := StripPrefix(Trim(t));
            && (HexToBytes(t).Some? <==> HexOrPlus(Padded(u)))
            && ((HexToBytes(t).Some? <==> IsHex(u)) <==> !(PLUS in u && HexOrPlus(Padded(u))))
  {
    var u := StripPrefix(Trim(t));
    var v := Padded(u);
    PairsAccept(v);
    assert PLUS != 48 && NibbleOf(PLUS) == None;
    assert forall i :: 0 <= i < |u| ==> u[i] == v[i + |v| - |u|];
  }

  /** "0x", `k` times. */
  function Prefixes(k: nat): Bytes {
    if k == 0 then [] else [48, 120] + Prefixes(k - 1)
  }

  lemma {:induction false} StripIs(k: nat, t: Bytes)
    requires |t| >= 2 ==> t[..2] != [48, 120]
    ensures StripPrefix(Prefixes(k) + t) == t
  {
    if k == 0 {
      assert Prefixes(0) + t == t;
    } else {
      var u := Prefixes(k) + t;
      assert u == [48, 120] + (Prefixes(k - 1) + t);
      assert u[2..] == Prefixes(k - 1) + t;
      StripIs(k - 1, t);
    }
  }

  /** White space around a number and "0x" in front of it change nothing. */
  lemma HexDecorated(a: Bytes, k: nat, t: Bytes, b: Bytes)
    requires forall i :: 0 <= i < |a| ==> a[i] == 32 || 9 <= a[i] <= 13
    requires forall i :: 0 <= i < |b| ==> b[i] == 32 || 9 <= b[i] <= 13
    requires t != [] && t[0] > 32 && t[|t| - 1] > 32 && (|t| >= 2 ==> t[..2] != [48, 120])
    ensures HexToBytes(a + (Prefixes(k) + t) + b) == HexToBytes(t)
  {
    hide Trim, StripPrefix, ReadPairs;
    PrefixStart(k, t);
    TrimIs(a, Prefixes(k) + t, b);
    StripIs(k, t);
    TrimIs([], t, []);
    assert [] + t + [] == t;
    StripIs(0, t);
    assert Prefixes(0) + t == t;
  }

  lemma PrefixStart(k: nat, t: Bytes)
    requires t != [] && !IsSpace(t[0]) && !IsSpace(t[|t| - 1])
    ensures var u := Prefixes(k) + t; !IsSpace(u[0]) && !IsSpace(u[|u| - 1])
  {}

  /** The text with zeros for its plus signs. */
  function PlusAsZero(t: Bytes): (u: Bytes)
    ensures |u| == |t|
  {
    seq(|t|, i requires 0 <= i < |t| => if t[i] == PLUS then 48 else t[i])
  }

  /** A plus sign that is accepted stands for the digit zero. */
  lemma {:induction false} PlusIsZero(t: Bytes)
    requires |t| % 2 == 0 && HexOrPlus(t)
    ensures ReadPairs(t).Some? && ReadPairs(t) == ReadPairs(PlusAsZero(t))
    decreases |t|
  {
    if t != [] {
      var rest := t[2..];
      assert forall i :: 0 <= i < |rest| ==> rest[i] == t[i + 2];
      PlusIsZero(rest);
      assert PlusAsZero(t)[2..] == PlusAsZero(rest);
      assert NibbleOf(PLUS) == None && NibbleOf(48) == Some(0);
    }
  }

  /** A plus sign is accepted as a high digit, where `from_str_radix` takes it for a sign. */
  lemma PlusAccepted(d: Byte)
    requires NibbleOf(d).Some?
    ensures HexToBytes([43, d]) == Some([NibbleOf(d).value])
  {
    var t := [PLUS, d];
    assert t[|t| - 1] == d && Trim(t) == t && StripPrefix(t) == t && Padded(t) == t;
    assert t[2..] == [] && ReadPairs(t[2..]) == Some([]);
    var low: Byte := NibbleOf(d).value;
    assert ReadPair(PLUS, d) == Some(low) && [low] + [] == [low];
  }

  // ---- bit length ----

  function SkipZeros(m: Bytes): Bytes {
    if m != [] && m[0] == 0 then SkipZeros(m[1..]) else m
  }

  /** Bits of one byte: 8 minus its leading zeros. */
  function ByteBits(b: Byte): (n: nat)
    ensures n <= 8 && (b == 0 <==> n == 0)
    ensures n > 0 ==> Pow(2, n - 1) <= b < Pow(2, n)
  {
    PowersOfTwo();
    if b == 0 then 0 else if b < 2 then 1 else if b < 4 then 2 else if b < 8 then 3
    else if b < 16 then 4 else if b < 32 then 5 else if b < 64 then 6 else if b < 128 then 7 else 8
  }

  lemma PowersOfTwo()
    ensures Pow(2, 0) == 1 && Pow(2, 1) == 2 && Pow(2, 2) == 4 && Pow(2, 3) == 8 && Pow(2, 4) == 16
         && Pow(2, 5) == 32 && Pow(2, 6) == 64 && Pow(2, 7) == 128 && Pow(2, 8) == 256
  {
    assert Pow(2, 4) == Pow(2, 3) * 2;
    assert Pow(2, 8) == Pow(2, 7) * 2;
  }

  /** `mpint_bits`, on the bytes of the integer; u32 arithmetic wraps. */
  function MpintBits(m: Bytes): nat {
    var significant := SkipZeros(m);
    if significant == [] then 0 else (((|significant| - 1) % U32) * 8 + ByteBits(significant[0])) % U32
  }

  predicate IsBitLength(bits: nat, n: nat) {
    if n == 0 then bits == 0 else bits > 0 && Pow(2, bits - 1) <= n < Pow(2, bits)
  }

  lemma {:induction false} SkipZerosValue(m: Bytes)
    ensures Value(SkipZeros(m), 256) == Value(m, 256)
    ensures SkipZeros(m) != [] ==> SkipZeros(m)[0] != 0
  {
    if m != [] && m[0] == 0 {
      SkipZerosValue(m[1..]);
      ValueHead(m, 256);
    }
  }

  lemma {:induction false} PowBytes(k: nat)
    ensures Pow(256, k) == Pow(2, 8 * k)
  {
    if k > 0 {
      PowBytes(k - 1);
      PowAdd(2, 8 * (k - 1), 8);
      PowersOfTwo();
    }
  }

  lemma Between(lo: nat, top: nat, hi: nat, low: nat, p: nat)
    requires lo <= top < hi && low < p
    ensures lo * p <= top * p + low < hi * p
  {
    MulMono(lo, top, p);
    MulMono(top + 1, hi, p);
    MulDistr(top, 1, p);
  }

  lemma LeadingByte(m: Bytes)
    requires m != [] && m[0] != 0
    ensures IsBitLength((|m| - 1) * 8 + ByteBits(m[0]), Value(m, 256))
  {
    hide Value, ByteBits, Pow;
    var k, b := |m| - 1, ByteBits(m[0]);
    ValueHead(m, 256);
    DigitsOfValue(m[1..], 256);
    PowBytes(k);
    TopByte(m[0]);
    PowAdd(2, b - 1, 8 * k);
    PowAdd(2, b, 8 * k);
    Between(Pow(2, b - 1), m[0], Pow(2, b), Value(m[1..], 256), Pow(256, k));
    PowPositive(b - 1 + 8 * k);
    assert k * 8 + b - 1 == b - 1 + 8 * k;
  }

  lemma TopByte(b: Byte)
    requires b != 0
    ensures ByteBits(b) > 0 && Pow(2, ByteBits(b) - 1) <= b < Pow(2, ByteBits(b))
  {}

  lemma PowPositive(k: nat)
    ensures Pow(2, k) > 0
  {}

  /** The true bit length of the integer, whatever its leading zero padding, up to the wrap of u32. */
  lemma MpintBitLength(m: Bytes)
    ensures exists bits: nat :: IsBitLength(bits, Value(m, 256)) && MpintBits(m) == bits % U32
                             && bits <= 8 * |m|
  {
    SkipZerosValue(m);
    var s := SkipZeros(m);
    if s == [] {
      assert IsBitLength(0, Value(m, 256));
    } else {
      LeadingByte(s);
      SkipZerosShorter(m);
      var bits := (|s| - 1) * 8 + ByteBits(s[0]);
      assert IsBitLength(bits, Value(m, 256));
      WrapOnce(|s| - 1, ByteBits(s[0]));
    }
  }

  lemma {:induction false} SkipZerosShorter(m: Bytes)
    ensures |SkipZeros(m)| <= |m|
  {
    if m != [] && m[0] == 0 { SkipZerosShorter(m[1..]); }
  }

  lemma WrapOnce(n: nat, b: nat)
    ensures ((n % U32) * 8 + b) % U32 == (n * 8 + b) % U32
  {
    var q := n / U32;
    var r := (n % U32) * 8 + b;
    assert n * 8 + b == q * 8 * U32 + r;
    DivModUnique(n * 8 + b, q * 8 + r / U32, r % U32, U32);
  }

  /** Below 2^29 bytes nothing wraps. */
  lemma MpintBitsExact(m: Bytes)
    requires |m| < 0x2000_0000
    ensures IsBitLength(MpintBits(m), Value(m, 256))
  {
    MpintBitLength(m);
    var bits: nat :| IsBitLength(bits, Value(m, 256)) && MpintBits(m) == bits % U32 && bits <= 8 * |m|;
    DivModUnique(bits, 0, bits, U32);
  }
}
