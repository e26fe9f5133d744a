/** Second-factor primitives of backend/src/mfa.rs: base32 with its wrapping 32-bit
    accumulator. */
module Mfa {
  import opened Positional
  import opened Basics
  import opened Radix
  import opened Wrappers

  const ALPHABET := "ABCDEFGHIJKLMNOPQRSTUVWXYZ234567"
  const STEP_SECONDS := 30

  // ---- base32 ----

  /** `x << k` on a u32, one bit at a time: bits shifted out at the top are lost. */
  function Shl32(x: nat, k: nat): nat
    decreases k, x
  {
    if k == 0 then x % U32 else Shl32(2 * x % U32, k - 1)
  }

  /** `x >> k`. */
  function Shr32(x: nat, k: nat): nat
    decreases k, x
  {
    if k == 0 then x else Shr32(x / 2, k - 1)
  }

  function Letter(d: nat): char
    requires d < 32
  {
    if d < 26 then (65 + d) as char else (24 + d) as char
  }

  function Letters(ds: seq<nat>): (s: string)
    requires AllBelow(ds, 32)
    ensures |s| == |ds|
    ensures forall i :: 0 <= i < |ds| ==> s[i] == Letter(ds[i])
  {
    seq(|ds|, i requires 0 <= i < |ds| => Letter(ds[i]))
  }

  /** The text RFC 4648 section 6 assigns to `data`, without `=` padding. */
  function Base32Text(data: seq<Byte>): string {
    assert Pow(2, 5) == 32;
    Letters(EncodeDigits(data, 5))
  }

  function AsciiUpper(c: char): char {
    if 'a' <= c <= 'z' then c - 32 as char else c
  }

  predicate IsSeparator(c: char) {
    c == '=' || c == ' ' || c == '-'
  }

  /** The symbol a character stands for; the cast to u8 keeps only the low byte. */
  function Symbol(c: char): (d: Option<nat>)
    ensures d.Some? ==> d.value < 32
  {
    var v := AsciiUpper(c) as int % 256;
    if 65 <= v <= 90 then Some(v - 65) else if 50 <= v <= 55 then Some(v - 24) else None
  }

  predicate Accepts(s: string) {
    forall i :: 0 <= i < |s| ==> IsSeparator(s[i]) || Symbol(s[i]).Some?
  }

  /** The symbols of `s` in order, separators skipped. */
  function Symbols(s: string): (ds: seq<nat>)
    ensures AllBelow(ds, 32)
  {
    if s == [] then [] else
      var c := s[|s| - 1];
      Symbols(s[..|s| - 1]) + if IsSeparator(c) || Symbol(c) == None then [] else [Symbol(c).value]
  }

  function Base32Value(s: string): Option<seq<Byte>> {
    if Accepts(s) then Some(DecodeDigits(Symbols(s), 5)) else None
  }

  /** `Letter` is the alphabet table and `Symbol` the search for a byte in it. */
  lemma AlphabetTable(c: char, d: nat)
    requires d < 32
    ensures |ALPHABET| == 32 && ALPHABET[d] == Letter(d)
    ensures Symbol(c) == Some(d) <==> ALPHABET[d] as int == AsciiUpper(c) as int % 256
  {
    assert forall i :: 0 <= i < 26 ==> ALPHABET[i] as int == 65 + i;
    assert forall i :: 26 <= i < 32 ==> ALPHABET[i] as int == 24 + i;
  }

  lemma Assoc<T>(a: seq<T>, b: seq<T>, c: seq<T>)
    ensures (a + b) + c == a + (b + c)
  {}

  /** Shifting right by `n` splits the `n` low digits off. */
  lemma {:induction false} ShiftOut(x: nat, m: nat, n: nat)
    ensures Digits(x, 2, m + n) == Digits(Shr32(x, n), 2, m) + Digits(x, 2, n)
    decreases n
  {
    if n == 0 {
    } else {
      ShiftOut(x / 2, m, n - 1);
      assert Digits(x, 2, m + n) == Digits(x / 2, 2, m + (n - 1)) + [x % 2];
      Assoc(Digits(Shr32(x, n), 2, m), Digits(x / 2, 2, n - 1), [x % 2]);
    }
  }

  /** Taking five bits off the accumulator moves the top five pending bits to the output. */
  lemma TakeFive(bits: nat, n: nat)
    ensures Digits(bits, 2, 5 + n) == Digits(Shr32(bits, n) % 32, 2, 5) + Digits(bits, 2, n)
  {
    ShiftOut(bits, 5, n);
    assert Pow(2, 5) == 32;
    DigitsMod(Shr32(bits, n), 2, 5, 5);
  }

  lemma TakeByte(bits: nat, n: nat)
    ensures Digits(bits, 2, 8 + n) == Digits(Shr32(bits, n) % 256, 2, 8) + Digits(bits, 2, n)
  {
    ShiftOut(bits, 8, n);
    assert Pow(2, 8) == 256;
    DigitsMod(Shr32(bits, n), 2, 8, 8);
  }

  lemma Regroup(c: nat, u: nat, y: nat, p: nat)
    ensures (c * u + y) * p == (c * p) * u + y * p
    ensures c * p >= 0
  {
    MulMono(0, c, p);
    MulDistr(c * u, y, p);
    MulAssoc(c, u, p);
    MulAssoc(c, p, u);
  }

  lemma {:induction false} ShlIsProduct(x: nat, k: nat) returns (q: nat)
    requires k <= 32
    ensures x * Pow(2, k) == q * U32 + Shl32(x, k)
    decreases k
  {
    if k == 0 {
      q := x / U32;
      assert x * Pow(2, 0) == x;
    } else {
      var c, y, p := 2 * x / U32, 2 * x % U32, Pow(2, k - 1);
      q := ShlIsProduct(y, k - 1);
      assert 2 * x == c * U32 + y;
      Regroup(c, U32, y, p);
      MulAssoc(x, 2, p);
      assert x * Pow(2, k) == (2 * x) * p;
      q := c * p + q;
    }
  }

  /** Shifting in `k` more bits extends the pending bits, however much has wrapped away. */
  lemma ShiftIn(bits: nat, v: nat, n: nat, k: nat)
    requires v < Pow(2, k) && n + k <= 32
    ensures Digits(Shl32(bits, k) + v, 2, n + k) == Digits(bits, 2, n) + Digits(v, 2, k)
  {
    var q := ShlIsProduct(bits, k);
    DigitsJoin(bits, v, 2, n, k);
    PowU32();
    DigitsOfSum(q, Shl32(bits, k) + v, 2, 32, n + k);
  }

  lemma PowU32()
    ensures Pow(2, 32) == U32
  {
    PowAdd(2, 8, 8);
    PowAdd(2, 16, 16);
  }

  lemma ShiftInByte(bits: nat, byte: Byte, n: nat)
    requires n <= 24
    ensures Digits(Shl32(bits, 8) + byte, 2, n + 8) == Digits(bits, 2, n) + Digits(byte, 2, 8)
  {
    assert Pow(2, 8) == 256;
    ShiftIn(bits, byte, n, 8);
  }

  lemma ShiftInSymbol(bits: nat, d: nat, n: nat)
    requires n <= 27 && d < 32
    ensures Digits(Shl32(bits, 5) + d, 2, n + 5) == Digits(bits, 2, n) + Digits(d, 2, 5)
  {
    assert Pow(2, 5) == 32;
    ShiftIn(bits, d, n, 5);
  }

  lemma DigitsOfZero(k: nat)
    ensures Digits(0, 2, k) == Zeros(k)
  {
    if k > 0 { DigitsOfZero(k - 1); }
  }

  /** Bytes read so far = symbols written so far, then the low `n` bits of the accumulator. */
  ghost predicate Pending(data: seq<Byte>, ds: seq<nat>, bits: nat, n: nat) {
    AllBelow(ds, 32) && Flatten(data, 8) == Flatten(ds, 5) + Digits(bits, 2, n)
  }

  lemma NothingRead()
    ensures Pending([], [], 0, 0)
  {}

  lemma FeedByte(data: seq<Byte>, byte: Byte, ds: seq<nat>, bits: nat, n: nat, bits': nat)
    requires Pending(data, ds, bits, n)
    requires Digits(bits', 2, n + 8) == Digits(bits, 2, n) + Digits(byte, 2, 8)
    ensures Pending(data + [byte], ds, bits', n + 8)
  {
    FlattenSnoc(data, byte, 8);
    Assoc(Flatten(ds, 5), Digits(bits, 2, n), Digits(byte, 2, 8));
  }

  lemma EmitSymbol(data: seq<Byte>, ds: seq<nat>, bits: nat, n: nat, d: nat)
    requires Pending(data, ds, bits, 5 + n) && d < 32
    requires Digits(bits, 2, 5 + n) == Digits(d, 2, 5) + Digits(bits, 2, n)
    ensures Pending(data, ds + [d], bits, n)
  {
    FlattenSnoc(ds, d, 5);
    Assoc(Flatten(ds, 5), Digits(d, 2, 5), Digits(bits, 2, n));
  }

  lemma ReadByte(data: seq<Byte>, byte: Byte, ds: seq<nat>, bits: nat, n: nat)
    requires Pending(data, ds, bits, n) && n <= 24
    ensures Pending(data + [byte], ds, Shl32(bits, 8) + byte, n + 8)
  {
    ShiftInByte(bits, byte, n);
    FeedByte(data, byte, ds, bits, n, Shl32(bits, 8) + byte);
  }

  lemma WriteSymbol(data: seq<Byte>, ds: seq<nat>, bits: nat, n: nat)
    requires Pending(data, ds, bits, 5 + n)
    ensures Pending(data, ds + [Shr32(bits, n) % 32], bits, n)
  {
    TakeFive(bits, n);
    EmitSymbol(data, ds, bits, n, Shr32(bits, n) % 32);
  }

  lemma FillUp(bits: nat, n: nat)
    requires 0 < n < 5
    ensures Digits(Shl32(bits, 5 - n) % 32, 2, 5) == Digits(bits, 2, n) + Zeros(5 - n)
  {
    ShiftIn(bits, 0, n, 5 - n);
    DigitsOfZero(5 - n);
    assert Pow(2, 5) == 32;
    DigitsMod(Shl32(bits, 5 - n), 2, 5, 5);
  }

  lemma EmitLast(data: seq<Byte>, ds: seq<nat>, bits: nat, n: nat)
    requires Pending(data, ds, bits, n) && 0 < n < 5
    ensures ds + [Shl32(bits, 5 - n) % 32] == EncodeDigits(data, 5)
  {
    var d := Shl32(bits, 5 - n) % 32;
    FillUp(bits, n);
    FlattenSnoc(ds, d, 5);
    Assoc(Flatten(ds, 5), Digits(bits, 2, n), Zeros(5 - n));
    assert Pow(2, 5) == 32;
    EncodeUnique(ds + [d], data, 5 - n, 5);
  }

  lemma NothingLeft(data: seq<Byte>, ds: seq<nat>, bits: nat)
    requires Pending(data, ds, bits, 0)
    ensures ds == EncodeDigits(data, 5)
  {
    assert Pow(2, 5) == 32;
    assert Flatten(ds, 5) == Flatten(data, 8) + Zeros(0);
    EncodeUnique(ds, data, 0, 5);
  }

  lemma LettersSnoc(ds: seq<nat>, d: nat)
    requires AllBelow(ds, 32) && d < 32
    ensures Letters(ds + [d]) == Letters(ds) + [Letter(d)]
  {}

  method Base32Encode(data: seq<Byte>) returns (out: string)
    ensures out == Base32Text(data)
  {
    hide Flatten, Digits, EncodeDigits;
    out := "";
    ghost var ds: seq<nat> := [];
    var bits: nat, nbits: nat := 0, 0;
    NothingRead();
    for i := 0 to |data|
      invariant nbits < 5 && Pending(data[..i], ds, bits, nbits) && out == Letters(ds)
    {
      ReadByte(data[..i], data[i], ds, bits, nbits);
      assert data[..i + 1] == data[..i] + [data[i]];
      bits := Shl32(bits, 8) + data[i];      // the low eight bits are clear: `|` adds
      nbits := nbits + 8;
      while nbits >= 5
        invariant Pending(data[..i + 1], ds, bits, nbits) && out == Letters(ds)
      {
        nbits := nbits - 5;
        var idx := Shr32(bits, nbits) % 32;
        WriteSymbol(data[..i + 1], ds, bits, nbits);
        LettersSnoc(ds, idx);
        ds := ds + [idx];
        out := out + [Letter(idx)];
      }
    }
    assert data[..|data|] == data;
    if nbits > 0 {
      var idx := Shl32(bits, 5 - nbits) % 32;
      EmitLast(data, ds, bits, nbits);
      LettersSnoc(ds, idx);
      ds := ds + [idx];
      out := out + [Letter(idx)];
    } else {
      NothingLeft(data, ds, bits);
    }
  }

  /** Symbols read so far = bytes written so far, then the low `n` bits of the accumulator. */
  ghost predicate Unread(s: string, out: seq<Byte>, bits: nat, n: nat) {
    Accepts(s) && Flatten(Symbols(s), 5) == Flatten(out, 8) + Digits(bits, 2, n)
  }

  lemma NothingSeen()
    ensures Unread("", [], 0, 0)
  {}

  lemma FeedSymbol(s: string, c: char, d: nat, out: seq<Byte>, bits: nat, n: nat, bits': nat)
    requires !IsSeparator(c) && Symbol(c) == Some(d) && Unread(s, out, bits, n)
    requires Digits(bits', 2, n + 5) == Digits(bits, 2, n) + Digits(d, 2, 5)
    ensures Unread(s + [c], out, bits', n + 5)
  {
    AcceptsSnoc(s, c);
    assert (s + [c])[..|s|] == s;
    FlattenSnoc(Symbols(s), d, 5);
    Assoc(Flatten(out, 8), Digits(bits, 2, n), Digits(d, 2, 5));
  }

  lemma ReadSymbol(s: string, c: char, d: nat, out: seq<Byte>, bits: nat, n: nat)
    requires !IsSeparator(c) && Symbol(c) == Some(d) && Unread(s, out, bits, n) && n < 8
    ensures Unread(s + [c], out, Shl32(bits, 5) + d, n + 5)
  {
    hide Unread, Symbol, IsSeparator, Digits, Shl32;
    ShiftInSymbol(bits, d, n);
    FeedSymbol(s, c, d, out, bits, n, Shl32(bits, 5) + d);
  }

  lemma WriteByte(s: string, out: seq<Byte>, bits: nat, n: nat)
    requires Unread(s, out, bits, 8 + n)
    ensures Unread(s, out + [Shr32(bits, n) % 256], bits, n)
  {
    var v: Byte := Shr32(bits, n) % 256;
    TakeByte(bits, n);
    FlattenSnoc(out, v, 8);
    Assoc(Flatten(out, 8), Digits(v, 2, 8), Digits(bits, 2, n));
  }

  lemma SkipSeparator(s: string, c: char, out: seq<Byte>, bits: nat, n: nat)
    requires IsSeparator(c) && Unread(s, out, bits, n)
    ensures Unread(s + [c], out, bits, n)
  {
    AcceptsSnoc(s, c);
    assert (s + [c])[..|s|] == s;
    assert Symbols(s + [c]) == Symbols(s);
  }

  lemma RefuseEarly(s: string, i: nat)
    requires i < |s| && !IsSeparator(s[i]) && Symbol(s[i]) == None
    ensures Base32Value(s) == None
  {}

  lemma AllRead(s: string, out: seq<Byte>, bits: nat, n: nat)
    requires Unread(s, out, bits, n) && n < 8
    ensures Base32Value(s) == Some(out)
  {
    assert Pow(2, 8) == 256;
    GroupFlatten(out, Digits(bits, 2, n), 8);
  }

  method Base32Decode(input: string) returns (r: Option<seq<Byte>>)
    ensures r == Base32Value(input)
  {
    hide Flatten, Digits, DecodeDigits;
    var bits: nat, nbits: nat := 0, 0;
    var out: seq<Byte> := [];
    NothingSeen();
    for i := 0 to |input|
      invariant nbits < 8 && Unread(input[..i], out, bits, nbits)
    {
      var ch := input[i];
      assert input[..i + 1] == input[..i] + [ch];
      if IsSeparator(ch) {
        SkipSeparator(input[..i], ch, out, bits, nbits);
        continue;
      }
      var idx := Symbol(ch);
      if idx == None {
        RefuseEarly(input, i);
        return None;
      }
      ReadSymbol(input[..i], ch, idx.value, out, bits, nbits);
      bits := Shl32(bits, 5) + idx.value;    // the low five bits are clear: `|` adds
      nbits := nbits + 5;
      if nbits >= 8 {
        nbits := nbits - 8;
        WriteByte(input[..i + 1], out, bits, nbits);
        out := out + [Shr32(bits, nbits) % 256];
      }
    }
    assert input[..|input|] == input;
    AllRead(input, out, bits, nbits);
    return Some(out);
  }

  lemma {:induction false} SymbolsOfLetters(ds: seq<nat>)
    requires AllBelow(ds, 32)
    ensures Accepts(Letters(ds)) && Symbols(Letters(ds)) == ds
  {
    forall i | 0 <= i < |ds| ensures Symbol(Letter(ds[i])) == Some(ds[i]) && !IsSeparator(Letter(ds[i])) {
    }
    if ds == [] {
    } else {
      var n := |ds| - 1;
      assert Letters(ds)[..n] == Letters(ds[..n]);
      SymbolsOfLetters(ds[..n]);
    }
  }

  /** RFC 4648, section 6: the letters are those of the alphabet for base-32 digits that denote the number of the bytes,
      shifted to fill the last digit. */
  lemma Base32Denotes(data: seq<Byte>)
    ensures var s := Base32Text(data);
            exists ds: seq<nat> ::
              && Denotes(ds, data, 5) && |ds| == |s|
              && (forall i :: 0 <= i < |s| ==> ds[i] < 32 && s[i] == ALPHABET[ds[i]])
  {
    hide EncodeDigits, Denotes, Letter, Symbol, ALPHABET, Pow;
    Pow32();
    EncodeDenotes(data, 5);
    var ds, s := EncodeDigits(data, 5), Base32Text(data);
    AlphabetTable('A', 0);
    forall i | 0 <= i < |s| ensures ds[i] < 32 && s[i] == ALPHABET[ds[i]] { AlphabetTable(s[i], ds[i]); }
  }

  lemma Pow32()
    ensures Pow(2, 5) == 32
  {}

  /** What is decoded of any accepted text: its symbols, read as base-32 digits, without the bits that fill no byte. */
  lemma Base32DecodeDenotes(s: string)
    requires Accepts(s)
    ensures var ds := Symbols(s);
            var data, rest := Base32Value(s).value, 5 * |ds| % 8;
            && |data| == 5 * |ds| / 8
            && 0 <= Value(ds, 32) - Value(data, 256) * Pow(2, rest) < Pow(2, rest)
  {
    assert Pow(2, 5) == 32;
    DecodeDenotes(Symbols(s), 5);
  }

  lemma Base32RoundTrip(data: seq<Byte>)
    ensures Base32Value(Base32Text(data)) == Some(data)
    ensures |Base32Text(data)| == (8 * |data| + 4) / 5
  {
    assert Pow(2, 5) == 32;
    SymbolsOfLetters(EncodeDigits(data, 5));
    EncodeFlatten(data, 5);
    RoundTrip(data, 5);
  }

  predicate InAlphabet(s: string) {
    forall i :: 0 <= i < |s| ==> 'A' <= s[i] <= 'Z' || '2' <= s[i] <= '7'
  }

  lemma LetterOf(c: char)
    requires 'A' <= c <= 'Z' || '2' <= c <= '7'
    ensures !IsSeparator(c) && Symbol(c).Some? && Letter(Symbol(c).value) == c
  {}

  lemma {:induction false} AlphabetText(s: string)
    requires InAlphabet(s)
    ensures Accepts(s) && Letters(Symbols(s)) == s
  {
    if s == [] {
    } else {
      hide Accepts, Symbol, IsSeparator, Letter;
      var p, c := s[..|s| - 1], s[|s| - 1];
      LetterOf(c);
      AlphabetText(p);
      AcceptsSnoc(p, c);
      assert s == p + [c];
      assert Symbols(s) == Symbols(p) + [Symbol(c).value];
      assert Letters(Symbols(s)) == Letters(Symbols(p)) + [c];
    }
  }

  /** For every text: it is accepted and re-encoding what it decodes to gives it back exactly when it is an
      encoder's output: letters of the alphabet alone, and a short rest of bits, all zero. */
  lemma Base32Canonical(s: string)
    ensures Base32Value(s).Some? && Base32Text(Base32Value(s).value) == s
       <==> InAlphabet(s) && Canonical(Symbols(s), 5)
  {
    hide Accepts, Symbols, Canonical, DecodeDigits, EncodeDigits;
    if InAlphabet(s) {
      AlphabetText(s);
      LettersCanonical(Symbols(s));
    } else if Base32Value(s).Some? {
      TextInAlphabet(Base32Value(s).value);
    }
  }

  lemma TextInAlphabet(data: seq<Byte>)
    ensures InAlphabet(Base32Text(data))
  {
    assert Pow(2, 5) == 32;
  }

  lemma LettersCanonical(ds: seq<nat>)
    requires AllBelow(ds, 32)
    ensures Base32Value(Letters(ds)).Some?
    ensures Base32Text(Base32Value(Letters(ds)).value) == Letters(ds) <==> Canonical(ds, 5)
  {
    assert Pow(2, 5) == 32;
    SymbolsOfLetters(ds);
    CanonicalIff(ds, 5);
    SymbolsOfLetters(EncodeDigits(DecodeDigits(ds, 5), 5));
  }

  /** `s` without separators and in upper case. */
  function Normal(s: string): string {
    if s == [] then [] else
      Normal(s[..|s| - 1]) + if IsSeparator(s[|s| - 1]) then [] else [AsciiUpper(s[|s| - 1])]
  }

  lemma UpperKeepsSymbol(c: char)
    ensures Symbol(AsciiUpper(c)) == Symbol(c) && IsSeparator(AsciiUpper(c)) == IsSeparator(c)
  {}

  lemma AcceptsSnoc(s: string, c: char)
    ensures Accepts(s + [c]) <==> Accepts(s) && (IsSeparator(c) || Symbol(c).Some?)
  {
    var t := s + [c];
    assert forall i :: 0 <= i < |s| ==> t[i] == s[i];
    assert t[|s|] == c;
  }

  lemma {:induction false} SymbolsOfNormal(s: string)
    ensures Accepts(s) <==> Accepts(Normal(s))
    ensures Symbols(Normal(s)) == Symbols(s)
  {
    if s == [] {
    } else {
      var p, c := s[..|s| - 1], s[|s| - 1];
      SymbolsOfNormal(p);
      AcceptsSnoc(p, c);
      assert s == p + [c];
      if IsSeparator(c) {
        assert Normal(s) == Normal(p);
      } else {
        var u := AsciiUpper(c);
        UpperKeepsSymbol(c);
        AcceptsSnoc(Normal(p), u);
        assert Normal(s)[..|Normal(p)|] == Normal(p);
        assert Normal(s)[|Normal(p)|] == u;
      }
    }
  }

  /** Separators and letter case never change the outcome, decoded bytes or refusal. */
  lemma Base32Forgiving(s: string, t: string)
    requires Normal(s) == Normal(t)
    ensures Base32Value(s) == Base32Value(t)
  {
    SymbolsOfNormal(s);
    SymbolsOfNormal(t);
  }

  /** The characters the documentation of the decoder lists. */
  predicate Documented(s: string) {
    forall i :: 0 <= i < |s| ==>
      IsSeparator(s[i]) || 'A' <= s[i] <= 'Z' || 'a' <= s[i] <= 'z' || '2' <= s[i] <= '7'
  }

  predicate IsAscii(s: string) {
    forall i :: 0 <= i < |s| ==> s[i] as int < 128
  }

  /** The decoder takes every documented text; among the texts it takes, the undocumented ones
      are exactly those with a non-ASCII character, whose low byte then passes for a letter. */
  lemma Base32Undocumented(s: string)
    ensures Documented(s) ==> Accepts(s)
    ensures Accepts(s) ==> (Documented(s) <==> IsAscii(s))
  {
  }

  lemma Base32AcceptsForeignLetter()
    ensures Base32Value("\U{0141}").Some? && !Documented("\U{0141}")
  {
    var s := "\U{0141}";
    assert s[0] as int == 0x141 && Symbol(s[0]) == Some(0);
  }
}
