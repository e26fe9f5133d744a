/** Fixed-width positional notation, most significant digit first.  Bit strings (base 2),
    hexadecimal (base 16) and zero-padded decimals (base 10) are all instances. */
module Positional {

  type Byte = x: int | 0 <= x < 256

  function Pow(b: nat, k: nat): (p: nat)
    ensures b > 0 ==> p > 0
  {
    if k == 0 then 1 else Pow(b, k - 1) * b
  }

  /** The `k` least significant base-`b` digits of `x`. */
  function Digits(x: nat, b: nat, k: nat): (ds: seq<nat>)
    requires b >= 2
    ensures |ds| == k
    ensures AllBelow(ds, b)
  {
    if k == 0 then [] else Digits(x / b, b, k - 1) + [x % b]
  }

  predicate AllBelow(ds: seq<nat>, b: nat) {
    forall i :: 0 <= i < |ds| ==> ds[i] < b
  }

  function Value(ds: seq<nat>, b: nat): nat {
    if ds == [] then 0 else Value(ds[..|ds| - 1], b) * b + ds[|ds| - 1]
  }

  lemma MulAssoc(a: int, b: int, c: int)
    ensures (a * b) * c == a * (b * c)
  {}

  lemma MulDistr(a: int, b: int, c: int)
    ensures (a + b) * c == a * c + b * c
    ensures (a - b) * c == a * c - b * c
  {}

  lemma MulMono(a: int, b: int, c: nat)
    requires a <= b
    ensures a * c <= b * c
  {}

  lemma DivModUnique(x: int, q: int, r: int, b: int)
    requires 0 <= r < b && x == q * b + r
    ensures x / b == q && x % b == r
  {
    var q', r' := x / b, x % b;
    MulDistr(q, q', b);
    MulDistr(q', q, b);
    if q > q' {
      MulMono(1, q - q', b);
    } else if q < q' {
      MulMono(1, q' - q, b);
    }
  }

  lemma DivMod(x: nat, b: nat)
    requires b > 0
    ensures x == x / b * b + x % b
  {}

  lemma DivBelow(x: nat, b: nat, p: nat)
    requires b > 0 && x < p * b
    ensures x / b < p
  {
    DivMod(x, b);
    if x / b >= p { MulMono(p, x / b, b); }
  }

  /** Digits of a number assembled from a high part and `k` low digits. */
  lemma {:induction false} DigitsJoin(x: nat, y: nat, b: nat, j: nat, k: nat)
    requires b >= 2 && y < Pow(b, k)
    ensures x * Pow(b, k) >= 0
    ensures Digits(x * Pow(b, k) + y, b, j + k) == Digits(x, b, j) + Digits(y, b, k)
    decreases k
  {
    if k == 0 {
      assert x * Pow(b, k) + y == x;
    } else {
      var p := Pow(b, k - 1);
      var y', d := y / b, y % b;
      DivBelow(y, b, p);
      DigitsJoin(x, y', b, j, k - 1);
      MulAssoc(x, p, b);
      MulDistr(x * p, y', b);
      var z := x * Pow(b, k) + y;
      DivModUnique(z, x * p + y', d, b);
      assert Digits(z, b, j + k) == Digits(x * p + y', b, j + (k - 1)) + [d];
    }
  }

  /** Reading back a digit sequence and writing it out again changes nothing. */
  lemma {:induction false} DigitsOfValue(ds: seq<nat>, b: nat)
    requires b >= 2 && AllBelow(ds, b)
    ensures Digits(Value(ds, b), b, |ds|) == ds
    ensures Value(ds, b) < Pow(b, |ds|)
  {
    if ds == [] {
    } else {
      var t := ds[..|ds| - 1];
      DigitsOfValue(t, b);
      DivModUnique(Value(ds, b), Value(t, b), ds[|ds| - 1], b);
      MulMono(Value(t, b) + 1, Pow(b, |t|), b);
      MulDistr(Value(t, b), 1, b);
    }
  }

  lemma {:induction false} ValueOfDigits(x: nat, b: nat, k: nat)
    requires b >= 2 && x < Pow(b, k)
    ensures Value(Digits(x, b, k), b) == x
  {
    if k == 0 {
    } else {
      DivBelow(x, b, Pow(b, k - 1));
      ValueOfDigits(x / b, b, k - 1);
      var ds := Digits(x, b, k);
      assert ds[..k - 1] == Digits(x / b, b, k - 1);
      assert ds[k - 1] == x % b;
      DivMod(x, b);
    }
  }

  /** Only the low digits matter: this is what makes a wrapping accumulator harmless. */
  lemma {:induction false} DigitsOfSum(q: nat, r: nat, b: nat, m: nat, k: nat)
    requires b >= 2 && k <= m
    ensures q * Pow(b, m) >= 0
    ensures Digits(q * Pow(b, m) + r, b, k) == Digits(r, b, k)
    decreases k
  {
    MulMono(0, q, Pow(b, m));
    if k == 0 {
    } else {
      var p := Pow(b, m - 1);
      MulAssoc(q, p, b);
      MulMono(0, q, p);
      MulDistr(q * p, r / b, b);
      DivModUnique(q * Pow(b, m) + r, q * p + r / b, r % b, b);
      DigitsOfSum(q, r / b, b, m - 1, k - 1);
    }
  }

  lemma DigitsMod(x: nat, b: nat, m: nat, k: nat)
    requires b >= 2 && k <= m
    ensures Digits(x % Pow(b, m), b, k) == Digits(x, b, k)
  {
    DivMod(x, Pow(b, m));
    DigitsOfSum(x / Pow(b, m), x % Pow(b, m), b, m, k);
  }

  lemma {:induction false} PowAdd(b: nat, j: nat, k: nat)
    ensures Pow(b, j + k) == Pow(b, j) * Pow(b, k)
  {
    if k == 0 {
    } else {
      PowAdd(b, j, k - 1);
      MulAssoc(Pow(b, j), Pow(b, k - 1), b);
    }
  }

  lemma {:induction false} ValueConcat(ds: seq<nat>, es: seq<nat>, b: nat)
    ensures Value(ds + es, b) == Value(ds, b) * Pow(b, |es|) + Value(es, b)
  {
    if es == [] {
      assert ds + es == ds;
    } else {
      var t := es[..|es| - 1];
      ValueConcat(ds, t, b);
      assert (ds + es)[..|ds + es| - 1] == ds + t;
      MulDistr(Value(ds, b) * Pow(b, |t|), Value(t, b), b);
      MulAssoc(Value(ds, b), Pow(b, |t|), b);
    }
  }

  /** Lexicographic order. */
  predicate LexLess(a: seq<nat>, c: seq<nat>) {
    c != [] && (a == [] || a[0] < c[0] || (a[0] == c[0] && LexLess(a[1..], c[1..])))
  }

  lemma {:induction false} ValueHead(ds: seq<nat>, b: nat)
    requires ds != []
    ensures Value(ds, b) == ds[0] * Pow(b, |ds| - 1) + Value(ds[1..], b)
  {
    assert ds == [ds[0]] + ds[1..];
    ValueConcat([ds[0]], ds[1..], b);
    assert [ds[0]][..0] == [];
    assert Value([], b) == 0;
  }

  /** On equally long digit strings, lexicographic order is numeric order. */
  lemma {:induction false} LexIsNumeric(a: seq<nat>, c: seq<nat>, b: nat)
    requires b >= 2 && |a| == |c| && AllBelow(a, b) && AllBelow(c, b)
    ensures LexLess(a, c) <==> Value(a, b) < Value(c, b)
  {
    if a == [] {
    } else {
      var p := Pow(b, |a| - 1);
      ValueHead(a, b);
      ValueHead(c, b);
      DigitsOfValue(a[1..], b);
      DigitsOfValue(c[1..], b);
      LexIsNumeric(a[1..], c[1..], b);
      if a[0] < c[0] {
        MulMono(a[0] + 1, c[0], p);
        MulDistr(a[0], 1, p);
      } else if c[0] < a[0] {
        MulMono(c[0] + 1, a[0], p);
        MulDistr(c[0], 1, p);
      }
    }
  }
}
