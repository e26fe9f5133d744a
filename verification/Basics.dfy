/** Small notions that several modules share. */
module Basics {
  import Positional

  const SECOND := 1_000_000
  const U32 := 0x1_0000_0000
  const U64 := 0x1_0000_0000_0000_0000

  /** What a column that keeps multiples of `grain` makes of a time. */
  function Stored(t: int, grain: nat): (s: int)
    requires grain > 0
    ensures s <= t < s + grain && s % grain == 0
    ensures t >= 0 ==> s >= 0
  {
    StoredIsMultiple(t, grain);
    t - t % grain
  }

  lemma StoredZero(grain: nat)
    requires grain > 0
    ensures Stored(0, grain) == 0
  {}

  lemma StoredIsMultiple(t: int, grain: nat)
    requires grain > 0
    ensures (t - t % grain) % grain == 0
    ensures t >= 0 ==> t % grain <= t
  {
    var q := t / grain;
    assert t - t % grain == q * grain;
    MultipleOf(q, grain);
    if t >= 0 { Quotient(t, grain); }
  }

  lemma Quotient(t: nat, grain: nat)
    requires grain > 0
    ensures t % grain <= t
  {}

  lemma MultipleOf(q: int, grain: nat)
    requires grain > 0
    ensures q * grain % grain == 0
  {
    var p, r := q * grain / grain, q * grain % grain;
    assert q * grain == p * grain + r;
    assert (q - p) * grain == r;
    if q - p >= 1 {
      Positional.MulMono(1, q - p, grain);
    } else if q - p <= -1 {
      Positional.MulMono(q - p, -1, grain);
    }
  }

  /** Multiples that are more than `c - g` apart are at least the multiple `c` apart. */
  lemma MultiplesApart(a: int, b: int, c: int, g: nat)
    requires g > 0 && a % g == 0 && b % g == 0 && c % g == 0 && b - a > c - g
    ensures b - a >= c
  {
    var x, y, z := a / g, b / g, c / g;
    Positional.MulDistr(y, x, g);
    Positional.MulDistr(z, 1, g);
    if y - x < z { Positional.MulMono(y - x, z - 1, g); }
  }

  function Least(a: nat, b: nat): nat {
    if a < b then a else b
  }

  function Most(a: nat, b: nat): nat {
    if a < b then b else a
  }

  predicate NoDuplicates(keys: seq<string>) {
    forall i, j :: 0 <= i < j < |keys| ==> keys[i] != keys[j]
  }

  /** Unicode White_Space, as `str::trim` has it. */
  predicate IsSpace(c: char) {
    var n := c as int;
    9 <= n <= 13 || n == 0x20 || n == 0x85 || n == 0xA0 || n == 0x1680 || 0x2000 <= n <= 0x200A
    || n == 0x2028 || n == 0x2029 || n == 0x202F || n == 0x205F || n == 0x3000
  }

  /** `trim().is_empty()`. */
  predicate IsBlank(s: string) {
    forall c :: c in s ==> IsSpace(c)
  }
}
