/** HOTP and TOTP of backend/src/mfa.rs (RFC 4226 section 5.3, RFC 6238 sections 4.2 and 5.2).
    HMAC-SHA1 is a parameter: it may fail, and nothing is known of its output but its length. */
module Totp {
  import opened Positional
  import opened Basics
  import opened Wrappers
  import opened Decimal
  import opened Mfa

  /** `mac(secret, message)`; None stands for an error of the HMAC library. */
  type Mac = (seq<Byte>, seq<Byte>) -> Option<seq<Byte>>

  const CODE_DIGITS := 6
  const MODULO := 1_000_000

  function Offset(mac: seq<Byte>): (o: nat)
    ensures o < 16
  {
    if mac == [] then 0 else mac[|mac| - 1] % 16
  }

  /** Dynamic truncation: four bytes from the offset, top bit cleared; None when out of range. */
  function Truncate(mac: seq<Byte>): (r: Option<nat>)
    ensures r.Some? <==> Offset(mac) + 4 <= |mac|
    ensures r.Some? ==> r.value < 0x8000_0000
  {
    var o := Offset(mac);
    if o + 4 > |mac| then None else
      var b0: int, b1: int, b2: int, b3: int := mac[o], mac[o + 1], mac[o + 2], mac[o + 3];
      Some(b0 % 128 * 0x100_0000 + b1 * 0x1_0000 + b2 * 0x100 + b3)
  }

  function CounterBytes(counter: nat): seq<Byte> {
    var ds := Digits(counter, 256, 8);
    assert forall i :: 0 <= i < 8 ==> 0 <= ds[i] < 256;
    ds
  }

  function Hotp(mac: Mac, secret: seq<Byte>, counter: nat): Option<string> {
    match mac(secret, CounterBytes(counter))
    case None => None
    case Some(m) =>
      match Truncate(m)
      case None => None
      case Some(binary) => Some(ZeroPadded(binary % MODULO, CODE_DIGITS))
  }

  function CodeAt(mac: Mac, secretB32: string, time: nat): Option<string> {
    match Base32Value(secretB32)
    case None => None
    case Some(secret) => if secret == [] then None else Hotp(mac, secret, time / STEP_SECONDS)
  }

  function DigitsIn(s: string): string {
    if s == [] then [] else if IsDigit(s[0]) then [s[0]] + DigitsIn(s[1..]) else DigitsIn(s[1..])
  }

  /** `unix_time.checked_add_signed(delta * 30)`. */
  function Shifted(time: nat, delta: int): Option<nat> {
    var t := time + delta * STEP_SECONDS;
    if 0 <= t < U64 then Some(t) else None
  }

  /** The code is the one of the time shifted by `delta` steps. */
  predicate MatchesAt(mac: Mac, secretB32: string, cleaned: string, time: nat, delta: int) {
    Shifted(time, delta).Some? && CodeAt(mac, secretB32, Shifted(time, delta).value) == Some(cleaned)
  }

  method VerifyTotp(mac: Mac, secretB32: string, code: string, time: nat) returns (ok: bool)
    requires time < U64
    ensures ok <==> Accepted(mac, secretB32, code, time)
  {
    var cleaned := DigitsIn(code);
    if |cleaned| != CODE_DIGITS { return false; }
    ok := false;
    for delta := -1 to 2
      invariant ok <==> exists d :: -1 <= d < delta && MatchesAt(mac, secretB32, cleaned, time, d)
    {
      var shifted := Shifted(time, delta);
      if shifted == None { continue; }
      var candidate := CodeAt(mac, secretB32, shifted.value);
      if candidate == None { continue; }
      if candidate.value == cleaned {
        assert MatchesAt(mac, secretB32, cleaned, time, delta);
        ok := true;
      }
    }
    assert ok ==> Accepted(mac, secretB32, code, time) by {
      if ok { StepOfShift(mac, secretB32, cleaned, time); }
    }
    assert Accepted(mac, secretB32, code, time) ==> ok by {
      if Accepted(mac, secretB32, code, time) { ShiftOfStep(mac, secretB32, code, time); }
    }
  }

  /** A time step whose code is tried at `time`: the current one, the previous one once it exists,
      the next one unless the shifted time leaves 64 bits. */
  predicate InWindow(step: nat, time: nat) {
    var now := time / STEP_SECONDS;
    step == now || (step + 1 == now) || (step == now + 1 && time + STEP_SECONDS < U64)
  }

  /** What acceptance means: six digits that are the HOTP code of a step in the window. */
  ghost predicate Accepted(mac: Mac, secretB32: string, code: string, time: nat) {
    && |DigitsIn(code)| == CODE_DIGITS
    && Base32Value(secretB32).Some? && Base32Value(secretB32).value != []
    && exists step: nat :: InWindow(step, time) && Hotp(mac, Base32Value(secretB32).value, step) == Some(DigitsIn(code))
  }

  lemma StepOfShift(mac: Mac, secretB32: string, cleaned: string, time: nat)
    requires exists d :: -1 <= d < 2 && MatchesAt(mac, secretB32, cleaned, time, d)
    ensures Base32Value(secretB32).Some? && Base32Value(secretB32).value != []
    ensures exists step: nat :: InWindow(step, time)
              && Hotp(mac, Base32Value(secretB32).value, step) == Some(cleaned)
  {
    hide Hotp, Base32Value;
    var d :| -1 <= d < 2 && MatchesAt(mac, secretB32, cleaned, time, d);
    var step := (time + d * STEP_SECONDS) / STEP_SECONDS;
    assert step == time / STEP_SECONDS + d;
    assert InWindow(step, time) && Hotp(mac, Base32Value(secretB32).value, step) == Some(cleaned);
  }

  lemma ShiftOfStep(mac: Mac, secretB32: string, code: string, time: nat)
    requires time < U64 && Accepted(mac, secretB32, code, time)
    ensures exists d :: -1 <= d < 2 && MatchesAt(mac, secretB32, DigitsIn(code), time, d)
  {
    hide Hotp, Base32Value, DigitsIn;
    var step: nat :| InWindow(step, time) && Hotp(mac, Base32Value(secretB32).value, step) == Some(DigitsIn(code));
    var d := step - time / STEP_SECONDS;
    assert (time + d * STEP_SECONDS) / STEP_SECONDS == step;
    assert MatchesAt(mac, secretB32, DigitsIn(code), time, d);
  }

  /** The message of the MAC is the counter in eight bytes, most significant first. */
  lemma CounterBytesDenote(counter: nat)
    requires counter < U64
    ensures |CounterBytes(counter)| == 8 && Value(CounterBytes(counter), 256) == counter
  {
    Pow256();
    ValueOfDigits(counter, 256, 8);
  }

  lemma Pow256()
    ensures Pow(256, 4) == 0x1_0000_0000 && Pow(256, 8) == U64
  {
    assert Pow(256, 1) == 256 && Pow(256, 2) == 0x1_0000 && Pow(256, 3) == 0x100_0000;
    PowAdd(256, 4, 4);
  }

  lemma FourBytes(m: seq<Byte>, o: nat)
    requires o + 4 <= |m|
    ensures var a: int, b: int, c: int, d: int := m[o], m[o + 1], m[o + 2], m[o + 3];
            Value(m[o..o + 4], 256) == a * 0x100_0000 + b * 0x1_0000 + c * 0x100 + d
  {
    var w: seq<nat> := m[o..o + 4];
    assert w[..3][..2] == w[..2] && w[..2][..1] == w[..1] && w[..1][..0] == [];
    assert Value(w[..1], 256) == w[0];
    assert Value(w[..2], 256) == w[0] * 0x100 + w[1];
    assert Value(w[..3], 256) == w[0] * 0x1_0000 + w[1] * 0x100 + w[2];
  }

  lemma TopBitCleared(b: Byte, rest: nat)
    requires rest < 0x100_0000
    ensures var n: int := b; (n * 0x100_0000 + rest) % 0x8000_0000 == n % 128 * 0x100_0000 + rest
  {
    var n: int := b;
    var q, r := n / 128, n % 128;
    assert n * 0x100_0000 + rest == q * 0x8000_0000 + (r * 0x100_0000 + rest);
    DivModUnique(n * 0x100_0000 + rest, q, r * 0x100_0000 + rest, 0x8000_0000);
  }

  /** The number that dynamic truncation makes of a 20-byte MAC. */
  function CodeNumber(m: seq<Byte>): nat
    requires |m| == 20
  {
    var o := m[19] % 16;
    Value(m[o..o + 4], 256) % 0x8000_0000 % 1_000_000
  }

  /** RFC 4226, section 5.3: the code of a 20-byte MAC is the number of the four bytes at the offset that its last
      byte gives, without the top bit, modulo a million. */
  lemma HotpDenotes(mac: Mac, secret: seq<Byte>, counter: nat)
    requires var m := mac(secret, CounterBytes(counter)); m.Some? && |m.value| == 20
    ensures var m := mac(secret, CounterBytes(counter)).value;
            var code := Hotp(mac, secret, counter);
            && code.Some? && |code.value| == 6 && AllDigits(code.value) && DigitsIn(code.value) == code.value
            && FromText(code.value) == CodeNumber(m)
  {
    var m := mac(secret, CounterBytes(counter)).value;
    var o := m[19] % 16;
    FourBytes(m, o);
    var b: int, c: int, d: int := m[o + 1], m[o + 2], m[o + 3];
    TopBitCleared(m[o], b * 0x1_0000 + c * 0x100 + d);
    var n := Value(m[o..o + 4], 256) % 0x8000_0000 % 1_000_000;
    hide Value;
    assert Hotp(mac, secret, counter) == Some(ZeroPadded(n, 6));
    assert Pow(10, 6) == 1_000_000;
    PaddedRoundTrip(n, 6);
    DigitsInFixed(ZeroPadded(n, 6));
  }

  /** What is read of a typed code: its digits, in order, and nothing else. */
  lemma {:induction false} DigitsInParts(a: string, b: string, c: char)
    ensures DigitsIn(a + b) == DigitsIn(a) + DigitsIn(b) && AllDigits(DigitsIn(a))
    ensures DigitsIn([c]) == if '0' <= c <= '9' then [c] else ""
  {
    if a == [] {
      assert a + b == b;
    } else {
      DigitsInParts(a[1..], b, c);
      assert (a + b)[1..] == a[1..] + b;
    }
  }

  /** With a MAC of 20 bytes: a code is accepted exactly when it has six digits and they denote the code number of the
      30-second step of `time`, of the one before, or of the one after if 30 seconds later still fits 64 bits. */
  lemma AcceptedMeans(mac: Mac, secretB32: string, code: string, time: nat)
    requires time < U64 && forall k, m :: mac(k, m).Some? && |mac(k, m).value| == 20
    ensures Accepted(mac, secretB32, code, time)
       <==> && |DigitsIn(code)| == 6 && Base32Value(secretB32).Some? && Base32Value(secretB32).value != []
            && exists step: nat ::
                 && -1 <= step - time / 30 <= 1 && (step == time / 30 + 1 ==> time + 30 < U64)
                 && CodeNumber(mac(Base32Value(secretB32).value, CounterBytes(step)).value) == FromText(DigitsIn(code))
  {
    hide Hotp, Base32Value, DigitsIn, CodeNumber, CounterBytes, FromText;
    var cleaned := DigitsIn(code);
    DigitsInParts(code, "", '0');
    if |cleaned| == 6 && Base32Value(secretB32).Some? && Base32Value(secretB32).value != [] {
      var secret := Base32Value(secretB32).value;
      forall step: nat
        ensures Hotp(mac, secret, step) == Some(cleaned)
           <==> CodeNumber(mac(secret, CounterBytes(step)).value) == FromText(cleaned)
      {
        HotpDenotes(mac, secret, step);
        PaddedText(cleaned);
        PaddedText(Hotp(mac, secret, step).value);
      }
    }
  }

  lemma {:induction false} DigitsInFixed(s: string)
    requires AllDigits(s)
    ensures DigitsIn(s) == s
  {
    if s == [] {
    } else {
      DigitsInFixed(s[1..]);
    }
  }

  /** A code issued at `g` is taken at `t` when the steps are at most one apart and, if `g`'s step is
      the later one, `t + 30` still fits 64 bits. */
  lemma IssuedCodeAccepted(mac: Mac, secretB32: string, g: nat, t: nat, typed: string)
    requires g < U64 && t < U64 && CodeAt(mac, secretB32, g).Some?
    requires DigitsIn(typed) == CodeAt(mac, secretB32, g).value
    requires -1 <= g / STEP_SECONDS - t / STEP_SECONDS <= 1
    requires g / STEP_SECONDS <= t / STEP_SECONDS || t + STEP_SECONDS < U64
    ensures Accepted(mac, secretB32, typed, t)
  {
    var step := g / STEP_SECONDS;
    assert InWindow(step, t);
  }

  /** A MAC that makes the low counter byte the code. */
  function LowByteMac(secret: seq<Byte>, message: seq<Byte>): Option<seq<Byte>> {
    var low: Byte := if message == [] then 0 else message[|message| - 1];
    Some([0, 0, 0, low] + seq(16, i => 0))
  }

  /** The side condition is needed on its whole range: the last step of the 64-bit clock is cut
      short, and where `t + 30` leaves 64 bits there is a MAC whose code for the next step is
      refused at `t`. */
  lemma LastStepRefused(secretB32: string, g: nat, t: nat)
    requires Base32Value(secretB32).Some? && Base32Value(secretB32).value != []
    requires t < g < U64 && g / STEP_SECONDS == t / STEP_SECONDS + 1 && t + STEP_SECONDS >= U64
    ensures var issued := CodeAt(LowByteMac, secretB32, g);
            && issued.Some? && DigitsIn(issued.value) == issued.value
            && !Accepted(LowByteMac, secretB32, issued.value, t)
  {
    hide Hotp, ZeroPadded, FromText, DigitsIn, LowByteMac, Base32Value;
    var secret := Base32Value(secretB32).value;
    var last := g / STEP_SECONDS;
    LowByteCode(secret, last);
    var issued := CodeAt(LowByteMac, secretB32, g).value;
    forall step: nat | InWindow(step, t) ensures Hotp(LowByteMac, secret, step) != Some(issued) {
      LowByteCode(secret, step);
      assert step % 256 != last % 256;
    }
  }

  /** That range is not empty. */
  lemma LastStepExists()
    ensures var g, t := U64 - 1, U64 - 17;
            t < g < U64 && g / STEP_SECONDS == t / STEP_SECONDS + 1 && t + STEP_SECONDS >= U64
  {}

  lemma LowByteOf(counter: nat)
    ensures CounterBytes(counter)[7] == counter % 256
  {}

  lemma LowByteCode(secret: seq<Byte>, counter: nat)
    ensures Hotp(LowByteMac, secret, counter) == Some(ZeroPadded(counter % 256, 6))
    ensures FromText(ZeroPadded(counter % 256, 6)) == counter % 256
    ensures DigitsIn(ZeroPadded(counter % 256, 6)) == ZeroPadded(counter % 256, 6)
  {
    hide ZeroPadded, FromText, DigitsIn, Digits;
    LowByteOf(counter);
    var m := LowByteMac(secret, CounterBytes(counter)).value;
    assert m[19] == 0 && m[3] == counter % 256;
    assert Truncate(m) == Some(counter % 256);
    assert counter % 256 < Pow(10, 6);
    PaddedRoundTrip(counter % 256, 6);
    DigitsInFixed(ZeroPadded(counter % 256, 6));
  }
}
