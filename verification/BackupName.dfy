/** Names of backup files (backend/src/backup.rs): the UTC time to the millisecond in fixed-width decimal
    fields, so that name order is time order. */
module BackupName {
  import opened Positional
  import opened Decimal
  import opened Rotation

  /** A moment as chrono formats it. */
  datatype Stamp = Stamp(year: nat, month: nat, day: nat, hour: nat, minute: nat, second: nat, milli: nat)

  /** Four-digit years; the other fields have their calendar width. */
  predicate InRange(s: Stamp) {
    s.year < 10000 && s.month < 100 && s.day < 100 && s.hour < 100 && s.minute < 100 && s.second < 100 && s.milli < 1000
  }

  /** Earlier in calendar order. */
  predicate Before(s: Stamp, t: Stamp) {
    if s.year != t.year then s.year < t.year
    else if s.month != t.month then s.month < t.month
    else if s.day != t.day then s.day < t.day
    else if s.hour != t.hour then s.hour < t.hour
    else if s.minute != t.minute then s.minute < t.minute
    else if s.second != t.second then s.second < t.second
    else s.milli < t.milli
  }

  /** `%Y%m%d%H%M%S%3f`. */
  function StampText(s: Stamp): (t: string)
    ensures |t| == 17
  {
    ZeroPadded(s.year, 4) + ZeroPadded(s.month, 2) + ZeroPadded(s.day, 2) + ZeroPadded(s.hour, 2)
    + ZeroPadded(s.minute, 2) + ZeroPadded(s.second, 2) + ZeroPadded(s.milli, 3)
  }

  const PREFIX := "akamana-"

  function Name(s: Stamp, encrypted: bool): string {
    PREFIX + StampText(s) + (if encrypted then ".sql.ezbak" else ".sql")
  }

  predicate EndsWith(n: string, tail: string) {
    |tail| <= |n| && n[|n| - |tail|..] == tail
  }

  predicate IsBackupFile(n: string) {
    PREFIX <= n && (EndsWith(n, ".sql") || EndsWith(n, ".sql.ezbak"))
  }

  function Sidecar(n: string): string {
    n + ".sig"
  }

  lemma NameIsBackup(s: Stamp, encrypted: bool)
    ensures IsBackupFile(Name(s, encrypted))
  {}

  lemma LastCharacter(n: string, tail: string)
    requires EndsWith(n, tail) && tail != []
    ensures n[|n| - 1] == tail[|tail| - 1]
  {
    assert n[|n| - |tail|..][|tail| - 1] == n[|n| - 1];
  }

  lemma SidecarIsNoBackup(n: string)
    ensures !IsBackupFile(Sidecar(n))
  {
    if EndsWith(Sidecar(n), ".sql") { LastCharacter(Sidecar(n), ".sql"); }
    if EndsWith(Sidecar(n), ".sql.ezbak") { LastCharacter(Sidecar(n), ".sql.ezbak"); }
  }

  lemma SidecarInjective(m: string, n: string)
    requires Sidecar(m) == Sidecar(n)
    ensures m == n
  {
    assert m == Sidecar(m)[..|Sidecar(m)| - 4];
    assert n == Sidecar(n)[..|Sidecar(n)| - 4];
  }

  // ---- name order is time order ----

  lemma PaddedJoin(x: nat, y: nat, j: nat, k: nat)
    requires y < Pow(10, k)
    ensures x * Pow(10, k) >= 0
    ensures ZeroPadded(x * Pow(10, k) + y, j + k) == ZeroPadded(x, j) + ZeroPadded(y, k)
  {
    hide Digits, Pow;
    DigitsJoin(x, y, 10, j, k);
  }

  lemma PowersOfTen()
    ensures Pow(10, 2) == 100 && Pow(10, 3) == 1000
  {
    assert Pow(10, 1) == 10;
  }

  /** The fields as one number. */
  function Number(s: Stamp): nat {
    (((((s.year * 100 + s.month) * 100 + s.day) * 100 + s.hour) * 100 + s.minute) * 100 + s.second) * 1000 + s.milli
  }

  lemma TextIsPadded(s: Stamp)
    requires InRange(s)
    ensures StampText(s) == ZeroPadded(Number(s), 17)
  {
    hide ZeroPadded;
    PowersOfTen();
    var a := s.year * 100 + s.month;
    var b := a * 100 + s.day;
    var c := b * 100 + s.hour;
    var d := c * 100 + s.minute;
    var e := d * 100 + s.second;
    PaddedJoin(s.year, s.month, 4, 2);
    PaddedJoin(a, s.day, 6, 2);
    PaddedJoin(b, s.hour, 8, 2);
    PaddedJoin(c, s.minute, 10, 2);
    PaddedJoin(d, s.second, 12, 2);
    PaddedJoin(e, s.milli, 14, 3);
  }

  lemma {:induction false} LessIsLex(a: string, b: string, ds: seq<nat>, es: seq<nat>)
    requires |a| == |ds| && |b| == |es|
    requires forall i :: 0 <= i < |a| ==> a[i] as int == 48 + ds[i]
    requires forall i :: 0 <= i < |b| ==> b[i] as int == 48 + es[i]
    ensures Less(a, b) <==> LexLess(ds, es)
  {
    if a != [] && b != [] { LessIsLex(a[1..], b[1..], ds[1..], es[1..]); }
  }

  lemma PaddedOrder(m: nat, n: nat, k: nat)
    requires m < Pow(10, k) && n < Pow(10, k)
    ensures Less(ZeroPadded(m, k), ZeroPadded(n, k)) <==> m < n
  {
    hide Digits, Value, Less, LexLess, Pow;
    LessIsLex(ZeroPadded(m, k), ZeroPadded(n, k), Digits(m, 10, k), Digits(n, 10, k));
    LexIsNumeric(Digits(m, 10, k), Digits(n, 10, k), 10);
    ValueOfDigits(m, 10, k);
    ValueOfDigits(n, 10, k);
  }

  lemma {:induction false} LessSameLength(a: string, b: string, x: string, y: string)
    requires |a| == |b|
    ensures Less(a + x, b + y) <==> Less(a, b) || (a == b && Less(x, y))
  {
    if a == [] {
      assert a + x == x && b + y == y;
    } else {
      assert (a + x)[1..] == a[1..] + x && (b + y)[1..] == b[1..] + y;
      LessSameLength(a[1..], b[1..], x, y);
      assert a[0] == b[0] ==> (a == b <==> a[1..] == b[1..]) by {
        assert a == [a[0]] + a[1..] && b == [b[0]] + b[1..];
      }
    }
  }

  lemma NumberOrder(s: Stamp, t: Stamp)
    requires InRange(s) && InRange(t)
    ensures Before(s, t) <==> Number(s) < Number(t)
    ensures s == t <==> Number(s) == Number(t)
  {}

  lemma Pow17()
    ensures Pow(10, 17) == 100000000000000000
  {
    PowersOfTen();
    PowAdd(10, 2, 2);
    PowAdd(10, 4, 4);
    PowAdd(10, 8, 8);
    assert Pow(10, 17) == Pow(10, 16) * 10;
  }

  /** Descending name order is descending time order, whatever the suffixes. */
  lemma NameOrder(s: Stamp, e: bool, t: Stamp, f: bool)
    requires InRange(s) && InRange(t)
    ensures Before(s, t) ==> Less(Name(s, e), Name(t, f))
    ensures Less(Name(s, e), Name(t, f)) <==> Before(s, t) || (s == t && !e && f)
  {
    hide StampText, ZeroPadded, Pow, Before, Number;
    var x := if e then ".sql.ezbak" else ".sql";
    var y := if f then ".sql.ezbak" else ".sql";
    TextIsPadded(s);
    TextIsPadded(t);
    NumberOrder(s, t);
    SmallNumber(s);
    SmallNumber(t);
    PaddedOrder(Number(s), Number(t), 17);
    assert StampText(s) == StampText(t) ==> s == t by {
      PaddedRoundTrip(Number(s), 17);
      PaddedRoundTrip(Number(t), 17);
    }
    LessSameLength(StampText(s), StampText(t), x, y);
    LessSameLength(PREFIX, PREFIX, StampText(s) + x, StampText(t) + y);
    assert Name(s, e) == PREFIX + (StampText(s) + x) && Name(t, f) == PREFIX + (StampText(t) + y);
    SameStart();
    SuffixOrder(e, f);
  }

  lemma SmallNumber(s: Stamp)
    requires InRange(s)
    ensures Number(s) < Pow(10, 17)
  {
    Pow17();
  }

  lemma SameStart()
    ensures !Less(PREFIX, PREFIX)
  {
    LessTotal(PREFIX, PREFIX);
  }

  lemma SuffixOrder(e: bool, f: bool)
    ensures Less(if e then ".sql.ezbak" else ".sql", if f then ".sql.ezbak" else ".sql") <==> !e && f
  {
    LessSameLength(".sql", ".sql", if e then ".ezbak" else "", if f then ".ezbak" else "");
    LessTotal(".sql", ".sql");
    assert ".sql" + "" == ".sql" && ".sql" + ".ezbak" == ".sql.ezbak";
    LessTotal(".ezbak", ".ezbak");
  }
}
