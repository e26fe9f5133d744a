/** The login lockout of backend/src/auth.rs over the login_attempts table, for attempts that overlap
    freely.  Times are microseconds; the table's DATETIME column keeps only multiples of a grain. */
module Auth {
  import opened Basics
  import Positional

  const WINDOW := 900 * SECOND
  const MAX_FAILURES := 8

  datatype Row = Row(username: string, sourceIp: string, success: bool, createdAt: nat)

  /** What happened, in order: a gate passed or refused, an attempt recorded for an earlier gate, the
      failures of an account cleared. */
  datatype Event =
    | Gate(username: string, sourceIp: string, now: nat)
    | Recorded(gate: nat, success: bool, createdAt: nat)
    | Cleared(username: string)

  function Counted(rows: map<nat, Row>, username: string, sourceIp: string, since: int): set<nat> {
    set id | id in rows && !rows[id].success && rows[id].createdAt >= since
             && (rows[id].username == username || rows[id].sourceIp == sourceIp)
  }

  // ---- the log and the rows it leaves ----

  predicate IsFailure(log: seq<Event>, i: nat) {
    i < |log| && log[i].Recorded? && !log[i].success && log[i].gate < i && log[log[i].gate].Gate?
  }

  function GateOf(log: seq<Event>, i: nat): Event
    requires IsFailure(log, i)
    ensures GateOf(log, i).Gate?
  {
    log[log[i].gate]
  }

  /** Failure `i` is still in the table after the first `n` events. */
  predicate Surviving(log: seq<Event>, i: nat, n: nat)
    requires n <= |log|
  {
    i < n && IsFailure(log, i) && forall j :: i < j < n ==> log[j] != Cleared(GateOf(log, i).username)
  }

  /** The failures the gate at event `e` counts. */
  function CountedAt(log: seq<Event>, e: nat): set<nat>
    requires e < |log| && log[e].Gate?
  {
    set i: nat | i < e && Surviving(log, i, e) && log[i].createdAt >= log[e].now - WINDOW
                 && (GateOf(log, i).username == log[e].username || GateOf(log, i).sourceIp == log[e].sourceIp)
  }

  /** Every recorded attempt passed its gate, and was recorded no earlier than that. */
  ghost predicate Legal(log: seq<Event>, g: nat)
    requires g > 0
  {
    forall i :: 0 <= i < |log| && log[i].Recorded? ==>
      && log[i].gate < i && log[log[i].gate].Gate?
      && |CountedAt(log, log[i].gate)| < MAX_FAILURES
      && exists t: nat :: t >= log[log[i].gate].now && log[i].createdAt == Stored(t, g)
  }

  /** Failures whose attempt is under way just after event `e`: past the gate, not yet recorded. */
  function InFlight(log: seq<Event>, e: nat): set<nat> {
    set i: nat | i < |log| && IsFailure(log, i) && log[i].gate <= e < i
  }

  /** The failure rows of the table are the surviving failures of the log. */
  ghost predicate Matches(rows: map<nat, Row>, log: seq<Event>) {
    && (forall id :: id in rows ==> id < |log|)
    && (forall id: nat {:trigger Surviving(log, id, |log|)} {:trigger rows[id]} ::
          id in rows && !rows[id].success <==> Surviving(log, id, |log|))
    && (forall id :: id in rows && Surviving(log, id, |log|) ==>
          rows[id] == Row(GateOf(log, id).username, GateOf(log, id).sourceIp, false, log[id].createdAt))
  }

  class LoginAttempts {
    /** login_attempts by id; an id is the position of its event. */
    var rows: map<nat, Row>
    ghost var log: seq<Event>
    const grain: nat

    constructor (grain: nat)
      requires grain > 0
      ensures Valid() && log == [] && this.grain == grain
    {
      rows, log := map[], [];
      this.grain := grain;
    }

    ghost predicate Valid()
      reads this
    {
      grain > 0 && Legal(log, grain) && Matches(rows, log)
    }

    /** `enforce_login_rate_limit`. */
    method Enforce(username: string, sourceIp: string, now: nat) returns (allowed: bool)
      requires Valid()
      modifies this`log
      ensures Valid() && log == old(log) + [Gate(username, sourceIp, now)]
      ensures allowed <==> |CountedAt(log, |log| - 1)| < MAX_FAILURES
    {
      hide Legal, Matches, CountedAt, Counted;
      var since := now - WINDOW;
      allowed := |Counted(rows, username, sourceIp, since)| < MAX_FAILURES;
      GateCounts(rows, log, username, sourceIp, now);
      GateKeeps(rows, log, Gate(username, sourceIp, now));
      LegalKept(log, Gate(username, sourceIp, now), grain);
      log := log + [Gate(username, sourceIp, now)];
    }

    /** `record_login_attempt`, for an attempt that passed the gate at event `gate`; `id` is new. */
    method Record(id: nat, username: string, sourceIp: string, success: bool, now: nat, ghost gate: nat)
      requires Valid() && id == |log|
      requires gate < |log| && log[gate].Gate? && log[gate].username == username && log[gate].sourceIp == sourceIp
      requires log[gate].now <= now && |CountedAt(log, gate)| < MAX_FAILURES
      modifies this
      ensures Valid() && log == old(log) + [Recorded(gate, success, Stored(now, grain))]
      ensures rows == old(rows)[id := Row(username, sourceIp, success, Stored(now, grain))]
    {
      hide Legal, Matches, CountedAt;
      RecordKeeps(rows, log, gate, success, Stored(now, grain));
      LegalKept(log, Recorded(gate, success, Stored(now, grain)), grain);
      rows := rows[id := Row(username, sourceIp, success, Stored(now, grain))];
      log := log + [Recorded(gate, success, Stored(now, grain))];
    }

    /** `clear_login_failures`: the failures of one account go, every other row stays. */
    method Clear(username: string)
      requires Valid()
      modifies this
      ensures Valid() && log == old(log) + [Cleared(username)]
      ensures rows == Without(old(rows), username)
    {
      hide Legal, Matches;
      ClearKeeps(rows, log, username);
      LegalKept(log, Cleared(username), grain);
      rows := map id | id in rows && (rows[id].success || rows[id].username != username) :: rows[id];
      log := log + [Cleared(username)];
    }
  }

  function Without(rows: map<nat, Row>, username: string): map<nat, Row> {
    map id | id in rows && (rows[id].success || rows[id].username != username) :: rows[id]
  }

  /** Clearing an account forgets its failures wherever they came from, and nothing else: no success and no row of
      another account, so failures of an address under other names still count. */
  lemma ClearForgets(rows: map<nat, Row>, username: string, sourceIp: string, since: int)
    ensures var after := Without(rows, username);
            && OfAccount(after, username, since) == {}
            && OfAddress(after, sourceIp, since)
               == (set id | id in OfAddress(rows, sourceIp, since) && rows[id].username != username)
            && (forall id :: id in after ==> id in rows && after[id] == rows[id])
            && (forall id :: id in rows && (rows[id].success || rows[id].username != username) ==> id in after)
  {}

  // One more event leaves the past as it was.

  lemma PastFailure(log: seq<Event>, ev: Event, i: nat)
    requires i < |log|
    ensures IsFailure(log + [ev], i) <==> IsFailure(log, i)
    ensures IsFailure(log, i) ==> GateOf(log + [ev], i) == GateOf(log, i)
  {
    assert (log + [ev])[i] == log[i];
  }

  lemma PastSurviving(log: seq<Event>, ev: Event, i: nat, n: nat)
    requires n <= |log|
    ensures Surviving(log + [ev], i, n) <==> Surviving(log, i, n)
  {
    if i < n { PastFailure(log, ev, i); }
    assert forall j :: i < j < n ==> (log + [ev])[j] == log[j];
  }

  lemma NowSurviving(log: seq<Event>, ev: Event, i: nat)
    requires i < |log|
    ensures Surviving(log + [ev], i, |log| + 1)
       <==> Surviving(log, i, |log|) && ev != Cleared(GateOf(log, i).username)
  {
    PastFailure(log, ev, i);
    var l := log + [ev];
    assert l[|log|] == ev;
    assert forall j :: i < j < |log| ==> l[j] == log[j];
  }

  lemma PastCounted(log: seq<Event>, ev: Event, e: nat)
    requires e < |log| && log[e].Gate?
    ensures CountedAt(log + [ev], e) == CountedAt(log, e)
  {
    assert (log + [ev])[e] == log[e];
    forall i: nat | i < e
      ensures Surviving(log + [ev], i, e) <==> Surviving(log, i, e)
      ensures IsFailure(log, i) ==> IsFailure(log + [ev], i) && GateOf(log + [ev], i) == GateOf(log, i)
    {
      PastSurviving(log, ev, i, e);
      PastFailure(log, ev, i);
    }
  }

  lemma LegalKept(log: seq<Event>, ev: Event, g: nat)
    requires g > 0 && Legal(log, g)
    requires ev.Recorded? ==> ev.gate < |log| && log[ev.gate].Gate? && |CountedAt(log, ev.gate)| < MAX_FAILURES
                              && exists t: nat :: t >= log[ev.gate].now && ev.createdAt == Stored(t, g)
    ensures Legal(log + [ev], g)
  {
    hide CountedAt;
    var l := log + [ev];
    forall i | 0 <= i < |l| && l[i].Recorded?
      ensures l[i].gate < i && l[l[i].gate].Gate? && |CountedAt(l, l[i].gate)| < MAX_FAILURES
              && exists t: nat :: t >= l[l[i].gate].now && l[i].createdAt == Stored(t, g)
    {
      if i < |log| {
        assert l[i] == log[i] && l[l[i].gate] == log[log[i].gate];
      }
      PastCounted(log, ev, l[i].gate);
    }
  }

  lemma GateCounts(rows: map<nat, Row>, log: seq<Event>, username: string, sourceIp: string, now: nat)
    requires Matches(rows, log)
    ensures Counted(rows, username, sourceIp, now - WINDOW)
         == CountedAt(log + [Gate(username, sourceIp, now)], |log|)
  {
    var l := log + [Gate(username, sourceIp, now)];
    forall id: nat
      ensures id in Counted(rows, username, sourceIp, now - WINDOW) <==> id in CountedAt(l, |log|)
    {
      if id < |log| {
        PastSurviving(log, l[|log|], id, |log|);
        PastFailure(log, l[|log|], id);
      }
    }
  }

  lemma GateKeeps(rows: map<nat, Row>, log: seq<Event>, ev: Event)
    requires Matches(rows, log) && ev.Gate?
    ensures Matches(rows, log + [ev])
  {
    var l := log + [ev];
    forall id: nat ensures Surviving(l, id, |l|) <==> Surviving(log, id, |log|) {
      if id < |log| { NowSurviving(log, ev, id); }
    }
    forall id | id in rows && Surviving(log, id, |log|) ensures GateOf(l, id) == GateOf(log, id) {
      PastFailure(log, ev, id);
    }
  }

  lemma RecordKeeps(rows: map<nat, Row>, log: seq<Event>, gate: nat, success: bool, at: nat)
    requires Matches(rows, log) && gate < |log| && log[gate].Gate?
    ensures Matches(rows[|log| := Row(log[gate].username, log[gate].sourceIp, success, at)],
                    log + [Recorded(gate, success, at)])
  {
    var ev := Recorded(gate, success, at);
    var l := log + [ev];
    var r := rows[|log| := Row(log[gate].username, log[gate].sourceIp, success, at)];
    assert Surviving(l, |log|, |l|) <==> !success;
    forall id: nat ensures id in r && !r[id].success <==> Surviving(l, id, |l|) {
      if id < |log| { NowSurviving(log, ev, id); }
    }
    forall id | id in r && Surviving(l, id, |l|)
      ensures r[id] == Row(GateOf(l, id).username, GateOf(l, id).sourceIp, false, l[id].createdAt)
    {
      if id < |log| {
        NowSurviving(log, ev, id);
        PastFailure(log, ev, id);
      }
    }
  }

  lemma ClearKeeps(rows: map<nat, Row>, log: seq<Event>, username: string)
    requires Matches(rows, log)
    ensures Matches(Without(rows, username), log + [Cleared(username)])
  {
    var ev := Cleared(username);
    var l := log + [ev];
    var r := Without(rows, username);
    forall id: nat ensures id in r && !r[id].success <==> Surviving(l, id, |l|) {
      if id < |log| { NowSurviving(log, ev, id); }
    }
    forall id | id in r && Surviving(l, id, |l|)
      ensures r[id] == Row(GateOf(l, id).username, GateOf(l, id).sourceIp, false, l[id].createdAt)
    {
      NowSurviving(log, ev, id);
      PastFailure(log, ev, id);
    }
  }

  // ---- the bound ----

  /** Surviving failures of one window, any two of which share the account or the address. */
  ghost predicate OneTarget(log: seq<Event>, s: set<nat>, start: int, width: nat) {
    && (forall i :: i in s ==> Surviving(log, i, |log|) && start <= log[i].createdAt <= start + width)
    && (forall i, j :: i in s && j in s ==>
          GateOf(log, i).username == GateOf(log, j).username || GateOf(log, i).sourceIp == GateOf(log, j).sourceIp)
  }

  lemma {:induction false} LatestGate(log: seq<Event>, s: set<nat>) returns (m: nat)
    requires s != {} && forall i :: i in s ==> IsFailure(log, i)
    ensures m in s && IsFailure(log, m)
    ensures forall i :: i in s ==> IsFailure(log, i) && log[i].gate <= log[m].gate
    decreases |s|
  {
    m :| m in s;
    var rest := s - {m};
    assert s == rest + {m};
    if rest != {} {
      var r := LatestGate(log, rest);
      if log[r].gate > log[m].gate { m := r; }
    }
  }

  lemma SubsetSize(a: set<nat>, b: set<nat>)
    requires a <= b
    ensures |a| <= |b|
  {
    assert b == a + (b - a);
  }

  /** At no moment are more than `k` failing attempts between gate and record. */
  ghost predicate AtMost(log: seq<Event>, k: nat) {
    forall e :: 0 <= e < |log| ==> |InFlight(log, e)| <= k
  }

  /** No window of this width holds more than 7 + k surviving failures against one account or address. */
  ghost predicate Bounded(log: seq<Event>, width: nat, k: nat) {
    forall s: set<nat>, start: int :: OneTarget(log, s, start, width) ==> |s| <= MAX_FAILURES - 1 + k
  }

  /** The shortest distance in the column at which the gate no longer sees a failure: the first moment after the
      window, cut down to the grain. */
  function Blind(g: nat): int
    requires g > 0
  {
    Stored(WINDOW + 1, g)
  }

  lemma OutOfSight(a: int, now: int, t: int, g: nat)
    requires g > 0 && a % g == 0 && a < now - WINDOW && now <= t
    ensures Stored(t, g) - a >= Blind(g)
  {
    MultiplesApart(a, Stored(t, g), Blind(g), g);
  }

  lemma EarlyCounted(log: seq<Event>, g: nat, s: set<nat>, start: int, width: nat, m: nat, i: nat)
    requires g > 0 && Legal(log, g) && OneTarget(log, s, start, width) && width < Blind(g)
    requires m in s && i in s && IsFailure(log, m) && i < log[m].gate
    ensures i in CountedAt(log, log[m].gate)
  {
    var e := log[m].gate;
    StoredAt(log, g, i);
    StoredAt(log, g, m);
    SameWindow(log, s, start, width, i, m);
    hide Legal, OneTarget, CountedAt, Blind, Stored;
    var t: nat :| t >= log[e].now && log[m].createdAt == Stored(t, g);
    if log[i].createdAt < log[e].now - WINDOW { OutOfSight(log[i].createdAt, log[e].now, t, g); }
    CountsIt(log, i, e);
  }

  lemma StoredAt(log: seq<Event>, g: nat, i: nat)
    requires g > 0 && Legal(log, g) && IsFailure(log, i)
    ensures log[i].createdAt % g == 0
    ensures exists t: nat :: t >= log[log[i].gate].now && log[i].createdAt == Stored(t, g)
  {}

  lemma SameWindow(log: seq<Event>, s: set<nat>, start: int, width: nat, i: nat, m: nat)
    requires OneTarget(log, s, start, width) && i in s && m in s && IsFailure(log, m) && i < log[m].gate
    ensures IsFailure(log, i) && log[m].createdAt - log[i].createdAt <= width && Surviving(log, i, log[m].gate)
    ensures GateOf(log, i).username == log[log[m].gate].username || GateOf(log, i).sourceIp == log[log[m].gate].sourceIp
  {
    assert Surviving(log, i, |log|) && Surviving(log, m, |log|);
  }

  lemma CountsIt(log: seq<Event>, i: nat, e: nat)
    requires e < |log| && log[e].Gate? && Surviving(log, i, e) && log[i].createdAt >= log[e].now - WINDOW
    requires GateOf(log, i).username == log[e].username || GateOf(log, i).sourceIp == log[e].sourceIp
    ensures i in CountedAt(log, e)
  {}

  /** Below that distance at most 7 + k failures of one account or address survive in any window, with k
      attempts between gate and record. */
  lemma WindowBound(log: seq<Event>, g: nat, s: set<nat>, start: int, width: nat, k: nat)
    requires g > 0 && Legal(log, g) && OneTarget(log, s, start, width) && AtMost(log, k)
    requires width < Blind(g)
    ensures |s| <= 7 + k
  {
    if s != {} {
      AllFailures(log, s, start, width);
      var m := LatestGate(log, s);
      GateBefore(log, g, m);
      var e := log[m].gate;
      var early := set i | i in s && i < e;
      var late := s - early;
      hide Legal, OneTarget, AtMost, CountedAt, InFlight, Blind;
      forall i | i in early ensures i in CountedAt(log, e) {
        EarlyCounted(log, g, s, start, width, m, i);
      }
      SubsetSize(early, CountedAt(log, e));
      forall i | i in late ensures i in InFlight(log, e) {
        LateInFlight(log, i, e);
      }
      SubsetSize(late, InFlight(log, e));
      assert s == early + late;
      assert |InFlight(log, e)| <= k by { AtMostAt(log, k, e); }
    }
  }

  lemma AllFailures(log: seq<Event>, s: set<nat>, start: int, width: nat)
    requires OneTarget(log, s, start, width)
    ensures forall i :: i in s ==> IsFailure(log, i)
  {}

  lemma GateBefore(log: seq<Event>, g: nat, m: nat)
    requires g > 0 && Legal(log, g) && IsFailure(log, m)
    ensures |CountedAt(log, log[m].gate)| < MAX_FAILURES
  {}

  lemma LateInFlight(log: seq<Event>, i: nat, e: nat)
    requires e < |log| && log[e].Gate? && IsFailure(log, i) && log[i].gate <= e && i >= e
    ensures i in InFlight(log, e)
  {}

  lemma AtMostAt(log: seq<Event>, k: nat, e: nat)
    requires AtMost(log, k) && e < |log|
    ensures |InFlight(log, e)| <= k
  {}

  // ---- at that distance the bound breaks ----

  /** Seven failures one after the other, `k` more whose attempts overlap, all at time zero; then one attempt just
      after the window. */
  function Burst(k: nat, g: nat): seq<Event>
    requires g > 0
  {
    seq(16 + 2 * k, i requires 0 <= i < 16 + 2 * k =>
      if i < 14 then (if i % 2 == 0 then Gate("u", "a", 0) else Recorded(i - 1, false, 0))
      else if i < 14 + k then Gate("u", "a", 0)
      else if i < 14 + 2 * k then Recorded(i - k, false, 0)
      else if i == 14 + 2 * k then Gate("u", "a", WINDOW + 1)
      else Recorded(14 + 2 * k, false, Blind(g)))
  }

  predicate BurstFailure(k: nat, i: nat) {
    (i < 14 && i % 2 == 1) || 14 + k <= i < 14 + 2 * k || i == 15 + 2 * k
  }

  function OddBelow(n: nat): set<nat> {
    set i: nat | i < n && i % 2 == 1
  }

  function Range(from: nat, n: nat): (r: set<nat>)
    ensures forall i :: i in r <==> from <= i < from + n
  {
    if n == 0 then {} else Range(from, n - 1) + {from + n - 1}
  }

  function BurstFailures(k: nat): set<nat> {
    OddBelow(14) + Range(14 + k, k) + {15 + 2 * k}
  }

  lemma {:induction false} OddCount(n: nat)
    ensures |OddBelow(2 * n)| == n
  {
    if n == 0 {
      assert OddBelow(0) == {};
    } else {
      OddCount(n - 1);
      assert OddBelow(2 * n) == OddBelow(2 * (n - 1)) + {2 * n - 1};
    }
  }

  lemma {:induction false} RangeCount(from: nat, n: nat)
    ensures |Range(from, n)| == n
  {
    if n > 0 { RangeCount(from, n - 1); }
  }

  lemma BurstCount(k: nat)
    ensures |BurstFailures(k)| == MAX_FAILURES + k
  {
    OddCount(7);
    RangeCount(14 + k, k);
    assert OddBelow(14) !! Range(14 + k, k);
    assert 15 + 2 * k !in OddBelow(14) + Range(14 + k, k);
  }

  lemma BurstShape(k: nat, g: nat, i: nat)
    requires g > 0 && i < 16 + 2 * k
    ensures IsFailure(Burst(k, g), i) <==> BurstFailure(k, i)
    ensures BurstFailure(k, i) ==>
              && GateOf(Burst(k, g), i).username == "u"
              && Burst(k, g)[i].createdAt == (if i == 15 + 2 * k then Blind(g) else 0)
    ensures forall n :: i < n <= 16 + 2 * k && BurstFailure(k, i) ==> Surviving(Burst(k, g), i, n)
  {
    var log := Burst(k, g);
    if i < 14 && i % 2 == 1 { assert log[i - 1].Gate?; }
    assert forall j :: 0 <= j < 16 + 2 * k ==> !log[j].Cleared?;
  }

  /** Each gate of the burst lets its attempt pass. */
  lemma BurstGate(k: nat, g: nat, e: nat)
    requires g > 0 && e < 16 + 2 * k && Burst(k, g)[e].Gate?
    ensures |CountedAt(Burst(k, g), e)| < MAX_FAILURES
  {
    var log := Burst(k, g);
    forall i | i in CountedAt(log, e) ensures i in OddBelow(14) {
      BurstShape(k, g, i);
    }
    SubsetSize(CountedAt(log, e), OddBelow(14));
    OddCount(7);
  }

  lemma BurstLegal(k: nat, g: nat)
    requires g > 0
    ensures Legal(Burst(k, g), g)
  {
    hide CountedAt;
    var log := Burst(k, g);
    StoredZero(g);
    forall i | 0 <= i < |log| && log[i].Recorded?
      ensures log[i].gate < i && log[log[i].gate].Gate? && |CountedAt(log, log[i].gate)| < MAX_FAILURES
              && exists t: nat :: t >= log[log[i].gate].now && log[i].createdAt == Stored(t, g)
    {
      BurstGate(k, g, log[i].gate);
      BurstShape(k, g, i);
      assert BurstFailure(k, i);
      var t: nat := if i == 15 + 2 * k then WINDOW + 1 else 0;
      assert t >= log[log[i].gate].now && log[i].createdAt == Stored(t, g);
    }
  }

  lemma BurstOneTarget(k: nat, g: nat, width: nat)
    requires g > 0 && width >= Blind(g)
    ensures OneTarget(Burst(k, g), BurstFailures(k), 0, width)
  {
    var log := Burst(k, g);
    hide Surviving, Burst;
    forall i | i in BurstFailures(k)
      ensures i < 16 + 2 * k && BurstFailure(k, i) && Surviving(log, i, |log|) && IsFailure(log, i)
      ensures GateOf(log, i).username == "u" && 0 <= log[i].createdAt <= width
    {
      BurstLength(k, g);
      BurstShape(k, g, i);
    }
  }

  lemma BurstLength(k: nat, g: nat)
    requires g > 0
    ensures |Burst(k, g)| == 16 + 2 * k && Blind(g) >= 0
  {}

  lemma BurstInFlight(k: nat, g: nat, e: nat)
    requires g > 0 && k > 0 && e < 16 + 2 * k
    ensures |InFlight(Burst(k, g), e)| <= k
  {
    var log := Burst(k, g);
    var few := if 14 <= e < 14 + 2 * k then Range(14 + k, k) else {e + 1};
    RangeCount(14 + k, k);
    forall i | i in InFlight(log, e) ensures i in few { BurstShape(k, g, i); }
    SubsetSize(InFlight(log, e), few);
  }

  /** The lockout bound, exactly: with at most k attempts between gate and record, every window of this width holds
      at most 7 + k surviving failures of one account or address in all histories if and only if the width is
      shorter than the window's end cut down to the grain. */
  lemma WindowBoundIff(g: nat, width: nat, k: nat)
    requires g > 0 && k > 0
    ensures (forall log :: Legal(log, g) && AtMost(log, k) ==> Bounded(log, width, k)) <==> width < Blind(g)
  {
    hide Legal, AtMost, InFlight, OneTarget, Blind;
    if width < Blind(g) {
      forall log | Legal(log, g) && AtMost(log, k) ensures Bounded(log, width, k) {
        forall s: set<nat>, start: int | OneTarget(log, s, start, width) ensures |s| <= MAX_FAILURES - 1 + k {
          WindowBound(log, g, s, start, width, k);
        }
      }
    } else {
      var log := Burst(k, g);
      BurstLegal(k, g);
      BurstLength(k, g);
      assert AtMost(log, k) by { BurstAtMost(k, g); }
      BurstOneTarget(k, g, width);
      BurstCount(k);
      assert !Bounded(log, width, k);
    }
  }

  lemma BurstAtMost(k: nat, g: nat)
    requires g > 0 && k > 0
    ensures AtMost(Burst(k, g), k)
  {
    hide InFlight;
    BurstLength(k, g);
    forall e | 0 <= e < |Burst(k, g)| ensures |InFlight(Burst(k, g), e)| <= k { BurstInFlight(k, g, e); }
  }

  /** For a column whose grain divides the window: one attempt at a time leaves at most eight failures in every
      window of a width if and only if the width is less than 15 minutes, or is 15 minutes and the column keeps
      every microsecond. */
  lemma SequentialBoundIff(g: nat, width: nat)
    requires g > 0 && 900_000_000 % g == 0
    ensures (forall log :: Legal(log, g) && AtMost(log, 1) ==> Bounded(log, width, 1))
       <==> width < 900_000_000 || (width == 900_000_000 && g == 1)
  {
    WindowBoundIff(g, width, 1);
    BlindDividing(g);
  }

  lemma BlindDividing(g: nat)
    requires g > 0 && WINDOW % g == 0
    ensures Blind(g) == if g == 1 then WINDOW + 1 else WINDOW
  {
    if g > 1 { Positional.DivModUnique(WINDOW + 1, WINDOW / g, 1, g); }
  }

  // ---- what blocks ----

  function OfAccount(rows: map<nat, Row>, username: string, since: int): set<nat> {
    set id | id in rows && !rows[id].success && rows[id].createdAt >= since && rows[id].username == username
  }

  function OfAddress(rows: map<nat, Row>, sourceIp: string, since: int): set<nat> {
    set id | id in rows && !rows[id].success && rows[id].createdAt >= since && rows[id].sourceIp == sourceIp
  }

  lemma CountsBoth(rows: map<nat, Row>, username: string, sourceIp: string, since: int)
    ensures Counted(rows, username, sourceIp, since)
         == OfAccount(rows, username, since) + OfAddress(rows, sourceIp, since)
  {}

  /** The gate counts failures of the account and of the address together, each once. */
  lemma BlockedMeans(rows: map<nat, Row>, username: string, sourceIp: string, since: int)
    ensures var byName, byIp := OfAccount(rows, username, since), OfAddress(rows, sourceIp, since);
            |Counted(rows, username, sourceIp, since)| == |byName| + |byIp| - |byName * byIp|
  {
    CountsBoth(rows, username, sourceIp, since);
  }

  /** The documentation speaks of either count reaching eight.  The gate agrees with it exactly when one of them
      does, or both together stay below. */
  lemma AgreesWithEitherIff(rows: map<nat, Row>, username: string, sourceIp: string, since: int)
    ensures var byName, byIp := OfAccount(rows, username, since), OfAddress(rows, sourceIp, since);
            var either := |byName| >= MAX_FAILURES || |byIp| >= MAX_FAILURES;
            var blocked := |Counted(rows, username, sourceIp, since)| >= MAX_FAILURES;
            (blocked <==> either) <==> (either || |byName + byIp| < MAX_FAILURES)
  {
    CountsBoth(rows, username, sourceIp, since);
    SubsetSize(OfAccount(rows, username, since), Counted(rows, username, sourceIp, since));
    SubsetSize(OfAddress(rows, sourceIp, since), Counted(rows, username, sourceIp, since));
  }

  function HalfAndHalf(): map<nat, Row> {
    var mine, theirs := Row("u", "b", false, 0), Row("v", "a", false, 0);
    map[0 := mine, 1 := mine, 2 := mine, 3 := mine, 4 := theirs, 5 := theirs, 6 := theirs, 7 := theirs]
  }

  /** So four failures of the account elsewhere and four of the address on another account block
      already, although neither reached eight. */
  lemma BlockedBelowBothThresholds()
    ensures var rows := HalfAndHalf();
            && |Counted(rows, "u", "a", 0)| == MAX_FAILURES
            && |Counted(rows, "u", "", 0)| == 4 && |Counted(rows, "", "a", 0)| == 4
  {
    var rows := HalfAndHalf();
    assert Counted(rows, "u", "a", 0) == {0, 1, 2, 3, 4, 5, 6, 7};
    assert Counted(rows, "u", "", 0) == {0, 1, 2, 3};
    assert Counted(rows, "", "a", 0) == {4, 5, 6, 7};
  }
}
