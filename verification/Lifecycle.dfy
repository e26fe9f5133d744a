/** Certificate auto-renewal of backend/src/lifecycle.rs: the rows of `tls_keys` and
    `host_applications` as state, every SQL statement an atomic step, and an interruption possible
    between any two of them. */
module Lifecycle {
  import opened Wrappers
  import opened Basics

  const DAY := 86400
  const MAX_DAYS := 825

  /** A row of tls_keys; times in seconds. */
  datatype Cert = Cert(autoRenew: bool, revoked: bool, leaf: bool, renewDaysBefore: int,
                       validFrom: int, validTo: int, lastStatus: Option<string>)

  /** A row of host_applications. */
  datatype Binding = Binding(tlsKeyId: Option<string>, autoDeploy: bool)

  datatype Tables = Tables(certs: map<string, Cert>, bindings: map<string, Binding>)

  /** `(a - b).num_days()`: whole days, truncated toward zero. */
  function NumDays(seconds: int): int {
    if seconds >= 0 then seconds / DAY else -((-seconds) / DAY)
  }

  function ValidDays(old_: Cert): int {
    var d := NumDays(old_.validTo - old_.validFrom);
    if d < 1 then 1 else if d > MAX_DAYS then MAX_DAYS else d
  }

  predicate Due(c: Cert, now: int) {
    c.autoRenew && !c.revoked && c.leaf && c.validTo <= now + c.renewDaysBefore * DAY
  }

  predicate Superseded(c: Cert) {
    c.lastStatus == Some("superseded")
  }

  // ---- the statements of one renewal ----

  /** The row `generate_tls_key` inserts. */
  function Issue(t: Tables, old_: Cert, newId: string, now: int): Tables {
    t.(certs := t.certs[newId := Cert(false, false, true, 30, now, now + ValidDays(old_) * DAY, None)])
  }

  function MarkRenewed(t: Tables, old_: Cert, newId: string): Tables {
    if newId in t.certs
    then t.(certs := t.certs[newId := t.certs[newId].(autoRenew := true, renewDaysBefore := old_.renewDaysBefore,
                                                      lastStatus := Some("renewed"))])
    else t
  }

  function Repoint(t: Tables, oldId: string, newId: string): Tables {
    t.(bindings := map b | b in t.bindings ::
      if t.bindings[b].tlsKeyId == Some(oldId) then t.bindings[b].(tlsKeyId := Some(newId)) else t.bindings[b])
  }

  function Supersede(t: Tables, oldId: string): Tables {
    if oldId in t.certs
    then t.(certs := t.certs[oldId := t.certs[oldId].(autoRenew := false, lastStatus := Some("superseded"))])
    else t
  }

  /** One attempt: the candidate as it was read, the fresh id, the time, and how many statements run. */
  datatype Renewal = Renewal(oldId: string, snapshot: Cert, newId: string, now: int, statements: nat)

  function Step(t: Tables, r: Renewal, k: nat): Tables {
    match k
    case 0 => Issue(t, r.snapshot, r.newId, r.now)
    case 1 => MarkRenewed(t, r.snapshot, r.newId)
    case 2 => Repoint(t, r.oldId, r.newId)
    case 3 => Supersede(t, r.oldId)
    case _ => t
  }

  /** The tables after the first `k` statements. */
  function After(t: Tables, r: Renewal, k: nat): Tables {
    if k == 0 then t else Step(After(t, r, k - 1), r, k - 1)
  }

  function Executed(r: Renewal): nat {
    if r.statements > 4 then 4 else r.statements
  }

  /** The tables after a sequence of attempts; a crash of the process is an attempt that stops early
      followed by attempts of no statements. */
  function AfterAll(t: Tables, rs: seq<Renewal>): Tables {
    if rs == [] then t else
      After(AfterAll(t, rs[..|rs| - 1]), rs[|rs| - 1], Executed(rs[|rs| - 1]))
  }

  const LIMIT := 50

  function DueIds(t: Tables, now: int): set<string> {
    set id | id in t.certs && Due(t.certs[id], now)
  }

  /** What the attempt on one candidate meets. */
  datatype Chance = Chance(newId: string, now: int, statements: nat)

  /** The ids to come occur nowhere yet and are all different. */
  ghost predicate FreshIds(t: Tables, chance: nat -> Chance) {
    && (forall i: nat :: FreshId(t, chance(i).newId))
    && forall i: nat, j: nat :: i < j ==> chance(i).newId != chance(j).newId
  }

  /** The attempts of a cycle are those on some candidates, at most 50 and all of them if there are no more. */
  ghost predicate Selected(t: Tables, now: int, chance: nat -> Chance, rs: seq<Renewal>) {
    && |rs| == Least(LIMIT, |DueIds(t, now)|)
    && forall i :: 0 <= i < |rs| ==>
         rs[i].oldId in t.certs && Due(t.certs[rs[i].oldId], now)
         && rs[i] == Renewal(rs[i].oldId, t.certs[rs[i].oldId], chance(i).newId, chance(i).now, chance(i).statements)
  }

  /** The targets of a certificate that are to be deployed to without being asked for. */
  function AutoDeployed(t: Tables, certId: string): set<string> {
    set b | b in t.bindings && t.bindings[b].tlsKeyId == Some(certId) && t.bindings[b].autoDeploy
  }

  class Database {
    var tables: Tables

    constructor (t: Tables)
      ensures tables == t
    {
      tables := t;
    }

    /** `renew_one`, given up after `r.statements` statements; the targets it then deploys to. */
    method RenewOne(r: Renewal) returns (completed: bool, deploys: set<string>)
      modifies this
      ensures tables == After(old(tables), r, Executed(r))
      ensures completed <==> r.statements >= 4
      ensures deploys == if completed then AutoDeployed(tables, r.newId) else {}
    {
      deploys := {};
      ghost var t0 := tables;
      if r.statements == 0 { return false, {}; }
      tables := Issue(tables, r.snapshot, r.newId, r.now);
      assert tables == After(t0, r, 1);
      if r.statements == 1 { return false, {}; }
      tables := MarkRenewed(tables, r.snapshot, r.newId);
      assert tables == After(t0, r, 2);
      if r.statements == 2 { return false, {}; }
      tables := Repoint(tables, r.oldId, r.newId);
      assert tables == After(t0, r, 3);
      if r.statements == 3 { return false, {}; }
      tables := Supersede(tables, r.oldId);
      return true, AutoDeployed(tables, r.newId);
    }

    /** The candidates, in no particular order. */
    method Candidates(now: int) returns (ids: seq<string>)
      ensures NoDuplicates(ids) && |ids| == Least(LIMIT, |DueIds(tables, now)|)
      ensures forall id :: id in ids ==> id in DueIds(tables, now)
    {
      ids := [];
      var rest := DueIds(tables, now);
      while rest != {} && |ids| < LIMIT
        invariant NoDuplicates(ids) && rest <= DueIds(tables, now) && |ids| <= LIMIT
        invariant |ids| + |rest| == |DueIds(tables, now)|
        invariant forall id :: id in ids ==> id in DueIds(tables, now) - rest
        decreases |rest|
      {
        var id :| id in rest;
        assert id !in ids;
        ids := ids + [id];
        rest := rest - {id};
      }
    }

    /** `run_auto_renew`: candidates are read once, and an attempt that fails does not stop the others.  What
        it does is one cycle in the sense of the histories below. */
    method RunAutoRenew(now: int, chance: nat -> Chance) returns (rs: seq<Renewal>)
      requires FreshIds(tables, chance)
      modifies this
      ensures tables == AfterAll(old(tables), rs)
      ensures Selected(old(tables), now, chance, rs)
      ensures Cycle(old(tables), now, rs)
      ensures Spares(old(tables), tables, now) && |rs| <= 50
    {
      hide AfterAll, After, Due;
      ghost var t := tables;
      var ids := Candidates(now);
      var snapshots := tables.certs;
      rs := [];
      assert AfterAll(t, []) == t by { NoAttempts(t); }
      for i := 0 to |ids|
        invariant |rs| == i && tables == AfterAll(t, rs)
        invariant forall j :: 0 <= j < i ==>
          ids[j] in t.certs
          && rs[j] == Renewal(ids[j], t.certs[ids[j]], chance(j).newId, chance(j).now, chance(j).statements)
      {
        assert ids[i] in DueIds(t, now);
        var r := Renewal(ids[i], snapshots[ids[i]], chance(i).newId, chance(i).now, chance(i).statements);
        var _, _ := RenewOne(r);
        OneMore(t, rs, r);
        rs := rs + [r];
      }
      forall i | 0 <= i < |rs| ensures rs[i].oldId in t.certs && Due(t.certs[rs[i].oldId], now) {
        assert ids[i] in DueIds(t, now);
      }
      CycleTakesUp(t, now, chance, rs);
    }
  }

  lemma NoAttempts(t: Tables)
    ensures AfterAll(t, []) == t
  {}

  lemma OneMore(t: Tables, rs: seq<Renewal>, r: Renewal)
    ensures AfterAll(t, rs + [r]) == After(AfterAll(t, rs), r, Executed(r))
  {
    assert (rs + [r])[..|rs|] == rs;
  }

  // ---- what a cycle leaves alone, and what it takes up ----

  /** The row is nothing to renew: revoked, switched off, no leaf, or not within its lead. */
  predicate NothingToRenew(c: Cert, now: int) {
    c.revoked || !c.autoRenew || !c.leaf || c.validTo > now + c.renewDaysBefore * 86_400
  }

  /** A cycle keeps the row of such a certificate and every binding to it. */
  ghost predicate Spares(before: Tables, after: Tables, now: int) {
    && (forall id :: id in before.certs && NothingToRenew(before.certs[id], now) ==>
          id in after.certs && after.certs[id] == before.certs[id])
    && (forall b, id ::
          b in before.bindings && before.bindings[b].tlsKeyId == Some(id)
          && id in before.certs && NothingToRenew(before.certs[id], now) ==>
          b in after.bindings && after.bindings[b] == before.bindings[b])
  }

  lemma {:induction false} OneSpared(t: Tables, rs: seq<Renewal>, id: string)
    requires id in t.certs && forall r :: r in rs ==> r.oldId != id && r.newId != id
    ensures var u := AfterAll(t, rs);
            && id in u.certs && u.certs[id] == t.certs[id]
            && forall b :: b in t.bindings && t.bindings[b].tlsKeyId == Some(id) ==>
                 b in u.bindings && u.bindings[b] == t.bindings[b]
  {
    if rs != [] {
      var before, r := rs[..|rs| - 1], rs[|rs| - 1];
      assert r in rs;
      OneSpared(t, before, id);
      Unfold(AfterAll(t, before), r);
    }
  }

  /** A cycle spares what is nothing to renew; and when at most 50 rows are auto-renewing unrevoked leaves within their
      lead, it attempts every one of them. */
  lemma CycleTakesUp(t: Tables, now: int, chance: nat -> Chance, rs: seq<Renewal>)
    requires Selected(t, now, chance, rs) && Cycle(t, now, rs)
    ensures Spares(t, AfterAll(t, rs), now)
    ensures var due := set id | id in t.certs && !NothingToRenew(t.certs[id], now);
            |due| <= 50 ==> forall id :: id in due ==> exists r :: r in rs && r.oldId == id
  {
    forall id | id in t.certs && NothingToRenew(t.certs[id], now)
      ensures forall r :: r in rs ==> r.oldId != id && r.newId != id
    {}
    hide AfterAll, FreshId;
    forall id | id in t.certs && NothingToRenew(t.certs[id], now)
      ensures var u := AfterAll(t, rs);
              && id in u.certs && u.certs[id] == t.certs[id]
              && forall b :: b in t.bindings && t.bindings[b].tlsKeyId == Some(id) ==>
                   b in u.bindings && u.bindings[b] == t.bindings[b]
    {
      OneSpared(t, rs, id);
    }
    var due := set id | id in t.certs && !NothingToRenew(t.certs[id], now);
    assert due == DueIds(t, now);
    if |due| <= 50 {
      var ids := seq(|rs|, i requires 0 <= i < |rs| => rs[i].oldId);
      EveryCandidate(ids, due);
      forall id | id in due ensures exists r :: r in rs && r.oldId == id {
        var i :| 0 <= i < |ids| && ids[i] == id;
        assert rs[i] in rs;
      }
    }
  }

  /** As many different members as a set has are all of them. */
  lemma {:induction false} EveryCandidate(ids: seq<string>, s: set<string>)
    requires NoDuplicates(ids) && |ids| == |s| && forall id :: id in ids ==> id in s
    ensures forall id :: id in s ==> id in ids
  {
    if ids != [] {
      var last := ids[|ids| - 1];
      assert last in s && last !in ids[..|ids| - 1];
      EveryCandidate(ids[..|ids| - 1], s - {last});
      forall id | id in s ensures id in ids {
        if id != last { assert id in ids[..|ids| - 1]; }
      }
    }
  }

  /** What a completed attempt of a cycle leaves: the old certificate retired, the new one in its place everywhere. */
  lemma {:induction false} CycleCompletes(t: Tables, now: int, rs: seq<Renewal>, n: nat, i: nat)
    requires Cycle(t, now, rs) && i < n <= |rs| && rs[i].statements >= 4
    ensures var u, r := AfterAll(t, rs[..n]), rs[i];
            && r.oldId in u.certs
            && u.certs[r.oldId] == t.certs[r.oldId].(autoRenew := false, lastStatus := Some("superseded"))
            && r.newId in u.certs && u.certs[r.newId].autoRenew && !u.certs[r.newId].revoked
            && forall b :: b in t.bindings && t.bindings[b].tlsKeyId == Some(r.oldId) ==>
                 b in u.bindings && u.bindings[b] == t.bindings[b].(tlsKeyId := Some(r.newId))
    decreases n
  {
    assert rs[..n][..n - 1] == rs[..n - 1];
    var v, q := AfterAll(t, rs[..n - 1]), rs[n - 1];
    if i < n - 1 {
      CycleCompletes(t, now, rs, n - 1, i);
      Unfold(v, q);
    } else {
      CycleStaysProper(t, now, rs, n - 1, n - 1);
      OneUntouched(t, now, rs, n - 1, i);
      CompletedRenewal(v, q);
    }
  }

  /** The certificate and the bindings of a later candidate are as the cycle found them. */
  lemma OneUntouched(t: Tables, now: int, rs: seq<Renewal>, n: nat, i: nat)
    requires Cycle(t, now, rs) && n <= i < |rs|
    ensures var u, id := AfterAll(t, rs[..n]), rs[i].oldId;
            && id in u.certs && u.certs[id] == t.certs[id]
            && forall b :: b in t.bindings && t.bindings[b].tlsKeyId == Some(id) ==>
                 b in u.bindings && u.bindings[b] == t.bindings[b]
  {
    forall r | r in rs[..n] ensures r.oldId != rs[i].oldId && r.newId != rs[i].oldId {
      var j :| 0 <= j < n && rs[..n][j] == r;
    }
    OneSpared(t, rs[..n], rs[i].oldId);
  }

  // ---- invariants over whole runs ----

  /** No deployment target points at a superseded certificate. */
  predicate NoneSuperseded(t: Tables) {
    forall b :: b in t.bindings && t.bindings[b].tlsKeyId.Some? && t.bindings[b].tlsKeyId.value in t.certs ==>
      !Superseded(t.certs[t.bindings[b].tlsKeyId.value])
  }

  /** A new id occurs nowhere yet. */
  predicate FreshId(t: Tables, id: string) {
    id !in t.certs && forall b :: b in t.bindings ==> t.bindings[b].tlsKeyId != Some(id)
  }

  /** An attempt as the loop makes it: a candidate that is still auto-renewing, and a fresh id. */
  predicate Proper(t: Tables, r: Renewal) {
    r.oldId in t.certs && t.certs[r.oldId].autoRenew && FreshId(t, r.newId)
  }

  /** A cycle: candidates due when the cycle read them, all different, all new ids fresh and different. */
  predicate Cycle(t: Tables, now: int, rs: seq<Renewal>) {
    && |rs| <= LIMIT
    && (forall i :: 0 <= i < |rs| ==>
          rs[i].oldId in t.certs && Due(t.certs[rs[i].oldId], now) && rs[i].snapshot == t.certs[rs[i].oldId]
          && FreshId(t, rs[i].newId))
    && (forall i, j :: 0 <= i < j < |rs| ==> rs[i].oldId != rs[j].oldId && rs[i].newId != rs[j].newId)
  }

  function AutoRenewing(t: Tables): set<string> {
    set id | id in t.certs && t.certs[id].autoRenew
  }

  /** An interruption between statement 2 and 4 leaves both certificates auto-renewing. */
  function Doubled(r: Renewal): nat {
    if r.statements == 2 || r.statements == 3 then 1 else 0
  }

  function DoubledIn(rs: seq<Renewal>): nat {
    if rs == [] then 0 else DoubledIn(rs[..|rs| - 1]) + Doubled(rs[|rs| - 1])
  }

  /** Every statement boundary: targets stay off superseded certificates, and the number of
      auto-renewing certificates is never below what it was before the attempt. */
  lemma EveryStatement(t: Tables, r: Renewal, k: nat)
    requires Proper(t, r) && NoneSuperseded(t) && k <= 4
    ensures NoneSuperseded(After(t, r, k))
    ensures AutoRenewing(After(t, r, k)) == AutoRenewing(t)
              + (if k >= 2 then {r.newId} else {}) - (if k >= 4 then {r.oldId} else {})
    ensures |AutoRenewing(After(t, r, k))| == |AutoRenewing(t)| + if k == 2 || k == 3 then 1 else 0
  {
    AutoAfter(t, r, k);
    assert r.oldId in AutoRenewing(t) && r.newId !in AutoRenewing(t);
    SafeAfter(t, r, k);
  }

  lemma AutoAfter(t: Tables, r: Renewal, k: nat)
    requires Proper(t, r) && k <= 4
    ensures AutoRenewing(After(t, r, k)) == AutoRenewing(t)
              + (if k >= 2 then {r.newId} else {}) - (if k >= 4 then {r.oldId} else {})
  {
    Unfold(t, r);
  }

  lemma SafeAfter(t: Tables, r: Renewal, k: nat)
    requires Proper(t, r) && NoneSuperseded(t) && k <= 4
    ensures NoneSuperseded(After(t, r, k))
  {
    Unfold(t, r);
  }

  lemma Unfold(t: Tables, r: Renewal)
    ensures After(t, r, 0) == t
    ensures After(t, r, 1) == Issue(t, r.snapshot, r.newId, r.now)
    ensures After(t, r, 2) == MarkRenewed(After(t, r, 1), r.snapshot, r.newId)
    ensures After(t, r, 3) == Repoint(After(t, r, 2), r.oldId, r.newId)
    ensures After(t, r, 4) == Supersede(After(t, r, 3), r.oldId)
  {}

  /** An attempt disturbs neither other candidates nor other new ids. */
  lemma OthersKept(t: Tables, r: Renewal, k: nat, id: string)
    requires id != r.oldId && id != r.newId && k <= 4
    ensures id in After(t, r, k).certs <==> id in t.certs
    ensures id in t.certs ==> After(t, r, k).certs[id] == t.certs[id]
    ensures FreshId(t, id) ==> FreshId(After(t, r, k), id)
  {
    Unfold(t, r);
  }

  /** Within a cycle every attempt is proper, whatever happened to the earlier ones. */
  lemma {:induction false} CycleStaysProper(t: Tables, now: int, rs: seq<Renewal>, n: nat, j: nat)
    requires Cycle(t, now, rs) && n <= j < |rs|
    ensures Proper(AfterAll(t, rs[..n]), rs[j])
  {
    if n == 0 {
    } else {
      CycleStaysProper(t, now, rs, n - 1, j);
      var u, r := AfterAll(t, rs[..n - 1]), rs[n - 1];
      assert rs[..n][..n - 1] == rs[..n - 1];
      assert rs[n - 1].oldId != rs[j].newId;
      OthersKept(u, r, Executed(r), rs[j].oldId);
      OthersKept(u, r, Executed(r), rs[j].newId);
    }
  }

  lemma {:induction false} CycleInvariant(t: Tables, now: int, rs: seq<Renewal>, n: nat)
    requires Cycle(t, now, rs) && NoneSuperseded(t) && n <= |rs|
    ensures NoneSuperseded(AfterAll(t, rs[..n]))
    ensures |AutoRenewing(AfterAll(t, rs[..n]))| == |AutoRenewing(t)| + DoubledIn(rs[..n])
  {
    if n == 0 {
    } else {
      CycleInvariant(t, now, rs, n - 1);
      CycleStaysProper(t, now, rs, n - 1, n - 1);
      assert rs[..n][..n - 1] == rs[..n - 1];
      EveryStatement(AfterAll(t, rs[..n - 1]), rs[n - 1], Executed(rs[n - 1]));
    }
  }

  /** A history: cycles one after the other, each reading its candidates from the tables it finds. */
  predicate History(t: Tables, times: seq<int>, cycles: seq<seq<Renewal>>)
    requires |times| == |cycles|
    decreases |cycles|
  {
    cycles == [] ||
      (Cycle(t, times[0], cycles[0]) && History(AfterAll(t, cycles[0]), times[1..], cycles[1..]))
  }

  function Final(t: Tables, cycles: seq<seq<Renewal>>): Tables
    decreases |cycles|
  {
    if cycles == [] then t else Final(AfterAll(t, cycles[0]), cycles[1..])
  }

  function DoubledOver(cycles: seq<seq<Renewal>>): nat {
    if cycles == [] then 0 else DoubledIn(cycles[0]) + DoubledOver(cycles[1..])
  }

  /** Over any number of cycles with interruptions anywhere: no target ever points at a superseded
      certificate, and the number of auto-renewing certificates grows by exactly one for each attempt
      cut off after its second or third statement, and never shrinks. */
  lemma {:induction false} WholeHistory(t: Tables, times: seq<int>, cycles: seq<seq<Renewal>>)
    requires |times| == |cycles| && History(t, times, cycles) && NoneSuperseded(t)
    ensures NoneSuperseded(Final(t, cycles))
    ensures |AutoRenewing(Final(t, cycles))| == |AutoRenewing(t)| + DoubledOver(cycles)
    decreases |cycles|
  {
    if cycles == [] {
    } else {
      var c := cycles[0];
      CycleInvariant(t, times[0], c, |c|);
      assert c[..|c|] == c;
      WholeHistory(AfterAll(t, c), times[1..], cycles[1..]);
    }
  }

  /** A completed renewal moves every target of the old certificate to the new one and no other target;
      the new certificate inherits the renewal setting, the old one is retired, the rest is untouched. */
  lemma CompletedRenewal(t: Tables, r: Renewal)
    requires Proper(t, r) && r.statements >= 4
    ensures var u := After(t, r, Executed(r));
      && u.bindings.Keys == t.bindings.Keys
      && (forall b :: b in t.bindings ==>
            u.bindings[b] == (if t.bindings[b].tlsKeyId == Some(r.oldId)
                              then t.bindings[b].(tlsKeyId := Some(r.newId)) else t.bindings[b]))
      && u.certs.Keys == t.certs.Keys + {r.newId}
      && u.certs[r.oldId] == t.certs[r.oldId].(autoRenew := false, lastStatus := Some("superseded"))
      && u.certs[r.newId] == Cert(true, false, true, r.snapshot.renewDaysBefore, r.now,
                                  r.now + ValidDays(r.snapshot) * DAY, Some("renewed"))
      && forall id :: id in t.certs && id != r.oldId ==> u.certs[id] == t.certs[id]
  {
    Unfold(t, r);
  }

  /** A completed renewal deploys to exactly the targets that the old certificate was to be deployed to by itself. */
  lemma DeploysTheOldTargets(t: Tables, r: Renewal)
    requires Proper(t, r) && r.statements >= 4
    ensures AutoDeployed(After(t, r, Executed(r)), r.newId)
         == set b | b in t.bindings && t.bindings[b].tlsKeyId == Some(r.oldId) && t.bindings[b].autoDeploy
  {
    CompletedRenewal(t, r);
    hide After;
  }

  /** When the renewed certificate is due again: at once, and then in every cycle, exactly when the
      renewal lead is not shorter than the (capped) lifetime. */
  lemma DueAgain(t: Tables, r: Renewal, later: int)
    requires Proper(t, r) && r.statements >= 4
    ensures r.newId in After(t, r, 4).certs
    ensures var c := After(t, r, 4).certs[r.newId];
      && (Due(c, later) <==> later >= r.now + (ValidDays(r.snapshot) - r.snapshot.renewDaysBefore) * DAY)
      && (Due(c, r.now) <==> r.snapshot.renewDaysBefore >= ValidDays(r.snapshot))
  {
    CompletedRenewal(t, r);
  }

  /** A new lifetime is the old one in whole days, cut to the range 1..825. */
  lemma LifetimeCapped(old_: Cert)
    ensures 1 <= ValidDays(old_) <= 825
    ensures 86_400 <= old_.validTo - old_.validFrom < 826 * 86_400 ==>
              var d := ValidDays(old_) * 86_400; d <= old_.validTo - old_.validFrom < d + 86_400
    ensures old_.validTo - old_.validFrom < 2 * 86_400 ==> ValidDays(old_) == 1
    ensures ValidDays(old_) == 825 <==> old_.validTo - old_.validFrom >= 825 * 86_400
  {}

  /** A target bound to the old certificate while it is being renewed. */
  function Bind(t: Tables, b: string, id: string): Tables {
    t.(bindings := t.bindings[b := Binding(Some(id), true)])
  }

  /** The rest of an attempt from statement `k` on. */
  function Rest(t: Tables, r: Renewal, k: nat): Tables
    requires k <= 4
    decreases 4 - k
  {
    if k == 4 then t else Rest(Step(t, r, k), r, k + 1)
  }

  /** The invariant is one of the loop alone: an operator's binding made in the middle of a renewal
      survives it safely exactly when it comes before the re-pointing statement. */
  lemma BindingDuringRenewal(t: Tables, r: Renewal, b: string, k: nat)
    requires Proper(t, r) && NoneSuperseded(t) && !Superseded(t.certs[r.oldId]) && k < 4
    ensures NoneSuperseded(Rest(Bind(After(t, r, k), b, r.oldId), r, k)) <==> k < 3
  {
    EveryStatement(t, r, k);
    Unfold(t, r);
    var u := Bind(After(t, r, k), b, r.oldId);
    if k == 3 {
      assert Rest(Step(u, r, 3), r, 4) == Supersede(u, r.oldId);
      assert Supersede(u, r.oldId).bindings[b].tlsKeyId == Some(r.oldId);
    } else {
      RestIsSafe(u, r, k);
    }
  }

  lemma {:induction false} RestIsSafe(u: Tables, r: Renewal, k: nat)
    requires k < 3 && r.oldId != r.newId && NoneSuperseded(u)
    requires k == 2 && r.newId in u.certs ==> !Superseded(u.certs[r.newId])
    ensures NoneSuperseded(Rest(u, r, k))
    decreases 3 - k
  {
    var v := Step(u, r, k);
    if k == 2 {
      assert Rest(v, r, 3) == Supersede(v, r.oldId);
    } else {
      RestIsSafe(v, r, k + 1);
    }
  }
}
