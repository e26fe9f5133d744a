/** The alert cooldown of backend/src/notifier.rs and backend/src/machine_monitor.rs, both writing the
    notification_events table.  Times are microseconds; the sent_at column keeps multiples of a grain. */
module Notifier {
  import opened Wrappers
  import opened Basics
  import Positional

  const HOUR := 3600 * SECOND
  const DAY := 24 * HOUR

  datatype Item = Item(certType: string, certId: string)

  /** A row of notification_events; a failed delivery is recorded like a successful one. */
  datatype Notice = Notice(item: Item, recipient: string, delivered: bool, sentAt: int)

  predicate RecentlySent(events: seq<Notice>, item: Item, recipient: string, since: int) {
    exists i :: 0 <= i < |events| && events[i].item == item && events[i].recipient == recipient
                && events[i].sentAt >= since
  }

  // ---- one run ----

  /** One notice that a run may send: when it would be recorded, and what becomes of the delivery. */
  datatype Attempt = Attempt(item: Item, recipient: string, time: int, delivered: bool)

  /** The notices of one run of either writer.  The cutoff is fixed at `now`, while the clock goes on. */
  datatype Batch = Batch(now: int, cooldown: int, attempts: seq<Attempt>)

  /** What one attempt adds: nothing without a recipient or within the cooldown. */
  function Due(events: seq<Notice>, a: Attempt, since: int, grain: nat): seq<Notice>
    requires grain > 0
  {
    if IsBlank(a.recipient) || RecentlySent(events, a.item, a.recipient, since) then []
    else [Notice(a.item, a.recipient, a.delivered, Stored(a.time, grain))]
  }

  function AfterAttempts(events: seq<Notice>, attempts: seq<Attempt>, since: int, grain: nat): (es: seq<Notice>)
    requires grain > 0
  {
    if attempts == [] then events else
      var es := AfterAttempts(events, attempts[..|attempts| - 1], since, grain);
      es + Due(es, attempts[|attempts| - 1], since, grain)
  }

  function AfterBatch(events: seq<Notice>, b: Batch, grain: nat): seq<Notice>
    requires grain > 0
  {
    AfterAttempts(events, b.attempts, b.now - b.cooldown, grain)
  }

  /** The attempts of `run_once`: one per expiring row, all to the same webhook. */
  function ExpiryAttempts(webhookUrl: string, items: seq<Item>, times: nat -> int, delivered: nat -> bool):
    (attempts: seq<Attempt>)
    ensures |attempts| == |items|
  {
    seq(|items|, i requires 0 <= i < |items| => Attempt(items[i], webhookUrl, times(i), delivered(i)))
  }

  /** The attempts of `maybe_send_alert`: the webhook, then the mail recipient. */
  function AlertAttempts(item: Item, webhookUrl: string, emailTo: string, webhookTime: int, emailTime: int,
                         webhookOk: bool, emailOk: bool): seq<Attempt>
  {
    [Attempt(item, webhookUrl, webhookTime, webhookOk), Attempt(item, emailTo, emailTime, emailOk)]
  }

  /** A setting that is a number, or what stands in for it. */
  function SettingOr(setting: Option<int>, default: int): int {
    if setting.Some? then setting.value else default
  }

  /** `cooldown_hours` of the monitor, cut to the range 1..168. */
  function MonitorCooldown(setting: Option<int>): int {
    var hours := SettingOr(setting, 24);
    (if hours < 1 then 1 else if hours > 168 then 168 else hours) * HOUR
  }

  /** The cooldown of the monitor is whole hours between one hour and a week, a day when nothing is set. */
  lemma MonitorCooldownIs(setting: Option<int>)
    ensures MonitorCooldown(setting) ==
      match setting
      case None => 86_400_000_000
      case Some(h) => if h <= 1 then 3_600_000_000 else if h < 168 then h * 3_600_000_000 else 604_800_000_000
  {}

  /** What an outcome of a scan is worth an alert for: a connection error only when another host answers. */
  predicate Alarming(status: string, otherReachable: bool) {
    (status == "warning" || status == "expired" || status == "error") && (status == "error" ==> otherReachable)
  }

  /** A row of tls_keys or ssh_keys. */
  datatype KeyRow = KeyRow(revoked: bool, validTo: int)

  /** The rows of a table that the notifier reads. */
  function Expiring(keys: map<string, KeyRow>, threshold: int): set<string> {
    set id | id in keys && !keys[id].revoked && keys[id].validTo <= threshold
  }

  /** These items are the expiring rows of a table, each once. */
  ghost predicate Lists(items: seq<Item>, certType: string, keys: map<string, KeyRow>, threshold: int) {
    && (forall i :: 0 <= i < |items| ==>
          items[i].certType == certType && items[i].certId in Expiring(keys, threshold))
    && (forall id :: id in Expiring(keys, threshold) ==> Item(certType, id) in items)
    && (forall i, j :: 0 <= i < j < |items| ==> items[i] != items[j])
  }

  class Notifications {
    var events: seq<Notice>
    const grain: nat

    constructor (grain: nat)
      requires grain > 0
      ensures events == [] && this.grain == grain
    {
      events := [];
      this.grain := grain;
    }

    /** The rows of one query, in no particular order. */
    method ReadExpiring(certType: string, keys: map<string, KeyRow>, threshold: int) returns (items: seq<Item>)
      ensures Lists(items, certType, keys, threshold)
    {
      items := [];
      var rest := Expiring(keys, threshold);
      while rest != {}
        invariant rest <= Expiring(keys, threshold)
        invariant forall i :: 0 <= i < |items| ==>
          items[i].certType == certType && items[i].certId in Expiring(keys, threshold) - rest
        invariant forall id :: id in Expiring(keys, threshold) - rest ==> Item(certType, id) in items
        invariant forall i, j :: 0 <= i < j < |items| ==> items[i] != items[j]
        decreases |rest|
      {
        var id :| id in rest;
        items := items + [Item(certType, id)];
        rest := rest - {id};
      }
    }

    /** `run_once`, given up after `until` rows when a statement fails.  `times` and `delivered` are what the k-th row
        meets. */
    method RunOnce(webhookUrl: string, tls: map<string, KeyRow>, ssh: map<string, KeyRow>, now: int,
                   daysBefore: Option<int>, cooldown: Option<int>, times: nat -> int, delivered: nat -> bool,
                   until: nat)
      returns (tlsItems: seq<Item>, sshItems: seq<Item>)
      requires grain > 0
      modifies this`events
      ensures var threshold := now + SettingOr(daysBefore, 30) * DAY;
              Lists(tlsItems, "tls", tls, threshold) && Lists(sshItems, "ssh", ssh, threshold)
      ensures var attempts := ExpiryAttempts(webhookUrl, tlsItems + sshItems, times, delivered);
              var batch := Batch(now, SettingOr(cooldown, 24) * HOUR, attempts[..Least(until, |attempts|)]);
              events == AfterBatch(old(events), batch, grain)
      ensures until >= |tlsItems| + |sshItems| ==>
        ExpirySent(old(events), events, webhookUrl, now - SettingOr(cooldown, 24) * 3_600_000_000, tls, ssh,
                   now + SettingOr(daysBefore, 30) * 86_400_000_000)
    {
      hide Lists, ExpirySent, AfterAttempts, ExpiryAttempts, IsBlank;
      var threshold := now + SettingOr(daysBefore, 30) * DAY;
      tlsItems := ReadExpiring("tls", tls, threshold);
      sshItems := ReadExpiring("ssh", ssh, threshold);
      var items := tlsItems + sshItems;
      ghost var attempts := ExpiryAttempts(webhookUrl, items, times, delivered);
      var since := now - SettingOr(cooldown, 24) * HOUR;
      if IsBlank(webhookUrl) {
        BlankAttempts(events, webhookUrl, items, times, delivered, Least(until, |items|), since, grain);
      } else {
        SendAll(webhookUrl, items, times, delivered, since, until);
      }
      assert until >= |items| ==> attempts[..Least(until, |attempts|)] == attempts;
      ExpiryReaches(old(events), webhookUrl, tlsItems, sshItems, times, delivered, since, grain, tls, ssh, threshold);
    }

    method SendAll(webhookUrl: string, items: seq<Item>, times: nat -> int, delivered: nat -> bool, since: int,
                   until: nat)
      requires grain > 0 && !IsBlank(webhookUrl)
      modifies this`events
      ensures var attempts := ExpiryAttempts(webhookUrl, items, times, delivered);
              events == AfterAttempts(old(events), attempts[..Least(until, |items|)], since, grain)
    {
      hide IsBlank, RecentlySent;
      ghost var attempts := ExpiryAttempts(webhookUrl, items, times, delivered);
      var i := 0;
      while i < |items| && i < until
        invariant 0 <= i <= |items| && i <= until
        invariant events == AfterAttempts(old(events), attempts[..i], since, grain)
      {
        assert attempts[..i + 1][..i] == attempts[..i];
        if !RecentlySent(events, items[i], webhookUrl, since) {
          events := events + [Notice(items[i], webhookUrl, delivered(i), Stored(times(i), grain))];
        }
        i := i + 1;
      }
    }

    /** `maybe_send_alert`, given up after `until` recipients when a statement fails. */
    method MaybeSendAlert(item: Item, status: string, otherReachable: bool, webhookUrl: string, emailTo: string,
                          now: int, cooldown: Option<int>, webhookTime: int, emailTime: int,
                          webhookOk: bool, emailOk: bool, until: nat)
      requires grain > 0
      modifies this`events
      ensures var alarming := status == "warning" || status == "expired" || (status == "error" && otherReachable);
              && (!alarming ==> events == old(events))
              && (alarming && until >= 2 ==>
                    AlertSent(old(events), events, now - MonitorCooldown(cooldown),
                              Notice(item, webhookUrl, webhookOk, Stored(webhookTime, grain)),
                              Notice(item, emailTo, emailOk, Stored(emailTime, grain))))
      ensures var attempts := AlertAttempts(item, webhookUrl, emailTo, webhookTime, emailTime, webhookOk, emailOk);
              var batch := Batch(now, MonitorCooldown(cooldown), attempts[..Least(until, 2)]);
              Alarming(status, otherReachable) ==> events == AfterBatch(old(events), batch, grain)
    {
      AlertReaches(events, item, webhookUrl, emailTo, webhookTime, emailTime, webhookOk, emailOk,
                   now - MonitorCooldown(cooldown), grain);
      if !Alarming(status, otherReachable) { return; }
      var since := now - MonitorCooldown(cooldown);
      ghost var attempts := AlertAttempts(item, webhookUrl, emailTo, webhookTime, emailTime, webhookOk, emailOk);
      assert attempts[..1][..0] == [] && attempts[..2][..1] == attempts[..1];
      if until == 0 { return; }
      if !IsBlank(webhookUrl) && !RecentlySent(events, item, webhookUrl, since) {
        events := events + [Notice(item, webhookUrl, webhookOk, Stored(webhookTime, grain))];
      }
      assert events == AfterAttempts(old(events), attempts[..1], since, grain);
      if until == 1 { return; }
      if !IsBlank(emailTo) && !RecentlySent(events, item, emailTo, since) {
        events := events + [Notice(item, emailTo, emailOk, Stored(emailTime, grain))];
      }
    }
  }

  lemma BlankAttempts(events: seq<Notice>, webhookUrl: string, items: seq<Item>, times: nat -> int,
                      delivered: nat -> bool, k: nat, since: int, grain: nat)
    requires grain > 0 && IsBlank(webhookUrl) && k <= |items|
    ensures AfterAttempts(events, ExpiryAttempts(webhookUrl, items, times, delivered)[..k], since, grain) == events
  {
    hide IsBlank;
    BlankSendsNothing(events, ExpiryAttempts(webhookUrl, items, times, delivered)[..k], since, grain);
  }

  /** What an alert leaves: a notice for the webhook and one for the mail recipient, each unless it is blank or has one
      that is recent enough, the mail after the webhook. */
  predicate AlertSent(before: seq<Notice>, after: seq<Notice>, since: int, webhook: Notice, email: Notice) {
    var ws := if IsBlank(webhook.recipient) || RecentlySent(before, webhook.item, webhook.recipient, since) then []
              else [webhook];
    var again := ws != [] && email.item == webhook.item && email.recipient == webhook.recipient
                 && webhook.sentAt >= since;
    var ms := if IsBlank(email.recipient) || RecentlySent(before, email.item, email.recipient, since) || again then []
              else [email];
    after == before + ws + ms
  }

  lemma SentSnoc(events: seq<Notice>, n: Notice, item: Item, recipient: string, since: int)
    ensures RecentlySent(events + [n], item, recipient, since)
       <==> RecentlySent(events, item, recipient, since)
            || (n.item == item && n.recipient == recipient && n.sentAt >= since)
  {
    var es := events + [n];
    if RecentlySent(events, item, recipient, since) { SentEarlier(events, es, item, recipient, since); }
    if n.item == item && n.recipient == recipient && n.sentAt >= since { assert es[|events|] == n; }
  }

  /** Both recipients of an alert are reached, with their own outcome and time. */
  lemma AlertReaches(events: seq<Notice>, item: Item, webhookUrl: string, emailTo: string, webhookTime: int,
                     emailTime: int, webhookOk: bool, emailOk: bool, since: int, grain: nat)
    requires grain > 0
    ensures var attempts := AlertAttempts(item, webhookUrl, emailTo, webhookTime, emailTime, webhookOk, emailOk);
            AlertSent(events, AfterAttempts(events, attempts[..2], since, grain), since,
                      Notice(item, webhookUrl, webhookOk, Stored(webhookTime, grain)),
                      Notice(item, emailTo, emailOk, Stored(emailTime, grain)))
  {
    hide IsBlank, RecentlySent, Stored;
    var attempts := AlertAttempts(item, webhookUrl, emailTo, webhookTime, emailTime, webhookOk, emailOk);
    var webhook := Notice(item, webhookUrl, webhookOk, Stored(webhookTime, grain));
    assert attempts[..2][..1] == attempts[..1] && attempts[..1][..0] == [];
    assert AfterAttempts(events, attempts[..1], since, grain) == events + Due(events, attempts[0], since, grain);
    var es := AfterAttempts(events, attempts[..1], since, grain);
    assert AfterAttempts(events, attempts[..2], since, grain) == es + Due(es, attempts[1], since, grain);
    assert events + [] == events && es + [] == es;
    assert attempts[0] == Attempt(item, webhookUrl, webhookTime, webhookOk);
    assert attempts[1] == Attempt(item, emailTo, emailTime, emailOk);
    SentSnoc(events, webhook, item, emailTo, since);
  }

  /** The row is one that a run warns of. */
  predicate WarnsOf(item: Item, tls: map<string, KeyRow>, ssh: map<string, KeyRow>, threshold: int) {
    var keys := if item.certType == "tls" then tls else ssh;
    && (item.certType == "tls" || item.certType == "ssh")
    && item.certId in keys && !keys[item.certId].revoked && keys[item.certId].validTo <= threshold
  }

  /** A notice of this run, or one from before that is recent enough. */
  predicate Covered(before: seq<Notice>, after: seq<Notice>, item: Item, recipient: string, since: int) {
    RecentlySent(before, item, recipient, since) || SentFrom(after, |before|, item, recipient)
  }

  /** Every key that is not revoked and expires by the threshold has its notice. */
  ghost predicate AllWarned(before: seq<Notice>, after: seq<Notice>, webhookUrl: string, since: int,
                            tls: map<string, KeyRow>, ssh: map<string, KeyRow>, threshold: int) {
    forall item :: WarnsOf(item, tls, ssh, threshold) ==> Covered(before, after, item, webhookUrl, since)
  }

  /** No other key has a new notice, and nobody is told twice. */
  ghost predicate OnlyWarned(before: seq<Notice>, after: seq<Notice>, webhookUrl: string, since: int,
                             tls: map<string, KeyRow>, ssh: map<string, KeyRow>, threshold: int) {
    && before <= after
    && (forall n :: |before| <= n < |after| ==>
          && WarnsOf(after[n].item, tls, ssh, threshold) && after[n].recipient == webhookUrl
          && !RecentlySent(before, after[n].item, webhookUrl, since))
    && (forall m, n :: |before| <= m < n < |after| ==> after[m].item != after[n].item)
  }

  /** What a run of the notifier leaves. */
  ghost predicate ExpirySent(before: seq<Notice>, after: seq<Notice>, webhookUrl: string, since: int,
                             tls: map<string, KeyRow>, ssh: map<string, KeyRow>, threshold: int) {
    if IsBlank(webhookUrl) then after == before
    else AllWarned(before, after, webhookUrl, since, tls, ssh, threshold)
         && OnlyWarned(before, after, webhookUrl, since, tls, ssh, threshold)
  }

  lemma {:induction false} BlankSendsNothing(events: seq<Notice>, attempts: seq<Attempt>, since: int, grain: nat)
    requires grain > 0 && forall a :: a in attempts ==> IsBlank(a.recipient)
    ensures AfterAttempts(events, attempts, since, grain) == events
  {
    if attempts != [] { BlankSendsNothing(events, attempts[..|attempts| - 1], since, grain); }
  }

  /** One of the notices from number `from` on is for this item and recipient. */
  predicate SentFrom(events: seq<Notice>, from: nat, item: Item, recipient: string) {
    exists n :: from <= n < |events| && events[n].item == item && events[n].recipient == recipient
  }

  /** Every attempt that a run reaches has a recent notice afterwards, or one of this run. */
  lemma {:induction false} EveryoneNotified(events: seq<Notice>, attempts: seq<Attempt>, since: int, grain: nat, k: nat)
    requires grain > 0 && k < |attempts| && !IsBlank(attempts[k].recipient)
    ensures var es := AfterAttempts(events, attempts, since, grain);
            && events <= es
            && (RecentlySent(es, attempts[k].item, attempts[k].recipient, since)
                || SentFrom(es, |events|, attempts[k].item, attempts[k].recipient))
  {
    hide IsBlank, RecentlySent, SentFrom, Due;
    var m := |attempts| - 1;
    var before := AfterAttempts(events, attempts[..m], since, grain);
    OnlyGrows(events, attempts[..m], since, grain);
    if k < m {
      EveryoneNotified(events, attempts[..m], since, grain, k);
      StaysSent(before, Due(before, attempts[m], since, grain), |events|, attempts[k], since);
    } else {
      DueSent(before, attempts[k], |events|, since, grain);
    }
  }

  lemma AllListed(tlsItems: seq<Item>, sshItems: seq<Item>, tls: map<string, KeyRow>, ssh: map<string, KeyRow>,
                  threshold: int)
    requires Lists(tlsItems, "tls", tls, threshold) && Lists(sshItems, "ssh", ssh, threshold)
    ensures var items := tlsItems + sshItems;
            && (forall i :: 0 <= i < |items| ==> WarnsOf(items[i], tls, ssh, threshold))
            && (forall item :: WarnsOf(item, tls, ssh, threshold) ==> item in items)
            && (forall i, j :: 0 <= i < j < |items| ==> items[i] != items[j])
  {
    var items := tlsItems + sshItems;
    forall i, j | 0 <= i < j < |items| ensures items[i] != items[j] {
      if i < |tlsItems| <= j { assert items[i].certType == "tls" && items[j].certType == "ssh"; }
    }
    forall item | WarnsOf(item, tls, ssh, threshold) ensures item in items {
      assert item == Item(item.certType, item.certId);
      if item.certType == "tls" {
        assert item.certId in Expiring(tls, threshold);
      } else {
        assert item.certId in Expiring(ssh, threshold);
      }
    }
  }

  /** The notices of a run are those of some of its attempts, in order. */
  lemma {:induction false} NewNotices(events: seq<Notice>, webhookUrl: string, items: seq<Item>, times: nat -> int,
                                      delivered: nat -> bool, k: nat, since: int, grain: nat)
    requires grain > 0 && k <= |items|
    requires forall i, j :: 0 <= i < j < |items| ==> items[i] != items[j]
    ensures var es := AfterAttempts(events, ExpiryAttempts(webhookUrl, items, times, delivered)[..k], since, grain);
            && events <= es
            && (forall n :: |events| <= n < |es| ==>
                  && es[n].item in items[..k] && es[n].recipient == webhookUrl
                  && !RecentlySent(events, es[n].item, webhookUrl, since))
            && (forall m, n :: |events| <= m < n < |es| ==> es[m].item != es[n].item)
  {
    hide IsBlank, RecentlySent, Stored;
    if k > 0 {
      var attempts := ExpiryAttempts(webhookUrl, items, times, delivered);
      NewNotices(events, webhookUrl, items, times, delivered, k - 1, since, grain);
      assert attempts[..k][..k - 1] == attempts[..k - 1];
      var es := AfterAttempts(events, attempts[..k - 1], since, grain);
      assert items[..k] == items[..k - 1] + [items[k - 1]];
      assert items[k - 1] !in items[..k - 1];
      SentEarlier(events, es, items[k - 1], webhookUrl, since);
    }
  }

  lemma SentEarlier(events: seq<Notice>, es: seq<Notice>, item: Item, recipient: string, since: int)
    requires events <= es
    ensures RecentlySent(events, item, recipient, since) ==> RecentlySent(es, item, recipient, since)
  {}

  /** Every key that is due is warned of. */
  lemma ExpiryReaches(events: seq<Notice>, webhookUrl: string, tlsItems: seq<Item>, sshItems: seq<Item>,
                      times: nat -> int, delivered: nat -> bool, since: int, grain: nat,
                      tls: map<string, KeyRow>, ssh: map<string, KeyRow>, threshold: int)
    requires grain > 0 && Lists(tlsItems, "tls", tls, threshold) && Lists(sshItems, "ssh", ssh, threshold)
    ensures var attempts := ExpiryAttempts(webhookUrl, tlsItems + sshItems, times, delivered);
            ExpirySent(events, AfterAttempts(events, attempts, since, grain), webhookUrl, since, tls, ssh, threshold)
  {
    hide IsBlank, RecentlySent, Stored, AfterAttempts, AllWarned, OnlyWarned, Lists, ExpiryAttempts;
    var items := tlsItems + sshItems;
    var attempts := ExpiryAttempts(webhookUrl, items, times, delivered);
    if IsBlank(webhookUrl) {
      assert attempts[..|items|] == attempts;
      BlankAttempts(events, webhookUrl, items, times, delivered, |items|, since, grain);
    } else {
      AllListed(tlsItems, sshItems, tls, ssh, threshold);
      AllReached(events, webhookUrl, items, times, delivered, since, grain, tls, ssh, threshold);
      OnlyReached(events, webhookUrl, items, times, delivered, since, grain, tls, ssh, threshold);
    }
  }

  lemma AllReached(events: seq<Notice>, webhookUrl: string, items: seq<Item>, times: nat -> int,
                   delivered: nat -> bool, since: int, grain: nat,
                   tls: map<string, KeyRow>, ssh: map<string, KeyRow>, threshold: int)
    requires grain > 0 && !IsBlank(webhookUrl)
    requires forall item :: WarnsOf(item, tls, ssh, threshold) ==> item in items
    ensures var attempts := ExpiryAttempts(webhookUrl, items, times, delivered);
            AllWarned(events, AfterAttempts(events, attempts, since, grain), webhookUrl, since, tls, ssh, threshold)
  {
    hide IsBlank, AfterAttempts, WarnsOf, Covered;
    var attempts := ExpiryAttempts(webhookUrl, items, times, delivered);
    var es := AfterAttempts(events, attempts, since, grain);
    forall item | WarnsOf(item, tls, ssh, threshold) ensures Covered(events, es, item, webhookUrl, since) {
      var i :| 0 <= i < |items| && items[i] == item;
      FirstNotice(events, attempts, since, grain, i);
    }
  }

  lemma OnlyReached(events: seq<Notice>, webhookUrl: string, items: seq<Item>, times: nat -> int,
                    delivered: nat -> bool, since: int, grain: nat,
                    tls: map<string, KeyRow>, ssh: map<string, KeyRow>, threshold: int)
    requires grain > 0 && forall i, j :: 0 <= i < j < |items| ==> items[i] != items[j]
    requires forall i :: 0 <= i < |items| ==> WarnsOf(items[i], tls, ssh, threshold)
    ensures var attempts := ExpiryAttempts(webhookUrl, items, times, delivered);
            OnlyWarned(events, AfterAttempts(events, attempts, since, grain), webhookUrl, since, tls, ssh, threshold)
  {
    hide IsBlank, AfterAttempts, WarnsOf, RecentlySent, ExpiryAttempts;
    var attempts := ExpiryAttempts(webhookUrl, items, times, delivered);
    assert attempts[..|items|] == attempts && items[..|items|] == items;
    NewNotices(events, webhookUrl, items, times, delivered, |items|, since, grain);
  }

  /** A run covers every attempt that it reaches, by a notice of its own or an earlier one. */
  lemma {:induction false} FirstNotice(events: seq<Notice>, attempts: seq<Attempt>, since: int, grain: nat, k: nat)
    requires grain > 0 && k < |attempts| && !IsBlank(attempts[k].recipient)
    ensures var a := attempts[k];
            Covered(events, AfterAttempts(events, attempts, since, grain), a.item, a.recipient, since)
  {
    EveryoneNotified(events, attempts, since, grain, k);
    hide IsBlank, AfterAttempts;
    var es, a := AfterAttempts(events, attempts, since, grain), attempts[k];
    if !SentFrom(es, |events|, a.item, a.recipient) {
      var i :| 0 <= i < |es| && es[i].item == a.item && es[i].recipient == a.recipient && es[i].sentAt >= since;
      assert events[i] == es[i];
    }
  }

  lemma StaysSent(events: seq<Notice>, more: seq<Notice>, from: nat, a: Attempt, since: int)
    ensures RecentlySent(events, a.item, a.recipient, since) ==>
              RecentlySent(events + more, a.item, a.recipient, since)
    ensures SentFrom(events, from, a.item, a.recipient) ==> SentFrom(events + more, from, a.item, a.recipient)
  {
    assert forall n :: 0 <= n < |events| ==> (events + more)[n] == events[n];
  }

  lemma DueSent(events: seq<Notice>, a: Attempt, from: nat, since: int, grain: nat)
    requires grain > 0 && from <= |events| && !IsBlank(a.recipient)
    ensures var es := events + Due(events, a, since, grain);
            RecentlySent(es, a.item, a.recipient, since) || SentFrom(es, from, a.item, a.recipient)
  {
    hide IsBlank;
    var es := events + Due(events, a, since, grain);
    if RecentlySent(events, a.item, a.recipient, since) {
      StaysSent(events, Due(events, a, since, grain), from, a, since);
    } else {
      assert es[|events|].item == a.item && es[|events|].recipient == a.recipient;
    }
  }

  lemma {:induction false} OnlyGrows(events: seq<Notice>, attempts: seq<Attempt>, since: int, grain: nat)
    requires grain > 0
    ensures events <= AfterAttempts(events, attempts, since, grain)
  {
    if attempts != [] { OnlyGrows(events, attempts[..|attempts| - 1], since, grain); }
  }

  // ---- all histories ----

  type Settings = Item -> int

  /** The table after a history of runs of both writers, in any order. */
  function Play(batches: seq<Batch>, grain: nat): seq<Notice>
    requires grain > 0
  {
    if batches == [] then [] else AfterBatch(Play(batches[..|batches| - 1], grain), batches[|batches| - 1], grain)
  }

  /** No notice is recorded before its run began, and no run used a shorter cooldown for an item than `least`. */
  ghost predicate Timely(batches: seq<Batch>, least: Settings) {
    forall b, a :: b in batches && a in b.attempts ==> a.time >= b.now && b.cooldown >= least(a.item)
  }

  predicate SameTarget(events: seq<Notice>, i: nat, j: nat)
    requires i < |events| && j < |events|
  {
    events[i].item == events[j].item && events[i].recipient == events[j].recipient
  }

  /** All notices for one item and recipient are more than its cooldown apart, up to what the column rounds
      away, and all recorded times are such as the column keeps. */
  ghost predicate Apart(events: seq<Notice>, least: Settings, grain: nat)
    requires grain > 0
  {
    && (forall i, j :: 0 <= i < j < |events| && SameTarget(events, i, j) ==>
          events[j].sentAt - events[i].sentAt > least(events[j].item) - grain + 1)
    && (forall i :: 0 <= i < |events| ==> events[i].sentAt % grain == 0)
  }

  lemma OneMore(events: seq<Notice>, a: Attempt, now: int, cooldown: int, least: Settings, grain: nat)
    requires grain > 0 && Apart(events, least, grain)
    requires a.time >= now && cooldown >= least(a.item)
    ensures Apart(events + Due(events, a, now - cooldown, grain), least, grain)
  {
    hide IsBlank;
    var es := events + Due(events, a, now - cooldown, grain);
    forall i, j | 0 <= i < j < |es| && SameTarget(es, i, j)
      ensures es[j].sentAt - es[i].sentAt > least(es[j].item) - grain + 1
    {
      if j < |events| {
        assert SameTarget(events, i, j);
      } else {
        assert events[i].sentAt < now - cooldown;
      }
    }
  }

  lemma {:induction false} BatchKeeps(events: seq<Notice>, attempts: seq<Attempt>, now: int, cooldown: int,
                                      least: Settings, grain: nat)
    requires grain > 0 && Apart(events, least, grain)
    requires forall a :: a in attempts ==> a.time >= now && cooldown >= least(a.item)
    ensures Apart(AfterAttempts(events, attempts, now - cooldown, grain), least, grain)
  {
    hide Apart, Due;
    if attempts != [] {
      var before := attempts[..|attempts| - 1];
      BatchKeeps(events, before, now, cooldown, least, grain);
      var last := attempts[|attempts| - 1];
      OneMore(AfterAttempts(events, before, now - cooldown, grain), last, now, cooldown, least, grain);
    }
  }

  /** In every history of both writers, whatever was delivered and however long a run took: notices for one
      item and recipient keep the cooldown of that item, up to what the column rounds away. */
  lemma {:induction false} EveryHistory(batches: seq<Batch>, least: Settings, grain: nat)
    requires grain > 0 && Timely(batches, least)
    ensures Apart(Play(batches, grain), least, grain)
  {
    if batches != [] {
      var before, b := batches[..|batches| - 1], batches[|batches| - 1];
      EveryHistory(before, least, grain);
      assert b in batches;
      BatchKeeps(Play(before, grain), b.attempts, b.now, b.cooldown, least, grain);
    }
  }

  /** With a grain that divides the cooldown the distance is at least the cooldown. */
  lemma CooldownKept(batches: seq<Batch>, least: Settings, grain: nat, i: nat, j: nat)
    requires grain > 0 && Timely(batches, least)
    requires i < j < |Play(batches, grain)| && SameTarget(Play(batches, grain), i, j)
    ensures var es := Play(batches, grain);
            var c := least(es[j].item);
            c % grain == 0 ==> es[j].sentAt - es[i].sentAt >= c
  {
    hide Play;
    EveryHistory(batches, least, grain);
    var es := Play(batches, grain);
    var c := least(es[j].item);
    if c % grain == 0 { MultiplesApart(es[i].sentAt, es[j].sentAt, c, grain); }
  }

  // ---- strictly more ----

  /** Every two notices for one item and recipient are strictly more than `c` apart. */
  ghost predicate StrictlyApart(events: seq<Notice>, c: int) {
    forall i, j :: 0 <= i < j < |events| && SameTarget(events, i, j) ==> events[j].sentAt - events[i].sentAt > c
  }

  /** Between two multiples of the grain that are more than `c - grain + 1` apart lies more than `c` when `c` is
      one less than a multiple. */
  lemma RoundedStrict(a: int, b: int, c: int, g: nat)
    requires g > 0 && a % g == 0 && b % g == 0 && b - a > c - g + 1 && c % g == g - 1
    ensures b - a > c
  {
    var z := c / g;
    Positional.MulDistr(z, 1, g);
    assert c + 1 == (z + 1) * g;
    MultipleOf(z + 1, g);
    MultiplesApart(a, b, c + 1, g);
  }

  /** Two runs that make the distance as short as the column allows. */
  function TwoRuns(item: Item, recipient: string, c: int): seq<Batch> {
    [Batch(0, c, [Attempt(item, recipient, 0, true)]), Batch(c + 1, c, [Attempt(item, recipient, c + 1, true)])]
  }

  lemma TwoRunsTimely(item: Item, recipient: string, c: int)
    ensures Timely(TwoRuns(item, recipient, c), i => c)
  {}

  lemma TwoNotices(item: Item, recipient: string, c: int, grain: nat)
    requires grain > 0 && !IsBlank(recipient)
    ensures Play(TwoRuns(item, recipient, c), grain)
         == [Notice(item, recipient, true, 0), Notice(item, recipient, true, Stored(c + 1, grain))]
  {
    hide IsBlank, AfterAttempts, Stored;
    var bs := TwoRuns(item, recipient, c);
    var first := Notice(item, recipient, true, 0);
    assert bs[..1] == [bs[0]] && bs[..1][..0] == [];
    StoredZero(grain);
    OneAttempt([], bs[0].attempts[0], 0 - c, grain);
    assert Play(bs[..1], grain) == [first];
    assert !RecentlySent([first], item, recipient, bs[1].now - c);
    OneAttempt([first], bs[1].attempts[0], bs[1].now - c, grain);
  }

  lemma OneAttempt(events: seq<Notice>, a: Attempt, since: int, grain: nat)
    requires grain > 0
    ensures AfterAttempts(events, [a], since, grain) == events + Due(events, a, since, grain)
  {
    hide Due;
    assert [a][..0] == [];
  }

  /** The exact condition: histories that all use the cooldown `c` keep every two notices strictly more than
      `c` apart if and only if `c` is one less than a multiple of the grain.  For a grain that divides the
      cooldown, as one second does, this is the grain 1 alone. */
  lemma StrictlyMoreIff(c: int, grain: nat)
    requires grain > 0
    ensures (forall batches: seq<Batch> :: Timely(batches, i => c) ==> StrictlyApart(Play(batches, grain), c))
       <==> c % grain == grain - 1
    ensures c % grain == 0 ==> (c % grain == grain - 1 <==> grain == 1)
  {
    hide Play, Timely, Apart;
    if c % grain == grain - 1 {
      forall batches: seq<Batch> | Timely(batches, i => c) ensures StrictlyApart(Play(batches, grain), c) {
        HistoryStrict(batches, c, grain);
      }
    } else {
      var item, bs := Item("tls", "1"), TwoRuns(Item("tls", "1"), "w", c);
      assert "w"[0] == 'w' && !IsSpace('w');
      TwoRunsTimely(item, "w", c);
      TwoNotices(item, "w", c, grain);
      ShortDistance(c, grain);
      assert SameTarget(Play(bs, grain), 0, 1);
      assert !StrictlyApart(Play(bs, grain), c);
    }
  }

  lemma HistoryStrict(batches: seq<Batch>, c: int, grain: nat)
    requires grain > 0 && Timely(batches, i => c) && c % grain == grain - 1
    ensures StrictlyApart(Play(batches, grain), c)
  {
    EveryHistory(batches, i => c, grain);
    hide Play;
    var es := Play(batches, grain);
    forall i, j | 0 <= i < j < |es| && SameTarget(es, i, j) ensures es[j].sentAt - es[i].sentAt > c {
      RoundedStrict(es[i].sentAt, es[j].sentAt, c, grain);
    }
  }

  lemma ShortDistance(c: int, grain: nat)
    requires grain > 0 && c % grain != grain - 1
    ensures Stored(c + 1, grain) <= c
  {
    Positional.DivModUnique(c + 1, c / grain, c % grain + 1, grain);
  }
}
