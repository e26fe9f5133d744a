/** What a deployment run guarantees about the host, over every target, every network behaviour and
    every outcome of the utilities. */
module DeployOutcome {
  import opened Wrappers
  import opened Positional
  import opened RemoteHost
  import opened DeployCommands
  import opened Channel
  import opened Upload
  import opened Deploy

  lemma {:induction false} AttemptedPassed(plan: seq<RemoteStep>, net: seq<Exchange>, from: nat, i: nat)
    requires from <= |plan| && from <= i < Attempted(plan, net, from)
    ensures forall j :: from <= j < i ==> Passes(plan[j], At(net, j))
    decreases i - from
  {
    if from < i { AttemptedPassed(plan, net, from + 1, i); }
  }

  /** A reload is attempted only as the very last step, after every upload has passed. */
  lemma ReloadComesLast(t: Target, checkOnly: bool, net: seq<Exchange>, i: nat)
    requires var plan := Plan(t, checkOnly); i < Attempted(plan, net, 0) && plan[i].Reload?
    ensures var plan := Plan(t, checkOnly);
            && i == |plan| - 1 && !checkOnly
            && (forall j :: 0 <= j < i ==> Passes(plan[j], At(net, j)))
            && (forall w :: w in Writes(t) ==> w in plan[..i])
  {
    var plan := Plan(t, checkOnly);
    AttemptedPassed(plan, net, 0, i);
    PlanParts(t, checkOnly);
    PlanKinds(t, checkOnly, i);
    var c, w := |Checks(t)|, |Writes(t)|;
    forall s | s in Writes(t) ensures s in plan[..i] {
      var k :| 0 <= k < w && Writes(t)[k] == s;
      assert plan[..i][c + k] == plan[c..c + w][k];
    }
  }

  lemma PlanKinds(t: Target, checkOnly: bool, i: nat)
    requires i < |Plan(t, checkOnly)|
    ensures var s, c, w := Plan(t, checkOnly)[i], |Checks(t)|, |Writes(t)|;
            && (s.Check? <==> i < c) && (s.Write? <==> c <= i < c + w && !checkOnly)
            && (s.Reload? <==> i == c + w && !checkOnly)
  {
    NoReloadBefore(t);
    ReloadsAreReloads(t);
    hide Checks, Writes, Reloads;
  }

  lemma NoReloadBefore(t: Target)
    ensures forall i :: 0 <= i < |Checks(t)| ==> Checks(t)[i].Check?
    ensures forall i :: 0 <= i < |Writes(t)| ==> Writes(t)[i].Write?
  {}

  /** The uploads among some steps. */
  function WritesOf(steps: seq<RemoteStep>): seq<RemoteStep> {
    if steps == [] then [] else
      WritesOf(steps[..|steps| - 1]) + if steps[|steps| - 1].Write? then [steps[|steps| - 1]] else []
  }

  lemma {:induction false} WritesInPlan(t: Target, n: nat)
    requires n <= |Plan(t, false)|
    ensures var m := if n < |Checks(t)| then 0
                     else if n < |Checks(t)| + |Writes(t)| then n - |Checks(t)| else |Writes(t)|;
            WritesOf(Plan(t, false)[..n]) == Writes(t)[..m]
  {
    hide Checks, Writes, Plan;
    var plan, c, w := Plan(t, false), |Checks(t)|, |Writes(t)|;
    PlanParts(t, false);
    NoReloadBefore(t);
    if n == 0 {
    } else {
      WritesInPlan(t, n - 1);
      assert plan[..n][..n - 1] == plan[..n - 1];
      var s := plan[n - 1];
      if n - 1 < c {
        assert s == plan[..c][n - 1];
      } else if n - 1 < c + w {
        assert s == plan[c..c + w][n - 1 - c];
      } else {
        assert s == plan[c + w..][n - 1 - c - w];
        assert Reloads(t)[n - 1 - c - w].Reload?;
      }
    }
  }

  /** A run attempts its uploads in the order key, certificate, chain: whatever happens, those
      attempted are a prefix of that list, and all of it when the run goes through. */
  lemma AttemptedWritesPrefix(t: Target, net: seq<Exchange>)
    ensures var plan := Plan(t, false);
            var ws := WritesOf(plan[..Attempted(plan, net, 0)]);
            ws <= Writes(t) && (AllPass(plan, net) ==> ws == Writes(t))
  {
    var plan := Plan(t, false);
    var n := Attempted(plan, net, 0);
    PlanParts(t, false);
    WritesInPlan(t, n);
    if AllPass(plan, net) { AttemptedAt(plan, net, 0, |plan|); }
  }

  /** A check-only run attempts probes only and leaves every file as it was. */
  lemma {:induction false} CheckOnlyChangesNothing(t: Target, net: seq<Exchange>, e: Escalation, jobId: string,
                                                   fs: Fs, n: nat)
    requires n <= |Plan(t, true)|
    ensures forall i :: 0 <= i < n ==> Plan(t, true)[i].Check?
    ensures Effects(Plan(t, true)[..n], net, e, jobId, fs) == fs
  {
    NoReloadBefore(t);
    if n > 0 {
      CheckOnlyChangesNothing(t, net, e, jobId, fs, n - 1);
      assert Plan(t, true)[..n][..n - 1] == Plan(t, true)[..n - 1];
    }
  }

  // ---- what a run can touch ----

  /** The paths an upload may change: the destination, or staged file, destination and the place inside it. */
  function Reach(w: RemoteStep, e: Escalation, jobId: string): set<string>
    requires w.Write?
  {
    match e
    case Direct => {w.path}
    case Sudo(dir) =>
      var staged := StagedPath(dir, w.path, jobId);
      {staged, w.path, TrimSlashes(w.path) + "/" + LastPart(staged)}
  }

  ghost predicate UploadPlainly(w: RemoteStep, e: Escalation, jobId: string, luck: Luck)
    requires w.Write?
  {
    && Carries(e, w.path, jobId) && IsMode(w.mode) && Fair(luck)
    && Plainly(if e.Sudo? then StagedPath(e.stagingDir, w.path, jobId) else w.path, w.path, luck)
  }

  lemma DirectTouches(dest: string, mode: string, jobId: string, fs: Fs, data: seq<Byte>, luck: Luck, n: nat)
    requires NulFree(dest) && IsMode(mode) && Plainly(dest, dest, luck)
    ensures var command := UploadCommand(Direct, dest, mode, jobId);
            && RunText(command, fs, data, luck).Some? && RunTextUpTo(command, fs, data, luck, n).Some?
            && RunText(command, fs, data, luck).value.fs - {dest} == fs - {dest}
            && RunTextUpTo(command, fs, data, luck, n).value.fs - {dest} == fs - {dest}
  {
    hide RunText, RunTextUpTo, UploadCommand;
    DirectRuns(dest, mode, jobId, fs, data, luck);
    DirectCutOff(dest, mode, jobId, fs, data, luck, n);
  }

  lemma UploadTouches(w: RemoteStep, x: Exchange, e: Escalation, jobId: string, fs: Fs)
    requires w.Write? && UploadPlainly(w, e, jobId, x.luck)
    ensures Effect(w, x, e, jobId, fs) - Reach(w, e, jobId) == fs - Reach(w, e, jobId)
  {
    hide RunText, RunTextUpTo, UploadCommand, StagedPath, TrimSlashes, LastPart, IsDir, Plainly;
    var stdin := if x.received < |w.data| then w.data[..x.received] else w.data;
    var n := if x.extent.Killed? then x.extent.commands else 0;
    match e {
      case Direct =>
        DirectTouches(w.path, w.mode, jobId, fs, stdin, x.luck, n);
      case Sudo(dir) =>
        SudoTouchesLittle(dir, w.path, w.mode, jobId, fs, stdin, x.luck, n);
        var staged := StagedPath(dir, w.path, jobId);
        var touched := {staged, InstallTarget(fs, staged, w.path)};
        TouchesMore(fs, Effect(w, x, e, jobId, fs), touched, Reach(w, e, jobId));
    }
  }

  lemma TouchesMore(fs: Fs, fs': Fs, few: set<string>, many: set<string>)
    requires fs' - few == fs - few && few <= many
    ensures fs' - many == fs - many
  {
    assert fs' - many == (fs' - few) - many;
    assert fs - many == (fs - few) - many;
  }

  /** Every path some upload of these steps may change. */
  function ReachOf(steps: seq<RemoteStep>, e: Escalation, jobId: string): set<string> {
    if steps == [] then {} else
      var s := steps[|steps| - 1];
      ReachOf(steps[..|steps| - 1], e, jobId) + if s.Write? then Reach(s, e, jobId) else {}
  }

  /** Wherever a run stops and whatever was cut off on the way, every file outside the reach of its
      attempted uploads is as it was. */
  lemma {:induction false} RunTouchesLittle(r: Run, n: nat)
    requires n <= |r.plan|
    requires forall k :: 0 <= k < n && r.plan[k].Write? ==>
               UploadPlainly(r.plan[k], r.e, r.jobId, At(r.net, k).luck)
    ensures var reach := ReachOf(r.plan[..n], r.e, r.jobId);
            Effects(r.plan[..n], r.net, r.e, r.jobId, r.fs0) - reach == r.fs0 - reach
  {
    hide Effect, UploadPlainly, Reach;
    if n == 0 {
    } else {
      RunTouchesLittle(r, n - 1);
      assert r.plan[..n][..n - 1] == r.plan[..n - 1];
      var s, x := r.plan[n - 1], At(r.net, n - 1);
      var before := Effects(r.plan[..n - 1], r.net, r.e, r.jobId, r.fs0);
      var less, reach := ReachOf(r.plan[..n - 1], r.e, r.jobId), ReachOf(r.plan[..n], r.e, r.jobId);
      TouchesMore(r.fs0, before, less, reach);
      if s.Write? {
        UploadTouches(s, x, r.e, r.jobId, before);
        TouchesMore(before, Effect(s, x, r.e, r.jobId, before), Reach(s, r.e, r.jobId), reach);
      } else {
        ProbeHasNoEffect(s, x, r.e, r.jobId, before);
      }
    }
  }

  // ---- the files after a successful run ----

  lemma {:induction false} StatusWasSent(msgs: seq<Msg>)
    requires LastStatus(msgs) != -1
    ensures exists m :: m in msgs && m.ExitStatus? && AsI32(m.status) == LastStatus(msgs)
  {
    var k := |msgs| - 1;
    if msgs[k].ExitStatus? {
      assert msgs[k] in msgs;
    } else {
      StatusWasSent(msgs[..k]);
      var m :| m in msgs[..k] && m.ExitStatus? && AsI32(m.status) == LastStatus(msgs[..k]);
      assert m in msgs;
    }
  }

  function RunOf(s: RemoteStep, x: Exchange, e: Escalation, jobId: string, fs: Fs): Option<Proc>
    requires s.Write?
  {
    RunText(UploadCommand(e, s.path, s.mode, jobId), fs, s.data, x.luck)
  }

  /** A server reports an exit status only for a command it ran to the end, on the whole input, and
      reports the true one. */
  ghost predicate Honest(s: RemoteStep, x: Exchange, e: Escalation, jobId: string, fs: Fs) {
    s.Write? && (exists m :: m in Seen(x.msgs) && m.ExitStatus?) ==>
      && Fair(x.luck) && x.extent == Whole && x.received >= |s.data|
      && RunOf(s, x, e, jobId, fs).Some?
      && forall m :: m in Seen(x.msgs) && m.ExitStatus? ==> AsI32(m.status) == RunOf(s, x, e, jobId, fs).value.status
  }

  ghost predicate HonestRun(r: Run) {
    forall k :: 0 <= k < |r.plan| ==>
      Honest(r.plan[k], At(r.net, k), r.e, r.jobId, Effects(r.plan[..k], r.net, r.e, r.jobId, r.fs0))
  }

  /** The file of this upload is in place. */
  predicate Delivered(fs: Fs, w: RemoteStep)
    requires w.Write?
  {
    IsFile(fs, w.path) && fs[w.path].data == w.data && fs[w.path].mode == w.mode
  }

  /** The names of an upload: readable as a path, no directory, and apart from the staged files. */
  ghost predicate GoodNames(t: Target, jobId: string, fs: Fs) {
    forall w :: w in Writes(t) ==>
      && Carries(t.escalation, w.path, jobId) && !IsOption(w.path) && !IsDir(fs, w.path)
      && (t.escalation.Sudo? ==>
            && !IsOption(StagedPath(t.escalation.stagingDir, w.path, jobId))
            && forall v :: v in Writes(t) ==> StagedPath(t.escalation.stagingDir, w.path, jobId) != v.path)
  }

  ghost predicate SameDirs(fs: Fs, fs': Fs) {
    forall p :: (p in fs && fs[p].Dir?) <==> (p in fs' && fs'[p].Dir?)
  }

  /** One passed upload: its file is in place, the other destinations and the directories are as before. */
  lemma WriteLands(t: Target, w: RemoteStep, x: Exchange, jobId: string, fs0: Fs, fs: Fs)
    requires w in Writes(t) && GoodNames(t, jobId, fs0) && SameDirs(fs0, fs)
    requires Passes(w, x) && Honest(w, x, t.escalation, jobId, fs)
    ensures var fs' := Effect(w, x, t.escalation, jobId, fs);
            && Delivered(fs', w) && SameDirs(fs0, fs')
            && forall v :: v in Writes(t) && v.path != w.path ==>
                 (v.path in fs' <==> v.path in fs) && (v.path in fs ==> fs'[v.path] == fs[v.path])
  {
    hide RunText, UploadCommand, StagedPath, TrimSlashes, LastPart;
    NoReloadBefore(t);
    WriteModes(t, w);
    StatusWasSent(Seen(x.msgs));
    var e := t.escalation;
    var p := RunOf(w, x, e, jobId, fs).value;
    assert p.status == 0;
    assert Effect(w, x, e, jobId, fs) == p.fs;
    assert IsDir(fs, w.path) == IsDir(fs0, w.path);
    match e {
      case Direct =>
        DirectDelivers(w.path, w.mode, jobId, fs, w.data, x.luck);
        DirectKeepsDirs(w.path, w.mode, jobId, fs, w.data, x.luck);
      case Sudo(dir) =>
        assert SudoOutcome(dir, w.path, w.mode, jobId, fs, w.data, x.luck, p.fs, 0);
        SudoDelivers(dir, w.path, w.mode, jobId, fs, w.data, x.luck, p.fs, 0);
        SudoKeepsDirs(dir, w.path, w.mode, jobId, fs, w.data, x.luck);
    }
  }

  lemma WriteModes(t: Target, w: RemoteStep)
    requires w in Writes(t)
    ensures w.Write? && IsMode(w.mode)
  {}

  lemma DirectKeepsDirs(dest: string, mode: string, jobId: string, fs: Fs, data: seq<Byte>, luck: Luck)
    requires NulFree(dest) && IsMode(mode) && Plainly(dest, dest, luck)
    ensures var r := RunText(UploadCommand(Direct, dest, mode, jobId), fs, data, luck);
            r.Some? && SameDirs(fs, r.value.fs)
  {
    hide RunText, UploadCommand;
    DirectRuns(dest, mode, jobId, fs, data, luck);
  }

  lemma SudoKeepsDirs(dir: string, dest: string, mode: string, jobId: string, fs: Fs, data: seq<Byte>, luck: Luck)
    requires Carries(Sudo(dir), dest, jobId) && IsMode(mode) && Fair(luck)
    requires Plainly(StagedPath(dir, dest, jobId), dest, luck)
    requires RunText(UploadCommand(Sudo(dir), dest, mode, jobId), fs, data, luck).Some?
    requires RunText(UploadCommand(Sudo(dir), dest, mode, jobId), fs, data, luck).value.status == 0
    ensures SameDirs(fs, RunText(UploadCommand(Sudo(dir), dest, mode, jobId), fs, data, luck).value.fs)
  {
    hide RunText, UploadCommand, StagedPath, TrimSlashes, LastPart;
    SudoRuns(dir, dest, mode, jobId, fs, data, luck);
  }

  /** The last of the first `k` uploads that goes to `path`, -1 if there is none. */
  function LastTo(ws: seq<RemoteStep>, path: string, k: nat): (i: int)
    requires k <= |ws|
    ensures -1 <= i < k && (i >= 0 ==> ws[i].Write? && ws[i].path == path)
    ensures forall j :: i < j < k && ws[j].Write? ==> ws[j].path != path
  {
    if k == 0 then -1 else if ws[k - 1].Write? && ws[k - 1].path == path then k - 1 else LastTo(ws, path, k - 1)
  }

  /** After `k` uploads every path among them holds what was sent there last. */
  ghost predicate Settled(ws: seq<RemoteStep>, k: nat, fs: Fs)
    requires k <= |ws| && forall i :: 0 <= i < |ws| ==> ws[i].Write?
  {
    forall i :: 0 <= i < k ==> LastTo(ws, ws[i].path, k) >= 0 && Delivered(fs, ws[LastTo(ws, ws[i].path, k)])
  }

  lemma SettleNext(ws: seq<RemoteStep>, k: nat, fs: Fs, fs': Fs)
    requires k < |ws| && forall i :: 0 <= i < |ws| ==> ws[i].Write?
    requires Settled(ws, k, fs) && Delivered(fs', ws[k])
    requires forall v :: v in ws && v.path != ws[k].path ==>
               (v.path in fs' <==> v.path in fs) && (v.path in fs ==> fs'[v.path] == fs[v.path])
    ensures Settled(ws, k + 1, fs')
  {
    forall i | 0 <= i < k + 1
      ensures LastTo(ws, ws[i].path, k + 1) >= 0 && Delivered(fs', ws[LastTo(ws, ws[i].path, k + 1)])
    {
      if ws[i].path != ws[k].path {
        var j := LastTo(ws, ws[i].path, k);
        assert ws[j] in ws;
      }
    }
  }

  lemma {:induction false} FilesAfter(t: Target, r: Run, k: nat)
    requires r.plan == Plan(t, false) && r.e == t.escalation && k <= |Writes(t)|
    requires AllPass(r.plan, r.net) && HonestRun(r) && GoodNames(t, r.jobId, r.fs0)
    ensures forall i :: 0 <= i < |Writes(t)| ==> Writes(t)[i].Write?
    ensures |Checks(t)| + k <= |r.plan|
    ensures var fs := Effects(r.plan[..|Checks(t)| + k], r.net, r.e, r.jobId, r.fs0);
            SameDirs(r.fs0, fs) && Settled(Writes(t), k, fs)
  {
    hide Checks, Writes, Plan, Effect, Effects, GoodNames, AllPass, Passes, Honest, HonestRun, SameDirs, Settled,
         Delivered, LastTo;
    NoReloadBefore(t);
    PlanParts(t, false);
    var c, ws := |Checks(t)|, Writes(t);
    if k == 0 {
      ChecksKeepFiles(t, r, c);
      NothingSettled(ws, r.fs0);
    } else {
      FilesAfter(t, r, k - 1);
      var n := c + k;
      var before := Effects(r.plan[..n - 1], r.net, r.e, r.jobId, r.fs0);
      StepAt(r, n);
      assert r.plan[n - 1] == r.plan[c..c + |ws|][k - 1];
      WriteLands(t, ws[k - 1], At(r.net, n - 1), r.jobId, r.fs0, before);
      SettleNext(ws, k - 1, before, Effects(r.plan[..n], r.net, r.e, r.jobId, r.fs0));
    }
  }

  lemma StepAt(r: Run, n: nat)
    requires 0 < n <= |r.plan| && AllPass(r.plan, r.net) && HonestRun(r)
    ensures var before := Effects(r.plan[..n - 1], r.net, r.e, r.jobId, r.fs0);
            var x := At(r.net, n - 1);
            && Effects(r.plan[..n], r.net, r.e, r.jobId, r.fs0) == Effect(r.plan[n - 1], x, r.e, r.jobId, before)
            && Passes(r.plan[n - 1], x) && Honest(r.plan[n - 1], x, r.e, r.jobId, before)
  {
    hide Effect, Passes, Honest;
    assert r.plan[..n][..n - 1] == r.plan[..n - 1];
  }

  lemma NothingSettled(ws: seq<RemoteStep>, fs: Fs)
    requires forall i :: 0 <= i < |ws| ==> ws[i].Write?
    ensures Settled(ws, 0, fs) && SameDirs(fs, fs)
  {}

  lemma {:induction false} ChecksKeepFiles(t: Target, r: Run, n: nat)
    requires r.plan == Plan(t, false) && n <= |Checks(t)|
    ensures n <= |r.plan| && Effects(r.plan[..n], r.net, r.e, r.jobId, r.fs0) == r.fs0
  {
    hide Checks, Writes, Plan;
    NoReloadBefore(t);
    PlanParts(t, false);
    if n > 0 {
      ChecksKeepFiles(t, r, n - 1);
      assert r.plan[..n][..n - 1] == r.plan[..n - 1];
      assert r.plan[n - 1] == r.plan[..|Checks(t)|][n - 1];
    }
  }

  lemma FilesAtEnd(t: Target, r: Run)
    requires r.plan == Plan(t, false) && r.e == t.escalation
    requires AllPass(r.plan, r.net) && HonestRun(r) && GoodNames(t, r.jobId, r.fs0)
    ensures forall i :: 0 <= i < |Writes(t)| ==> Writes(t)[i].Write?
    ensures Settled(Writes(t), |Writes(t)|, Effects(r.plan, r.net, r.e, r.jobId, r.fs0))
  {
    hide Checks, Writes, Plan, Effect, GoodNames, Passes, Settled, HonestRun;
    PlanParts(t, false);
    ReloadsAreReloads(t);
    var n := |Checks(t)| + |Writes(t)|;
    FilesAfter(t, r, |Writes(t)|);
    if n < |r.plan| {
      assert r.plan[n..][0] == r.plan[n];
      ProbeHasNoEffect(r.plan[n], At(r.net, n), r.e, r.jobId, Effects(r.plan[..n], r.net, r.e, r.jobId, r.fs0));
    } else {
      assert r.plan[..n] == r.plan;
    }
  }

  /** After a successful run each uploaded file is in place exactly when no later upload of the run goes
      to the same path with another content or mode. */
  lemma FilesInPlace(t: Target, r: Run, i: nat)
    requires r.plan == Plan(t, false) && r.e == t.escalation && i < |Writes(t)|
    requires AllPass(r.plan, r.net) && HonestRun(r) && GoodNames(t, r.jobId, r.fs0)
    ensures forall j :: 0 <= j < |Writes(t)| ==> Writes(t)[j].Write?
    ensures var ws := Writes(t);
            var fs := Effects(r.plan, r.net, r.e, r.jobId, r.fs0);
            var last := LastTo(ws, ws[i].path, |ws|);
            && i <= last && Delivered(fs, ws[last])
            && (Delivered(fs, ws[i]) <==> ws[last].data == ws[i].data && ws[last].mode == ws[i].mode)
  {
    hide Checks, Writes, Plan, Effects, GoodNames, AllPass, HonestRun;
    FilesAtEnd(t, r);
  }

  lemma ReloadsAreReloads(t: Target)
    ensures |Reloads(t)| <= 1 && forall i :: 0 <= i < |Reloads(t)| ==> Reloads(t)[i].Reload?
  {}

  /** With pairwise distinct paths every file is in place. */
  lemma DistinctPathsDeliverAll(t: Target, r: Run, i: nat)
    requires r.plan == Plan(t, false) && r.e == t.escalation && i < |Writes(t)|
    requires AllPass(r.plan, r.net) && HonestRun(r) && GoodNames(t, r.jobId, r.fs0)
    requires t.keyPath != t.certPath
    requires t.chainPath.Some? ==> t.chainPath.value != t.certPath && t.chainPath.value != t.keyPath
    ensures Writes(t)[i].Write? && Delivered(Effects(r.plan, r.net, r.e, r.jobId, r.fs0), Writes(t)[i])
  {
    hide Checks, Plan, Effects;
    FilesInPlace(t, r, i);
  }

  /** What the host holds after a successful run with distinct paths, in terms of the target alone: the
      private key in its path, kept to its owner, and certificate and chain in theirs, readable by all. */
  lemma SuccessfulRunDelivers(t: Target, r: Run)
    requires r.plan == Plan(t, false) && r.e == t.escalation
    requires AllPass(r.plan, r.net) && HonestRun(r) && GoodNames(t, r.jobId, r.fs0)
    requires t.keyPath != t.certPath
    requires t.chainPath.Some? ==> t.chainPath.value != t.certPath && t.chainPath.value != t.keyPath
    ensures var fs := Effects(r.plan, r.net, r.e, r.jobId, r.fs0);
            && Delivered(fs, Write(t.keyPath, t.keyPem, "600"))
            && Delivered(fs, Write(t.certPath, t.certPem, "644"))
            && (t.chainPath.Some? && t.chainPem.Some? ==>
                  Delivered(fs, Write(t.chainPath.value, t.chainPem.value, "644")))
  {
    hide Checks, Plan, Effects, Delivered, GoodNames, AllPass, HonestRun;
    DistinctPathsDeliverAll(t, r, 0);
    DistinctPathsDeliverAll(t, r, 1);
    if t.chainPath.Some? && t.chainPem.Some? { DistinctPathsDeliverAll(t, r, 2); }
  }

  /** A key is never sent anywhere but to its path, nor for others to read, whatever happens to the run. */
  lemma KeySentToItsPath(t: Target, checkOnly: bool, i: nat)
    requires var plan := Plan(t, checkOnly); i < |plan| && plan[i].Write? && plan[i].data == t.keyPem
    requires t.keyPem != t.certPem && t.chainPem != Some(t.keyPem)
    ensures var plan := Plan(t, checkOnly); plan[i].path == t.keyPath && plan[i].mode == "600" && !checkOnly
  {
    PlanKinds(t, checkOnly, i);
    PlanParts(t, checkOnly);
    var c, w := |Checks(t)|, |Writes(t)|;
    hide Checks, Plan;
    assert Plan(t, checkOnly)[c..c + w][i - c] == Plan(t, checkOnly)[i];
  }

  /** The catalogue's nginx entry sends certificate and chain to one path: after a successful run that
      path holds the chain, and the certificate is in place only if the two texts are equal. */
  lemma NginxHoldsChain(t: Target, r: Run)
    requires t.certPath == "/etc/ssl/certs/service-fullchain.crt" && t.keyPath == "/etc/ssl/private/service.key"
    requires t.chainPath == Some("/etc/ssl/certs/service-fullchain.crt") && t.chainPem.Some?
    requires r.plan == Plan(t, false) && r.e == t.escalation
    requires AllPass(r.plan, r.net) && HonestRun(r) && GoodNames(t, r.jobId, r.fs0)
    ensures var fs := Effects(r.plan, r.net, r.e, r.jobId, r.fs0);
            && Delivered(fs, Write(t.certPath, t.chainPem.value, "644"))
            && (Delivered(fs, Write(t.certPath, t.certPem, "644")) <==> t.certPem == t.chainPem.value)
  {
    hide Checks, Plan, Effects;
    FilesInPlace(t, r, 1);
  }

  /** Its haproxy entry sends key and certificate to one path: the certificate is what remains, and the
      private key is never in place, whatever the two texts are. */
  lemma HaproxyLosesKey(t: Target, r: Run)
    requires t.certPath == "/etc/haproxy/certs/service.pem" && t.keyPath == t.certPath && t.chainPath == None
    requires r.plan == Plan(t, false) && r.e == t.escalation
    requires AllPass(r.plan, r.net) && HonestRun(r) && GoodNames(t, r.jobId, r.fs0)
    ensures var fs := Effects(r.plan, r.net, r.e, r.jobId, r.fs0);
            && Delivered(fs, Write(t.certPath, t.certPem, "644"))
            && !Delivered(fs, Write(t.keyPath, t.keyPem, "600"))
  {
    hide Checks, Plan, Effects;
    FilesInPlace(t, r, 0);
  }
}
