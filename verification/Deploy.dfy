/** The deployment run of backend/src/deploy.rs as a sequence of remote steps with early exit, its
    job row, journal and target status. */
module Deploy {
  import opened Wrappers
  import opened Basics
  import opened Positional
  import opened Shell
  import opened RemoteHost
  import opened DeployCommands
  import opened Channel

  /** How far one remote command gets, and what is heard back. */
  datatype Link = LinkOk | OpenFails | ExecFails | SendFails

  /** How far the shell on the host gets: not started, killed after some simple commands, or to the end. */
  datatype Extent = NotRun | Killed(commands: nat) | Whole

  /** The host runs the command to `extent`, on the first `received` bytes of the input. */
  datatype Exchange = Exchange(link: Link, msgs: seq<Msg>, extent: Extent, received: nat, luck: Luck)

  const DEAD := Exchange(OpenFails, [], NotRun, 0, SMOOTH)

  /** A remote step: a probe that must answer OK, a file upload, or the reload command. */
  datatype RemoteStep =
    | Check(command: string)
    | Write(path: string, data: seq<Byte>, mode: string)
    | Reload(command: string)

  datatype Target = Target(
    certPath: string, keyPath: string, chainPath: Option<string>, reload: Option<string>,
    certPem: seq<Byte>, chainPem: Option<seq<Byte>>, keyPem: seq<Byte>, escalation: Escalation)

  /** The answer of `rfind('/')` cut off. */
  function ParentDir(path: string): string {
    if '/' !in path then "."
    else if |TrimToSlash(path)| == 1 then "/"
    else TrimToSlash(path)[..|TrimToSlash(path)| - 1]
  }

  /** `path` up to and including its last slash. */
  function TrimToSlash(path: string): (t: string)
    ensures t <= path && ('/' in path ==> t != "" && t[|t| - 1] == '/')
  {
    if path == "" || path[|path| - 1] == '/' then path else TrimToSlash(path[..|path| - 1])
  }

  predicate Contains(s: string, t: string) {
    t <= s || (s != "" && Contains(s[1..], t))
  }

  function DirProbe(e: Escalation, path: string): RemoteStep {
    var dir := ShellQuote(ParentDir(path));
    match e
    case Direct => Check("test -d " + dir + " && test -w " + dir + " && echo OK")
    case Sudo(_) => Check("sudo -n test -d " + dir + " && echo OK")
  }

  const SUDO_PROBE := Check("sudo -n true && " + "command -v install " + ">/dev/null && echo OK")

  function StagingProbe(dir: string): RemoteStep {
    var q := ShellQuote(dir);
    Check("mkdir -p " + q + " && chmod 700 " + q + " && test -w " + q + " && echo OK")
  }

  // ---- the plan of a run ----

  function Checks(t: Target): seq<RemoteStep> {
    (if t.escalation.Sudo? then [SUDO_PROBE, StagingProbe(t.escalation.stagingDir)] else [])
    + [DirProbe(t.escalation, t.certPath), DirProbe(t.escalation, t.keyPath)]
    + (if t.chainPath.Some? then [DirProbe(t.escalation, t.chainPath.value)] else [])
  }

  function Writes(t: Target): seq<RemoteStep> {
    [Write(t.keyPath, t.keyPem, "600"), Write(t.certPath, t.certPem, "644")]
    + (if t.chainPath.Some? && t.chainPem.Some? then [Write(t.chainPath.value, t.chainPem.value, "644")] else [])
  }

  function Reloads(t: Target): seq<RemoteStep> {
    if t.reload.Some? && !IsBlank(t.reload.value)
    then [Reload(PrivilegedCommand(t.escalation, t.reload.value))] else []
  }

  /** Every remote step of a run in order, if nothing fails. */
  function Plan(t: Target, checkOnly: bool): seq<RemoteStep> {
    if checkOnly then Checks(t) else Checks(t) + Writes(t) + Reloads(t)
  }

  /** A step passes: the link held, the status is zero, and a probe said OK. */
  predicate Passes(s: RemoteStep, x: Exchange) {
    && x.link == LinkOk && ExitCode(x.msgs) == 0
    && (s.Check? ==> Contains(Output(Seen(x.msgs), true), "OK"))
  }

  function At(net: seq<Exchange>, i: nat): Exchange {
    if i < |net| then net[i] else DEAD
  }

  predicate AllPass(plan: seq<RemoteStep>, net: seq<Exchange>) {
    forall i :: 0 <= i < |plan| ==> Passes(plan[i], At(net, i))
  }

  /** The number of steps attempted: up to the first that does not pass. */
  function Attempted(plan: seq<RemoteStep>, net: seq<Exchange>, from: nat): (n: nat)
    requires from <= |plan|
    ensures from <= n <= |plan|
    decreases |plan| - from
  {
    if from == |plan| then from
    else if Passes(plan[from], At(net, from)) then Attempted(plan, net, from + 1)
    else from + 1
  }

  function FilesOf(p: Option<Proc>, fs: Fs): Fs {
    if p.Some? then p.value.fs else fs
  }

  /** The files of the host after one step; probes and reloads leave the modelled files alone. */
  function Effect(s: RemoteStep, x: Exchange, e: Escalation, jobId: string, fs: Fs): Fs {
    if !s.Write? then fs else
      var command := UploadCommand(e, s.path, s.mode, jobId);
      var stdin := if x.received < |s.data| then s.data[..x.received] else s.data;
      match x.extent
      case NotRun => fs
      case Killed(n) => FilesOf(RunTextUpTo(command, fs, stdin, x.luck, n), fs)
      case Whole => FilesOf(RunText(command, fs, stdin, x.luck), fs)
  }

  function Effects(steps: seq<RemoteStep>, net: seq<Exchange>, e: Escalation, jobId: string, fs: Fs): Fs {
    if steps == [] then fs else
      var k := |steps| - 1;
      Effect(steps[k], At(net, k), e, jobId, Effects(steps[..k], net, e, jobId, fs))
  }

  lemma {:induction false} AttemptedAt(plan: seq<RemoteStep>, net: seq<Exchange>, from: nat, k: nat)
    requires from <= k <= |plan| && forall i :: from <= i < k ==> Passes(plan[i], At(net, i))
    ensures k <= Attempted(plan, net, from)
    ensures k == |plan| ==> Attempted(plan, net, from) == k
    ensures k < |plan| && !Passes(plan[k], At(net, k)) ==> Attempted(plan, net, from) == k + 1
    decreases k - from
  {
    if from < k { AttemptedAt(plan, net, from + 1, k); }
  }

  // ---- the run ----

  datatype Row = Row(jobId: string, step: string, status: string)

  /** New journal rows, all of one job, after the old ones. */
  ghost predicate Extends(old_: seq<Row>, new_: seq<Row>, jobId: string) {
    old_ <= new_ && forall i :: |old_| <= i < |new_| ==> new_[i].jobId == jobId
  }

  /** One run: its plan, the answers of the network, and the trace and files it started from. */
  datatype Run = Run(plan: seq<RemoteStep>, net: seq<Exchange>, e: Escalation, jobId: string,
                     trace0: seq<RemoteStep>, fs0: Fs)

  ghost predicate Reached(r: Run, trace: seq<RemoteStep>, fs: Fs, k: nat) {
    && k <= |r.plan|
    && (forall i :: 0 <= i < k ==> Passes(r.plan[i], At(r.net, i)))
    && trace == r.trace0 + r.plan[..k]
    && fs == Effects(r.plan[..k], r.net, r.e, r.jobId, r.fs0)
  }

  /** Only attempted steps left their trace and their effects. */
  ghost predicate Partly(r: Run, trace: seq<RemoteStep>, fs: Fs) {
    exists k | 0 <= k <= Attempted(r.plan, r.net, 0) ::
      trace == r.trace0 + r.plan[..k] && fs == Effects(r.plan[..k], r.net, r.e, r.jobId, r.fs0)
  }

  lemma ReachedPartly(r: Run, trace: seq<RemoteStep>, fs: Fs, k: nat)
    requires Reached(r, trace, fs, k)
    ensures Partly(r, trace, fs)
  {
    hide Effects;
    AttemptedAt(r.plan, r.net, 0, k);
  }

  lemma StoppedPartly(r: Run, trace: seq<RemoteStep>, fs: Fs)
    requires Stopped(r, trace, fs)
    ensures Partly(r, trace, fs)
  {
    hide Effects;
  }

  /** The run is over: exactly the attempted steps left their trace and their effects. */
  ghost predicate Stopped(r: Run, trace: seq<RemoteStep>, fs: Fs) {
    var n := Attempted(r.plan, r.net, 0);
    trace == r.trace0 + r.plan[..n] && fs == Effects(r.plan[..n], r.net, r.e, r.jobId, r.fs0)
  }

  lemma Advance(r: Run, trace: seq<RemoteStep>, fs: Fs, trace': seq<RemoteStep>, fs': Fs, k: nat)
    requires Reached(r, trace, fs, k) && k < |r.plan|
    requires trace' == trace + [r.plan[k]]
    requires fs' == Effect(r.plan[k], At(r.net, k), r.e, r.jobId, fs)
    ensures Passes(r.plan[k], At(r.net, k)) ==> Reached(r, trace', fs', k + 1)
    ensures !Passes(r.plan[k], At(r.net, k)) ==> Stopped(r, trace', fs') && !AllPass(r.plan, r.net)
  {
    AttemptedAt(r.plan, r.net, 0, k);
    assert r.plan[..k + 1] == r.plan[..k] + [r.plan[k]];
    assert r.plan[..k + 1][..k] == r.plan[..k];
  }

  lemma Depart(r: Run)
    ensures Reached(r, r.trace0, r.fs0, 0)
  {
    assert r.trace0 + r.plan[..0] == r.trace0;
  }

  lemma ProbeHasNoEffect(s: RemoteStep, x: Exchange, e: Escalation, jobId: string, fs: Fs)
    requires !s.Write?
    ensures Effect(s, x, e, jobId, fs) == fs
  {}

  lemma ReloadPasses(s: RemoteStep, x: Exchange)
    requires s.Reload?
    ensures Passes(s, x) <==> x.link == LinkOk && ExitCode(x.msgs) == 0
  {}

  lemma DirProbeIsCheck(e: Escalation, path: string)
    ensures DirProbe(e, path).Check?
  {}

  /** Where the phases of a run lie in its plan. */
  lemma PlanParts(t: Target, checkOnly: bool)
    ensures var plan, c, w := Plan(t, checkOnly), |Checks(t)|, |Writes(t)|;
      && c <= |plan| && plan[..c] == Checks(t)
      && (checkOnly ==> |plan| == c)
      && (!checkOnly ==> |plan| == c + w + |Reloads(t)|)
      && (!checkOnly ==> plan[c..c + w] == Writes(t) && plan[c + w..] == Reloads(t))
  {
    hide Checks, Writes;
  }

  lemma Arrive(r: Run, trace: seq<RemoteStep>, fs: Fs)
    requires Reached(r, trace, fs, |r.plan|)
    ensures Stopped(r, trace, fs) && AllPass(r.plan, r.net)
  {
    AttemptedAt(r.plan, r.net, 0, |r.plan|);
  }

  /** The run goes through: the target resolves, the login works and every step of the plan passes. */
  ghost predicate Succeeds(target: Option<Target>, connected: bool, checkOnly: bool, net: seq<Exchange>) {
    target.Some? && connected && AllPass(Plan(target.value, checkOnly), net)
  }

  /** Which statements on the job and on the target work. */
  datatype Books = Books(start: bool, finish: bool, target: bool)

  class Engine {
    /** deployment_jobs: status by job id. */
    var jobs: map<string, string>
    var journal: seq<Row>
    /** Whether the i-th journal statement works, and how many were tried. */
    const inserts: nat -> bool
    var tried: nat
    /** host_applications.last_deploy_status by target id. */
    var targetStatus: map<string, string>
    /** The files of the host. */
    var fs: Fs
    /** Every remote command attempted. */
    var trace: seq<RemoteStep>
    /** Every `finish_job` statement. */
    var finished: seq<(string, string)>

    constructor (fs: Fs, inserts: nat -> bool)
      ensures jobs == map[] && journal == [] && targetStatus == map[] && trace == [] && finished == []
      ensures this.fs == fs && this.inserts == inserts && tried == 0
    {
      jobs, journal, targetStatus, trace, finished, tried := map[], [], map[], [], [], 0;
      this.fs, this.inserts := fs, inserts;
    }

    /** Every journal statement since number `from` worked. */
    ghost predicate Recorded(from: nat)
      reads this`tried
    {
      forall i :: from <= i < tried ==> inserts(i)
    }

    /** A step is noted when it starts and, if it went well, when it has ended. */
    function Noted(jobId: string, step: string, first: nat, ok: bool): seq<Row> {
      (if inserts(first) then [Row(jobId, step, "running")] else []) + (if ok then [Row(jobId, step, "ok")] else [])
    }

    method Log(jobId: string, step: string, status: string) returns (ok: bool)
      modifies this`journal, this`tried
      ensures tried == old(tried) + 1 && ok == inserts(old(tried))
      ensures journal == if ok then old(journal) + [Row(jobId, step, status)] else old(journal)
    {
      ok := inserts(tried);
      tried := tried + 1;
      if ok { journal := journal + [Row(jobId, step, status)]; }
    }

    /** `exec_command`: None when the channel cannot be opened or used. */
    method ExecCommand(s: RemoteStep, x: Exchange) returns (r: Option<(int, string)>)
      requires !s.Write?
      modifies this`trace
      ensures trace == old(trace) + [s]
      ensures r == if x.link == LinkOk then Some((ExitCode(x.msgs), Output(Seen(x.msgs), true))) else None
    {
      trace := trace + [s];
      if x.link != LinkOk { return None; }
      var code, output := ReadExec(x.msgs);
      return Some((code, output));
    }

    /** A probe: status zero and OK in the output. */
    method Probe(s: RemoteStep, x: Exchange) returns (ok: bool)
      requires s.Check?
      modifies this`trace
      ensures trace == old(trace) + [s] && (ok <==> Passes(s, x))
    {
      var r := ExecCommand(s, x);
      ok := r.Some? && r.value.0 == 0 && Contains(r.value.1, "OK");
    }

    /** `write_remote_file`: without its first journal row nothing is sent. */
    method WriteRemoteFile(e: Escalation, path: string, data: seq<Byte>, mode: string, x: Exchange, jobId: string)
      returns (ok: bool)
      modifies this`trace, this`journal, this`tried, this`fs
      ensures Extends(old(journal), journal, jobId)
      ensures journal == old(journal) + Noted(jobId, "upload", old(tried), ok)
      ensures !inserts(old(tried)) ==>
        !ok && tried == old(tried) + 1 && trace == old(trace) && fs == old(fs)
      ensures inserts(old(tried)) ==>
        var s := Write(path, data, mode);
        && trace == old(trace) + [s] && fs == Effect(s, x, e, jobId, old(fs))
        && tried == old(tried) + (if Passes(s, x) then 2 else 1)
        && ok == (Passes(s, x) && inserts(old(tried) + 1))
    {
      ok := Log(jobId, "upload", "running");
      if !ok { return; }
      var s := Write(path, data, mode);
      trace := trace + [s];
      fs := Effect(s, x, e, jobId, fs);
      if x.link != LinkOk { return false; }
      var code, stderr := ReadUpload(x.msgs);
      if code != 0 { return false; }
      ok := Log(jobId, "upload", "ok");
    }

    /** Where this run is: the first `k` steps of the plan were attempted and passed. */
    ghost predicate Here(run: Run, k: nat)
      reads this`trace, this`fs
    {
      Reached(run, trace, fs, k)
    }

    /** The run goes on after `k` steps, every journal statement since number `from` having worked. */
    ghost predicate GoesOn(run: Run, from: nat, k: nat)
      reads this`trace, this`fs, this`tried
    {
      from < tried && Recorded(from) && Here(run, k)
    }

    /** The run was given up: after the first step that failed, or between two steps when a journal
        statement failed. */
    ghost predicate GivenUp(run: Run, from: nat)
      reads this`trace, this`fs, this`tried
    {
      && from < tried
      && if Recorded(from) then Stopped(run, trace, fs) && !AllPass(run.plan, run.net)
         else exists k :: Here(run, k)
    }

    /** The first part of the pre-flight: sudo without a password, and the staging directory. */
    method CheckSudo(probes: seq<RemoteStep>, net: seq<Exchange>, jobId: string, ghost run: Run, ghost from: nat)
      returns (ok: bool)
      requires probes <= run.plan && forall i :: 0 <= i < |probes| ==> probes[i].Check?
      requires run.net == net && run.jobId == jobId && GoesOn(run, from, 0)
      modifies this`trace, this`journal, this`tried
      ensures Extends(old(journal), journal, jobId)
      ensures probes != [] ==> journal == old(journal) + Noted(jobId, "check_sudo", old(tried), ok)
      ensures if ok then GoesOn(run, from, |probes|) else GivenUp(run, from)
    {
      hide Effects, Effect, Attempted, Passes, AllPass, Reached, Stopped;
      if probes == [] { return true; }
      ok := Log(jobId, "check_sudo", "running");
      assert Here(run, 0);
      if !ok { return; }
      var k := 0;
      while k < |probes|
        invariant 0 <= k <= |probes| && GoesOn(run, from, k) && Extends(old(journal), journal, jobId)
        invariant journal == old(journal) + Noted(jobId, "check_sudo", old(tried), false)
      {
        ghost var before := trace;
        ProbeHasNoEffect(probes[k], At(net, k), run.e, jobId, fs);
        ok := Probe(probes[k], At(net, k));
        Advance(run, before, fs, trace, fs, k);
        if !ok { return; }
        k := k + 1;
      }
      ok := Log(jobId, "check_sudo", "ok");
      assert Here(run, |probes|);
    }

    /** The second part: the directories that will receive files. */
    method CheckDirs(e: Escalation, paths: seq<string>, net: seq<Exchange>, jobId: string, first: nat,
                     ghost run: Run, ghost from: nat) returns (ok: bool)
      requires first + |paths| <= |run.plan|
      requires forall i :: 0 <= i < |paths| ==> run.plan[first + i] == DirProbe(e, paths[i])
      requires run.net == net && run.jobId == jobId && GoesOn(run, from, first)
      modifies this`trace, this`journal, this`tried
      ensures Extends(old(journal), journal, jobId)
      ensures if ok then GoesOn(run, from, first + |paths|) else GivenUp(run, from)
    {
      hide Effects, Effect, Attempted, Passes, AllPass, Reached, Stopped, DirProbe;
      for i := 0 to |paths|
        invariant GoesOn(run, from, first + i) && Extends(old(journal), journal, jobId)
      {
        ok := CheckDir(e, paths[i], net, jobId, first + i, run, from);
        if !ok { return; }
      }
      ok := true;
    }

    method CheckDir(e: Escalation, path: string, net: seq<Exchange>, jobId: string, k: nat,
                    ghost run: Run, ghost from: nat) returns (ok: bool)
      requires k < |run.plan| && run.plan[k] == DirProbe(e, path)
      requires run.net == net && run.jobId == jobId && GoesOn(run, from, k)
      modifies this`trace, this`journal, this`tried
      ensures Extends(old(journal), journal, jobId)
      ensures journal == old(journal) + Noted(jobId, "check_writable", old(tried), ok)
      ensures if ok then GoesOn(run, from, k + 1) else GivenUp(run, from)
    {
      hide Effects, Effect, Attempted, Passes, AllPass, Reached, Stopped, DirProbe;
      ghost var before := trace;
      ok := Log(jobId, "check_writable", "running");
      assert Here(run, k);
      if !ok { return; }
      var s := DirProbe(e, path);
      DirProbeIsCheck(e, path);
      ProbeHasNoEffect(s, At(net, k), run.e, jobId, fs);
      ok := Probe(s, At(net, k));
      Advance(run, before, fs, trace, fs, k);
      if !ok { return; }
      ok := Log(jobId, "check_writable", "ok");
      assert Here(run, k + 1);
    }

    /** The pre-flight part of `run_deployment_inner`. */
    method PreFlight(t: Target, net: seq<Exchange>, jobId: string, ghost run: Run, ghost from: nat)
      returns (ok: bool)
      requires |Checks(t)| <= |run.plan| && run.plan[..|Checks(t)|] == Checks(t)
      requires run.net == net && run.jobId == jobId && GoesOn(run, from, 0)
      modifies this`trace, this`journal, this`tried
      ensures Extends(old(journal), journal, jobId)
      ensures if ok then GoesOn(run, from, |Checks(t)|) else GivenUp(run, from)
    {
      hide GoesOn, GivenUp, DirProbe, ShellQuote;
      var e := t.escalation;
      var probes := if e.Sudo? then [SUDO_PROBE, StagingProbe(e.stagingDir)] else [];
      var paths := [t.certPath, t.keyPath] + if t.chainPath.Some? then [t.chainPath.value] else [];
      assert Checks(t) == probes + seq(|paths|, i requires 0 <= i < |paths| => DirProbe(e, paths[i]));
      ok := CheckSudo(probes, net, jobId, run, from);
      if !ok { return; }
      forall i | 0 <= i < |paths| ensures run.plan[|probes| + i] == DirProbe(e, paths[i]) {
        assert run.plan[|probes| + i] == Checks(t)[|probes| + i];
      }
      ok := CheckDirs(e, paths, net, jobId, |probes|, run, from);
    }

    /** One upload of the plan. */
    method Upload(s: RemoteStep, t: Target, net: seq<Exchange>, jobId: string, k: nat, ghost run: Run,
                  ghost from: nat) returns (ok: bool)
      requires s.Write? && k < |run.plan| && run.plan[k] == s
      requires run.net == net && run.jobId == jobId && run.e == t.escalation && GoesOn(run, from, k)
      modifies this`trace, this`journal, this`tried, this`fs
      ensures Extends(old(journal), journal, jobId)
      ensures if ok then GoesOn(run, from, k + 1) else GivenUp(run, from)
    {
      hide Effects, Effect, Attempted, Passes, AllPass, Reached, Stopped;
      ghost var before, files := trace, fs;
      ok := WriteRemoteFile(t.escalation, s.path, s.data, s.mode, At(net, k), jobId);
      assert s == Write(s.path, s.data, s.mode);
      if inserts(old(tried)) { Advance(run, before, files, trace, fs, k); }
      assert Here(run, k) || Here(run, k + 1) || Stopped(run, trace, fs);
    }

    /** The uploads: private key, certificate, then the chain when there is one. */
    method UploadAll(t: Target, net: seq<Exchange>, jobId: string, k: nat, ghost run: Run, ghost from: nat)
      returns (ok: bool)
      requires k + |Writes(t)| <= |run.plan| && run.plan[k..k + |Writes(t)|] == Writes(t)
      requires run.net == net && run.jobId == jobId && run.e == t.escalation && GoesOn(run, from, k)
      modifies this`trace, this`journal, this`tried, this`fs
      ensures Extends(old(journal), journal, jobId)
      ensures if ok then GoesOn(run, from, k + |Writes(t)|) else GivenUp(run, from)
    {
      hide GoesOn, GivenUp;
      assert run.plan[k..k + |Writes(t)|][0] == run.plan[k];
      ok := Upload(Write(t.keyPath, t.keyPem, "600"), t, net, jobId, k, run, from);
      if !ok { return; }
      assert run.plan[k..k + |Writes(t)|][1] == run.plan[k + 1];
      ok := Upload(Write(t.certPath, t.certPem, "644"), t, net, jobId, k + 1, run, from);
      if !ok { return; }
      if t.chainPath.Some? && t.chainPem.Some? {
        assert run.plan[k..k + |Writes(t)|][2] == run.plan[k + 2];
        ok := Upload(Write(t.chainPath.value, t.chainPem.value, "644"), t, net, jobId, k + 2, run, from);
      }
    }

    /** The reload command, when one is configured. */
    method RunReload(t: Target, net: seq<Exchange>, jobId: string, k: nat, ghost run: Run, ghost from: nat)
      returns (ok: bool)
      requires |run.plan| == k + |Reloads(t)| && run.plan[k..] == Reloads(t)
      requires run.net == net && GoesOn(run, from, k)
      modifies this`trace, this`journal, this`tried
      ensures Extends(old(journal), journal, jobId)
      ensures if ok then GoesOn(run, from, |run.plan|) else GivenUp(run, from)
    {
      hide GoesOn, GivenUp, PrivilegedCommand, IsBlank;
      if t.reload == None || IsBlank(t.reload.value) { return true; }
      var s := Reload(PrivilegedCommand(t.escalation, t.reload.value));
      assert run.plan[k..][0] == s;
      ok := SendReload(s, net, jobId, k, run, from);
    }

    method SendReload(s: RemoteStep, net: seq<Exchange>, jobId: string, k: nat, ghost run: Run, ghost from: nat)
      returns (ok: bool)
      requires k < |run.plan| && run.plan[k] == s && s.Reload?
      requires run.net == net && GoesOn(run, from, k)
      modifies this`trace, this`journal, this`tried
      ensures Extends(old(journal), journal, jobId)
      ensures journal == old(journal) + Noted(jobId, "reload", old(tried), ok)
      ensures if ok then GoesOn(run, from, k + 1) else GivenUp(run, from)
    {
      hide Effects, Effect, Attempted, Passes, AllPass, Reached, Stopped, ExitCode, Output, Seen;
      ok := Log(jobId, "reload", "running");
      assert Here(run, k);
      if !ok { return; }
      ghost var before := trace;
      ProbeHasNoEffect(s, At(net, k), run.e, run.jobId, fs);
      ReloadPasses(s, At(net, k));
      var r := ExecCommand(s, At(net, k));
      Advance(run, before, fs, trace, fs, k);
      if r == None || r.value.0 != 0 { return false; }
      ok := Log(jobId, "reload", "ok");
      assert Here(run, k + 1);
    }

    /** `run_deployment_inner` once the SSH session is open: it passes exactly when every step and every
        journal statement does. */
    method RunSteps(t: Target, checkOnly: bool, jobId: string, net: seq<Exchange>, ghost run: Run, ghost from: nat)
      returns (ok: bool)
      requires run == Run(Plan(t, checkOnly), net, t.escalation, jobId, trace, fs)
      requires from < tried && Recorded(from)
      modifies this`trace, this`journal, this`tried, this`fs
      ensures Extends(old(journal), journal, jobId) && from < tried
      ensures ok <==> AllPass(run.plan, net) && Recorded(from)
      ensures if Recorded(from) then Stopped(run, trace, fs) else exists k :: Here(run, k)
      ensures ok ==> journal != [] && journal[|journal| - 1] == Row(jobId, if checkOnly then "check" else "done", "ok")
    {
      hide Effects, Effect, Attempted, Passes, AllPass, Reached, Stopped, Plan, Checks, Writes, Reloads;
      PlanParts(t, checkOnly);
      Depart(run);
      var k := |Checks(t)|;
      ok := PreFlight(t, net, jobId, run, from);
      if !ok { return; }
      if checkOnly {
        Arrive(run, trace, fs);
        ok := Log(jobId, "check", "ok");
        assert Here(run, |run.plan|);
        return;
      }
      ok := UploadAll(t, net, jobId, k, run, from);
      if !ok { return; }
      ok := RunReload(t, net, jobId, k + |Writes(t)|, run, from);
      if !ok { return; }
      Arrive(run, trace, fs);
      ok := Log(jobId, "done", "ok");
      assert Here(run, |run.plan|);
    }

    /** `run_deployment_inner`: `target` is None when resolving it fails. */
    method RunInner(target: Option<Target>, connected: bool, checkOnly: bool, jobId: string, net: seq<Exchange>)
      returns (ok: bool)
      modifies this`trace, this`journal, this`tried, this`fs
      ensures Extends(old(journal), journal, jobId) && old(tried) < tried
      ensures ok <==> Succeeds(target, connected, checkOnly, net) && Recorded(old(tried))
      ensures target == None || !connected ==> trace == old(trace) && fs == old(fs)
      ensures target.Some? && connected ==>
        var run := Run(Plan(target.value, checkOnly), net, target.value.escalation, jobId, old(trace), old(fs));
        && Partly(run, trace, fs)
        && (Recorded(old(tried)) ==> Stopped(run, trace, fs))
      ensures ok ==> journal != [] && journal[|journal| - 1] == Row(jobId, if checkOnly then "check" else "done", "ok")
    {
      hide AllPass, Stopped, Plan, Partly, Reached;
      ghost var from := tried;
      ok := Connect(target, connected, jobId);
      if target == None || !connected { return; }
      ghost var run := Run(Plan(target.value, checkOnly), net, target.value.escalation, jobId, trace, fs);
      Depart(run);
      ReachedPartly(run, trace, fs, 0);
      if !ok { return; }
      ok := RunSteps(target.value, checkOnly, jobId, net, run, from);
      if Recorded(from) {
        StoppedPartly(run, trace, fs);
      } else {
        ghost var k :| Here(run, k);
        ReachedPartly(run, trace, fs, k);
      }
    }

    /** Resolving the target and logging in. */
    method Connect(target: Option<Target>, connected: bool, jobId: string) returns (ok: bool)
      modifies this`journal, this`tried
      ensures Extends(old(journal), journal, jobId) && old(tried) < tried
      ensures ok <==> target.Some? && connected && Recorded(old(tried))
    {
      ok := Log(jobId, "resolve", "running");
      if !ok || target == None { return false; }
      ok := Log(jobId, "resolve", "ok");
      if !ok { return; }
      ok := Log(jobId, "connect", "running");
      if !ok || !connected { return false; }
      ok := Log(jobId, "connect", "ok");
    }

    /** The end of `run_deployment`: the error row, the job, the target. */
    method Close(hostApp: string, jobId: string, ok: bool, checkOnly: bool, books: Books) returns (r: Option<string>)
      modifies this`jobs, this`finished, this`targetStatus, this`journal, this`tried
      ensures tried == old(tried) + (if ok then 0 else 1)
      ensures journal == if ok || !inserts(old(tried)) then old(journal)
                         else old(journal) + [Row(jobId, "error", "failed")]
      ensures var closed := (ok || inserts(old(tried))) && books.finish;
        var status := if ok then "success" else "failed";
        && jobs == (if closed then old(jobs)[jobId := status] else old(jobs))
        && finished == (if closed then old(finished) + [(jobId, status)] else old(finished))
        && targetStatus == (if closed && !checkOnly && books.target then old(targetStatus)[hostApp := status]
                            else old(targetStatus))
        && r == (if closed && (checkOnly || books.target) then Some(status) else None)
    {
      if !ok {
        var written := Log(jobId, "error", "failed");
        if !written { return None; }
      }
      if !books.finish { return None; }
      var status := if ok then "success" else "failed";
      jobs := jobs[jobId := status];
      finished := finished + [(jobId, status)];
      if !checkOnly {
        if !books.target { return None; }
        targetStatus := targetStatus[hostApp := status];
      }
      return Some(status);
    }

    /** `run_deployment`: None when a bookkeeping statement of its own fails.  The job then says "running" for
        good, unless only the row of the target could not be written. */
    method RunDeployment(hostApp: string, jobId: string, target: Option<Target>, connected: bool,
                         checkOnly: bool, net: seq<Exchange>, books: Books) returns (r: Option<string>)
      requires jobId !in jobs
      modifies this
      ensures !books.start ==> r == None && unchanged(this)
      ensures books.start ==> old(tried) < tried
      ensures books.start ==>
        var ok := Succeeds(target, connected, checkOnly, net) && Recorded(old(tried));
        var status := if ok then "success" else "failed";
        var closed := (ok || inserts(tried - 1)) && books.finish;
        && jobs == old(jobs)[jobId := if closed then status else "running"]
        && finished == (if closed then old(finished) + [(jobId, status)] else old(finished))
        && targetStatus == (if closed && !checkOnly && books.target then old(targetStatus)[hostApp := status]
                            else old(targetStatus))
        && r == (if closed && (checkOnly || books.target) then Some(status) else None)
        && (closed ==>
              var last := if !ok then Row(jobId, "error", "failed")
                          else Row(jobId, if checkOnly then "check" else "done", "ok");
              journal != [] && journal[|journal| - 1] == last)
      ensures Extends(old(journal), journal, jobId)
      ensures !books.start || target == None || !connected ==> trace == old(trace) && fs == old(fs)
      ensures books.start && target.Some? && connected ==>
        var run := Run(Plan(target.value, checkOnly), net, target.value.escalation, jobId, old(trace), old(fs));
        Partly(run, trace, fs) && (Recorded(old(tried)) ==> Stopped(run, trace, fs))
    {
      hide Effects, Effect, Attempted, AllPass, Stopped, Plan, Partly, Reached;
      if !books.start { return None; }
      jobs := jobs[jobId := "running"];
      var ok := RunInner(target, connected, checkOnly, jobId, net);
      r := Close(hostApp, jobId, ok, checkOnly, books);
    }
  }
}
