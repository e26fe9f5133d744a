/** What an upload achieves on the host, for every path, every file system, every outcome of `cat`,
    `install`, `chmod` and `rm`, and for a shell that is killed between any two of them. */
module Upload {
  import opened Wrappers
  import opened Positional
  import opened RemoteHost
  import opened DeployCommands

  lemma {:induction false} LastPartTail(x: string, y: string)
    requires '/' !in y
    ensures LastPart(x + y) == LastPart(x) + y
  {
    if y == [] {
      assert x + y == x;
    } else {
      assert (x + y)[..|x + y| - 1] == x + y[..|y| - 1];
      LastPartTail(x, y[..|y| - 1]);
    }
  }

  lemma StagedLast(dir: string, dest: string, jobId: string)
    ensures var staged := StagedPath(dir, dest, jobId);
            |LastPart(staged)| > |StagedBase(dest)| && !EndsWithSlash(staged) && staged != ""
  {
    var base := StagedBase(dest);
    assert TrimSlashes(dir) + "/" + jobId + "." + base == (TrimSlashes(dir) + "/" + jobId) + ("." + base);
    LastPartTail(TrimSlashes(dir) + "/" + jobId, "." + base);
  }

  /** The staged file is never the destination itself: its last part is longer. */
  lemma StagedNotDest(dir: string, dest: string, jobId: string)
    ensures StagedPath(dir, dest, jobId) != dest
  {
    StagedLast(dir, dest, jobId);
  }

  /** The staged name reads as an option exactly when the staging directory, without trailing slashes,
      begins with a dash. */
  lemma StagedIsOption(dir: string, dest: string, jobId: string)
    ensures IsOption(StagedPath(dir, dest, jobId)) <==> TrimSlashes(dir) != "" && dir[0] == '-'
  {
    var t := TrimSlashes(dir);
    var s := StagedPath(dir, dest, jobId);
    if t == "" {
      assert s[0] == '/';
    } else {
      assert s[0] == t[0] == dir[0];
    }
  }

  /** Names for which `install staged dest` writes the file `dest`. */
  predicate Installable(fs: Fs, staged: string, dest: string) {
    !IsOption(staged) && !IsOption(dest) && !IsDir(fs, dest)
  }

  /** No name reads as an option, or a utility that takes one for an option leaves the files alone. */
  predicate Plainly(staged: string, dest: string, luck: Luck) {
    IsOption(staged) || IsOption(dest) ==> Docile(luck)
  }

  /** `cat` gets to open the staged file. */
  predicate CatOpens(fs: Fs, path: string, luck: Luck) {
    luck.cat != CatRefused && path != "" && !EndsWithSlash(path) && !(path in fs && fs[path].Dir?)
  }

  ghost predicate SudoOutcome(dir: string, dest: string, mode: string, jobId: string,
                              fs: Fs, data: seq<Byte>, luck: Luck, fs': Fs, status: nat) {
    var r := RunText(UploadCommand(Sudo(dir), dest, mode, jobId), fs, data, luck);
    r.Some? && r.value.fs == fs' && r.value.status == status
  }

  /** The staged file as `cat` leaves it: kept to its owner when new. */
  function StagedFile(fs: Fs, staged: string, data: seq<Byte>): Node {
    if IsFile(fs, staged) then fs[staged].(data := data) else File(data, "600", Deployer)
  }

  /** Status zero on installable names: the destination is exactly the input, owned by root with the
      requested mode, the staged file is gone unless `rm` failed, and every other path is as it was. */
  lemma SudoDelivers(dir: string, dest: string, mode: string, jobId: string,
                     fs: Fs, data: seq<Byte>, luck: Luck, fs': Fs, status: nat)
    requires Carries(Sudo(dir), dest, jobId) && IsMode(mode) && Fair(luck)
    requires SudoOutcome(dir, dest, mode, jobId, fs, data, luck, fs', status)
    requires status == 0 && Installable(fs, StagedPath(dir, dest, jobId), dest)
    ensures var staged := StagedPath(dir, dest, jobId);
            fs' == (if luck.removeDone then fs - {staged} else fs[staged := StagedFile(fs, staged, data)])
                   [dest := File(data, mode, Root)]
  {
    hide StagedPath, TrimSlashes, RunText, UploadCommand;
    var staged := StagedPath(dir, dest, jobId);
    SudoRuns(dir, dest, mode, jobId, fs, data, luck);
    StagedNotDest(dir, dest, jobId);
    var a := Cat(WithUmask(fs), staged, data, luck);
    CatKeepsDirs(WithUmask(fs), staged, data, luck, dest);
  }

  lemma CatKeepsDirs(p: Proc, path: string, data: seq<Byte>, luck: Luck, q: string)
    ensures IsDir(Cat(p, path, data, luck).fs, q) == IsDir(p.fs, q)
  {}

  /** Status zero on any other names leaves the destination exactly as it was: nothing was installed
      there. */
  lemma SudoMisses(dir: string, dest: string, mode: string, jobId: string,
                   fs: Fs, data: seq<Byte>, luck: Luck, fs': Fs, status: nat)
    requires Carries(Sudo(dir), dest, jobId) && IsMode(mode) && Fair(luck)
    requires SudoOutcome(dir, dest, mode, jobId, fs, data, luck, fs', status)
    requires status == 0 && !Installable(fs, StagedPath(dir, dest, jobId), dest)
    requires Plainly(StagedPath(dir, dest, jobId), dest, luck)
    ensures (dest in fs' <==> dest in fs) && (dest in fs ==> fs'[dest] == fs[dest])
  {
    hide StagedPath, RunText, UploadCommand;
    var staged := StagedPath(dir, dest, jobId);
    SudoRuns(dir, dest, mode, jobId, fs, data, luck);
    StagedNotDest(dir, dest, jobId);
    StagedLast(dir, dest, jobId);
    CatKeepsDirs(WithUmask(fs), staged, data, luck, dest);
    var target := TrimSlashes(dest) + "/" + LastPart(staged);
    assert target != dest by {
      if !EndsWithSlash(dest) {
        assert TrimSlashes(dest) == dest;
        assert |target| > |dest|;
      } else {
        assert target[|target| - 1] == LastPart(staged)[|LastPart(staged)| - 1];
      }
    }
  }

  /** Every utility does its work and no name is in the way. */
  predicate NothingInTheWay(fs: Fs, staged: string, dest: string) {
    var target := InstallTarget(fs, staged, dest);
    && !(staged in fs && fs[staged].Dir?)
    && (IsOption(staged) || IsOption(dest)
        || (target != staged && target != "" && !EndsWithSlash(target) && !(target in fs && fs[target].Dir?)))
  }

  /** So the condition is exact: on a smooth run the command always reports success, and the
      destination gets the file if and only if the names are installable (or it held it before). */
  lemma SudoExact(dir: string, dest: string, mode: string, jobId: string,
                  fs: Fs, data: seq<Byte>, fs': Fs, status: nat)
    requires Carries(Sudo(dir), dest, jobId) && IsMode(mode)
    requires SudoOutcome(dir, dest, mode, jobId, fs, data, SMOOTH, fs', status)
    requires NothingInTheWay(fs, StagedPath(dir, dest, jobId), dest)
    requires !(dest in fs && fs[dest] == File(data, mode, Root))
    ensures status == 0
    ensures dest in fs' && fs'[dest] == File(data, mode, Root)
       <==> Installable(fs, StagedPath(dir, dest, jobId), dest)
  {
    SmoothSucceeds(dir, dest, mode, jobId, fs, data, fs', status);
    hide StagedPath, TrimSlashes, LastPart, RunText, UploadCommand;
    if Installable(fs, StagedPath(dir, dest, jobId), dest) {
      SudoDelivers(dir, dest, mode, jobId, fs, data, SMOOTH, fs', status);
    } else {
      SudoMisses(dir, dest, mode, jobId, fs, data, SMOOTH, fs', status);
    }
  }

  lemma SmoothSucceeds(dir: string, dest: string, mode: string, jobId: string,
                       fs: Fs, data: seq<Byte>, fs': Fs, status: nat)
    requires Carries(Sudo(dir), dest, jobId) && IsMode(mode)
    requires SudoOutcome(dir, dest, mode, jobId, fs, data, SMOOTH, fs', status)
    requires NothingInTheWay(fs, StagedPath(dir, dest, jobId), dest)
    ensures status == 0
  {
    StagedLast(dir, dest, jobId);
    hide StagedPath, TrimSlashes, LastPart, RunText, UploadCommand;
    var staged := StagedPath(dir, dest, jobId);
    SudoRuns(dir, dest, mode, jobId, fs, data, SMOOTH);
    CatKeepsDirs(WithUmask(fs), staged, data, SMOOTH, dest);
  }

  /** A directory as destination is such a name: a smooth run reports success on it, unless it is the
      place of the staged file itself. */
  lemma DirectoryIsMissed(dir: string, jobId: string)
    ensures !Installable(map["/d" := Dir], StagedPath(dir, "/d", jobId), "/d")
    ensures var staged := StagedPath(dir, "/d", jobId);
            NothingInTheWay(map["/d" := Dir], staged, "/d")
            <==> IsOption(staged) || staged != "/d/" + LastPart(staged)
  {
    var staged := StagedPath(dir, "/d", jobId);
    StagedLast(dir, "/d", jobId);
    StagedNotDest(dir, "/d", jobId);
    hide StagedPath, LastPart;
    assert TrimSlashes("/d") == "/d";
    var target := "/d" + "/" + LastPart(staged);
    assert |target| > 2;
    assert LastPart(staged)[|LastPart(staged)| - 1] in LastPart(staged);
    assert target[|target| - 1] == LastPart(staged)[|LastPart(staged)| - 1];
  }

  /** Nothing but the staged path, the destination and the path inside a directory destination differs. */
  ghost predicate OnlyThere(dir: string, dest: string, jobId: string, fs: Fs, fs': Fs) {
    var staged := StagedPath(dir, dest, jobId);
    var touched := {staged, InstallTarget(fs, staged, dest)};
    fs' - touched == fs - touched
  }

  /** Whatever fails and whenever the shell is killed, nothing else changes. */
  lemma SudoTouchesLittle(dir: string, dest: string, mode: string, jobId: string,
                          fs: Fs, data: seq<Byte>, luck: Luck, n: nat)
    requires Carries(Sudo(dir), dest, jobId) && IsMode(mode) && Fair(luck)
    requires Plainly(StagedPath(dir, dest, jobId), dest, luck)
    ensures var command := UploadCommand(Sudo(dir), dest, mode, jobId);
            && RunText(command, fs, data, luck).Some? && RunTextUpTo(command, fs, data, luck, n).Some?
            && OnlyThere(dir, dest, jobId, fs, RunText(command, fs, data, luck).value.fs)
            && OnlyThere(dir, dest, jobId, fs, RunTextUpTo(command, fs, data, luck, n).value.fs)
  {
    StagesTouchLittle(dir, dest, mode, jobId, fs, data, luck);
    hide StagedPath, TrimSlashes, LastPart, RunText, RunTextUpTo, UploadCommand, IsMode, Carries, OnlyThere, Cat,
         Remove, StageAndInstall;
    SudoRuns(dir, dest, mode, jobId, fs, data, luck);
    SudoCutOff(dir, dest, mode, jobId, fs, data, luck, n);
  }

  lemma StagesTouchLittle(dir: string, dest: string, mode: string, jobId: string,
                          fs: Fs, data: seq<Byte>, luck: Luck)
    requires Plainly(StagedPath(dir, dest, jobId), dest, luck)
    ensures var staged := StagedPath(dir, dest, jobId);
            var installed := StageAndInstall(staged, dest, mode, fs, data, luck);
            && OnlyThere(dir, dest, jobId, fs, fs)
            && OnlyThere(dir, dest, jobId, fs, Cat(WithUmask(fs), staged, data, luck).fs)
            && OnlyThere(dir, dest, jobId, fs, installed.fs)
            && OnlyThere(dir, dest, jobId, fs, Remove(installed, staged, luck).fs)
  {
    hide StagedPath, IsDir, Cat, Install, Remove;
    var staged := StagedPath(dir, dest, jobId);
    var a := Cat(WithUmask(fs), staged, data, luck);
    var b := StageAndInstall(staged, dest, mode, fs, data, luck);
    CatKeepsDirs(WithUmask(fs), staged, data, luck, dest);
    CatTouches(WithUmask(fs), staged, data, luck);
    InstallTouches(a, mode, staged, dest, luck);
    RemoveTouches(b, staged, luck);
    var target := InstallTarget(fs, staged, dest);
    TouchesAlso(fs, a.fs, staged, {staged, target});
    TouchesAlso(a.fs, b.fs, target, {staged, target});
    TouchesAlso(b.fs, Remove(b, staged, luck).fs, staged, {staged, target});
  }

  lemma TouchesAlso(fs: Fs, fs': Fs, p: string, touched: set<string>)
    requires fs' - {p} == fs - {p} && p in touched
    ensures fs' - touched == fs - touched
  {
    assert fs' - touched == (fs' - {p}) - touched;
    assert fs - touched == (fs - {p}) - touched;
  }

  lemma CatTouches(p: Proc, path: string, data: seq<Byte>, luck: Luck)
    ensures Cat(p, path, data, luck).fs - {path} == p.fs - {path}
  {}

  lemma InstallTouches(p: Proc, mode: string, src: string, dst: string, luck: Luck)
    requires Plainly(src, dst, luck)
    ensures var target := InstallTarget(p.fs, src, dst);
            Install(p, mode, src, dst, luck).fs - {target} == p.fs - {target}
  {
    hide InstallTarget;
  }

  lemma RemoveTouches(p: Proc, path: string, luck: Luck)
    requires IsOption(path) ==> Docile(luck)
    ensures Remove(p, path, luck).fs - {path} == p.fs - {path}
  {}

  /** The removal of the staged file works: `rm` is not kept from it and reads its name as a path. */
  predicate RemovalWorks(staged: string, luck: Luck) {
    luck.removeDone && !IsOption(staged)
  }

  /** A sudo upload that ran to the end leaves a staged file exactly when the removal does not work and
      there was one: written by this run or left from before. */
  lemma StagedFileRemoved(dir: string, dest: string, mode: string, jobId: string,
                          fs: Fs, data: seq<Byte>, luck: Luck, fs': Fs, status: nat)
    requires Carries(Sudo(dir), dest, jobId) && IsMode(mode) && Fair(luck)
    requires SudoOutcome(dir, dest, mode, jobId, fs, data, luck, fs', status)
    ensures var staged := StagedPath(dir, dest, jobId);
            && (RemovalWorks(staged, luck) ==> !IsFile(fs', staged))
            && (Plainly(staged, dest, luck) ==>
                  (IsFile(fs', staged)
                   <==> !RemovalWorks(staged, luck) && (IsFile(fs, staged) || CatOpens(fs, staged, luck))))
  {
    if Plainly(StagedPath(dir, dest, jobId), dest, luck) {
      SudoKeepsStaged(dir, dest, mode, jobId, fs, data, luck);
    }
    hide StagedPath, TrimSlashes, LastPart, RunText, UploadCommand, Remove, StageAndInstall, CatOpens, RemovalWorks;
    var staged := StagedPath(dir, dest, jobId);
    SudoRuns(dir, dest, mode, jobId, fs, data, luck);
    FileRemoved(StageAndInstall(staged, dest, mode, fs, data, luck), staged, luck);
  }

  lemma FileRemoved(p: Proc, path: string, luck: Luck)
    ensures RemovalWorks(path, luck) ==> !IsFile(Remove(p, path, luck).fs, path)
    ensures !RemovalWorks(path, luck) && (IsOption(path) ==> Docile(luck)) ==>
              (IsFile(Remove(p, path, luck).fs, path) <==> IsFile(p.fs, path))
  {}

  /** Installing does not add or take the staged file. */
  lemma SudoKeepsStaged(dir: string, dest: string, mode: string, jobId: string,
                        fs: Fs, data: seq<Byte>, luck: Luck)
    requires Plainly(StagedPath(dir, dest, jobId), dest, luck)
    ensures var staged := StagedPath(dir, dest, jobId);
            IsFile(StageAndInstall(staged, dest, mode, fs, data, luck).fs, staged)
            <==> IsFile(fs, staged) || CatOpens(fs, staged, luck)
  {
    StagedNotDest(dir, dest, jobId);
    StagedLast(dir, dest, jobId);
    hide StagedPath, TrimSlashes, LastPart;
  }

  /** Killed after `n` of its commands, it leaves a staged file exactly when it came to write one, or
      there was one, and did not come to a removal that works. */
  lemma KilledLeavesStaged(dir: string, dest: string, mode: string, jobId: string,
                           fs: Fs, data: seq<Byte>, luck: Luck, n: nat)
    requires Carries(Sudo(dir), dest, jobId) && IsMode(mode) && Fair(luck)
    requires Plainly(StagedPath(dir, dest, jobId), dest, luck)
    ensures var staged := StagedPath(dir, dest, jobId);
            var r := RunTextUpTo(UploadCommand(Sudo(dir), dest, mode, jobId), fs, data, luck, n);
            && r.Some?
            && (IsFile(r.value.fs, staged)
                <==> && (IsFile(fs, staged) || (n >= 2 && CatOpens(fs, staged, luck)))
                     && !(n >= RemovalAt(staged, fs, data, luck) && RemovalWorks(staged, luck)))
  {
    SudoKeepsStaged(dir, dest, mode, jobId, fs, data, luck);
    hide StagedPath, TrimSlashes, LastPart, RunTextUpTo, UploadCommand, Remove, StageAndInstall, RemovalWorks;
    var staged := StagedPath(dir, dest, jobId);
    SudoCutOff(dir, dest, mode, jobId, fs, data, luck, n);
    FileRemoved(StageAndInstall(staged, dest, mode, fs, data, luck), staged, luck);
  }

  /** The exit status is zero exactly when both `cat` and `install` succeeded, whatever `rm` did. */
  lemma SudoStatus(dir: string, dest: string, mode: string, jobId: string,
                   fs: Fs, data: seq<Byte>, luck: Luck, fs': Fs, status: nat)
    requires Carries(Sudo(dir), dest, jobId) && IsMode(mode) && Fair(luck)
    requires SudoOutcome(dir, dest, mode, jobId, fs, data, luck, fs', status)
    ensures var staged := StagedPath(dir, dest, jobId);
            var a := Cat(WithUmask(fs), staged, data, luck);
            && (status == 0 <==> a.status == 0 && Install(a, mode, staged, dest, luck).status == 0)
            && (a.status == 0 && staged !in fs ==> a.fs[staged].mode == "600")
  {
    hide StagedPath, TrimSlashes, LastPart, RunText, UploadCommand;
    SudoRuns(dir, dest, mode, jobId, fs, data, luck);
  }

  /** Without sudo, status zero means the content is there and nothing else changed; the mode is the
      requested one when `chmod` reads the name as a path. */
  lemma DirectDelivers(dest: string, mode: string, jobId: string, fs: Fs, data: seq<Byte>, luck: Luck)
    requires NulFree(dest) && IsMode(mode) && Plainly(dest, dest, luck)
    ensures var r := RunText(UploadCommand(Direct, dest, mode, jobId), fs, data, luck);
            && r.Some?
            && (forall p :: p != dest ==> (p in r.value.fs <==> p in fs) && (p in fs ==> r.value.fs[p] == fs[p]))
            && (r.value.status == 0 ==>
                  && IsFile(r.value.fs, dest) && r.value.fs[dest].data == data
                  && (IsOption(dest) ==>
                        r.value.fs[dest].mode == if IsFile(fs, dest) then fs[dest].mode else "600")
                  && (!IsOption(dest) ==> r.value.fs[dest].mode == mode))
  {
    hide RunText, UploadCommand;
    DirectRuns(dest, mode, jobId, fs, data, luck);
  }
}
