/** Every history of backup runs: what the directory of backend/src/backup.rs holds and what it says about
    the database. */
module BackupHistory {
  import opened Wrappers
  import opened Positional
  import opened Basics
  import opened Rotation
  import opened BackupName
  import opened Backup
  import opened Crypto
  import BackupCrypto
  import BackupRestore

  /** A backup that was written at some time, to the end or not. */
  datatype Entry = Entry(stamp: Stamp, encrypted: bool, payload: Bytes, dump: Bytes, quietDump: Bytes, whole: bool)

  function NameOf(e: Entry): string {
    Name(e.stamp, e.encrypted)
  }

  function EntryOf(r: Run): Entry
    requires r.produced.Ok?
  {
    Entry(r.now, r.produced.value.encrypted, Left(r.produced.value.payload, r.main), r.dump, r.quietDump,
          r.main == Done)
  }

  /** The directory and all backups ever written to it, oldest first. */
  datatype State = State(files: Files, history: seq<Entry>)

  /** The run leaves a new backup file, whole or cut off. */
  ghost predicate Adds(files: Files, r: Run, sha: Digest) {
    Tries(files, r, sha) && r.main != Refused
  }

  ghost function Step(s: State, r: Run, sha: Digest): State {
    State(After(s.files, r, sha), if Adds(s.files, r, sha) then s.history + [EntryOf(r)] else s.history)
  }

  ghost function Play(start: Files, runs: seq<Run>, sha: Digest): State {
    if runs == [] then State(start, []) else Step(Play(start, runs[..|runs| - 1], sha), runs[|runs| - 1], sha)
  }

  /** The directory held nothing of ours, and the clock increased from run to run. */
  ghost predicate Proper(start: Files, runs: seq<Run>) {
    && (forall n :: n in start ==> !(PREFIX <= n))
    && (forall i :: 0 <= i < |runs| ==> InRange(runs[i].now))
    && (forall i, j :: 0 <= i < j < |runs| ==> Before(runs[i].now, runs[j].now))
  }

  ghost predicate Ordered(h: seq<Entry>) {
    && (forall i :: 0 <= i < |h| ==> InRange(h[i].stamp))
    && (forall i, j :: 0 <= i < j < |h| ==> Before(h[i].stamp, h[j].stamp))
  }

  /** The names of all backups ever written, newest first. */
  function NewestFirst(h: seq<Entry>): (l: seq<string>)
    ensures |l| == |h|
    ensures forall i :: 0 <= i < |h| ==> l[i] == NameOf(h[|h| - 1 - i])
  {
    if h == [] then [] else [NameOf(h[|h| - 1])] + NewestFirst(h[..|h| - 1])
  }

  lemma NewestFirstDescends(h: seq<Entry>)
    requires Ordered(h)
    ensures Descending(NewestFirst(h))
  {
    var l := NewestFirst(h);
    forall i, j | 0 <= i < j < |l| ensures Less(l[j], l[i]) {
      var e, f := h[|h| - 1 - j], h[|h| - 1 - i];
      NameOrder(e.stamp, e.encrypted, f.stamp, f.encrypted);
    }
  }

  ghost function AllNames(h: seq<Entry>): set<string> {
    Elements(NewestFirst(h))
  }

  ghost predicate PayloadsKept(s: State) {
    forall e :: e in s.history && NameOf(e) in s.files ==> s.files[NameOf(e)] == e.payload
  }

  ghost predicate SidecarsMatch(s: State, sha: Digest) {
    forall e :: e in s.history && Sidecar(NameOf(e)) in s.files ==>
      e.whole && s.files[Sidecar(NameOf(e))] <= Signature(sha, e.quietDump)
  }

  ghost predicate OnlyOurs(s: State) {
    forall n :: n in s.files && PREFIX <= n ==> n in WithSidecars(AllNames(s.history))
  }

  /** Holds through any failure to delete or to write, half-way or altogether. */
  ghost predicate Inv(s: State, sha: Digest) {
    && Ordered(s.history)
    && BackupNames(s.files) <= AllNames(s.history)
    && PayloadsKept(s)
    && SidecarsMatch(s, sha)
    && OnlyOurs(s)
    && (s.history != [] ==> NameOf(s.history[|s.history| - 1]) in s.files)
  }

  lemma NamesGrow(h: seq<Entry>, e: Entry)
    ensures NewestFirst(h + [e]) == [NameOf(e)] + NewestFirst(h)
    ensures AllNames(h + [e]) == AllNames(h) + {NameOf(e)}
  {
    assert (h + [e])[..|h|] == h;
  }

  lemma OrderedGrow(h: seq<Entry>, e: Entry)
    requires Ordered(h) && InRange(e.stamp) && forall f :: f in h ==> Before(f.stamp, e.stamp)
    ensures Ordered(h + [e])
  {}

  /** The last written name is above every other one in the directory. */
  lemma LastIsNewest(names: set<string>, h: seq<Entry>)
    requires Ordered(h) && h != [] && NameOf(h[|h| - 1]) in names && names <= AllNames(h)
    ensures Above(names, NameOf(h[|h| - 1])) == {}
    ensures KeepNewest(names, 1) == {NameOf(h[|h| - 1])}
  {
    NewestFirstDescends(h);
    TopIsNewest(names, NewestFirst(h));
  }

  /** None of the names of `e` is a name of an earlier backup. */
  ghost predicate Apart(h: seq<Entry>, e: Entry) {
    forall d :: d in h ==>
      && NameOf(d) != NameOf(e) && Sidecar(NameOf(d)) != Sidecar(NameOf(e))
      && NameOf(d) != Sidecar(NameOf(e)) && Sidecar(NameOf(d)) != NameOf(e)
  }

  lemma LaterIsApart(h: seq<Entry>, e: Entry)
    requires Ordered(h) && InRange(e.stamp) && forall f :: f in h ==> Before(f.stamp, e.stamp)
    ensures Apart(h, e)
  {
    hide Name, Less, IsBackupFile, Before;
    NameIsBackup(e.stamp, e.encrypted);
    SidecarIsNoBackup(NameOf(e));
    forall d | d in h
      ensures NameOf(d) != NameOf(e) && Sidecar(NameOf(d)) != Sidecar(NameOf(e))
      ensures NameOf(d) != Sidecar(NameOf(e)) && Sidecar(NameOf(d)) != NameOf(e)
    {
      NameOrder(d.stamp, d.encrypted, e.stamp, e.encrypted);
      LessTotal(NameOf(d), NameOf(e));
      NameIsBackup(d.stamp, d.encrypted);
      SidecarIsNoBackup(NameOf(d));
      if Sidecar(NameOf(d)) == Sidecar(NameOf(e)) { SidecarInjective(NameOf(d), NameOf(e)); }
    }
  }

  lemma StartsOurs(e: Entry)
    ensures PREFIX <= NameOf(e) && PREFIX <= Sidecar(NameOf(e))
  {}

  /** Every listed name belongs to an entry. */
  lemma EntryFor(h: seq<Entry>, n: string)
    ensures n in AllNames(h) <==> exists e :: e in h && NameOf(e) == n
  {
    var l := NewestFirst(h);
    if n in AllNames(h) {
      var i :| 0 <= i < |l| && l[i] == n;
      assert h[|h| - 1 - i] in h;
    }
    if e :| e in h && NameOf(e) == n {
      var i :| 0 <= i < |h| && h[i] == e;
      assert l[|h| - 1 - i] == n;
    }
  }

  /** A name that was never used is not in the directory, and neither is its sidecar. */
  lemma FreshName(s: State, e: Entry)
    requires OnlyOurs(s) && Apart(s.history, e)
    ensures NameOf(e) !in s.files && Sidecar(NameOf(e)) !in s.files
  {
    hide Name, AllNames;
    StartsOurs(e);
    forall n | n in AllNames(s.history)
      ensures NameOf(e) != n && NameOf(e) != Sidecar(n) && Sidecar(NameOf(e)) != n && Sidecar(NameOf(e)) != Sidecar(n)
    {
      EntryFor(s.history, n);
    }
  }

  lemma WrittenNames(files: Files, r: Run, sha: Digest)
    requires r.produced.Ok? && r.main != Refused
    ensures BackupNames(Written(files, r, sha)) == BackupNames(files) + {NameOf(EntryOf(r))}
  {
    hide Name, IsBackupFile, Signature, Left;
    var e := EntryOf(r);
    NameIsBackup(e.stamp, e.encrypted);
    SidecarIsNoBackup(NameOf(e));
  }

  lemma WrittenContents(s: State, r: Run, sha: Digest)
    requires r.produced.Ok? && r.main != Refused
    requires Apart(s.history, EntryOf(r)) && PayloadsKept(s) && SidecarsMatch(s, sha)
    requires Sidecar(NameOf(EntryOf(r))) !in s.files
    ensures var s' := State(Written(s.files, r, sha), s.history + [EntryOf(r)]);
            PayloadsKept(s') && SidecarsMatch(s', sha)
  {
    hide Name, Signature, Left;
    var e := EntryOf(r);
    var s' := State(Written(s.files, r, sha), s.history + [e]);
    assert NameOf(e) != Sidecar(NameOf(e));
    forall d | d in s'.history && NameOf(d) in s'.files ensures s'.files[NameOf(d)] == d.payload {
      assert d in s.history || d == e;
    }
    forall d | d in s'.history && Sidecar(NameOf(d)) in s'.files
      ensures d.whole && s'.files[Sidecar(NameOf(d))] <= Signature(sha, d.quietDump)
    {
      assert d in s.history || d == e;
    }
  }

  lemma SidecarsGrow(names: set<string>, n: string)
    ensures WithSidecars(names + {n}) == WithSidecars(names) + {n, Sidecar(n)}
  {}

  /** What a written directory is before rotation. */
  lemma WrittenInv(s: State, r: Run, sha: Digest)
    requires Inv(s, sha) && r.produced.Ok? && r.main != Refused && InRange(r.now)
    requires forall f :: f in s.history ==> Before(f.stamp, r.now)
    ensures Inv(State(Written(s.files, r, sha), s.history + [EntryOf(r)]), sha)
  {
    hide Name, Before, BackupNames, Apart, PayloadsKept, SidecarsMatch, WithSidecars, AllNames, Signature, Left;
    var e := EntryOf(r);
    OrderedGrow(s.history, e);
    LaterIsApart(s.history, e);
    FreshName(s, e);
    NamesGrow(s.history, e);
    WrittenNames(s.files, r, sha);
    WrittenContents(s, r, sha);
    SidecarsGrow(AllNames(s.history), NameOf(e));
  }

  /** Losing files other than the newest loses no knowledge. */
  lemma FewerFiles(s: State, files: Files, sha: Digest)
    requires Inv(s, sha) && s.history != [] && NameOf(s.history[|s.history| - 1]) in files
    requires files.Keys <= s.files.Keys && forall n :: n in files ==> files[n] == s.files[n]
    ensures Inv(State(files, s.history), sha)
  {
    hide Name, Signature, Ordered, AllNames, WithSidecars, IsBackupFile;
    assert BackupNames(files) <= BackupNames(s.files);
  }

  /** Deleting names that are not the newest keeps everything that is known. */
  lemma RotatedInv(s: State, sha: Digest, keep: nat, stuck: set<string>)
    requires Inv(s, sha) && s.history != [] && keep >= 1
    ensures var names := BackupNames(s.files);
            Inv(State(s.files - (WithSidecars(names - KeepNewest(names, keep)) - stuck), s.history), sha)
  {
    var names, last := BackupNames(s.files), NameOf(s.history[|s.history| - 1]);
    LastKept(s, sha, keep);
    hide Inv, KeepNewest, NameOf, BackupNames;
    forall n ensures Sidecar(n) != last {
      SidecarIsNoBackup(n);
    }
    assert last !in WithSidecars(names - KeepNewest(names, keep));
    FewerFiles(s, s.files - (WithSidecars(names - KeepNewest(names, keep)) - stuck), sha);
  }

  lemma LastKept(s: State, sha: Digest, keep: nat)
    requires Inv(s, sha) && s.history != [] && keep >= 1
    ensures var last := NameOf(s.history[|s.history| - 1]);
            last in s.files && IsBackupFile(last) && last in KeepNewest(BackupNames(s.files), keep)
  {
    hide Name, Before, IsBackupFile, PayloadsKept, SidecarsMatch, OnlyOurs;
    var e := s.history[|s.history| - 1];
    NameIsBackup(e.stamp, e.encrypted);
    LastIsNewest(BackupNames(s.files), s.history);
  }

  lemma AfterAdding(files: Files, r: Run, sha: Digest)
    requires !Writes(files, r, sha)
    ensures After(files, r, sha) == if Adds(files, r, sha) then Written(files, r, sha) else files
  {
    hide Skips;
  }

  /** One run keeps the invariant. */
  lemma StepInv(s: State, r: Run, sha: Digest)
    requires Inv(s, sha) && InRange(r.now) && forall f :: f in s.history ==> Before(f.stamp, r.now)
    ensures Inv(Step(s, r, sha), sha)
  {
    hide Inv, Skips, Before, KeepNewest, WithSidecars, BackupNames, Written;
    if Adds(s.files, r, sha) { WrittenInv(s, r, sha); }
    if !Writes(s.files, r, sha) {
      AfterAdding(s.files, r, sha);
    } else {
      RotatedInv(State(Written(s.files, r, sha), s.history + [EntryOf(r)]), sha, Keep(r.retention), r.stuck);
    }
  }

  // ---- all histories ----

  ghost predicate FromRuns(h: seq<Entry>, runs: seq<Run>) {
    forall e :: e in h ==> exists r :: r in runs && r.produced.Ok? && e == EntryOf(r)
  }

  lemma EntriesEarlier(h: seq<Entry>, runs: seq<Run>, r: Run)
    requires FromRuns(h, runs) && forall q :: q in runs ==> Before(q.now, r.now)
    ensures forall e :: e in h ==> Before(e.stamp, r.now)
  {
    hide Before;
  }

  lemma StepFromRuns(s: State, runs: seq<Run>, r: Run, sha: Digest)
    requires FromRuns(s.history, runs)
    ensures FromRuns(Step(s, r, sha).history, runs + [r])
  {
    hide Skips, After;
    forall e | e in Step(s, r, sha).history
      ensures exists q :: q in runs + [r] && q.produced.Ok? && e == EntryOf(q)
    {
      if e in s.history {
        var q :| q in runs && q.produced.Ok? && e == EntryOf(q);
        assert q in runs + [r];
      } else {
        assert r in runs + [r];
      }
    }
  }

  lemma ProperBefore(start: Files, runs: seq<Run>)
    requires Proper(start, runs) && runs != []
    ensures var before, r := runs[..|runs| - 1], runs[|runs| - 1];
            && Proper(start, before) && InRange(r.now) && runs == before + [r]
            && forall q :: q in before ==> Before(q.now, r.now) && q in runs
  {
    hide Before;
  }

  /** In every history, through any silent failure, every file of ours has its right content and the newest
      backup survives. */
  lemma {:induction false} PlayInv(start: Files, runs: seq<Run>, sha: Digest)
    requires Proper(start, runs)
    ensures Inv(Play(start, runs, sha), sha)
    ensures FromRuns(Play(start, runs, sha).history, runs)
  {
    hide Inv, Before, Tries, After, FromRuns, Proper;
    if runs == [] {
      NothingWritten(start, runs, sha);
    } else {
      var before, r := runs[..|runs| - 1], runs[|runs| - 1];
      ProperBefore(start, runs);
      PlayInv(start, before, sha);
      var s := Play(start, before, sha);
      EntriesEarlier(s.history, before, r);
      StepInv(s, r, sha);
      StepFromRuns(s, before, r, sha);
    }
  }

  lemma NothingWritten(start: Files, runs: seq<Run>, sha: Digest)
    requires Proper(start, runs) && runs == []
    ensures Inv(State(start, []), sha) && FromRuns([], runs) && Suffix(State(start, []), 0)
  {
    assert BackupNames(start) == {};
  }

  // ---- what a run never touches ----

  lemma OnlyOursGo(files: Files, r: Run, sha: Digest, n: string)
    requires n in files && !(PREFIX <= n)
    ensures n in After(files, r, sha) && After(files, r, sha)[n] == files[n]
  {
    hide Skips, KeepNewest, StampText;
    if Tries(files, r, sha) {
      StartsOurs(EntryOf(r));
      assert forall m :: IsBackupFile(m) ==> PREFIX <= m && PREFIX <= Sidecar(m);
    }
  }

  /** Whatever the runs do, what is not theirs stays as it was. */
  lemma {:induction false} OthersStay(start: Files, runs: seq<Run>, sha: Digest, n: string)
    requires n in start && !("akamana-" <= n)
    ensures n in Play(start, runs, sha).files && Play(start, runs, sha).files[n] == start[n]
  {
    hide After;
    if runs != [] {
      OthersStay(start, runs[..|runs| - 1], sha, n);
      OnlyOursGo(Play(start, runs[..|runs| - 1], sha).files, runs[|runs| - 1], sha, n);
    }
  }

  /** Every signature is that of a backup in the directory. */
  ghost predicate NoOrphans(files: Files) {
    forall n :: IsBackupFile(n) && Sidecar(n) in files ==> n in files
  }

  lemma StepNoOrphans(files: Files, r: Run, sha: Digest)
    requires NoOrphans(files) && r.stuck == {}
    ensures NoOrphans(After(files, r, sha))
  {
    hide Skips, KeepNewest, Name, IsBackupFile, Signature, Keep;
    if Tries(files, r, sha) {
      var name, f := NameOf(EntryOf(r)), Written(files, r, sha);
      NameIsBackup(r.now, r.produced.value.encrypted);
      forall n ensures !IsBackupFile(Sidecar(n)) { SidecarIsNoBackup(n); }
      forall n | Sidecar(n) == Sidecar(name) ensures n == name { SidecarInjective(n, name); }
      assert NoOrphans(f);
      forall n, m | Sidecar(n) == Sidecar(m) ensures n == m { SidecarInjective(n, m); }
    }
  }

  /** When deletions work, a backup goes with its signature. */
  lemma {:induction false} SignaturesGoToo(start: Files, runs: seq<Run>, sha: Digest)
    requires Proper(start, runs) && forall r :: r in runs ==> r.stuck == {}
    ensures NoOrphans(Play(start, runs, sha).files)
  {
    hide After, NoOrphans, Before;
    if runs == [] {
      NothingOrphaned(start);
    } else {
      var before, r := runs[..|runs| - 1], runs[|runs| - 1];
      ProperBefore(start, runs);
      SignaturesGoToo(start, before, sha);
      StepNoOrphans(Play(start, before, sha).files, r, sha);
    }
  }

  lemma NothingOrphaned(start: Files)
    requires forall n :: n in start ==> !(PREFIX <= n)
    ensures NoOrphans(start)
  {
    forall n | IsBackupFile(n) ensures PREFIX <= Sidecar(n) {}
  }

  /** The directory holds exactly the newest `k` of all backups ever written. */
  ghost predicate Suffix(s: State, k: nat) {
    k <= |s.history| && BackupNames(s.files) == Elements(NewestFirst(s.history)[..k])
  }

  lemma InvOrdered(s: State, sha: Digest)
    requires Inv(s, sha)
    ensures Ordered(s.history)
  {}

  lemma RotatedNames(files: Files, keep: nat)
    ensures var names := BackupNames(files);
            BackupNames(files - (WithSidecars(names - KeepNewest(names, keep)) - {})) == KeepNewest(names, keep)
  {
    hide IsBackupFile, Above;
    forall n ensures !IsBackupFile(Sidecar(n)) { SidecarIsNoBackup(n); }
  }

  lemma StepNames(files: Files, r: Run, sha: Digest)
    requires Writes(files, r, sha) && r.stuck == {}
    ensures BackupNames(After(files, r, sha))
         == KeepNewest(BackupNames(files) + {NameOf(EntryOf(r))}, Keep(r.retention))
  {
    hide Skips, KeepNewest, BackupNames, WithSidecars, Written, Keep;
    WrittenNames(files, r, sha);
    RotatedNames(Written(files, r, sha), Keep(r.retention));
  }

  /** Adding the latest name and keeping the newest `keep` of the newest `k`. */
  lemma KeepExtends(h: seq<Entry>, e: Entry, k: nat, keep: nat)
    requires Ordered(h + [e]) && k <= |h|
    ensures Least(k + 1, keep) <= |h| + 1
    ensures KeepNewest(Elements(NewestFirst(h)[..k]) + {NameOf(e)}, keep)
         == Elements(NewestFirst(h + [e])[..Least(k + 1, keep)])
  {
    hide KeepNewest, Descending, Elements, Ordered, NewestFirst;
    NamesGrow(h, e);
    NewestFirstDescends(h + [e]);
    KeepTop(NewestFirst(h), NameOf(e), k, keep);
  }

  /** How many backups there are after a run, from `k` before it. */
  ghost function CountAfter(files: Files, r: Run, sha: Digest, k: nat): nat {
    if Writes(files, r, sha) then Least(k + 1, Keep(r.retention)) else if Adds(files, r, sha) then k + 1 else k
  }

  /** A backup cut off is one more. */
  lemma CutExtends(h: seq<Entry>, e: Entry, k: nat)
    requires k <= |h|
    ensures Elements(NewestFirst(h)[..k]) + {NameOf(e)} == Elements(NewestFirst(h + [e])[..k + 1])
  {
    hide NewestFirst, Elements;
    NamesGrow(h, e);
    assert ([NameOf(e)] + NewestFirst(h))[..k + 1] == [NameOf(e)] + NewestFirst(h)[..k];
    ElementsCons(NameOf(e), NewestFirst(h)[..k]);
  }

  lemma StepSuffix(s: State, r: Run, sha: Digest, k: nat)
    requires Ordered(s.history) && InRange(r.now) && forall f :: f in s.history ==> Before(f.stamp, r.now)
    requires Suffix(s, k) && r.stuck == {}
    ensures Suffix(Step(s, r, sha), CountAfter(s.files, r, sha, k))
  {
    hide Skips, Before, KeepNewest, BackupNames, Keep, Elements, Written, WithSidecars, Ordered;
    if Writes(s.files, r, sha) {
      StepNames(s.files, r, sha);
      OrderedGrow(s.history, EntryOf(r));
      KeepExtends(s.history, EntryOf(r), k, Keep(r.retention));
    } else {
      AfterAdding(s.files, r, sha);
      if Adds(s.files, r, sha) {
        WrittenNames(s.files, r, sha);
        CutExtends(s.history, EntryOf(r), k);
      }
    }
  }

  /** How many backups the directory holds. */
  ghost function Kept(start: Files, runs: seq<Run>, sha: Digest): nat {
    if runs == [] then 0 else
      var before, r := runs[..|runs| - 1], runs[|runs| - 1];
      CountAfter(Play(start, before, sha).files, r, sha, Kept(start, before, sha))
  }

  /** The writes cut off since the last one that was not. */
  ghost function CutOffs(start: Files, runs: seq<Run>, sha: Digest): nat {
    if runs == [] then 0 else
      var before, r := runs[..|runs| - 1], runs[|runs| - 1];
      var files := Play(start, before, sha).files;
      if Writes(files, r, sha) then 0 else CutOffs(start, before, sha) + if Adds(files, r, sha) then 1 else 0
  }

  /** When deletions work, the directory is at all times the most recent part of all backups ever written:
      at most ten, and those cut off since the last whole one. */
  lemma {:induction false} MostRecentPart(start: Files, runs: seq<Run>, sha: Digest)
    requires Proper(start, runs) && forall r :: r in runs ==> r.stuck == {}
    ensures Suffix(Play(start, runs, sha), Kept(start, runs, sha))
    ensures Kept(start, runs, sha) <= 10 + CutOffs(start, runs, sha)
    ensures Play(start, runs, sha).history != [] ==> Kept(start, runs, sha) >= 1
    decreases |runs|
  {
    hide Inv, Before, Tries, After, FromRuns, Proper, Suffix, Keep;
    if runs == [] {
      NothingWritten(start, runs, sha);
    } else {
      var before, r := runs[..|runs| - 1], runs[|runs| - 1];
      ProperBefore(start, runs);
      MostRecentPart(start, before, sha);
      PlayInv(start, before, sha);
      var s := Play(start, before, sha);
      EntriesEarlier(s.history, before, r);
      InvOrdered(s, sha);
      StepSuffix(s, r, sha, Kept(start, before, sha));
      KeepRange(r.retention);
    }
  }

  lemma KeepRange(retention: nat)
    ensures 1 <= Keep(retention) <= 10
  {}

  /** A run that writes leaves one backup more than there were, but no more than its retention cut to 1..10, its own
      among them. */
  lemma WritingRunLeaves(start: Files, runs: seq<Run>, sha: Digest)
    requires Proper(start, runs) && runs != [] && forall r :: r in runs ==> r.stuck == {}
    requires Writes(Play(start, runs[..|runs| - 1], sha).files, runs[|runs| - 1], sha)
    ensures var before, r := Play(start, runs[..|runs| - 1], sha), runs[|runs| - 1];
            var names := BackupNames(Play(start, runs, sha).files);
            && |names| == Least(|BackupNames(before.files)| + 1, Most(1, Least(r.retention, 10)))
            && NameOf(EntryOf(r)) in names
  {
    hide Before, Skips, Inv, IsBackupFile, KeepNewest, Proper, Play, BackupNames;
    var before, r := runs[..|runs| - 1], runs[|runs| - 1];
    var s := Play(start, runs, sha);
    ProperBefore(start, runs);
    CountKept(start, before, sha);
    CountKept(start, runs, sha);
    WritesLast(start, runs, sha);
    PlayInv(start, runs, sha);
    NewestSurvives(s, sha);
    KeptIsNamed(BackupNames(s.files), NameOf(EntryOf(r)));
  }

  lemma WritesLast(start: Files, runs: seq<Run>, sha: Digest)
    requires runs != [] && Writes(Play(start, runs[..|runs| - 1], sha).files, runs[|runs| - 1], sha)
    ensures var h := Play(start, runs, sha).history;
            h != [] && h[|h| - 1] == EntryOf(runs[|runs| - 1])
  {
    hide Skips, After;
  }

  lemma CountKept(start: Files, runs: seq<Run>, sha: Digest)
    requires Proper(start, runs) && forall r :: r in runs ==> r.stuck == {}
    ensures |BackupNames(Play(start, runs, sha).files)| == Kept(start, runs, sha)
  {
    hide Before, Play, Kept, Inv, Descending, Elements, BackupNames, Proper;
    var s, k := Play(start, runs, sha), Kept(start, runs, sha);
    MostRecentPart(start, runs, sha);
    PlayInv(start, runs, sha);
    InvOrdered(s, sha);
    NewestFirstDescends(s.history);
    PrefixDescends(NewestFirst(s.history), k);
    DescendingNoDuplicates(NewestFirst(s.history)[..k]);
    CountElements(NewestFirst(s.history)[..k]);
  }

  lemma ListingIsMostRecent(start: Files, runs: seq<Run>, sha: Digest, items: seq<string>)
    requires Proper(start, runs) && forall r :: r in runs ==> r.stuck == {}
    requires Descending(items) && Elements(items) == BackupNames(Play(start, runs, sha).files)
    ensures Kept(start, runs, sha) <= |Play(start, runs, sha).history|
    ensures items == NewestFirst(Play(start, runs, sha).history)[..Kept(start, runs, sha)]
  {
    hide Play, Kept, Descending, Inv;
    MostRecentPart(start, runs, sha);
    PlayInv(start, runs, sha);
    var s, k := Play(start, runs, sha), Kept(start, runs, sha);
    InvOrdered(s, sha);
    NewestFirstDescends(s.history);
    PrefixDescends(NewestFirst(s.history), k);
    DescendingUnique(items, NewestFirst(s.history)[..k]);
  }

  // ---- the newest backup and the database ----

  /** Digests are 32 bytes, and no two different dumps of this history have the same one. */
  ghost predicate NoCollision(runs: seq<Run>, sha: Digest) {
    && Sized(sha)
    && forall q, r :: q in runs && r in runs && sha(q.quietDump) == sha(r.quietDump) ==> q.quietDump == r.quietDump
  }

  ghost predicate Sized(sha: Digest) {
    forall b :: |sha(b)| == 32
  }

  /** A signature that was cut off is not taken for a whole one. */
  lemma CutSignature(sha: Digest, quietDump: Bytes, side: Bytes, d: Bytes)
    requires Sized(sha) && side <= Signature(sha, d) && Trim(side) == Signature(sha, quietDump)
    ensures sha(d) == sha(quietDump)
  {
    HexIsHex(sha(d));
    HexTrims(side);
    HexDistinguishes(sha(d), sha(quietDump));
  }

  lemma SignatureTrims(sha: Digest, quietDump: Bytes)
    ensures Trim(Signature(sha, quietDump)) == Signature(sha, quietDump)
  {
    HexIsHex(sha(quietDump));
    HexTrims(Signature(sha, quietDump));
  }

  lemma SkipMeansUnchanged(s: State, r: Run, sha: Digest)
    requires Inv(s, sha) && Skips(s.files, r, sha) && Sized(sha)
    ensures s.history != []
    ensures var e := s.history[|s.history| - 1]; e.whole && sha(e.quietDump) == sha(r.quietDump)
  {
    hide Name, KeepNewest, Hex, Trim, Before;
    var n :| n in KeepNewest(BackupNames(s.files), 1) && Sidecar(n) in s.files
          && Trim(s.files[Sidecar(n)]) == Signature(sha, r.quietDump);
    assert n in BackupNames(s.files) by { KeptIsNamed(BackupNames(s.files), n); }
    var e := s.history[|s.history| - 1];
    NameIsBackup(e.stamp, e.encrypted);
    LastIsNewest(BackupNames(s.files), s.history);
    CutSignature(sha, r.quietDump, s.files[Sidecar(n)], e.quietDump);
  }

  /** When a run skips, exactly: it may, the newest backup is whole and has its whole signature, and the database has
      that signature now. */
  lemma SkipsIff(start: Files, runs: seq<Run>, sha: Digest, r: Run)
    requires Proper(start, runs) && Sized(sha)
    ensures var s := Play(start, runs, sha);
            Skips(s.files, r, sha)
            <==> && r.skipUnchanged && s.history != []
                 && var e := s.history[|s.history| - 1];
                    && Sidecar(NameOf(e)) in s.files && s.files[Sidecar(NameOf(e))] == Hex(sha(e.quietDump))
                    && sha(e.quietDump) == sha(r.quietDump)
  {
    hide Play, Inv, Proper, Name, KeepNewest, Sized, BackupNames;
    PlayInv(start, runs, sha);
    var s := Play(start, runs, sha);
    if s.history == [] {
      NoEntryNoSkip(s, r, sha);
    } else {
      var e := s.history[|s.history| - 1];
      NewestSurvives(s, sha);
      SignatureTrims(sha, r.quietDump);
      if Skips(s.files, r, sha) {
        SkipMeansUnchanged(s, r, sha);
        WholeSignature(s, r, sha);
      }
    }
  }

  lemma NoEntryNoSkip(s: State, r: Run, sha: Digest)
    requires Inv(s, sha) && s.history == []
    ensures !Skips(s.files, r, sha)
  {
    assert BackupNames(s.files) == {};
    EmptyNewest();
  }

  /** A signature that is found unchanged is there to its last digit. */
  lemma WholeSignature(s: State, r: Run, sha: Digest)
    requires Inv(s, sha) && Skips(s.files, r, sha) && Sized(sha) && s.history != []
    requires KeepNewest(BackupNames(s.files), 1) == {NameOf(s.history[|s.history| - 1])}
    ensures var e := s.history[|s.history| - 1];
            Sidecar(NameOf(e)) in s.files && s.files[Sidecar(NameOf(e))] == Hex(sha(e.quietDump))
  {
    hide Name, KeepNewest, BackupNames, Hex, Trim;
    var e := s.history[|s.history| - 1];
    var side := s.files[Sidecar(NameOf(e))];
    assert e in s.history;
    HexIsHex(sha(e.quietDump));
    HexTrims(side);
  }

  /** A backup that was cut off is never taken for the state of the database: whatever that is, the next
      run does not skip. */
  lemma CutOffIsRedone(start: Files, runs: seq<Run>, sha: Digest, r: Run)
    requires Proper(start, runs) && Sized(sha)
    requires var h := Play(start, runs, sha).history; h != [] && !h[|h| - 1].whole
    ensures !Skips(Play(start, runs, sha).files, r, sha)
  {
    hide Inv, Skips, Play, Proper;
    PlayInv(start, runs, sha);
    var s := Play(start, runs, sha);
    if Skips(s.files, r, sha) { SkipMeansUnchanged(s, r, sha); }
  }

  lemma KeptIsNamed(names: set<string>, n: string)
    requires n in KeepNewest(names, 1)
    ensures n in names
  {}

  /** After every run that did not fail, whether it wrote or skipped, the newest backup is one whose
      signature dump is the database as it is now; its full dump therefore agrees with the database outside
      the log tables exactly when the two dumps of the run that wrote it agreed. */
  lemma NewestAgreesIff(start: Files, runs: seq<Run>, sha: Digest, withoutLogs: Bytes -> Bytes)
    requires Proper(start, runs) && runs != [] && NoCollision(runs, sha)
    requires var before, r := runs[..|runs| - 1], runs[|runs| - 1];
             Skips(Play(start, before, sha).files, r, sha) || (r.produced.Ok? && r.main == Done)
    ensures var s := Play(start, runs, sha);
            && s.history != []
            && var e := s.history[|s.history| - 1];
               && e.whole && (exists r :: r in runs && r.produced.Ok? && e == EntryOf(r))
               && KeepNewest(BackupNames(s.files), 1) == {NameOf(e)}
               && NameOf(e) in s.files && s.files[NameOf(e)] == e.payload
               && e.quietDump == runs[|runs| - 1].quietDump
               && (withoutLogs(e.dump) == runs[|runs| - 1].quietDump <==> withoutLogs(e.dump) == e.quietDump)
  {
    hide Before, KeepNewest, Skips, After, Inv, Proper, BackupNames, Sized;
    var before, r := runs[..|runs| - 1], runs[|runs| - 1];
    var p, s := Play(start, before, sha), Play(start, runs, sha);
    ProperBefore(start, runs);
    PlayInv(start, before, sha);
    PlayInv(start, runs, sha);
    if Skips(p.files, r, sha) {
      assert Sized(sha);
      SkipMeansUnchanged(p, r, sha);
      LastFromRuns(p.history, before);
      SameDump(p.history[|p.history| - 1], before, r, runs, sha);
    } else {
      assert s.history == p.history + [EntryOf(r)];
    }
    NewestSurvives(s, sha);
    LastFromRuns(s.history, runs);
  }

  lemma LastFromRuns(h: seq<Entry>, runs: seq<Run>)
    requires FromRuns(h, runs) && h != []
    ensures var e := h[|h| - 1];
            FromRuns([e], runs) && exists r :: r in runs && r.produced.Ok? && e == EntryOf(r)
  {
    assert h[|h| - 1] in h;
  }

  lemma SameDump(e: Entry, before: seq<Run>, r: Run, runs: seq<Run>, sha: Digest)
    requires NoCollision(runs, sha) && runs == before + [r] && FromRuns([e], before)
    requires sha(e.quietDump) == sha(r.quietDump)
    ensures e.quietDump == r.quietDump
  {
    assert e in [e];
    var q :| q in before && q.produced.Ok? && e == EntryOf(q);
    assert q in runs && r in runs;
  }

  lemma NewestSurvives(s: State, sha: Digest)
    requires Inv(s, sha) && s.history != []
    ensures var e := s.history[|s.history| - 1];
            KeepNewest(BackupNames(s.files), 1) == {NameOf(e)} && NameOf(e) in s.files
            && s.files[NameOf(e)] == e.payload
  {
    hide Name, Before, KeepNewest;
    var e := s.history[|s.history| - 1];
    assert e in s.history;
    NameIsBackup(e.stamp, e.encrypted);
    LastIsNewest(BackupNames(s.files), s.history);
  }

  /** A database that changed between the two dumps of a run and then stays still: every later run skips,
      and the newest backup, the only one, disagrees with the database for good. */
  lemma {:induction false} TornForever(start: Files, first: Run, later: seq<Run>, sha: Digest,
                                       withoutLogs: Bytes -> Bytes)
    requires Proper(start, [first] + later)
    requires first.produced.Ok? && first.main == Done && first.sidecar == Done
    requires forall r :: r in later ==> r.skipUnchanged && r.quietDump == first.quietDump
    requires withoutLogs(first.dump) != first.quietDump
    ensures var s, e := Play(start, [first] + later, sha), EntryOf(first);
            && s == Play(start, [first], sha) && s.history == [e]
            && KeepNewest(BackupNames(s.files), 1) == {NameOf(e)} && NameOf(e) in s.files
            && forall r :: r in later ==> Skips(s.files, r, sha) && withoutLogs(e.dump) != r.quietDump
    decreases |later|
  {
    hide KeepNewest, Inv, FromRuns, Name, BackupNames, After, Skips;
    var all := [first] + later;
    if later == [] {
      FirstRun(start, first, sha);
      assert all == [first];
    } else {
      var rest, r := later[..|later| - 1], later[|later| - 1];
      ProperBefore(start, all);
      assert all[..|all| - 1] == [first] + rest && all[|all| - 1] == r;
      TornForever(start, first, rest, sha, withoutLogs);
      FirstRun(start, first, sha);
      SkipKeeps(Play(start, [first], sha), r, sha);
      SameSkips(Play(start, [first], sha).files, first, r, sha);
      forall q | q in later ensures Skips(Play(start, [first], sha).files, q, sha) {
        SameSkips(Play(start, [first], sha).files, first, q, sha);
      }
    }
  }

  lemma SkipKeeps(s: State, r: Run, sha: Digest)
    ensures Skips(s.files, r, sha) ==> Step(s, r, sha) == s
  {}

  lemma SameSkips(files: Files, first: Run, r: Run, sha: Digest)
    requires Unchanged(files, Signature(sha, first.quietDump))
    requires r.skipUnchanged && r.quietDump == first.quietDump
    ensures Skips(files, r, sha)
  {}

  lemma FirstFiles(start: Files, first: Run, sha: Digest)
    requires BackupNames(start) == {} && Tries(start, first, sha) && first.main == Done && first.sidecar == Done
    ensures var f, name := After(start, first, sha), NameOf(EntryOf(first));
            Sidecar(name) in f && f[Sidecar(name)] == Signature(sha, first.quietDump)
  {
    hide Name, Signature, Skips, IsBackupFile, Less;
    var f, name := Written(start, first, sha), NameOf(EntryOf(first));
    WrittenNames(start, first, sha);
    LessTotal(name, name);
    assert Above({name}, name) == {};
    assert BackupNames(f) == {name};
    assert BackupNames(f) - KeepNewest(BackupNames(f), Keep(first.retention)) == {};
  }

  /** An input of that kind: the row written between the two dumps is missing in the backup. */
  lemma TornInput(sha: Digest, later: Stamp)
    requires InRange(later) && Before(TORN.now, later)
    ensures var runs := [TORN, TORN.(now := later)];
            var s := Play(map[], runs, sha);
            && s.history == [EntryOf(TORN)] && s.files == Play(map[], [TORN], sha).files
            && Skips(s.files, runs[1], sha) && s.history[0].dump != runs[1].quietDump
  {
    hide Skips, After, KeepNewest, BackupNames, Name, Before;
    var id := (b: Bytes) => b;
    var last := TORN.(now := later);
    assert TORN.dump[0] != TORN.quietDump[0];
    assert [TORN] + [last] == [TORN, last];
    assert last in [last];
    TornForever(map[], TORN, [last], sha, id);
  }

  const TORN := Run(Stamp(2026, 1, 1, 0, 0, 0, 0), [1], [2], true, 7, Ok(Produced(false, [1])), Done, Done, {})

  lemma FirstRun(start: Files, first: Run, sha: Digest)
    requires Proper(start, [first]) && first.produced.Ok? && first.main == Done && first.sidecar == Done
    ensures var s, e := Play(start, [first], sha), EntryOf(first);
            && s.history == [e] && KeepNewest(BackupNames(s.files), 1) == {NameOf(e)}
            && NameOf(e) in s.files && Unchanged(s.files, Signature(sha, first.quietDump))
  {
    hide Name, KeepNewest, Signature, Before, Inv;
    var e := EntryOf(first);
    PlayInv(start, [first], sha);
    assert [first][..0] == [];
    assert Play(start, [], sha) == State(start, []);
    assert BackupNames(start) == {};
    EmptyNewest();
    var s := Play(start, [first], sha);
    assert s == Step(State(start, []), first, sha);
    NewestSurvives(s, sha);
    assert Tries(start, first, sha);
    FirstFiles(start, first, sha);
    SignatureTrims(sha, first.quietDump);
  }

  /** Backing up and restoring: after every history whose last run did not fail, restoring the newest file
      with fitting credentials imports a dump that agrees with the database outside the log tables. */
  lemma NewestRestores(start: Files, runs: seq<Run>, sha: Digest, withoutLogs: Bytes -> Bytes, p: BackupCrypto.Prims,
                       s: BackupRestore.Settings, opener: BackupRestore.Opener,
                       later: BackupRestore.Settings, laterOpener: BackupRestore.Opener, x: BackupRestore.Supplied,
                       e: Entry)
    requires Proper(start, runs) && runs != [] && NoCollision(runs, sha)
    requires var before, r := runs[..|runs| - 1], runs[|runs| - 1];
             Skips(Play(start, before, sha).files, r, sha) || (r.produced.Ok? && r.main == Done)
    requires [e] == var h := Play(start, runs, sha).history; if h == [] then [] else [h[|h| - 1]]
    requires withoutLogs(e.dump) == e.quietDump
    requires BackupCrypto.Lawful(p) && BackupRestore.Payload(p, s, opener, e.dump, e.payload)
    requires BackupRestore.Fits(p, s, opener, later, laterOpener, x)
    requires !BackupRestore.WantsEncryption(s, opener) ==> !BackupCrypto.IsEncrypted(e.dump)
    ensures NameOf(e) in Play(start, runs, sha).files
    ensures exists sql :: BackupRestore.RestoredSql(p, later, laterOpener, Play(start, runs, sha).files[NameOf(e)], x)
                          == Ok(sql) && withoutLogs(sql) == runs[|runs| - 1].quietDump
  {
    hide Play, Skips, BackupCrypto.Lawful, BackupRestore.Payload, BackupRestore.Fits, BackupRestore.RestoredSql,
         BackupRestore.WantsEncryption, BackupCrypto.IsEncrypted, KeepNewest, Proper, Name;
    NewestAgreesIff(start, runs, sha, withoutLogs);
    var h := Play(start, runs, sha).history;
    assert [e][0] == h[|h| - 1];
    BackupRestore.BackupRestores(p, s, opener, e.dump, e.payload, later, laterOpener, x);
  }
}
