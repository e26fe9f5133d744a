/** The local backup directory of backend/src/backup.rs: write, skip and rotate, ordered by name alone. */
module Backup {
  import opened Wrappers
  import opened Positional
  import opened Basics
  import opened Rotation
  import opened BackupName
  import opened Crypto
  import opened Hexadecimal

  type Files = map<string, Bytes>

  /** How writing a file ends: a write that is cut off leaves the first `n` bytes. */
  datatype WriteEnd = Done | Refused | Cut(n: nat)

  /** One call of `run_backup`: the two dumps taken one after the other, what the encryption made of the
      first, how the two files get written, and which names cannot be deleted. */
  datatype Run = Run(now: Stamp, dump: Bytes, quietDump: Bytes, skipUnchanged: bool, retention: nat,
                     produced: Result<Produced>, main: WriteEnd, sidecar: WriteEnd, stuck: set<string>)

  datatype Produced = Produced(encrypted: bool, payload: Bytes)

  type Digest = Bytes -> Bytes

  const CANNOT_WRITE := "cannot write backup"

  function Signature(sha: Digest, quietDump: Bytes): Bytes {
    Hex(sha(quietDump))
  }

  /** `retention.clamp(1, 10)`. */
  function Keep(retention: nat): nat {
    if retention < 1 then 1 else if retention > 10 then 10 else retention
  }

  ghost function BackupNames(files: Files): set<string> {
    set n | n in files && IsBackupFile(n)
  }

  /** The greatest backup name carries a sidecar with this signature. */
  ghost predicate Unchanged(files: Files, signature: Bytes) {
    exists n | n in KeepNewest(BackupNames(files), 1) :: Sidecar(n) in files && Trim(files[Sidecar(n)]) == signature
  }

  function WithSidecars(names: set<string>): set<string> {
    names + set n | n in names :: Sidecar(n)
  }

  /** What a write leaves of `data`. */
  function Left(data: Bytes, end: WriteEnd): (left: Bytes)
    ensures left <= data
  {
    if end.Cut? && end.n < |data| then data[..end.n] else data
  }

  function WriteFile(files: Files, name: string, data: Bytes, end: WriteEnd): Files {
    if end == Refused then files else files[name := Left(data, end)]
  }

  /** The directory when the backup and, if that worked, its sidecar have been written. */
  function Written(files: Files, r: Run, sha: Digest): Files
    requires r.produced.Ok?
  {
    var name := Name(r.now, r.produced.value.encrypted);
    var f := WriteFile(files, name, r.produced.value.payload, r.main);
    if r.main == Done then WriteFile(f, Sidecar(name), Signature(sha, r.quietDump), r.sidecar) else f
  }

  ghost predicate Skips(files: Files, r: Run, sha: Digest) {
    r.skipUnchanged && Unchanged(files, Signature(sha, r.quietDump))
  }

  ghost predicate Tries(files: Files, r: Run, sha: Digest) {
    !Skips(files, r, sha) && r.produced.Ok?
  }

  /** The run writes its backup to the end. */
  ghost predicate Writes(files: Files, r: Run, sha: Digest) {
    Tries(files, r, sha) && r.main == Done
  }

  /** The directory after a run. */
  ghost function After(files: Files, r: Run, sha: Digest): Files {
    if !Tries(files, r, sha) then files
    else if r.main != Done then Written(files, r, sha)
    else
      var f := Written(files, r, sha);
      var old_ := BackupNames(f) - KeepNewest(BackupNames(f), Keep(r.retention));
      f - (WithSidecars(old_) - r.stuck)
  }

  class Store {
    var files: Files

    constructor (files: Files)
      ensures this.files == files
    {
      this.files := files;
    }

    /** `read_dir`: every entry once, in no particular order. */
    method ReadDir() returns (order: seq<string>)
      ensures NoDuplicates(order) && Elements(order) == files.Keys
    {
      order := [];
      var rest := files.Keys;
      while rest != {}
        invariant NoDuplicates(order) && Elements(order) == files.Keys - rest && rest <= files.Keys
        decreases |rest|
      {
        var n :| n in rest;
        assert n !in Elements(order);
        ElementsSnoc(order, n);
        order := order + [n];
        rest := rest - {n};
      }
    }

    /** `list_backups`: exactly the backup files, greatest name first. */
    method ListBackups() returns (items: seq<string>)
      ensures Descending(items) && Elements(items) == BackupNames(files)
    {
      var order := ReadDir();
      items := [];
      for i := 0 to |order|
        invariant NoDuplicates(items)
        invariant forall n :: n in items <==> n in order[..i] && IsBackupFile(n)
      {
        assert order[..i + 1] == order[..i] + [order[i]];
        assert order[i] !in order[..i];
        if IsBackupFile(order[i]) { items := items + [order[i]]; }
      }
      assert order[..|order|] == order;
      assert forall n :: n in files <==> n in Elements(order);
      assert Elements(items) == BackupNames(files);
      items := SortDescending(items);
    }

    /** The first `keep` names stay; the others go with their sidecars, as far as deleting works. */
    method Rotate(keep: nat, stuck: set<string>)
      modifies this
      ensures var names := BackupNames(old(files));
              files == old(files) - (WithSidecars(names - KeepNewest(names, keep)) - stuck)
    {
      hide KeepNewest, WithSidecars, Descending;
      var all := ListBackups();
      FirstAreNewest(all, keep);
      DescendingNoDuplicates(all);
      var i := if keep < |all| then keep else |all|;
      ghost var first := i;
      assert all[..|all|] == all;
      assert KeepNewest(BackupNames(files), keep) == Elements(all[..first]);
      NothingGone(files, stuck);
      assert all[first..first] == [];
      while i < |all|
        invariant first <= i <= |all|
        invariant files == old(files) - (WithSidecars(Elements(all[first..i])) - stuck)
      {
        assert all[first..i + 1] == all[first..i] + [all[i]];
        ElementsSnoc(all[first..i], all[i]);
        GoneStep(old(files), Elements(all[first..i]), all[i], stuck);
        files := files - ({all[i], Sidecar(all[i])} - stuck);
        i := i + 1;
      }
      Rest(all, first);
      assert all[first..|all|] == all[first..];
    }

    /** `run_backup`, without the push to a remote destination. */
    method RunBackup(r: Run, sha: Digest) returns (outcome: Result<Option<string>>)
      modifies this
      ensures files == After(old(files), r, sha)
      ensures outcome == if Skips(old(files), r, sha) then Ok(None)
                         else if r.produced.Err? then Err(r.produced.error)
                         else if r.main != Done then Err(CANNOT_WRITE)
                         else Ok(Some(Name(r.now, r.produced.value.encrypted)))
    {
      hide Keep, KeepNewest, Descending, IsBackupFile, Name, Trim;
      var signature := Signature(sha, r.quietDump);
      if r.skipUnchanged {
        var items := ListBackups();
        FirstAreNewest(items, 1);
        if items != [] {
          assert Elements(items[..1]) == {items[0]};
          var side := Sidecar(items[0]);
          if side in files && Trim(files[side]) == signature { return Ok(None); }
        } else {
          assert BackupNames(files) == {};
          EmptyNewest();
        }
      }
      if r.produced.Err? { return Err(r.produced.error); }
      var name := Name(r.now, r.produced.value.encrypted);
      files := WriteFile(files, name, r.produced.value.payload, r.main);
      if r.main != Done { return Err(CANNOT_WRITE); }
      files := WriteFile(files, Sidecar(name), signature, r.sidecar);
      assert files == Written(old(files), r, sha);
      Rotate(Keep(r.retention), r.stuck);
      return Ok(Some(name));
    }
  }

  /** In any directory: white space around the signature of the greatest backup does not matter, and a run that may not
      skip never does. */
  lemma SkipsOnSignature(files: Files, r: Run, sha: Digest, n: string, a: Bytes, b: Bytes)
    requires KeepNewest(BackupNames(files), 1) == {n}
    requires forall i :: 0 <= i < |a| ==> a[i] == 32 || 9 <= a[i] <= 13
    requires forall i :: 0 <= i < |b| ==> b[i] == 32 || 9 <= b[i] <= 13
    requires Sidecar(n) in files && files[Sidecar(n)] == a + Hex(sha(r.quietDump)) + b
    ensures Skips(files, r, sha) <==> r.skipUnchanged
  {
    hide KeepNewest, Trim, BackupNames;
    var t := Hex(sha(r.quietDump));
    HexIsHex(sha(r.quietDump));
    if t != [] { assert NibbleOf(t[0]).Some? && NibbleOf(t[|t| - 1]).Some?; }
    TrimIs(a, t, b);
  }

  /** Which backups a writing run leaves, exactly: of those that were there and its own, the ones that cannot be deleted
      and the ones that fewer others than are kept exceed. */
  lemma StaysIff(files: Files, r: Run, sha: Digest, n: string)
    requires Writes(files, r, sha) && IsBackupFile(n)
    ensures var all := BackupNames(files) + {Name(r.now, r.produced.value.encrypted)};
            n in After(files, r, sha)
            <==> n in all && (n in r.stuck || |Above(all, n)| < Most(1, Least(r.retention, 10)))
  {
    hide Name, Signature, IsBackupFile, Skips, Less;
    var name := Name(r.now, r.produced.value.encrypted);
    var f := Written(files, r, sha);
    NameIsBackup(r.now, r.produced.value.encrypted);
    forall m ensures !IsBackupFile(Sidecar(m)) { SidecarIsNoBackup(m); }
    assert BackupNames(f) == BackupNames(files) + {name};
  }

  /** The signature that a writing run leaves beside its backup: that of the database without its logs, unless it could
      not be written. */
  lemma SignatureLeft(files: Files, r: Run, sha: Digest)
    requires Writes(files, r, sha) && Name(r.now, r.produced.value.encrypted) in After(files, r, sha)
    requires Name(r.now, r.produced.value.encrypted) !in r.stuck
    ensures var side, f := Sidecar(Name(r.now, r.produced.value.encrypted)), After(files, r, sha);
            && (r.sidecar == Done ==> side in f && f[side] == Hex(sha(r.quietDump)))
            && (r.sidecar == Refused ==> (side in f <==> side in files) && (side in f ==> f[side] == files[side]))
  {
    hide Name, Hex, IsBackupFile, Skips, Less;
    var name := Name(r.now, r.produced.value.encrypted);
    NameIsBackup(r.now, r.produced.value.encrypted);
    SidecarIsNoBackup(name);
    WrittenSurvivesIff(files, r, sha);
    forall n | Sidecar(n) == Sidecar(name) ensures n == name { SidecarInjective(n, name); }
  }

  /** The backup a run has written survives its own rotation exactly when it cannot be deleted, or fewer
      other backups than are kept have a greater name. */
  lemma WrittenSurvivesIff(files: Files, r: Run, sha: Digest)
    requires Writes(files, r, sha)
    ensures var name := Name(r.now, r.produced.value.encrypted);
            && (name in After(files, r, sha)
                <==> name in r.stuck || |Above(BackupNames(files), name)| < Most(1, Least(r.retention, 10)))
            && (name in After(files, r, sha) ==> After(files, r, sha)[name] == r.produced.value.payload)
  {
    hide Name, Signature, IsBackupFile, Skips, Less;
    var name := Name(r.now, r.produced.value.encrypted);
    var f := Written(files, r, sha);
    NameIsBackup(r.now, r.produced.value.encrypted);
    forall n ensures !IsBackupFile(Sidecar(n)) { SidecarIsNoBackup(n); }
    LessTotal(name, name);
    assert Above(BackupNames(f), name) == Above(BackupNames(files), name);
  }

  lemma NothingGone(f: Files, stuck: set<string>)
    ensures f - (WithSidecars(Elements([])) - stuck) == f
  {}

  lemma GoneStep(f: Files, done: set<string>, n: string, stuck: set<string>)
    ensures f - (WithSidecars(done) - stuck) - ({n, Sidecar(n)} - stuck) == f - (WithSidecars(done + {n}) - stuck)
  {
    assert WithSidecars(done + {n}) == WithSidecars(done) + {n, Sidecar(n)};
  }

  lemma EmptyNewest()
    ensures KeepNewest({}, 1) == {}
  {}

  lemma Rest(all: seq<string>, i: nat)
    requires i <= |all| && NoDuplicates(all)
    ensures Elements(all[i..]) == Elements(all) - Elements(all[..i])
  {
    forall n ensures n in all[i..] <==> n in all && n !in all[..i] {
      if n in all {
        var j :| 0 <= j < |all| && all[j] == n;
        if j < i { assert all[..i][j] == n; } else { assert all[i..][j - i] == n; }
      }
    }
  }
}
