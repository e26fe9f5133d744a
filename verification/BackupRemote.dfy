/** The copy of a backup in a mounted path (backend/src/backup_remote.rs). */
module BackupRemote {
  import opened Basics
  import opened Rotation
  import opened BackupName
  import opened Backup
  import opened Crypto

  /** What pruning looks at: everything of the prefix but signatures, not only backups. */
  predicate Counted(n: string) {
    PREFIX <= n && !EndsWith(n, ".sig")
  }

  ghost function CountedNames(files: Files): set<string> {
    set n | n in files && Counted(n)
  }

  /** `retention.clamp(1, 100)`. */
  function RemoteKeep(retention: nat): nat {
    if retention < 1 then 1 else if retention > 100 then 100 else retention
  }

  ghost function Pushed(files: Files, filename: string, data: Bytes, retention: nat, stuck: set<string>): Files {
    var f := files[filename := data];
    f - (CountedNames(f) - KeepNewest(CountedNames(f), RemoteKeep(retention)) - stuck)
  }

  /** The counted names of the directory, greatest first. */
  method ListCounted(dir: Store) returns (names: seq<string>)
    ensures Descending(names) && Elements(names) == CountedNames(dir.files)
  {
    hide Descending, Counted;
    var order := dir.ReadDir();
    names := [];
    for i := 0 to |order|
      invariant NoDuplicates(names)
      invariant forall n :: n in names <==> n in order[..i] && Counted(n)
    {
      assert order[..i + 1] == order[..i] + [order[i]];
      assert order[i] !in order[..i];
      if Counted(order[i]) { names := names + [order[i]]; }
    }
    assert order[..|order|] == order;
    assert forall n :: n in dir.files <==> n in Elements(order);
    assert Elements(names) == CountedNames(dir.files);
    names := SortDescending(names);
  }

  /** `push_path`, once the directory is there and the file is written. */
  method PushPath(dir: Store, filename: string, data: Bytes, retention: nat, stuck: set<string>)
    modifies dir
    ensures dir.files == Pushed(old(dir.files), filename, data, retention, stuck)
  {
    hide KeepNewest, CountedNames, Descending, Elements, RemoteKeep;
    dir.files := dir.files[filename := data];
    ghost var f := dir.files;
    var names := ListCounted(dir);
    var keep := RemoteKeep(retention);
    FirstAreNewest(names, keep);
    DescendingNoDuplicates(names);
    assert names[..|names|] == names;
    var first := if keep < |names| then keep else |names|;
    Rest(names, first);
    NoElements(names[first..first]);
    for i := first to |names|
      invariant dir.files == f - (Elements(names[first..i]) - stuck)
    {
      assert names[first..i + 1] == names[first..i] + [names[i]];
      ElementsSnoc(names[first..i], names[i]);
      RemoveStep(f, Elements(names[first..i]), names[i], stuck);
      dir.files := dir.files - ({names[i]} - stuck);
    }
    assert names[first..|names|] == names[first..];
  }

  lemma NoElements(r: seq<string>)
    requires |r| == 0
    ensures Elements(r) == {}
  {}

  lemma RemoveStep(f: Files, done: set<string>, n: string, stuck: set<string>)
    ensures f - (done - stuck) - ({n} - stuck) == f - (done + {n} - stuck)
  {}

  /** Which counted names a push leaves, exactly. */
  lemma PushKeepsIff(files: Files, filename: string, data: Bytes, retention: nat, stuck: set<string>, n: string)
    requires Counted(n)
    ensures var all := CountedNames(files) + if Counted(filename) then {filename} else {};
            n in Pushed(files, filename, data, retention, stuck)
            <==> n in all && (n in stuck || |Above(all, n)| < Most(1, Least(retention, 100)))
  {
    hide Counted;
    var all := CountedNames(files) + if Counted(filename) then {filename} else {};
    assert CountedNames(files[filename := data]) == all;
  }

  /** The file just pushed stays exactly when it is not counted, cannot be deleted, or fewer other counted
      names than are kept sort above it. */
  lemma PushSurvivesIff(files: Files, filename: string, data: Bytes, retention: nat, stuck: set<string>)
    ensures filename in Pushed(files, filename, data, retention, stuck)
       <==> !Counted(filename) || filename in stuck
            || |Above(CountedNames(files), filename)| < Most(1, Least(retention, 100))
    ensures filename in Pushed(files, filename, data, retention, stuck) ==>
              Pushed(files, filename, data, retention, stuck)[filename] == data
  {
    hide Counted;
    var f := files[filename := data];
    LessTotal(filename, filename);
    assert Above(CountedNames(f), filename) == Above(CountedNames(files), filename);
  }

  /** With nothing but earlier backups there, the new one stays, and files of other kinds are never touched. */
  lemma CleanPushSurvives(files: Files, s: Stamp, encrypted: bool, data: Bytes, retention: nat, stuck: set<string>)
    requires InRange(s)
    requires forall n :: n in CountedNames(files) ==> exists t, e :: InRange(t) && Before(t, s) && n == Name(t, e)
    ensures Name(s, encrypted) in Pushed(files, Name(s, encrypted), data, retention, stuck)
  {
    hide Counted, Name, Before, Less;
    var name := Name(s, encrypted);
    forall n | n in CountedNames(files) ensures !Less(name, n) {
      var t, e :| InRange(t) && Before(t, s) && n == Name(t, e);
      NameOrder(t, e, s, encrypted);
      LessTotal(name, n);
    }
    assert Above(CountedNames(files), name) == {};
    PushSurvivesIff(files, name, data, retention, stuck);
  }

  /** Signatures are not counted. */
  lemma SignaturesNotCounted(n: string)
    ensures !Counted(Sidecar(n))
  {
    assert Sidecar(n)[|n|..] == ".sig";
  }

  /** What pruning counts: names of the prefix that are no signatures. */
  lemma CountedMeans(n: string)
    ensures Counted(n) <==> "akamana-" <= n && forall m :: n != m + ".sig"
  {
    if EndsWith(n, ".sig") { assert n == n[..|n| - 4] + ".sig"; }
    forall m ensures EndsWith(m + ".sig", ".sig") { assert (m + ".sig")[|m|..] == ".sig"; }
  }

  /** What is pruned is of the prefix and no signature; everything else stays. */
  lemma OthersUntouched(files: Files, filename: string, data: Bytes, retention: nat, stuck: set<string>, n: string)
    requires n in files && n != filename && (!("akamana-" <= n) || exists m :: n == m + ".sig")
    ensures n in Pushed(files, filename, data, retention, stuck)
         && Pushed(files, filename, data, retention, stuck)[n] == files[n]
  {
    CountedMeans(n);
    hide Counted;
  }

  const PROBE := "akamana-connftest.tmp"

  /** A connection probe that was left behind sorts above every backup and, with one file kept, costs each
      new backup its remote copy. */
  lemma LeftProbeCostsBackup(s: Stamp, encrypted: bool, data: Bytes, probe: Bytes)
    requires InRange(s)
    ensures Name(s, encrypted) !in Pushed(map[PROBE := probe], Name(s, encrypted), data, 1, {})
  {
    hide StampText;
    var name, files: Files := Name(s, encrypted), map[PROBE := probe];
    var tail := StampText(s) + if encrypted then ".sql.ezbak" else ".sql";
    assert name == PREFIX + tail && PROBE == PREFIX + "connftest.tmp";
    LessSameLength(PREFIX, PREFIX, tail, "connftest.tmp");
    DigitFirst(s);
    assert Counted(PROBE) by { ProbeCounted(); }
    assert Counted(name) by { NameCounted(s, encrypted); }
    assert PROBE in Above(CountedNames(files), name);
    assert |Above(CountedNames(files), name)| >= 1;
    PushSurvivesIff(files, name, data, 1, {});
  }

  lemma DigitFirst(s: Stamp)
    ensures StampText(s)[0] <= '9'
  {}

  lemma ProbeCounted()
    ensures Counted(PROBE)
  {
    if EndsWith(PROBE, ".sig") { LastCharacter(PROBE, ".sig"); }
  }

  lemma NameCounted(s: Stamp, encrypted: bool)
    ensures Counted(Name(s, encrypted))
  {
    var n := Name(s, encrypted);
    if EndsWith(n, ".sig") { LastCharacter(n, ".sig"); }
  }
}
