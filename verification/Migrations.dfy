/** Schema migrations of backend/src/db.rs.  There is no version table: every start reruns every statement,
    and may be interrupted between any two of them. */
module Migrations {
  import opened Wrappers
  import opened Basics

  datatype TableName =
    | Users | Machines | RootCa | TlsKeys | SshKeys | CrlEntries | AuditLogs | Settings | UserProfiles | AccessLogs
    | NotificationEvents | SecurityEvents | MachineMonitorPorts | Applications | Credentials | HostCredentials
    | HostApplications | DeploymentJobs | DeploymentJournal | CertbotConfigs | ApiTokens | SshCas | SshCertificates
    | BackupRecipients | PasswordResetTokens | UserRecoveryCodes | WebauthnCredentials | WebauthnChallenges
    | LoginAttempts | TlsKeyMachines

  /** Columns, indexes and foreign keys. */
  datatype Name =
    | MachineId | CreatedAt | FkCrlTlsKey | EventType | SourceIp | IdxSecurityEventsCreatedAt
    | IdxSecurityEventsTypeIp | IdxTlsKeysRootCa | RootCaId | CertLevel | UniqMachineMonitorPort | UniqMmpPortVhost
    | FkMachineMonitorPortsMachine | Port | MonitorEnabled | LastCheckedAt | IdxMachineMonitorDue
    | HostApplicationId | SniHost | CaId | IdxCrlRootCa | ParentCertId | Cipher | KeyLength | UsagesJson
    | SshUsername | MachineName | Organization | Description | AllowPrivateKeyExport | IsRevoked | RevokedAt
    | RevokedReason | AutoRenew | RenewDaysBefore | LastStatus | LastStatusAt | AlertEmail | TestUrl | MonitorOnly
    | CertbotConfigId | JobType | OsType | Country | State | Locality | OrgUnit | TlsSupportJson | SansJson
    | EkuPurpose | ExpectedCertFormat | Email | TotpSecretEnc | TotpEnabled | TotpConfirmedAt | DefaultUseSudo
    | DefaultStagingDir | IsRetired | UseSudo | StagingDir | CaFingerprintSha256 | IsImported | NotAfter
    | CertTrustJson | TlsKeyId

  datatype SqlType = Char(n: nat) | Varchar(n: nat) | TinyInt(n: nat) | Int | Boolean | Datetime | Text | Json

  /** A default value; words are numbered. */
  datatype Value = Number(n: int) | Flag(b: bool) | Word(no: nat)

  datatype Def =
    | Whole
    | Nullable(sqlType: SqlType)
    | Required(sqlType: SqlType)
    | Defaulted(sqlType: SqlType, value: Value)
    | Key(unique: bool, columns: seq<Name>)

  /** A table or a part of one. */
  datatype Object =
    | Table(t: TableName)
    | Column(t: TableName, name: Name)
    | Index(t: TableName, name: Name)
    | ForeignKey(t: TableName, name: Name)

  /** Objects and their definitions. */
  type Schema = map<Object, Def>

  /** The statements that occur.  A new table needs the tables it refers to, a new index its columns; an index
      that a foreign key relies on can only be dropped while `instead` covers the key. */
  datatype Stmt =
    | Create(t: TableName, parts: map<Object, Def>, refs: set<TableName>)
    | Add(o: Object, def: Def, columns: set<Object>)
    | Modify(o: Object, def: Def)
    | Drop(o: Object, reliedOnBy: Option<Object>, instead: Option<Object>)
    | Data

  predicate Succeeds(st: Stmt, s: Schema) {
    match st
    case Create(t, _, refs) => Table(t) in s || forall r :: r in refs ==> Table(r) in s
    case Add(o, _, columns) => Table(o.t) in s && (o in s || columns <= s.Keys)
    case Modify(o, _) => Table(o.t) in s && o in s
    case Drop(o, fk, instead) =>
      Table(o.t) in s && (o !in s || fk == None || fk.value !in s || (instead.Some? && instead.value in s))
    case Data => true
  }

  /** One statement; None is an error of the database. */
  function Apply(st: Stmt, s: Schema): Option<Schema> {
    if !Succeeds(st, s) then None else
      match st
      case Create(t, parts, _) => if Table(t) in s then Some(s) else Some(s + parts[Table(t) := Whole])
      case Add(o, def, _) => if o in s then Some(s) else Some(s[o := def])
      case Modify(o, def) => Some(s[o := def])
      case Drop(o, _, _) => Some(s - {o})
      case Data => Some(s)
  }

  /** One start that gets to the end of `script`. */
  function Run(script: seq<Stmt>, s: Schema): Option<Schema> {
    if script == [] then Some(s) else
      match Run(script[..|script| - 1], s)
      case None => None
      case Some(s') => Apply(script[|script| - 1], s')
  }

  /** Starts that are interrupted after `cuts[0]`, `cuts[1]`, ... statements, unless they end before. */
  function Restarts(script: seq<Stmt>, cuts: seq<nat>): Option<Schema> {
    if cuts == [] then Some(map[]) else
      match Restarts(script, cuts[..|cuts| - 1])
      case None => None
      case Some(s) => Run(script[..Least(cuts[|cuts| - 1], |script|)], s)
  }

  class Database {
    var schema: Schema

    constructor (schema: Schema)
      ensures this.schema == schema
    {
      this.schema := schema;
    }

    /** `run_migrations`: file by file, statement by statement, up to the first error or until the process is
        interrupted after `cut` statements. */
    method RunMigrations(files: seq<seq<Stmt>>, cut: nat) returns (ok: bool)
      modifies this
      ensures var script := Flat(files)[..Least(cut, |Flat(files)|)];
              && (ok ==> Run(script, old(schema)) == Some(schema))
              && (!ok ==> exists i | 0 <= i < |script| ::
                    Run(script[..i], old(schema)) == Some(schema) && Apply(script[i], schema) == None)
    {
      hide Apply, Run, Flat;
      ghost var all := Flat(files);
      var count := 0;
      RunNothing(schema);
      FlatNothing();
      FlatPrefix(files, 0);
      for f := 0 to |files|
        invariant count == |Flat(files[..f])| <= cut && Flat(files[..f]) <= all
        invariant Run(all[..count], old(schema)) == Some(schema)
      {
        FlatSnoc(files, f);
        FlatPrefix(files, f + 1);
        for i := 0 to |files[f]|
          invariant count == |Flat(files[..f])| + i <= cut
          invariant Run(all[..count], old(schema)) == Some(schema)
        {
          if count == cut { return true; }
          assert Flat(files[..f + 1])[count] == files[f][i] == all[count];
          RunNext(all, count, old(schema));
          var next := Apply(files[f][i], schema);
          if next == None {
            ghost var script := all[..Least(cut, |all|)];
            assert script[..count] == all[..count] && script[count] == all[count];
            return false;
          }
          schema := next.value;
          count := count + 1;
        }
      }
      assert files[..|files|] == files;
      return true;
    }
  }

  lemma RunNext(script: seq<Stmt>, i: nat, s: Schema)
    requires i < |script|
    ensures Run(script[..i + 1], s) == match Run(script[..i], s) case None => None case Some(s') => Apply(script[i], s')
  {
    hide Apply;
    assert script[..i + 1][..i] == script[..i];
  }

  function Flat(files: seq<seq<Stmt>>): seq<Stmt> {
    if files == [] then [] else Flat(files[..|files| - 1]) + files[|files| - 1]
  }

  lemma FlatNothing()
    ensures Flat([]) == []
  {}

  lemma FlatSnoc(files: seq<seq<Stmt>>, f: nat)
    requires f < |files|
    ensures Flat(files[..f + 1]) == Flat(files[..f]) + files[f]
  {
    assert files[..f + 1][..f] == files[..f];
  }

  lemma RunSnoc(a: seq<Stmt>, b: seq<Stmt>, st: Stmt, s: Schema)
    ensures Run(a + (b + [st]), s) == match Run(a + b, s) case None => None case Some(s') => Apply(st, s')
  {
    hide Apply;
    var all := a + (b + [st]);
    assert all[..|all| - 1] == a + b && all[|all| - 1] == st;
  }

  lemma {:induction false} RunConcat(a: seq<Stmt>, b: seq<Stmt>, s: Schema)
    ensures Run(a + b, s) == match Run(a, s) case None => None case Some(s') => Run(b, s')
  {
    hide Apply;
    if b == [] {
      assert a + b == a;
    } else {
      var t := b[..|b| - 1];
      RunConcat(a, t, s);
      RunSnoc(a, t, b[|b| - 1], s);
      assert t + [b[|b| - 1]] == b;
    }
  }

  lemma {:induction false} FlatPrefix(files: seq<seq<Stmt>>, f: nat)
    requires f <= |files|
    ensures Flat(files[..f]) <= Flat(files)
  {
    if f == |files| {
      assert files[..f] == files;
    } else {
      FlatPrefix(files[..|files| - 1], f);
      assert files[..|files| - 1][..f] == files[..f];
    }
  }

  // ---- convergence ----

  predicate Introduces(st: Stmt, o: Object) {
    match st
    case Create(t, parts, _) => o == Table(t) || o in parts
    case Add(p, _, _) => o == p
    case _ => false
  }

  /** `later` leaves alone what `st` did: nothing added is dropped, nothing modified is modified otherwise or
      dropped, nothing dropped is introduced again. */
  predicate Respects(later: Stmt, st: Stmt) {
    match st
    case Create(t, _, _) => !(later.Drop? && later.o == Table(t))
    case Add(o, _, _) => !(later.Drop? && later.o == o)
    case Modify(o, def) => !(later.Drop? && later.o == o) && (later.Modify? && later.o == o ==> later.def == def)
    case Drop(o, _, _) => !Introduces(later, o)
    case Data => true
  }

  /** A CREATE TABLE defines parts of its own table; tables and columns are not dropped. */
  predicate WellMade(st: Stmt) {
    && (st.Create? ==> forall o :: o in st.parts ==> o.t == st.t && !o.Table?)
    && (st.Drop? ==> st.o.Index? || st.o.ForeignKey?)
  }

  predicate Orderly(script: seq<Stmt>) {
    && (forall i :: 0 <= i < |script| ==> WellMade(script[i]))
    && (forall i, j :: 0 <= i < j < |script| ==> Respects(script[j], script[i]))
  }

  /** The statement has nothing left to do. */
  predicate Settled(st: Stmt, s: Schema) {
    match st
    case Create(t, _, _) => Table(t) in s
    case Add(o, _, _) => Table(o.t) in s && o in s
    case Modify(o, def) => Table(o.t) in s && o in s && s[o] == def
    case Drop(o, _, _) => Table(o.t) in s && o !in s
    case Data => true
  }

  lemma SettledIsNoOp(st: Stmt, s: Schema)
    requires Settled(st, s)
    ensures Apply(st, s) == Some(s)
  {
    match st
    case Modify(o, def) => assert s[o := def] == s;
    case Drop(o, _, _) => assert s - {o} == s;
    case _ =>
  }

  lemma AppliedIsSettled(st: Stmt, s: Schema)
    requires Apply(st, s).Some? && WellMade(st)
    ensures Settled(st, Apply(st, s).value)
  {}

  lemma SettledStays(st: Stmt, later: Stmt, s: Schema)
    requires Settled(st, s) && Apply(later, s).Some? && Respects(later, st) && WellMade(later)
    ensures Settled(st, Apply(later, s).value)
  {}

  /** Once executed, a statement stays settled for the rest of an uninterrupted run. */
  lemma {:induction false} PrefixSettled(script: seq<Stmt>, i: nat, m: nat)
    requires Orderly(script) && i < m <= |script| && Run(script[..m], map[]).Some?
    ensures Settled(script[i], Run(script[..m], map[]).value)
    decreases m
  {
    hide Settled, Apply, Respects, WellMade;
    var before := script[..m - 1];
    assert script[..m][..m - 1] == before;
    var s := Run(before, map[]).value;
    if i == m - 1 {
      AppliedIsSettled(script[i], s);
    } else {
      PrefixSettled(script, i, m - 1);
      SettledStays(script[i], script[m - 1], s);
    }
  }

  /** Rerunning what was already run changes nothing at any point. */
  lemma {:induction false} RerunIsNoOp(script: seq<Stmt>, c: nat, m: nat)
    requires Orderly(script) && c <= m <= |script| && Run(script[..m], map[]).Some?
    ensures Run(script[..c], Run(script[..m], map[]).value) == Run(script[..m], map[])
    decreases c
  {
    hide Settled, Apply, Orderly;
    if c == 0 {
      assert script[..c] == [];
    } else {
      assert script[..c][..c - 1] == script[..c - 1];
      RerunIsNoOp(script, c - 1, m);
      PrefixSettled(script, c - 1, m);
      SettledIsNoOp(script[c - 1], Run(script[..m], map[]).value);
    }
  }

  lemma {:induction false} PrefixRuns(script: seq<Stmt>, m: nat)
    requires m <= |script| && Run(script, map[]).Some?
    ensures Run(script[..m], map[]).Some?
  {
    assert script == script[..m] + script[m..];
    RunConcat(script[..m], script[m..], map[]);
  }

  /** A start after an interruption continues where the furthest start got. */
  lemma RunResumes(script: seq<Stmt>, c: nat, m: nat)
    requires Orderly(script) && c <= |script| && m <= |script| && Run(script, map[]).Some?
    requires Run(script[..m], map[]).Some?
    ensures Run(script[..c], Run(script[..m], map[]).value) == Run(script[..Most(c, m)], map[])
  {
    hide Orderly, Run;
    if c <= m {
      RerunIsNoOp(script, c, m);
    } else {
      assert script[..c] == script[..m] + script[m..c];
      RunConcat(script[..m], script[m..c], map[]);
      RunConcat(script[..m], script[m..c], Run(script[..m], map[]).value);
      RerunIsNoOp(script, m, m);
    }
  }

  /** How far the furthest start got. */
  function Furthest(cuts: seq<nat>): nat {
    if cuts == [] then 0 else Most(cuts[|cuts| - 1], Furthest(cuts[..|cuts| - 1]))
  }

  /** After any number of starts interrupted anywhere, no statement ever fails and the schema is exactly that
      of one uninterrupted run up to the furthest point reached. */
  lemma {:induction false} RestartsConverge(script: seq<Stmt>, cuts: seq<nat>)
    requires Orderly(script) && Run(script, map[]).Some?
    ensures Restarts(script, cuts).Some?
    ensures Restarts(script, cuts) == Run(script[..Least(Furthest(cuts), |script|)], map[])
    decreases |cuts|
  {
    hide Orderly, Run;
    if cuts == [] {
      assert script[..0] == [];
      RunNothing(map[]);
    } else {
      var before, c := cuts[..|cuts| - 1], cuts[|cuts| - 1];
      RestartsConverge(script, before);
      RunResumes(script, Least(c, |script|), Least(Furthest(before), |script|));
      PrefixRuns(script, Least(Furthest(cuts), |script|));
    }
  }

  /** A complete start after any interruptions gives the schema of one clean run, and a further one changes
      nothing. */
  lemma CompleteStart(script: seq<Stmt>, cuts: seq<nat>)
    requires Orderly(script) && Run(script, map[]).Some?
    ensures Restarts(script, cuts).Some?
    ensures Run(script, Restarts(script, cuts).value) == Run(script, map[])
    ensures Run(script, Run(script, map[]).value) == Run(script, map[])
  {
    hide Orderly, Run;
    var reached := Least(Furthest(cuts), |script|);
    RestartsConverge(script, cuts);
    assert script[..|script|] == script;
    PrefixRuns(script, reached);
    RunResumes(script, |script|, reached);
    RunResumes(script, |script|, |script|);
  }

  /** What a statement dropped is in no schema that any later start, complete or not, can reach. */
  lemma DroppedStaysAway(script: seq<Stmt>, cuts: seq<nat>, d: nat)
    requires Orderly(script) && Run(script, map[]).Some?
    requires d < Furthest(cuts) && d < |script| && script[d].Drop?
    ensures Restarts(script, cuts).Some? && script[d].o !in Restarts(script, cuts).value
  {
    hide Orderly, Run;
    RestartsConverge(script, cuts);
    PrefixSettled(script, d, Least(Furthest(cuts), |script|));
  }

  // ---- no statement fails ----

  /** Tables in the order of their creation. */
  function TableNo(t: TableName): nat {
    match t
    case Users => 0 case Machines => 1 case RootCa => 2 case TlsKeys => 3 case SshKeys => 4 case CrlEntries => 5
    case AuditLogs => 6 case Settings => 7 case UserProfiles => 8 case AccessLogs => 9 case NotificationEvents => 10
    case SecurityEvents => 11 case MachineMonitorPorts => 12 case Applications => 13 case Credentials => 14
    case HostCredentials => 15 case HostApplications => 16 case DeploymentJobs => 17 case DeploymentJournal => 18
    case CertbotConfigs => 19 case ApiTokens => 20 case SshCas => 21 case SshCertificates => 22
    case BackupRecipients => 23 case PasswordResetTokens => 24 case UserRecoveryCodes => 25
    case WebauthnCredentials => 26 case WebauthnChallenges => 27 case LoginAttempts => 28 case TlsKeyMachines => 29
  }

  /** With the tables numbered below `made` there, the statement finds its tables, and a new table is the next. */
  predicate FindsTables(st: Stmt, made: nat) {
    match st
    case Create(t, _, refs) => TableNo(t) == made && forall r :: r in refs ==> TableNo(r) < made
    case Add(o, _, _) => TableNo(o.t) < made
    case Modify(o, _) => TableNo(o.t) < made
    case Drop(o, _, _) => TableNo(o.t) < made
    case Data => true
  }

  function Made(st: Stmt, made: nat): nat {
    if st.Create? then made + 1 else made
  }

  predicate TablesFrom(script: seq<Stmt>, i: nat, made: nat, limit: nat)
    requires i <= |script|
    decreases |script| - i
  {
    if i == |script| then made == limit
    else FindsTables(script[i], made) && TablesFrom(script, i + 1, Made(script[i], made), limit)
  }

  /** With the columns and indexes of `have` there, the statement finds its own. */
  predicate FindsParts(st: Stmt, have: set<Object>) {
    match st
    case Add(_, _, columns) => columns <= have
    case Modify(o, _) => o in have
    case Drop(_, fk, instead) => fk == None || (instead.Some? && instead.value in have)
    case _ => true
  }

  function Grown(st: Stmt, have: set<Object>): set<Object> {
    match st
    case Create(_, parts, _) => have + parts.Keys
    case Add(o, _, _) => have + {o}
    case Drop(o, _, _) => have - {o}
    case _ => have
  }

  predicate PartsFrom(script: seq<Stmt>, i: nat, have: set<Object>)
    requires i <= |script|
    decreases |script| - i
  {
    i == |script| || (FindsParts(script[i], have) && PartsFrom(script, i + 1, Grown(script[i], have)))
  }

  /** No statement of the script looks for columns or indexes. */
  predicate NeedsNoParts(script: seq<Stmt>) {
    forall i :: 0 <= i < |script| ==> FindsParts(script[i], {})
  }

  lemma {:induction false} NeedlessFinds(script: seq<Stmt>, i: nat, have: set<Object>)
    requires i <= |script| && NeedsNoParts(script)
    ensures PartsFrom(script, i, have)
    decreases |script| - i
  {
    if i < |script| {
      assert FindsParts(script[i], {});
      NeedlessFinds(script, i + 1, Grown(script[i], have));
    }
  }

  /** Exactly the tables numbered below `made` are there. */
  predicate TablesUpTo(s: Schema, made: nat) {
    forall t :: Table(t) in s <==> TableNo(t) < made
  }

  lemma FindingSucceeds(st: Stmt, s: Schema, made: nat, have: set<Object>)
    requires WellMade(st) && TablesUpTo(s, made) && have <= s.Keys && FindsTables(st, made) && FindsParts(st, have)
    ensures Apply(st, s).Some?
    ensures var s' := Apply(st, s).value;
            && TablesUpTo(s', Made(st, made))
            && Grown(st, have) <= s'.Keys
            && (forall o :: (o in s || Introduces(st, o)) && !(st.Drop? && st.o == o) ==> o in s')
  {
    assert forall t, u :: TableNo(t) == TableNo(u) ==> t == u;
  }

  lemma RunFront(script: seq<Stmt>, i: nat, s: Schema)
    requires i < |script|
    ensures Run(script[i..], s) == match Apply(script[i], s) case None => None case Some(s') => Run(script[i + 1..], s')
  {
    hide Apply;
    assert script[i..] == [script[i]] + script[i + 1..];
    RunConcat([script[i]], script[i + 1..], s);
    assert [script[i]][..0] == [];
    assert Run([], s) == Some(s);
  }

  predicate IntroducedIn(script: seq<Stmt>, o: Object) {
    exists k :: 0 <= k < |script| && Introduces(script[k], o)
  }

  lemma {:induction false} FileRuns(script: seq<Stmt>, i: nat, have: set<Object>, made: nat, limit: nat, s: Schema)
    requires i <= |script| && forall k :: 0 <= k < |script| ==> WellMade(script[k])
    requires TablesFrom(script, i, made, limit) && TablesUpTo(s, made)
    requires PartsFrom(script, i, have) && have <= s.Keys
    ensures Run(script[i..], s).Some?
    ensures var s' := Run(script[i..], s).value;
            && TablesUpTo(s', limit)
            && forall o: Object ::
                 o.Column? && (o in s || exists k :: i <= k < |script| && Introduces(script[k], o)) ==> o in s'
    decreases |script| - i
  {
    hide FindsTables, FindsParts, Grown, Made, Apply, Run, Introduces, TablesUpTo;
    if i == |script| {
      assert script[i..] == [];
      RunNothing(s);
    } else {
      RunFront(script, i, s);
      FindingSucceeds(script[i], s, made, have);
      FileRuns(script, i + 1, Grown(script[i], have), Made(script[i], made), limit, Apply(script[i], s).value);
    }
  }

  lemma RunNothing(s: Schema)
    ensures Run([], s) == Some(s)
  {}

  // ---- checking a script file by file ----

  /** `dropped` and `modified` list what the whole script drops and modifies: nothing dropped is added by an
      ALTER TABLE, and nothing is modified in two ways. */
  predicate Tidy(script: seq<Stmt>, dropped: set<Object>, modified: map<Object, Def>) {
    forall i :: 0 <= i < |script| ==>
      && WellMade(script[i])
      && match script[i]
         case Add(o, _, _) => o !in dropped
         case Modify(o, def) => o.Column? && o in modified && modified[o] == def
         case Drop(o, _, _) => o in dropped
         case _ => true
  }

  /** What a file finds and what it leaves: some columns, and the number of tables. */
  datatype Base = Base(have: set<Object>, made: nat)

  predicate Adds(have: set<Object>, file: seq<Stmt>, more: set<Object>) {
    forall o :: o in more ==> o in have || (o.Column? && IntroducedIn(file, o))
  }

  /** The file finds what it needs in `before` and leaves `after`. */
  predicate Leads(before: Base, file: seq<Stmt>, after: Base) {
    && TablesFrom(file, 0, before.made, after.made)
    && (NeedsNoParts(file) || PartsFrom(file, 0, before.have))
    && (after.have == before.have || Adds(before.have, file, after.have))
  }

  predicate AllLead(base: seq<Base>, files: seq<seq<Stmt>>)
    requires |base| == |files| + 1
  {
    forall f :: 0 <= f < |files| ==> Leads(base[f], files[f], base[f + 1])
  }

  predicate AllTidy(files: seq<seq<Stmt>>, dropped: set<Object>, modified: map<Object, Def>) {
    forall f :: 0 <= f < |files| ==> Tidy(files[f], dropped, modified)
  }

  predicate Holds(b: Base, s: Schema) {
    b.have <= s.Keys && TablesUpTo(s, b.made) && forall o :: o in b.have ==> o.Column?
  }

  lemma FileLeads(before: Base, file: seq<Stmt>, after: Base, s: Schema)
    requires Leads(before, file, after) && Holds(before, s) && forall k :: 0 <= k < |file| ==> WellMade(file[k])
    ensures Run(file, s).Some? && Holds(after, Run(file, s).value)
  {
    hide TablesFrom, PartsFrom, Introduces, Run, TablesUpTo, WellMade, NeedsNoParts;
    if NeedsNoParts(file) { NeedlessFinds(file, 0, before.have); }
    FileRuns(file, 0, before.have, before.made, after.made, s);
    assert file[0..] == file;
  }

  /** Files each of which finds what the earlier ones leave run through on an empty database. */
  lemma {:induction false} FilesRun(files: seq<seq<Stmt>>, base: seq<Base>, f: nat, d: set<Object>, m: map<Object, Def>)
    requires f <= |files| && |base| == |files| + 1 && base[0] == Base({}, 0)
    requires AllLead(base, files) && AllTidy(files, d, m)
    ensures Run(Flat(files[..f]), map[]).Some? && Holds(base[f], Run(Flat(files[..f]), map[]).value)
    decreases f
  {
    hide Leads;
    if f == 0 {
      assert files[..0] == [] && Flat([]) == [];
    } else {
      hide Holds, Run;
      FilesRun(files, base, f - 1, d, m);
      FlatSnoc(files, f - 1);
      RunConcat(Flat(files[..f - 1]), files[f - 1], map[]);
      FileLeads(base[f - 1], files[f - 1], base[f], Run(Flat(files[..f - 1]), map[]).value);
    }
  }

  /** Tables are created in order; a statement on a part comes after its table. */
  predicate TablesBound(script: seq<Stmt>, low: nat, limit: nat) {
    && low <= limit
    && (forall k :: 0 <= k < |script| && script[k].Create? ==> low <= TableNo(script[k].t) < limit)
    && (forall k :: 0 <= k < |script| && script[k].Drop? ==> TableNo(script[k].o.t) < limit)
    && (forall k, l :: 0 <= k < l < |script| && script[k].Drop? && script[l].Create? ==>
          TableNo(script[k].o.t) < TableNo(script[l].t))
  }

  lemma {:induction false} TablesFromBound(script: seq<Stmt>, i: nat, made: nat, limit: nat)
    requires i <= |script| && TablesFrom(script, i, made, limit)
    ensures TablesBound(script[i..], made, limit)
    decreases |script| - i
  {
    hide TableNo;
    if i < |script| {
      TablesFromBound(script, i + 1, Made(script[i], made), limit);
      assert script[i..] == [script[i]] + script[i + 1..];
    }
  }

  lemma BoundConcat(a: seq<Stmt>, b: seq<Stmt>, m: nat, limit: nat)
    requires TablesBound(a, 0, m) && TablesBound(b, m, limit)
    ensures TablesBound(a + b, 0, limit)
  {
    hide TableNo;
  }

  lemma {:induction false} FlatBound(files: seq<seq<Stmt>>, base: seq<Base>, f: nat, d: set<Object>,
                                     m: map<Object, Def>)
    requires f <= |files| && |base| == |files| + 1 && base[0].made == 0
    requires AllLead(base, files) && AllTidy(files, d, m)
    ensures TablesBound(Flat(files[..f]), 0, base[f].made) && Tidy(Flat(files[..f]), d, m)
    decreases f
  {
    hide TablesBound, WellMade;
    if f == 0 {
      assert files[..0] == [] && Flat([]) == [];
      NothingBound();
    } else {
      FlatBound(files, base, f - 1, d, m);
      TablesFromBound(files[f - 1], 0, base[f - 1].made, base[f].made);
      assert files[f - 1][0..] == files[f - 1];
      BoundConcat(Flat(files[..f - 1]), files[f - 1], base[f - 1].made, base[f].made);
      FlatSnoc(files, f - 1);
    }
  }

  lemma NothingBound()
    ensures TablesBound([], 0, 0)
  {}

  lemma TidyIsOrderly(script: seq<Stmt>, limit: nat, d: set<Object>, m: map<Object, Def>)
    requires TablesBound(script, 0, limit) && Tidy(script, d, m)
    ensures Orderly(script)
  {
    hide TableNo;
  }

  /** A script that passes the file-by-file check is orderly and runs through. */
  lemma CheckedScript(files: seq<seq<Stmt>>, base: seq<Base>, d: set<Object>, m: map<Object, Def>)
    requires |base| == |files| + 1 && base[0] == Base({}, 0)
    requires AllLead(base, files) && AllTidy(files, d, m)
    ensures Orderly(Flat(files)) && Run(Flat(files), map[]).Some?
  {
    hide AllLead, AllTidy, Run, TablesBound, Tidy, Orderly;
    FilesRun(files, base, |files|, d, m);
    FlatBound(files, base, |files|, d, m);
    assert files[..|files|] == files;
    TidyIsOrderly(Flat(files), base[|files|].made, d, m);
  }
}
