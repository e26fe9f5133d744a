/** The statements of backend/migrations, in the order run_migrations executes them.  A column, index or key
    that only its own CREATE TABLE mentions is not listed: it is created with its table and never touched. */
module MigrationScript {
  import opened Wrappers
  import opened Basics
  import opened Migrations

  function AddColumn(t: TableName, name: Name, def: Def): Stmt {
    Add(Column(t, name), def, {})
  }

  function NewTable(t: TableName, refs: set<TableName>): Stmt {
    Create(t, map[], refs)
  }

  const M001: seq<Stmt> := [
    NewTable(Users, {}),
    NewTable(Machines, {}),
    NewTable(RootCa, {}),
    Create(TlsKeys, map[Column(TlsKeys, MachineId) := Required(Char(36)),
                        Column(TlsKeys, CreatedAt) := Required(Datetime)], {Machines}),
    Create(SshKeys, map[Column(SshKeys, MachineId) := Required(Char(36))], {Machines}),
    Create(CrlEntries, map[ForeignKey(CrlEntries, FkCrlTlsKey) := Key(false, [TlsKeyId])], {TlsKeys}),
    NewTable(AuditLogs, {})
  ]

  const M002: seq<Stmt> := [
    NewTable(Settings, {}),
    NewTable(UserProfiles, {Users}),
    NewTable(AccessLogs, {}),
    AddColumn(TlsKeys, CertLevel, Defaulted(Varchar(32), Word(0))),
    AddColumn(TlsKeys, ParentCertId, Nullable(Char(36))),
    AddColumn(TlsKeys, Cipher, Defaulted(Varchar(64), Word(1))),
    AddColumn(TlsKeys, KeyLength, Defaulted(Int, Number(256))),
    AddColumn(TlsKeys, UsagesJson, Nullable(Json)),
    AddColumn(SshKeys, SshUsername, Nullable(Varchar(128))),
    AddColumn(SshKeys, MachineName, Nullable(Varchar(255))),
    AddColumn(SshKeys, Cipher, Defaulted(Varchar(64), Word(1))),
    AddColumn(SshKeys, KeyLength, Defaulted(Int, Number(256)))
  ]

  const M003: seq<Stmt> := [NewTable(NotificationEvents, {})]

  const M004: seq<Stmt> := [
    AddColumn(RootCa, Organization, Defaulted(Varchar(255), Word(2))),
    AddColumn(RootCa, Description, Nullable(Text)),
    AddColumn(TlsKeys, AllowPrivateKeyExport, Defaulted(Boolean, Flag(true))),
    AddColumn(SshKeys, AllowPrivateKeyExport, Defaulted(Boolean, Flag(true)))
  ]

  const M005: seq<Stmt> := [
    Create(SecurityEvents, map[Column(SecurityEvents, CreatedAt) := Required(Datetime),
                               Column(SecurityEvents, EventType) := Required(Varchar(64)),
                               Column(SecurityEvents, SourceIp) := Required(Varchar(64))], {}),
    Add(Index(SecurityEvents, IdxSecurityEventsCreatedAt), Key(false, [CreatedAt]),
        {Column(SecurityEvents, CreatedAt)}),
    Add(Index(SecurityEvents, IdxSecurityEventsTypeIp), Key(false, [EventType, SourceIp, CreatedAt]),
        {Column(SecurityEvents, EventType), Column(SecurityEvents, SourceIp),
         Column(SecurityEvents, CreatedAt)})
  ]

  const M006: seq<Stmt> := [
    AddColumn(TlsKeys, RootCaId, Defaulted(Int, Number(1))),
    Add(Index(TlsKeys, IdxTlsKeysRootCa), Key(false, [RootCaId, CertLevel, CreatedAt]),
        {Column(TlsKeys, RootCaId), Column(TlsKeys, CertLevel), Column(TlsKeys, CreatedAt)})
  ]

  const M007: seq<Stmt> := [
    AddColumn(RootCa, IsRevoked, Defaulted(Boolean, Flag(false))),
    AddColumn(RootCa, RevokedAt, Nullable(Datetime)),
    AddColumn(RootCa, RevokedReason, Nullable(Varchar(255)))
  ]

  const M008: seq<Stmt> := [
    Modify(Column(TlsKeys, MachineId), Nullable(Char(36))),
    Modify(Column(SshKeys, MachineId), Nullable(Char(36)))
  ]

  const M009: seq<Stmt> := [
    AddColumn(RootCa, Cipher, Defaulted(Varchar(64), Word(1))),
    AddColumn(RootCa, KeyLength, Defaulted(Int, Number(256)))
  ]

  const M010: seq<Stmt> := [
    Create(MachineMonitorPorts,
           map[Column(MachineMonitorPorts, MachineId) := Required(Char(36)),
               Column(MachineMonitorPorts, Port) := Required(Int),
               Column(MachineMonitorPorts, MonitorEnabled) := Defaulted(Boolean, Flag(true)),
               Column(MachineMonitorPorts, LastCheckedAt) := Nullable(Datetime),
               Index(MachineMonitorPorts, UniqMachineMonitorPort) := Key(true, [MachineId, Port]),
               ForeignKey(MachineMonitorPorts, FkMachineMonitorPortsMachine) := Key(false, [MachineId])], {Machines}),
    Add(Index(MachineMonitorPorts, IdxMachineMonitorDue), Key(false, [MonitorEnabled, LastCheckedAt]),
        {Column(MachineMonitorPorts, MonitorEnabled), Column(MachineMonitorPorts, LastCheckedAt)})
  ]

  /** 011, in two parts: its tables and its columns. */
  const M011A: seq<Stmt> := [
    NewTable(Applications, {}),
    NewTable(Credentials, {}),
    NewTable(HostCredentials, {Machines, Credentials}),
    NewTable(HostApplications, {Machines, Applications}),
    Create(DeploymentJobs, map[Column(DeploymentJobs, HostApplicationId) := Required(Char(36))],
           {HostApplications}),
    NewTable(DeploymentJournal, {DeploymentJobs})
  ]

  const M011B: seq<Stmt> := [
    AddColumn(TlsKeys, AutoRenew, Defaulted(Boolean, Flag(false))),
    AddColumn(TlsKeys, RenewDaysBefore, Defaulted(Int, Number(30))),
    AddColumn(TlsKeys, LastStatus, Nullable(Varchar(32))),
    AddColumn(TlsKeys, LastStatusAt, Nullable(Datetime)),
    AddColumn(Machines, AlertEmail, Nullable(Varchar(255))),
    AddColumn(Machines, TestUrl, Nullable(Varchar(512)))
  ]

  const M012: seq<Stmt> := [
    AddColumn(Machines, MonitorOnly, Defaulted(Boolean, Flag(false))),
    Modify(Column(DeploymentJobs, HostApplicationId), Nullable(Char(36))),
    AddColumn(DeploymentJobs, CertbotConfigId, Nullable(Char(36))),
    AddColumn(DeploymentJobs, JobType, Defaulted(Varchar(32), Word(3))),
    NewTable(CertbotConfigs, {Machines, Credentials})
  ]

  const M013: seq<Stmt> := [AddColumn(Machines, OsType, Nullable(Varchar(64)))]

  const M014: seq<Stmt> := [
    AddColumn(RootCa, Country, Nullable(Varchar(2))),
    AddColumn(RootCa, State, Nullable(Varchar(128))),
    AddColumn(RootCa, Locality, Nullable(Varchar(128))),
    AddColumn(RootCa, OrgUnit, Nullable(Varchar(128)))
  ]

  /** The new unique key comes before the old one goes: the foreign key on machine_id needs one of them. */
  const M015: seq<Stmt> := [
    AddColumn(MachineMonitorPorts, SniHost, Defaulted(Varchar(255), Word(4))),
    Add(Index(MachineMonitorPorts, UniqMmpPortVhost), Key(true, [MachineId, Port, SniHost]),
        {Column(MachineMonitorPorts, MachineId), Column(MachineMonitorPorts, Port),
         Column(MachineMonitorPorts, SniHost)}),
    Drop(Index(MachineMonitorPorts, UniqMachineMonitorPort),
         Some(ForeignKey(MachineMonitorPorts, FkMachineMonitorPortsMachine)),
         Some(Index(MachineMonitorPorts, UniqMmpPortVhost)))
  ]

  const M016: seq<Stmt> := [AddColumn(MachineMonitorPorts, TlsSupportJson, Nullable(Json))]

  const M017: seq<Stmt> := [
    AddColumn(TlsKeys, SansJson, Nullable(Json)),
    AddColumn(TlsKeys, EkuPurpose, Nullable(Varchar(16)))
  ]

  const M018: seq<Stmt> := [NewTable(ApiTokens, {})]

  const M019: seq<Stmt> := [
    NewTable(SshCas, {}),
    Create(SshCertificates, map[Column(SshCertificates, CaId) := Required(Char(36))], {})
  ]

  const M020: seq<Stmt> := [NewTable(BackupRecipients, {})]

  const M021: seq<Stmt> := [AddColumn(Applications, ExpectedCertFormat, Nullable(Varchar(16)))]

  /** 022, in three parts: its columns and its tables. */
  const M022A: seq<Stmt> := [
    AddColumn(Users, Email, Nullable(Varchar(255))),
    AddColumn(Users, TotpSecretEnc, Nullable(Text)),
    AddColumn(Users, TotpEnabled, Defaulted(Boolean, Flag(false))),
    AddColumn(Users, TotpConfirmedAt, Nullable(Datetime))
  ]

  const M022B: seq<Stmt> := [
    NewTable(PasswordResetTokens, {}),
    NewTable(UserRecoveryCodes, {})
  ]

  const M022C: seq<Stmt> := [
    NewTable(WebauthnCredentials, {}),
    NewTable(WebauthnChallenges, {}),
    NewTable(LoginAttempts, {})
  ]

  const M023: seq<Stmt> := [
    AddColumn(Applications, DefaultUseSudo, Defaulted(Boolean, Flag(false))),
    AddColumn(Applications, DefaultStagingDir, Nullable(Varchar(512))),
    AddColumn(Applications, IsRetired, Defaulted(Boolean, Flag(false))),
    AddColumn(HostApplications, UseSudo, Nullable(TinyInt(1))),
    AddColumn(HostApplications, StagingDir, Nullable(Varchar(512)))
  ]

  const M024: seq<Stmt> := [
    Modify(Column(SshCertificates, CaId), Nullable(Char(36))),
    AddColumn(SshCertificates, CaFingerprintSha256, Nullable(Varchar(255))),
    AddColumn(SshCertificates, IsImported, Defaulted(Boolean, Flag(false)))
  ]

  const M025: seq<Stmt> := [NewTable(TlsKeyMachines, {}), Data]

  const M026: seq<Stmt> := [
    AddColumn(CrlEntries, RootCaId, Nullable(Int)),
    AddColumn(CrlEntries, NotAfter, Nullable(Datetime)),
    Data,
    Drop(ForeignKey(CrlEntries, FkCrlTlsKey), None, None),
    Add(Index(CrlEntries, IdxCrlRootCa), Key(false, [RootCaId]), {Column(CrlEntries, RootCaId)})
  ]

  const M027: seq<Stmt> := [AddColumn(MachineMonitorPorts, CertTrustJson, Nullable(Text))]

  const FILES: seq<seq<Stmt>> := [
    M001, M002, M003, M004, M005, M006, M007, M008, M009, M010, M011A, M011B, M012, M013, M014, M015, M016, M017,
    M018, M019, M020, M021, M022A, M022B, M022C, M023, M024, M025,
    M026, M027
  ]

  // ---- every statement finds what it needs ----

  /** The columns that later files look for, as far as they exist after 001, 002, 010, 011 and 019. */
  const AFTER_001: set<Object> := {
    Column(TlsKeys, MachineId), Column(TlsKeys, CreatedAt), Column(SshKeys, MachineId)
  }
  const AFTER_002: set<Object> := AFTER_001 + {Column(TlsKeys, CertLevel)}
  const AFTER_010: set<Object> := AFTER_002 + {
    Column(MachineMonitorPorts, MachineId), Column(MachineMonitorPorts, Port)
  }
  const AFTER_011: set<Object> := AFTER_010 + {Column(DeploymentJobs, HostApplicationId)}
  const AFTER_019: set<Object> := AFTER_011 + {Column(SshCertificates, CaId)}

  const BASES: seq<Base> := [
    Base({}, 0), Base(AFTER_001, 7), Base(AFTER_002, 10), Base(AFTER_002, 11), Base(AFTER_002, 11),
    Base(AFTER_002, 12), Base(AFTER_002, 12), Base(AFTER_002, 12), Base(AFTER_002, 12), Base(AFTER_002, 12),
    Base(AFTER_010, 13), Base(AFTER_011, 19), Base(AFTER_011, 19), Base(AFTER_011, 20), Base(AFTER_011, 20),
    Base(AFTER_011, 20), Base(AFTER_011, 20), Base(AFTER_011, 20), Base(AFTER_011, 20), Base(AFTER_011, 21),
    Base(AFTER_019, 23), Base(AFTER_019, 24), Base(AFTER_019, 24), Base(AFTER_019, 24), Base(AFTER_019, 26),
    Base(AFTER_019, 29), Base(AFTER_019, 29), Base(AFTER_019, 29), Base(AFTER_019, 30), Base(AFTER_019, 30),
    Base(AFTER_019, 30)
  ]

  const DROPPED: set<Object> :=
    {Index(MachineMonitorPorts, UniqMachineMonitorPort), ForeignKey(CrlEntries, FkCrlTlsKey)}

  const MODIFIED: map<Object, Def> := map[
    Column(TlsKeys, MachineId) := Nullable(Char(36)),
    Column(SshKeys, MachineId) := Nullable(Char(36)),
    Column(DeploymentJobs, HostApplicationId) := Nullable(Char(36)),
    Column(SshCertificates, CaId) := Nullable(Char(36))
  ]

  lemma Tables001()
    ensures TablesFrom(M001, 0, 0, 7)
  {}

  lemma Tables002()
    ensures TablesFrom(M002, 0, 7, 10)
  {}

  lemma Tables003()
    ensures TablesFrom(M003, 0, 10, 11)
    ensures TablesFrom(M004, 0, 11, 11)
  {}

  lemma Tables005()
    ensures TablesFrom(M005, 0, 11, 12)
    ensures TablesFrom(M006, 0, 12, 12)
    ensures TablesFrom(M007, 0, 12, 12)
    ensures TablesFrom(M008, 0, 12, 12)
    ensures TablesFrom(M009, 0, 12, 12)
  {}

  lemma Tables010()
    ensures TablesFrom(M010, 0, 12, 13)
  {}

  lemma Tables011A()
    ensures TablesFrom(M011A, 0, 13, 19)
  {}

  lemma Tables011B()
    ensures TablesFrom(M011B, 0, 19, 19)
    ensures TablesFrom(M012, 0, 19, 20)
    ensures TablesFrom(M013, 0, 20, 20)
    ensures TablesFrom(M014, 0, 20, 20)
  {}

  lemma Tables015()
    ensures TablesFrom(M015, 0, 20, 20)
    ensures TablesFrom(M016, 0, 20, 20)
    ensures TablesFrom(M017, 0, 20, 20)
    ensures TablesFrom(M018, 0, 20, 21)
  {}

  lemma Tables019()
    ensures TablesFrom(M019, 0, 21, 23)
    ensures TablesFrom(M020, 0, 23, 24)
    ensures TablesFrom(M021, 0, 24, 24)
  {}

  lemma Tables022A()
    ensures TablesFrom(M022A, 0, 24, 24)
  {}

  lemma Tables022B()
    ensures TablesFrom(M022B, 0, 24, 26)
  {}

  lemma Tables022C()
    ensures TablesFrom(M022C, 0, 26, 29)
  {}

  lemma Tables023()
    ensures TablesFrom(M023, 0, 29, 29)
    ensures TablesFrom(M024, 0, 29, 29)
  {}

  lemma Tables025()
    ensures TablesFrom(M025, 0, 29, 30)
    ensures TablesFrom(M026, 0, 30, 30)
    ensures TablesFrom(M027, 0, 30, 30)
  {}

  lemma Tidy001()
    ensures Tidy(M001, DROPPED, MODIFIED)
  {}

  lemma Tidy002()
    ensures Tidy(M002, DROPPED, MODIFIED)
    ensures Tidy(M003, DROPPED, MODIFIED)
    ensures Tidy(M004, DROPPED, MODIFIED)
  {}

  lemma Tidy005()
    ensures Tidy(M005, DROPPED, MODIFIED)
    ensures Tidy(M006, DROPPED, MODIFIED)
    ensures Tidy(M007, DROPPED, MODIFIED)
    ensures Tidy(M008, DROPPED, MODIFIED)
    ensures Tidy(M009, DROPPED, MODIFIED)
  {}

  lemma Tidy010()
    ensures Tidy(M010, DROPPED, MODIFIED)
  {
    assert WellMade(M010[0]);
  }

  lemma Tidy011A()
    ensures Tidy(M011A, DROPPED, MODIFIED)
  {}

  lemma Tidy011B()
    ensures Tidy(M011B, DROPPED, MODIFIED)
    ensures Tidy(M012, DROPPED, MODIFIED)
    ensures Tidy(M013, DROPPED, MODIFIED)
    ensures Tidy(M014, DROPPED, MODIFIED)
    ensures Tidy(M015, DROPPED, MODIFIED)
  {}

  lemma Tidy016()
    ensures Tidy(M016, DROPPED, MODIFIED)
    ensures Tidy(M017, DROPPED, MODIFIED)
    ensures Tidy(M018, DROPPED, MODIFIED)
    ensures Tidy(M019, DROPPED, MODIFIED)
  {}

  lemma Tidy020()
    ensures Tidy(M020, DROPPED, MODIFIED)
    ensures Tidy(M021, DROPPED, MODIFIED)
    ensures Tidy(M022A, DROPPED, MODIFIED)
    ensures Tidy(M022B, DROPPED, MODIFIED)
    ensures Tidy(M022C, DROPPED, MODIFIED)
    ensures Tidy(M023, DROPPED, MODIFIED)
    ensures Tidy(M024, DROPPED, MODIFIED)
    ensures Tidy(M025, DROPPED, MODIFIED)
    ensures Tidy(M026, DROPPED, MODIFIED)
    ensures Tidy(M027, DROPPED, MODIFIED)
  {}

  lemma NoParts001()
    ensures NeedsNoParts(M001)
    ensures NeedsNoParts(M002)
    ensures NeedsNoParts(M003)
    ensures NeedsNoParts(M004)
    ensures NeedsNoParts(M007)
    ensures NeedsNoParts(M009)
    ensures NeedsNoParts(M011A)
    ensures NeedsNoParts(M011B)
  {}

  lemma NoParts()
    ensures NeedsNoParts(M013)
    ensures NeedsNoParts(M014)
    ensures NeedsNoParts(M016)
    ensures NeedsNoParts(M017)
    ensures NeedsNoParts(M018)
    ensures NeedsNoParts(M019)
    ensures NeedsNoParts(M020)
    ensures NeedsNoParts(M021)
    ensures NeedsNoParts(M022A)
    ensures NeedsNoParts(M022B)
    ensures NeedsNoParts(M022C)
    ensures NeedsNoParts(M023)
    ensures NeedsNoParts(M025)
    ensures NeedsNoParts(M027)
  {}

  lemma Parts()
    ensures PartsFrom(M005, 0, AFTER_002)
    ensures PartsFrom(M006, 0, AFTER_002)
    ensures PartsFrom(M008, 0, AFTER_002)
    ensures PartsFrom(M010, 0, AFTER_002)
  {}

  lemma LaterParts()
    ensures PartsFrom(M012, 0, AFTER_011)
    ensures PartsFrom(M015, 0, AFTER_011)
    ensures PartsFrom(M024, 0, AFTER_019)
    ensures PartsFrom(M026, 0, AFTER_019)
  {}

  lemma NewColumns()
    ensures Adds({}, M001, AFTER_001) && Adds(AFTER_001, M002, AFTER_002) && Adds(AFTER_002, M010, AFTER_010)
    ensures Adds(AFTER_010, M011A, AFTER_011) && Adds(AFTER_011, M019, AFTER_019)
  {
    assert Introduces(M001[3], Column(TlsKeys, MachineId)) && Introduces(M001[3], Column(TlsKeys, CreatedAt));
    assert Introduces(M001[4], Column(SshKeys, MachineId));
    assert Introduces(M002[3], Column(TlsKeys, CertLevel));
    assert Introduces(M010[0], Column(MachineMonitorPorts, MachineId));
    assert Introduces(M010[0], Column(MachineMonitorPorts, Port));
    assert Introduces(M011A[4], Column(DeploymentJobs, HostApplicationId));
    assert Introduces(M019[1], Column(SshCertificates, CaId));
  }

  lemma FirstFilesLead()
    ensures forall f :: 0 <= f < 12 ==> Leads(BASES[f], FILES[f], BASES[f + 1])
  {
    hide TablesFrom, PartsFrom, NeedsNoParts, Adds;
    Tables001(); Tables002(); Tables003(); Tables005(); Tables010(); Tables011A(); Tables011B();
    NoParts001(); NoParts(); Parts(); LaterParts(); NewColumns();
  }

  lemma LaterFilesLead()
    ensures forall f :: 12 <= f < 30 ==> Leads(BASES[f], FILES[f], BASES[f + 1])
  {
    hide TablesFrom, PartsFrom, NeedsNoParts, Adds;
    Tables011B(); Tables015(); Tables019(); Tables022A(); Tables022B(); Tables022C(); Tables023(); Tables025();
    NoParts(); Parts(); LaterParts(); NewColumns();
  }

  lemma FilesTidy()
    ensures AllTidy(FILES, DROPPED, MODIFIED)
  {
    hide Tidy;
    Tidy001(); Tidy002(); Tidy005(); Tidy010(); Tidy011A(); Tidy011B(); Tidy016(); Tidy020();
  }

  const SCRIPT: seq<Stmt> := Flat(FILES)

  /** The number of statements up to and including 015, which replaces the unique key of the monitored ports. */
  function After015(): (n: nat)
    ensures n <= |SCRIPT|
  {
    FlatPrefix(FILES, 16);
    |Flat(FILES[..16])|
  }

  lemma ScriptChecked()
    ensures Orderly(SCRIPT) && Run(SCRIPT, map[]).Some?
  {
    hide Leads, Tidy, Orderly, Run, Flat;
    FirstFilesLead();
    LaterFilesLead();
    FilesTidy();
    CheckedScript(FILES, BASES, DROPPED, MODIFIED);
  }

  /** The migrations: after any number of starts interrupted anywhere, nothing fails, the schema is that of one
      clean run up to the furthest point, and a complete start reaches the schema of one clean run, on which
      another start changes nothing. */
  lemma UpgradesConverge(cuts: seq<nat>)
    ensures Restarts(SCRIPT, cuts).Some?
    ensures Restarts(SCRIPT, cuts) == Run(SCRIPT[..Least(Furthest(cuts), |SCRIPT|)], map[])
    ensures Run(SCRIPT, Restarts(SCRIPT, cuts).value) == Run(SCRIPT, map[])
    ensures Run(SCRIPT, map[]).Some? && Run(SCRIPT, Run(SCRIPT, map[]).value) == Run(SCRIPT, map[])
  {
    hide Orderly, Run, Restarts;
    ScriptChecked();
    RestartsConverge(SCRIPT, cuts);
    CompleteStart(SCRIPT, cuts);
  }

  lemma DropStatement()
    ensures After015() > 0 && SCRIPT[After015() - 1] == M015[2]
  {
    FlatPrefix(FILES, 16);
    FlatSnoc(FILES, 15);
    assert FILES[15] == M015;
  }

  /** Once 015 is through, the old unique key is in no schema that any later start can reach. */
  lemma OldPortKeyStaysAway(cuts: seq<nat>)
    ensures Restarts(SCRIPT, cuts).Some?
    ensures Furthest(cuts) >= After015() ==>
              Index(MachineMonitorPorts, UniqMachineMonitorPort) !in Restarts(SCRIPT, cuts).value
  {
    hide Orderly, Run, Restarts, Flat;
    ScriptChecked();
    DropStatement();
    RestartsConverge(SCRIPT, cuts);
    if Furthest(cuts) >= After015() { DroppedStaysAway(SCRIPT, cuts, After015() - 1); }
  }
}
