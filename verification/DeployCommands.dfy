/** The command strings backend/src/deploy.rs sends over SSH, and what they do when a shell runs
    them. */
module DeployCommands {
  import opened Wrappers
  import opened Positional
  import opened Decimal
  import opened Shell
  import opened RemoteHost

  datatype Escalation = Direct | Sudo(stagingDir: string)

  function StagedBase(destPath: string): string {
    if LastPart(destPath) == "" then "file" else LastPart(destPath)
  }

  function StagedPath(stagingDir: string, destPath: string, jobId: string): string {
    TrimSlashes(stagingDir) + "/" + jobId + "." + StagedBase(destPath)
  }

  function UploadCommand(e: Escalation, destPath: string, mode: string, jobId: string): string {
    var dest := ShellQuote(destPath);
    match e
    case Direct => "umask 077; cat > " + dest + " && chmod " + mode + " " + dest
    case Sudo(dir) =>
      var staged := ShellQuote(StagedPath(dir, destPath, jobId));
      "umask 077; cat > " + staged + " && sudo -n install -o root -g root -m " + mode + " " + staged + " " + dest
      + "; rc=$?; rm -f " + staged + "; exit $rc"
  }

  function PrivilegedCommand(e: Escalation, command: string): string {
    match e
    case Direct => command
    case Sudo(_) => "sudo -n sh -c " + ShellQuote(command)
  }

  // ---- the shapes these strings parse to ----

  function Plain(w: string): Command { Command([P(w)], None) }

  const UMASK := Command([P("umask"), P("077")], None)

  function CatTo(path: string): Command { Command([P("cat")], Some(Q(path))) }

  function ChmodOf(mode: string, path: string): Command { Command([P("chmod"), P(mode), Q(path)], None) }

  const INSTALL_WORDS: seq<Word> :=
    [P("sudo"), P("-n"), P("install"), P("-o"), P("root"), P("-g"), P("root"), P("-m")]

  function InstallTo(mode: string, staged: string, dest: string): Command {
    Command(INSTALL_WORDS + [P(mode), Q(staged), Q(dest)], None)
  }

  function RemoveOf(path: string): Command { Command([P("rm"), P("-f"), Q(path)], None) }

  function UploadScript(e: Escalation, destPath: string, mode: string, jobId: string): Script {
    match e
    case Direct => [[UMASK], [CatTo(destPath), ChmodOf(mode, destPath)]]
    case Sudo(dir) =>
      var staged := StagedPath(dir, destPath, jobId);
      [[UMASK],
       [CatTo(staged), InstallTo(mode, staged, destPath)],
       [Plain("rc=$?")],
       [RemoveOf(staged)],
       [Command([P("exit"), P("$rc")], None)]]
  }

  /** A mode argument as the callers pass it: "600" or "644". */
  predicate IsMode(mode: string) { mode == "600" || mode == "644" }

  predicate NulFree(s: string) { '\0' !in s }

  /** A command string can carry these names. */
  predicate Carries(e: Escalation, destPath: string, jobId: string) {
    NulFree(destPath) && (e.Sudo? ==> NulFree(e.stagingDir) && NulFree(jobId))
  }

  // ---- printing ----

  lemma SpellPlain(s: string)
    requires s != "" && forall i :: 0 <= i < |s| ==> IsPlainChar(s[i])
    ensures Spell(W(P(s))) == s && AllPlain(P(s))
  {
    assert AllPlain(P(s));
    assert Text(P(s)) == s;
  }

  lemma QuotedPrintable(s: string)
    requires NulFree(s)
    ensures Printable(Q(s)) && Spell(W(Q(s))) == ShellQuote(s)
  {
    assert AllQuoted(Q(s));
    SpellQuoted(s);
  }

  lemma ShowOne(a: Word)
    ensures ShowWords([a]) == Spell(W(a))
  {}

  lemma ShowTwo(a: Word, b: Word)
    ensures ShowWords([a, b]) == Spell(W(a)) + " " + Spell(W(b))
  {
    assert [a, b][1..] == [b];
    assert ShowWords([b]) == Spell(W(b));
  }

  lemma ShowThree(a: Word, b: Word, c: Word)
    ensures ShowWords([a, b, c]) == Spell(W(a)) + " " + Spell(W(b)) + " " + Spell(W(c))
  {
    hide Spell;
    ShowTwo(b, c);
    assert [a, b, c][1..] == [b, c];
  }

  lemma {:induction false} ShowWordsConcat(a: seq<Word>, b: seq<Word>)
    requires a != [] && b != []
    ensures ShowWords(a + b) == ShowWords(a) + " " + ShowWords(b)
  {
    if |a| == 1 {
      assert (a + b)[1..] == b;
    } else {
      assert (a + b)[1..] == a[1..] + b;
      ShowWordsConcat(a[1..], b);
    }
  }

  lemma ShowUmask()
    ensures ShowCommand(UMASK) == "umask 077" && PrintableCommand(UMASK)
  {
    hide Spell, ShellQuote, ShowWords;
    SpellPlain("umask");
    SpellPlain("077");
    ShowTwo(P("umask"), P("077"));
  }

  lemma ShowCatTo(path: string)
    requires NulFree(path)
    ensures ShowCommand(CatTo(path)) == "cat > " + ShellQuote(path) && PrintableCommand(CatTo(path))
  {
    SpellPlain("cat");
    QuotedPrintable(path);
    assert ShowWords([P("cat")]) == "cat";
  }

  lemma ShowChmod(mode: string, path: string)
    requires NulFree(path) && IsMode(mode)
    ensures ShowCommand(ChmodOf(mode, path)) == "chmod " + mode + " " + ShellQuote(path)
    ensures PrintableCommand(ChmodOf(mode, path))
  {
    hide Spell, ShellQuote, ShowWords;
    SpellPlain("chmod");
    SpellPlain(mode);
    QuotedPrintable(path);
    ShowThree(P("chmod"), P(mode), Q(path));
  }

  lemma ShowInstallWords()
    ensures ShowWords(INSTALL_WORDS) == "sudo -n install -o root -g root -m"
    ensures forall i :: 0 <= i < |INSTALL_WORDS| ==> AllPlain(INSTALL_WORDS[i])
  {
    hide Spell, ShellQuote, ShowWords;
    SpellPlain("sudo"); SpellPlain("-n"); SpellPlain("install"); SpellPlain("-o");
    SpellPlain("root"); SpellPlain("-g"); SpellPlain("-m");
    ShowThree(P("sudo"), P("-n"), P("install"));
    ShowThree(P("-o"), P("root"), P("-g"));
    ShowTwo(P("root"), P("-m"));
    ShowWordsConcat([P("sudo"), P("-n"), P("install")], [P("-o"), P("root"), P("-g")]);
    ShowWordsConcat([P("sudo"), P("-n"), P("install")] + [P("-o"), P("root"), P("-g")], [P("root"), P("-m")]);
    assert INSTALL_WORDS == [P("sudo"), P("-n"), P("install")] + [P("-o"), P("root"), P("-g")] + [P("root"), P("-m")];
  }

  lemma ShowInstall(mode: string, staged: string, dest: string)
    requires NulFree(staged) && NulFree(dest) && IsMode(mode)
    ensures ShowCommand(InstallTo(mode, staged, dest))
         == "sudo -n install -o root -g root -m " + mode + " " + ShellQuote(staged) + " " + ShellQuote(dest)
    ensures PrintableCommand(InstallTo(mode, staged, dest))
  {
    hide ShowWords, Spell, ShellQuote, Q, P;
    ShowInstallWords();
    SpellPlain(mode);
    QuotedPrintable(staged);
    QuotedPrintable(dest);
    ShowThree(P(mode), Q(staged), Q(dest));
    ShowWordsConcat(INSTALL_WORDS, [P(mode), Q(staged), Q(dest)]);
  }

  lemma ShowRemove(path: string)
    requires NulFree(path)
    ensures ShowCommand(RemoveOf(path)) == "rm -f " + ShellQuote(path) && PrintableCommand(RemoveOf(path))
  {
    hide Spell, ShellQuote, ShowWords;
    SpellPlain("rm");
    SpellPlain("-f");
    QuotedPrintable(path);
    ShowThree(P("rm"), P("-f"), Q(path));
  }

  lemma ShowStatusWords()
    ensures ShowCommand(Plain("rc=$?")) == "rc=$?" && PrintableCommand(Plain("rc=$?"))
    ensures ShowCommand(Command([P("exit"), P("$rc")], None)) == "exit $rc"
    ensures PrintableCommand(Command([P("exit"), P("$rc")], None))
  {
    hide Spell, ShellQuote, ShowWords;
    SpellPlain("rc=$?");
    SpellPlain("exit");
    SpellPlain("$rc");
    ShowTwo(P("exit"), P("$rc"));
    ShowOne(P("rc=$?"));
  }

  /** Job ids of one length keep staged files apart: two staged paths in one directory are the same
      only for one job and destinations of the same last part. */
  lemma StagedPathsApart(dir: string, dest: string, dest': string, jobId: string, jobId': string)
    requires |jobId| == |jobId'|
    ensures StagedPath(dir, dest, jobId) == StagedPath(dir, dest', jobId')
       <==> jobId == jobId' && StagedBase(dest) == StagedBase(dest')
  {
    hide LastPart, TrimSlashes;
    StagedParts(dir, dest, jobId);
    StagedParts(dir, dest', jobId');
  }

  lemma StagedParts(dir: string, dest: string, jobId: string)
    ensures var s, n, k := StagedPath(dir, dest, jobId), |TrimSlashes(dir)| + 1, |jobId|;
            |s| > n + k && s[n..n + k] == jobId && s[n + k + 1..] == StagedBase(dest)
  {
    hide LastPart, TrimSlashes;
    var s, n, k := StagedPath(dir, dest, jobId), |TrimSlashes(dir)| + 1, |jobId|;
    assert s == (TrimSlashes(dir) + "/") + (jobId + ("." + StagedBase(dest)));
  }

  lemma StagedNulFree(dir: string, dest: string, jobId: string)
    requires NulFree(dir) && NulFree(dest) && NulFree(jobId)
    ensures NulFree(StagedPath(dir, dest, jobId))
  {
    LastPartOf(dest);
    assert forall c :: c in TrimSlashes(dir) ==> c in dir;
  }

  lemma {:induction false} LastPartOf(p: string)
    ensures forall c :: c in LastPart(p) ==> c in p
  {
    if p == [] || p[|p| - 1] == '/' {
    } else {
      LastPartOf(p[..|p| - 1]);
    }
  }

  lemma DirectIsShow(dest: string, mode: string)
    requires NulFree(dest) && IsMode(mode)
    ensures UploadCommand(Direct, dest, mode, "") == Show(UploadScript(Direct, dest, mode, ""))
    ensures PrintableScript(UploadScript(Direct, dest, mode, ""))
  {
    hide ShowCommand, ShowChain, Show, ShellQuote, PrintableCommand;
    ShowUmask();
    ShowCatTo(dest);
    ShowChmod(mode, dest);
    TwoLists([UMASK], [CatTo(dest), ChmodOf(mode, dest)]);
    TwoCommands(CatTo(dest), ChmodOf(mode, dest));
    OneCommand(UMASK);
    var d := ShellQuote(dest);
    assert "umask 077; cat > " + d == "umask 077" + "; " + ("cat > " + d);
    assert " && chmod " + mode + " " + d == " && " + ("chmod " + mode + " " + d);
    Pull("umask 077; cat > " + d, " && chmod ", mode, " ", d, "", "");
    Assoc("umask 077" + "; ", "cat > " + d, " && " + ("chmod " + mode + " " + d));
    Assoc("cat > " + d, " && ", "chmod " + mode + " " + d);
  }

  lemma SudoIsShow(dir: string, dest: string, mode: string, jobId: string)
    requires NulFree(dir) && NulFree(dest) && NulFree(jobId) && IsMode(mode)
    ensures UploadCommand(Sudo(dir), dest, mode, jobId) == Show(UploadScript(Sudo(dir), dest, mode, jobId))
    ensures PrintableScript(UploadScript(Sudo(dir), dest, mode, jobId))
  {
    hide ShowCommand, ShowChain, Show, ShellQuote, PrintableCommand, StagedPath;
    var s := UploadScript(Sudo(dir), dest, mode, jobId);
    var staged := StagedPath(dir, dest, jobId);
    StagedNulFree(dir, dest, jobId);
    ShowUmask();
    ShowCatTo(staged);
    ShowInstall(mode, staged, dest);
    ShowStatusWords();
    ShowRemove(staged);
    TwoCommands(CatTo(staged), InstallTo(mode, staged, dest));
    OneCommand(UMASK);
    OneCommand(Plain("rc=$?"));
    OneCommand(RemoveOf(staged));
    OneCommand(Command([P("exit"), P("$rc")], None));
    FiveLists(s[0], s[1], s[2], s[3], s[4]);
    SudoText(ShellQuote(staged), mode, ShellQuote(dest));
  }

  lemma SudoText(a: string, m: string, d: string)
    ensures "umask 077; cat > " + a + " && sudo -n install -o root -g root -m " + m + " " + a + " " + d
            + "; rc=$?; rm -f " + a + "; exit $rc"
         == "umask 077" + "; " + (("cat > " + a + " && "
              + ("sudo -n install -o root -g root -m " + m + " " + a + " " + d))
              + "; " + ("rc=$?" + "; " + ("rm -f " + a + "; " + "exit $rc")))
  {
    var i := "sudo -n install -o root -g root -m " + m + " " + a + " " + d;
    var first := "umask 077; cat > " + a;
    var r := "; rc=$?; rm -f " + a + "; exit $rc";
    Pull(first, " && sudo -n install -o root -g root -m ", m, " ", a, " ", d);
    SudoInstallText(a, m, d);
    Pull(first + (" && " + i), "; rc=$?; rm -f ", a, "; exit $rc", "", "", "");
    SudoTailText(a);
    assert first == "umask 077" + "; " + ("cat > " + a);
    var u, c, t := "umask 077" + "; ", "cat > " + a, "rc=$?" + "; " + ("rm -f " + a + "; " + "exit $rc");
    Assoc(u, c, " && " + i);
    Assoc(c, " && ", i);
    Assoc(u, c + " && " + i, "; " + t);
    Assoc(c + " && " + i, "; ", t);
  }

  lemma SudoInstallText(a: string, m: string, d: string)
    ensures " && sudo -n install -o root -g root -m " + m + " " + a + " " + d
         == " && " + ("sudo -n install -o root -g root -m " + m + " " + a + " " + d)
  {
    var x := "sudo -n install -o root -g root -m ";
    assert " && sudo -n install -o root -g root -m " == " && " + x by { AndInstall(); }
    Pull(" && ", x, m, " ", a, " ", d);
  }

  lemma AndInstall()
    ensures " && sudo -n install -o root -g root -m " == " && " + "sudo -n install -o root -g root -m "
  {}

  lemma SudoTailText(a: string)
    ensures "; rc=$?; rm -f " + a + "; exit $rc" == "; " + ("rc=$?" + "; " + ("rm -f " + a + "; " + "exit $rc"))
  {
    assert "; rc=$?; rm -f " == "; " + ("rc=$?" + "; " + "rm -f ");
    assert "; exit $rc" == "; " + "exit $rc";
  }

  lemma Pull(x: string, a: string, b: string, c: string, d: string, e: string, f: string)
    ensures x + a + b + c + d + e + f == x + (a + b + c + d + e + f)
    ensures x + a + b + c == x + (a + b + c)
    ensures x + a + b + c + d == x + (a + b + c + d)
  {
    Assoc(x, a, b);
    Assoc(x, a + b, c);
    Assoc(x, a + b + c, d);
    Assoc(x, a + b + c + d, e);
    Assoc(x, a + b + c + d + e, f);
  }

  lemma Assoc(a: string, b: string, c: string)
    ensures (a + b) + c == a + (b + c)
  {}

  lemma OneCommand(a: Command)
    ensures ShowChain([a]) == ShowCommand(a)
  {}

  /** The upload command is the printed form of the upload script. */
  lemma UploadIsShow(e: Escalation, dest: string, mode: string, jobId: string)
    requires Carries(e, dest, jobId) && IsMode(mode)
    ensures UploadCommand(e, dest, mode, jobId) == Show(UploadScript(e, dest, mode, jobId))
    ensures PrintableScript(UploadScript(e, dest, mode, jobId))
  {
    if e.Sudo? { SudoIsShow(e.stagingDir, dest, mode, jobId); } else { DirectIsShow(dest, mode); }
  }

  lemma TwoCommands(a: Command, b: Command)
    ensures ShowChain([a, b]) == ShowCommand(a) + " && " + ShowCommand(b)
  {
    assert [a, b][1..] == [b];
    assert ShowChain([b]) == ShowCommand(b);
  }

  lemma TwoLists(a: seq<Command>, b: seq<Command>)
    ensures Show([a, b]) == ShowChain(a) + "; " + ShowChain(b)
  {
    assert [a, b][1..] == [b];
    assert Show([b]) == ShowChain(b);
  }

  lemma MoreLists(a: seq<Command>, rest: Script)
    requires rest != []
    ensures Show([a] + rest) == ShowChain(a) + "; " + Show(rest)
  {
    assert ([a] + rest)[1..] == rest;
  }

  lemma FiveLists(a: seq<Command>, b: seq<Command>, c: seq<Command>, d: seq<Command>, e: seq<Command>)
    ensures Show([a, b, c, d, e])
         == ShowChain(a) + "; " + (ShowChain(b) + "; " + (ShowChain(c) + "; " + (ShowChain(d) + "; " + ShowChain(e))))
  {
    hide Show, ShowChain;
    TwoLists(d, e);
    MoreLists(c, [d, e]);
    MoreLists(b, [c] + [d, e]);
    MoreLists(a, [b] + ([c] + [d, e]));
    assert [a] + ([b] + ([c] + [d, e])) == [a, b, c, d, e];
  }

  // ---- what the strings parse to ----

  /** For all names the upload command parses to one fixed shape, exactly when no name holds a NUL. */
  lemma UploadParses(e: Escalation, dest: string, mode: string, jobId: string)
    requires IsMode(mode)
    ensures ParseScript(UploadCommand(e, dest, mode, jobId)) == Some(UploadScript(e, dest, mode, jobId))
       <==> Carries(e, dest, jobId)
  {
    hide ParseScript, Show, UploadScript, ShellQuote, StagedPath;
    if Carries(e, dest, jobId) {
      UploadIsShow(e, dest, mode, jobId);
      UploadScriptNonEmpty(e, dest, mode, jobId);
      ParseShow(UploadScript(e, dest, mode, jobId));
    } else {
      if '\0' in dest {
        QuoteKeepsNul(dest);
        assert '\0' in UploadCommand(e, dest, mode, jobId);
      } else {
        StagedKeepsNul(e.stagingDir, dest, jobId);
        QuoteKeepsNul(StagedPath(e.stagingDir, dest, jobId));
        assert '\0' in UploadCommand(e, dest, mode, jobId);
      }
      NulNotParsed(UploadCommand(e, dest, mode, jobId));
    }
  }

  lemma UploadScriptNonEmpty(e: Escalation, dest: string, mode: string, jobId: string)
    ensures UploadScript(e, dest, mode, jobId) != []
  {}

  lemma QuoteKeepsNul(v: string)
    requires '\0' in v
    ensures '\0' in ShellQuote(v)
  {
    EscapeKeepsNul(v);
  }

  lemma StagedKeepsNul(dir: string, dest: string, jobId: string)
    requires '\0' in dir || '\0' in jobId
    ensures '\0' in StagedPath(dir, dest, jobId)
  {
    if '\0' in dir { TrimKeeps(dir, '\0'); }
  }

  lemma {:induction false} TrimKeeps(p: string, c: char)
    requires c in p && c != '/'
    ensures c in TrimSlashes(p)
  {
    if EndsWithSlash(p) {
      assert c in p[..|p| - 1];
      TrimKeeps(p[..|p| - 1], c);
    }
  }

  lemma NulNotParsed(s: string)
    requires '\0' in s
    ensures ParseScript(s) == None
  {
    NulRejects(START, s);
  }

  function Wrapped(command: string): Command {
    Command([P("sudo"), P("-n"), P("sh"), P("-c"), Q(command)], None)
  }

  lemma ShowWrapped(command: string)
    requires NulFree(command)
    ensures Show([[Wrapped(command)]]) == "sudo -n sh -c " + ShellQuote(command)
    ensures PrintableScript([[Wrapped(command)]])
  {
    hide Spell, ShellQuote, ShowWords;
    SpellPlain("sudo");
    SpellPlain("-n");
    SpellPlain("sh");
    SpellPlain("-c");
    QuotedPrintable(command);
    ShowTwo(P("sudo"), P("-n"));
    ShowThree(P("sh"), P("-c"), Q(command));
    ShowWordsConcat([P("sudo"), P("-n")], [P("sh"), P("-c"), Q(command)]);
    var c := Wrapped(command);
    assert c.words == [P("sudo"), P("-n")] + [P("sh"), P("-c"), Q(command)];
    PrivilegedText(ShellQuote(command));
    assert ShowCommand(c) == ShowWords(c.words);
    OneCommand(c);
    assert Show([[c]]) == ShowChain([c]);
  }

  /** Under sudo the whole command is the last argument of `sudo -n sh -c`, so the inner shell parses
      exactly what was configured; without sudo it is sent as it is. */
  lemma PrivilegedParses(dir: string, command: string)
    ensures PrivilegedCommand(Direct, command) == command
    ensures Text(Wrapped(command).words[4]) == command
    ensures ParseScript(PrivilegedCommand(Sudo(dir), command)) == Some([[Wrapped(command)]]) <==> NulFree(command)
  {
    hide ParseScript, Show, ShellQuote;
    if NulFree(command) {
      ShowWrapped(command);
      ParseShow([[Wrapped(command)]]);
    } else {
      QuoteKeepsNul(command);
      NulNotParsed(PrivilegedCommand(Sudo(dir), command));
    }
  }

  lemma PrivilegedText(q: string)
    ensures "sudo" + " " + "-n" + " " + ("sh" + " " + "-c" + " " + q) == "sudo -n sh -c " + q
  {
    assert "sudo" + " " + "-n" + " " + ("sh" + " " + "-c" + " ") == "sudo -n sh -c ";
    Assoc("sudo" + " " + "-n" + " ", "sh" + " " + "-c" + " ", q);
  }

  // ---- what running them does ----

  function WithUmask(fs: Fs): Proc { Login(fs).(umask := "077") }

  /** `cat > staged && sudo install staged dest`. */
  function StageAndInstall(staged: string, dest: string, mode: string, fs: Fs, data: seq<Byte>, luck: Luck): Proc {
    var a := Cat(WithUmask(fs), staged, data, luck);
    if a.status == 0 then Install(a, mode, staged, dest, luck) else a
  }

  function DirectWrite(dest: string, mode: string, fs: Fs, data: seq<Byte>, luck: Luck): Proc {
    var a := Cat(WithUmask(fs), dest, data, luck);
    if a.status == 0 then Chmod(a, mode, dest, luck) else a
  }

  lemma RunOne(c: Command, p: Proc, data: seq<Byte>, luck: Luck)
    ensures RunChain([c], p, data, luck) == RunCommand(c, p, data, luck)
  {
    var q := RunCommand(c, p, data, luck);
    assert [c][1..] == [];
    assert RunChain([], q, data, luck) == q;
  }

  lemma RunTwo(c: Command, d: Command, p: Proc, data: seq<Byte>, luck: Luck)
    ensures RunChain([c, d], p, data, luck)
         == var q := RunCommand(c, p, data, luck);
            if q.status != 0 || q.exited then q else RunCommand(d, q, data, luck)
  {
    var q := RunCommand(c, p, data, luck);
    assert [c, d][1..] == [d];
    RunOne(d, q, data, luck);
  }

  lemma RunFirst(l: seq<Command>, rest: Script, p: Proc, data: seq<Byte>, luck: Luck)
    requires !p.exited
    ensures RunLists([l] + rest, p, data, luck) == RunLists(rest, RunChain(l, p, data, luck), data, luck)
  {
    assert ([l] + rest)[1..] == rest;
  }

  lemma RunUmask(p: Proc, data: seq<Byte>, luck: Luck)
    requires !p.exited
    ensures RunChain([UMASK], p, data, luck) == p.(umask := "077", status := 0)
  {
    ExpandPlain("umask", p);
    ExpandPlain("077", p);
    RunOne(UMASK, p, data, luck);
    assert ExpandAll(UMASK.words, p) == ["umask", "077"];
  }

  lemma RunCat(path: string, p: Proc, data: seq<Byte>, luck: Luck)
    ensures RunCommand(CatTo(path), p, data, luck) == Cat(p, path, data, luck)
  {
    ExpandPlain("cat", p);
    ExpandQuoted(path, p);
    assert ExpandAll(CatTo(path).words, p) == ["cat"];
  }

  lemma ExpandInstallWords(p: Proc)
    ensures ExpandAll(INSTALL_WORDS, p) == INSTALL_ARGS
  {
    ExpandPlain("sudo", p); ExpandPlain("-n", p); ExpandPlain("install", p); ExpandPlain("-o", p);
    ExpandPlain("root", p); ExpandPlain("-g", p); ExpandPlain("-m", p);
    hide Expand, P;
  }

  lemma RunInstall(mode: string, staged: string, dest: string, p: Proc, data: seq<Byte>, luck: Luck)
    requires IsMode(mode)
    ensures RunCommand(InstallTo(mode, staged, dest), p, data, luck) == Install(p, mode, staged, dest, luck)
  {
    ExpandInstallWords(p);
    ExpandPlain(mode, p);
    ExpandQuoted(staged, p);
    ExpandQuoted(dest, p);
    hide Expand, P, Q, Install;
    var ws := [P(mode), Q(staged), Q(dest)];
    var argv := ExpandAll(INSTALL_WORDS + ws, p);
    assert argv == ExpandAll(INSTALL_WORDS, p) + ExpandAll(ws, p);
    assert argv[..8] == INSTALL_ARGS;
  }

  lemma RunChmod(mode: string, path: string, p: Proc, data: seq<Byte>, luck: Luck)
    requires IsMode(mode)
    ensures RunCommand(ChmodOf(mode, path), p, data, luck) == Chmod(p, mode, path, luck)
  {
    ExpandPlain("chmod", p);
    ExpandPlain(mode, p);
    ExpandQuoted(path, p);
    hide Expand, P, Q;
    assert ExpandAll(ChmodOf(mode, path).words, p) == ["chmod", mode, path];
  }

  lemma RunRemove(path: string, p: Proc, data: seq<Byte>, luck: Luck)
    ensures RunCommand(RemoveOf(path), p, data, luck) == Remove(p, path, luck)
  {
    ExpandPlain("rm", p);
    ExpandPlain("-f", p);
    ExpandQuoted(path, p);
    hide Expand, P, Q;
    assert ExpandAll(RemoveOf(path).words, p) == ["rm", "-f", path];
  }

  lemma RunKeepStatus(p: Proc, data: seq<Byte>, luck: Luck)
    ensures RunCommand(Plain("rc=$?"), p, data, luck)
         == p.(vars := p.vars["rc" := ToText(p.status)], status := 0)
  {
    var w := P("rc=$?");
    assert w[1..][1..] == w[2..];
    assert NamePrefix(w[2..]) == 0;
    assert NamePrefix(w[1..]) == 1 && NamePrefix(w) == 2;
    assert Text(w[..2]) == "rc";
    assert w[3..] == P("$?");
    assert P("$?")[2..] == [];
    assert Expand(P("$?"), p) == ToText(p.status) + Expand([], p);
    assert ToText(p.status) + "" == ToText(p.status);
  }

  lemma ExpandRc(p: Proc, status: nat)
    requires "rc" in p.vars && p.vars["rc"] == ToText(status)
    ensures Expand(P("$rc"), p) == ToText(status)
  {
    hide ToText;
    var w := P("$rc");
    assert w[1..] == P("rc") && P("rc")[1..][1..] == [];
    assert NamePrefix(P("rc")[1..]) == 1 && NamePrefix(P("rc")) == 2;
    assert Text(P("rc")[..2]) == "rc" && P("rc")[2..] == [];
    assert Expand(w, p) == ToText(status) + Expand([], p);
    assert ToText(status) + "" == ToText(status);
  }

  lemma RunExit(p: Proc, data: seq<Byte>, luck: Luck, status: nat)
    requires "rc" in p.vars && p.vars["rc"] == ToText(status) && status < 256
    ensures RunCommand(Command([P("exit"), P("$rc")], None), p, data, luck) == p.(status := status, exited := true)
  {
    hide Expand, ToText, NamePrefix;
    ExpandRc(p, status);
    ExpandPlain("exit", p);
    TextRoundTrip(status);
    assert ExpandAll([P("exit"), P("$rc")], p) == ["exit", ToText(status)];
  }

  lemma DirectRuns(dest: string, mode: string, jobId: string, fs: Fs, data: seq<Byte>, luck: Luck)
    requires NulFree(dest) && IsMode(mode)
    ensures RunText(UploadCommand(Direct, dest, mode, jobId), fs, data, luck)
         == Some(DirectWrite(dest, mode, fs, data, luck))
  {
    hide RunChain, RunCommand, Cat, Chmod, ParseScript, RunLists;
    UploadParses(Direct, dest, mode, jobId);
    var p := Login(fs);
    var q := WithUmask(fs);
    RunUmask(p, data, luck);
    assert UploadScript(Direct, dest, mode, jobId) == [[UMASK]] + [[CatTo(dest), ChmodOf(mode, dest)]];
    RunFirst([UMASK], [[CatTo(dest), ChmodOf(mode, dest)]], p, data, luck);
    RunFirst([CatTo(dest), ChmodOf(mode, dest)], [], q, data, luck);
    assert [[CatTo(dest), ChmodOf(mode, dest)]] + [] == [[CatTo(dest), ChmodOf(mode, dest)]];
    RunTwo(CatTo(dest), ChmodOf(mode, dest), q, data, luck);
    RunCat(dest, q, data, luck);
    CatKeepsRunning(q, dest, data, luck);
    RunChmod(mode, dest, Cat(q, dest, data, luck), data, luck);
    RunNothing(DirectWrite(dest, mode, fs, data, luck), data, luck);
  }

  lemma RunNothing(p: Proc, data: seq<Byte>, luck: Luck)
    ensures RunLists([], p, data, luck) == p
  {}

  lemma CatKeepsRunning(p: Proc, path: string, data: seq<Byte>, luck: Luck)
    ensures Cat(p, path, data, luck).exited == p.exited
    ensures Cat(p, path, data, luck).status < 256
  {}

  lemma InstallStatus(p: Proc, mode: string, src: string, dst: string, luck: Luck)
    requires Fair(luck)
    ensures Install(p, mode, src, dst, luck).status < 256
    ensures Install(p, mode, src, dst, luck).exited == p.exited
  {}

  /** Run to completion, the sudo upload is `cat && install`, then the removal of the staged file; the
      exit status is the one of `cat && install`. */
  lemma SudoRuns(dir: string, dest: string, mode: string, jobId: string, fs: Fs, data: seq<Byte>, luck: Luck)
    requires Carries(Sudo(dir), dest, jobId) && IsMode(mode) && Fair(luck)
    ensures var staged := StagedPath(dir, dest, jobId);
            var installed := StageAndInstall(staged, dest, mode, fs, data, luck);
            var r := RunText(UploadCommand(Sudo(dir), dest, mode, jobId), fs, data, luck);
            && r.Some? && r.value.exited
            && r.value.status == installed.status
            && r.value.fs == Remove(installed, staged, luck).fs
  {
    hide RunChain, RunCommand, Cat, Install, Remove, ParseScript, RunLists, StagedPath, ToText;
    UploadParses(Sudo(dir), dest, mode, jobId);
    var s := UploadScript(Sudo(dir), dest, mode, jobId);
    var staged := StagedPath(dir, dest, jobId);
    assert s == [s[0]] + ([s[1]] + ([s[2]] + ([s[3]] + ([s[4]] + []))));
    var p0 := Login(fs);
    var p1 := WithUmask(fs);
    RunUmask(p0, data, luck);
    RunFirst(s[0], [s[1]] + ([s[2]] + ([s[3]] + ([s[4]] + []))), p0, data, luck);
    RunFirst(s[1], [s[2]] + ([s[3]] + ([s[4]] + [])), p1, data, luck);
    RunTwo(CatTo(staged), InstallTo(mode, staged, dest), p1, data, luck);
    RunCat(staged, p1, data, luck);
    var a := Cat(p1, staged, data, luck);
    CatKeepsRunning(p1, staged, data, luck);
    RunInstall(mode, staged, dest, a, data, luck);
    InstallStatus(a, mode, staged, dest, luck);
    var p2 := StageAndInstall(staged, dest, mode, fs, data, luck);
    assert RunChain(s[1], p1, data, luck) == p2;
    RunFirst(s[2], [s[3]] + ([s[4]] + []), p2, data, luck);
    RunOne(Plain("rc=$?"), p2, data, luck);
    RunKeepStatus(p2, data, luck);
    var p3 := p2.(vars := p2.vars["rc" := ToText(p2.status)], status := 0);
    RunFirst(s[3], [s[4]] + [], p3, data, luck);
    RunOne(RemoveOf(staged), p3, data, luck);
    RunRemove(staged, p3, data, luck);
    RemoveOnlyFiles(p3, p2, staged, luck);
    var p4 := Remove(p3, staged, luck);
    RunFirst(s[4], [], p4, data, luck);
    RunOne(Command([P("exit"), P("$rc")], None), p4, data, luck);
    RunExit(p4, data, luck, p2.status);
    RunNothing(p4.(status := p2.status, exited := true), data, luck);
  }

  /** `rm` looks at the files alone and touches nothing else. */
  lemma RemoveOnlyFiles(p: Proc, q: Proc, path: string, luck: Luck)
    requires p.fs == q.fs
    ensures Remove(p, path, luck).fs == Remove(q, path, luck).fs
    ensures Remove(p, path, luck).vars == p.vars && Remove(p, path, luck).exited == p.exited
  {}

  // ---- cut off ----

  lemma LastUpTo(c: Command, rest: Script, p: Proc, data: seq<Byte>, luck: Luck, n: nat)
    requires !p.exited
    ensures RunUpTo([[c]] + rest, p, data, luck, n)
         == if n == 0 then p else RunUpTo(rest, RunCommand(c, p, data, luck), data, luck, n - 1)
  {
    hide RunCommand;
    var s := [[c]] + rest;
    var q := RunCommand(c, p, data, luck);
    assert s[1..] == rest && s[0] == [c] && s[0][1..] == [];
    if n > 0 && q.status == 0 && !q.exited {
      assert ([[]] + rest)[1..] == rest;
      assert RunUpTo([[]] + rest, q, data, luck, n - 1) == RunUpTo(rest, q, data, luck, n - 1);
    }
  }

  lemma PairUpTo(c: Command, d: Command, rest: Script, p: Proc, data: seq<Byte>, luck: Luck, n: nat)
    requires !p.exited && 0 < n && !RunCommand(c, p, data, luck).exited
    ensures RunUpTo([[c, d]] + rest, p, data, luck, n)
         == var q := RunCommand(c, p, data, luck);
            if q.status != 0 then RunUpTo(rest, q, data, luck, n - 1)
            else if n == 1 then q else RunUpTo(rest, RunCommand(d, q, data, luck), data, luck, n - 2)
  {
    hide RunCommand;
    var s := [[c, d]] + rest;
    var q := RunCommand(c, p, data, luck);
    assert s[1..] == rest && s[0] == [c, d] && s[0][1..] == [d];
    if q.status == 0 { LastUpTo(d, rest, q, data, luck, n - 1); }
  }

  function TailScript(staged: string): Script {
    [[Plain("rc=$?")]] + ([[RemoveOf(staged)]] + ([[Command([P("exit"), P("$rc")], None)]] + []))
  }

  lemma TailUpTo(staged: string, p: Proc, data: seq<Byte>, luck: Luck, n: nat)
    requires !p.exited && p.status < 256
    ensures RunUpTo(TailScript(staged), p, data, luck, n).fs == if n < 2 then p.fs else Remove(p, staged, luck).fs
  {
    hide RunUpTo, RunCommand, Remove, ToText;
    var exit := Command([P("exit"), P("$rc")], None);
    LastUpTo(Plain("rc=$?"), [[RemoveOf(staged)]] + ([[exit]] + []), p, data, luck, n);
    if n > 0 {
      RunKeepStatus(p, data, luck);
      var q := p.(vars := p.vars["rc" := ToText(p.status)], status := 0);
      LastUpTo(RemoveOf(staged), [[exit]] + [], q, data, luck, n - 1);
      RunNone([[RemoveOf(staged)]] + ([[exit]] + []), q, data, luck);
      if n > 1 {
        RunRemove(staged, q, data, luck);
        RemoveOnlyFiles(q, p, staged, luck);
        var r := Remove(q, staged, luck);
        LastUpTo(exit, [], r, data, luck, n - 2);
        if n > 2 {
          RunExit(r, data, luck, p.status);
          RunEmpty(r.(status := p.status, exited := true), data, luck, n - 3);
        }
      }
    }
  }

  lemma RunNone(s: Script, p: Proc, data: seq<Byte>, luck: Luck)
    ensures RunUpTo(s, p, data, luck, 0) == p
  {}

  lemma RunEmpty(p: Proc, data: seq<Byte>, luck: Luck, n: nat)
    ensures RunUpTo([], p, data, luck, n) == p
  {}

  /** The simple command of the sudo upload that removes the staged file, counted from one. */
  function RemovalAt(staged: string, fs: Fs, data: seq<Byte>, luck: Luck): nat {
    if Cat(WithUmask(fs), staged, data, luck).status == 0 then 5 else 4
  }

  /** Cut off after any number of commands, the sudo upload has staged, installed and removed as far as
      it came. */
  lemma SudoCutOff(dir: string, dest: string, mode: string, jobId: string,
                   fs: Fs, data: seq<Byte>, luck: Luck, n: nat)
    requires Carries(Sudo(dir), dest, jobId) && IsMode(mode) && Fair(luck)
    ensures var staged := StagedPath(dir, dest, jobId);
            var installed := StageAndInstall(staged, dest, mode, fs, data, luck);
            var r := RunTextUpTo(UploadCommand(Sudo(dir), dest, mode, jobId), fs, data, luck, n);
            && r.Some?
            && r.value.fs == if n < 2 then fs
                             else if n == 2 then Cat(WithUmask(fs), staged, data, luck).fs
                             else if n < RemovalAt(staged, fs, data, luck) then installed.fs
                             else Remove(installed, staged, luck).fs
  {
    hide RunUpTo, RunCommand, Cat, Install, Remove, ParseScript, StagedPath, ToText;
    UploadParses(Sudo(dir), dest, mode, jobId);
    var s := UploadScript(Sudo(dir), dest, mode, jobId);
    var staged := StagedPath(dir, dest, jobId);
    var cat, install := CatTo(staged), InstallTo(mode, staged, dest);
    var tail := TailScript(staged);
    assert s == [[UMASK]] + ([[cat, install]] + tail);
    var p0, p1 := Login(fs), WithUmask(fs);
    LastUpTo(UMASK, [[cat, install]] + tail, p0, data, luck, n);
    RunUmask(p0, data, luck);
    RunOne(UMASK, p0, data, luck);
    RunNone([[cat, install]] + tail, p1, data, luck);
    if n > 1 {
      var a := Cat(p1, staged, data, luck);
      RunCat(staged, p1, data, luck);
      CatKeepsRunning(p1, staged, data, luck);
      PairUpTo(cat, install, tail, p1, data, luck, n - 1);
      if a.status != 0 {
        TailUpTo(staged, a, data, luck, n - 2);
      } else if n > 2 {
        var b := Install(a, mode, staged, dest, luck);
        RunInstall(mode, staged, dest, a, data, luck);
        InstallStatus(a, mode, staged, dest, luck);
        TailUpTo(staged, b, data, luck, n - 3);
      }
    }
  }

  lemma DirectCutOff(dest: string, mode: string, jobId: string, fs: Fs, data: seq<Byte>, luck: Luck, n: nat)
    requires NulFree(dest) && IsMode(mode)
    ensures var r := RunTextUpTo(UploadCommand(Direct, dest, mode, jobId), fs, data, luck, n);
            && r.Some?
            && r.value.fs == if n < 2 then fs
                             else if n == 2 then Cat(WithUmask(fs), dest, data, luck).fs
                             else DirectWrite(dest, mode, fs, data, luck).fs
  {
    hide RunUpTo, RunCommand, Cat, Chmod, ParseScript;
    UploadParses(Direct, dest, mode, jobId);
    var cat, chmod := CatTo(dest), ChmodOf(mode, dest);
    assert UploadScript(Direct, dest, mode, jobId) == [[UMASK]] + ([[cat, chmod]] + []);
    var p0, p1 := Login(fs), WithUmask(fs);
    LastUpTo(UMASK, [[cat, chmod]] + [], p0, data, luck, n);
    RunUmask(p0, data, luck);
    RunOne(UMASK, p0, data, luck);
    RunNone([[cat, chmod]] + [], p1, data, luck);
    if n > 1 {
      var a := Cat(p1, dest, data, luck);
      RunCat(dest, p1, data, luck);
      CatKeepsRunning(p1, dest, data, luck);
      PairUpTo(cat, chmod, [], p1, data, luck, n - 1);
      RunEmpty(a, data, luck, n - 2);
      if a.status == 0 && n > 2 {
        RunChmod(mode, dest, a, data, luck);
        RunEmpty(Chmod(a, mode, dest, luck), data, luck, n - 3);
      }
    }
  }
}
