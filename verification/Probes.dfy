/** The probes of a deployment run (backend/src/deploy.rs): what their texts ask of the host, and that they come
    before any file is sent. */
module Probes {
  import Basics
  import opened Wrappers
  import opened Shell
  import opened RemoteHost
  import opened DeployCommands
  import opened Channel
  import opened Deploy
  import opened DeployOutcome

  /** The directory of a path is what stands before its last part and the slash. */
  lemma ParentOf(path: string)
    ensures '/' !in path ==> ParentDir(path) == "." && LastPart(path) == path
    ensures '/' in path ==> ParentDir(path) + "/" + LastPart(path) == path
                            || (ParentDir(path) == "/" && path == "/" + LastPart(path))
  {
    CutAtSlash(path);
    hide TrimToSlash, LastPart;
    if '/' in path {
      var t, b := TrimToSlash(path), LastPart(path);
      assert t == t[..|t| - 1] + "/";
      if |t| == 1 { assert path == "/" + b; } else { assert ParentDir(path) + "/" + b == path; }
    } else {
      assert "" + LastPart(path) == path;
    }
  }

  lemma {:induction false} CutAtSlash(path: string)
    ensures TrimToSlash(path) + LastPart(path) == path && '/' !in LastPart(path)
    ensures '/' !in path ==> TrimToSlash(path) == ""
  {
    if path == "" || path[|path| - 1] == '/' {
      assert path + "" == path;
    } else {
      CutAtSlash(path[..|path| - 1]);
      assert path == path[..|path| - 1] + [path[|path| - 1]];
    }
  }

  // ---- what the texts parse to ----

  function Test(flag: string, dir: string): Command { Command([P("test"), P(flag), Q(dir)], None) }

  function SudoTest(flag: string, dir: string): Command {
    Command([P("sudo"), P("-n"), P("test"), P(flag), Q(dir)], None)
  }

  const SAY_OK := Command([P("echo"), P("OK")], None)

  lemma ShowSayOk()
    ensures ShowCommand(SAY_OK) == "echo OK" && PrintableCommand(SAY_OK)
  {
    hide Spell, ShowWords;
    SpellPlain("echo");
    SpellPlain("OK");
    ShowTwo(P("echo"), P("OK"));
  }

  lemma ShowTest(flag: string, dir: string)
    requires NulFree(dir) && (flag == "-d" || flag == "-w")
    ensures ShowCommand(Test(flag, dir)) == "test " + flag + " " + ShellQuote(dir)
    ensures PrintableCommand(Test(flag, dir))
  {
    hide Spell, ShellQuote, ShowWords;
    SpellPlain("test");
    SpellPlain(flag);
    QuotedPrintable(dir);
    ShowThree(P("test"), P(flag), Q(dir));
  }

  lemma ShowSudoTest(dir: string)
    requires NulFree(dir)
    ensures ShowCommand(SudoTest("-d", dir)) == "sudo -n test -d " + ShellQuote(dir)
    ensures PrintableCommand(SudoTest("-d", dir))
  {
    hide Spell, ShellQuote, ShowWords;
    SpellPlain("sudo");
    SpellPlain("-n");
    SpellPlain("test");
    SpellPlain("-d");
    QuotedPrintable(dir);
    ShowTwo(P("sudo"), P("-n"));
    ShowThree(P("test"), P("-d"), Q(dir));
    ShowWordsConcat([P("sudo"), P("-n")], [P("test"), P("-d"), Q(dir)]);
    assert SudoTest("-d", dir).words == [P("sudo"), P("-n")] + [P("test"), P("-d"), Q(dir)];
    SudoTestText(ShellQuote(dir));
  }

  lemma SudoTestText(q: string)
    ensures "sudo" + " " + "-n" + " " + ("test" + " " + "-d" + " " + q) == "sudo -n test -d " + q
  {
    assert "sudo" + " " + "-n" + " " + ("test" + " " + "-d" + " ") == "sudo -n test -d ";
    Assoc("sudo" + " " + "-n" + " ", "test" + " " + "-d" + " ", q);
  }

  lemma OneList(cs: seq<Command>)
    ensures Show([cs]) == ShowChain(cs)
  {
    hide ShowChain;
  }

  lemma ParsesAs(cs: seq<Command>, text: string)
    requires cs != [] && text == ShowChain(cs) && forall i :: 0 <= i < |cs| ==> PrintableCommand(cs[i])
    ensures ParseScript(text) == Some([cs])
  {
    hide ParseScript, ShowChain, PrintableCommand;
    OneList(cs);
    ParseShow([cs]);
  }

  lemma ThreeCommands(a: Command, b: Command, c: Command)
    ensures ShowChain([a, b, c]) == ShowCommand(a) + " && " + (ShowCommand(b) + " && " + ShowCommand(c))
  {
    TwoCommands(b, c);
    assert [a, b, c][1..] == [b, c];
  }

  /** For every path the probe of its directory parses to tests of exactly that directory: that it is there and,
      without sudo, that it can be written. */
  lemma DirProbeAsks(e: Escalation, path: string)
    requires NulFree(path)
    ensures var dir := ParentDir(path);
            var asked := if e.Sudo? then [SudoTest("-d", dir), SAY_OK]
                         else [Test("-d", dir), Test("-w", dir), SAY_OK];
            ParseScript(DirProbe(e, path).command) == Some([asked])
  {
    hide ParseScript, ShowCommand, ShowChain, ShellQuote, PrintableCommand;
    var dir := ParentDir(path);
    var q := ShellQuote(dir);
    ParentNulFree(path);
    ShowSayOk();
    if e.Sudo? {
      ShowSudoTest(dir);
      TwoCommands(SudoTest("-d", dir), SAY_OK);
      Assoc("sudo -n test -d ", q, " && echo OK");
      assert "sudo -n test -d " + q + " && echo OK" == "sudo -n test -d " + q + " && " + "echo OK";
      ParsesAs([SudoTest("-d", dir), SAY_OK], DirProbe(e, path).command);
    } else {
      ShowTest("-d", dir);
      ShowTest("-w", dir);
      ThreeCommands(Test("-d", dir), Test("-w", dir), SAY_OK);
      DirectProbeText(q);
      ParsesAs([Test("-d", dir), Test("-w", dir), SAY_OK], DirProbe(e, path).command);
    }
  }

  lemma DirectProbeText(q: string)
    ensures "test -d " + q + " && test -w " + q + " && echo OK"
         == "test " + "-d" + " " + q + " && " + ("test " + "-w" + " " + q + " && " + "echo OK")
  {
    assert "test " + "-d" + " " == "test -d " && " && " + ("test " + "-w" + " ") == " && test -w ";
    assert " && " + "echo OK" == " && echo OK";
    Assoc("test -d " + q, " && ", "test -w ");
    Assoc("test -d " + q + " && ", "test -w ", q);
    Assoc("test -d " + q + " && ", "test -w " + q, " && echo OK");
  }

  lemma ParentNulFree(path: string)
    requires NulFree(path)
    ensures NulFree(ParentDir(path))
  {}

  /** The probe of the staging directory makes it, keeps it to its owner and tests that it can be written. */
  lemma StagingProbeAsks(dir: string)
    requires NulFree(dir)
    ensures ParseScript(StagingProbe(dir).command)
         == Some([[Command([P("mkdir"), P("-p"), Q(dir)], None), Command([P("chmod"), P("700"), Q(dir)], None),
                   Test("-w", dir), SAY_OK]])
  {
    hide ParseScript, ShowCommand, ShowChain, ShellQuote, PrintableCommand;
    var make, keep := Command([P("mkdir"), P("-p"), Q(dir)], None), Command([P("chmod"), P("700"), Q(dir)], None);
    ShowMake(dir);
    ShowKeep(dir);
    ShowTest("-w", dir);
    ShowSayOk();
    ThreeCommands(keep, Test("-w", dir), SAY_OK);
    FourCommands(make, [keep, Test("-w", dir), SAY_OK]);
    StagingProbeText(ShellQuote(dir));
    ParsesAs([make] + [keep, Test("-w", dir), SAY_OK], StagingProbe(dir).command);
    assert [make] + [keep, Test("-w", dir), SAY_OK] == [make, keep, Test("-w", dir), SAY_OK];
  }

  /** The blank after `>` may be left out in front of a plain word. */
  lemma BlankAfterGreat(shown: string, b: string)
    requires AtRest(Feed(START, shown)) && b != "" && IsPlainChar(b[0])
    ensures ParseScript(shown + " >" + b) == ParseScript(shown + " > " + b)
  {
    hide ParseAll;
    var l := Feed(START, shown);
    var m := Lexer(Flushed(l), None, Bare);
    var n := Lexer(Flushed(l) + [Great], None, AfterGreat);
    FeedOne(l, ' ');
    FeedOne(m, '>');
    FeedOne(n, ' ');
    assert " >" == " " + ">" && " > " == " " + ">" + " ";
    FeedConcat(l, " ", ">");
    FeedConcat(l, " " + ">", " ");
    FeedConcat(START, shown, " >");
    FeedConcat(START, shown + " >", b);
    FeedConcat(START, shown, " > ");
    FeedConcat(START, shown + " > ", b);
    assert Step(n, b[0]) == Step(n.(mode := Bare), b[0]);
    assert Feed(n, b) == Feed(n.(mode := Bare), b);
    assert Tokenize(shown + " >" + b) == Tokenize(shown + " > " + b);
  }

  function Silently(c: Command): Command { c.(redirect := Some(P("/dev/null"))) }

  /** The sudo probe asks for a command as root without a password, for `install`, and says OK when both are there. */
  lemma SudoProbeAsks()
    ensures SUDO_PROBE.Check?
    ensures ParseScript(SUDO_PROBE.command)
         == Some([[Command([P("sudo"), P("-n"), P("true")], None),
                   Command([P("command"), P("-v"), P("install")], Some(P("/dev/null"))), SAY_OK]])
  {
    hide ParseScript, ShowCommand, ShowChain, PrintableCommand, Feed, IsPlainChar, SUDO_PROBE;
    var root := Command([P("sudo"), P("-n"), P("true")], None);
    var find := Command([P("command"), P("-v"), P("install")], None);
    ShowRootTrue();
    ShowFind();
    ShowSayOk();
    TwoCommands(root, find);
    ThreeCommands(root, Silently(find), SAY_OK);
    TokenizesAtRest([root, find]);
    assert ShowChain([root, find]) == SudoFound();
    SudoProbeText();
    hide SudoFound;
    PlainSlash();
    BlankAfterGreat(SudoFound(), "/dev/null && echo OK");
    ParsesAs([root, Silently(find), SAY_OK], SudoFound() + " > " + "/dev/null && echo OK");
  }

  function SudoFound(): string { "sudo -n true" + " && " + "command -v install" }

  lemma SudoProbeText()
    ensures SUDO_PROBE == Check(SudoFound() + " >" + "/dev/null && echo OK")
    ensures "sudo -n true" + " && " + ("command -v install > /dev/null" + " && " + "echo OK")
         == SudoFound() + " > " + "/dev/null && echo OK"
  {
    SudoProbeLiteral();
    SilentText();
    var a, b, c := "sudo -n true" + " && ", "command -v install", " > " + "/dev/null && echo OK";
    Assoc(a, b, c);
    Assoc(SudoFound(), " > ", "/dev/null && echo OK");
  }

  lemma SilentText()
    ensures "command -v install > /dev/null" + " && " + "echo OK"
         == "command -v install" + (" > " + "/dev/null && echo OK")
  {}

  lemma SudoProbeLiteral()
    ensures SUDO_PROBE == Check(SudoFound() + " >" + "/dev/null && echo OK")
  {
    var a, b, c := "sudo -n true && ", "command -v install ", ">/dev/null && echo OK";
    assert a == "sudo -n true" + " && " && b == "command -v install" + " " && c == ">" + "/dev/null && echo OK";
    var d := "command -v install";
    Assoc("sudo -n true" + " && ", d, " ");
    assert " " + ">" == " >";
    Assoc(SudoFound() + " ", ">", "/dev/null && echo OK");
    Assoc(SudoFound(), " ", ">");
  }

  lemma PlainSlash()
    ensures IsPlainChar('/')
  {}

  lemma TokenizesAtRest(cs: seq<Command>)
    requires cs != [] && forall j :: 0 <= j < |cs| ==> PrintableCommand(cs[j])
    ensures AtRest(Feed(START, ShowChain(cs)))
  {
    hide ShowChain, ChainTokens, Spaced, PrintableCommand, Feed;
    ShowChainSpaced(cs);
    SolidChain(cs);
    TokenizeSpaced(ChainTokens(cs));
  }

  lemma ShowRootTrue()
    ensures var c := Command([P("sudo"), P("-n"), P("true")], None);
            ShowCommand(c) == "sudo -n true" && PrintableCommand(c)
  {
    hide Spell, ShowWords;
    SpellPlain("sudo");
    SpellPlain("-n");
    SpellPlain("true");
    ShowThree(P("sudo"), P("-n"), P("true"));
  }

  lemma ShowFind()
    ensures var c := Command([P("command"), P("-v"), P("install")], None);
            && ShowCommand(c) == "command -v install" && PrintableCommand(c)
            && ShowCommand(Silently(c)) == "command -v install > /dev/null" && PrintableCommand(Silently(c))
  {
    hide Spell, ShowWords;
    SpellPlain("command");
    SpellPlain("-v");
    SpellPlain("install");
    SpellPlain("/dev/null");
    ShowThree(P("command"), P("-v"), P("install"));
  }

  lemma FourCommands(a: Command, cs: seq<Command>)
    requires cs != []
    ensures ShowChain([a] + cs) == ShowCommand(a) + " && " + ShowChain(cs)
  {
    hide ShowCommand;
    assert ([a] + cs)[1..] == cs;
  }

  lemma ShowMake(dir: string)
    requires NulFree(dir)
    ensures var c := Command([P("mkdir"), P("-p"), Q(dir)], None);
            ShowCommand(c) == "mkdir -p " + ShellQuote(dir) && PrintableCommand(c)
  {
    hide Spell, ShellQuote, ShowWords;
    SpellPlain("mkdir");
    SpellPlain("-p");
    QuotedPrintable(dir);
    ShowThree(P("mkdir"), P("-p"), Q(dir));
  }

  lemma ShowKeep(dir: string)
    requires NulFree(dir)
    ensures var c := Command([P("chmod"), P("700"), Q(dir)], None);
            ShowCommand(c) == "chmod 700 " + ShellQuote(dir) && PrintableCommand(c)
  {
    hide Spell, ShellQuote, ShowWords;
    SpellPlain("chmod");
    SpellPlain("700");
    QuotedPrintable(dir);
    ShowThree(P("chmod"), P("700"), Q(dir));
  }

  lemma StagingProbeText(q: string)
    ensures "mkdir -p " + q + " && chmod 700 " + q + " && test -w " + q + " && echo OK"
         == "mkdir -p " + q + " && " + ("chmod 700 " + q + " && " + ("test " + "-w" + " " + q + " && " + "echo OK"))
  {
    assert "test " + "-w" + " " == "test -w " && " && " + "echo OK" == " && echo OK";
    assert " && " + "chmod 700 " == " && chmod 700 " && " && " + "test -w " == " && test -w ";
    var a := "mkdir -p " + q;
    Assoc("test -w ", q, " && echo OK");
    Assoc(a, " && ", "chmod 700 ");
    Assoc(a + " && ", "chmod 700 ", q);
    var b := a + " && chmod 700 " + q;
    Assoc(b, " && ", "test -w ");
    Assoc(b + " && ", "test -w ", q);
    Assoc(b + " && ", "test -w " + q, " && echo OK");
    Assoc(a + " && ", "chmod 700 " + q, " && " + ("test -w " + q + " && echo OK"));
    Assoc(a + " && " + ("chmod 700 " + q), " && ", "test -w " + q + " && echo OK");
  }

  // ---- their place in a run ----

  predicate FoundAt(s: string, t: string, k: nat) {
    k + |t| <= |s| && s[k..k + |t|] == t
  }

  lemma PrefixAt(s: string, t: string)
    ensures FoundAt(s, t, 0) <==> t <= s
  {
    if t <= s { assert s[0..|t|] == t; }
  }

  lemma {:induction false} ContainsMeans(s: string, t: string)
    ensures Contains(s, t) <==> exists k: nat :: FoundAt(s, t, k)
  {
    if t <= s {
      assert FoundAt(s, t, 0);
    } else if s == "" {
      assert forall k: nat :: FoundAt(s, t, k) ==> t == [];
    } else {
      PrefixAt(s, t);
      ContainsMeans(s[1..], t);
      if k: nat :| FoundAt(s, t, k) {
        assert s[1..][k - 1..k - 1 + |t|] == s[k..k + |t|];
        assert FoundAt(s[1..], t, k - 1);
      } else if k: nat :| FoundAt(s[1..], t, k) {
        assert s[k + 1..k + 1 + |t|] == s[1..][k..k + |t|];
        assert FoundAt(s, t, k + 1);
      }
    }
  }

  ghost predicate SaysOk(heard: string) {
    exists k: nat :: FoundAt(heard, "OK", k)
  }

  /** A probe passes when the channel worked, the last status sent before Close is zero and what was heard has OK
      somewhere in it. */
  lemma ProbePasses(s: RemoteStep, x: Exchange)
    requires s.Check?
    ensures Passes(s, x)
       <==> x.link == LinkOk && LastStatus(Seen(x.msgs)) == 0 && SaysOk(Output(Seen(x.msgs), true))
  {
    hide Output, Seen, FoundAt, Contains;
    ContainsMeans(Output(Seen(x.msgs), true), "OK");
  }

  lemma Probed(t: Target, path: string)
    requires path == t.certPath || path == t.keyPath || t.chainPath == Some(path)
    ensures DirProbe(t.escalation, path) in Checks(t)
    ensures t.escalation.Sudo? ==> SUDO_PROBE in Checks(t) && StagingProbe(t.escalation.stagingDir) in Checks(t)
  {
    hide DirProbe, StagingProbe;
    var probes := if t.escalation.Sudo? then [SUDO_PROBE, StagingProbe(t.escalation.stagingDir)] else [];
    var n := |probes|;
    assert Checks(t)[..n] == probes;
    assert Checks(t)[n] == DirProbe(t.escalation, t.certPath);
    assert Checks(t)[n + 1] == DirProbe(t.escalation, t.keyPath);
    if t.chainPath.Some? { assert Checks(t)[n + 2] == DirProbe(t.escalation, t.chainPath.value); }
    if t.escalation.Sudo? {
      assert Checks(t)[0] == SUDO_PROBE && Checks(t)[1] == StagingProbe(t.escalation.stagingDir);
    }
  }

  lemma WrittenPaths(t: Target, w: RemoteStep)
    requires w in Writes(t)
    ensures w.Write? && (w.path == t.certPath || w.path == t.keyPath || t.chainPath == Some(w.path))
  {}

  /** No file is sent before the directory of every file of the run was found usable and, under sudo, sudo and the
      staging directory. */
  lemma ProbedBeforeSent(t: Target, checkOnly: bool, net: seq<Exchange>, i: nat, path: string)
    requires var plan := Plan(t, checkOnly); i < Attempted(plan, net, 0) && plan[i].Write?
    requires path == t.certPath || path == t.keyPath || t.chainPath == Some(path)
    ensures var passed := Plan(t, checkOnly)[..i];
            && (forall j :: 0 <= j < i ==> Passes(passed[j], At(net, j)))
            && DirProbe(t.escalation, path) in passed
            && (t.escalation.Sudo? ==> SUDO_PROBE in passed && StagingProbe(t.escalation.stagingDir) in passed)
  {
    AttemptedPassed(Plan(t, checkOnly), net, 0, i);
    PlanKinds(t, checkOnly, i);
    PlanParts(t, checkOnly);
    Probed(t, path);
    hide Checks, Plan, DirProbe, StagingProbe, Passes, Attempted;
    var c := |Checks(t)|;
    forall s | s in Checks(t) ensures s in Plan(t, checkOnly)[..i] {
      var k :| 0 <= k < c && Checks(t)[k] == s;
      assert Plan(t, checkOnly)[..c][k] == Plan(t, checkOnly)[..i][k];
    }
  }

  /** Every write of a run is one whose directory was probed. */
  lemma SentPaths(t: Target, checkOnly: bool, i: nat)
    requires i < |Plan(t, checkOnly)| && Plan(t, checkOnly)[i].Write?
    ensures var p := Plan(t, checkOnly)[i].path; p == t.certPath || p == t.keyPath || t.chainPath == Some(p)
  {
    PlanKinds(t, checkOnly, i);
    PlanParts(t, checkOnly);
    var c, w := |Checks(t)|, |Writes(t)|;
    WrittenPaths(t, Writes(t)[i - c]);
    hide Checks, Plan, Writes;
    assert Plan(t, checkOnly)[c..c + w][i - c] == Plan(t, checkOnly)[i];
  }

  /** A run that goes through has sent the reload command as its last step exactly when one is configured that is not
      blank: as it was configured without sudo, and as the one argument of a root shell with sudo. */
  lemma ReloadSent(t: Target, net: seq<Exchange>)
    requires AllPass(Plan(t, false), net)
    ensures Attempted(Plan(t, false), net, 0) == |Plan(t, false)|
    ensures (exists s :: s in Plan(t, false) && s.Reload?) <==> t.reload.Some? && !Basics.IsBlank(t.reload.value)
    ensures t.reload.Some? && !Basics.IsBlank(t.reload.value) ==>
              && Plan(t, false) != []
              && var last := Plan(t, false)[|Plan(t, false)| - 1];
                 && last.Reload?
                 && (t.escalation == Direct ==> last.command == t.reload.value)
                 && (t.escalation.Sudo? && NulFree(t.reload.value) ==>
                       ParseScript(last.command) == Some([[Wrapped(t.reload.value)]]))
  {
    var plan := Plan(t, false);
    AttemptedAt(plan, net, 0, |plan|);
    PlanParts(t, false);
    var n := |Checks(t)| + |Writes(t)|;
    forall i | 0 <= i < |plan| ensures plan[i].Reload? <==> i == n { PlanKinds(t, false, i); }
    hide Checks, Writes, Plan, Attempted, PrivilegedCommand, ParseScript, Basics.IsBlank;
    if t.reload.Some? && !Basics.IsBlank(t.reload.value) {
      assert plan[n..][0] == plan[n];
      assert plan[n] in plan;
      match t.escalation
      case Direct => PrivilegedParses("", t.reload.value);
      case Sudo(dir) => PrivilegedParses(dir, t.reload.value);
    }
  }
}
