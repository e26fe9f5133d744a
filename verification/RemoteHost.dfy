/** The deployment target: its files, and what the utilities named in the generated commands do to
    them.  Whether a utility succeeds is decided from outside, by a `Luck`. */
module RemoteHost {
  import opened Wrappers
  import opened Positional
  import opened Decimal
  import opened Shell

  datatype Owner = Deployer | Root

  datatype Node = File(data: seq<Byte>, mode: string, owner: Owner) | Dir

  /** Path names are taken as they are: no links, no `.` or `..`, no working directory. */
  type Fs = map<string, Node>

  datatype CatLuck = CatDone | CatRefused | CatCut(n: nat)

  datatype Leftover = Untouched | Removed | Damaged(node: Node)

  datatype InstallLuck = InstallDone | InstallFailed(status: nat, left: Leftover)

  /** What a utility does when it reads an operand as an option: any status, and any change of files. */
  datatype Misread = Misread(status: nat, files: Option<Fs>)

  /** It prints its help. */
  const HELP := Misread(0, None)

  /** How the environment treats one command run. */
  datatype Luck = Luck(cat: CatLuck, install: InstallLuck, chmodDone: bool, removeDone: bool,
                       installMisread: Misread, chmodMisread: Misread, removeMisread: Misread)

  predicate Fair(luck: Luck) {
    && luck.installMisread.status < 256 && luck.chmodMisread.status < 256 && luck.removeMisread.status < 256
    && (luck.install.InstallFailed? ==> 0 < luck.install.status < 256)
  }

  /** A misread operand changes no file. */
  predicate Docile(luck: Luck) {
    && luck.installMisread.files == None
    && luck.chmodMisread.files == None
    && luck.removeMisread.files == None
  }

  const SMOOTH := Luck(CatDone, InstallDone, true, true, HELP, HELP, HELP)

  /** A running shell. */
  datatype Proc = Proc(fs: Fs, umask: string, vars: map<string, string>, status: nat, exited: bool)

  function Login(fs: Fs): Proc {
    Proc(fs, "022", map[], 0, false)
  }

  // ---- paths ----

  predicate EndsWithSlash(p: string) {
    p != [] && p[|p| - 1] == '/'
  }

  /** `trim_end_matches('/')`. */
  function TrimSlashes(p: string): (t: string)
    ensures !EndsWithSlash(t) && t <= p
  {
    if EndsWithSlash(p) then TrimSlashes(p[..|p| - 1]) else p
  }

  /** `rsplit('/').next()`: what follows the last slash. */
  function LastPart(p: string): (b: string)
    ensures '/' !in b && |b| <= |p|
    ensures EndsWithSlash(p) ==> b == ""
  {
    if p == [] || p[|p| - 1] == '/' then "" else LastPart(p[..|p| - 1]) + [p[|p| - 1]]
  }

  predicate IsFile(fs: Fs, p: string) { p in fs && fs[p].File? }

  predicate IsDir(fs: Fs, p: string) {
    var d := if p != "" && TrimSlashes(p) == "" then "/" else TrimSlashes(p);
    d in fs && fs[d].Dir?
  }

  /** A word that a utility takes for an option instead of a path. */
  predicate IsOption(p: string) {
    |p| > 1 && p[0] == '-'
  }

  // ---- utilities ----

  /** `cat > path` with `stdin` on its input. */
  function Cat(p: Proc, path: string, stdin: seq<Byte>, luck: Luck): Proc {
    if luck.cat == CatRefused || path == "" || EndsWithSlash(path) || (path in p.fs && p.fs[path].Dir?) then
      p.(status := 1)
    else
      var data := if luck.cat.CatCut? && luck.cat.n < |stdin| then stdin[..luck.cat.n] else stdin;
      var node := if path in p.fs then p.fs[path].(data := data)
                  else File(data, if p.umask == "077" then "600" else "644", Deployer);
      p.(fs := p.fs[path := node], status := if luck.cat.CatCut? then 1 else 0)
  }

  function TakeOption(p: Proc, m: Misread): Proc {
    p.(fs := if m.files.Some? then m.files.value else p.fs, status := m.status)
  }

  /** Where `install src dst` puts the file. */
  function InstallTarget(fs: Fs, src: string, dst: string): string {
    if IsDir(fs, dst) then TrimSlashes(dst) + "/" + LastPart(src) else dst
  }

  function Install(p: Proc, mode: string, src: string, dst: string, luck: Luck): Proc {
    if IsOption(src) || IsOption(dst) then TakeOption(p, luck.installMisread)
    else
      var target := InstallTarget(p.fs, src, dst);
      if !IsFile(p.fs, src) || target == src || target == "" || EndsWithSlash(target)
         || (target in p.fs && p.fs[target].Dir?) then
        p.(status := 1)
      else match luck.install
        case InstallDone => p.(fs := p.fs[target := File(p.fs[src].data, mode, Root)], status := 0)
        case InstallFailed(st, left) =>
          p.(status := st, fs := match left
            case Untouched => p.fs
            case Removed => p.fs - {target}
            case Damaged(node) => p.fs[target := node])
  }

  function Chmod(p: Proc, mode: string, path: string, luck: Luck): Proc {
    if IsOption(path) then TakeOption(p, luck.chmodMisread)
    else if path !in p.fs || !luck.chmodDone then p.(status := 1)
    else if p.fs[path].Dir? then p.(status := 0)
    else p.(fs := p.fs[path := p.fs[path].(mode := mode)], status := 0)
  }

  /** `rm -f path`. */
  function Remove(p: Proc, path: string, luck: Luck): Proc {
    if IsOption(path) then TakeOption(p, luck.removeMisread)
    else if path !in p.fs then p.(status := 0)
    else if p.fs[path].Dir? || !luck.removeDone then p.(status := 1)
    else p.(fs := p.fs - {path}, status := 0)
  }

  // ---- expansion ----

  predicate IsNameChar(c: char) {
    c == '_' || 'a' <= c <= 'z' || 'A' <= c <= 'Z' || '0' <= c <= '9'
  }

  /** The unquoted name characters a word starts with. */
  function NamePrefix(w: Word): (n: nat)
    ensures n <= |w|
  {
    if w != [] && !w[0].quoted && IsNameChar(w[0].c) then 1 + NamePrefix(w[1..]) else 0
  }

  function VarValue(p: Proc, name: string): string {
    if name in p.vars then p.vars[name] else ""
  }

  /** Parameter expansion and quote removal. */
  function Expand(w: Word, p: Proc): string
    decreases |w|
  {
    if w == [] then ""
    else if w[0] == QChar('$', false) && |w| > 1 && w[1] == QChar('?', false) then
      ToText(p.status) + Expand(w[2..], p)
    else if w[0] == QChar('$', false) && NamePrefix(w[1..]) > 0 then
      var n := NamePrefix(w[1..]);
      VarValue(p, Text(w[1..][..n])) + Expand(w[1..][n..], p)
    else [w[0].c] + Expand(w[1..], p)
  }

  function ExpandAll(ws: seq<Word>, p: Proc): (argv: seq<string>)
    ensures |argv| == |ws|
  {
    seq(|ws|, i requires 0 <= i < |ws| => Expand(ws[i], p))
  }

  predicate IsAssignment(w: Word) {
    var n := NamePrefix(w);
    0 < n < |w| && w[n] == QChar('=', false)
  }

  // ---- execution ----

  const INSTALL_ARGS := ["sudo", "-n", "install", "-o", "root", "-g", "root", "-m"]

  function RunArgv(argv: seq<string>, p: Proc, luck: Luck): Proc {
    if |argv| == 2 && argv[0] == "umask" then p.(umask := argv[1], status := 0)
    else if |argv| == 2 && argv[0] == "exit" && AllDigits(argv[1]) then
      p.(status := FromText(argv[1]) % 256, exited := true)
    else if |argv| == 3 && argv[0] == "chmod" then Chmod(p, argv[1], argv[2], luck)
    else if |argv| == 3 && argv[0] == "rm" && argv[1] == "-f" then Remove(p, argv[2], luck)
    else if |argv| == 11 && argv[..8] == INSTALL_ARGS then Install(p, argv[8], argv[9], argv[10], luck)
    else p.(status := 127)
  }

  function RunCommand(c: Command, p: Proc, stdin: seq<Byte>, luck: Luck): Proc {
    if c.redirect.Some? then
      if ExpandAll(c.words, p) == ["cat"] then Cat(p, Expand(c.redirect.value, p), stdin, luck)
      else p.(status := 127)
    else if |c.words| == 1 && IsAssignment(c.words[0]) then
      var w := c.words[0];
      var n := NamePrefix(w);
      p.(vars := p.vars[Text(w[..n]) := Expand(w[n + 1..], p)], status := 0)
    else RunArgv(ExpandAll(c.words, p), p, luck)
  }

  /** `a && b && c`. */
  function RunChain(cs: seq<Command>, p: Proc, stdin: seq<Byte>, luck: Luck): Proc
    decreases |cs|
  {
    if cs == [] then p else
      var q := RunCommand(cs[0], p, stdin, luck);
      if q.status != 0 || q.exited then q else RunChain(cs[1..], q, stdin, luck)
  }

  function RunLists(s: Script, p: Proc, stdin: seq<Byte>, luck: Luck): Proc
    decreases |s|
  {
    if s == [] || p.exited then p else RunLists(s[1..], RunChain(s[0], p, stdin, luck), stdin, luck)
  }

  /** The same for a shell that is killed after `n` of its simple commands; one killed in the middle of
      a command is one whose last command was cut. */
  function RunUpTo(s: Script, p: Proc, stdin: seq<Byte>, luck: Luck, n: nat): Proc
    decreases n, |s|
  {
    if n == 0 || s == [] || p.exited then p
    else if s[0] == [] then RunUpTo(s[1..], p, stdin, luck, n)
    else
      var q := RunCommand(s[0][0], p, stdin, luck);
      RunUpTo(if q.status != 0 || q.exited then s[1..] else [s[0][1..]] + s[1..], q, stdin, luck, n - 1)
  }

  function CommandCount(s: Script): nat {
    if s == [] then 0 else |s[0]| + CommandCount(s[1..])
  }

  /** A shell that is given time for all its commands runs to the end. */
  lemma {:induction false} EnoughTime(s: Script, p: Proc, stdin: seq<Byte>, luck: Luck, n: nat)
    requires CommandCount(s) <= n
    ensures RunUpTo(s, p, stdin, luck, n) == RunLists(s, p, stdin, luck)
    decreases n, |s|
  {
    hide RunCommand;
    if s == [] || p.exited {
    } else if s[0] == [] {
      EnoughTime(s[1..], p, stdin, luck, n);
    } else {
      var q := RunCommand(s[0][0], p, stdin, luck);
      if q.status != 0 || q.exited {
        EnoughTime(s[1..], q, stdin, luck, n - 1);
      } else {
        var rest := [s[0][1..]] + s[1..];
        assert rest[1..] == s[1..];
        EnoughTime(rest, q, stdin, luck, n - 1);
      }
    }
  }

  function RunTextUpTo(command: string, fs: Fs, stdin: seq<Byte>, luck: Luck, n: nat): Option<Proc> {
    match ParseScript(command)
    case None => None
    case Some(s) => Some(RunUpTo(s, Login(fs), stdin, luck, n))
  }

  /** What a host does with a command string; None when the string is outside the modelled syntax. */
  function RunText(command: string, fs: Fs, stdin: seq<Byte>, luck: Luck): Option<Proc> {
    match ParseScript(command)
    case None => None
    case Some(s) => Some(RunLists(s, Login(fs), stdin, luck))
  }

  // ---- words that expand to themselves ----

  lemma {:induction false} ExpandQuoted(v: string, p: Proc)
    ensures Expand(Q(v), p) == v
  {
    if v == [] {
    } else {
      assert Q(v)[1..] == Q(v[1..]);
      ExpandQuoted(v[1..], p);
    }
  }

  lemma {:induction false} ExpandPlain(v: string, p: Proc)
    requires '$' !in v
    ensures Expand(P(v), p) == v
  {
    if v == [] {
    } else {
      assert P(v)[0].c in v;
      assert P(v)[1..] == P(v[1..]);
      ExpandPlain(v[1..], p);
    }
  }
}
