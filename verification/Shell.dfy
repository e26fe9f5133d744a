/** The part of the shell command language (IEEE Std 1003.1-2017, Shell Command Language, sections
    2.2.1, 2.2.2, 2.3, 2.9) that backend/src/deploy.rs writes: words, single quotes, backslash,
    `;`, `&&` and `>`.  Everything else makes the tokenizer or the parser give up. */
module Shell {
  import opened Wrappers

  /** A character of a word, and whether quoting has made it literal. */
  datatype QChar = QChar(c: char, quoted: bool)

  type Word = seq<QChar>

  datatype Token = W(word: Word) | Semi | AndIf | Great

  // ---- token recognition ----

  datatype Mode = Bare | Single | Escape | Amp | AfterGreat | AfterSemi

  datatype Lexer =
    | Lexer(out: seq<Token>, cur: Option<Word>, mode: Mode)
    | Rejected

  const START := Lexer([], None, Bare)

  /** Characters that start or end nothing outside quotes. */
  predicate IsPlainChar(c: char) {
    c !in {'\0', ' ', '\t', '\n', ';', '&', '>', '<', '|', '(', ')', '\'', '\\', '\"', '`', '#'}
  }

  function CurWord(l: Lexer): Word
    requires l.Lexer?
  {
    if l.cur.Some? then l.cur.value else []
  }

  function Flushed(l: Lexer): seq<Token>
    requires l.Lexer?
  {
    if l.cur.Some? then l.out + [W(l.cur.value)] else l.out
  }

  function Append(l: Lexer, c: char, quoted: bool, mode: Mode): Lexer
    requires l.Lexer?
  {
    Lexer(l.out, Some(CurWord(l) + [QChar(c, quoted)]), mode)
  }

  predicate IsIoNumber(w: Word) {
    w != [] && forall i :: 0 <= i < |w| ==> !w[i].quoted && '0' <= w[i].c <= '9'
  }

  function StepBare(l: Lexer, c: char): Lexer
    requires l.Lexer?
  {
    if c == ' ' || c == '\t' then Lexer(Flushed(l), None, Bare)
    else if c == ';' then Lexer(Flushed(l) + [Semi], None, AfterSemi)
    else if c == '&' then Lexer(Flushed(l), None, Amp)
    else if c == '>' then
      if l.cur.Some? && IsIoNumber(l.cur.value) then Rejected else Lexer(Flushed(l) + [Great], None, AfterGreat)
    else if c == '\'' then Lexer(l.out, Some(CurWord(l)), Single)
    else if c == '\\' then Lexer(l.out, l.cur, Escape)
    else if IsPlainChar(c) || (c == '#' && l.cur.Some?) then Append(l, c, false, Bare)
    else Rejected
  }

  function Step(l: Lexer, c: char): Lexer {
    if l.Rejected? || c == '\0' then Rejected
    else match l.mode
      case Bare => StepBare(l, c)
      case Single => if c == '\'' then Lexer(l.out, Some(CurWord(l)), Bare) else Append(l, c, true, Single)
      case Escape => if c == '\n' then Lexer(l.out, l.cur, Bare) else Append(l, c, true, Bare)
      case Amp => if c == '&' then Lexer(l.out + [AndIf], None, Bare) else Rejected
      case AfterGreat => if c == '>' || c == '&' || c == '|' then Rejected else StepBare(l, c)
      case AfterSemi => if c == ';' then Rejected else StepBare(l, c)
  }

  function Feed(l: Lexer, s: string): Lexer
    decreases |s|
  {
    if s == [] then l else Feed(Step(l, s[0]), s[1..])
  }

  predicate AtRest(l: Lexer) {
    l.Lexer? && (l.mode == Bare || l.mode == AfterGreat || l.mode == AfterSemi)
  }

  function Tokenize(s: string): Option<seq<Token>> {
    var l := Feed(START, s);
    if AtRest(l) then Some(Flushed(l)) else None
  }

  // ---- quoting ----

  /** `value.replace('\'', "'\\''")`. */
  function EscapeQuotes(v: string): string {
    if v == [] then [] else (if v[0] == '\'' then "'\\''" else [v[0]]) + EscapeQuotes(v[1..])
  }

  function ShellQuote(v: string): string {
    "'" + EscapeQuotes(v) + "'"
  }

  function Literal(v: string, quoted: bool): (w: Word)
    ensures |w| == |v|
  {
    seq(|v|, i requires 0 <= i < |v| => QChar(v[i], quoted))
  }

  function Q(v: string): Word { Literal(v, true) }

  function P(v: string): Word { Literal(v, false) }

  /** The characters of a word, quoting removed. */
  function Text(w: Word): (s: string)
    ensures |s| == |w|
  {
    seq(|w|, i requires 0 <= i < |w| => w[i].c)
  }

  predicate AllQuoted(w: Word) {
    forall i :: 0 <= i < |w| ==> w[i].quoted && w[i].c != '\0'
  }

  predicate AllPlain(w: Word) {
    w != [] && forall i :: 0 <= i < |w| ==> !w[i].quoted && IsPlainChar(w[i].c)
  }

  predicate Printable(w: Word) {
    AllPlain(w) || AllQuoted(w)
  }

  function Spell(t: Token): string {
    match t
    case W(w) => if AllPlain(w) then Text(w) else ShellQuote(Text(w))
    case Semi => ";"
    case AndIf => "&&"
    case Great => ">"
  }

  /** Tokens separated by single blanks, none before a semicolon. */
  function Spaced(ts: seq<Token>): string {
    if ts == [] then "" else Spell(ts[0]) + Tail(ts[1..])
  }

  function Tail(ts: seq<Token>): string {
    if ts == [] then "" else Gap(ts[0]) + Spell(ts[0]) + Tail(ts[1..])
  }

  function Gap(t: Token): string {
    if t == Semi then "" else " "
  }

  predicate PrintableTokens(ts: seq<Token>) {
    && (forall i :: 0 <= i < |ts| && ts[i].W? ==> Printable(ts[i].word))
    && (forall i :: 0 < i < |ts| ==> !(ts[i - 1] == Semi && ts[i] == Semi))
  }

  lemma {:induction false} FeedConcat(l: Lexer, s: string, t: string)
    ensures Feed(l, s + t) == Feed(Feed(l, s), t)
    decreases |s|
  {
    if s == [] {
      assert s + t == t;
    } else {
      assert (s + t)[1..] == s[1..] + t;
      FeedConcat(Step(l, s[0]), s[1..], t);
    }
  }

  lemma {:induction false} FeedPlain(l: Lexer, s: string)
    requires l.Lexer? && l.mode == Bare
    requires forall i :: 0 <= i < |s| ==> IsPlainChar(s[i])
    ensures s != [] ==> Feed(l, s) == Lexer(l.out, Some(CurWord(l) + P(s)), Bare)
    decreases |s|
  {
    if s == [] {
    } else {
      var m := Append(l, s[0], false, Bare);
      assert Step(l, s[0]) == m;
      FeedPlain(m, s[1..]);
      assert CurWord(l) + P(s) == CurWord(m) + P(s[1..]);
      if |s| == 1 { assert CurWord(m) + P(s[1..]) == CurWord(m) && Feed(m, s[1..]) == m; }
    }
  }

  lemma FourSteps(l: Lexer)
    requires l.Lexer? && l.mode == Single
    ensures Feed(l, "'\\''") == Append(l, '\'', true, Single)
  {
    var s := "'\\''";
    var l1 := Step(l, s[0]);
    var l2 := Step(l1, s[1]);
    var l3 := Step(l2, s[2]);
    var l4 := Step(l3, s[3]);
    assert s[1..][1..] == s[2..] && s[2..][1..] == s[3..] && s[3..][1..] == [];
    assert Feed(l, s) == Feed(l1, s[1..]) == Feed(l2, s[2..]) == Feed(l3, s[3..]) == Feed(l4, []);
  }

  lemma {:induction false} FeedEscaped(l: Lexer, v: string)
    requires l.Lexer? && l.mode == Single && l.cur.Some? && '\0' !in v
    ensures Feed(l, EscapeQuotes(v)) == Lexer(l.out, Some(l.cur.value + Q(v)), Single)
    decreases |v|
  {
    if v == [] {
      assert l.cur.value + Q(v) == l.cur.value;
    } else {
      var m := Append(l, v[0], true, Single);
      var head := if v[0] == '\'' then "'\\''" else [v[0]];
      if v[0] == '\'' {
        FourSteps(l);
      } else {
        assert head[1..] == [];
        assert Feed(l, head) == Feed(Step(l, v[0]), []);
      }
      FeedConcat(l, head, EscapeQuotes(v[1..]));
      FeedEscaped(m, v[1..]);
      assert l.cur.value + Q(v) == m.cur.value + Q(v[1..]);
    }
  }

  lemma FeedOne(l: Lexer, c: char)
    ensures Feed(l, [c]) == Step(l, c)
  {
    assert [c][1..] == [];
    assert Feed(Step(l, c), []) == Step(l, c);
  }

  /** A quoted string reads back as one word with exactly its characters, all of them literal. */
  lemma FeedQuoted(l: Lexer, v: string)
    requires AtRest(l) && '\0' !in v
    ensures Feed(l, ShellQuote(v)) == Lexer(l.out, Some(CurWord(l) + Q(v)), Bare)
  {
    var m := Lexer(l.out, Some(CurWord(l)), Single);
    FeedOne(l, '\'');
    FeedEscaped(m, v);
    FeedOne(Lexer(l.out, Some(CurWord(l) + Q(v)), Single), '\'');
    FeedConcat(l, "'", EscapeQuotes(v));
    FeedConcat(l, "'" + EscapeQuotes(v), "'");
  }

  lemma FeedWord(l: Lexer, w: Word)
    requires AtRest(l) && l.cur == None && Printable(w)
    ensures Feed(l, Spell(W(w))) == Lexer(l.out, Some(w), Bare)
  {
    var s := Text(w);
    if AllPlain(w) {
      var m := Append(l, s[0], false, Bare);
      assert Step(l, s[0]) == m;
      assert IsPlainChar(s[0]);
      forall i | 0 <= i < |s[1..]| ensures IsPlainChar(s[1..][i]) { assert s[1..][i] == w[i + 1].c; }
      FeedPlain(m, s[1..]);
      assert CurWord(m) + P(s[1..]) == w;
      assert Feed(l, s) == Feed(m, s[1..]);
      if |s| == 1 { assert CurWord(m) == w && Feed(m, s[1..]) == m; }
    } else {
      forall i | 0 <= i < |s| ensures s[i] != '\0' { assert w[i].quoted; }
      FeedQuoted(l, s);
      assert [] + Q(s) == w;
    }
  }

  /** One more token, spaced or first, adds exactly that token. */
  lemma FeedToken(l: Lexer, t: Token, gap: string)
    requires AtRest(l) && (gap == Gap(t) || (gap == "" && l == START))
    requires t.W? ==> Printable(t.word)
    requires t == Semi ==> l.mode != AfterSemi
    ensures var m := Feed(l, gap + Spell(t));
            && AtRest(m) && Flushed(m) == Flushed(l) + [t]
            && (m.mode == AfterSemi <==> t == Semi)
  {
    FeedOne(l, ' ');
    FeedOne(l, ';');
    var r := if gap == "" then l else Lexer(Flushed(l), None, Bare);
    assert Feed(l, gap) == r;
    FeedConcat(l, gap, Spell(t));
    match t {
      case W(w) => FeedWord(r, w);
      case Semi =>
      case Great => FeedOne(r, '>');
      case AndIf =>
        FeedOne(r, '&');
        FeedOne(Lexer(Flushed(r), None, Amp), '&');
        FeedConcat(r, "&", "&");
        assert "&&" == "&" + "&";
    }
  }

  lemma {:induction false} FeedTail(l: Lexer, ts: seq<Token>)
    requires AtRest(l) && PrintableTokens(ts)
    requires ts != [] && ts[0] == Semi ==> l.mode != AfterSemi
    ensures AtRest(Feed(l, Tail(ts))) && Flushed(Feed(l, Tail(ts))) == Flushed(l) + ts
    decreases |ts|
  {
    if ts == [] {
      assert Flushed(l) + ts == Flushed(l);
    } else {
      hide Feed, Step, Spell;
      FeedToken(l, ts[0], Gap(ts[0]));
      var m := Feed(l, Gap(ts[0]) + Spell(ts[0]));
      FeedConcat(l, Gap(ts[0]) + Spell(ts[0]), Tail(ts[1..]));
      assert PrintableTokens(ts[1..]);
      FeedTail(m, ts[1..]);
      assert Flushed(l) + [ts[0]] + ts[1..] == Flushed(l) + ts;
    }
  }

  lemma TokenizeSpaced(ts: seq<Token>)
    requires PrintableTokens(ts)
    ensures Tokenize(Spaced(ts)) == Some(ts)
  {
    if ts == [] {
      assert Feed(START, Spaced(ts)) == START;
    } else {
      hide Feed, Step, Spell;
      FeedToken(START, ts[0], "");
      assert "" + Spell(ts[0]) == Spell(ts[0]);
      FeedConcat(START, Spell(ts[0]), Tail(ts[1..]));
      assert PrintableTokens(ts[1..]);
      FeedTail(Feed(START, Spell(ts[0])), ts[1..]);
      assert Flushed(START) == [];
      assert [] + [ts[0]] + ts[1..] == ts;
    }
  }

  // ---- argument lists ----

  function QuotedArgs(args: seq<string>): seq<Token> {
    seq(|args|, i requires 0 <= i < |args| => W(Q(args[i])))
  }

  /** The arguments, each quoted, joined by blanks. */
  function JoinQuoted(args: seq<string>): string {
    if args == [] then "" else
      ShellQuote(args[0]) + if |args| == 1 then "" else " " + JoinQuoted(args[1..])
  }

  lemma SpellQuoted(v: string)
    ensures Spell(W(Q(v))) == ShellQuote(v)
  {
    assert Text(Q(v)) == v;
    assert v != [] ==> Q(v)[0].quoted;
  }

  lemma {:induction false} JoinIsSpaced(args: seq<string>)
    ensures JoinQuoted(args) == Spaced(QuotedArgs(args))
  {
    if args == [] {
    } else {
      hide Spell, ShellQuote, Tail;
      JoinIsSpaced(args[1..]);
      SpellQuoted(args[0]);
      assert QuotedArgs(args)[1..] == QuotedArgs(args[1..]);
      if |args| > 1 { TailIsSpaced(QuotedArgs(args[1..])); }
    }
  }

  lemma TailIsSpaced(ts: seq<Token>)
    requires ts != [] && ts[0] != Semi
    ensures Tail(ts) == " " + Spaced(ts)
  {}

  lemma {:induction false} NulRejects(l: Lexer, s: string)
    requires '\0' in s || l.Rejected?
    ensures Feed(l, s) == Rejected
    decreases |s|
  {
    if s == [] {
    } else {
      if s[0] != '\0' && l.Lexer? { assert '\0' in s[1..]; }
      NulRejects(Step(l, s[0]), s[1..]);
    }
  }

  lemma {:induction false} EscapeKeepsNul(v: string)
    requires '\0' in v
    ensures '\0' in EscapeQuotes(v)
  {
    if v[0] == '\0' {
      assert EscapeQuotes(v)[0] == '\0';
    } else {
      assert '\0' in v[1..];
      EscapeKeepsNul(v[1..]);
    }
  }

  lemma {:induction false} JoinKeepsNul(args: seq<string>, k: nat)
    requires k < |args| && '\0' in args[k]
    ensures '\0' in JoinQuoted(args)
  {
    if k == 0 {
      EscapeKeepsNul(args[0]);
    } else {
      JoinKeepsNul(args[1..], k - 1);
    }
  }

  /** Quoted arguments read back one by one and unchanged, exactly when none holds a NUL, which no
      command string can carry. */
  lemma QuotedArgsReadBack(args: seq<string>)
    ensures Tokenize(JoinQuoted(args)) == Some(QuotedArgs(args))
       <==> forall i :: 0 <= i < |args| ==> '\0' !in args[i]
  {
    hide Feed, Spaced, JoinQuoted, AllPlain;
    if forall i :: 0 <= i < |args| ==> '\0' !in args[i] {
      forall i | 0 <= i < |args| ensures Printable(Q(args[i])) {
        assert AllQuoted(Q(args[i]));
      }
      JoinIsSpaced(args);
      TokenizeSpaced(QuotedArgs(args));
    } else {
      var k :| 0 <= k < |args| && '\0' in args[k];
      JoinKeepsNul(args, k);
      NulRejects(START, JoinQuoted(args));
    }
  }

  // ---- grammar ----

  /** A simple command: words, and at most one output redirection. */
  datatype Command = Command(words: seq<Word>, redirect: Option<Word>)

  /** Lists separated by `;`, each a chain of commands joined by `&&`. */
  type Script = seq<seq<Command>>

  datatype Parser =
    | Parser(done: Script, chain: seq<Command>, cmd: Command, wantTarget: bool)
    | Bad

  const EMPTY := Command([], None)

  function ParseStep(p: Parser, t: Token): Parser {
    if p.Bad? then Bad
    else match t
      case W(w) =>
        if !p.wantTarget then p.(cmd := p.cmd.(words := p.cmd.words + [w]))
        else if p.cmd.redirect.Some? then Bad
        else p.(cmd := p.cmd.(redirect := Some(w)), wantTarget := false)
      case Great => if p.wantTarget then Bad else p.(wantTarget := true)
      case AndIf =>
        if p.wantTarget || p.cmd == EMPTY then Bad
        else Parser(p.done, p.chain + [p.cmd], EMPTY, false)
      case Semi =>
        if p.wantTarget || p.cmd == EMPTY then Bad
        else Parser(p.done + [p.chain + [p.cmd]], [], EMPTY, false)
  }

  function ParseAll(p: Parser, ts: seq<Token>): Parser
    decreases |ts|
  {
    if ts == [] then p else ParseAll(ParseStep(p, ts[0]), ts[1..])
  }

  function ParseScript(s: string): Option<Script> {
    match Tokenize(s)
    case None => None
    case Some(ts) =>
      var p := ParseAll(Parser([], [], EMPTY, false), ts);
      if p.Bad? || p.wantTarget then None
      else if p.cmd != EMPTY then Some(p.done + [p.chain + [p.cmd]])
      else if p.chain == [] then Some(p.done)
      else None
  }

  function WordTokens(ws: seq<Word>): seq<Token> {
    seq(|ws|, i requires 0 <= i < |ws| => W(ws[i]))
  }

  function CommandTokens(c: Command): seq<Token> {
    WordTokens(c.words) + if c.redirect.Some? then [Great, W(c.redirect.value)] else []
  }

  function ChainTokens(cs: seq<Command>): seq<Token> {
    if cs == [] then [] else
      CommandTokens(cs[0]) + if |cs| == 1 then [] else [AndIf] + ChainTokens(cs[1..])
  }

  function ScriptTokens(s: Script): seq<Token> {
    if s == [] then [] else
      ChainTokens(s[0]) + if |s| == 1 then [] else [Semi] + ScriptTokens(s[1..])
  }

  function ShowWords(ws: seq<Word>): string {
    if ws == [] then "" else
      Spell(W(ws[0])) + if |ws| == 1 then "" else " " + ShowWords(ws[1..])
  }

  /** Words joined by blanks, the redirection last. */
  function ShowCommand(c: Command): string {
    ShowWords(c.words)
    + match c.redirect
      case None => ""
      case Some(w) => (if c.words == [] then "> " else " > ") + Spell(W(w))
  }

  function ShowChain(cs: seq<Command>): string {
    if cs == [] then "" else
      ShowCommand(cs[0]) + if |cs| == 1 then "" else " && " + ShowChain(cs[1..])
  }

  /** The script as text. */
  function Show(s: Script): string {
    if s == [] then "" else
      ShowChain(s[0]) + if |s| == 1 then "" else "; " + Show(s[1..])
  }

  predicate PrintableCommand(c: Command) {
    && c != EMPTY
    && (forall i :: 0 <= i < |c.words| ==> Printable(c.words[i]))
    && (c.redirect.Some? ==> Printable(c.redirect.value))
  }

  predicate PrintableScript(s: Script) {
    forall i :: 0 <= i < |s| ==>
      s[i] != [] && forall j :: 0 <= j < |s[i]| ==> PrintableCommand(s[i][j])
  }

  lemma {:induction false} ParseConcat(p: Parser, a: seq<Token>, b: seq<Token>)
    ensures ParseAll(p, a + b) == ParseAll(ParseAll(p, a), b)
    decreases |a|
  {
    if a == [] {
      assert a + b == b;
    } else {
      assert (a + b)[1..] == a[1..] + b;
      ParseConcat(ParseStep(p, a[0]), a[1..], b);
    }
  }

  lemma ParseOne(p: Parser, t: Token)
    ensures ParseAll(p, [t]) == ParseStep(p, t)
  {
    assert ParseAll(ParseStep(p, t), []) == ParseStep(p, t);
  }

  lemma {:induction false} ParseWords(p: Parser, ws: seq<Word>)
    requires p.Parser? && !p.wantTarget
    ensures ParseAll(p, WordTokens(ws)) == p.(cmd := p.cmd.(words := p.cmd.words + ws))
    decreases |ws|
  {
    if ws == [] {
      assert p.cmd.words + ws == p.cmd.words;
    } else {
      assert WordTokens(ws)[1..] == WordTokens(ws[1..]);
      ParseWords(ParseStep(p, W(ws[0])), ws[1..]);
      assert (p.cmd.words + [ws[0]]) + ws[1..] == p.cmd.words + ws;
    }
  }

  lemma ParseCommand(p: Parser, c: Command)
    requires p.Parser? && !p.wantTarget && p.cmd == EMPTY
    ensures ParseAll(p, CommandTokens(c)) == p.(cmd := c)
  {
    ParseWords(p, c.words);
    assert [] + c.words == c.words;
    var q := p.(cmd := Command(c.words, None));
    if c.redirect.Some? {
      ParseConcat(p, WordTokens(c.words), [Great, W(c.redirect.value)]);
      assert [Great, W(c.redirect.value)] == [Great] + [W(c.redirect.value)];
      ParseConcat(q, [Great], [W(c.redirect.value)]);
      ParseOne(q, Great);
      ParseOne(ParseStep(q, Great), W(c.redirect.value));
    } else {
      assert CommandTokens(c) == WordTokens(c.words);
    }
  }

  lemma {:induction false} ParseChain(p: Parser, cs: seq<Command>)
    requires p.Parser? && !p.wantTarget && p.cmd == EMPTY && cs != []
    requires forall j :: 0 <= j < |cs| ==> cs[j] != EMPTY
    ensures ParseAll(p, ChainTokens(cs)) == Parser(p.done, p.chain + cs[..|cs| - 1], cs[|cs| - 1], false)
    decreases |cs|
  {
    hide ParseAll, CommandTokens;
    ParseCommand(p, cs[0]);
    if |cs| == 1 {
      assert ChainTokens(cs) == CommandTokens(cs[0]);
      assert p.chain + cs[..0] == p.chain;
    } else {
      var q := p.(cmd := cs[0]);
      var r := Parser(p.done, p.chain + [cs[0]], EMPTY, false);
      ParseConcat(p, CommandTokens(cs[0]), [AndIf] + ChainTokens(cs[1..]));
      ParseConcat(q, [AndIf], ChainTokens(cs[1..]));
      ParseOne(q, AndIf);
      ParseChain(r, cs[1..]);
      assert r.chain + cs[1..][..|cs| - 2] == p.chain + cs[..|cs| - 1];
    }
  }

  /** What the parser holds after reading a whole script. */
  function AfterScript(done: Script, s: Script): Parser
    requires s != [] && s[|s| - 1] != []
  {
    var last := s[|s| - 1];
    Parser(done + s[..|s| - 1], last[..|last| - 1], last[|last| - 1], false)
  }

  lemma {:induction false} ParseLists(done: Script, s: Script)
    requires PrintableScript(s) && s != []
    ensures ParseAll(Parser(done, [], EMPTY, false), ScriptTokens(s)) == AfterScript(done, s)
    decreases |s|
  {
    hide ParseAll, ChainTokens;
    var p := Parser(done, [], EMPTY, false);
    var cs := s[0];
    var k := |cs| - 1;
    forall j | 0 <= j < |cs| ensures cs[j] != EMPTY { assert PrintableCommand(s[0][j]); }
    ParseChain(p, cs);
    assert [] + cs[..k] == cs[..k];
    if |s| == 1 {
      assert ScriptTokens(s) == ChainTokens(cs);
      assert done + s[..0] == done;
    } else {
      var q := Parser(done, cs[..k], cs[k], false);
      var r := Parser(done + [cs], [], EMPTY, false);
      ParseConcat(p, ChainTokens(cs), [Semi] + ScriptTokens(s[1..]));
      ParseConcat(q, [Semi], ScriptTokens(s[1..]));
      ParseOne(q, Semi);
      assert cs[..k] + [cs[k]] == cs;
      RestPrintable(s);
      ParseLists(done + [cs], s[1..]);
      assert (done + [cs]) + s[1..][..|s| - 2] == done + s[..|s| - 1];
    }
  }

  lemma RestPrintable(s: Script)
    requires PrintableScript(s) && s != []
    ensures PrintableScript(s[1..])
  {
    forall i | 0 <= i < |s[1..]|
      ensures s[1..][i] != [] && forall j :: 0 <= j < |s[1..][i]| ==> PrintableCommand(s[1..][i][j])
    {
      assert s[1..][i] == s[i + 1];
    }
  }

  // Tokens of a printable script are printable and never put two semicolons side by side.

  predicate Solid(ts: seq<Token>) {
    PrintableTokens(ts) && ts != [] && ts[0] != Semi && ts[|ts| - 1] != Semi
  }

  lemma SolidJoin(a: seq<Token>, t: Token, b: seq<Token>)
    requires Solid(a) && Solid(b) && !t.W?
    ensures Solid(a + [t] + b)
  {
    var ts := a + [t] + b;
    forall i | 0 <= i < |ts| && ts[i].W? ensures Printable(ts[i].word) {
      if i > |a| { assert ts[i] == b[i - |a| - 1]; }
    }
    forall i | 0 < i < |ts| ensures !(ts[i - 1] == Semi && ts[i] == Semi) {
      if i > |a| + 1 {
        assert ts[i] == b[i - |a| - 1] && ts[i - 1] == b[i - |a| - 2];
      }
    }
  }

  lemma SolidCommand(c: Command)
    requires PrintableCommand(c)
    ensures Solid(CommandTokens(c))
  {}

  lemma {:induction false} SolidChain(cs: seq<Command>)
    requires cs != [] && forall j :: 0 <= j < |cs| ==> PrintableCommand(cs[j])
    ensures Solid(ChainTokens(cs))
  {
    SolidCommand(cs[0]);
    if |cs| == 1 {
      assert ChainTokens(cs) == CommandTokens(cs[0]);
    } else {
      SolidChain(cs[1..]);
      SolidJoin(CommandTokens(cs[0]), AndIf, ChainTokens(cs[1..]));
      assert ChainTokens(cs) == CommandTokens(cs[0]) + [AndIf] + ChainTokens(cs[1..]);
    }
  }

  lemma {:induction false} SolidScript(s: Script)
    requires PrintableScript(s) && s != []
    ensures Solid(ScriptTokens(s))
  {
    SolidChain(s[0]);
    if |s| == 1 {
      assert ScriptTokens(s) == ChainTokens(s[0]);
    } else {
      RestPrintable(s);
      SolidScript(s[1..]);
      SolidJoin(ChainTokens(s[0]), Semi, ScriptTokens(s[1..]));
      assert ScriptTokens(s) == ChainTokens(s[0]) + [Semi] + ScriptTokens(s[1..]);
    }
  }

  // The printer writes exactly the spaced tokens.

  lemma {:induction false} TailConcat(a: seq<Token>, b: seq<Token>)
    ensures Tail(a + b) == Tail(a) + Tail(b)
  {
    if a == [] {
      assert a + b == b;
    } else {
      assert (a + b)[1..] == a[1..] + b;
      TailConcat(a[1..], b);
    }
  }

  lemma SpacedAppend(a: seq<Token>, b: seq<Token>)
    requires a != []
    ensures Spaced(a + b) == Spaced(a) + Tail(b)
  {
    assert (a + b)[1..] == a[1..] + b;
    TailConcat(a[1..], b);
  }

  lemma TailCons(t: Token, ts: seq<Token>)
    ensures Tail([t] + ts) == Gap(t) + Spell(t) + Tail(ts)
  {
    assert ([t] + ts)[1..] == ts;
  }

  lemma SpacedJoin(a: seq<Token>, t: Token, b: seq<Token>)
    requires Solid(a) && Solid(b)
    ensures Spaced(a + ([t] + b)) == Spaced(a) + (Gap(t) + Spell(t) + " " + Spaced(b))
  {
    hide Spaced, Tail, Spell, Gap;
    TailIsSpaced(b);
    TailCons(t, b);
    SpacedAppend(a, [t] + b);
    JoinAssoc(Gap(t) + Spell(t), " ", Spaced(b));
  }

  lemma JoinAssoc(a: string, b: string, c: string)
    ensures a + (b + c) == a + b + c
  {}

  lemma {:induction false} ShowWordsSpaced(ws: seq<Word>)
    ensures ShowWords(ws) == Spaced(WordTokens(ws))
  {
    if ws == [] {
    } else {
      assert WordTokens(ws)[1..] == WordTokens(ws[1..]);
      ShowWordsSpaced(ws[1..]);
      if |ws| > 1 { TailIsSpaced(WordTokens(ws[1..])); }
    }
  }

  lemma TailRedirect(w: Word)
    ensures Tail([Great, W(w)]) == " > " + Spell(W(w))
    ensures Spaced([Great, W(w)]) == "> " + Spell(W(w))
  {
    hide Spell;
    SpellGreat();
    assert [Great, W(w)][1..] == [W(w)] && [W(w)][1..] == [];
    assert Tail([W(w)]) == " " + Spell(W(w)) + Tail([]);
  }

  lemma SpellGreat()
    ensures Spell(Great) == ">"
  {}

  lemma ShowCommandSpaced(c: Command)
    ensures ShowCommand(c) == Spaced(CommandTokens(c))
  {
    hide Spell, Tail, Spaced, ShowWords;
    ShowWordsSpaced(c.words);
    if c.redirect.Some? {
      TailRedirect(c.redirect.value);
      var r := [Great, W(c.redirect.value)];
      if c.words == [] {
        assert CommandTokens(c) == r;
        assert ShowWords(c.words) == "" by { NoWords(); }
      } else {
        SpacedAppend(WordTokens(c.words), r);
      }
    } else {
      assert CommandTokens(c) == WordTokens(c.words);
    }
  }

  lemma NoWords()
    ensures ShowWords([]) == ""
  {}

  lemma {:induction false} ShowChainSpaced(cs: seq<Command>)
    requires cs != [] && forall j :: 0 <= j < |cs| ==> PrintableCommand(cs[j])
    ensures ShowChain(cs) == Spaced(ChainTokens(cs))
  {
    hide ShowCommand, CommandTokens, Spaced, PrintableCommand;
    ShowCommandSpaced(cs[0]);
    SolidCommand(cs[0]);
    if |cs| == 1 {
      assert ChainTokens(cs) == CommandTokens(cs[0]);
    } else {
      ShowChainSpaced(cs[1..]);
      SolidChain(cs[1..]);
      SpacedJoin(CommandTokens(cs[0]), AndIf, ChainTokens(cs[1..]));
      assert Gap(AndIf) + Spell(AndIf) + " " == " && ";
    }
  }

  lemma {:induction false} ShowIsSpaced(s: Script)
    requires PrintableScript(s) && s != []
    ensures Show(s) == Spaced(ScriptTokens(s))
  {
    hide ShowChain, ChainTokens, Spaced, PrintableCommand;
    ShowChainSpaced(s[0]);
    SolidChain(s[0]);
    if |s| == 1 {
      assert ScriptTokens(s) == ChainTokens(s[0]);
    } else {
      RestPrintable(s);
      ShowIsSpaced(s[1..]);
      SolidScript(s[1..]);
      SpacedJoin(ChainTokens(s[0]), Semi, ScriptTokens(s[1..]));
      assert Gap(Semi) + Spell(Semi) + " " == "; ";
    }
  }

  /** Printing and parsing are inverse on every printable script. */
  lemma ParseShow(s: Script)
    requires PrintableScript(s) && s != []
    ensures ParseScript(Show(s)) == Some(s)
  {
    hide ScriptTokens, ChainTokens, Spaced, ParseAll, Tokenize, Show;
    ShowIsSpaced(s);
    SolidScript(s);
    TokenizeSpaced(ScriptTokens(s));
    ParseLists([], s);
    var last := s[|s| - 1];
    assert PrintableCommand(last[|last| - 1]);
    assert last[..|last| - 1] + [last[|last| - 1]] == last;
    assert [] + s[..|s| - 1] + [last] == s;
  }
}
