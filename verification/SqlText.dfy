/** Cutting a migration file into statements (backend/src/db.rs): at every semicolon, trimmed, blanks left out. */
module SqlText {
  import opened Basics

  function TrimStart(s: string): (t: string)
    ensures |t| <= |s|
  {
    if s != [] && IsSpace(s[0]) then TrimStart(s[1..]) else s
  }

  function TrimEnd(s: string): (t: string)
    ensures |t| <= |s|
  {
    if s != [] && IsSpace(s[|s| - 1]) then TrimEnd(s[..|s| - 1]) else s
  }

  function Trim(s: string): string {
    TrimEnd(TrimStart(s))
  }

  lemma {:induction false} TrimStartIs(a: string, t: string)
    requires (forall i :: 0 <= i < |a| ==> IsSpace(a[i])) && (t != [] ==> !IsSpace(t[0]))
    ensures TrimStart(a + t) == t
  {
    if a == [] {
      assert a + t == t;
    } else {
      assert (a + t)[1..] == a[1..] + t;
      TrimStartIs(a[1..], t);
    }
  }

  lemma {:induction false} TrimEndIs(t: string, b: string)
    requires (forall i :: 0 <= i < |b| ==> IsSpace(b[i])) && (t != [] ==> !IsSpace(t[|t| - 1]))
    ensures TrimEnd(t + b) == t
  {
    if b == [] {
      assert t + b == t;
    } else {
      assert (t + b)[..|t + b| - 1] == t + b[..|b| - 1];
      TrimEndIs(t, b[..|b| - 1]);
    }
  }

  /** Trimming takes the white space off both ends and nothing else. */
  lemma TrimIs(a: string, t: string, b: string)
    requires forall i :: 0 <= i < |a| ==> IsSpace(a[i])
    requires forall i :: 0 <= i < |b| ==> IsSpace(b[i])
    requires t != [] ==> !IsSpace(t[0]) && !IsSpace(t[|t| - 1])
    ensures Trim(a + t + b) == t
  {
    if t == [] {
      assert a + t + b == (a + b) + [];
      TrimStartIs(a + b, []);
    } else {
      assert a + t + b == a + (t + b);
      TrimStartIs(a, t + b);
      TrimEndIs(t, b);
    }
  }

  /** `split(';')`. */
  function Split(s: string): (pieces: seq<string>)
    ensures pieces != []
  {
    if s == [] then [[]]
    else
      var rest := Split(s[1..]);
      if s[0] == ';' then [[]] + rest else [[s[0]] + rest[0]] + rest[1..]
  }

  /** The non-blank pieces, trimmed. */
  function Statements(pieces: seq<string>): seq<string> {
    if pieces == [] then [] else
      (if Trim(pieces[0]) == [] then [] else [Trim(pieces[0])]) + Statements(pieces[1..])
  }

  lemma {:induction false} StatementsSnoc(a: seq<string>, p: string)
    ensures Statements(a + [p]) == Statements(a) + (if Trim(p) == [] then [] else [Trim(p)])
  {
    hide Trim;
    if a == [] {
      assert a + [p] == [p] && [p][1..] == [];
    } else {
      StatementsSnoc(a[1..], p);
      assert (a + [p])[1..] == a[1..] + [p];
    }
  }

  /** The statements executed for one migration file, in order. */
  method ExecuteFile(sql: string) returns (executed: seq<string>)
    ensures executed == Statements(Split(sql))
  {
    executed := [];
    var pieces := Split(sql);
    for i := 0 to |pieces|
      invariant executed == Statements(pieces[..i])
    {
      assert pieces[..i + 1] == pieces[..i] + [pieces[i]];
      StatementsSnoc(pieces[..i], pieces[i]);
      var trimmed := Trim(pieces[i]);
      if trimmed == [] { continue; }
      executed := executed + [trimmed];
    }
    assert pieces[..|pieces|] == pieces;
  }

  /** A file written as pieces with semicolons between them. */
  function Join(pieces: seq<string>): string
    requires pieces != []
  {
    if |pieces| == 1 then pieces[0] else pieces[0] + [';'] + Join(pieces[1..])
  }

  predicate Clean(s: string) {
    ';' !in s
  }

  lemma {:induction false} SplitClean(s: string)
    ensures forall p :: p in Split(s) ==> Clean(p)
  {
    if s != [] {
      SplitClean(s[1..]);
      assert Split(s[1..])[0] in Split(s[1..]);
    }
  }

  lemma {:induction false} SplitHead(p: string, rest: string)
    requires Clean(p)
    ensures Split(p + [';'] + rest) == [p] + Split(rest)
  {
    var s := p + [';'] + rest;
    if p == [] {
      assert s[1..] == rest;
    } else {
      assert s[1..] == p[1..] + [';'] + rest;
      SplitHead(p[1..], rest);
      assert [p[0]] + p[1..] == p;
    }
  }

  lemma {:induction false} SplitOne(p: string)
    requires Clean(p)
    ensures Split(p) == [p]
  {
    if p != [] {
      SplitOne(p[1..]);
      assert [p[0]] + p[1..] == p;
    }
  }

  lemma {:induction false} SplitJoin(pieces: seq<string>)
    requires pieces != [] && forall p :: p in pieces ==> Clean(p)
    ensures Split(Join(pieces)) == pieces
  {
    if |pieces| == 1 {
      SplitOne(pieces[0]);
    } else {
      SplitJoin(pieces[1..]);
      SplitHead(pieces[0], Join(pieces[1..]));
      assert [pieces[0]] + pieces[1..] == pieces;
    }
  }

  lemma {:induction false} TrimStartKeeps(s: string)
    ensures ';' in s <==> ';' in TrimStart(s)
  {
    if s != [] && IsSpace(s[0]) {
      TrimStartKeeps(s[1..]);
      assert s == [s[0]] + s[1..];
    }
  }

  lemma {:induction false} TrimEndKeeps(s: string)
    ensures ';' in s <==> ';' in TrimEnd(s)
  {
    if s != [] && IsSpace(s[|s| - 1]) {
      TrimEndKeeps(s[..|s| - 1]);
      assert s == s[..|s| - 1] + [s[|s| - 1]];
    }
  }

  lemma TrimKeeps(s: string)
    ensures Clean(s) <==> Clean(Trim(s))
  {
    TrimStartKeeps(s);
    TrimEndKeeps(TrimStart(s));
  }

  lemma {:induction false} StatementsClean(pieces: seq<string>)
    ensures (forall p :: p in pieces ==> Clean(p)) <==> (forall t :: t in Statements(pieces) ==> Clean(t))
  {
    hide Trim, Clean;
    if pieces != [] {
      var p, rest := pieces[0], pieces[1..];
      StatementsClean(rest);
      TrimKeeps(p);
      assert Clean([]) by { NothingClean(); }
      assert pieces == [p] + rest;
    }
  }

  lemma NothingClean()
    ensures Clean([])
  {}

  /** Splitting executes exactly the statements that were meant if and only if none of the pieces, be it in a
      string or in a comment, contains a semicolon. */
  lemma SplitRecoversIff(pieces: seq<string>)
    requires pieces != []
    ensures Statements(Split(Join(pieces))) == Statements(pieces) <==> forall p :: p in pieces ==> Clean(p)
  {
    if forall p :: p in pieces ==> Clean(p) {
      SplitJoin(pieces);
    } else {
      SplitClean(Join(pieces));
      StatementsClean(Split(Join(pieces)));
      StatementsClean(pieces);
    }
  }
}
