/** The built-in applications at every start (backend/src/db.rs): run_migrations sets the sudo default, then
    seed_applications inserts what is missing and fills in certificate formats. */
module Startup {
  import opened Wrappers

  /** A row of `applications`; `details` stands for the columns that no start looks at. */
  datatype App = App(slug: string, isBuiltin: bool, useSudo: bool, createdAt: int, updatedAt: int,
                     format: Option<string>, isRetired: bool, details: string)

  const SUDO_SLUGS := ["nginx", "apache", "traefik", "haproxy"]

  const BUILTIN_SLUGS := ["nginx", "apache", "traefik", "haproxy", "ssh", "iis", "kubernetes"]

  const FORMATS := [("nginx", "pem"), ("apache", "pem"), ("traefik", "pem"), ("haproxy", "pem"),
                    ("iis", "pkcs12"), ("kubernetes", "pem")]

  /** UPDATE applications SET default_use_sudo ... */
  function SudoDefault(r: App, slug: string): App {
    if r.slug == slug && r.isBuiltin && r.updatedAt == r.createdAt then r.(useSudo := true) else r
  }

  /** UPDATE applications SET expected_cert_format ... */
  function FillFormat(r: App, slug: string, format: string): App {
    if r.slug == slug && (r.format == None || r.format == Some("")) then r.(format := Some(format)) else r
  }

  /** The row a start inserts; `details` are the paths of the built-in. */
  function Builtin(slug: string, now: int): App {
    App(slug, true, false, now, now, None, false, slug)
  }

  function Slugs(rows: seq<App>): set<string> {
    set r | r in rows :: r.slug
  }

  /** INSERT IGNORE: slug is a unique key. */
  function InsertIgnore(rows: seq<App>, r: App): seq<App> {
    if r.slug in Slugs(rows) then rows else rows + [r]
  }

  class Applications {
    var rows: seq<App>

    constructor (rows: seq<App>)
      ensures this.rows == rows
    {
      this.rows := rows;
    }

    method UpdateSudo(slug: string)
      modifies this
      ensures |rows| == |old(rows)| && forall i :: 0 <= i < |rows| ==> rows[i] == SudoDefault(old(rows)[i], slug)
    {
      rows := seq(|rows|, i requires 0 <= i < |rows| reads this => SudoDefault(rows[i], slug));
    }

    method UpdateFormat(slug: string, format: string)
      modifies this
      ensures |rows| == |old(rows)|
      ensures forall i :: 0 <= i < |rows| ==> rows[i] == FillFormat(old(rows)[i], slug, format)
    {
      rows := seq(|rows|, i requires 0 <= i < |rows| reads this => FillFormat(rows[i], slug, format));
    }

    /** One start, as far as the applications are concerned. */
    method Start(now: int)
      modifies this
      ensures rows == AfterStart(old(rows), now)
    {
      for s := 0 to |SUDO_SLUGS|
        invariant rows == Each(old(rows), r => SudoFirst(r, s))
      {
        UpdateSudo(SUDO_SLUGS[s]);
      }
      ghost var seeded := rows;
      for b := 0 to |BUILTIN_SLUGS|
        invariant rows == Seed(seeded, b, now)
      {
        rows := InsertIgnore(rows, Builtin(BUILTIN_SLUGS[b], now));
      }
      ghost var full := rows;
      for f := 0 to |FORMATS|
        invariant rows == Each(full, r => FormatFirst(r, f))
      {
        UpdateFormat(FORMATS[f].0, FORMATS[f].1);
      }
    }
  }

  function Each(rows: seq<App>, g: App -> App): (out: seq<App>)
    ensures |out| == |rows| && forall i :: 0 <= i < |rows| ==> out[i] == g(rows[i])
  {
    seq(|rows|, i requires 0 <= i < |rows| => g(rows[i]))
  }

  function SudoFirst(r: App, n: nat): App
    requires n <= |SUDO_SLUGS|
  {
    if n == 0 then r else SudoDefault(SudoFirst(r, n - 1), SUDO_SLUGS[n - 1])
  }

  function FormatFirst(r: App, n: nat): App
    requires n <= |FORMATS|
  {
    if n == 0 then r else FillFormat(FormatFirst(r, n - 1), FORMATS[n - 1].0, FORMATS[n - 1].1)
  }

  function Seed(rows: seq<App>, n: nat, now: int): seq<App>
    requires n <= |BUILTIN_SLUGS|
  {
    if n == 0 then rows else InsertIgnore(Seed(rows, n - 1, now), Builtin(BUILTIN_SLUGS[n - 1], now))
  }

  function AfterStart(rows: seq<App>, now: int): seq<App> {
    Each(Seed(Each(rows, r => SudoFirst(r, 4)), 7, now), r => FormatFirst(r, 6))
  }

  // ---- restarts ----

  /** What one start makes of a row that is there. */
  function Settle(r: App): App {
    FormatFirst(SudoFirst(r, 4), 6)
  }

  predicate Blank(format: Option<string>) {
    format == None || format == Some("")
  }

  lemma {:induction false} SudoFirstIs(r: App, n: nat)
    requires n <= |SUDO_SLUGS|
    ensures SudoFirst(r, n)
         == if r.slug in SUDO_SLUGS[..n] && r.isBuiltin && r.updatedAt == r.createdAt then r.(useSudo := true) else r
  {
    if n > 0 {
      SudoFirstIs(r, n - 1);
      assert SUDO_SLUGS[..n] == SUDO_SLUGS[..n - 1] + [SUDO_SLUGS[n - 1]];
    }
  }

  lemma {:induction false} FormatFirstIs(r: App, n: nat)
    requires n <= |FORMATS|
    ensures FormatFirst(r, n) == r.(format := FormatFirst(r, n).format)
    ensures !Blank(r.format) || (forall k :: 0 <= k < n ==> FORMATS[k].0 != r.slug) ==> FormatFirst(r, n) == r
    ensures Blank(FormatFirst(r, n).format) ==> forall k :: 0 <= k < n ==> FORMATS[k].0 != r.slug
  {
    if n > 0 {
      FormatFirstIs(r, n - 1);
      assert !Blank(Some(FORMATS[n - 1].1)) by { FormatNotBlank(n - 1); }
    }
  }

  lemma FormatNotBlank(k: nat)
    requires k < |FORMATS|
    ensures FORMATS[k].1 != ""
  {
    assert |FORMATS[0].1| == 3 && |FORMATS[4].1| == 6;
  }

  /** A start changes nothing of a row but the sudo default of an untouched built-in and a blank format, and a
      second start changes nothing more. */
  lemma SettleKeeps(r: App)
    ensures var touched := && (r.slug == "nginx" || r.slug == "apache" || r.slug == "traefik" || r.slug == "haproxy")
                           && r.isBuiltin && r.updatedAt == r.createdAt;
            && Settle(r) == r.(useSudo := r.useSudo || touched, format := Settle(r).format)
            && (!Blank(r.format) ==> Settle(r).format == r.format)
            && Settle(Settle(r)) == Settle(r)
  {
    hide SudoFirst, FormatFirst;
    assert SUDO_SLUGS[..4] == SUDO_SLUGS;
    var a, s := SudoFirst(r, 4), Settle(r);
    SudoFirstIs(r, 4);
    FormatFirstIs(a, 6);
    SudoFirstIs(s, 4);
    FormatFirstIs(s, 6);
  }

  /** The format that a start fills in where none is set. */
  function ExpectedFormat(slug: string): Option<string> {
    if slug == "iis" then Some("pkcs12")
    else if slug == "nginx" || slug == "apache" || slug == "traefik" || slug == "haproxy" || slug == "kubernetes"
    then Some("pem") else None
  }

  /** The first format in the list for this slug. */
  function FirstFormat(slug: string, n: nat): Option<string>
    requires n <= |FORMATS|
  {
    if n == 0 then None
    else if FirstFormat(slug, n - 1).Some? then FirstFormat(slug, n - 1)
    else if FORMATS[n - 1].0 == slug then Some(FORMATS[n - 1].1) else None
  }

  lemma {:induction false} FirstFills(r: App, n: nat)
    requires n <= |FORMATS|
    ensures FormatFirst(r, n).format
         == if Blank(r.format) && FirstFormat(r.slug, n).Some? then FirstFormat(r.slug, n) else r.format
    ensures FirstFormat(r.slug, n).Some? ==> !Blank(FirstFormat(r.slug, n))
  {
    if n > 0 {
      FirstFills(r, n - 1);
      FormatFirstIs(r, n - 1);
      FormatNotBlank(n - 1);
    }
  }

  lemma ListedFormat(slug: string)
    ensures FirstFormat(slug, 6) == ExpectedFormat(slug)
  {
    assert FirstFormat(slug, 1) == if slug == "nginx" then Some("pem") else None;
    assert FirstFormat(slug, 2) == if slug == "apache" then Some("pem") else FirstFormat(slug, 1);
    assert FirstFormat(slug, 3) == if slug == "traefik" then Some("pem") else FirstFormat(slug, 2);
    assert FirstFormat(slug, 4) == if slug == "haproxy" then Some("pem") else FirstFormat(slug, 3);
    assert "nginx"[0] == 'n' && "apache"[0] == 'a' && "traefik"[0] == 't' && "haproxy"[0] == 'h' && "iis"[0] == 'i'
        && "kubernetes"[0] == 'k';
    assert FirstFormat(slug, 5) == if slug == "iis" then Some("pkcs12") else FirstFormat(slug, 4);
  }

  /** A format that is set stays; a blank one becomes that of the built-in of this slug, if there is one. */
  lemma FormatFilled(r: App)
    ensures Settle(r).format
         == if Blank(r.format) && ExpectedFormat(r.slug).Some? then ExpectedFormat(r.slug) else r.format
  {
    hide SudoFirst, FormatFirst, FirstFormat, ExpectedFormat;
    SudoFirstIs(r, 4);
    FirstFills(SudoFirst(r, 4), 6);
    ListedFormat(r.slug);
  }

  /** The built-ins are these seven. */
  lemma BuiltinSlugs(s: string)
    ensures s in BUILTIN_SLUGS
       <==> s == "nginx" || s == "apache" || s == "traefik" || s == "haproxy" || s == "ssh" || s == "iis"
            || s == "kubernetes"
  {}

  predicate UniqueSlugs(rows: seq<App>) {
    forall i, j :: 0 <= i < j < |rows| ==> rows[i].slug != rows[j].slug
  }

  /** The rows that seeding adds: the first `n` built-ins whose slug no row has. */
  function Missing(have: set<string>, n: nat, now: int): seq<App>
    requires n <= |BUILTIN_SLUGS|
  {
    if n == 0 then [] else
      Missing(have, n - 1, now)
      + if BUILTIN_SLUGS[n - 1] in have then [] else [Builtin(BUILTIN_SLUGS[n - 1], now)]
  }

  lemma BuiltinsDiffer(i: nat, j: nat)
    requires i < j < |BUILTIN_SLUGS|
    ensures BUILTIN_SLUGS[i] != BUILTIN_SLUGS[j]
  {
    assert BUILTIN_SLUGS[0][0] == 'n' && BUILTIN_SLUGS[1][0] == 'a' && BUILTIN_SLUGS[2][0] == 't'
        && BUILTIN_SLUGS[3][0] == 'h' && BUILTIN_SLUGS[4][0] == 's' && BUILTIN_SLUGS[5][0] == 'i'
        && BUILTIN_SLUGS[6][0] == 'k';
  }

  lemma {:induction false} MissingRows(have: set<string>, n: nat, now: int)
    requires n <= |BUILTIN_SLUGS|
    ensures forall r :: r in Missing(have, n, now) ==>
              r.slug !in have && (exists b :: 0 <= b < n && BUILTIN_SLUGS[b] == r.slug) && r == Builtin(r.slug, now)
    ensures forall b :: 0 <= b < n ==>
              BUILTIN_SLUGS[b] in have || Builtin(BUILTIN_SLUGS[b], now) in Missing(have, n, now)
    ensures UniqueSlugs(Missing(have, n, now))
  {
    if n > 0 {
      MissingRows(have, n - 1, now);
      forall b | 0 <= b < n - 1 ensures BUILTIN_SLUGS[b] != BUILTIN_SLUGS[n - 1] { BuiltinsDiffer(b, n - 1); }
    }
  }

  lemma SlugsOfSum(a: seq<App>, b: seq<App>)
    ensures Slugs(a + b) == Slugs(a) + Slugs(b)
  {
    assert forall r :: r in a + b <==> r in a || r in b;
  }

  lemma {:induction false} SeedAdds(rows: seq<App>, n: nat, now: int)
    requires n <= |BUILTIN_SLUGS|
    ensures Seed(rows, n, now) == rows + Missing(Slugs(rows), n, now)
  {
    hide Slugs;
    if n > 0 {
      var have, slug := Slugs(rows), BUILTIN_SLUGS[n - 1];
      var more := Missing(have, n - 1, now);
      SeedAdds(rows, n - 1, now);
      SlugsOfSum(rows, more);
      NotYetAdded(have, n, now);
      assert slug in Slugs(rows + more) <==> slug in have;
      assert (rows + more) + [Builtin(slug, now)] == rows + (more + [Builtin(slug, now)]);
    }
  }

  lemma NotYetAdded(have: set<string>, n: nat, now: int)
    requires 0 < n <= |BUILTIN_SLUGS|
    ensures BUILTIN_SLUGS[n - 1] !in Slugs(Missing(have, n - 1, now))
  {
    MissingRows(have, n - 1, now);
    forall b | 0 <= b < n - 1 ensures BUILTIN_SLUGS[b] != BUILTIN_SLUGS[n - 1] { BuiltinsDiffer(b, n - 1); }
  }

  /** A start settles every row that is there, keeps the order, and appends the missing built-ins. */
  lemma StartIs(rows: seq<App>, now: int)
    ensures AfterStart(rows, now)
         == Each(rows, Settle) + Each(Missing(Slugs(rows), 7, now), r => FormatFirst(r, 6))
  {
    hide FormatFirst, SudoFirst;
    var a := Each(rows, r => SudoFirst(r, 4));
    SudoKeepsSlugs(rows);
    SeedAdds(a, 7, now);
  }

  lemma SudoKeepsSlugs(rows: seq<App>)
    ensures Slugs(Each(rows, r => SudoFirst(r, 4))) == Slugs(rows)
  {
    hide SudoFirst;
    var a := Each(rows, r => SudoFirst(r, 4));
    forall i | 0 <= i < |rows| ensures a[i].slug == rows[i].slug { SudoFirstIs(rows[i], 4); }
    SameSlugs(a, rows);
  }

  lemma SameSlugs(a: seq<App>, b: seq<App>)
    requires |a| == |b| && forall i :: 0 <= i < |a| ==> a[i].slug == b[i].slug
    ensures Slugs(a) == Slugs(b)
  {
    forall s ensures s in Slugs(a) <==> s in Slugs(b) {
      if r :| r in a && r.slug == s {
        var i :| 0 <= i < |a| && a[i] == r;
        assert b[i] in b;
      }
      if r :| r in b && r.slug == s {
        var i :| 0 <= i < |b| && b[i] == r;
        assert a[i] in a;
      }
    }
  }

  /** A row that a start inserted. */
  predicate Inserted(r: App, now: int) {
    r.slug in BUILTIN_SLUGS && r.isBuiltin && !r.useSudo && !r.isRetired && r.createdAt == now && r.updatedAt == now
  }

  /** No start removes a row, duplicates a slug, un-retires an application or touches an edited sudo default;
      a built-in is added exactly when no row has its slug. */
  lemma StartKeeps(rows: seq<App>, now: int)
    ensures var after := AfterStart(rows, now);
            && |after| >= |rows|
            && (forall i :: 0 <= i < |rows| ==> after[i] == Settle(rows[i]))
            && (forall i :: |rows| <= i < |after| ==> Inserted(after[i], now) && after[i].slug !in Slugs(rows))
            && (forall s :: s in Slugs(after) <==> s in Slugs(rows) || s in BUILTIN_SLUGS)
            && (UniqueSlugs(rows) ==> UniqueSlugs(after))
  {
    hide FormatFirst, SudoFirst, Settle, Slugs, AfterStart;
    var more := Missing(Slugs(rows), 7, now);
    var a, b := Each(rows, Settle), Each(more, r => FormatFirst(r, 6));
    StartIs(rows, now);
    MissingRows(Slugs(rows), 7, now);
    forall i | 0 <= i < |rows| ensures a[i].slug == rows[i].slug { SettleKeeps(rows[i]); }
    forall i | 0 <= i < |more|
      ensures b[i].slug == more[i].slug && Inserted(b[i], now)
    {
      FormatFirstIs(more[i], 6);
      assert more[i] in more;
    }
    SameSlugs(a, rows);
    SameSlugs(b, more);
    SlugsOfSum(a, b);
    forall s ensures s in Slugs(a + b) <==> s in Slugs(rows) || s in BUILTIN_SLUGS {
      if s in Slugs(more) { SlugOf(more, s); }
      if s in BUILTIN_SLUGS && s !in Slugs(rows) { HasSlug(more, Builtin(s, now)); }
    }
    forall i | 0 <= i < |rows| ensures rows[i].slug in Slugs(rows) { HasSlug(rows, rows[i]); }
  }

  lemma SlugOf(rows: seq<App>, s: string)
    requires s in Slugs(rows)
    ensures exists r :: r in rows && r.slug == s
  {}

  lemma HasSlug(rows: seq<App>, r: App)
    requires r in rows
    ensures r.slug in Slugs(rows)
  {}

  /** Once every built-in slug is there, a start only settles rows. */
  lemma SettledStart(rows: seq<App>, now: int)
    requires forall s :: s in BUILTIN_SLUGS ==> s in Slugs(rows)
    ensures AfterStart(rows, now) == Each(rows, Settle)
  {
    hide Settle, Slugs, AfterStart, FormatFirst;
    StartIs(rows, now);
    NoneMissing(Slugs(rows), 7, now);
  }

  lemma {:induction false} NoneMissing(have: set<string>, n: nat, now: int)
    requires n <= |BUILTIN_SLUGS| && forall s :: s in BUILTIN_SLUGS ==> s in have
    ensures Missing(have, n, now) == []
  {
    if n > 0 {
      NoneMissing(have, n - 1, now);
      assert BUILTIN_SLUGS[n - 1] in BUILTIN_SLUGS;
    }
  }

  function Starts(rows: seq<App>, times: seq<int>): seq<App> {
    if times == [] then rows else AfterStart(Starts(rows, times[..|times| - 1]), times[|times| - 1])
  }

  /** From any table, the second start reaches a fixed point: no number of further starts changes a row. */
  lemma {:induction false} TwoStartsSettle(rows: seq<App>, times: seq<int>)
    requires |times| >= 2
    ensures Starts(rows, times) == Starts(rows, times[..2])
  {
    hide AfterStart;
    if |times| == 2 {
      assert times[..2] == times;
    } else {
      var before := times[..|times| - 1];
      TwoStartsSettle(rows, before);
      assert before[..2] == times[..2];
      SecondIsFixed(rows, times[0], times[1], times[|times| - 1]);
      assert times[..2] == [times[0], times[1]];
      FirstTwo(rows, times[0], times[1]);
    }
  }

  lemma FirstTwo(rows: seq<App>, t: int, u: int)
    ensures Starts(rows, [t, u]) == AfterStart(AfterStart(rows, t), u)
  {
    hide AfterStart;
    assert [t, u][..1] == [t] && [t][..0] == [];
    assert Starts(rows, [t]) == AfterStart(rows, t);
  }

  lemma SecondIsFixed(rows: seq<App>, t: int, u: int, v: int)
    ensures AfterStart(AfterStart(AfterStart(rows, t), u), v) == AfterStart(AfterStart(rows, t), u)
  {
    hide Settle, Slugs, AfterStart;
    var one := AfterStart(rows, t);
    var two := AfterStart(one, u);
    StartKeeps(rows, t);
    StartKeeps(one, u);
    SettledStart(one, u);
    SettledStart(two, v);
    forall i | 0 <= i < |two| ensures Settle(two[i]) == two[i] { SettleKeeps(one[i]); }
  }

  /** One start is enough exactly when all applications that get the sudo default were there before it: a row
      that a start inserts gets the default only from the next start. */
  lemma OneStartSettlesIff(rows: seq<App>, t: int, u: int)
    ensures AfterStart(AfterStart(rows, t), u) == AfterStart(rows, t)
       <==> forall s :: s in SUDO_SLUGS ==> s in Slugs(rows)
  {
    hide Settle, Slugs, AfterStart;
    var one := AfterStart(rows, t);
    StartKeeps(rows, t);
    SettledStart(one, u);
    forall i | 0 <= i < |rows| ensures Settle(one[i]) == one[i] { SettleKeeps(rows[i]); }
    forall i | |rows| <= i < |one|
      ensures Settle(one[i]) == one[i] <==> one[i].slug !in SUDO_SLUGS
    {
      InsertedSettles(rows, t, i);
    }
    if s :| s in SUDO_SLUGS && s !in Slugs(rows) {
      SudoIsBuiltin(s);
      SlugOf(one, s);
      var r :| r in one && r.slug == s;
      var i :| 0 <= i < |one| && one[i] == r;
      if i < |rows| {
        SettleKeeps(rows[i]);
        HasSlug(rows, rows[i]);
        assert false;
      }
      assert Each(one, Settle)[i] != one[i];
    } else {
      assert Each(one, Settle) == one;
    }
  }

  lemma SudoIsBuiltin(s: string)
    requires s in SUDO_SLUGS
    ensures s in BUILTIN_SLUGS
  {
    var i :| 0 <= i < |SUDO_SLUGS| && SUDO_SLUGS[i] == s;
    assert BUILTIN_SLUGS[i] == s;
  }

  /** An inserted row changes once more if and only if its slug gets the sudo default. */
  lemma InsertedSettles(rows: seq<App>, t: int, i: nat)
    requires |rows| <= i < |AfterStart(rows, t)|
    ensures Settle(AfterStart(rows, t)[i]) == AfterStart(rows, t)[i] <==> AfterStart(rows, t)[i].slug !in SUDO_SLUGS
  {
    hide FormatFirst, SudoFirst, AfterStart, Slugs;
    StartKeeps(rows, t);
    StartIs(rows, t);
    var more := Missing(Slugs(rows), 7, t);
    var m := more[i - |rows|];
    var r := FormatFirst(m, 6);
    assert AfterStart(rows, t)[i] == r;
    assert SUDO_SLUGS[..4] == SUDO_SLUGS;
    SudoFirstIs(r, 4);
    FormatFirstIs(m, 6);
    FormatFirstIs(SudoFirst(r, 4), 6);
  }
}
