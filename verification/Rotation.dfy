/** Keeping the newest files of a directory, where newest means greatest name.  Shared by the local backup
    store and the remote push. */
module Rotation {
  import opened Basics

  /** String order: by code point, which is also the byte order of UTF-8. */
  predicate Less(a: string, b: string) {
    b != [] && (a == [] || a[0] < b[0] || (a[0] == b[0] && Less(a[1..], b[1..])))
  }

  lemma {:induction false} LessTrans(a: string, b: string, c: string)
    requires Less(a, b) && Less(b, c)
    ensures Less(a, c)
  {
    if a != [] && a[0] == b[0] == c[0] { LessTrans(a[1..], b[1..], c[1..]); }
  }

  lemma {:induction false} LessTotal(a: string, b: string)
    ensures !(Less(a, b) && Less(b, a))
    ensures Less(a, b) || Less(b, a) || a == b
  {
    if a != [] && b != [] && a[0] == b[0] {
      LessTotal(a[1..], b[1..]);
      if a[1..] == b[1..] { assert a == [a[0]] + a[1..] && b == [b[0]] + b[1..]; }
    }
  }

  ghost function Above(names: set<string>, n: string): set<string> {
    set m | m in names && Less(n, m)
  }

  /** The names that fewer than `k` others exceed. */
  ghost function KeepNewest(names: set<string>, k: nat): set<string> {
    set n | n in names && |Above(names, n)| < k
  }

  predicate Descending(r: seq<string>) {
    forall i, j :: 0 <= i < j < |r| ==> Less(r[j], r[i])
  }

  ghost function Elements(r: seq<string>): set<string> {
    set n | n in r
  }

  lemma ElementsSnoc(r: seq<string>, x: string)
    ensures Elements(r + [x]) == Elements(r) + {x}
  {}

  // ---- sorting ----

  function Insert(r: seq<string>, x: string): (s: seq<string>)
    ensures multiset(s) == multiset(r) + multiset{x}
  {
    if r == [] || Less(r[0], x) then [x] + r else
      assert r == [r[0]] + r[1..];
      [r[0]] + Insert(r[1..], x)
  }

  lemma InsertElements(r: seq<string>, x: string)
    ensures Elements(Insert(r, x)) == Elements(r) + {x}
  {
    var s := Insert(r, x);
    assert forall n :: n in s <==> n in multiset(s);
    assert forall n :: n in r <==> n in multiset(r);
  }

  lemma {:induction false} InsertKeeps(r: seq<string>, x: string)
    requires Descending(r) && x !in r
    ensures Descending(Insert(r, x))
  {
    var s := Insert(r, x);
    if r == [] {
    } else if Less(r[0], x) {
      forall j | 0 < j < |s| ensures Less(s[j], s[0]) {
        if j > 1 { LessTrans(r[j - 1], r[0], x); }
      }
    } else {
      InsertKeeps(r[1..], x);
      LessTotal(x, r[0]);
      InsertElements(r[1..], x);
      forall j | 0 < j < |s| ensures Less(s[j], s[0]) {
        assert s[j] in Elements(Insert(r[1..], x));
      }
    }
  }

  /** `sort` and `reverse`, or a sort by the reversed comparison. */
  method SortDescending(order: seq<string>) returns (r: seq<string>)
    requires NoDuplicates(order)
    ensures Descending(r) && Elements(r) == Elements(order)
  {
    r := [];
    for i := 0 to |order|
      invariant Descending(r) && Elements(r) == Elements(order[..i])
    {
      assert order[i] !in order[..i];
      assert order[i] !in r by { assert order[i] !in Elements(order[..i]); }
      InsertKeeps(r, order[i]);
      InsertElements(r, order[i]);
      r := Insert(r, order[i]);
      assert order[..i + 1] == order[..i] + [order[i]];
    }
    assert order[..|order|] == order;
  }

  lemma {:induction false} CountElements(r: seq<string>)
    requires NoDuplicates(r)
    ensures |Elements(r)| == |r|
  {
    if r == [] {
    } else {
      var t := r[..|r| - 1];
      CountElements(t);
      assert Elements(r) == Elements(t) + {r[|r| - 1]};
      assert r[|r| - 1] !in t;
    }
  }

  lemma DescendingNoDuplicates(r: seq<string>)
    requires Descending(r)
    ensures NoDuplicates(r)
  {
    forall i, j | 0 <= i < j < |r| ensures r[i] != r[j] {
      LessTotal(r[i], r[j]);
    }
  }

  /** In a descending list exactly the earlier names are above a name. */
  lemma RankInList(r: seq<string>, i: nat)
    requires Descending(r) && i < |r|
    ensures Above(Elements(r), r[i]) == Elements(r[..i])
    ensures |Above(Elements(r), r[i])| == i
  {
    DescendingNoDuplicates(r);
    CountElements(r[..i]);
    forall n ensures n in Above(Elements(r), r[i]) <==> n in Elements(r[..i]) {
      if n in Above(Elements(r), r[i]) {
        var j :| 0 <= j < |r| && r[j] == n;
        LessTotal(r[i], r[j]);
        assert j < i;
        assert r[..i][j] == n;
      }
    }
  }

  /** Skipping the first `k` of a descending list deletes all but the newest `k`. */
  lemma FirstAreNewest(r: seq<string>, k: nat)
    requires Descending(r)
    ensures KeepNewest(Elements(r), k) == Elements(if k <= |r| then r[..k] else r)
    ensures |KeepNewest(Elements(r), k)| == if k <= |r| then k else |r|
  {
    var kept := if k <= |r| then r[..k] else r;
    DescendingNoDuplicates(r);
    CountElements(kept);
    forall n ensures n in KeepNewest(Elements(r), k) <==> n in Elements(kept) {
      if n in Elements(r) {
        var i :| 0 <= i < |r| && r[i] == n;
        RankInList(r, i);
        if i < k { assert kept[i] == n; }
      }
    }
  }

  /** A set of names has one descending list. */
  lemma DescendingUnique(r: seq<string>, s: seq<string>)
    requires Descending(r) && Descending(s) && Elements(r) == Elements(s)
    ensures r == s
  {
    DescendingNoDuplicates(r);
    DescendingNoDuplicates(s);
    CountElements(r);
    CountElements(s);
    forall i | 0 <= i < |r| ensures r[i] == s[i] {
      assert r[i] in Elements(s);
      var j :| 0 <= j < |s| && s[j] == r[i];
      RankInList(r, i);
      RankInList(s, j);
    }
  }

  /** The first of a descending list is the newest of every selection that holds it. */
  lemma TopIsNewest(names: set<string>, l: seq<string>)
    requires Descending(l) && l != [] && l[0] in names && names <= Elements(l)
    ensures Above(names, l[0]) == {}
    ensures KeepNewest(names, 1) == {l[0]}
  {
    forall m | m in names && m != l[0] ensures Less(m, l[0]) && !Less(l[0], m) {
      assert m in Elements(l);
      var j :| 0 <= j < |l| && l[j] == m;
      LessTotal(l[0], m);
    }
    LessTotal(l[0], l[0]);
    forall n | n in names && n != l[0] ensures |Above(names, n)| >= 1 {
      assert l[0] in Above(names, n);
    }
  }

  lemma PrefixDescends(l: seq<string>, k: nat)
    requires Descending(l) && k <= |l|
    ensures Descending(l[..k])
  {}

  lemma ElementsCons(x: string, r: seq<string>)
    ensures Elements([x] + r) == Elements(r) + {x}
  {}

  /** Putting a new top name before the newest `k` and keeping `keep` of them. */
  lemma KeepTop(l: seq<string>, x: string, k: nat, keep: nat)
    requires Descending([x] + l) && k <= |l|
    ensures KeepNewest(Elements(l[..k]) + {x}, keep) == Elements(([x] + l)[..Least(k + 1, keep)])
  {
    hide KeepNewest, Descending, Elements;
    var t := ([x] + l)[..k + 1];
    assert t == [x] + l[..k];
    ElementsCons(x, l[..k]);
    PrefixDescends([x] + l, k + 1);
    FirstAreNewest(t, keep);
    if keep <= k + 1 { assert t[..keep] == ([x] + l)[..keep]; }
  }
}
