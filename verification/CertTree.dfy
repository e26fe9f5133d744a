/** The certificate tree of web/app.js: one root, its intermediates, and the leaves under their parents. */
module CertTree {
  import opened Wrappers
  import opened Basics

  datatype Root = Root(id: int, commonName: string)

  /** A row of `state.tls`; None stands for null. */
  datatype Cert = Cert(id: string, rootCaId: Option<int>, level: string, parentId: Option<string>, commonName: string)

  datatype Item = RootRow(root: Root) | Row(cert: Cert)

  datatype Node = Node(item: Item, children: seq<Node>)

  const ROOT_KEY := "__root__"

  /** `Number(t.root_ca_id || 1)`. */
  function RootOf(c: Cert): int {
    match c.rootCaId
    case None => 1
    case Some(n) => if n == 0 then 1 else n
  }

  /** `leaf.parent_cert_id || "__root__"`. */
  function KeyOf(c: Cert): string {
    match c.parentId
    case None => ROOT_KEY
    case Some(p) => if p == "" then ROOT_KEY else p
  }

  predicate IsIntermediate(c: Cert) {
    c.level == "intermediate"
  }

  function Filter(s: seq<Cert>, p: Cert -> bool): (r: seq<Cert>)
    ensures forall x :: x in r <==> x in s && p(x)
    ensures forall x :: multiset(r)[x] == if p(x) then multiset(s)[x] else 0
  {
    if s == [] then [] else
      assert s == [s[0]] + s[1..];
      (if p(s[0]) then [s[0]] else []) + Filter(s[1..], p)
  }

  /** The certificates of the selected root. */
  function OfRoot(tls: seq<Cert>, selected: int): seq<Cert> {
    Filter(tls, c => RootOf(c) == selected)
  }

  /** `selectedRoot`. */
  function SelectedRoot(roots: seq<Root>, selected: int): (r: Option<Root>)
    ensures r.Some? ==> r.value in roots && r.value.id == selected
    ensures r == None ==> forall q :: q in roots ==> q.id != selected
  {
    if roots == [] then None
    else if roots[0].id == selected then Some(roots[0]) else SelectedRoot(roots[1..], selected)
  }

  // ---- sorting ----

  type Order = (string, string) -> bool

  /** What `localeCompare` is: total and transitive. */
  ghost predicate Preorder(le: Order) {
    && (forall a, b :: le(a, b) || le(b, a))
    && (forall a, b, c :: le(a, b) && le(b, c) ==> le(a, c))
  }

  predicate ByName(rows: seq<Cert>, le: Order) {
    forall i, j :: 0 <= i < j < |rows| ==> le(rows[i].commonName, rows[j].commonName)
  }

  function Insert(rows: seq<Cert>, x: Cert, le: Order): (r: seq<Cert>)
    ensures multiset(r) == multiset(rows) + multiset{x}
  {
    if rows == [] || !le(rows[0].commonName, x.commonName) then [x] + rows else
      assert rows == [rows[0]] + rows[1..];
      [rows[0]] + Insert(rows[1..], x, le)
  }

  lemma {:induction false} InsertSorts(rows: seq<Cert>, x: Cert, le: Order)
    requires Preorder(le) && ByName(rows, le)
    ensures ByName(Insert(rows, x, le), le)
  {
    var r := Insert(rows, x, le);
    if rows != [] && le(rows[0].commonName, x.commonName) {
      InsertSorts(rows[1..], x, le);
      forall j | 0 < j < |r| ensures le(r[0].commonName, r[j].commonName) {
        assert r[j] in multiset(Insert(rows[1..], x, le));
      }
    }
  }

  /** `sort` with a comparison of common names; rows of the same name keep their order. */
  method SortByName(rows: seq<Cert>, le: Order) returns (sorted: seq<Cert>)
    requires Preorder(le)
    ensures multiset(sorted) == multiset(rows) && ByName(sorted, le)
  {
    hide Preorder, ByName;
    sorted := [];
    assert ByName([], le) by { NothingSorted(le); }
    for i := 0 to |rows|
      invariant multiset(sorted) == multiset(rows[..i]) && ByName(sorted, le)
    {
      assert rows[..i + 1] == rows[..i] + [rows[i]];
      InsertSorts(sorted, rows[i], le);
      sorted := Insert(sorted, rows[i], le);
    }
    assert rows[..|rows|] == rows;
  }

  lemma NothingSorted(le: Order)
    ensures ByName([], le)
  {}

  // ---- grouping ----

  function WithKey(leaves: seq<Cert>, k: string): seq<Cert> {
    Filter(leaves, c => KeyOf(c) == k)
  }

  /** `leavesByParent`: a map that remembers the order of its keys. */
  datatype Groups = Groups(order: seq<string>, rows: map<string, seq<Cert>>)

  /** The groups hold exactly the leaves whose key is not in `gone`. */
  ghost predicate Grouped(g: Groups, leaves: seq<Cert>, gone: set<string>) {
    && NoDuplicates(g.order)
    && (forall k :: k in g.rows ==> k in g.order && k !in gone)
    && (forall k :: k in g.rows ==> multiset(g.rows[k]) == multiset(WithKey(leaves, k)))
    && (forall c :: c in leaves && KeyOf(c) !in gone ==> KeyOf(c) in g.rows)
  }

  /** The rows of a key, or nothing. */
  function RowsOf(g: Groups, k: string): seq<Cert> {
    if k in g.rows then g.rows[k] else []
  }

  lemma RowsAreWithKey(g: Groups, leaves: seq<Cert>, gone: set<string>, k: string)
    requires Grouped(g, leaves, gone)
    ensures multiset(RowsOf(g, k)) == if k in gone then multiset{} else multiset(WithKey(leaves, k))
  {
    if k !in g.rows && k !in gone {
      forall c ensures multiset(WithKey(leaves, k))[c] == 0 {}
    }
  }

  function AddLeaf(g: Groups, leaf: Cert): Groups {
    var key := KeyOf(leaf);
    Groups(if key in g.rows then g.order else g.order + [key], g.rows[key := RowsOf(g, key) + [leaf]])
  }

  lemma WithKeySnoc(leaves: seq<Cert>, leaf: Cert, k: string)
    ensures multiset(WithKey(leaves + [leaf], k))
         == multiset(WithKey(leaves, k)) + if KeyOf(leaf) == k then multiset{leaf} else multiset{}
  {
    assert multiset(leaves + [leaf]) == multiset(leaves) + multiset{leaf};
  }

  /** Every key of the order is in use while leaves are added. */
  predicate AllUsed(g: Groups) {
    forall k :: k in g.order ==> k in g.rows
  }

  lemma AddLeafGrouped(g: Groups, leaves: seq<Cert>, leaf: Cert)
    requires Grouped(g, leaves, {}) && AllUsed(g)
    ensures Grouped(AddLeaf(g, leaf), leaves + [leaf], {}) && AllUsed(AddLeaf(g, leaf))
  {
    hide KeyOf, WithKey;
    var h := AddLeaf(g, leaf);
    RowsAreWithKey(g, leaves, {}, KeyOf(leaf));
    forall k | k in h.rows ensures multiset(h.rows[k]) == multiset(WithKey(leaves + [leaf], k)) {
      WithKeySnoc(leaves, leaf, k);
    }
  }

  lemma SortedGroup(g: Groups, leaves: seq<Cert>, gone: set<string>, k: string, rows: seq<Cert>)
    requires Grouped(g, leaves, gone) && k in g.rows && multiset(rows) == multiset(g.rows[k])
    ensures Grouped(g.(rows := g.rows[k := rows]), leaves, gone)
  {
    hide KeyOf, WithKey, NoDuplicates;
  }

  predicate GroupsSorted(g: Groups, le: Order) {
    forall k :: k in g.rows ==> ByName(g.rows[k], le)
  }

  method GroupLeaves(leaves: seq<Cert>, le: Order) returns (g: Groups)
    requires Preorder(le)
    ensures Grouped(g, leaves, {}) && GroupsSorted(g, le)
  {
    hide KeyOf, WithKey, NoDuplicates, Preorder, ByName, Grouped;
    g := Groups([], map[]);
    assert leaves[..0] == [];
    NothingGrouped();
    for i := 0 to |leaves|
      invariant Grouped(g, leaves[..i], {}) && AllUsed(g)
    {
      assert leaves[..i + 1] == leaves[..i] + [leaves[i]];
      AddLeafGrouped(g, leaves[..i], leaves[i]);
      g := AddLeaf(g, leaves[i]);
    }
    assert leaves[..|leaves|] == leaves;
    var order := g.order;
    for i := 0 to |order|
      invariant Grouped(g, leaves, {}) && AllUsed(g) && g.order == order
      invariant forall j :: 0 <= j < i ==> ByName(g.rows[order[j]], le)
    {
      var k := order[i];
      var rows := SortByName(g.rows[k], le);
      SortedGroup(g, leaves, {}, k, rows);
      g := g.(rows := g.rows[k := rows]);
    }
    assert forall k :: k in g.rows ==> k in g.order by { KeysInOrder(g, leaves); }
  }

  lemma NothingGrouped()
    ensures Grouped(Groups([], map[]), [], {})
  {}

  lemma KeysInOrder(g: Groups, leaves: seq<Cert>)
    requires Grouped(g, leaves, {})
    ensures forall k :: k in g.rows ==> k in g.order
  {}

  // ---- the tree ----

  function Leaf(c: Cert): Node {
    Node(Row(c), [])
  }

  function LeafNodes(rows: seq<Cert>): (nodes: seq<Node>)
    ensures |nodes| == |rows| && forall i :: 0 <= i < |rows| ==> nodes[i] == Leaf(rows[i])
  {
    seq(|rows|, i requires 0 <= i < |rows| => Leaf(rows[i]))
  }

  /** All certificates at and below a node. */
  function Of(n: Node): multiset<Cert>
    decreases n, 0
  {
    Certs(n.children) + match n.item case RootRow(_) => multiset{} case Row(c) => multiset{c}
  }

  function Certs(nodes: seq<Node>): multiset<Cert> {
    if nodes == [] then multiset{} else Of(nodes[0]) + Certs(nodes[1..])
  }

  function Depth(nodes: seq<Node>): nat {
    if nodes == [] then 0 else Most(1 + Depth(nodes[0].children), Depth(nodes[1..]))
  }

  lemma SumAssoc(a: multiset<Cert>, b: multiset<Cert>, c: multiset<Cert>)
    ensures (a + b) + c == a + (b + c)
  {}

  lemma {:induction false} CertsConcat(a: seq<Node>, b: seq<Node>)
    ensures Certs(a + b) == Certs(a) + Certs(b)
  {
    hide Of;
    if a == [] {
      assert a + b == b;
    } else {
      CertsConcat(a[1..], b);
      assert (a + b)[1..] == a[1..] + b;
      SumAssoc(Of(a[0]), Certs(a[1..]), Certs(b));
    }
  }

  lemma CertsSnoc(nodes: seq<Node>, n: Node)
    ensures Certs(nodes + [n]) == Certs(nodes) + Of(n)
  {
    hide Of;
    CertsConcat(nodes, [n]);
    assert [n][1..] == [];
  }

  lemma {:induction false} CertsOfLeaves(rows: seq<Cert>)
    ensures Certs(LeafNodes(rows)) == multiset(rows)
  {
    hide Of, Leaf;
    if rows != [] {
      CertsOfLeaves(rows[1..]);
      OfLeaf(rows[0]);
      var nodes := LeafNodes(rows);
      assert nodes[1..] == LeafNodes(rows[1..]);
      assert Certs(nodes) == multiset{rows[0]} + multiset(rows[1..]);
      assert rows == [rows[0]] + rows[1..];
    }
  }

  lemma OfLeaf(c: Cert)
    ensures Of(Leaf(c)) == multiset{c}
  {
    assert Certs([]) == multiset{};
  }

  /** A node under the root: an intermediate over leaves that name it, or a leaf that names none of `ids`. */
  ghost predicate Placed(n: Node, ids: set<string>) {
    && n.item.Row?
    && if IsIntermediate(n.item.cert)
       then forall m :: m in n.children ==>
              m.item.Row? && m.children == [] && !IsIntermediate(m.item.cert) && KeyOf(m.item.cert) == n.item.cert.id
       else n.children == [] && KeyOf(n.item.cert) !in ids
  }

  function Ids(rows: seq<Cert>): set<string> {
    set c | c in rows :: c.id
  }

  predicate NoIntermediate(rows: seq<Cert>) {
    forall c :: c in rows ==> !IsIntermediate(c)
  }

  lemma RowsNotIntermediate(g: Groups, leaves: seq<Cert>, gone: set<string>, k: string)
    requires Grouped(g, leaves, gone) && NoIntermediate(leaves)
    ensures forall c :: c in RowsOf(g, k) ==> !IsIntermediate(c) && KeyOf(c) == k
  {
    RowsAreWithKey(g, leaves, gone, k);
    forall c | c in RowsOf(g, k) ensures c in leaves && KeyOf(c) == k {
      assert c in multiset(RowsOf(g, k));
      assert c in multiset(WithKey(leaves, k));
    }
  }

  /** Leaves whose key is in `gone`. */
  function Gone(leaves: seq<Cert>, gone: set<string>): multiset<Cert> {
    multiset(Filter(leaves, c => KeyOf(c) in gone))
  }

  lemma Counts(leaves: seq<Cert>, gone: set<string>, k: string, c: Cert)
    ensures Gone(leaves, gone)[c] == if KeyOf(c) in gone then multiset(leaves)[c] else 0
    ensures multiset(WithKey(leaves, k))[c] == if KeyOf(c) == k then multiset(leaves)[c] else 0
  {}

  lemma GoneGrows(leaves: seq<Cert>, gone: set<string>, k: string)
    ensures Gone(leaves, gone + {k})
         == Gone(leaves, gone) + if k in gone then multiset{} else multiset(WithKey(leaves, k))
  {
    hide KeyOf, Gone, WithKey;
    var more := if k in gone then multiset{} else multiset(WithKey(leaves, k));
    forall c ensures Gone(leaves, gone + {k})[c] == (Gone(leaves, gone) + more)[c] {
      Counts(leaves, gone, k, c);
      Counts(leaves, gone + {k}, k, c);
    }
  }

  lemma AllGone(leaves: seq<Cert>, gone: set<string>)
    requires forall c :: c in leaves ==> KeyOf(c) in gone
    ensures Gone(leaves, gone) == multiset(leaves)
  {
    hide KeyOf, Gone;
    forall c ensures Gone(leaves, gone)[c] == multiset(leaves)[c] {
      Counts(leaves, gone, "", c);
    }
  }

  function Delete(g: Groups, k: string): Groups {
    g.(rows := g.rows - {k})
  }

  lemma DeleteGrouped(g: Groups, leaves: seq<Cert>, gone: set<string>, k: string)
    requires Grouped(g, leaves, gone)
    ensures Grouped(Delete(g, k), leaves, gone + {k})
  {
    hide KeyOf, WithKey, NoDuplicates;
  }

  /** Taking the rows of `k` out of the groups and hanging them below `n`. */
  lemma TakeRows(g: Groups, leaves: seq<Cert>, gone: set<string>, k: string)
    requires Grouped(g, leaves, gone)
    ensures Certs(LeafNodes(RowsOf(g, k))) + Gone(leaves, gone) == Gone(leaves, gone + {k})
  {
    hide KeyOf, WithKey, Gone, Grouped, Certs, LeafNodes, RowsOf;
    CertsOfLeaves(RowsOf(g, k));
    RowsAreWithKey(g, leaves, gone, k);
    GoneGrows(leaves, gone, k);
  }

  lemma LeavesPlaced(g: Groups, leaves: seq<Cert>, gone: set<string>, k: string, ids: set<string>)
    requires Grouped(g, leaves, gone) && NoIntermediate(leaves) && ids <= gone
    ensures forall n :: n in LeafNodes(RowsOf(g, k)) ==> Placed(n, ids)
    ensures forall n :: n in LeafNodes(RowsOf(g, k)) ==>
              n.item.Row? && n.children == [] && !IsIntermediate(n.item.cert) && KeyOf(n.item.cert) == k
  {
    hide KeyOf, IsIntermediate, Grouped;
    RowsNotIntermediate(g, leaves, gone, k);
    GoneHasNoRows(g, leaves, gone, k);
    forall n | n in LeafNodes(RowsOf(g, k)) ensures exists c :: c in RowsOf(g, k) && n == Leaf(c) {
      var i :| 0 <= i < |RowsOf(g, k)| && LeafNodes(RowsOf(g, k))[i] == n;
      assert RowsOf(g, k)[i] in RowsOf(g, k);
    }
  }

  lemma GoneHasNoRows(g: Groups, leaves: seq<Cert>, gone: set<string>, k: string)
    requires Grouped(g, leaves, gone)
    ensures k in gone ==> RowsOf(g, k) == []
  {}

  lemma DeleteSorted(g: Groups, k: string, le: Order)
    requires GroupsSorted(g, le)
    ensures GroupsSorted(Delete(g, k), le)
    ensures var below := LeafNodes(RowsOf(g, k)); ItemsByName(below, |below|, le)
  {}

  /** Appending one more group keeps names in order within each group. */
  lemma AppendGroup(children: seq<Node>, first: nat, g: Groups, leaves: seq<Cert>, gone: set<string>, k: string,
                    le: Order)
    requires Grouped(g, leaves, gone) && GroupsSorted(g, le) && NoIntermediate(leaves)
    requires first <= |children| && SameParentByName(children, first, gone, le)
    requires k == ROOT_KEY || ROOT_KEY in gone
    requires k == ROOT_KEY ==> |children| == first || k in gone
    ensures SameParentByName(children + LeafNodes(RowsOf(g, k)), first, gone + {k}, le)
  {
    var rows := RowsOf(g, k);
    RowsNotIntermediate(g, leaves, gone, k);
    GoneHasNoRows(g, leaves, gone, k);
    hide KeyOf, IsIntermediate, Grouped, RowsOf;
    assert ByName(rows, le) by { RowsSorted(g, k, le); }
    var all := children + LeafNodes(rows);
    forall i | |children| <= i < |all| ensures all[i] == Leaf(rows[i - |children|]) && KeyOf(all[i].item.cert) == k {
      assert rows[i - |children|] in rows;
    }
  }

  lemma RowsSorted(g: Groups, k: string, le: Order)
    requires GroupsSorted(g, le)
    ensures ByName(RowsOf(g, k), le)
  {}

  lemma IdsSnoc(rows: seq<Cert>, c: Cert)
    ensures Ids(rows + [c]) == Ids(rows) + {c.id}
  {}

  /** The intermediates, in order, each over the leaves that name it. */
  method PlaceIntermediates(inters: seq<Cert>, groups: Groups, leaves: seq<Cert>, ghost le: Order)
    returns (children: seq<Node>, g: Groups)
    requires Grouped(groups, leaves, {}) && GroupsSorted(groups, le)
    requires NoIntermediate(leaves) && forall c :: c in inters ==> IsIntermediate(c)
    ensures Certs(children) == multiset(inters) + Gone(leaves, Ids(inters))
    ensures Grouped(g, leaves, Ids(inters)) && GroupsSorted(g, le) && g.order == groups.order
    ensures forall n :: n in children ==> ItemsByName(n.children, |n.children|, le)
    ensures |children| == |inters| && forall i :: 0 <= i < |inters| ==> children[i].item == Row(inters[i])
    ensures forall n :: n in children ==> Placed(n, Ids(inters))
  {
    hide KeyOf, IsIntermediate, Grouped, GroupsSorted, NoIntermediate, Gone, Certs, LeafNodes, RowsOf, Ids, Delete,
         Of, ItemsByName;
    children, g := [], groups;
    NothingGone(leaves);
    for i := 0 to |inters|
      invariant Certs(children) == multiset(inters[..i]) + Gone(leaves, Ids(inters[..i]))
      invariant Grouped(g, leaves, Ids(inters[..i])) && GroupsSorted(g, le) && g.order == groups.order
      invariant forall n :: n in children ==> ItemsByName(n.children, |n.children|, le)
      invariant |children| == i && forall j :: 0 <= j < i ==> children[j].item == Row(inters[j])
      invariant forall n :: n in children ==> Placed(n, Ids(inters))
    {
      var inter := inters[i];
      var gone := Ids(inters[..i]);
      assert inters[..i + 1] == inters[..i] + [inter];
      IdsSnoc(inters[..i], inter);
      var n := Node(Row(inter), LeafNodes(RowsOf(g, inter.id)));
      TakeRows(g, leaves, gone, inter.id);
      LeavesPlaced(g, leaves, gone, inter.id, {});
      IntermediateOf(inter, LeafNodes(RowsOf(g, inter.id)));
      CertsSnoc(children, n);
      DeleteGrouped(g, leaves, gone, inter.id);
      DeleteSorted(g, inter.id, le);
      OrderKept(g, inter.id);
      Regroup(multiset(inters[..i]), Gone(leaves, gone), Certs(n.children), inter);
      children := children + [n];
      g := Delete(g, inter.id);
    }
    assert inters[..|inters|] == inters;
  }

  lemma NothingGone(leaves: seq<Cert>)
    ensures Gone(leaves, Ids([])) == multiset{} && Certs([]) == multiset{} && Ids([]) == {}
  {
    forall c ensures Gone(leaves, {})[c] == 0 { Counts(leaves, {}, "", c); }
  }

  lemma IntermediateOf(inter: Cert, below: seq<Node>)
    ensures Of(Node(Row(inter), below)) == Certs(below) + multiset{inter}
  {}

  lemma OrderKept(g: Groups, k: string)
    ensures Delete(g, k).order == g.order
  {}

  lemma Regroup(a: multiset<Cert>, b: multiset<Cert>, c: multiset<Cert>, x: Cert)
    ensures (a + b) + (c + multiset{x}) == (a + multiset{x}) + (c + b)
  {}

  lemma AddLeaves(children: seq<Node>, below: seq<Node>, a: multiset<Cert>, b: multiset<Cert>, c: multiset<Cert>)
    requires Certs(children) == a + b && Certs(below) + b == c
    ensures Certs(children + below) == a + c
  {
    hide Certs;
    CertsConcat(children, below);
  }

  /** The leaves without an intermediate: first those of the root, then those whose parent is not there. */
  method PlaceRest(placed: seq<Node>, inters: seq<Cert>, groups: Groups, leaves: seq<Cert>, ghost le: Order)
    returns (children: seq<Node>)
    requires Grouped(groups, leaves, Ids(inters)) && GroupsSorted(groups, le) && NoIntermediate(leaves)
    requires Certs(placed) == multiset(inters) + Gone(leaves, Ids(inters))
    requires forall n :: n in placed ==> Placed(n, Ids(inters))
    ensures Certs(children) == multiset(inters) + multiset(leaves)
    ensures |placed| <= |children| && children[..|placed|] == placed
    ensures forall n :: n in children ==> Placed(n, Ids(inters))
    ensures forall i :: |placed| <= i < |children| ==> children[i].item.Row? && !IsIntermediate(children[i].item.cert)
    ensures exists keys :: SameParentByName(children, |placed|, keys, le)
  {
    hide KeyOf, IsIntermediate, Grouped, GroupsSorted, NoIntermediate, Gone, Certs, LeafNodes, RowsOf, Ids, Delete,
         Of, SameParentByName;
    var ids := Ids(inters);
    NoneAppended(placed, ids, le);
    var below := LeafNodes(RowsOf(groups, ROOT_KEY));
    TakeRows(groups, leaves, ids, ROOT_KEY);
    LeavesPlaced(groups, leaves, ids, ROOT_KEY, ids);
    AddLeaves(placed, below, multiset(inters), Gone(leaves, ids), Gone(leaves, ids + {ROOT_KEY}));
    children := placed + below;
    AppendGroup(placed, |placed|, groups, leaves, ids, ROOT_KEY, le);
    var g := Delete(groups, ROOT_KEY);
    DeleteSorted(groups, ROOT_KEY, le);
    DeleteGrouped(groups, leaves, ids, ROOT_KEY);
    ghost var gone := ids + {ROOT_KEY};
    var keys := g.order;
    for i := 0 to |keys|
      invariant Grouped(g, leaves, gone) && GroupsSorted(g, le) && ids <= gone
      invariant forall j :: 0 <= j < i ==> keys[j] in gone
      invariant forall k :: k in ids || k == ROOT_KEY ==> k in gone
      invariant Certs(children) == multiset(inters) + Gone(leaves, gone)
      invariant |placed| <= |children| && children[..|placed|] == placed
      invariant SameParentByName(children, |placed|, gone, le)
      invariant forall n :: n in children ==> Placed(n, ids)
      invariant forall j :: |placed| <= j < |children| ==>
                  children[j].item.Row? && !IsIntermediate(children[j].item.cert)
      invariant g.order == keys
    {
      below := LeafNodes(RowsOf(g, keys[i]));
      TakeRows(g, leaves, gone, keys[i]);
      LeavesPlaced(g, leaves, gone, keys[i], ids);
      AddLeaves(children, below, multiset(inters), Gone(leaves, gone), Gone(leaves, gone + {keys[i]}));
      AppendGroup(children, |placed|, g, leaves, gone, keys[i], le);
      children := children + below;
      DeleteSorted(g, keys[i], le);
      DeleteGrouped(g, leaves, gone, keys[i]);
      OrderKept(g, keys[i]);
      g := Delete(g, keys[i]);
      gone := gone + {keys[i]};
    }
    EverythingGone(g, leaves, gone);
  }

  lemma NoneAppended(nodes: seq<Node>, gone: set<string>, le: Order)
    ensures SameParentByName(nodes, |nodes|, gone, le)
  {}

  lemma EverythingGone(g: Groups, leaves: seq<Cert>, gone: set<string>)
    requires Grouped(g, leaves, gone) && forall k :: k in g.order ==> k in gone
    ensures Gone(leaves, gone) == multiset(leaves)
  {
    hide KeyOf, Gone;
    AllGone(leaves, gone);
  }

  /** From `first` on come leaves of the parents `keys`: those of the root first, those of one parent together and by
      name. */
  predicate SameParentByName(nodes: seq<Node>, first: nat, keys: set<string>, le: Order)
    requires first <= |nodes|
  {
    && (forall i :: first <= i < |nodes| ==> nodes[i].item.Row? && KeyOf(nodes[i].item.cert) in keys)
    && (forall i, j :: first <= i < j < |nodes| && KeyOf(nodes[i].item.cert) == KeyOf(nodes[j].item.cert) ==>
          le(nodes[i].item.cert.commonName, nodes[j].item.cert.commonName))
    && (forall i, j :: first <= i < j < |nodes| && KeyOf(nodes[j].item.cert) == ROOT_KEY ==>
          KeyOf(nodes[i].item.cert) == ROOT_KEY)
    && (forall i, j, k :: first <= i < j < k < |nodes| && KeyOf(nodes[i].item.cert) == KeyOf(nodes[k].item.cert) ==>
          KeyOf(nodes[j].item.cert) == KeyOf(nodes[k].item.cert))
  }

  predicate ItemsByName(nodes: seq<Node>, n: nat, le: Order)
    requires n <= |nodes|
  {
    forall i, j :: 0 <= i < j < n ==>
      nodes[i].item.Row? && nodes[j].item.Row?
      && le(nodes[i].item.cert.commonName, nodes[j].item.cert.commonName)
  }

  function Intermediates(certs: seq<Cert>): seq<Cert> {
    Filter(certs, c => IsIntermediate(c))
  }

  function Leaves(certs: seq<Cert>): seq<Cert> {
    Filter(certs, c => !IsIntermediate(c))
  }

  lemma PartsOf(certs: seq<Cert>)
    ensures (forall c :: c in Intermediates(certs) ==> IsIntermediate(c)) && NoIntermediate(Leaves(certs))
  {}

  /** First the intermediates, by name, then the rest. */
  ghost predicate IntermediatesFirst(nodes: seq<Node>, k: nat, le: Order)
    requires k <= |nodes|
  {
    && ItemsByName(nodes, k, le)
    && forall i :: 0 <= i < |nodes| ==> nodes[i].item.Row? && (i < k <==> IsIntermediate(nodes[i].item.cert))
  }

  /** `buildTlsTree`. */
  method BuildTlsTree(tls: seq<Cert>, roots: seq<Root>, selected: int, le: Order) returns (tree: seq<Node>)
    requires Preorder(le)
    ensures SelectedRoot(roots, selected) == None ==> tree == []
    ensures SelectedRoot(roots, selected).Some? ==>
      && |tree| == 1 && tree[0].item == RootRow(SelectedRoot(roots, selected).value)
      && Of(tree[0]) == multiset(OfRoot(tls, selected))
      && (forall n :: n in tree[0].children ==> Placed(n, Ids(Intermediates(OfRoot(tls, selected)))))
      && (forall n :: n in tree[0].children ==> ItemsByName(n.children, |n.children|, le))
      && exists k, keys | 0 <= k <= |tree[0].children| ::
           IntermediatesFirst(tree[0].children, k, le) && SameParentByName(tree[0].children, k, keys, le)
  {
    hide KeyOf, IsIntermediate, Preorder, Grouped, GroupsSorted, Gone, Certs, Of, Ids, Placed, Intermediates, Leaves,
         OfRoot, IntermediatesFirst, NoIntermediate, SameParentByName, ItemsByName;
    var root := SelectedRoot(roots, selected);
    var certs := OfRoot(tls, selected);
    PartsOf(certs);
    var inters := SortByName(Intermediates(certs), le);
    var leaves := Leaves(certs);
    var groups := GroupLeaves(leaves, le);
    if root == None { return []; }
    SameRows(inters, Intermediates(certs));
    var placed, g := PlaceIntermediates(inters, groups, leaves, le);
    var children := PlaceRest(placed, inters, g, leaves, le);
    SortedBelow(placed, children, Ids(inters), le);
    tree := [Node(RootRow(root.value), children)];
    TwoParts(certs);
    RootIsNoCert(root.value, children);
    InOrder(inters, placed, children, le);
    assert tree[0].children == children;
  }

  lemma SortedBelow(placed: seq<Node>, children: seq<Node>, ids: set<string>, le: Order)
    requires |placed| <= |children| && children[..|placed|] == placed
    requires forall n :: n in placed ==> ItemsByName(n.children, |n.children|, le)
    requires forall n :: n in children ==> Placed(n, ids)
    requires forall i :: |placed| <= i < |children| ==> children[i].item.Row? && !IsIntermediate(children[i].item.cert)
    ensures forall n :: n in children ==> ItemsByName(n.children, |n.children|, le)
  {
    hide KeyOf, IsIntermediate;
    forall n | n in children ensures ItemsByName(n.children, |n.children|, le) {
      var i :| 0 <= i < |children| && children[i] == n;
      if i < |placed| {
        assert placed[i] == children[..|placed|][i];
        assert n in placed;
      } else {
        assert n.children == [];
      }
    }
  }

  lemma InOrder(inters: seq<Cert>, placed: seq<Node>, children: seq<Node>, le: Order)
    requires ByName(inters, le) && forall c :: c in inters ==> IsIntermediate(c)
    requires |placed| == |inters| <= |children| && children[..|placed|] == placed
    requires forall i :: 0 <= i < |inters| ==> placed[i].item == Row(inters[i])
    requires forall i :: |placed| <= i < |children| ==> children[i].item.Row? && !IsIntermediate(children[i].item.cert)
    ensures IntermediatesFirst(children, |placed|, le)
  {
    hide IsIntermediate;
    forall i | 0 <= i < |placed| ensures children[i].item == Row(inters[i]) {
      assert children[i] == children[..|placed|][i];
    }
  }

  lemma SameRows(a: seq<Cert>, b: seq<Cert>)
    requires multiset(a) == multiset(b)
    ensures Ids(a) == Ids(b) && forall c :: c in a <==> c in b
  {
    assert forall c :: c in a <==> c in multiset(a);
    assert forall c :: c in b <==> c in multiset(b);
  }

  lemma PartCounts(certs: seq<Cert>, c: Cert)
    ensures multiset(Intermediates(certs))[c] + multiset(Leaves(certs))[c] == multiset(certs)[c]
  {}

  lemma TwoParts(certs: seq<Cert>)
    ensures multiset(Intermediates(certs)) + multiset(Leaves(certs)) == multiset(certs)
  {
    hide Intermediates, Leaves;
    var both := multiset(Intermediates(certs)) + multiset(Leaves(certs));
    forall c ensures both[c] == multiset(certs)[c] { PartCounts(certs, c); }
  }

  lemma RootIsNoCert(r: Root, children: seq<Node>)
    ensures Of(Node(RootRow(r), children)) == Certs(children)
  {}

  // ---- where a leaf sits ----

  /** Under an intermediate with this id. */
  predicate SitsUnder(root: Node, c: Cert, id: string) {
    exists n :: n in root.children && n.item.Row? && IsIntermediate(n.item.cert) && n.item.cert.id == id
                && Leaf(c) in n.children
  }

  lemma {:induction false} FoundIn(nodes: seq<Node>, c: Cert)
    requires c in Certs(nodes)
    ensures exists n :: n in nodes && c in Of(n)
  {
    hide Of;
    if c in Of(nodes[0]) {
      assert nodes[0] in nodes;
    } else {
      FoundIn(nodes[1..], c);
      var n :| n in nodes[1..] && c in Of(n);
      assert n in nodes;
    }
  }

  lemma {:induction false} Contains(nodes: seq<Node>, n: Node)
    requires n in nodes
    ensures Of(n) <= Certs(nodes)
  {
    hide Of;
    if nodes[0] != n { Contains(nodes[1..], n); }
  }

  lemma SelfIn(n: Node)
    ensures n.item.Row? ==> n.item.cert in Of(n)
    ensures Certs(n.children) <= Of(n)
  {}

  /** A leaf certificate in the tree: directly below the root, or below an intermediate that it names. */
  lemma LeafPlace(root: Node, ids: set<string>, c: Cert)
    requires root.item.RootRow? && (forall n :: n in root.children ==> Placed(n, ids))
    requires c in Of(root) && !IsIntermediate(c)
    ensures (Leaf(c) in root.children && KeyOf(c) !in ids) || SitsUnder(root, c, KeyOf(c))
  {
    hide KeyOf, IsIntermediate, Of;
    RootIsNoCert(root.item.root, root.children);
    assert root == Node(RootRow(root.item.root), root.children);
    FoundIn(root.children, c);
    var n :| n in root.children && c in Of(n);
    OfSplits(n, c);
    if n.item.cert == c {
      assert n == Leaf(c);
    } else {
      FoundIn(n.children, c);
      var m :| m in n.children && c in Of(m);
      OfSplits(m, c);
      NoCertsBelow(m, c);
      assert m == Leaf(c);
    }
  }

  lemma OfSplits(n: Node, c: Cert)
    requires c in Of(n)
    ensures (n.item.Row? && n.item.cert == c) || c in Certs(n.children)
  {}

  lemma NoCertsBelow(m: Node, c: Cert)
    ensures m.children == [] ==> c !in Certs(m.children)
  {}

  /** In a tree that has exactly `certs`: a leaf sits under an intermediate of some id if and only if the id is
      that of an intermediate and the leaf names it; all other leaves sit directly under the root. */
  lemma Placement(root: Node, certs: seq<Cert>, c: Cert, id: string)
    requires root.item.RootRow? && Of(root) == multiset(certs)
    requires forall n :: n in root.children ==> Placed(n, Ids(Intermediates(certs)))
    requires c in certs && !IsIntermediate(c)
    ensures SitsUnder(root, c, id) <==> KeyOf(c) == id && id in Ids(Intermediates(certs))
    ensures Leaf(c) in root.children <==> KeyOf(c) !in Ids(Intermediates(certs))
    ensures id != "" && id != ROOT_KEY ==> (KeyOf(c) == id <==> c.parentId == Some(id))
  {
    hide IsIntermediate, Of, Intermediates, Certs;
    var ids := Ids(Intermediates(certs));
    assert c in multiset(certs);
    LeafPlace(root, ids, c);
    forall k | SitsUnder(root, c, k) ensures KeyOf(c) == k && k in ids {
      var n :| n in root.children && n.item.Row? && IsIntermediate(n.item.cert) && n.item.cert.id == k
            && Leaf(c) in n.children;
      InTree(root, certs, n);
    }
    if Leaf(c) in root.children { assert Placed(Leaf(c), ids); }
  }

  lemma InTree(root: Node, certs: seq<Cert>, n: Node)
    requires root.item.RootRow? && Of(root) == multiset(certs) && n in root.children
    requires n.item.Row? && IsIntermediate(n.item.cert)
    ensures n.item.cert.id in Ids(Intermediates(certs))
  {
    hide Of, Certs;
    RootIsNoCert(root.item.root, root.children);
    assert root == Node(RootRow(root.item.root), root.children);
    Contains(root.children, n);
    SelfIn(n);
    assert n.item.cert in certs;
    assert n.item.cert in Intermediates(certs);
  }

  /** Which certificates the tree of a root has: those that name it, and those that name none, or 0, in the tree of
      root 1. */
  lemma Members(tls: seq<Cert>, selected: int, c: Cert)
    ensures var named := c.rootCaId == Some(selected) && selected != 0;
            var orphan := selected == 1 && (c.rootCaId == None || c.rootCaId == Some(0));
            multiset(OfRoot(tls, selected))[c] == if named || orphan then multiset(tls)[c] else 0
  {}

  /** The place of a leaf, in terms of the rows alone: under the intermediates of the tree whose id it names, and under
      the root if it names nobody or no intermediate of this tree. */
  lemma PlaceInRows(root: Node, certs: seq<Cert>, c: Cert, inter: Cert)
    requires root.item.RootRow? && Of(root) == multiset(certs)
    requires forall n :: n in root.children ==> Placed(n, Ids(Intermediates(certs)))
    requires c in certs && c.level != "intermediate" && inter in certs && inter.level == "intermediate"
    requires forall d :: d in certs ==> d.id != "" && d.id != "__root__"
    ensures c.parentId == Some(inter.id) <==> SitsUnder(root, c, inter.id)
    ensures Leaf(c) in root.children
       <==> forall d :: d in certs && d.level == "intermediate" ==> c.parentId != Some(d.id)
  {
    Placement(root, certs, c, inter.id);
    hide Of, SitsUnder;
    assert inter in Intermediates(certs);
    forall d | d in certs && d.level == "intermediate" ensures d.id in Ids(Intermediates(certs)) {
      assert d in Intermediates(certs);
    }
    KeyNames(c);
  }

  lemma KeyNames(c: Cert)
    ensures forall id :: id != "" && id != "__root__" ==> (KeyOf(c) == id <==> c.parentId == Some(id))
    ensures c.parentId == None || c.parentId == Some("") ==> KeyOf(c) == "__root__"
  {}

  /** At most two levels below the root. */
  lemma TwoLevels(root: Node, ids: set<string>)
    requires forall n :: n in root.children ==> Placed(n, ids)
    ensures Depth(root.children) <= 2
  {
    ShallowNodes(root.children, ids);
  }

  lemma {:induction false} ShallowNodes(nodes: seq<Node>, ids: set<string>)
    requires forall n :: n in nodes ==> Placed(n, ids)
    ensures Depth(nodes) <= 2
  {
    if nodes != [] {
      assert Placed(nodes[0], ids);
      OneLevel(nodes[0].children);
      ShallowNodes(nodes[1..], ids);
    }
  }

  lemma {:induction false} OneLevel(nodes: seq<Node>)
    requires forall m :: m in nodes ==> m.children == []
    ensures Depth(nodes) <= 1
  {
    if nodes != [] {
      assert nodes[0].children == [];
      OneLevel(nodes[1..]);
    }
  }
}
