/** The binary trie of lib/trie.c with the route lists that main/route_arp_ndp.c hangs on its nodes.

    The trie is linked cells with left, right and parent links.  `nodes` names each cell by the bits on
    its path, and the links are proved to realise the paths.  The simple thing it all must agree with is
    a plain table from prefixes to route lists. */
module RouteTrie {
  import opened Common

  const NO_METRIC: nat := 0xffff_ffff

  /** `ident`: all that route_same compares besides interface and metric.  `attr`: what route_copy_attr
      copies. */
  datatype Route = Route(ident: int, ifindex: nat, metric: nat, attr: int)

  type Prefix = seq<bool>
  type Nodes = map<Prefix, Option<seq<Route>>>
  type Table = map<Prefix, seq<Route>>

  function TableOf(nodes: Nodes): Table { map p | p in nodes && nodes[p].Some? :: nodes[p].value }

  // ---------------------------------------------------------------- route lists

  predicate Same(a: Route, b: Route) { a.ident == b.ident && a.ifindex == b.ifindex && a.metric == b.metric }

  /** A route the search may pick: on the wanted interface (0 for any), with a usable metric. */
  predicate Eligible(r: Route, ifindex: nat) {
    (ifindex == 0 || r.ifindex == ifindex) && r.metric < NO_METRIC
  }

  /** The picked route: eligible, with the least metric, and the first such in the list. */
  predicate Picked(list: seq<Route>, ifindex: nat, r: Option<Route>) {
    match r
    case None => forall i :: 0 <= i < |list| ==> !Eligible(list[i], ifindex)
    case Some(best) =>
      exists k :: 0 <= k < |list| && list[k] == best && BestAt(list, ifindex, k)
  }

  predicate BestAt(list: seq<Route>, ifindex: nat, k: nat)
    requires k < |list|
  {
    && Eligible(list[k], ifindex)
    && forall i :: 0 <= i < |list| && Eligible(list[i], ifindex) ==>
         list[k].metric <= list[i].metric && (list[i].metric == list[k].metric ==> k <= i)
  }

  /** The running minimum of route4_search_cb and route6_search_cb_impl. */
  function Select(list: seq<Route>, ifindex: nat): (r: Option<Route>) {
    if list == [] then None
    else
      var before, last := Select(list[..|list| - 1], ifindex), list[|list| - 1];
      if (ifindex == 0 || last.ifindex == ifindex)
         && last.metric < (if before.Some? then before.value.metric else NO_METRIC)
      then Some(last) else before
  }

  lemma {:induction false} SelectPicks(list: seq<Route>, ifindex: nat)
    ensures Picked(list, ifindex, Select(list, ifindex))
    decreases |list|
  {
    if list != [] {
      var n := |list| - 1;
      var pre := list[..n];
      SelectPicks(pre, ifindex);
      var b := Select(pre, ifindex);
      if Select(list, ifindex) == Some(list[n]) && (b == None || list[n].metric < b.value.metric)
         && Eligible(list[n], ifindex) {
        assert BestAt(list, ifindex, n);
      } else if b.Some? {
        var k :| 0 <= k < |pre| && pre[k] == b.value && BestAt(pre, ifindex, k);
        assert BestAt(list, ifindex, k);
      }
    }
  }

  /** route4_add_cb on the list of a node: a known route gets the new attributes, a new one goes in front. */
  function Added(list: seq<Route>, r: Route): seq<Route> {
    if exists i :: 0 <= i < |list| && Same(list[i], r) then Refreshed(list, r) else [r] + list
  }

  function Refreshed(list: seq<Route>, r: Route): seq<Route> {
    if list == [] then [] else if Same(list[0], r) then [list[0].(attr := r.attr)] + list[1..]
    else [list[0]] + Refreshed(list[1..], r)
  }

  /** What adding does: afterwards the list has the route with the new attributes, and every other route
      is as it was; a route that was not there goes in front. */
  lemma {:induction false} AddedIs(list: seq<Route>, r: Route, q: Route)
    ensures exists i :: 0 <= i < |Added(list, r)| && Same(Added(list, r)[i], r) && Added(list, r)[i].attr == r.attr
    ensures !Same(q, r) ==> (q in list <==> q in Added(list, r))
    ensures (forall i :: 0 <= i < |list| ==> !Same(list[i], r)) ==> Added(list, r) == [r] + list
  {
    if exists i :: 0 <= i < |list| && Same(list[i], r) {
      var i :| 0 <= i < |list| && Same(list[i], r);
      RefreshedHas(list, r, i, q);
      var k :| 0 <= k < |list| && Same(Refreshed(list, r)[k], r) && Refreshed(list, r)[k].attr == r.attr;
      assert Added(list, r)[k] == Refreshed(list, r)[k];
    } else {
      assert Added(list, r)[0] == r;
    }
  }

  lemma {:induction false} RefreshedHas(list: seq<Route>, r: Route, i: nat, q: Route)
    requires i < |list| && Same(list[i], r)
    ensures |Refreshed(list, r)| == |list|
    ensures exists k :: 0 <= k < |list| && Same(Refreshed(list, r)[k], r) && Refreshed(list, r)[k].attr == r.attr
    ensures !Same(q, r) ==> (q in list <==> q in Refreshed(list, r))
    decreases |list|
  {
    assert list == [list[0]] + list[1..];
    if Same(list[0], r) {
      assert Refreshed(list, r)[0].attr == r.attr;
    } else {
      RefreshedHas(list[1..], r, i - 1, q);
      var rest := Refreshed(list[1..], r);
      var k :| 0 <= k < |rest| && Same(rest[k], r) && rest[k].attr == r.attr;
      assert Refreshed(list, r)[k + 1] == rest[k];
    }
  }

  /** route4_delete_cb: the first such route goes. */
  function Removed(list: seq<Route>, r: Route): seq<Route> {
    if list == [] then [] else if Same(list[0], r) then list[1..] else [list[0]] + Removed(list[1..], r)
  }

  // ---------------------------------------------------------------- the simple rule

  /** Look through the prefixes of a key from the longest down, and take the first that yields a route. */
  function Scan(table: Table, key: Prefix, n: nat, ifindex: nat): Option<Route>
    requires n <= |key|
    decreases n
  {
    var here := if key[..n] in table then Select(table[key[..n]], ifindex) else None;
    if here.Some? || n == 0 then here else Scan(table, key, n - 1, ifindex)
  }

  /** What that means: the route picked at the longest prefix of the key that has an eligible one; nothing
      only if no prefix has. */
  lemma {:induction false} ScanIsLongest(table: Table, key: Prefix, n: nat, ifindex: nat)
    requires n <= |key|
    ensures Scan(table, key, n, ifindex) == None ==>
              forall m :: 0 <= m <= n && key[..m] in table ==> Picked(table[key[..m]], ifindex, None)
    ensures Scan(table, key, n, ifindex).Some? ==>
              exists m :: LongestAt(table, key, n, ifindex, m, Scan(table, key, n, ifindex).value)
  {
    var m := ScanDepth(table, key, n, ifindex);
  }

  lemma {:induction false} ScanDepth(table: Table, key: Prefix, n: nat, ifindex: nat) returns (m: int)
    requires n <= |key|
    ensures match Scan(table, key, n, ifindex)
            case None => forall j :: 0 <= j <= n && key[..j] in table ==> Picked(table[key[..j]], ifindex, None)
            case Some(r) => LongestAt(table, key, n, ifindex, m, r)
    decreases n
  {
    if key[..n] in table { SelectPicks(table[key[..n]], ifindex); }
    var here := if key[..n] in table then Select(table[key[..n]], ifindex) else None;
    m := n;
    if here == None && n > 0 { m := ScanDepth(table, key, n - 1, ifindex); }
  }

  predicate LongestAt(table: Table, key: Prefix, n: nat, ifindex: nat, m: int, r: Route)
    requires n <= |key|
  {
    && 0 <= m <= n && key[..m] in table && Picked(table[key[..m]], ifindex, Some(r))
    && forall j :: m < j <= n && key[..j] in table ==> Picked(table[key[..j]], ifindex, None)
  }

  // ---------------------------------------------------------------- shape of the trie

  function Parent(p: Prefix): Prefix
    requires p != []
  {
    p[..|p| - 1]
  }

  predicate HasParent(nodes: Nodes, p: Prefix) { p == [] || Parent(p) in nodes }

  /** The root is there, every node's parent is, and no list is empty. */
  predicate Shaped(nodes: Nodes) {
    && [] in nodes && (forall p {:trigger HasParent(nodes, p)} :: p in nodes ==> HasParent(nodes, p))
    && forall p :: p in nodes && nodes[p].Some? ==> nodes[p].value != []
  }

  predicate Useful(nodes: Nodes, p: Prefix) {
    p in nodes ==> p == [] || nodes[p].Some? || p + [false] in nodes || p + [true] in nodes
  }

  /** No dead branches: every node below the root holds routes or leads to one that does. */
  ghost predicate Tidy(nodes: Nodes) { forall p :: Useful(nodes, p) }

  /** With its parents there, a missing node means that nothing below it is there. */
  lemma {:induction false} NothingBelow(nodes: Nodes, key: Prefix, i: nat, j: nat)
    requires Shaped(nodes) && i <= j <= |key| && key[..i] !in nodes
    ensures key[..j] !in nodes
    decreases j
  {
    if j > i {
      NothingBelow(nodes, key, i, j - 1);
      assert HasParent(nodes, key[..j]) || key[..j] !in nodes;
      assert key[..j][..j - 1] == key[..j - 1];
    }
  }

  lemma {:induction false} ScanDown(table: Table, key: Prefix, n: nat, m: nat, ifindex: nat)
    requires m <= n <= |key| && forall j :: m < j <= n ==> key[..j] !in table
    ensures Scan(table, key, n, ifindex) == Scan(table, key, m, ifindex)
    decreases n
  {
    if n > m { ScanDown(table, key, n - 1, m, ifindex); }
  }

  // ---------------------------------------------------------------- the links

  type Ref = nat

  const ROOT: Ref := 0

  /** One trie_node; `routes` is exist_element with the list that element points to. */
  datatype Cell = Cell(left: Option<Ref>, right: Option<Ref>, parent: Option<Ref>, routes: Option<seq<Route>>)

  /** The cells, the nodes they stand for, where each node is, and the path of each cell. */
  datatype Memory = Memory(cells: map<Ref, Cell>, nodes: Nodes, at: map<Prefix, Ref>, path: map<Ref, Prefix>)

  function Child(at: map<Prefix, Ref>, p: Prefix, b: bool): Option<Ref> {
    if p + [b] in at then Some(at[p + [b]]) else None
  }

  function Above(at: map<Prefix, Ref>, p: Prefix): Option<Ref> {
    if p != [] && Parent(p) in at then Some(at[Parent(p)]) else None
  }

  /** The node's cell holds its routes, and its links lead to its children and to its parent. */
  predicate Placed(m: Memory, p: Prefix) {
    && p in m.nodes && p in m.at && m.at[p] in m.cells && m.at[p] in m.path && m.path[m.at[p]] == p
    && m.cells[m.at[p]] == Cell(Child(m.at, p, false), Child(m.at, p, true), Above(m.at, p), m.nodes[p])
  }

  /** Every allocated cell is some node's. */
  predicate Owned(m: Memory, r: Ref) { r in m.path && m.path[r] in m.at && m.at[m.path[r]] == r }

  /** The links realise the paths: no cell is shared, none is lost, and no link dangles. */
  ghost predicate Realised(m: Memory) {
    && m.at.Keys == m.nodes.Keys && m.path.Keys == m.cells.Keys && [] in m.at && m.at[[]] == ROOT
    && (forall p {:trigger Placed(m, p)} :: p in m.nodes ==> Placed(m, p))
    && (forall r {:trigger Owned(m, r)} :: r in m.cells ==> Owned(m, r))
  }

  lemma {:induction false} SameChild(p: Prefix, b: bool, q: Prefix, c: bool)
    ensures p + [b] == q + [c] <==> p == q && b == c
  {
    assert (p + [b])[..|p|] == p && (q + [c])[..|q|] == q;
    assert (p + [b])[|p|] == b && (q + [c])[|q|] == c;
  }

  function WithChild(c: Cell, b: bool, r: Option<Ref>): Cell {
    if b then c.(right := r) else c.(left := r)
  }

  /** A new cell hung below a node. */
  function Hung(m: Memory, p: Prefix, b: bool, r: Ref): Memory
    requires Placed(m, p)
  {
    var up := m.at[p];
    Memory(m.cells[up := WithChild(m.cells[up], b, Some(r))][r := Cell(None, None, Some(up), None)],
           m.nodes[p + [b] := None], m.at[p + [b] := r], m.path[r := p + [b]])
  }

  lemma {:induction false} HungCell(m: Memory, p: Prefix, b: bool, r: Ref, q: Prefix)
    requires Realised(m) && Shaped(m.nodes) && Placed(m, p) && p + [b] !in m.nodes && r !in m.cells && q in m.nodes
    ensures Placed(Hung(m, p, b, r), q)
  {
    assert Placed(m, q);
    SameChild(p, b, q, false);
    SameChild(p, b, q, true);
    assert HasParent(m.nodes, q);
    assert q != [] ==> Parent(q) in m.at.Keys;
    assert q == p || m.at[q] != m.at[p];
  }

  lemma {:induction false} HungKeeps(m: Memory, p: Prefix, b: bool, r: Ref)
    requires Realised(m) && Shaped(m.nodes) && Placed(m, p) && p + [b] !in m.nodes && r !in m.cells
    ensures Realised(Hung(m, p, b, r))
  {
    var h := Hung(m, p, b, r);
    assert Owned(m, m.at[p]);
    forall q | q in m.nodes ensures Placed(h, q) { HungCell(m, p, b, r, q); }
    ChildParent(p, b);
    NoGrandchild(m, p + [b], false);
    NoGrandchild(m, p + [b], true);
    assert Placed(h, p + [b]);
    forall x | x in h.cells ensures Owned(h, x) { assert x != r ==> Owned(m, x); }
  }

  lemma {:induction false} NoGrandchild(m: Memory, p: Prefix, b: bool)
    requires Realised(m) && Shaped(m.nodes) && p !in m.nodes
    ensures p + [b] !in m.at
  {
    ChildParent(p, b);
    assert HasParent(m.nodes, p + [b]) ==> p in m.nodes;
    assert p + [b] in m.at ==> p + [b] in m.nodes.Keys;
  }

  /** Other routes at a node. */
  function Refilled(m: Memory, p: Prefix, x: Option<seq<Route>>): Memory
    requires Placed(m, p)
  {
    m.(cells := m.cells[m.at[p] := m.cells[m.at[p]].(routes := x)], nodes := m.nodes[p := x])
  }

  lemma {:induction false} RefilledKeeps(m: Memory, p: Prefix, x: Option<seq<Route>>)
    requires Realised(m) && Placed(m, p)
    ensures Realised(Refilled(m, p, x))
  {
    var f := Refilled(m, p, x);
    forall q | q in f.nodes ensures Placed(f, q) {
      assert Placed(m, q);
      assert q == p || m.at[q] != m.at[p];
    }
    forall r | r in f.cells ensures Owned(f, r) { assert Owned(m, r); }
  }

  /** A leaf cut off its parent and freed. */
  function CutOff(m: Memory, p: Prefix): Memory
    requires Placed(m, p) && p != [] && Placed(m, Parent(p))
  {
    var r, up := m.at[p], m.at[Parent(p)];
    var b := m.cells[up].left != Some(r);
    Memory(m.cells[up := WithChild(m.cells[up], b, None)] - {r}, m.nodes - {p}, m.at - {p}, m.path - {r})
  }

  lemma {:induction false} CutOffSide(m: Memory, p: Prefix)
    requires Realised(m) && Placed(m, p) && p != [] && Placed(m, Parent(p))
    ensures (m.cells[m.at[Parent(p)]].left != Some(m.at[p])) == p[|p| - 1]
    ensures p == Parent(p) + [p[|p| - 1]]
  {
    var up, b := Parent(p), p[|p| - 1];
    assert p == up + [b];
    SameChild(up, b, up, false);
    if up + [false] in m.at { assert up + [false] in m.nodes.Keys; assert Placed(m, up + [false]); }
  }

  lemma {:induction false} CutOffCell(m: Memory, p: Prefix, q: Prefix)
    requires Realised(m) && Placed(m, p) && p != [] && Placed(m, Parent(p)) && q in m.nodes && q != p
    requires p + [false] !in m.nodes && p + [true] !in m.nodes
    ensures Placed(CutOff(m, p), q)
  {
    assert Placed(m, q);
    CutOffSide(m, p);
    SameChild(Parent(p), p[|p| - 1], q, false);
    SameChild(Parent(p), p[|p| - 1], q, true);
    if q != [] { ChildOf(q); }
    assert m.at[q] != m.at[p];
    assert q == Parent(p) || m.at[q] != m.at[Parent(p)];
  }

  lemma {:induction false} CutOffKeeps(m: Memory, p: Prefix)
    requires Realised(m) && Placed(m, p) && p != [] && Placed(m, Parent(p))
    requires p + [false] !in m.nodes && p + [true] !in m.nodes
    ensures Realised(CutOff(m, p))
  {
    var c := CutOff(m, p);
    assert Owned(m, m.at[Parent(p)]);
    assert Placed(m, []) by { assert [] in m.nodes.Keys; }
    forall q | q in c.nodes ensures Placed(c, q) { CutOffCell(m, p, q); }
    forall r | r in c.cells ensures Owned(c, r) { assert Owned(m, r); }
  }

  /** Memory never runs out of names. */
  lemma {:induction false} FreshRef(used: set<Ref>) returns (r: Ref)
    ensures r !in used && forall x :: x in used ==> x < r
  {
    if x :| x in used {
      var rest := used - {x};
      r := FreshRef(rest);
      if r <= x { r := x + 1; }
      assert used == rest + {x};
    } else {
      r := 0;
    }
  }

  // ---------------------------------------------------------------- the code

  /** The loop over a route list that looks for the same route. */
  method FindRoute(list: seq<Route>, r: Route) returns (i: nat)
    ensures i <= |list| && (i < |list| ==> Same(list[i], r)) && forall j :: 0 <= j < i ==> !Same(list[j], r)
  {
    i := 0;
    while i < |list| && !Same(list[i], r)
      invariant i <= |list| && forall j :: 0 <= j < i ==> !Same(list[j], r)
    {
      i := i + 1;
    }
  }

  class Trie {
    var cells: map<Ref, Cell>
    const depth: nat
    ghost var nodes: Nodes
    ghost var at: map<Prefix, Ref>
    ghost var path: map<Ref, Prefix>

    ghost function M(): Memory
      reads this
    {
      Memory(cells, nodes, at, path)
    }

    ghost predicate Valid()
      reads this
    {
      Shaped(nodes) && Realised(M())
    }

    /** 32 for IPv4, 128 for IPv6. */
    constructor (maxDepth: nat)
      ensures Valid() && Tidy(nodes) && TableOf(nodes) == map[] && depth == maxDepth
    {
      cells := map[ROOT := Cell(None, None, None, None)];
      nodes, at, path := map[[] := None], map[[] := ROOT], map[ROOT := []];
      depth := maxDepth;
      new;
      assert Placed(M(), []) && Owned(M(), ROOT);
    }

    /** One link down. */
    method Next(cur: Ref, b: bool, ghost p: Prefix) returns (r: Option<Ref>)
      requires Valid() && p in nodes && p in at && cur == at[p]
      ensures cur in cells && r == Child(at, p, b)
      ensures (r.Some? <==> p + [b] in nodes)
              && (r.Some? ==> r.value in cells && cells[r.value].routes == nodes[p + [b]])
    {
      assert Placed(M(), p);
      r := if b then cells[cur].right else cells[cur].left;
      assert p + [b] in at <==> p + [b] in nodes by { assert p + [b] in at.Keys <==> p + [b] in nodes.Keys; }
      if p + [b] in nodes { assert Placed(M(), p + [b]); }
    }

    /** find_trie_node_common without creating: the cell to start a search at, with its depth, or None. */
    method Find(key: Prefix, prefix: bool) returns (r: Option<Ref>, ghost d: int)
      requires Valid()
      ensures r.Some? ==> 0 <= d <= |key| && AtDepth(M(), key, d, r.value)
      ensures r == None ==> d == -1
      ensures !prefix ==> (r.Some? <==> key in nodes) && (r.Some? ==> d == |key|)
      ensures prefix ==> NoneAfter(nodes, key, d, |key|)
    {
      assert key[..0] == [] && key[..|key|] == key;
      var cur := ROOT;
      assert Placed(M(), []);
      var last: Option<Ref> := if cells[ROOT].routes.Some? then Some(ROOT) else None;
      d := if last.Some? then 0 else -1;
      for i := 0 to |key|
        invariant AtDepth(M(), key, i, cur)
        invariant if last.Some? then 0 <= d <= i && AtDepth(M(), key, d, last.value) else d == -1
        invariant NoneAfter(nodes, key, d, i)
      {
        var next := Next(cur, key[i], key[..i]);
        assert key[..i] + [key[i]] == key[..i + 1];
        if next == None {
          DeadEnd(nodes, key, d, i);
          if prefix { return last, d; } else { return None, -1; }
        }
        cur := next.value;
        assert Placed(M(), key[..i + 1]);
        if cells[cur].routes.Some? { last, d := Some(cur), i + 1; }
      }
      r, d := Some(cur), |key|;
    }

    /** create_trie_node below a cell. */
    method CreateNode(cur: Ref, b: bool, ghost p: Prefix) returns (r: Ref)
      requires Valid() && p in nodes && p in at && cur == at[p] && p + [b] !in nodes
      modifies this`cells, this`nodes, this`at, this`path
      ensures nodes == old(nodes)[p + [b] := None] && Valid()
      ensures p + [b] in at && at[p + [b]] == r
    {
      ghost var m := M();
      assert Placed(m, p);
      ghost var some := FreshRef(cells.Keys);
      assert some !in cells;
      r :| r !in cells;
      HungKeeps(m, p, b, r);
      CreateKeeps(nodes, p, b);
      cells := cells[cur := WithChild(cells[cur], b, Some(r))];
      cells := cells[r := Cell(None, None, Some(cur), None)];
      nodes, at, path := nodes[p + [b] := None], at[p + [b] := r], path[r := p + [b]];
      assert M() == Hung(m, p, b, r);
    }

    /** find_trie_node_common with creating; None when memory runs out on the way, and then the cells
        made so far stay. */
    method Create(key: Prefix, alloc: bool) returns (r: Option<Ref>)
      requires Valid()
      modifies this`cells, this`nodes, this`at, this`path
      ensures Valid() && TableOf(nodes) == old(TableOf(nodes)) && (r.Some? ==> AtDepth(M(), key, |key|, r.value))
      ensures old(Tidy(nodes)) && r.Some? ==> TidyBut(nodes, key)
      ensures alloc ==> r.Some?
    {
      assert key[..0] == [] && key[..|key|] == key;
      var cur := ROOT;
      assert Placed(M(), []);
      for i := 0 to |key|
        invariant Valid() && AtDepth(M(), key, i, cur) && TableOf(nodes) == old(TableOf(nodes))
        invariant old(Tidy(nodes)) ==> TidyBut(nodes, key[..i])
      {
        var next := Next(cur, key[i], key[..i]);
        assert key[..i] + [key[i]] == key[..i + 1];
        if next == None {
          var ok := *;
          if !ok && !alloc { return None; }
          CreateKeeps(nodes, key[..i], key[i]);
          cur := CreateNode(cur, key[i], key[..i]);
        } else {
          StepTidy(nodes, key[..i], key[i]);
          cur := next.value;
        }
        assert Placed(M(), key[..i + 1]);
      }
      r := Some(cur);
    }

    /** The dead end is unlinked from its parent and freed. */
    method FreeLeaf(cur: Ref, ghost p: Prefix) returns (up: Ref)
      requires Valid() && p in nodes && p in at && cur == at[p] && p != [] && nodes[p] == None
      requires p + [false] !in nodes && p + [true] !in nodes
      modifies this`cells, this`nodes, this`at, this`path
      ensures nodes == old(nodes) - {p} && Valid()
      ensures Parent(p) in at && up == at[Parent(p)]
    {
      ghost var m := M();
      ClearKeeps(nodes, p);
      assert Placed(m, p) && Placed(m, Parent(p));
      up := cells[cur].parent.value;
      CutOffKeeps(m, p);
      if cells[up].left == Some(cur) {
        cells := cells[up := cells[up].(left := None)];
      } else {
        cells := cells[up := cells[up].(right := None)];
      }
      cells := cells - {cur};
      nodes, at, path := nodes - {p}, at - {p}, path - {cur};
      assert M() == CutOff(m, p);
    }

    /** The test of clear_empty_branch, on links, says that the node is a dead end below the root. */
    method DeadLeaf(cur: Ref, ghost p: Prefix) returns (dead: bool)
      requires Valid() && p in nodes && p in at && cur == at[p]
      ensures dead <==> p != [] && p + [false] !in nodes && p + [true] !in nodes && nodes[p] == None
    {
      assert Placed(M(), p);
      if p != [] { assert HasParent(nodes, p); assert Parent(p) in nodes.Keys; }
      var left := Next(cur, false, p);
      var right := Next(cur, true, p);
      dead := cells[cur].parent.Some? && left == None && right == None && cells[cur].routes == None;
    }

    /** clear_empty_branch: from a node up, as long as nodes are dead ends. */
    method ClearEmptyBranch(node: Ref, ghost from: Prefix)
      requires Valid() && from in nodes && from in at && node == at[from]
      modifies this`cells, this`nodes, this`at, this`path
      ensures Valid() && TableOf(nodes) == old(TableOf(nodes))
      ensures old(TidyBut(nodes, from)) ==> Tidy(nodes)
    {
      var cur, go := node, true;
      ghost var p := from;
      while go
        invariant Valid() && p in nodes && p in at && cur == at[p] && TableOf(nodes) == old(TableOf(nodes))
        invariant old(TidyBut(nodes, from)) ==> TidyBut(nodes, p)
        invariant !go ==> Useful(nodes, p)
        decreases |p|, go
      {
        go := DeadLeaf(cur, p);
        if go {
          ClearKeeps(nodes, p);
          cur := FreeLeaf(cur, p);
          p := Parent(p);
        }
      }
    }

    /** The node's routes are replaced. */
    method SetRoutes(cur: Ref, x: Option<seq<Route>>, ghost p: Prefix)
      requires Valid() && p in nodes && p in at && cur == at[p] && Shaped(nodes[p := x])
      modifies this`cells, this`nodes
      ensures Valid() && nodes == old(nodes)[p := x]
    {
      ghost var m := M();
      assert Placed(m, p);
      RefilledKeeps(m, p, x);
      cells := cells[cur := cells[cur].(routes := x)];
      nodes := nodes[p := x];
      assert M() == Refilled(m, p, x);
    }

    /** route4_add_cb. */
    method AddRoute(cur: Ref, r: Route, alloc: bool, ghost key: Prefix) returns (done: bool)
      requires Valid() && key in nodes && key in at && cur == at[key]
      modifies this`cells, this`nodes
      ensures Valid() && (!done ==> nodes == old(nodes) && cells == old(cells))
      ensures done ==> TableOf(nodes) == old(TableOf(nodes))[key := Added(Lookup(old(TableOf(nodes)), key), r)]
      ensures done ==> (old(TidyBut(nodes, key)) ==> Tidy(nodes))
      ensures alloc ==> done
    {
      assert Placed(M(), key);
      var list := if cells[cur].routes.Some? then cells[cur].routes.value else [];
      assert list == Lookup(TableOf(nodes), key);
      var i := FindRoute(list, r);
      if i < |list| {
        RefreshedAt(list, r, i);
        list := list[i := list[i].(attr := r.attr)];
      } else {
        var ok := *;
        if !ok && !alloc { return false; }
        list := [r] + list;
      }
      FillKeeps(nodes, key, list);
      SetRoutes(cur, Some(list), key);
      done := true;
    }

    /** add_trie_element with route4_add_cb; false when the mask is too long or memory runs out, which it does
        not if `alloc`. */
    method Add(key: Prefix, r: Route, alloc: bool) returns (done: bool)
      requires Valid()
      modifies this`cells, this`nodes, this`at, this`path
      ensures Valid() && (|key| > depth ==> !done)
      ensures !done ==> TableOf(nodes) == old(TableOf(nodes))
      ensures done ==> TableOf(nodes) == old(TableOf(nodes))[key := Added(Lookup(old(TableOf(nodes)), key), r)]
      ensures done && old(Tidy(nodes)) ==> Tidy(nodes)
      ensures alloc && |key| <= depth ==> done
    {
      if |key| > depth { return false; }
      var found := Create(key, alloc);
      if found == None { return false; }
      assert key[..|key|] == key;
      done := AddRoute(found.value, r, alloc, key);
    }

    /** route4_delete_cb. */
    method DeleteRoute(cur: Ref, r: Route, ghost key: Prefix)
      requires Valid() && key in nodes && key in at && cur == at[key]
      modifies this`cells, this`nodes
      ensures Valid() && key in nodes && TableOf(nodes) == Deleted(old(TableOf(nodes)), key, r)
      ensures old(Tidy(nodes)) ==> TidyBut(nodes, key)
    {
      assert Placed(M(), key);
      if cells[cur].routes.Some? {
        var list := cells[cur].routes.value;
        var i := FindRoute(list, r);
        RemovedAt(list, r, i);
        if i < |list| { list := list[..i] + list[i + 1..]; }
        DeleteKeeps(nodes, key, r);
        SetRoutes(cur, if list == [] then None else Some(list), key);
      }
    }

    /** delete_trie_element with route4_delete_cb; a missing prefix or route is not an error. */
    method Delete(key: Prefix, r: Route) returns (done: bool)
      requires Valid()
      modifies this`cells, this`nodes, this`at, this`path
      ensures Valid() && (done <==> |key| <= depth)
      ensures done ==> TableOf(nodes) == Deleted(old(TableOf(nodes)), key, r)
      ensures !done ==> nodes == old(nodes) && cells == old(cells)
      ensures old(Tidy(nodes)) ==> Tidy(nodes)
    {
      if |key| > depth { return false; }
      assert key[..|key|] == key;
      ghost var d;
      var cur;
      cur, d := Find(key, false);
      done := true;
      if cur == None { return; }
      DeleteRoute(cur.value, r, key);
      ClearEmptyBranch(cur.value, key);
    }

    /** The list loop of the search callbacks. */
    method SelectRoute(list: seq<Route>, ifindex: nat) returns (r: Option<Route>)
      ensures r == Select(list, ifindex) && Picked(list, ifindex, r)
    {
      r := None;
      var least := NO_METRIC;
      for i := 0 to |list|
        invariant r == Select(list[..i], ifindex) && least == if r.Some? then r.value.metric else NO_METRIC
      {
        assert list[..i + 1][..i] == list[..i];
        if ifindex != 0 && list[i].ifindex != ifindex { continue; }
        if list[i].metric < least { least, r := list[i].metric, Some(list[i]); }
      }
      assert list[..|list|] == list;
      SelectPicks(list, ifindex);
    }

    /** search_trie_element: prefix search is the scan of the plain table; exact search looks at one prefix. */
    method Search(key: Prefix, prefix: bool, ifindex: nat) returns (r: Option<Route>)
      requires Valid()
      ensures |key| > depth ==> r == None
      ensures |key| <= depth && prefix ==> r == Scan(TableOf(nodes), key, |key|, ifindex)
      ensures |key| <= depth && !prefix ==> Picked(Lookup(TableOf(nodes), key), ifindex, r)
    {
      if |key| > depth { return None; }
      assert key[..|key|] == key;
      ghost var d;
      var found;
      found, d := Find(key, prefix);
      if prefix { StepScan(nodes, key, |key|, d, ifindex); }
      if found == None { return None; }
      if !prefix {
        if cells[found.value].routes.Some? {
          r := SelectRoute(cells[found.value].routes.value, ifindex);
        } else {
          r := None;
        }
        return;
      }
      r := Climb(found.value, ifindex, key, d);
    }

    /** One link up. */
    method Up(cur: Ref, ghost key: Prefix, ghost d: int) returns (r: Option<Ref>)
      requires Valid() && AtDepth(M(), key, d, cur)
      ensures r == None <==> d == 0
      ensures r.Some? ==> AtDepth(M(), key, d - 1, r.value)
    {
      r := cells[cur].parent;
      assert key[..0] == [];
      if d > 0 {
        UpOne(nodes, key, d);
        assert Parent(key[..d]) == key[..d - 1];
        assert key[..d - 1] in nodes.Keys;
        assert Placed(M(), key[..d - 1]);
      }
    }

    /** The inner loop of search_trie_element: up to the next node that holds routes, if there is one. */
    method NextStored(cur: Ref, ghost key: Prefix, ghost d: int) returns (r: Option<Ref>, ghost e: int)
      requires Valid() && AtDepth(M(), key, d, cur)
      ensures -1 <= e < d && (r == None <==> e == -1) && (r.Some? ==> AtDepth(M(), key, e, r.value))
      ensures NoneAfter(nodes, key, e, d - 1)
    {
      r := Up(cur, key, d);
      e := d - 1;
      while r.Some? && cells[r.value].routes == None
        invariant -1 <= e < d && (r == None <==> e == -1) && (r.Some? ==> AtDepth(M(), key, e, r.value))
        invariant NoneAfter(nodes, key, e, d - 1)
        decreases e
      {
        assert !StoredAt(nodes, key, e);
        r := Up(r.value, key, e);
        e := e - 1;
      }
    }

    /** The loop of search_trie_element: try a node, then go up to the next one that holds routes. */
    method Climb(start: Ref, ifindex: nat, ghost key: Prefix, ghost d: int) returns (r: Option<Route>)
      requires Valid() && AtDepth(M(), key, d, start)
      ensures r == Scan(TableOf(nodes), key, d, ifindex)
    {
      var cur := Some(start);
      ghost var e := d;
      r := None;
      while cur.Some?
        invariant -1 <= e <= d <= |key| && (cur == None <==> e == -1) && (cur.Some? ==> AtDepth(M(), key, e, cur.value))
        invariant Scan(TableOf(nodes), key, d, ifindex) == if e < 0 then None else Scan(TableOf(nodes), key, e, ifindex)
        invariant r == None
        decreases e
      {
        if cells[cur.value].routes.Some? { r := SelectRoute(cells[cur.value].routes.value, ifindex); }
        ScanHere(nodes, key, e, ifindex);
        if r.Some? { return; }
        ghost var from := e;
        cur, e := NextStored(cur.value, key, e);
        if from > 0 { StepScan(nodes, key, from - 1, e, ifindex); }
      }
    }
  }

  /** The cell of the key's prefix of length d. */
  predicate AtDepth(m: Memory, key: Prefix, d: int, r: Ref) {
    && 0 <= d <= |key| && key[..d] in m.nodes && key[..d] in m.at && m.at[key[..d]] == r && r in m.cells
    && m.cells[r].routes == m.nodes[key[..d]] && m.cells[r].parent == Above(m.at, key[..d])
  }

  /** A search may start, or go on, at the next prefix that holds routes. */
  lemma {:induction false} StepScan(nodes: Nodes, key: Prefix, n: nat, e: int, ifindex: nat)
    requires n <= |key| && -1 <= e <= n && NoneAfter(nodes, key, e, n)
    ensures Scan(TableOf(nodes), key, n, ifindex) == if e < 0 then None else Scan(TableOf(nodes), key, e, ifindex)
  {
    SkipEmpty(nodes, key, n, if e < 0 then 0 else e, ifindex);
    assert e < 0 ==> !StoredAt(nodes, key, 0);
  }

  lemma {:induction false} UpOne(nodes: Nodes, key: Prefix, d: nat)
    requires Shaped(nodes) && 0 < d <= |key| && key[..d] in nodes
    ensures key[..d - 1] in nodes
  {
    assert HasParent(nodes, key[..d]) && key[..d][..d - 1] == key[..d - 1];
  }

  lemma {:induction false} ScanHere(nodes: Nodes, key: Prefix, d: nat, ifindex: nat)
    requires d <= |key| && key[..d] in nodes
    ensures var here := if nodes[key[..d]].Some? then Select(nodes[key[..d]].value, ifindex) else None;
            Scan(TableOf(nodes), key, d, ifindex)
            == if here.Some? || d == 0 then here else Scan(TableOf(nodes), key, d - 1, ifindex)
  {
  }

  lemma {:induction false} SkipEmpty(nodes: Nodes, key: Prefix, n: nat, d: nat, ifindex: nat)
    requires d <= n <= |key| && NoneAfter(nodes, key, d, n)
    ensures Scan(TableOf(nodes), key, n, ifindex) == Scan(TableOf(nodes), key, d, ifindex)
  {
    var table := TableOf(nodes);
    forall j | d < j <= n ensures key[..j] !in table { assert !StoredAt(nodes, key, j); }
    ScanDown(table, key, n, d, ifindex);
  }

  function Lookup(table: Table, key: Prefix): seq<Route> { if key in table then table[key] else [] }

  function Deleted(table: Table, key: Prefix, r: Route): Table {
    if key !in table then table
    else if Removed(table[key], r) == [] then table - {key} else table[key := Removed(table[key], r)]
  }

  lemma {:induction false} ChildOf(q: Prefix)
    requires q != []
    ensures q == Parent(q) + [true] || q == Parent(q) + [false]
  {
    if q[|q| - 1] { assert q == Parent(q) + [true]; } else { assert q == Parent(q) + [false]; }
  }

  lemma {:induction false} ClearKeeps(nodes: Nodes, p: Prefix)
    requires Shaped(nodes) && p in nodes && p != [] && nodes[p] == None
    requires p + [false] !in nodes && p + [true] !in nodes
    ensures Parent(p) in nodes - {p} && Shaped(nodes - {p}) && TableOf(nodes - {p}) == TableOf(nodes)
    ensures TidyBut(nodes, p) ==> TidyBut(nodes - {p}, Parent(p))
  {
    var less := nodes - {p};
    assert HasParent(nodes, p);
    forall q | q in less ensures HasParent(less, q) {
      assert HasParent(nodes, q);
      if q != [] { ChildOf(q); }
    }
    if TidyBut(nodes, p) {
      forall q | q != Parent(p) ensures Useful(less, q) {
        assert q != p ==> Useful(nodes, q);
        ChildParent(q, false);
        ChildParent(q, true);
      }
    }
  }

  lemma {:induction false} FillKeeps(nodes: Nodes, key: Prefix, list: seq<Route>)
    requires Shaped(nodes) && key in nodes && list != []
    ensures Shaped(nodes[key := Some(list)]) && TableOf(nodes[key := Some(list)]) == TableOf(nodes)[key := list]
    ensures TidyBut(nodes, key) ==> Tidy(nodes[key := Some(list)])
  {
    var more := nodes[key := Some(list)];
    forall q | q in more ensures HasParent(more, q) { assert HasParent(nodes, q); }
    if TidyBut(nodes, key) {
      forall q ensures Useful(more, q) { assert q != key ==> Useful(nodes, q); }
    }
  }

  lemma {:induction false} EmptyKeeps(nodes: Nodes, key: Prefix)
    requires Shaped(nodes) && key in nodes
    ensures Shaped(nodes[key := None]) && TableOf(nodes[key := None]) == TableOf(nodes) - {key}
  {
    var less := nodes[key := None];
    forall q | q in less ensures HasParent(less, q) { assert HasParent(nodes, q); }
  }

  lemma {:induction false} ChangeTidy(nodes: Nodes, key: Prefix, x: Option<seq<Route>>)
    requires Tidy(nodes) && key in nodes
    ensures TidyBut(nodes[key := x], key)
  {
    var more := nodes[key := x];
    forall q | q != key ensures Useful(more, q) { assert Useful(nodes, q); }
  }

  lemma {:induction false} DeleteKeeps(nodes: Nodes, key: Prefix, r: Route)
    requires Shaped(nodes) && key in nodes && nodes[key].Some?
    ensures var list := Removed(nodes[key].value, r);
            var x := if list == [] then None else Some(list);
            && Shaped(nodes[key := x]) && TableOf(nodes[key := x]) == Deleted(TableOf(nodes), key, r)
            && (Tidy(nodes) ==> TidyBut(nodes[key := x], key))
  {
    var list := Removed(nodes[key].value, r);
    if list == [] { EmptyKeeps(nodes, key); } else { FillKeeps(nodes, key, list); }
    if Tidy(nodes) { ChangeTidy(nodes, key, if list == [] then None else Some(list)); }
  }

  lemma {:induction false} RefreshedAt(list: seq<Route>, r: Route, i: nat)
    requires i < |list| && Same(list[i], r) && forall j :: 0 <= j < i ==> !Same(list[j], r)
    ensures Added(list, r) == list[i := list[i].(attr := r.attr)]
    decreases |list|
  {
    RefreshedIs(list, r, i);
  }

  lemma {:induction false} RefreshedIs(list: seq<Route>, r: Route, i: nat)
    requires i < |list| && Same(list[i], r) && forall j :: 0 <= j < i ==> !Same(list[j], r)
    ensures Refreshed(list, r) == list[i := list[i].(attr := r.attr)]
    decreases |list|
  {
    if i > 0 {
      var rest := list[1..];
      RefreshedIs(rest, r, i - 1);
      assert [list[0]] + rest[i - 1 := rest[i - 1].(attr := r.attr)] == list[i := list[i].(attr := r.attr)];
    }
  }

  lemma {:induction false} DropOne(list: seq<Route>, i: nat)
    requires 0 < i < |list|
    ensures [list[0]] + (list[1..][..i - 1] + list[1..][i..]) == list[..i] + list[i + 1..]
  {
  }

  lemma {:induction false} RemovedAt(list: seq<Route>, r: Route, i: nat)
    requires i <= |list| && (i < |list| ==> Same(list[i], r)) && forall j :: 0 <= j < i ==> !Same(list[j], r)
    ensures Removed(list, r) == if i < |list| then list[..i] + list[i + 1..] else list
    decreases |list|
  {
    if i > 0 {
      var rest := list[1..];
      RemovedAt(rest, r, i - 1);
      if i < |list| { DropOne(list, i); }
      assert [list[0]] + rest == list;
    }
  }

  predicate StoredAt(nodes: Nodes, key: Prefix, j: int) {
    0 <= j <= |key| && key[..j] in nodes && nodes[key[..j]].Some?
  }

  /** No prefix of the key longer than d, up to n, holds routes. */
  predicate NoneAfter(nodes: Nodes, key: Prefix, d: int, n: int) {
    forall j :: d < j <= n ==> !StoredAt(nodes, key, j)
  }

  lemma {:induction false} DeadEnd(nodes: Nodes, key: Prefix, d: int, i: nat)
    requires Shaped(nodes) && i < |key| && key[..i + 1] !in nodes && NoneAfter(nodes, key, d, i)
    ensures NoneAfter(nodes, key, d, |key|) && key !in nodes
  {
    forall j | i < j <= |key| ensures !StoredAt(nodes, key, j) { NothingBelow(nodes, key, i + 1, j); }
    NothingBelow(nodes, key, i + 1, |key|);
    assert key[..|key|] == key;
  }

  /** Tidy except that `q` may be a dead end. */
  ghost predicate TidyBut(nodes: Nodes, q: Prefix) { forall p :: p != q ==> Useful(nodes, p) }

  lemma {:induction false} ChildParent(p: Prefix, b: bool)
    ensures Parent(p + [b]) == p
  {
  }

  lemma {:induction false} CreateKeeps(nodes: Nodes, p: Prefix, b: bool)
    requires Shaped(nodes) && p in nodes && p + [b] !in nodes
    ensures Shaped(nodes[p + [b] := None]) && TableOf(nodes[p + [b] := None]) == TableOf(nodes)
    ensures TidyBut(nodes, p) ==> TidyBut(nodes[p + [b] := None], p + [b])
  {
    var more := nodes[p + [b] := None];
    ChildParent(p, b);
    forall q | q in more ensures HasParent(more, q) { assert q in nodes ==> HasParent(nodes, q); }
    if TidyBut(nodes, p) {
      forall q | q != p + [b] ensures Useful(more, q) {
        assert q != p ==> Useful(nodes, q);
        assert q == p ==> p + [b] in more && (b || !b);
      }
    }
  }

  lemma {:induction false} StepTidy(nodes: Nodes, p: Prefix, b: bool)
    requires p + [b] in nodes
    ensures TidyBut(nodes, p) ==> TidyBut(nodes, p + [b])
  {
    if TidyBut(nodes, p) {
      forall q | q != p + [b] ensures Useful(nodes, q) { assert q == p ==> p + [b] in nodes && (b || !b); }
    }
  }
}
