/** Where sizes go: after any visits, the arena holds at every stack the sum of the sizes entered
    there and whether it was ever entered as a unique pointer, and is charged accordingly. */
module FlameStacks {
  import opened Options
  import opened FlameGraphs
  import opened FlameArena
  import opened FlameBuilder

  type Path = seq<Key>

  /** Pointers visited once `v` has been. */
  function After(v: Visit, visited: set<Pointer>): set<Pointer>
    decreases v
  {
    match v
    case Inline(_, _, kids) => AfterAll(kids, visited)
    case Unique(_, _, kids) => AfterAll(kids, visited)
    case Shared(_, _, p, kids) => if p in visited then visited else AfterAll(kids, visited + {p})
  }

  function AfterAll(vs: seq<Visit>, visited: set<Pointer>): set<Pointer>
    decreases vs
  {
    if vs == [] then visited else AfterAll(vs[1..], After(vs[0], visited))
  }

  /** Sizes `v` enters at stack `q` when visited from stack `at`; a pointee starts at the root, the
      first time its pointer is met. */
  function Entered(v: Visit, at: Path, q: Path, visited: set<Pointer>): nat
    decreases v
  {
    (if q == at + [v.name] then v.size else 0) +
    match v
    case Inline(name, _, kids) => EnteredAll(kids, at + [name], q, visited)
    case Unique(name, _, kids) => EnteredAll(kids, at + [name], q, visited)
    case Shared(_, _, p, kids) => if p in visited then 0 else EnteredAll(kids, [], q, visited + {p})
  }

  function EnteredAll(vs: seq<Visit>, at: Path, q: Path, visited: set<Pointer>): nat
    decreases vs
  {
    if vs == [] then 0 else Entered(vs[0], at, q, visited) + EnteredAll(vs[1..], at, q, After(vs[0], visited))
  }

  /** Sizes `v` enters from stack `q`, into the stacks directly below it. */
  function Inside(v: Visit, at: Path, q: Path, visited: set<Pointer>): nat
    decreases v
  {
    (if q == at then v.size else 0) +
    match v
    case Inline(name, _, kids) => InsideAll(kids, at + [name], q, visited)
    case Unique(name, _, kids) => InsideAll(kids, at + [name], q, visited)
    case Shared(_, _, p, kids) => if p in visited then 0 else InsideAll(kids, [], q, visited + {p})
  }

  function InsideAll(vs: seq<Visit>, at: Path, q: Path, visited: set<Pointer>): nat
    decreases vs
  {
    if vs == [] then 0 else Inside(vs[0], at, q, visited) + InsideAll(vs[1..], at, q, After(vs[0], visited))
  }

  /** Whether `v` enters stack `q` as a unique pointer. */
  function Marked(v: Visit, at: Path, q: Path, visited: set<Pointer>): bool
    decreases v
  {
    match v
    case Inline(name, _, kids) => MarkedAny(kids, at + [name], q, visited)
    case Unique(name, _, kids) => q == at + [name] || MarkedAny(kids, at + [name], q, visited)
    case Shared(_, _, p, kids) => p !in visited && MarkedAny(kids, [], q, visited + {p})
  }

  function MarkedAny(vs: seq<Visit>, at: Path, q: Path, visited: set<Pointer>): bool
    decreases vs
  {
    vs != [] && (Marked(vs[0], at, q, visited) || MarkedAny(vs[1..], at, q, After(vs[0], visited)))
  }

  /** Sizes entered at the root or at a stack in `u` are charged on top of it. */
  predicate OpenAt(at: Path, u: set<Path>) {
    at == [] || at in u
  }

  /** What `v` is charged if exactly the stacks in `u` are unique. */
  function ChargedIn(v: Visit, at: Path, u: set<Path>, visited: set<Pointer>): nat
    decreases v
  {
    (if OpenAt(at, u) then v.size else 0) +
    match v
    case Inline(name, _, kids) => ChargedInAll(kids, at + [name], u, visited)
    case Unique(name, _, kids) => ChargedInAll(kids, at + [name], u, visited)
    case Shared(_, _, p, kids) => if p in visited then 0 else ChargedInAll(kids, [], u, visited + {p})
  }

  function ChargedInAll(vs: seq<Visit>, at: Path, u: set<Path>, visited: set<Pointer>): nat
    decreases vs
  {
    if vs == [] then 0 else ChargedIn(vs[0], at, u, visited) + ChargedInAll(vs[1..], at, u, After(vs[0], visited))
  }

  // ----- Shape of the arena -----

  function Way(s: TreeStack): seq<TreeId> {
    s.stack + [s.tree]
  }

  /** The arena is a tree of distinctly keyed nodes, and the current stack leads from the root. */
  ghost predicate Shape(b: Builder, paths: seq<Path>) {
    && Ready(b) && Keyed(b.trees) && Labeled(b.trees, paths)
    && Chain(b.trees, Way(b.current)) && Way(b.current)[0] == 0
  }

  /** Nodes keep their names, their children and their marks. */
  ghost predicate Grew(ts: Trees, paths: seq<Path>, ts2: Trees, paths2: seq<Path>) {
    && |paths| == |ts| <= |ts2| == |paths2|
    && forall id :: 0 <= id < |ts| ==> GrewAt(ts[id], ts2[id]) && paths2[id] == paths[id]
  }

  predicate GrewAt(x: TreeData, y: TreeData) {
    x.children <= y.children && (x.unique ==> y.unique)
  }

  lemma GrewTrans(ts: Trees, paths: seq<Path>, ts2: Trees, paths2: seq<Path>, ts3: Trees, paths3: seq<Path>)
    requires Grew(ts, paths, ts2, paths2) && Grew(ts2, paths2, ts3, paths3)
    ensures Grew(ts, paths, ts3, paths3)
  {
    forall id | 0 <= id < |ts| ensures GrewAt(ts[id], ts3[id]) && paths3[id] == paths[id] {
      assert GrewAt(ts2[id], ts3[id]);
    }
  }

  lemma {:induction false} ChainGrows(ts: Trees, paths: seq<Path>, ts2: Trees, paths2: seq<Path>, nodes: seq<TreeId>)
    requires Grew(ts, paths, ts2, paths2) && Chain(ts, nodes)
    ensures Chain(ts2, nodes)
    decreases |nodes|
  {
    if |nodes| > 1 {
      ChainGrows(ts, paths, ts2, paths2, nodes[1..]);
      ChildStays(ts, paths, ts2, paths2, nodes[0], nodes[1]);
    }
  }

  lemma ChildStays(ts: Trees, paths: seq<Path>, ts2: Trees, paths2: seq<Path>, a: TreeId, c: TreeId)
    requires Grew(ts, paths, ts2, paths2) && IsChild(ts, a, c)
    ensures IsChild(ts2, a, c)
  {
    var i :| 0 <= i < |ts[a].children| && ts[a].children[i].id == c;
    assert GrewAt(ts[a], ts2[a]);
    assert ts2[a].children[i].id == c;
  }

  lemma {:induction false} ChainExtends(ts: Trees, nodes: seq<TreeId>, x: TreeId)
    requires Chain(ts, nodes) && IsChild(ts, nodes[|nodes| - 1], x) && x < |ts|
    ensures Chain(ts, nodes + [x])
    decreases |nodes|
  {
    var more := nodes + [x];
    if |nodes| == 1 {
      assert more[1..] == [x];
    } else {
      assert more[1..] == nodes[1..] + [x];
      ChainExtends(ts, nodes[1..], x);
    }
  }

  lemma GrewSelf(ts: Trees, paths: seq<Path>)
    requires |paths| == |ts|
    ensures Grew(ts, paths, ts, paths)
  {
  }

  lemma LeafIsChild(ts: Trees, t: TreeId, key: Key)
    requires t < |ts|
    ensures IsChild(AddLeaf(ts, t, key), t, |ts|)
  {
    var es := ts[t].children;
    assert AddLeaf(ts, t, key)[t].children[|es|].id == |ts|;
  }

  lemma LeafLabeled(ts: Trees, paths: seq<Path>, t: TreeId, key: Key)
    requires Labeled(ts, paths) && t < |ts|
    ensures Labeled(AddLeaf(ts, t, key), paths + [paths[t] + [key]])
  {
    var ts2, paths2 := AddLeaf(ts, t, key), paths + [paths[t] + [key]];
    forall id, i | 0 <= id < |ts2| && 0 <= i < |ts2[id].children| ensures EdgeLabel(ts2, paths2, id, ts2[id].children[i]) {
      if id < |ts| && i < |ts[id].children| {
        assert EdgeLabel(ts, paths, id, ts[id].children[i]);
      }
    }
  }

  /** Changing sizes and marks leaves the shape of the arena alone. */
  lemma SameShape(d: Builder, paths: seq<Path>, ts2: Trees)
    requires Shape(d, paths) && |ts2| == |d.trees|
    requires forall id :: 0 <= id < |ts2| ==> ts2[id].children == d.trees[id].children && (d.trees[id].unique ==> ts2[id].unique)
    ensures Downward(ts2) && Keyed(ts2) && Labeled(ts2, paths) && Chain(ts2, Way(d.current))
    ensures Grew(d.trees, paths, ts2, paths)
  {
    hide Chain;
    forall id | 0 <= id < |ts2| ensures DistinctKeys(ts2[id].children) {
      assert DistinctKeys(d.trees[id].children);
    }
    forall id, i | 0 <= id < |ts2| && 0 <= i < |ts2[id].children| ensures EdgeLabel(ts2, paths, id, ts2[id].children[i]) {
      assert EdgeLabel(d.trees, paths, id, d.trees[id].children[i]);
    }
    ChainGrows(d.trees, paths, ts2, paths, Way(d.current));
  }

  // ----- Looking a stack up -----

  ghost function NodeAt(ts: Trees, id: TreeId, q: Path): Option<TreeId>
    requires Downward(ts) && id < |ts|
    decreases q
  {
    if q == [] then Some(id)
    else
      var i := FindEdge(ts[id].children, q[0]);
      if i < |ts[id].children| then NodeAt(ts, ts[id].children[i].id, q[1..]) else None
  }

  /** The size recorded at stack `q`. */
  ghost function SizeOn(ts: Trees, q: Path): nat
    requires Downward(ts) && ts != []
  {
    var n := NodeAt(ts, 0, q);
    if n.Some? && n.value < |ts| then ts[n.value].size else 0
  }

  /** The sizes recorded directly below stack `q`. */
  ghost function SizesUnder(ts: Trees, q: Path): nat
    requires Downward(ts) && ts != []
  {
    var n := NodeAt(ts, 0, q);
    if n.Some? && n.value < |ts| then Sizes(ts, ts[n.value].children) else 0
  }

  lemma {:induction false} SizesAgree(ts: Trees, ts2: Trees, es: seq<Edge>)
    requires forall i :: 0 <= i < |es| ==> es[i].id < |ts| && es[i].id < |ts2| && ts2[es[i].id].size == ts[es[i].id].size
    ensures Sizes(ts2, es) == Sizes(ts, es)
  {
    if es != [] {
      SizesAgree(ts, ts2, es[1..]);
    }
  }

  lemma {:induction false} SizesAppend(ts: Trees, es: seq<Edge>, e: Edge)
    requires (forall i :: 0 <= i < |es| ==> es[i].id < |ts|) && e.id < |ts|
    ensures Sizes(ts, es + [e]) == Sizes(ts, es) + ts[e.id].size
  {
    if es == [] {
      assert es + [e] == [e] && [e][1..] == [];
      assert Sizes(ts, [e]) == ts[e.id].size + Sizes(ts, []);
    } else {
      assert (es + [e])[1..] == es[1..] + [e];
      SizesAppend(ts, es[1..], e);
    }
  }

  lemma {:induction false} SizesGrow(ts: Trees, es: seq<Edge>, x: TreeId, size: nat, j: nat)
    requires x < |ts| && (forall i :: 0 <= i < |es| ==> es[i].id < |ts|) && j < |es| && es[j].id == x
    requires forall i :: 0 <= i < |es| && i != j ==> es[i].id != x
    ensures Sizes(Grow(ts, x, size), es) == Sizes(ts, es) + size
  {
    if j == 0 {
      SizesAgree(ts, Grow(ts, x, size), es[1..]);
    } else {
      SizesGrow(ts, es[1..], x, size, j - 1);
    }
  }

  /** Whether the node at stack `q` is marked unique. */
  ghost predicate UniqueOn(ts: Trees, q: Path)
    requires Downward(ts) && ts != []
  {
    var n := NodeAt(ts, 0, q);
    n.Some? && n.value < |ts| && ts[n.value].unique
  }

  /** The arena with exactly the nodes named in `u` marked. */
  function Flagged(ts: Trees, paths: seq<Path>, u: set<Path>): Trees
    requires |paths| == |ts|
  {
    seq(|ts|, i requires 0 <= i < |ts| => ts[i].(unique := paths[i] in u))
  }

  /** What the arena would be charged then. */
  ghost function ChargeIn(ts: Trees, paths: seq<Path>, u: set<Path>): nat
    requires Downward(ts) && |paths| == |ts| && ts != []
  {
    var f := Flagged(ts, paths, u);
    assert Downward(f) by { FlaggedDownward(ts, paths, u); }
    Charge(f, 0)
  }

  lemma FlaggedDownward(ts: Trees, paths: seq<Path>, u: set<Path>)
    requires Downward(ts) && |paths| == |ts|
    ensures Downward(Flagged(ts, paths, u))
  {
  }

  lemma {:induction false} NodePath(ts: Trees, paths: seq<Path>, id: TreeId, q: Path)
    requires Downward(ts) && Labeled(ts, paths) && id < |ts| && NodeAt(ts, id, q).Some?
    ensures NodeAt(ts, id, q).value < |ts| && paths[NodeAt(ts, id, q).value] == paths[id] + q
    decreases q
  {
    hide Labeled;
    if q != [] {
      var i := FindEdge(ts[id].children, q[0]);
      EdgeFacts(ts, paths, id, i);
      NodePath(ts, paths, ts[id].children[i].id, q[1..]);
      assert paths[id] + q == (paths[id] + [q[0]]) + q[1..];
    } else {
      NamedAll(ts, paths);
      assert paths[id] + q == paths[id];
    }
  }

  lemma NamedAll(ts: Trees, paths: seq<Path>)
    requires Labeled(ts, paths)
    ensures |paths| == |ts| && paths[0] == []
  {
  }

  /** Following the name of a node on a chain finds it. */
  lemma {:induction false} ChainNode(ts: Trees, paths: seq<Path>, nodes: seq<TreeId>) returns (q: Path)
    requires Downward(ts) && Keyed(ts) && Labeled(ts, paths) && Chain(ts, nodes)
    ensures nodes[|nodes| - 1] < |ts| == |paths| && paths[nodes[|nodes| - 1]] == paths[nodes[0]] + q
    ensures NodeAt(ts, nodes[0], q) == Some(nodes[|nodes| - 1])
    decreases |nodes|
  {
    hide Keyed, Labeled;
    NamedAll(ts, paths);
    if |nodes| == 1 {
      q := [];
    } else {
      var es := ts[nodes[0]].children;
      var i :| 0 <= i < |es| && es[i].id == nodes[1];
      EdgeFacts(ts, paths, nodes[0], i);
      var rest := ChainNode(ts, paths, nodes[1..]);
      q := [es[i].key] + rest;
      assert q[1..] == rest;
      var f := FindEdge(es, es[i].key);
      if f != i {
        KeysDiffer(ts, nodes[0], f, i);
      }
      assert paths[nodes[0]] + q == (paths[nodes[0]] + [es[i].key]) + rest;
    }
  }

  lemma {:induction false} SameChildrenSameNode(ts: Trees, ts2: Trees, id: TreeId, q: Path)
    requires Downward(ts) && Downward(ts2) && |ts2| == |ts| && id < |ts|
    requires forall j :: 0 <= j < |ts| ==> ts2[j].children == ts[j].children
    ensures NodeAt(ts2, id, q) == NodeAt(ts, id, q)
    decreases q
  {
    if q != [] {
      var i := FindEdge(ts[id].children, q[0]);
      if i < |ts[id].children| {
        SameChildrenSameNode(ts, ts2, ts[id].children[i].id, q[1..]);
      }
    }
  }

  /** A new leaf is found under its own name only. */
  lemma {:induction false} LeafNode(ts: Trees, c: TreeId, key: Key, id: TreeId, q: Path)
    requires Downward(ts) && c < |ts| && id < |ts|
    ensures Downward(AddLeaf(ts, c, key))
    ensures NodeAt(AddLeaf(ts, c, key), id, q) == NodeAt(ts, id, q)
         || (NodeAt(ts, id, q).None? && NodeAt(AddLeaf(ts, c, key), id, q) == Some(|ts|))
    decreases q
  {
    LeafDownward(ts, c, key);
    var ts2 := AddLeaf(ts, c, key);
    if q != [] {
      var es := ts[id].children;
      var i := FindEdge(es, q[0]);
      FindExtended(es, Edge(key, |ts|), q[0]);
      if i < |es| {
        LeafNode(ts, c, key, es[i].id, q[1..]);
      } else {
        LeafIsEnd(ts2, |ts|, q[1..]);
      }
    }
  }

  lemma LeafIsEnd(ts: Trees, id: TreeId, q: Path)
    requires Downward(ts) && id < |ts| && ts[id].children == []
    ensures NodeAt(ts, id, q) == if q == [] then Some(id) else None
  {
  }

  lemma {:induction false} FindExtended(es: seq<Edge>, e: Edge, key: Key)
    ensures FindEdge(es, key) < |es| ==> FindEdge(es + [e], key) == FindEdge(es, key)
    ensures FindEdge(es, key) == |es| ==> FindEdge(es + [e], key) == if e.key == key then |es| else |es| + 1
  {
    if es != [] && es[0].key != key {
      assert (es + [e])[1..] == es[1..] + [e];
      FindExtended(es[1..], e, key);
    }
  }

  // ----- Entering -----

  /** `down` reaches the child for `key`, creating it if need be, and changes no size. */
  lemma DownShape(b: Builder, paths: seq<Path>, key: Key, u: set<Path>) returns (paths2: seq<Path>)
    requires Shape(b, paths)
    ensures Shape(Down(b, key), paths2) && Grew(b.trees, paths, Down(b, key).trees, paths2)
    ensures Down(b, key).current.stack == b.current.stack + [b.current.tree]
    ensures Down(b, key).current.tree > 0 && paths2[Down(b, key).current.tree] == paths[b.current.tree] + [key]
    ensures forall q :: SizeOn(Down(b, key).trees, q) == SizeOn(b.trees, q)
    ensures forall q :: UniqueOn(Down(b, key).trees, q) <==> UniqueOn(b.trees, q)
    ensures forall q :: SizesUnder(Down(b, key).trees, q) == SizesUnder(b.trees, q)
    ensures ChargeIn(Down(b, key).trees, paths2, u) == ChargeIn(b.trees, paths, u)
  {
    hide Chain, ChargeIn;
    var t := b.current.tree;
    var es := b.trees[t].children;
    var i := FindEdge(es, key);
    var d := Down(b, key);
    if i < |es| {
      paths2 := paths;
      EdgeFacts(b.trees, paths, t, i);
      assert IsChild(b.trees, t, es[i].id);
      ChainExtends(b.trees, Way(b.current), es[i].id);
      GrewSelf(b.trees, paths);
    } else {
      paths2 := paths + [paths[t] + [key]];
      LeafShape(b.trees, paths, t, key);
      LeafIsChild(b.trees, t, key);
      ChainGrows(b.trees, paths, d.trees, paths2, Way(b.current));
      ChainExtends(d.trees, Way(b.current), |b.trees|);
      LeafSizes(b.trees, t, key);
      LeafChargeIn(b.trees, paths, t, key, u);
    }
    assert Way(d.current) == Way(b.current) + [d.current.tree];
  }

  lemma LeafShape(ts: Trees, paths: seq<Path>, t: TreeId, key: Key)
    requires Downward(ts) && Keyed(ts) && Labeled(ts, paths) && t < |ts|
    requires FindEdge(ts[t].children, key) == |ts[t].children|
    ensures Downward(AddLeaf(ts, t, key)) && Keyed(AddLeaf(ts, t, key))
    ensures Labeled(AddLeaf(ts, t, key), paths + [paths[t] + [key]])
    ensures Grew(ts, paths, AddLeaf(ts, t, key), paths + [paths[t] + [key]])
  {
    LeafDownward(ts, t, key);
    var ts2 := AddLeaf(ts, t, key);
    forall id | 0 <= id < |ts2| ensures DistinctKeys(ts2[id].children) {
      assert id < |ts| ==> DistinctKeys(ts[id].children);
    }
    LeafLabeled(ts, paths, t, key);
  }

  lemma LeafSizes(ts: Trees, t: TreeId, key: Key)
    requires Downward(ts) && t < |ts|
    ensures Downward(AddLeaf(ts, t, key))
    ensures forall q :: SizeOn(AddLeaf(ts, t, key), q) == SizeOn(ts, q)
    ensures forall q :: UniqueOn(AddLeaf(ts, t, key), q) <==> UniqueOn(ts, q)
    ensures forall q :: SizesUnder(AddLeaf(ts, t, key), q) == SizesUnder(ts, q)
  {
    LeafDownward(ts, t, key);
    var ts2 := AddLeaf(ts, t, key);
    forall q ensures SizeOn(ts2, q) == SizeOn(ts, q) && (UniqueOn(ts2, q) <==> UniqueOn(ts, q))
      ensures SizesUnder(ts2, q) == SizesUnder(ts, q)
    {
      LeafNode(ts, t, key, 0, q);
      NodeInside(ts, 0, q);
      if NodeAt(ts, 0, q).Some? {
        LeafUnder(ts, t, key, NodeAt(ts, 0, q).value);
      }
    }
  }

  lemma LeafUnder(ts: Trees, t: TreeId, key: Key, n: TreeId)
    requires Downward(ts) && t < |ts| && n < |ts|
    ensures Downward(AddLeaf(ts, t, key))
    ensures Sizes(AddLeaf(ts, t, key), AddLeaf(ts, t, key)[n].children) == Sizes(ts, ts[n].children)
  {
    LeafDownward(ts, t, key);
    var ts2, es := AddLeaf(ts, t, key), ts[n].children;
    SizesAgree(ts, ts2, es);
    if n == t {
      SizesAppend(ts2, es, Edge(key, |ts|));
    }
  }

  /** A new leaf has no size and no children, so marking it or not charges nothing. */
  lemma LeafChargeIn(ts: Trees, paths: seq<Path>, t: TreeId, key: Key, u: set<Path>)
    requires Downward(ts) && |paths| == |ts| && t < |ts|
    ensures Downward(AddLeaf(ts, t, key))
    ensures ChargeIn(AddLeaf(ts, t, key), paths + [paths[t] + [key]], u) == ChargeIn(ts, paths, u)
  {
    hide Charge;
    LeafDownward(ts, t, key);
    FlaggedDownward(ts, paths, u);
    var f := Flagged(ts, paths, u);
    var g := AddLeaf(f, t, key);
    LeafCharge(f, t, key, 0);
    var h := Flagged(AddLeaf(ts, t, key), paths + [paths[t] + [key]], u);
    if paths[t] + [key] in u {
      UniqueCharge(g, |ts|, 0);
      assert h == MarkUnique(g, |ts|);
    } else {
      assert h == g;
    }
  }

  lemma {:induction false} NodeInside(ts: Trees, id: TreeId, q: Path)
    requires Downward(ts) && id < |ts|
    ensures NodeAt(ts, id, q).Some? ==> NodeAt(ts, id, q).value < |ts|
    decreases q
  {
    if q != [] {
      var i := FindEdge(ts[id].children, q[0]);
      if i < |ts[id].children| {
        NodeInside(ts, ts[id].children[i].id, q[1..]);
      }
    }
  }

  /** The current node is the one found at its own stack and at no other. */
  lemma CurrentNode(d: Builder, paths: seq<Path>, q: Path)
    requires Shape(d, paths)
    ensures NodeAt(d.trees, 0, q) == Some(d.current.tree) <==> q == paths[d.current.tree]
  {
    hide Chain, Keyed;
    var nodes := Way(d.current);
    var name := ChainNode(d.trees, paths, nodes);
    assert paths[nodes[0]] + name == name;
    if NodeAt(d.trees, 0, q).Some? {
      NodePath(d.trees, paths, 0, q);
      assert paths[0] + q == q;
    }
  }

  /** Growing the current node is seen at its own stack and no other. */
  lemma GrowSizes(d: Builder, paths: seq<Path>, size: nat, q: Path)
    requires Shape(d, paths)
    ensures Downward(Grow(d.trees, d.current.tree, size))
    ensures SizeOn(Grow(d.trees, d.current.tree, size), q)
         == SizeOn(d.trees, q) + if q == paths[d.current.tree] then size else 0
    ensures UniqueOn(Grow(d.trees, d.current.tree, size), q) <==> UniqueOn(d.trees, q)
  {
    hide Chain, Keyed, Labeled;
    SameChildrenSameNode(d.trees, Grow(d.trees, d.current.tree, size), 0, q);
    CurrentNode(d, paths, q);
  }

  /** Growing the current node is seen below its parent's stack and no other. */
  lemma GrowUnder(d: Builder, paths: seq<Path>, size: nat, q: Path, t: TreeId)
    requires Shape(d, paths) && |d.current.stack| > 0 && d.current.stack[|d.current.stack| - 1] == t
    ensures t < |paths| && Downward(Grow(d.trees, d.current.tree, size))
    ensures SizesUnder(Grow(d.trees, d.current.tree, size), q)
         == SizesUnder(d.trees, q) + if q == paths[t] then size else 0
  {
    hide Chain, Keyed, Labeled;
    NamedAll(d.trees, paths);
    var ts, x := d.trees, d.current.tree;
    var ts2 := Grow(ts, x, size);
    SameChildrenSameNode(ts, ts2, 0, q);
    ParentNode(d, paths, t, q);
    NodeInside(ts, 0, q);
    var n := NodeAt(ts, 0, q);
    if n.Some? {
      NodePath(ts, paths, 0, q);
      assert paths[0] + q == q;
      if n.value == t {
        ParentUnder(d, paths, size, t);
      } else {
        forall i | 0 <= i < |ts[n.value].children| ensures ts[n.value].children[i].id != x {
          EdgeFacts(ts, paths, n.value, i);
          ParentName(d, paths, t);
          assert (paths[n.value] + [ts[n.value].children[i].key])[..|paths[n.value]|] == paths[n.value];
        }
        SizesAgree(ts, ts2, ts[n.value].children);
      }
    }
  }

  /** The parent of the current node, its name, and that it is found there. */
  lemma ParentName(d: Builder, paths: seq<Path>, t: TreeId)
    requires Shape(d, paths) && |d.current.stack| > 0 && d.current.stack[|d.current.stack| - 1] == t
    ensures t < |paths| && d.current.tree < |paths| && |paths[d.current.tree]| == |paths[t]| + 1
    ensures paths[d.current.tree][..|paths[t]|] == paths[t] && IsChild(d.trees, t, d.current.tree)
  {
    hide Keyed, Labeled;
    LastIsChild(d.trees, Way(d.current));
    var i :| 0 <= i < |d.trees[t].children| && d.trees[t].children[i].id == d.current.tree;
    EdgeFacts(d.trees, paths, t, i);
  }

  lemma {:induction false} LastIsChild(ts: Trees, nodes: seq<TreeId>)
    requires Chain(ts, nodes) && |nodes| > 1
    ensures IsChild(ts, nodes[|nodes| - 2], nodes[|nodes| - 1])
    decreases |nodes|
  {
    if |nodes| > 2 {
      LastIsChild(ts, nodes[1..]);
    }
  }

  lemma ParentNode(d: Builder, paths: seq<Path>, t: TreeId, q: Path)
    requires Shape(d, paths) && |d.current.stack| > 0 && d.current.stack[|d.current.stack| - 1] == t
    ensures t < |paths| && (NodeAt(d.trees, 0, q) == Some(t) <==> q == paths[t])
  {
    hide Keyed, Labeled, Chain;
    var nodes := Way(d.current);
    ParentChain(d.trees, nodes);
    var e := d.(current := TreeStack(nodes[..|nodes| - 2], t));
    assert Way(e.current) == nodes[..|nodes| - 1];
    ChainInside(d.trees, Way(e.current));
    CurrentNode(e, paths, q);
    NamedAll(d.trees, paths);
  }

  lemma {:induction false} ChainInside(ts: Trees, nodes: seq<TreeId>)
    requires Chain(ts, nodes)
    ensures nodes[|nodes| - 1] < |ts|
    decreases |nodes|
  {
    if |nodes| > 1 {
      ChainInside(ts, nodes[1..]);
    }
  }

  lemma ParentUnder(d: Builder, paths: seq<Path>, size: nat, t: TreeId)
    requires Shape(d, paths) && |d.current.stack| > 0 && d.current.stack[|d.current.stack| - 1] == t && t < |d.trees|
    ensures Sizes(Grow(d.trees, d.current.tree, size), d.trees[t].children) == Sizes(d.trees, d.trees[t].children) + size
  {
    hide Keyed, Labeled, Chain;
    var ts, x := d.trees, d.current.tree;
    ParentName(d, paths, t);
    var j :| 0 <= j < |ts[t].children| && ts[t].children[j].id == x;
    forall i | 0 <= i < |ts[t].children| && i != j ensures ts[t].children[i].id != x {
      EdgeFacts(ts, paths, t, i);
      EdgeFacts(ts, paths, t, j);
      KeysDiffer(ts, t, i, j);
      assert (paths[t] + [ts[t].children[i].key])[|paths[t]|] != (paths[t] + [ts[t].children[j].key])[|paths[t]|];
    }
    SizesGrow(ts, ts[t].children, x, size, j);
  }

  /** The root is the node with the empty stack. */
  lemma RootIffEmpty(ts: Trees, paths: seq<Path>, nodes: seq<TreeId>)
    requires Downward(ts) && Labeled(ts, paths) && Chain(ts, nodes) && nodes[0] == 0
    ensures nodes[|nodes| - 1] < |paths| && (nodes[|nodes| - 1] == 0 <==> paths[nodes[|nodes| - 1]] == [])
  {
    NamedAll(ts, paths);
    ChainLeads(ts, paths, nodes);
    if |nodes| > 1 {
      LastNamed(ts, paths, nodes);
    }
  }

  lemma {:induction false} LastNamed(ts: Trees, paths: seq<Path>, nodes: seq<TreeId>)
    requires Downward(ts) && Labeled(ts, paths) && Chain(ts, nodes) && |nodes| > 1
    ensures nodes[|nodes| - 1] < |paths| && paths[nodes[|nodes| - 1]] != []
    decreases |nodes|
  {
    hide Labeled;
    if |nodes| > 2 {
      LastNamed(ts, paths, nodes[1..]);
    } else {
      var i :| 0 <= i < |ts[nodes[0]].children| && ts[nodes[0]].children[i].id == nodes[1];
      EdgeFacts(ts, paths, nodes[0], i);
    }
  }

  lemma FlaggedShape(d: Builder, paths: seq<Path>, u: set<Path>)
    requires Shape(d, paths)
    ensures var f := Flagged(d.trees, paths, u);
            Downward(f) && Keyed(f) && Labeled(f, paths) && Chain(f, Way(d.current))
  {
    hide Chain;
    var f := Flagged(d.trees, paths, u);
    forall id | 0 <= id < |f| ensures DistinctKeys(f[id].children) {
      assert DistinctKeys(d.trees[id].children);
    }
    forall id, i | 0 <= id < |f| && 0 <= i < |f[id].children| ensures EdgeLabel(f, paths, id, f[id].children[i]) {
      assert EdgeLabel(d.trees, paths, id, d.trees[id].children[i]);
    }
    SameChildrenSameChain(d.trees, f, Way(d.current));
  }

  lemma {:induction false} SameChildrenSameChain(ts: Trees, ts2: Trees, nodes: seq<TreeId>)
    requires Chain(ts, nodes) && |ts2| == |ts| && forall j :: 0 <= j < |ts| ==> ts2[j].children == ts[j].children
    ensures Chain(ts2, nodes)
    decreases |nodes|
  {
    if |nodes| > 1 {
      SameChildrenSameChain(ts, ts2, nodes[1..]);
      var i :| 0 <= i < |ts[nodes[0]].children| && ts[nodes[0]].children[i].id == nodes[1];
      assert ts2[nodes[0]].children[i].id == nodes[1];
    }
  }

  /** Growing the current node charges its size if its parent, `t`, is open. */
  lemma GrowChargeIn(d: Builder, paths: seq<Path>, size: nat, u: set<Path>, t: TreeId)
    requires Shape(d, paths) && |d.current.stack| > 0 && d.current.stack[|d.current.stack| - 1] == t
    ensures t < |paths| && Downward(Grow(d.trees, d.current.tree, size))
    ensures ChargeIn(Grow(d.trees, d.current.tree, size), paths, u)
         == ChargeIn(d.trees, paths, u) + if OpenAt(paths[t], u) then size else 0
  {
    hide Charge, Chain, Keyed, Labeled;
    var x := d.current.tree;
    NamedAll(d.trees, paths);
    var f := Flagged(d.trees, paths, u);
    FlaggedShape(d, paths, u);
    var nodes := Way(d.current);
    GrowCharge(f, paths, size, nodes);
    assert nodes[|nodes| - 2] == t && nodes[|nodes| - 1] == x;
    assert Flagged(Grow(d.trees, x, size), paths, u) == Grow(f, x, size);
    ParentChain(f, nodes);
    RootIffEmpty(f, paths, nodes[..|nodes| - 1]);
  }

  lemma {:induction false} ParentChain(ts: Trees, nodes: seq<TreeId>)
    requires Chain(ts, nodes) && |nodes| > 1
    ensures Chain(ts, nodes[..|nodes| - 1])
    decreases |nodes|
  {
    if |nodes| > 2 {
      ParentChain(ts, nodes[1..]);
      assert nodes[..|nodes| - 1][1..] == nodes[1..][..|nodes| - 2];
    }
  }

  lemma EnterShape(b: Builder, paths: seq<Path>, key: Key, size: nat, q: Path, u: set<Path>) returns (paths2: seq<Path>)
    requires Shape(b, paths)
    ensures Shape(Enter(b, key, size), paths2) && Grew(b.trees, paths, Enter(b, key, size).trees, paths2)
    ensures paths2[Enter(b, key, size).current.tree] == paths[b.current.tree] + [key]
    ensures SizeOn(Enter(b, key, size).trees, q)
         == SizeOn(b.trees, q) + if q == paths[b.current.tree] + [key] then size else 0
    ensures UniqueOn(Enter(b, key, size).trees, q) <==> UniqueOn(b.trees, q)
    ensures SizesUnder(Enter(b, key, size).trees, q)
         == SizesUnder(b.trees, q) + if q == paths[b.current.tree] then size else 0
    ensures ChargeIn(Enter(b, key, size).trees, paths2, u)
         == ChargeIn(b.trees, paths, u) + if OpenAt(paths[b.current.tree], u) then size else 0
  {
    hide Down, SizeOn, UniqueOn, SizesUnder, ChargeIn, Chain, Keyed, Labeled;
    paths2 := DownShape(b, paths, key, u);
    var d := Down(b, key);
    GrowSizes(d, paths2, size, q);
    GrowChargeIn(d, paths2, size, u, b.current.tree);
    GrowUnder(d, paths2, size, q, b.current.tree);
    SameShape(d, paths2, Enter(b, key, size).trees);
    GrewTrans(b.trees, paths, d.trees, paths2, Enter(b, key, size).trees, paths2);
    SameName(b.trees, paths, d.trees, paths2, b.current.tree);
  }

  lemma MarkShape(d: Builder, paths: seq<Path>, q: Path, u: set<Path>)
    requires Shape(d, paths)
    ensures Shape(d.(trees := MarkUnique(d.trees, d.current.tree)), paths)
    ensures Grew(d.trees, paths, MarkUnique(d.trees, d.current.tree), paths)
    ensures SizeOn(MarkUnique(d.trees, d.current.tree), q) == SizeOn(d.trees, q)
    ensures UniqueOn(MarkUnique(d.trees, d.current.tree), q) <==> UniqueOn(d.trees, q) || q == paths[d.current.tree]
    ensures SizesUnder(MarkUnique(d.trees, d.current.tree), q) == SizesUnder(d.trees, q)
    ensures ChargeIn(MarkUnique(d.trees, d.current.tree), paths, u) == ChargeIn(d.trees, paths, u)
  {
    hide Chain, Keyed, Labeled, Charge;
    var ts2 := MarkUnique(d.trees, d.current.tree);
    SameShape(d, paths, ts2);
    SameChildrenSameNode(d.trees, ts2, 0, q);
    CurrentNode(d, paths, q);
    NodeInside(d.trees, 0, q);
    if NodeAt(d.trees, 0, q).Some? {
      SizesAgree(d.trees, ts2, d.trees[NodeAt(d.trees, 0, q).value].children);
    }
    assert Flagged(ts2, paths, u) == Flagged(d.trees, paths, u);
  }

  // ----- Visiting -----

  /** `d` is `b` after visits that entered `amount` at stack `q` and `inside` from it, marked it if
      `marked`, and were charged `charge` for the unique stacks `u`. */
  ghost predicate Went(b: Builder, paths: seq<Path>, d: Builder, paths2: seq<Path>, q: Path, u: set<Path>,
                       amount: nat, inside: nat, marked: bool, charge: nat, visited: set<Pointer>)
  {
    && Shape(b, paths) && Shape(d, paths2) && Grew(b.trees, paths, d.trees, paths2)
    && d.current == b.current && d.visited == visited
    && SizeOn(d.trees, q) == SizeOn(b.trees, q) + amount
    && SizesUnder(d.trees, q) == SizesUnder(b.trees, q) + inside
    && (UniqueOn(d.trees, q) <==> UniqueOn(b.trees, q) || marked)
    && ChargeIn(d.trees, paths2, u) == ChargeIn(b.trees, paths, u) + charge
  }

  lemma ShapeReady(b: Builder, paths: seq<Path>)
    requires Shape(b, paths)
    ensures Ready(b) && |paths| == |b.trees| && paths[0] == []
  {
  }

  /** Coming back up to where `b` stood. */
  lemma BackShape(b: Builder, paths: seq<Path>, d: Builder, paths2: seq<Path>, e: Builder)
    requires Shape(b, paths) && Shape(d, paths2) && Grew(b.trees, paths, d.trees, paths2)
    requires e.trees == d.trees && e.current == b.current && e.entered
    ensures Shape(e, paths2)
  {
    hide Keyed, Labeled, Chain;
    ChainGrows(b.trees, paths, d.trees, paths2, Way(b.current));
  }

  lemma RootShape(d: Builder, paths: seq<Path>, e: Builder)
    requires Shape(d, paths) && e.trees == d.trees && e.current == TreeStack([], 0) && e.entered
    ensures Shape(e, paths)
  {
    hide Keyed;
  }

  lemma {:induction false} VisitEnters(b: Builder, paths: seq<Path>, v: Visit, q: Path, u: set<Path>) returns (paths2: seq<Path>)
    requires Shape(b, paths) && |paths| == |b.trees| && b.current.tree < |paths|
    ensures Run(b, v).Some?
    ensures Went(b, paths, Run(b, v).value, paths2, q, u, Entered(v, paths[b.current.tree], q, b.visited),
                 Inside(v, paths[b.current.tree], q, b.visited),
                 Marked(v, paths[b.current.tree], q, b.visited), ChargedIn(v, paths[b.current.tree], u, b.visited),
                 After(v, b.visited))
    decreases v, 0
  {
    hide Shape, Grew, SizeOn, UniqueOn, SizesUnder, ChargeIn, OpenAt, Enter, Exit, Downward;
    ShapeReady(b, paths);
    EnterDown(b, v.name, v.size);
    EnterSame(b, v.name, v.size);
    var paths1 := EnterShape(b, paths, v.name, v.size, q, u);
    var d := Enter(b, v.name, v.size);
    ShapeReady(d, paths1);
    match v
    case Inline(name, size, kids) =>
      paths2 := KidsEnter(b, paths, d, paths1, kids, q, u);
      ExitUp(b, RunAll(d, kids).value);
      assert Run(b, v) == RunThenExit(d, kids) == Exit(RunAll(d, kids).value);
      BackShape(b, paths, RunAll(d, kids).value, paths2, Run(b, v).value);
    case Unique(name, size, kids) =>
      var e := EnterUnique(b, name, size);
      MarkShape(d, paths1, q, u);
      GrewTrans(b.trees, paths, d.trees, paths1, e.trees, paths1);
      ShapeReady(e, paths1);
      paths2 := KidsEnter(b, paths, e, paths1, kids, q, u);
      ExitUp(b, RunAll(e, kids).value);
      assert Run(b, v) == RunThenExit(e, kids) == Exit(RunAll(e, kids).value);
      BackShape(b, paths, RunAll(e, kids).value, paths2, Run(b, v).value);
    case Shared(name, size, p, kids) =>
      if p in d.visited {
        ExitUp(b, d);
        paths2 := paths1;
        BackShape(b, paths, d, paths1, Run(b, v).value);
      } else {
        var e := d.(visited := d.visited + {p}, shared := d.shared + [d.current], current := TreeStack([], 0));
        RootShape(d, paths1, e);
        paths2 := KidsEnter(b, paths, e, paths1, kids, q, u);
        ExitShared(b, d.current, RunAll(e, kids).value);
        assert Run(b, v) == RunThenExit(e, kids) == Exit(RunAll(e, kids).value);
        BackShape(b, paths, RunAll(e, kids).value, paths2, Run(b, v).value);
      }
  }

  /** The visits of the node `d`, entered from `b`. */
  lemma {:induction false} KidsEnter(b: Builder, paths: seq<Path>, d: Builder, paths1: seq<Path>, kids: seq<Visit>, q: Path,
                                     u: set<Path>)
    returns (paths2: seq<Path>)
    requires Shape(d, paths1) && Grew(b.trees, paths, d.trees, paths1) && d.current.tree < |paths1| == |d.trees|
    ensures RunAll(d, kids).Some? && Back(d, RunAll(d, kids).value)
    ensures Went(d, paths1, RunAll(d, kids).value, paths2, q, u, EnteredAll(kids, paths1[d.current.tree], q, d.visited),
                 InsideAll(kids, paths1[d.current.tree], q, d.visited),
                 MarkedAny(kids, paths1[d.current.tree], q, d.visited),
                 ChargedInAll(kids, paths1[d.current.tree], u, d.visited), AfterAll(kids, d.visited))
    ensures Grew(b.trees, paths, RunAll(d, kids).value.trees, paths2)
    decreases kids, 1
  {
    hide Shape, Grew, SizeOn, UniqueOn, SizesUnder, ChargeIn;
    ShapeReady(d, paths1);
    RestoresAll(d, kids);
    paths2 := AllEnter(d, paths1, kids, q, u);
    GrewTrans(b.trees, paths, d.trees, paths1, RunAll(d, kids).value.trees, paths2);
  }

  lemma {:induction false} AllEnter(b: Builder, paths: seq<Path>, vs: seq<Visit>, q: Path, u: set<Path>)
    returns (paths2: seq<Path>)
    requires Shape(b, paths) && |paths| == |b.trees| && b.current.tree < |paths|
    ensures RunAll(b, vs).Some?
    ensures Went(b, paths, RunAll(b, vs).value, paths2, q, u, EnteredAll(vs, paths[b.current.tree], q, b.visited),
                 InsideAll(vs, paths[b.current.tree], q, b.visited),
                 MarkedAny(vs, paths[b.current.tree], q, b.visited),
                 ChargedInAll(vs, paths[b.current.tree], u, b.visited), AfterAll(vs, b.visited))
    decreases vs, 0
  {
    hide Shape, Grew, SizeOn, UniqueOn, SizesUnder, ChargeIn;
    if vs == [] {
      paths2 := paths;
      GrewSelf(b.trees, paths);
    } else {
      var paths1 := VisitEnters(b, paths, vs[0], q, u);
      var d := Run(b, vs[0]).value;
      ShapeReady(d, paths1);
      SameName(b.trees, paths, d.trees, paths1, b.current.tree);
      paths2 := AllEnter(d, paths1, vs[1..], q, u);
      GrewTrans(b.trees, paths, d.trees, paths1, RunAll(b, vs).value.trees, paths2);
    }
  }

  lemma SameName(ts: Trees, paths: seq<Path>, ts2: Trees, paths2: seq<Path>, id: TreeId)
    requires Grew(ts, paths, ts2, paths2) && id < |ts|
    ensures id < |paths| && id < |paths2| && paths2[id] == paths[id]
  {
  }

  // ----- All roots -----

  function EnteredRoots(roots: seq<seq<Visit>>, q: Path, visited: set<Pointer>): nat {
    if roots == [] then 0
    else EnteredAll(roots[0], [], q, visited) + EnteredRoots(roots[1..], q, AfterAll(roots[0], visited))
  }

  function InsideRoots(roots: seq<seq<Visit>>, q: Path, visited: set<Pointer>): nat {
    if roots == [] then 0
    else InsideAll(roots[0], [], q, visited) + InsideRoots(roots[1..], q, AfterAll(roots[0], visited))
  }

  function MarkedRoots(roots: seq<seq<Visit>>, q: Path, visited: set<Pointer>): bool {
    roots != [] && (MarkedAny(roots[0], [], q, visited) || MarkedRoots(roots[1..], q, AfterAll(roots[0], visited)))
  }

  function ChargedInRoots(roots: seq<seq<Visit>>, u: set<Path>, visited: set<Pointer>): nat {
    if roots == [] then 0
    else ChargedInAll(roots[0], [], u, visited) + ChargedInRoots(roots[1..], u, AfterAll(roots[0], visited))
  }

  lemma {:induction false} RootsEnter(b: Builder, paths: seq<Path>, roots: seq<seq<Visit>>, q: Path, u: set<Path>)
    returns (paths2: seq<Path>)
    requires Idle(b) && Shape(b.(entered := true), paths)
    ensures VisitRoots(b, roots).Some?
    ensures var d := VisitRoots(b, roots).value;
            && Idle(d) && Shape(d.(entered := true), paths2)
            && SizeOn(d.trees, q) == SizeOn(b.trees, q) + EnteredRoots(roots, q, b.visited)
            && SizesUnder(d.trees, q) == SizesUnder(b.trees, q) + InsideRoots(roots, q, b.visited)
            && (UniqueOn(d.trees, q) <==> UniqueOn(b.trees, q) || MarkedRoots(roots, q, b.visited))
            && ChargeIn(d.trees, paths2, u) == ChargeIn(b.trees, paths, u) + ChargedInRoots(roots, u, b.visited)
    decreases |roots|
  {
    hide SizeOn, UniqueOn, SizesUnder, ChargeIn, Chain, Downward, Keyed, Labeled;
    RootsRestore(b, roots);
    if roots == [] {
      paths2 := paths;
    } else {
      var e := b.(entered := true);
      ShapeReady(e, paths);
      RestoresAll(e, roots[0]);
      var paths1 := AllEnter(e, paths, roots[0], q, u);
      paths2 := RootsEnter(VisitRoot(b, roots[0]).value, paths1, roots[1..], q, u);
    }
  }

  /** After any visits, the sizes at every stack and below it are the sums of the sizes entered there,
      and the stack is marked exactly if some visit entered it as a unique pointer. */
  lemma SizesByStack(roots: seq<seq<Visit>>, q: Path)
    ensures VisitRoots(FRESH, roots).Some? && Idle(VisitRoots(FRESH, roots).value)
    ensures Keyed(VisitRoots(FRESH, roots).value.trees)
    ensures SizeOn(VisitRoots(FRESH, roots).value.trees, q) == EnteredRoots(roots, q, {})
    ensures SizesUnder(VisitRoots(FRESH, roots).value.trees, q) == InsideRoots(roots, q, {})
    ensures UniqueOn(VisitRoots(FRESH, roots).value.trees, q) <==> MarkedRoots(roots, q, {})
  {
    assert Shape(FRESH.(entered := true), [[]]);
    var paths := RootsEnter(FRESH, [[]], roots, q, {});
    LeafIsEnd([NEW_TREE], 0, q);
  }
}
