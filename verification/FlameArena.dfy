/** The tree arena of the flame graph builder, the sizes charged to it, and the graph written from
    it (`allocative/allocative/src/flamegraph.rs`). Node 0 is the root. */
module FlameArena {
  import opened FlameGraphs

  type TreeId = nat

  datatype Edge = Edge(key: Key, id: TreeId)

  /** `rem` is the size left to the node itself once inline children are taken off. */
  datatype TreeData = TreeData(size: nat, rem: int, unique: bool, children: seq<Edge>)

  type Trees = seq<TreeData>

  const NEW_TREE := TreeData(0, 0, false, [])

  /** Children come after their parents, so every node is the root of a finite tree. */
  ghost predicate Downward(ts: Trees) {
    forall id, i :: 0 <= id < |ts| && 0 <= i < |ts[id].children| ==> id < ts[id].children[i].id < |ts|
  }

  ghost predicate Above(ts: Trees, id: TreeId, es: seq<Edge>) {
    id < |ts| && forall i :: 0 <= i < |es| ==> id < es[i].id < |ts|
  }

  // ----- What a tree is charged -----

  /** Sizes of children are charged on top of the node when it is the root or a unique pointer;
      otherwise they lie inside it. */
  predicate Opens(ts: Trees, id: TreeId)
    requires id < |ts|
  {
    id == 0 || ts[id].unique
  }

  ghost function Contribution(ts: Trees, id: TreeId, e: Edge): nat
    requires Downward(ts) && id < e.id < |ts|
    decreases |ts| - id, 0
  {
    (if Opens(ts, id) then ts[e.id].size else 0) + Charge(ts, e.id)
  }

  /** Everything charged below `id`. */
  ghost function Charge(ts: Trees, id: TreeId): nat
    requires Downward(ts) && id < |ts|
    decreases |ts| - id, |ts[id].children| + 2
  {
    ChargeEdges(ts, id, ts[id].children)
  }

  ghost function ChargeEdges(ts: Trees, id: TreeId, es: seq<Edge>): nat
    requires Downward(ts) && Above(ts, id, es)
    decreases |ts| - id, |es| + 1
  {
    if es == [] then 0 else Contribution(ts, id, es[0]) + ChargeEdges(ts, id, es[1..])
  }

  // ----- Sizes left to the nodes -----

  function Sizes(ts: Trees, es: seq<Edge>): nat
    requires forall i :: 0 <= i < |es| ==> es[i].id < |ts|
  {
    if es == [] then 0 else ts[es[0].id].size + Sizes(ts, es[1..])
  }

  function Rem(ts: Trees, id: TreeId): int
    requires id < |ts| && forall i :: 0 <= i < |ts[id].children| ==> ts[id].children[i].id < |ts|
  {
    ts[id].size - if ts[id].unique then 0 else Sizes(ts, ts[id].children)
  }

  /** `rem` is up to date at `id` and everywhere below it. */
  ghost predicate Settled(ts: Trees, id: TreeId)
    requires Downward(ts) && id < |ts|
    decreases |ts| - id
  {
    && ts[id].rem == Rem(ts, id)
    && forall i :: 0 <= i < |ts[id].children| ==> id < ts[id].children[i].id && Settled(ts, ts[id].children[i].id)
  }

  // ----- The graph written -----

  /** A node's own size, without children. */
  function Own(ts: Trees, id: TreeId): FlameGraph
    requires id < |ts|
  {
    BLANK.(nodeSize := if ts[id].rem > 0 && id != 0 then ts[id].rem else 0)
  }

  /** The flame graph of a node; only the root has an empty stack. */
  ghost function Flame(ts: Trees, id: TreeId): FlameGraph
    requires Downward(ts) && id < |ts|
    decreases |ts| - id, |ts[id].children| + 2
  {
    FlameEdges(ts, id, ts[id].children, Own(ts, id))
  }

  ghost function FlameEdges(ts: Trees, id: TreeId, es: seq<Edge>, g: FlameGraph): FlameGraph
    requires Downward(ts) && Above(ts, id, es)
    decreases |ts| - id, |es| + 1
  {
    if es == [] then g else FlameEdges(ts, id, es[1..], AddChild(g, es[0].key, Flame(ts, es[0].id)))
  }

  /** The size missing at nodes whose inline children are larger than they are: each such node
      other than the root gets a warning. */
  ghost function Oversize(ts: Trees, id: TreeId): nat
    requires Downward(ts) && id < |ts|
    decreases |ts| - id, |ts[id].children| + 2
  {
    (if ts[id].rem < 0 && id != 0 then -ts[id].rem else 0) + OversizeEdges(ts, id, ts[id].children)
  }

  ghost function OversizeEdges(ts: Trees, id: TreeId, es: seq<Edge>): nat
    requires Downward(ts) && Above(ts, id, es)
    decreases |ts| - id, |es| + 1
  {
    if es == [] then 0 else Oversize(ts, es[0].id) + OversizeEdges(ts, id, es[1..])
  }

  // ----- Conservation -----

  /** The graph of a node totals its own size, what is charged below it and what oversize nodes are
      missing. */
  lemma {:induction false} FlameTotal(ts: Trees, id: TreeId)
    requires Downward(ts) && id < |ts| && Settled(ts, id)
    ensures Cached(Flame(ts, id))
    ensures Flame(ts, id).TotalSize() == (if id == 0 then 0 else ts[id].size) + Charge(ts, id) + Oversize(ts, id)
    decreases |ts| - id, |ts[id].children| + 2
  {
    hide Cached, Settled, Downward, FlameEdges, ChargeEdges, OversizeEdges, Sizes, Oversize, Opens, Rem, Flame, Charge;
    SettledNode(ts, id);
    BlankCached(Own(ts, id));
    FlameEdgesTotal(ts, id, ts[id].children, Own(ts, id));
    NodeTotal(ts, id);
  }

  lemma NodeTotal(ts: Trees, id: TreeId)
    requires Downward(ts) && id < |ts| && ts[id].rem == Rem(ts, id)
    requires Cached(FlameEdges(ts, id, ts[id].children, Own(ts, id)))
    requires FlameEdges(ts, id, ts[id].children, Own(ts, id)).TotalSize()
          == Own(ts, id).TotalSize() + ChargeEdges(ts, id, ts[id].children) + OversizeEdges(ts, id, ts[id].children)
             + if Opens(ts, id) then 0 else Sizes(ts, ts[id].children)
    ensures Cached(Flame(ts, id))
    ensures Flame(ts, id).TotalSize() == (if id == 0 then 0 else ts[id].size) + Charge(ts, id) + Oversize(ts, id)
  {
    hide Cached, FlameEdges, ChargeEdges, OversizeEdges, Sizes, Settled, Downward;
    NodeUnfolds(ts, id);
    hide Flame, Charge, Oversize;
  }

  lemma NodeUnfolds(ts: Trees, id: TreeId)
    requires Downward(ts) && id < |ts|
    ensures Above(ts, id, ts[id].children)
    ensures Flame(ts, id) == FlameEdges(ts, id, ts[id].children, Own(ts, id))
    ensures Charge(ts, id) == ChargeEdges(ts, id, ts[id].children)
    ensures Oversize(ts, id) == (if ts[id].rem < 0 && id != 0 then -ts[id].rem else 0) + OversizeEdges(ts, id, ts[id].children)
  {
  }

  lemma SettledNode(ts: Trees, id: TreeId)
    requires Downward(ts) && id < |ts| && Settled(ts, id)
    ensures Above(ts, id, ts[id].children) && ts[id].rem == Rem(ts, id)
    ensures forall i :: 0 <= i < |ts[id].children| ==> Settled(ts, ts[id].children[i].id)
  {
  }

  lemma BlankCached(g: FlameGraph)
    requires g.children == [] && g.childrenSize == 0
    ensures Cached(g)
  {
  }

  lemma {:induction false} FlameEdgesTotal(ts: Trees, id: TreeId, es: seq<Edge>, g: FlameGraph)
    requires Downward(ts) && Above(ts, id, es) && Cached(g)
    requires forall i :: 0 <= i < |es| ==> Settled(ts, es[i].id)
    ensures Cached(FlameEdges(ts, id, es, g))
    ensures FlameEdges(ts, id, es, g).TotalSize()
         == g.TotalSize() + ChargeEdges(ts, id, es) + OversizeEdges(ts, id, es) + if Opens(ts, id) then 0 else Sizes(ts, es)
    decreases |ts| - id, |es| + 1
  {
    hide Cached, Settled;
    if es != [] {
      FlameTotal(ts, es[0].id);
      AddChildKeepsCache(g, es[0].key, Flame(ts, es[0].id));
      FlameEdgesTotal(ts, id, es[1..], AddChild(g, es[0].key, Flame(ts, es[0].id)));
    }
  }

  /** The whole graph totals what was charged, exactly when nothing is oversize. */
  lemma TotalIsCharge(ts: Trees)
    requires ts != [] && Downward(ts) && Settled(ts, 0)
    ensures Flame(ts, 0).TotalSize() == Charge(ts, 0) + Oversize(ts, 0)
    ensures Flame(ts, 0).TotalSize() == Charge(ts, 0) <==> Oversize(ts, 0) == 0
    ensures Flame(ts, 0).TotalSize() == DeepTotal(Flame(ts, 0))
  {
    FlameTotal(ts, 0);
    CacheIsRight(Flame(ts, 0));
  }

  // ----- Sizes by stack -----

  ghost predicate DistinctKeys(es: seq<Edge>) {
    forall i, j :: 0 <= i < j < |es| ==> es[i].key != es[j].key
  }

  ghost predicate Keyed(ts: Trees) {
    forall id :: 0 <= id < |ts| ==> DistinctKeys(ts[id].children)
  }

  function FindEdge(es: seq<Edge>, key: Key): (i: nat)
    ensures i <= |es|
    ensures i < |es| ==> es[i].key == key
    ensures forall j :: 0 <= j < i ==> es[j].key != key
  {
    if es == [] || es[0].key == key then 0 else 1 + FindEdge(es[1..], key)
  }

  /** The size the graph should show at a stack: what is left to the node reached by it. */
  ghost function LeftAt(ts: Trees, id: TreeId, path: seq<Key>): nat
    requires Downward(ts) && id < |ts|
    decreases path
  {
    if path == [] then Own(ts, id).nodeSize
    else
      var i := FindEdge(ts[id].children, path[0]);
      if i < |ts[id].children| then LeftAt(ts, ts[id].children[i].id, path[1..]) else 0
  }

  /** The graph shows at every stack what is left to the node reached by that stack. */
  lemma {:induction false} FlameSizes(ts: Trees, id: TreeId, path: seq<Key>)
    requires Downward(ts) && Keyed(ts) && id < |ts|
    ensures Cached(Flame(ts, id)) && SizeAt(Flame(ts, id), path) == LeftAt(ts, id, path)
    decreases |ts| - id, |ts[id].children| + 2
  {
    hide Cached, AddChild;
    BlankCached(Own(ts, id));
    FlameEdgesSizes(ts, id, ts[id].children, Own(ts, id), path);
  }

  lemma {:induction false} FlameEdgesSizes(ts: Trees, id: TreeId, es: seq<Edge>, g: FlameGraph, path: seq<Key>)
    requires Downward(ts) && Keyed(ts) && Above(ts, id, es) && DistinctKeys(es) && Cached(g)
    ensures Cached(FlameEdges(ts, id, es, g))
    ensures SizeAt(FlameEdges(ts, id, es, g), path) == SizeAt(g, path) +
            if path == [] || FindEdge(es, path[0]) == |es| then 0
            else LeftAt(ts, es[FindEdge(es, path[0])].id, path[1..])
    decreases |ts| - id, |es| + 1
  {
    hide Cached, AddChild, Downward, Keyed, LeftAt, SizeAt;
    if es != [] {
      var rest := if path == [] then [] else path[1..];
      FlameSizes(ts, es[0].id, rest);
      var child := Flame(ts, es[0].id);
      AddChildKeepsCache(g, es[0].key, child);
      AddChildSizes(g, es[0].key, child, path);
      FlameEdgesSizes(ts, id, es[1..], AddChild(g, es[0].key, child), path);
      if path != [] && es[0].key == path[0] {
        NotFound(es[1..], path[0]);
      }
    }
  }

  lemma {:induction false} NotFound(es: seq<Edge>, key: Key)
    requires forall i :: 0 <= i < |es| ==> es[i].key != key
    ensures FindEdge(es, key) == |es|
  {
  }

  // ----- Entering a node -----

  /** The arena with a new leaf under `c`. */
  function AddLeaf(ts: Trees, c: TreeId, key: Key): Trees
    requires c < |ts|
  {
    ts[c := ts[c].(children := ts[c].children + [Edge(key, |ts|)])] + [NEW_TREE]
  }

  function Grow(ts: Trees, x: TreeId, size: nat): Trees
    requires x < |ts|
  {
    ts[x := ts[x].(size := ts[x].size + size)]
  }

  function MarkUnique(ts: Trees, x: TreeId): Trees
    requires x < |ts|
  {
    ts[x := ts[x].(unique := true)]
  }

  /** A new leaf has no size yet, so nothing more is charged. */
  lemma {:induction false} LeafCharge(ts: Trees, c: TreeId, key: Key, id: TreeId)
    requires Downward(ts) && c < |ts| && id < |ts|
    ensures Downward(AddLeaf(ts, c, key)) && Charge(AddLeaf(ts, c, key), id) == Charge(ts, id)
    decreases |ts| - id, |ts[id].children| + 2
  {
    hide ChargeEdges;
    var ts2 := AddLeaf(ts, c, key);
    LeafEdgesCharge(ts, c, key, id, ts[id].children);
    if id == c {
      var es, leaf := ts[id].children, Edge(key, |ts|);
      assert ts2[id].children == es + [leaf];
      ChargeJoins(ts2, id, es, leaf);
      assert Charge(ts2, |ts|) == ChargeEdges(ts2, |ts|, []);
      NothingCharged(ts2, |ts|);
      assert Contribution(ts2, id, leaf) == 0;
    }
  }

  lemma NothingCharged(ts: Trees, id: TreeId)
    requires Downward(ts) && id < |ts|
    ensures ChargeEdges(ts, id, []) == 0
  {
  }

  lemma {:induction false} ChargeJoins(ts: Trees, id: TreeId, es: seq<Edge>, e: Edge)
    requires Downward(ts) && Above(ts, id, es) && id < e.id < |ts|
    ensures Above(ts, id, es + [e])
    ensures ChargeEdges(ts, id, es + [e]) == ChargeEdges(ts, id, es) + Contribution(ts, id, e)
    decreases |es|
  {
    hide Downward;
    if es == [] {
      assert es + [e] == [e];
      NothingCharged(ts, id);
      assert ChargeEdges(ts, id, [e]) == Contribution(ts, id, e) + ChargeEdges(ts, id, [e][1..]);
      assert [e][1..] == [];
    } else {
      assert (es + [e])[1..] == es[1..] + [e];
      ChargeJoins(ts, id, es[1..], e);
    }
  }

  lemma {:induction false} LeafEdgesCharge(ts: Trees, c: TreeId, key: Key, id: TreeId, es: seq<Edge>)
    requires Downward(ts) && c < |ts| && Above(ts, id, es)
    ensures Downward(AddLeaf(ts, c, key)) && Above(AddLeaf(ts, c, key), id, es)
    ensures ChargeEdges(AddLeaf(ts, c, key), id, es) == ChargeEdges(ts, id, es)
    decreases |ts| - id, |es| + 1
  {
    if es != [] {
      LeafCharge(ts, c, key, es[0].id);
      LeafEdgesCharge(ts, c, key, id, es[1..]);
    }
  }

  /** Marking a node unique charges nothing more if it has no children yet, or was unique. */
  lemma {:induction false} UniqueCharge(ts: Trees, x: TreeId, id: TreeId)
    requires Downward(ts) && x < |ts| && id < |ts| && (ts[x].unique || ts[x].children == [])
    ensures Downward(MarkUnique(ts, x)) && Charge(MarkUnique(ts, x), id) == Charge(ts, id)
    decreases |ts| - id, |ts[id].children| + 2
  {
    if ts[id].children == [] {
      NothingCharged(MarkUnique(ts, x), id);
    } else {
      UniqueEdgesCharge(ts, x, id, ts[id].children);
    }
  }

  lemma {:induction false} UniqueEdgesCharge(ts: Trees, x: TreeId, id: TreeId, es: seq<Edge>)
    requires Downward(ts) && x < |ts| && Above(ts, id, es) && (ts[x].unique || ts[x].children == [])
    requires id == x ==> ts[x].unique
    ensures Downward(MarkUnique(ts, x))
    ensures ChargeEdges(MarkUnique(ts, x), id, es) == ChargeEdges(ts, id, es)
    decreases |ts| - id, |es| + 1
  {
    if es != [] {
      UniqueCharge(ts, x, es[0].id);
      UniqueEdgesCharge(ts, x, id, es[1..]);
    }
  }

  // ----- Growing a node -----

  /** `paths` names every node by the keys that lead to it. */
  ghost predicate Labeled(ts: Trees, paths: seq<seq<Key>>) {
    && |paths| == |ts| && ts != [] && paths[0] == []
    && forall id, i :: 0 <= id < |ts| && 0 <= i < |ts[id].children| ==> EdgeLabel(ts, paths, id, ts[id].children[i])
  }

  ghost predicate EdgeLabel(ts: Trees, paths: seq<seq<Key>>, id: TreeId, e: Edge)
    requires id < |paths|
  {
    e.id < |paths| && paths[e.id] == paths[id] + [e.key]
  }

  predicate Leads(p: seq<Key>, q: seq<Key>) {
    |p| <= |q| && q[..|p|] == p
  }

  predicate LeadsBelow(p: seq<Key>, q: seq<Key>) {
    |p| < |q| && Leads(p, q)
  }

  lemma LeadsBack(p: seq<Key>, k: Key, q: seq<Key>)
    requires Leads(p + [k], q)
    ensures LeadsBelow(p, q) && q[|p|] == k
  {
    assert q[..|p|] == q[..|p| + 1][..|p|];
    assert q[|p|] == q[..|p| + 1][|p|];
  }

  lemma EdgeFacts(ts: Trees, paths: seq<seq<Key>>, id: TreeId, i: nat)
    requires Downward(ts) && Labeled(ts, paths) && id < |ts| && i < |ts[id].children|
    ensures |paths| == |ts| && id < ts[id].children[i].id < |ts|
    ensures paths[ts[id].children[i].id] == paths[id] + [ts[id].children[i].key]
  {
    assert EdgeLabel(ts, paths, id, ts[id].children[i]);
  }

  /** Away from the way to `x`, growing `x` changes nothing. */
  lemma {:induction false} GrowElsewhere(ts: Trees, paths: seq<seq<Key>>, x: TreeId, size: nat, id: TreeId)
    requires Downward(ts) && Labeled(ts, paths) && x < |ts| && id < |ts| && !LeadsBelow(paths[id], paths[x])
    ensures Downward(Grow(ts, x, size)) && Charge(Grow(ts, x, size), id) == Charge(ts, id)
    decreases |ts| - id
  {
    hide Labeled, LeadsBelow, Leads;
    var ts2 := Grow(ts, x, size);
    var es := ts[id].children;
    assert ts2[id].children == es;
    forall i | 0 <= i < |es| ensures id < es[i].id < |ts| && Contribution(ts2, id, es[i]) == Contribution(ts, id, es[i]) {
      EdgeFacts(ts, paths, id, i);
      OffTheWay(paths[id], es[i].key, paths[x]);
      GrowElsewhere(ts, paths, x, size, es[i].id);
    }
    SameEdges(ts, ts2, id, es);
  }

  lemma OffTheWay(p: seq<Key>, k: Key, q: seq<Key>)
    requires !LeadsBelow(p, q)
    ensures !LeadsBelow(p + [k], q) && p + [k] != q
  {
    if Leads(p + [k], q) {
      LeadsBack(p, k, q);
    }
  }

  lemma {:induction false} SameEdges(ts: Trees, ts2: Trees, id: TreeId, es: seq<Edge>)
    requires Downward(ts) && Downward(ts2) && |ts2| == |ts| && Above(ts, id, es)
    requires forall i :: 0 <= i < |es| ==> Contribution(ts2, id, es[i]) == Contribution(ts, id, es[i])
    ensures ChargeEdges(ts2, id, es) == ChargeEdges(ts, id, es)
    decreases |es|
  {
    hide Downward, Contribution;
    if es != [] {
      SameEdges(ts, ts2, id, es[1..]);
    }
  }

  /** If one edge contributes `more`, so does the node. */
  lemma {:induction false} OneEdgeGrows(ts: Trees, ts2: Trees, id: TreeId, es: seq<Edge>, j: nat, more: nat)
    requires Downward(ts) && Downward(ts2) && |ts2| == |ts| && Above(ts, id, es) && j < |es|
    requires forall i :: 0 <= i < |es| && i != j ==> Contribution(ts2, id, es[i]) == Contribution(ts, id, es[i])
    requires Contribution(ts2, id, es[j]) == Contribution(ts, id, es[j]) + more
    ensures ChargeEdges(ts2, id, es) == ChargeEdges(ts, id, es) + more
    decreases |es|
  {
    hide Downward, Contribution;
    if j == 0 {
      SameEdges(ts, ts2, id, es[1..]);
    } else {
      OneEdgeGrows(ts, ts2, id, es[1..], j - 1, more);
    }
  }

  predicate IsChild(ts: Trees, a: TreeId, b: TreeId) {
    a < |ts| && exists i :: 0 <= i < |ts[a].children| && ts[a].children[i].id == b
  }

  /** Each node is a child of the one before it. */
  ghost predicate Chain(ts: Trees, nodes: seq<TreeId>) {
    |nodes| > 0 && nodes[0] < |ts| && (|nodes| > 1 ==> IsChild(ts, nodes[0], nodes[1]) && Chain(ts, nodes[1..]))
  }

  lemma {:induction false} ChainLeads(ts: Trees, paths: seq<seq<Key>>, nodes: seq<TreeId>)
    requires Downward(ts) && Labeled(ts, paths) && Chain(ts, nodes)
    ensures nodes[|nodes| - 1] < |ts| && nodes[0] <= nodes[|nodes| - 1]
    ensures |nodes| > 1 ==> nodes[0] < nodes[|nodes| - 1]
    ensures Leads(paths[nodes[0]], paths[nodes[|nodes| - 1]])
    decreases |nodes|
  {
    hide Labeled;
    if |nodes| > 1 {
      var i :| 0 <= i < |ts[nodes[0]].children| && ts[nodes[0]].children[i].id == nodes[1];
      EdgeFacts(ts, paths, nodes[0], i);
      ChainLeads(ts, paths, nodes[1..]);
      LeadsBack(paths[nodes[0]], ts[nodes[0]].children[i].key, paths[nodes[|nodes| - 1]]);
    }
  }

  /** Growing a node charges its size once, if its parent is the root or unique. */
  lemma {:induction false} GrowCharge(ts: Trees, paths: seq<seq<Key>>, size: nat, nodes: seq<TreeId>)
    requires Downward(ts) && Keyed(ts) && Labeled(ts, paths) && Chain(ts, nodes) && |nodes| >= 2
    ensures nodes[|nodes| - 1] < |ts| && nodes[|nodes| - 2] < |ts| && Downward(Grow(ts, nodes[|nodes| - 1], size))
    ensures Charge(Grow(ts, nodes[|nodes| - 1], size), nodes[0])
         == Charge(ts, nodes[0]) + if Opens(ts, nodes[|nodes| - 2]) then size else 0
    decreases |nodes|
  {
    hide Labeled, Keyed, Charge, ChargeEdges, LeadsBelow, Leads;
    ChainLeads(ts, paths, nodes);
    ChainLeads(ts, paths, nodes[1..]);
    var id, x := nodes[0], nodes[|nodes| - 1];
    var ts2 := Grow(ts, x, size);
    var es := ts[id].children;
    var j :| 0 <= j < |es| && es[j].id == nodes[1];
    EdgeFacts(ts, paths, id, j);
    LeadsBack(paths[id], es[j].key, paths[x]);
    if |nodes| == 2 {
      NotBelowItself(paths[x]);
      GrowElsewhere(ts, paths, x, size, x);
    } else {
      GrowCharge(ts, paths, size, nodes[1..]);
      ChainLast(nodes);
    }
    var more := if Opens(ts, nodes[|nodes| - 2]) then size else 0;
    assert Contribution(ts2, id, es[j]) == Contribution(ts, id, es[j]) + more;
    forall i | 0 <= i < |es| && i != j
      ensures id < es[i].id < |ts| && Contribution(ts2, id, es[i]) == Contribution(ts, id, es[i])
    {
      EdgeFacts(ts, paths, id, i);
      KeysDiffer(ts, id, i, j);
      OtherWay(paths[id], es[i].key, paths[x]);
      GrowElsewhere(ts, paths, x, size, es[i].id);
    }
    OneEdgeGrows(ts, ts2, id, es, j, more);
    ChargeIsEdges(ts, id);
    ChargeIsEdges(ts2, id);
  }

  lemma ChainLast(nodes: seq<TreeId>)
    requires |nodes| > 2
    ensures nodes[1..][|nodes| - 2] == nodes[|nodes| - 1] && nodes[1..][|nodes| - 3] == nodes[|nodes| - 2]
  {
  }

  lemma NotBelowItself(p: seq<Key>)
    ensures !LeadsBelow(p, p)
  {
  }

  lemma ChargeIsEdges(ts: Trees, id: TreeId)
    requires Downward(ts) && id < |ts|
    ensures Charge(ts, id) == ChargeEdges(ts, id, ts[id].children)
  {
  }

  lemma KeysDiffer(ts: Trees, id: TreeId, i: nat, j: nat)
    requires Keyed(ts) && id < |ts| && i < |ts[id].children| && j < |ts[id].children| && i != j
    ensures ts[id].children[i].key != ts[id].children[j].key
  {
    assert DistinctKeys(ts[id].children);
  }

  lemma OtherWay(p: seq<Key>, k: Key, q: seq<Key>)
    requires |p| < |q| && q[|p|] != k
    ensures !LeadsBelow(p + [k], q) && p + [k] != q
  {
    assert (p + [k])[|p|] == k;
    if Leads(p + [k], q) {
      LeadsBack(p, k, q);
    }
  }
}
