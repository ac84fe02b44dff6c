/** Flame graphs of `allocative/allocative/src/flamegraph.rs`: trees of sizes by stack, whose nodes
    cache the total of what lies below them. */
module FlameGraphs {

  type Key = string

  /** `children` stands for the hash map, in an order that no result depends on. */
  datatype FlameGraph = FlameGraph(children: seq<Child>, childrenSize: nat, nodeSize: nat) {
    function TotalSize(): nat {
      nodeSize + childrenSize
    }
  }

  datatype Child = Child(key: Key, graph: FlameGraph)

  const BLANK := FlameGraph([], 0, 0)

  function Find(cs: seq<Child>, key: Key): (i: nat)
    ensures i <= |cs|
    ensures i < |cs| ==> cs[i].key == key
    ensures forall j :: 0 <= j < i ==> cs[j].key != key
  {
    if cs == [] || cs[0].key == key then 0 else 1 + Find(cs[1..], key)
  }

  // ----- Merging -----

  function Add(a: FlameGraph, b: FlameGraph): FlameGraph
    decreases b, 0
  {
    AddAll(a.(nodeSize := a.nodeSize + b.nodeSize), b.children)
  }

  function AddAll(a: FlameGraph, cs: seq<Child>): FlameGraph
    decreases cs, 0
  {
    if cs == [] then a else AddAll(AddChild(a, cs[0].key, cs[0].graph), cs[1..])
  }

  function AddChild(a: FlameGraph, key: Key, child: FlameGraph): FlameGraph
    decreases child, 1
  {
    var i := Find(a.children, key);
    var merged :=
      if i < |a.children| then a.children[i := Child(key, Add(a.children[i].graph, child))]
      else a.children + [Child(key, child)];
    FlameGraph(merged, a.childrenSize + child.TotalSize(), a.nodeSize)
  }

  // ----- What must hold of a graph -----

  function Totals(cs: seq<Child>): nat {
    if cs == [] then 0 else cs[0].graph.TotalSize() + Totals(cs[1..])
  }

  /** At every depth the cached size is the sum of the children's totals, and keys are distinct. */
  ghost predicate Cached(g: FlameGraph) {
    && g.childrenSize == Totals(g.children)
    && (forall i, j :: 0 <= i < j < |g.children| ==> g.children[i].key != g.children[j].key)
    && forall i :: 0 <= i < |g.children| ==> Cached(g.children[i].graph)
  }

  /** The size recorded for one stack. */
  function SizeAt(g: FlameGraph, path: seq<Key>): nat
    decreases path
  {
    if path == [] then g.nodeSize
    else
      var i := Find(g.children, path[0]);
      if i < |g.children| then SizeAt(g.children[i].graph, path[1..]) else 0
  }

  /** The sum of all node sizes, recomputed from scratch. */
  function DeepTotal(g: FlameGraph): nat
    decreases g
  {
    g.nodeSize + DeepTotals(g.children)
  }

  function DeepTotals(cs: seq<Child>): nat
    decreases cs
  {
    if cs == [] then 0 else DeepTotal(cs[0].graph) + DeepTotals(cs[1..])
  }

  /** The cache is right: the total size is what adding up every node gives. */
  lemma {:induction false} CacheIsRight(g: FlameGraph)
    requires Cached(g)
    ensures g.TotalSize() == DeepTotal(g)
    decreases g
  {
    CachesAreRight(g.children);
  }

  lemma {:induction false} CachesAreRight(cs: seq<Child>)
    requires forall i :: 0 <= i < |cs| ==> Cached(cs[i].graph)
    ensures Totals(cs) == DeepTotals(cs)
    decreases cs
  {
    if cs != [] {
      CacheIsRight(cs[0].graph);
      CachesAreRight(cs[1..]);
    }
  }

  // ----- Merging keeps the cache -----

  lemma {:induction false} TotalsUpdate(cs: seq<Child>, i: nat, c: Child)
    requires i < |cs|
    ensures Totals(cs[i := c]) == Totals(cs) - cs[i].graph.TotalSize() + c.graph.TotalSize()
  {
    if i > 0 {
      TotalsUpdate(cs[1..], i - 1, c);
      assert cs[i := c][1..] == cs[1..][i - 1 := c];
    }
  }

  lemma {:induction false} TotalsAppend(cs: seq<Child>, c: Child)
    ensures Totals(cs + [c]) == Totals(cs) + c.graph.TotalSize()
  {
    if cs != [] {
      TotalsAppend(cs[1..], c);
      assert (cs + [c])[1..] == cs[1..] + [c];
    }
  }

  lemma {:induction false} AddKeepsCache(a: FlameGraph, b: FlameGraph)
    requires Cached(a) && Cached(b)
    ensures Cached(Add(a, b)) && Add(a, b).TotalSize() == a.TotalSize() + b.TotalSize()
    decreases b, 0
  {
    hide AddAll;
    var a1 := a.(nodeSize := a.nodeSize + b.nodeSize);
    CachedParts(a, a1);
    CachedParts(b, b);
    hide Cached;
    AddAllKeepsCache(a1, b.children);
  }

  lemma CachedParts(g: FlameGraph, h: FlameGraph)
    requires Cached(g) && h.children == g.children && h.childrenSize == g.childrenSize
    ensures Cached(h) && g.childrenSize == Totals(g.children)
    ensures forall i :: 0 <= i < |g.children| ==> Cached(g.children[i].graph)
  {
  }

  lemma {:induction false} AddAllKeepsCache(a: FlameGraph, cs: seq<Child>)
    requires Cached(a) && forall i :: 0 <= i < |cs| ==> Cached(cs[i].graph)
    ensures Cached(AddAll(a, cs)) && AddAll(a, cs).TotalSize() == a.TotalSize() + Totals(cs)
    decreases cs, 0
  {
    if cs != [] {
      AddChildKeepsCache(a, cs[0].key, cs[0].graph);
      AddAllKeepsCache(AddChild(a, cs[0].key, cs[0].graph), cs[1..]);
    }
  }

  lemma {:induction false} AddChildKeepsCache(a: FlameGraph, key: Key, child: FlameGraph)
    requires Cached(a) && Cached(child)
    ensures Cached(AddChild(a, key, child))
    ensures AddChild(a, key, child).TotalSize() == a.TotalSize() + child.TotalSize()
    decreases child, 1
  {
    var i := Find(a.children, key);
    if i < |a.children| {
      var was := a.children[i].graph;
      AddKeepsCache(was, child);
      TotalsUpdate(a.children, i, Child(key, Add(was, child)));
    } else {
      TotalsAppend(a.children, Child(key, child));
    }
  }

  // ----- Merging adds sizes stack by stack -----

  lemma {:induction false} FindUpdated(cs: seq<Child>, i: nat, c: Child, key: Key)
    requires i < |cs| && c.key == cs[i].key
    ensures Find(cs[i := c], key) == Find(cs, key)
  {
    if cs[0].key != key {
      if i == 0 {
        assert cs[i := c][1..] == cs[1..];
      } else {
        assert cs[i := c][1..] == cs[1..][i - 1 := c];
        FindUpdated(cs[1..], i - 1, c, key);
      }
    }
  }

  lemma {:induction false} FindAppended(cs: seq<Child>, c: Child, key: Key)
    ensures Find(cs + [c], key) == if Find(cs, key) < |cs| then Find(cs, key) else if c.key == key then |cs| else |cs| + 1
  {
    if cs != [] && cs[0].key != key {
      assert (cs + [c])[1..] == cs[1..] + [c];
      FindAppended(cs[1..], c, key);
    }
  }

  /** The size a list of children records for a stack. */
  function SizeIn(cs: seq<Child>, path: seq<Key>): nat
    requires path != []
  {
    if cs == [] then 0
    else (if cs[0].key == path[0] then SizeAt(cs[0].graph, path[1..]) else 0) + SizeIn(cs[1..], path)
  }

  lemma {:induction false} NotIn(cs: seq<Child>, path: seq<Key>)
    requires path != [] && forall i :: 0 <= i < |cs| ==> cs[i].key != path[0]
    ensures SizeIn(cs, path) == 0
  {
    if cs != [] {
      NotIn(cs[1..], path);
    }
  }

  /** With distinct keys, looking a stack up and adding up over the children agree. */
  lemma {:induction false} SizeAtIsIn(g: FlameGraph, path: seq<Key>)
    requires Cached(g) && path != []
    ensures SizeAt(g, path) == SizeIn(g.children, path)
  {
    FoundIsSum(g.children, path);
  }

  lemma {:induction false} FoundIsSum(cs: seq<Child>, path: seq<Key>)
    requires path != [] && forall i, j :: 0 <= i < j < |cs| ==> cs[i].key != cs[j].key
    ensures SizeIn(cs, path) ==
            var i := Find(cs, path[0]); if i < |cs| then SizeAt(cs[i].graph, path[1..]) else 0
  {
    if cs != [] {
      if cs[0].key == path[0] {
        NotIn(cs[1..], path);
      } else {
        FoundIsSum(cs[1..], path);
      }
    }
  }

  lemma {:induction false} AddSizes(a: FlameGraph, b: FlameGraph, path: seq<Key>)
    requires Cached(a) && Cached(b)
    ensures SizeAt(Add(a, b), path) == SizeAt(a, path) + SizeAt(b, path)
    decreases b, 0
  {
    var a1 := a.(nodeSize := a.nodeSize + b.nodeSize);
    AddAllSizes(a1, b.children, path);
    if path != [] {
      SizeAtIsIn(b, path);
    }
  }

  lemma {:induction false} AddAllSizes(a: FlameGraph, cs: seq<Child>, path: seq<Key>)
    requires Cached(a) && forall i :: 0 <= i < |cs| ==> Cached(cs[i].graph)
    ensures SizeAt(AddAll(a, cs), path) == SizeAt(a, path) + if path == [] then 0 else SizeIn(cs, path)
    decreases cs, 0
  {
    if cs != [] {
      AddChildKeepsCache(a, cs[0].key, cs[0].graph);
      AddChildSizes(a, cs[0].key, cs[0].graph, path);
      AddAllSizes(AddChild(a, cs[0].key, cs[0].graph), cs[1..], path);
    }
  }

  lemma {:induction false} AddChildSizes(a: FlameGraph, key: Key, child: FlameGraph, path: seq<Key>)
    requires Cached(a) && Cached(child)
    ensures SizeAt(AddChild(a, key, child), path)
         == SizeAt(a, path) + if path != [] && path[0] == key then SizeAt(child, path[1..]) else 0
    decreases child, 1
  {
    var i := Find(a.children, key);
    if path != [] {
      if i < |a.children| {
        var was := a.children[i].graph;
        FindUpdated(a.children, i, Child(key, Add(was, child)), path[0]);
        AddSizes(was, child, path[1..]);
      } else {
        FindAppended(a.children, Child(key, child), path[0]);
      }
    }
  }
}
