/** The builder object: its arena, current stack, shared stacks and visited set, updated in place by
    the visitor's enters and exits, and turned into a flame graph at the end. */
module FlameBuilderObjects {
  import opened Options
  import opened FlameGraphs
  import opened FlameArena
  import opened FlameBuilder
  import opened FlameStacks
  import opened FlameConservation

  // ----- Facts about updating `rem` -----

  /** Only `rem` differs, and where it does it is right. */
  ghost predicate Refreshed(ts: Trees, ts2: Trees)
    requires Downward(ts)
  {
    && |ts2| == |ts|
    && forall j :: 0 <= j < |ts| ==> RefreshedAt(ts, ts2, j)
  }

  ghost predicate RefreshedAt(ts: Trees, ts2: Trees, j: TreeId)
    requires Downward(ts) && j < |ts| == |ts2|
  {
    ts2[j] == ts[j] || ts2[j] == ts[j].(rem := Rem(ts, j))
  }

  lemma {:induction false} SizesSame(ts: Trees, ts2: Trees, es: seq<Edge>)
    requires Downward(ts) && Refreshed(ts, ts2) && forall i :: 0 <= i < |es| ==> es[i].id < |ts|
    ensures Sizes(ts2, es) == Sizes(ts, es)
  {
    if es != [] {
      assert RefreshedAt(ts, ts2, es[0].id);
      SizesSame(ts, ts2, es[1..]);
    }
  }

  lemma RefreshedSame(ts: Trees, ts2: Trees)
    requires Downward(ts) && Refreshed(ts, ts2)
    ensures Downward(ts2)
    ensures forall j :: 0 <= j < |ts| ==> ts2[j].children == ts[j].children && Rem(ts2, j) == Rem(ts, j)
  {
    forall j | 0 <= j < |ts|
      ensures ts2[j].children == ts[j].children && ts2[j].size == ts[j].size && ts2[j].unique == ts[j].unique
    {
      assert RefreshedAt(ts, ts2, j);
    }
    forall j | 0 <= j < |ts| ensures Rem(ts2, j) == Rem(ts, j) {
      SizesSame(ts, ts2, ts[j].children);
    }
  }

  lemma RefreshedTrans(ts: Trees, ts2: Trees, ts3: Trees)
    requires Downward(ts) && Refreshed(ts, ts2) && Downward(ts2) && Refreshed(ts2, ts3)
    ensures Refreshed(ts, ts3)
  {
    RefreshedSame(ts, ts2);
    forall j | 0 <= j < |ts| ensures RefreshedAt(ts, ts3, j) {
      assert RefreshedAt(ts, ts2, j) && RefreshedAt(ts2, ts3, j);
    }
  }

  lemma {:induction false} StaysSettled(ts: Trees, ts2: Trees, id: TreeId)
    requires Downward(ts) && Refreshed(ts, ts2) && id < |ts| && Settled(ts, id)
    ensures Downward(ts2) && Settled(ts2, id)
    decreases |ts| - id
  {
    hide Rem;
    RefreshedSame(ts, ts2);
    assert RefreshedAt(ts, ts2, id);
    forall i | 0 <= i < |ts[id].children| ensures Settled(ts2, ts2[id].children[i].id) {
      StaysSettled(ts, ts2, ts[id].children[i].id);
    }
  }

  lemma {:induction false} ChargeSame(ts: Trees, ts2: Trees, id: TreeId)
    requires Downward(ts) && Downward(ts2) && Refreshed(ts, ts2) && id < |ts|
    ensures Charge(ts2, id) == Charge(ts, id)
    decreases |ts| - id, |ts[id].children| + 2
  {
    assert RefreshedAt(ts, ts2, id);
    ChargeEdgesSame(ts, ts2, id, ts[id].children);
  }

  lemma {:induction false} ChargeEdgesSame(ts: Trees, ts2: Trees, id: TreeId, es: seq<Edge>)
    requires Downward(ts) && Downward(ts2) && Refreshed(ts, ts2) && Above(ts, id, es)
    ensures ChargeEdges(ts2, id, es) == ChargeEdges(ts, id, es)
    decreases |ts| - id, |es| + 1
  {
    hide Downward, Refreshed;
    if es != [] {
      ChargeSame(ts, ts2, es[0].id);
      ChargeEdgesSame(ts, ts2, id, es[1..]);
      SameNode(ts, ts2, id);
      SameNode(ts, ts2, es[0].id);
    }
  }

  lemma SameNode(ts: Trees, ts2: Trees, id: TreeId)
    requires Downward(ts) && Refreshed(ts, ts2) && id < |ts|
    ensures ts2[id].size == ts[id].size && ts2[id].unique == ts[id].unique && ts2[id].children == ts[id].children
  {
    assert RefreshedAt(ts, ts2, id);
  }

  // ----- The builder -----

  class FlameGraphBuilder {
    var visitedShared: set<Pointer>
    var trees: Trees
    var current: TreeStack
    var shared: seq<TreeStack>
    var enteredRootVisitor: bool

    constructor ()
      ensures State() == FRESH
    {
      visitedShared, trees, current, shared, enteredRootVisitor := {}, [NEW_TREE], TreeStack([], 0), [], false;
    }

    ghost function State(): Builder
      reads this
    {
      Builder(visitedShared, trees, current, shared, enteredRootVisitor)
    }

    method Descend(key: Key)
      requires current.tree < |trees|
      modifies this`current, this`trees
      ensures State() == Down(old(State()), key)
    {
      var t := current.tree;
      current := TreeStack(current.stack + [t], t);
      var i := FindEdge(trees[t].children, key);
      if i < |trees[t].children| {
        current := current.(tree := trees[t].children[i].id);
      } else {
        var child := |trees|;
        trees := trees[t := trees[t].(children := trees[t].children + [Edge(key, child)])];
        trees := trees + [NEW_TREE];
        current := current.(tree := child);
      }
    }

    method Ascend() returns (moved: bool)
      modifies this`current
      ensures moved == Up(old(current)).Some?
      ensures current == if moved then Up(old(current)).value else old(current)
    {
      var n := |current.stack|;
      moved := n > 0;
      if moved {
        current := TreeStack(current.stack[..n - 1], current.stack[n - 1]);
      }
    }

    /** The precondition is what the source asserts. */
    method ExitNode()
      requires Exit(State()).Some?
      modifies this`current, this`shared, this`enteredRootVisitor
      ensures State() == Exit(old(State())).value
    {
      var up := Ascend();
      if !up {
        if |shared| > 0 {
          current := shared[|shared| - 1];
          shared := shared[..|shared| - 1];
          var again := Ascend();
          assert again;
        } else {
          enteredRootVisitor := false;
        }
      }
    }

    method EnterInline(key: Key, size: nat)
      requires Downward(trees) && current.tree < |trees|
      modifies this`current, this`trees
      ensures State() == Enter(old(State()), key, size)
    {
      LeafDownward(trees, current.tree, key);
      Descend(key);
      var t := current.tree;
      trees := trees[t := trees[t].(size := trees[t].size + size)];
    }

    method EnterUniquePointer(key: Key, size: nat)
      requires Downward(trees) && current.tree < |trees|
      modifies this`current, this`trees
      ensures State() == EnterUnique(old(State()), key, size)
    {
      LeafDownward(trees, current.tree, key);
      EnterInline(key, size);
      var t := current.tree;
      trees := trees[t := trees[t].(unique := true)];
    }

    /** Whether the pointee is still to be visited. */
    method EnterSharedPointer(key: Key, size: nat, p: Pointer) returns (first: bool)
      requires Ready(State())
      modifies this
      ensures EnterShared(old(State()), key, size, p) == Some((State(), first))
    {
      ghost var b := State();
      EnterDown(b, key, size);
      EnterSame(b, key, size);
      EnterInline(key, size);
      if p in visitedShared {
        ExitUp(b, State());
        ExitNode();
        first := false;
      } else {
        visitedShared := visitedShared + {p};
        shared := shared + [current];
        current := TreeStack([], 0);
        first := true;
      }
    }

    /** One nested visit, bracketed as `Visitor` brackets it. */
    method VisitNode(v: Visit)
      requires Ready(State())
      modifies this
      ensures Run(old(State()), v) == Some(State())
      decreases v, 1
    {
      hide Downward, Enter, Exit;
      ghost var b := State();
      Restores(b, v);
      EnterDown(b, v.name, v.size);
      match v
      case Inline(name, size, kids) =>
        EnterInline(name, size);
        VisitAndExit(kids);
      case Unique(name, size, kids) =>
        EnterUniquePointer(name, size);
        VisitAndExit(kids);
      case Shared(name, size, p, kids) =>
        var first := EnterSharedPointer(name, size, p);
        if first {
          VisitAndExit(kids);
        }
    }

    method VisitAndExit(vs: seq<Visit>)
      requires Ready(State()) && RunThenExit(State(), vs).Some?
      modifies this
      ensures RunThenExit(old(State()), vs) == Some(State())
      decreases vs, 1
    {
      VisitNodes(vs);
      ExitNode();
    }

    method VisitNodes(vs: seq<Visit>)
      requires Ready(State())
      modifies this
      ensures RunAll(old(State()), vs) == Some(State())
      decreases vs, 0
    {
      hide Downward;
      if vs != [] {
        Restores(State(), vs[0]);
        VisitNode(vs[0]);
        VisitNodes(vs[1..]);
      }
    }

    method VisitFromRoot(vs: seq<Visit>)
      requires Idle(State())
      modifies this
      ensures VisitRoot(old(State()), vs) == Some(State()) && Idle(State())
    {
      RootsRestore(State(), [vs]);
      assert VisitRoots(State(), [vs]) == VisitRoots(VisitRoot(State(), vs).value, [vs][1..]);
      assert [vs][1..] == [];
      enteredRootVisitor := true;
      VisitAndExit(vs);
    }

    /** Children first, then the node itself. */
    method UpdateSizes(id: TreeId)
      requires Downward(trees) && id < |trees|
      modifies this`trees
      ensures Refreshed(old(trees), trees) && Downward(trees) && Settled(trees, id)
      decreases |trees| - id
    {
      hide Rem;
      ghost var start := trees;
      var children := trees[id].children;
      RefreshedSame(trees, trees);
      for i := 0 to |children|
        invariant |trees| == |start| && Downward(trees) && Refreshed(start, trees) && trees[id].children == children
        invariant forall j :: 0 <= j < i ==> Settled(trees, children[j].id)
      {
        ghost var before := trees;
        UpdateSizes(children[i].id);
        RefreshedTrans(start, before, trees);
        RefreshedSame(before, trees);
        forall j | 0 <= j < i ensures Settled(trees, children[j].id) {
          StaysSettled(before, trees, children[j].id);
        }
      }
      ghost var before := trees;
      SetRem(id);
      RefreshedTrans(start, before, trees);
      RefreshedSame(before, trees);
      forall j | 0 <= j < |children| ensures Settled(trees, children[j].id) {
        StaysSettled(before, trees, children[j].id);
      }
    }

    method SetRem(id: TreeId)
      requires Downward(trees) && id < |trees|
      modifies this`trees
      ensures Refreshed(old(trees), trees) && trees == old(trees)[id := old(trees)[id].(rem := Rem(old(trees), id))]
    {
      var childrenSize := if trees[id].unique then 0 else Sizes(trees, trees[id].children);
      trees := trees[id := trees[id].(rem := trees[id].size - childrenSize)];
      assert forall j :: 0 <= j < |trees| ==> RefreshedAt(old(trees), trees, j);
    }

    method WriteFlameGraph(id: TreeId) returns (g: FlameGraph)
      requires Downward(trees) && id < |trees|
      ensures g == Flame(trees, id)
      decreases |trees| - id
    {
      g := Own(trees, id);
      var es := trees[id].children;
      assert es[0..] == es;
      for i := 0 to |es|
        invariant FlameEdges(trees, id, es, Own(trees, id)) == FlameEdges(trees, id, es[i..], g)
      {
        var child := WriteFlameGraph(es[i].id);
        g := AddChild(g, es[i].key, child);
        assert es[i..][1..] == es[i + 1..];
      }
    }

    /** The assertions the source makes first are the precondition. */
    method Finish() returns (g: FlameGraph)
      requires Idle(State())
      modifies this`trees
      ensures Refreshed(old(trees), trees) && Downward(trees) && Settled(trees, 0) && g == Flame(trees, 0)
      ensures g.TotalSize() == Charge(old(trees), 0) + Oversize(trees, 0)
    {
      ghost var before := trees;
      UpdateSizes(0);
      g := WriteFlameGraph(0);
      TotalIsCharge(trees);
      ChargeSame(before, trees, 0);
    }
  }

  /** Building a flame graph of some roots: the graph and the tree it was written from. Warnings are
      given for what is oversize in the tree. The total is what was entered under the root, unique
      pointers and shared pointees, each pointee once, plus what lies inline under stacks that are
      also unique, plus what is oversize; so it is the memory visited exactly when no stack is both
      and every stack is as large as what is inside it. */
  method BuildFlameGraph(roots: seq<seq<Visit>>) returns (g: FlameGraph, trees: Trees)
    ensures Downward(trees) && trees != [] && Settled(trees, 0) && g == Flame(trees, 0)
    ensures g.TotalSize() == ChargedRoots(roots, {}) + UnderBoth(roots) + Oversize(trees, 0)
    ensures Oversize(trees, 0) == 0 <==> Fits(roots)
    ensures g.TotalSize() == ChargedRoots(roots, {}) <==> UnderBoth(roots) == 0 && Fits(roots)
    ensures forall q :: SizeOn(trees, q) == EnteredRoots(roots, q, {}) && SizesUnder(trees, q) == InsideRoots(roots, q, {})
    ensures forall q :: UniqueOn(trees, q) <==> MarkedRoots(roots, q, {})
    ensures forall q :: SizeAt(g, q) == LeftAt(trees, 0, q) == Shown(roots, q)
  {
    hide Downward, Settled, Charge, Oversize, Flame, Keyed, Fits, Shown, SizeOn, SizesUnder, UniqueOn;
    var b := new FlameGraphBuilder();
    FreshShape({});
    for i := 0 to |roots|
      invariant Idle(b.State()) && fresh(b)
      invariant VisitRoots(FRESH, roots) == VisitRoots(b.State(), roots[i..])
    {
      b.VisitFromRoot(roots[i]);
      assert roots[i..][1..] == roots[i + 1..];
    }
    ghost var before := b.trees;
    assert VisitRoots(FRESH, roots) == Some(b.State());
    g := b.Finish();
    trees := b.trees;
    VisitsCharge(roots);
    FinishedStacks(roots, before, trees);
  }

  /** What the visits left in the arena is still there once sizes are settled, and so shows in the
      graph. */
  lemma FinishedStacks(roots: seq<seq<Visit>>, ts: Trees, ts2: Trees)
    requires VisitRoots(FRESH, roots).Some? && VisitRoots(FRESH, roots).value.trees == ts
    requires Downward(ts) && ts != [] && Refreshed(ts, ts2) && Downward(ts2) && Settled(ts2, 0)
    ensures Oversize(ts2, 0) == 0 <==> Fits(roots)
    ensures forall q :: SizeOn(ts2, q) == EnteredRoots(roots, q, {}) && SizesUnder(ts2, q) == InsideRoots(roots, q, {})
    ensures forall q :: UniqueOn(ts2, q) <==> MarkedRoots(roots, q, {})
    ensures forall q :: SizeAt(Flame(ts2, 0), q) == LeftAt(ts2, 0, q) == Shown(roots, q)
  {
    hide Downward, Settled, Oversize, Flame, Keyed, Fits, Shown, SizeOn, SizesUnder, UniqueOn, VisitRoots;
    hide EnteredRoots, InsideRoots, MarkedRoots, LeftAt, SizeAt;
    SizesByStack(roots, []);
    forall q
      ensures SizeOn(ts2, q) == EnteredRoots(roots, q, {}) && SizesUnder(ts2, q) == InsideRoots(roots, q, {})
      ensures UniqueOn(ts2, q) <==> MarkedRoots(roots, q, {})
    {
      SizesByStack(roots, q);
      RefreshedStack(ts, ts2, q);
    }
    RefreshedStack(ts, ts2, []);
    FitsIff(roots, ts2);
    forall q ensures SizeAt(Flame(ts2, 0), q) == LeftAt(ts2, 0, q) {
      FlameSizes(ts2, 0, q);
    }
  }

  lemma RefreshedStack(ts: Trees, ts2: Trees, q: Path)
    requires Downward(ts) && ts != [] && Refreshed(ts, ts2) && Keyed(ts)
    ensures Downward(ts2) && Keyed(ts2) && SizeOn(ts2, q) == SizeOn(ts, q)
    ensures SizesUnder(ts2, q) == SizesUnder(ts, q) && (UniqueOn(ts2, q) <==> UniqueOn(ts, q))
  {
    RefreshedSame(ts, ts2);
    SameChildrenSameNode(ts, ts2, 0, q);
    NodeInside(ts, 0, q);
    forall id | 0 <= id < |ts2| ensures DistinctKeys(ts2[id].children) {
      assert DistinctKeys(ts[id].children);
    }
    var n := NodeAt(ts, 0, q);
    if n.Some? {
      SameNode(ts, ts2, n.value);
      SizesSame(ts, ts2, ts[n.value].children);
    }
  }
}
