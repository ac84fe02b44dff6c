/** Conservation in the flame graph: what the written graph totals, in terms of what was visited. */
module FlameConservation {
  import opened Options
  import opened FlameGraphs
  import opened FlameArena
  import opened FlameBuilder
  import opened FlameStacks

  // ----- What visits should be charged -----

  /** Sizes entered under a root, unique or shared visitor (`open`); sizes under an inline one lie
      inside it. A pointee is visited the first time its pointer is met. */
  function Charged(v: Visit, open: bool, visited: set<Pointer>): nat
    decreases v
  {
    (if open then v.size else 0) +
    match v
    case Inline(_, _, kids) => ChargedAll(kids, false, visited)
    case Unique(_, _, kids) => ChargedAll(kids, true, visited)
    case Shared(_, _, p, kids) => if p in visited then 0 else ChargedAll(kids, true, visited + {p})
  }

  function ChargedAll(vs: seq<Visit>, open: bool, visited: set<Pointer>): nat
    decreases vs
  {
    if vs == [] then 0 else Charged(vs[0], open, visited) + ChargedAll(vs[1..], open, After(vs[0], visited))
  }

  function ChargedRoots(roots: seq<seq<Visit>>, visited: set<Pointer>): nat {
    if roots == [] then 0
    else ChargedAll(roots[0], true, visited) + ChargedRoots(roots[1..], AfterAll(roots[0], visited))
  }

  // ----- What is charged on top -----

  /** The stacks `v` enters as unique pointers. */
  function UniqueStacks(v: Visit, at: Path, visited: set<Pointer>): set<Path>
    decreases v
  {
    match v
    case Inline(name, _, kids) => UniqueStacksAll(kids, at + [name], visited)
    case Unique(name, _, kids) => {at + [name]} + UniqueStacksAll(kids, at + [name], visited)
    case Shared(_, _, p, kids) => if p in visited then {} else UniqueStacksAll(kids, [], visited + {p})
  }

  function UniqueStacksAll(vs: seq<Visit>, at: Path, visited: set<Pointer>): set<Path>
    decreases vs
  {
    if vs == [] then {}
    else UniqueStacks(vs[0], at, visited) + UniqueStacksAll(vs[1..], at, After(vs[0], visited))
  }

  function UniqueStacksRoots(roots: seq<seq<Visit>>, visited: set<Pointer>): set<Path> {
    if roots == [] then {}
    else UniqueStacksAll(roots[0], [], visited) + UniqueStacksRoots(roots[1..], AfterAll(roots[0], visited))
  }

  /** Sizes entered under an inline visitor whose stack is in `u`. */
  function Under(v: Visit, inline: bool, at: Path, u: set<Path>, visited: set<Pointer>): nat
    decreases v
  {
    (if inline && at in u then v.size else 0) +
    match v
    case Inline(name, _, kids) => UnderAll(kids, true, at + [name], u, visited)
    case Unique(name, _, kids) => UnderAll(kids, false, at + [name], u, visited)
    case Shared(_, _, p, kids) => if p in visited then 0 else UnderAll(kids, false, [], u, visited + {p})
  }

  function UnderAll(vs: seq<Visit>, inline: bool, at: Path, u: set<Path>, visited: set<Pointer>): nat
    decreases vs
  {
    if vs == [] then 0
    else Under(vs[0], inline, at, u, visited) + UnderAll(vs[1..], inline, at, u, After(vs[0], visited))
  }

  function UnderRoots(roots: seq<seq<Visit>>, u: set<Path>, visited: set<Pointer>): nat {
    if roots == [] then 0
    else UnderAll(roots[0], false, [], u, visited) + UnderRoots(roots[1..], u, AfterAll(roots[0], visited))
  }

  /** Sizes entered under an inline visitor at a stack that some visit enters as a unique pointer. */
  function UnderBoth(roots: seq<seq<Visit>>): nat {
    UnderRoots(roots, UniqueStacksRoots(roots, {}), {})
  }

  // ----- Marked stacks -----

  lemma {:induction false} StacksAreMarked(v: Visit, at: Path, q: Path, visited: set<Pointer>)
    ensures q in UniqueStacks(v, at, visited) <==> Marked(v, at, q, visited)
    decreases v
  {
    match v
    case Inline(name, _, kids) => AllStacksAreMarked(kids, at + [name], q, visited);
    case Unique(name, _, kids) => AllStacksAreMarked(kids, at + [name], q, visited);
    case Shared(_, _, p, kids) =>
      if p !in visited {
        AllStacksAreMarked(kids, [], q, visited + {p});
      }
  }

  lemma {:induction false} AllStacksAreMarked(vs: seq<Visit>, at: Path, q: Path, visited: set<Pointer>)
    ensures q in UniqueStacksAll(vs, at, visited) <==> MarkedAny(vs, at, q, visited)
    decreases vs
  {
    if vs != [] {
      StacksAreMarked(vs[0], at, q, visited);
      AllStacksAreMarked(vs[1..], at, q, After(vs[0], visited));
    }
  }

  lemma {:induction false} RootStacksAreMarked(roots: seq<seq<Visit>>, q: Path, visited: set<Pointer>)
    ensures q in UniqueStacksRoots(roots, visited) <==> MarkedRoots(roots, q, visited)
  {
    if roots != [] {
      AllStacksAreMarked(roots[0], [], q, visited);
      RootStacksAreMarked(roots[1..], q, AfterAll(roots[0], visited));
    }
  }

  // ----- Splitting the charge -----

  lemma {:induction false} ChargeSplits(v: Visit, inline: bool, at: Path, u: set<Path>, visited: set<Pointer>)
    requires UniqueStacks(v, at, visited) <= u && (if inline then at != [] else OpenAt(at, u))
    ensures ChargedIn(v, at, u, visited) == Charged(v, !inline, visited) + Under(v, inline, at, u, visited)
    decreases v
  {
    match v
    case Inline(name, _, kids) => AllChargeSplits(kids, true, at + [name], u, visited);
    case Unique(name, _, kids) => AllChargeSplits(kids, false, at + [name], u, visited);
    case Shared(_, _, p, kids) =>
      if p !in visited {
        AllChargeSplits(kids, false, [], u, visited + {p});
      }
  }

  lemma {:induction false} AllChargeSplits(vs: seq<Visit>, inline: bool, at: Path, u: set<Path>, visited: set<Pointer>)
    requires UniqueStacksAll(vs, at, visited) <= u && (if inline then at != [] else OpenAt(at, u))
    ensures ChargedInAll(vs, at, u, visited) == ChargedAll(vs, !inline, visited) + UnderAll(vs, inline, at, u, visited)
    decreases vs
  {
    if vs != [] {
      ChargeSplits(vs[0], inline, at, u, visited);
      AllChargeSplits(vs[1..], inline, at, u, After(vs[0], visited));
    }
  }

  lemma {:induction false} RootChargeSplits(roots: seq<seq<Visit>>, u: set<Path>, visited: set<Pointer>)
    requires UniqueStacksRoots(roots, visited) <= u
    ensures ChargedInRoots(roots, u, visited) == ChargedRoots(roots, visited) + UnderRoots(roots, u, visited)
  {
    if roots != [] {
      AllChargeSplits(roots[0], false, [], u, visited);
      RootChargeSplits(roots[1..], u, AfterAll(roots[0], visited));
    }
  }

  // ----- The marks of the arena -----

  lemma {:induction false} ChildNode(ts: Trees, a: TreeId, q: Path, id: TreeId, i: nat)
    requires Downward(ts) && Keyed(ts) && a < |ts| && id < |ts| && NodeAt(ts, a, q) == Some(id) && i < |ts[id].children|
    ensures NodeAt(ts, a, q + [ts[id].children[i].key]) == Some(ts[id].children[i].id)
    decreases q
  {
    var key := ts[id].children[i].key;
    var longer := q + [key];
    if q == [] {
      var f := FindEdge(ts[id].children, key);
      if f != i {
        KeysDiffer(ts, id, f, i);
      }
      assert longer[1..] == [];
    } else {
      assert longer[0] == q[0] && longer[1..] == q[1..] + [key];
      var f := FindEdge(ts[a].children, q[0]);
      ChildNode(ts, ts[a].children[f].id, q[1..], id, i);
    }
  }

  /** Where the marks are those of `u`, so is the charge. */
  lemma {:induction false} MarksCharge(ts: Trees, paths: seq<Path>, u: set<Path>, id: TreeId)
    requires Downward(ts) && Keyed(ts) && Labeled(ts, paths) && id < |ts| == |paths|
    requires (forall q :: UniqueOn(ts, q) <==> q in u) && NodeAt(ts, 0, paths[id]) == Some(id)
    ensures Downward(Flagged(ts, paths, u)) && Charge(Flagged(ts, paths, u), id) == Charge(ts, id)
    decreases |ts| - id
  {
    hide Labeled, Keyed, Charge;
    FlaggedDownward(ts, paths, u);
    var f, es := Flagged(ts, paths, u), ts[id].children;
    assert UniqueOn(ts, paths[id]) <==> ts[id].unique;
    forall i | 0 <= i < |es| ensures id < es[i].id < |ts| && Contribution(f, id, es[i]) == Contribution(ts, id, es[i]) {
      EdgeFacts(ts, paths, id, i);
      ChildNode(ts, 0, paths[id], id, i);
      MarksCharge(ts, paths, u, es[i].id);
    }
    SameEdges(ts, f, id, es);
    ChargeIsEdges(ts, id);
    ChargeIsEdges(f, id);
  }

  // ----- What is oversize -----

  /** What the graph shows at stack `q`: the sizes entered there, less those entered from it unless it
      is a unique pointer's. Nothing is shown at the root. */
  function Shown(roots: seq<seq<Visit>>, q: Path): nat {
    var inside := if MarkedRoots(roots, q, {}) then 0 else InsideRoots(roots, q, {});
    if q == [] || EnteredRoots(roots, q, {}) < inside then 0 else EnteredRoots(roots, q, {}) - inside
  }

  /** Below the root, sizes entered from a stack that no visit enters as a unique pointer are no
      larger than those entered at it. */
  ghost predicate Fits(roots: seq<seq<Visit>>) {
    forall q :: q != [] && !MarkedRoots(roots, q, {}) ==> InsideRoots(roots, q, {}) <= EnteredRoots(roots, q, {})
  }

  /** No warning is given for the node at stack `q` below `id`. */
  ghost predicate Covered(ts: Trees, id: TreeId, q: Path)
    requires Downward(ts) && id < |ts|
  {
    var n := NodeAt(ts, id, q);
    n.Some? && 0 < n.value < |ts| ==> ts[n.value].rem >= 0
  }

  lemma {:induction false} EdgesOversizeIff(ts: Trees, id: TreeId, es: seq<Edge>)
    requires Downward(ts) && Above(ts, id, es)
    ensures OversizeEdges(ts, id, es) == 0 <==> forall i :: 0 <= i < |es| ==> Oversize(ts, es[i].id) == 0
    decreases |es|
  {
    hide Oversize, Downward;
    if es != [] {
      EdgesOversizeIff(ts, id, es[1..]);
      assert forall i :: 1 <= i < |es| ==> es[i] == es[1..][i - 1];
    }
  }

  lemma {:induction false} CoveredThenNone(ts: Trees, id: TreeId)
    requires Downward(ts) && Keyed(ts) && id < |ts| && forall q :: Covered(ts, id, q)
    ensures Oversize(ts, id) == 0
    decreases |ts| - id
  {
    hide Oversize, OversizeEdges, Keyed;
    var es := ts[id].children;
    NodeUnfolds(ts, id);
    assert Covered(ts, id, []);
    forall i | 0 <= i < |es| ensures Oversize(ts, es[i].id) == 0 {
      forall q ensures Covered(ts, es[i].id, q) {
        ChildNode(ts, id, [], id, i);
        var longer := [es[i].key] + q;
        assert longer[1..] == q && [es[i].key][1..] == [];
        assert [] + [es[i].key] == [es[i].key];
        assert Covered(ts, id, longer);
      }
      CoveredThenNone(ts, es[i].id);
    }
    EdgesOversizeIff(ts, id, es);
  }

  lemma {:induction false} NoneThenCovered(ts: Trees, id: TreeId, q: Path)
    requires Downward(ts) && id < |ts| && Oversize(ts, id) == 0
    ensures Covered(ts, id, q)
    decreases q
  {
    hide Oversize, OversizeEdges;
    NodeUnfolds(ts, id);
    if q != [] {
      var es := ts[id].children;
      var i := FindEdge(es, q[0]);
      if i < |es| {
        EdgesOversizeIff(ts, id, es);
        NoneThenCovered(ts, es[i].id, q[1..]);
      }
    }
  }

  /** A settled arena has settled nodes at all stacks, and each is left its own size. */
  lemma {:induction false} SettledAt(ts: Trees, id: TreeId, q: Path)
    requires Downward(ts) && id < |ts| && Settled(ts, id)
    ensures var n := NodeAt(ts, id, q);
            if n.None? then LeftAt(ts, id, q) == 0
            else id + |q| <= n.value < |ts| && ts[n.value].rem == Rem(ts, n.value) && LeftAt(ts, id, q) == Own(ts, n.value).nodeSize
    decreases q
  {
    hide Rem, Own;
    if q != [] {
      var i := FindEdge(ts[id].children, q[0]);
      if i < |ts[id].children| {
        SettledAt(ts, ts[id].children[i].id, q[1..]);
      }
    }
  }

  /** In a settled arena, what a node is left and whether it is oversize follow from the sizes at and
      below its stack. */
  lemma SettledStack(ts: Trees, q: Path)
    requires Downward(ts) && ts != [] && Settled(ts, 0)
    ensures var inside := if UniqueOn(ts, q) then 0 else SizesUnder(ts, q);
            && LeftAt(ts, 0, q) == (if q == [] || SizeOn(ts, q) < inside then 0 else SizeOn(ts, q) - inside)
            && (Covered(ts, 0, q) <==> q == [] || inside <= SizeOn(ts, q))
  {
    hide Settled, Downward;
    SettledAt(ts, 0, q);
  }

  /** The arena of some visits is oversize nowhere exactly when the visits fit. */
  lemma FitsIff(roots: seq<seq<Visit>>, ts: Trees)
    requires Downward(ts) && Keyed(ts) && ts != [] && Settled(ts, 0)
    requires forall q :: SizeOn(ts, q) == EnteredRoots(roots, q, {}) && SizesUnder(ts, q) == InsideRoots(roots, q, {})
    requires forall q :: UniqueOn(ts, q) <==> MarkedRoots(roots, q, {})
    ensures Oversize(ts, 0) == 0 <==> Fits(roots)
    ensures forall q :: LeftAt(ts, 0, q) == Shown(roots, q)
  {
    hide Downward, Keyed, Settled, SizeOn, SizesUnder, UniqueOn, Covered, Oversize, LeftAt;
    hide EnteredRoots, InsideRoots, MarkedRoots;
    forall q ensures LeftAt(ts, 0, q) == Shown(roots, q) {
      SettledStack(ts, q);
    }
    if Oversize(ts, 0) == 0 {
      forall q | q != [] && !MarkedRoots(roots, q, {}) ensures InsideRoots(roots, q, {}) <= EnteredRoots(roots, q, {}) {
        NoneThenCovered(ts, 0, q);
        SettledStack(ts, q);
      }
    }
    if Fits(roots) {
      forall q ensures Covered(ts, 0, q) {
        SettledStack(ts, q);
      }
      CoveredThenNone(ts, 0);
    }
  }

  // ----- Conservation -----

  /** Whatever is visited, the arena is charged the sizes entered under the root, unique pointers and
      first-visited shared pointees, plus those entered under an inline visitor at a stack that is
      also entered as a unique pointer. */
  lemma VisitsCharge(roots: seq<seq<Visit>>)
    ensures VisitRoots(FRESH, roots).Some? && Idle(VisitRoots(FRESH, roots).value)
    ensures Charge(VisitRoots(FRESH, roots).value.trees, 0) == ChargedRoots(roots, {}) + UnderBoth(roots)
  {
    hide Charge, Labeled, Chain;
    var u := UniqueStacksRoots(roots, {});
    FreshShape(u);
    var paths := RootsEnter(FRESH, [[]], roots, [], u);
    var ts := VisitRoots(FRESH, roots).value.trees;
    NamedAll(ts, paths);
    forall q ensures UniqueOn(ts, q) <==> q in u {
      SizesByStack(roots, q);
      RootStacksAreMarked(roots, q, {});
    }
    MarksCharge(ts, paths, u, 0);
    RootChargeSplits(roots, u, {});
  }

  lemma FreshShape(u: set<Path>)
    ensures Idle(FRESH) && Shape(FRESH.(entered := true), [[]]) && ChargeIn(FRESH.trees, [[]], u) == 0
  {
    var f := Flagged(FRESH.trees, [[]], u);
    NothingCharged(f, 0);
    ChargeIsEdges(f, 0);
  }

  /** So the arena is charged what was visited exactly when nothing lies under such a stack. */
  lemma ChargeIsVisitedIff(roots: seq<seq<Visit>>)
    ensures VisitRoots(FRESH, roots).Some? && Idle(VisitRoots(FRESH, roots).value)
    ensures Charge(VisitRoots(FRESH, roots).value.trees, 0) == ChargedRoots(roots, {}) <==> UnderBoth(roots) == 0
  {
    VisitsCharge(roots);
  }

  /** One stack entered inline and then as a unique pointer: what was inside it the first time is
      charged on top. */
  lemma InlineAndUnique() returns (roots: seq<seq<Visit>>)
    ensures ChargedRoots(roots, {}) == 18 && UnderBoth(roots) == 4
    ensures VisitRoots(FRESH, roots).Some? && Idle(VisitRoots(FRESH, roots).value)
    ensures Charge(VisitRoots(FRESH, roots).value.trees, 0) == 22
  {
    var inner := Inline("b", 4, []);
    var first, second := Inline("a", 10, [inner]), Unique("a", 8, []);
    roots := [[first, second]];
    VisitsCharge(roots);
    hide Charge, VisitRoots;
    assert roots[0][1..] == [second] && [second][1..] == [] && [inner][1..] == [] && roots[1..] == [];
    assert ChargedAll([inner], false, {}) == 0 && AfterAll([inner], {}) == {};
    assert ChargedAll([second], true, {}) == 8;
    assert ChargedAll(roots[0], true, {}) == 18;
    assert ChargedRoots([], AfterAll(roots[0], {})) == 0;
    TwoUnder(inner, first, second, roots);
  }

  lemma TwoUnder(inner: Visit, first: Visit, second: Visit, roots: seq<seq<Visit>>)
    requires inner == Inline("b", 4, []) && first == Inline("a", 10, [inner]) && second == Unique("a", 8, [])
    requires roots == [[first, second]]
    ensures UnderBoth(roots) == 4
  {
    var at: Path := [] + ["a"];
    assert at == ["a"];
    assert roots[0][1..] == [second] && [second][1..] == [] && [inner][1..] == [] && roots[1..] == [];
    assert AfterAll([inner], {}) == {};
    assert UniqueStacksAll([inner], at, {}) == {} && UniqueStacks(first, [], {}) == {};
    assert UniqueStacks(second, [], {}) == {at};
    assert UniqueStacksAll([second], [], {}) == {at};
    assert UniqueStacksAll(roots[0], [], {}) == {at};
    var u := UniqueStacksRoots(roots, {});
    assert UniqueStacksRoots([], AfterAll(roots[0], {})) == {};
    assert u == {at};
    assert UnderAll([inner], true, at, u, {}) == 4;
    assert Under(first, false, [], u, {}) == 4;
    assert UnderAll([second], false, [], u, {}) == 0;
    assert UnderAll(roots[0], false, [], u, {}) == 4;
    assert UnderRoots([], u, AfterAll(roots[0], {})) == 0;
  }
}
