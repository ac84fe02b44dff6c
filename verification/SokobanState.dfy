/** Search states of the reverse search: sorted boxes plus a canonical player cell. */
module SokobanState {
  import opened SokobanGrid

  datatype State = State(boxes: seq<Cell>, playerRegion: Cell)

  function BoxSet(boxes: seq<Cell>): set<Cell> {
    set b | b in boxes
  }

  predicate Distinct(boxes: seq<Cell>) {
    forall i, j :: 0 <= i < j < |boxes| ==> boxes[i] != boxes[j]
  }

  lemma {:induction false} DistinctIffCard(s: seq<Cell>)
    ensures |BoxSet(s)| <= |s| && (Distinct(s) <==> |BoxSet(s)| == |s|)
  {
    if s != [] {
      var t := s[1..];
      DistinctIffCard(t);
      assert BoxSet(s) == BoxSet(t) + {s[0]};
      assert Distinct(s) <==> Distinct(t) && s[0] !in t by {
        assert forall i :: 0 <= i < |t| ==> t[i] == s[i + 1];
        if Distinct(t) && s[0] !in t {
          forall i, j | 0 <= i < j < |s| ensures s[i] != s[j] {
            assert s[j] == t[j - 1] && (i > 0 ==> s[i] == t[i - 1]);
          }
        }
      }
    }
  }

  // ----- Regions -----

  /** Order of the top-left-most cell: row first, then column. */
  predicate RowBefore(a: Cell, b: Cell) {
    a.y < b.y || (a.y == b.y && a.x < b.x)
  }

  /** `r` is the top-left-most cell that a player at `p` can walk to. */
  ghost predicate IsCorner(g: Grid, boxes: set<Cell>, p: Cell, r: Cell)
    requires g.Rectangular()
  {
    Reach(g, boxes, p, r) && forall c :: Reach(g, boxes, p, c) ==> !RowBefore(c, r)
  }

  ghost function Region(g: Grid, boxes: set<Cell>, p: Cell): (s: set<Cell>)
    requires g.Rectangular()
    ensures forall c :: c in s <==> Reach(g, boxes, p, c)
  {
    var all := g.Cells() + {p};
    ClosedHoldsReach(g, boxes, all, p);
    set c | c in all && Reach(g, boxes, p, c)
  }

  lemma {:induction false} LeastCell(s: set<Cell>) returns (r: Cell)
    requires s != {}
    ensures r in s && forall c :: c in s ==> !RowBefore(c, r)
    decreases |s|
  {
    var first :| first in s;
    r := first;
    if s != {first} {
      var q := LeastCell(s - {first});
      if RowBefore(q, first) {
        r := q;
      }
      assert forall c :: c in s ==> c == first || c in s - {first};
    }
  }

  ghost function Corner(g: Grid, boxes: set<Cell>, p: Cell): (r: Cell)
    requires g.Rectangular()
    ensures IsCorner(g, boxes, p, r)
  {
    assert exists r :: IsCorner(g, boxes, p, r) by {
      ReachRefl(g, boxes, p);
      assert p in Region(g, boxes, p);
      var r := LeastCell(Region(g, boxes, p));
      assert IsCorner(g, boxes, p, r);
    }
    var r :| IsCorner(g, boxes, p, r);
    r
  }

  /** The corner identifies the region: equal exactly for mutually reachable players. */
  lemma CornerEqualIffReach(g: Grid, boxes: set<Cell>, p: Cell, q: Cell)
    requires g.Rectangular() && Free(g, boxes, p) && Free(g, boxes, q)
    ensures Corner(g, boxes, p) == Corner(g, boxes, q) <==> Reach(g, boxes, p, q)
  {
    var r := Corner(g, boxes, p);
    if Corner(g, boxes, q) == r {
      ReachSym(g, boxes, q, r);
      ReachTrans(g, boxes, p, r, q);
    }
    if Reach(g, boxes, p, q) {
      var t := Corner(g, boxes, q);
      ReachTrans(g, boxes, p, q, t);
      ReachSym(g, boxes, p, q);
      ReachTrans(g, boxes, q, p, r);
      assert !RowBefore(t, r) && !RowBefore(r, t);
    }
  }

  // ----- Breadth-first walking -----

  /** The neighbour loop shared by every flood fill of the generator. */
  method Spread(g: Grid, boxes: set<Cell>, c: Cell, visited: set<Cell>, queue: seq<Cell>)
    returns (visited': set<Cell>, queue': seq<Cell>)
    requires g.Rectangular()
    ensures visited <= visited' && queue <= queue'
    ensures forall d: Dir {:trigger Next(c, d)} :: Free(g, boxes, Next(c, d)) ==> Next(c, d) in visited'
    ensures forall n :: n in visited' && n !in visited ==>
              n in queue' && exists d: Dir :: n == Next(c, d) && Free(g, boxes, n)
    ensures forall n :: n in queue' ==> n in queue || (n in visited' && n !in visited)
    ensures visited' == visited ==> queue' == queue
    ensures |visited'| - |visited| == |queue'| - |queue|
  {
    visited', queue' := visited, queue;
    for i := 0 to |DIRS|
      invariant visited <= visited' && queue <= queue'
      invariant forall j :: 0 <= j < i ==> (Free(g, boxes, Next(c, DIRS[j])) ==> Next(c, DIRS[j]) in visited')
      invariant forall n :: n in visited' && n !in visited ==>
                  n in queue' && exists d: Dir :: n == Next(c, d) && Free(g, boxes, n)
      invariant forall n :: n in queue' ==> n in queue || (n in visited' && n !in visited)
      invariant visited' == visited ==> queue' == queue
      invariant |visited'| - |visited| == |queue'| - |queue|
    {
      var np := Next(c, DIRS[i]);
      if np.x >= 0 && np.y >= 0 {
        if !g.IsWall(np.x, np.y) && np !in boxes && np !in visited' {
          visited' := visited' + {np};
          queue' := queue' + [np];
        }
      }
    }
    assert DIRS[0] == Up && DIRS[1] == Down && DIRS[2] == Left && DIRS[3] == Right;
  }

  /** A flood fill under way: what it saw beyond `seen` is reachable, and is in the region or still
      queued; neighbours of the region have been seen. */
  ghost predicate Flooding(g: Grid, boxes: set<Cell>, start: Cell, seen: set<Cell>,
                           now: set<Cell>, region: seq<Cell>, queue: seq<Cell>)
    requires g.Rectangular()
  {
    && seen <= now && start in now && start !in seen
    && (forall c :: c in now && c !in seen ==> Reach(g, boxes, start, c) && (c in region || c in queue))
    && (forall c :: c in queue || c in region ==> c in now && c !in seen)
    && (forall c, d {:trigger Next(c, d)} :: c in region && Free(g, boxes, Next(c, d)) ==> Next(c, d) in now)
  }

  /** With nothing queued, the region is all that can be reached. */
  lemma FloodEnds(g: Grid, boxes: set<Cell>, start: Cell, seen: set<Cell>, now: set<Cell>, region: seq<Cell>)
    requires g.Rectangular() && Flooding(g, boxes, start, seen, now, region, [])
    requires forall c :: Reach(g, boxes, start, c) ==> c !in seen
    ensures forall c :: c in region <==> Reach(g, boxes, start, c)
    ensures now == seen + Region(g, boxes, start)
  {
    hide Reach;
    var found := now - seen;
    assert Closed(g, boxes, found) by {
      forall c, d {:trigger Next(c, d)} | c in found && Free(g, boxes, Next(c, d))
        ensures Next(c, d) in found
      {
        ReachStep(g, boxes, start, c, d);
      }
    }
    ClosedHoldsReach(g, boxes, found, start);
    assert found == Region(g, boxes, start);
  }

  lemma FloodSpreads(g: Grid, boxes: set<Cell>, start: Cell, seen: set<Cell>, now: set<Cell>, region: seq<Cell>,
                     queue: seq<Cell>, now': set<Cell>, queue': seq<Cell>)
    requires g.Rectangular() && queue != [] && Flooding(g, boxes, start, seen, now, region, queue)
    requires now <= now' && queue[1..] <= queue'
    requires forall d: Dir {:trigger Next(queue[0], d)} :: Free(g, boxes, Next(queue[0], d)) ==> Next(queue[0], d) in now'
    requires forall n :: n in now' && n !in now ==>
               n in queue' && exists d: Dir :: n == Next(queue[0], d) && Free(g, boxes, n)
    requires forall n :: n in queue' ==> n in queue[1..] || (n in now' && n !in now)
    ensures Flooding(g, boxes, start, seen, now', region + [queue[0]], queue')
  {
    hide Reach;
    var c := queue[0];
    assert queue == [c] + queue[1..];
    forall n | n in now' && n !in now
      ensures Reach(g, boxes, start, n)
    {
      var d: Dir :| n == Next(c, d) && Free(g, boxes, n);
      ReachStep(g, boxes, start, c, d);
    }
  }

  /** The cells walkable from `start`, in visiting order; `seen` holds regions already explored. */
  method Flood(g: Grid, boxes: set<Cell>, start: Cell, seen: set<Cell>)
    returns (region: seq<Cell>, seen': set<Cell>)
    requires g.Rectangular()
    requires forall c :: Reach(g, boxes, start, c) ==> c !in seen
    ensures forall c :: c in region <==> Reach(g, boxes, start, c)
    ensures forall c :: c in seen' <==> c in seen || Reach(g, boxes, start, c)
    ensures |region| == |Region(g, boxes, start)|
  {
    hide Reach;
    region := [];
    seen' := seen + {start};
    var queue := [start];
    ReachRefl(g, boxes, start);
    assert Flooding(g, boxes, start, seen, seen', region, queue);
    hide Flooding;
    while queue != []
      invariant Flooding(g, boxes, start, seen, seen', region, queue)
      invariant |seen'| == |seen| + |region| + |queue|
      decreases (g.Cells() + {start}) - seen', |queue|
    {
      var c := queue[0];
      ghost var before, waiting := seen', queue;
      queue := queue[1..];
      seen', queue := Spread(g, boxes, c, seen', queue);
      FloodSpreads(g, boxes, start, seen, before, region, waiting, seen', queue);
      region := region + [c];
      if seen' != before {
        var n :| n in seen' && n !in before;
        assert n in (g.Cells() + {start}) - before;
      }
    }
    FloodEnds(g, boxes, start, seen, seen', region);
    assert |seen'| == |seen| + |Region(g, boxes, start)|;
  }

  /** `normalize_player`: the flood fill that keeps the top-left-most cell it pops. */
  method NormalizePlayer(g: Grid, player: Cell, boxes: set<Cell>) returns (best: Cell)
    requires g.Rectangular()
    ensures best == Corner(g, boxes, player)
  {
    hide Reach;
    var visited := {player};
    var queue := [player];
    best := player;
    ReachRefl(g, boxes, player);
    while queue != []
      invariant player in visited && best in visited
      invariant forall c :: c in visited ==> Reach(g, boxes, player, c)
      invariant forall c :: c in queue ==> c in visited
      invariant forall c, d {:trigger Next(c, d)} ::
                  c in visited && c !in queue && Free(g, boxes, Next(c, d)) ==> Next(c, d) in visited
      invariant forall c :: c in visited && c !in queue ==> !RowBefore(c, best)
      decreases (g.Cells() + {player}) - visited, |queue|
    {
      var c := queue[0];
      ghost var rest := queue[1..];
      assert forall e :: e in queue ==> e == c || e in rest;
      queue := queue[1..];
      if RowBefore(c, best) {
        best := c;
      }
      ghost var before := visited;
      visited, queue := Spread(g, boxes, c, visited, queue);
      forall n | n in visited && n !in before
        ensures Reach(g, boxes, player, n)
      {
        var d: Dir :| n == Next(c, d) && Free(g, boxes, n);
        ReachStep(g, boxes, player, c, d);
      }
      if visited != before {
        var n :| n in visited && n !in before;
        assert n in (g.Cells() + {player}) - before;
      }
    }
    assert Closed(g, boxes, visited);
    ClosedHoldsReach(g, boxes, visited, player);
    assert IsCorner(g, boxes, player, best);
  }

  // ----- Canonical states -----

  /** The order of a pair: column first, then row. */
  predicate PairLeq(a: Cell, b: Cell) {
    a.x < b.x || (a.x == b.x && a.y <= b.y)
  }

  predicate Sorted(s: seq<Cell>) {
    forall i, j :: 0 <= i < j < |s| ==> PairLeq(s[i], s[j])
  }

  function Insert(c: Cell, s: seq<Cell>): (r: seq<Cell>)
    ensures multiset(r) == multiset(s) + multiset{c}
  {
    if s == [] then [c]
    else if PairLeq(c, s[0]) then [c] + s
    else
      assert s == [s[0]] + s[1..];
      [s[0]] + Insert(c, s[1..])
  }

  lemma {:induction false} InsertSorted(c: Cell, s: seq<Cell>)
    requires Sorted(s)
    ensures Sorted(Insert(c, s))
  {
    if s != [] && !PairLeq(c, s[0]) {
      var t := Insert(c, s[1..]);
      InsertSorted(c, s[1..]);
      forall i | 0 <= i < |t| ensures PairLeq(s[0], t[i]) {
        assert t[i] in multiset(s[1..]) + multiset{c};
      }
    }
  }

  /** The sorted arrangement of the same cells. */
  function Sort(s: seq<Cell>): (r: seq<Cell>)
    ensures Sorted(r) && multiset(r) == multiset(s)
  {
    if s == [] then []
    else
      assert s == [s[0]] + s[1..];
      InsertSorted(s[0], Sort(s[1..]));
      Insert(s[0], Sort(s[1..]))
  }

  lemma SortKeepsCells(s: seq<Cell>)
    ensures BoxSet(Sort(s)) == BoxSet(s) && |Sort(s)| == |s|
  {
    assert forall b :: b in s <==> b in multiset(s);
    assert forall b :: b in Sort(s) <==> b in multiset(Sort(s));
    assert |multiset(s)| == |s| && |multiset(Sort(s))| == |Sort(s)|;
  }

  lemma {:induction false} SortedUnique(a: seq<Cell>, b: seq<Cell>)
    requires Sorted(a) && Sorted(b) && multiset(a) == multiset(b)
    ensures a == b
  {
    if a == [] {
      assert |multiset(b)| == 0;
    } else {
      assert a[0] in multiset(a) && |multiset(b)| > 0;
      assert a[0] in b;
      assert b[0] in multiset(b);
      assert b[0] in a;
      assert a[0] == b[0];
      assert a == [a[0]] + a[1..] && b == [b[0]] + b[1..];
      assert multiset(a[1..]) == multiset(a) - multiset{a[0]};
      assert multiset(b[1..]) == multiset(b) - multiset{b[0]};
      SortedUnique(a[1..], b[1..]);
    }
  }

  ghost function MakeStateSpec(g: Grid, boxes: seq<Cell>, player: Cell): State
    requires g.Rectangular()
  {
    State(Sort(boxes), Corner(g, BoxSet(boxes), player))
  }

  method MakeState(g: Grid, boxes: seq<Cell>, player: Cell) returns (s: State)
    requires g.Rectangular()
    ensures s == MakeStateSpec(g, boxes, player)
  {
    var sorted := Sort(boxes);
    var boxSet := BoxSet(sorted);
    SortKeepsCells(boxes);
    var pr := NormalizePlayer(g, player, boxSet);
    s := State(sorted, pr);
  }

  /** Two positions get the same state exactly when they hold the same boxes and either
      player can walk to the other. */
  lemma StatesEqualIff(g: Grid, bs: seq<Cell>, p: Cell, cs: seq<Cell>, q: Cell)
    requires g.Rectangular() && Free(g, BoxSet(bs), p) && Free(g, BoxSet(cs), q)
    ensures MakeStateSpec(g, bs, p) == MakeStateSpec(g, cs, q) <==>
            multiset(bs) == multiset(cs) && Reach(g, BoxSet(bs), p, q)
  {
    if multiset(bs) == multiset(cs) {
      SortedUnique(Sort(bs), Sort(cs));
      assert forall b :: b in bs <==> b in multiset(bs);
      assert forall b :: b in cs <==> b in multiset(cs);
      assert BoxSet(bs) == BoxSet(cs);
      CornerEqualIffReach(g, BoxSet(bs), p, q);
    } else {
      assert multiset(Sort(bs)) != multiset(Sort(cs));
    }
  }
}
