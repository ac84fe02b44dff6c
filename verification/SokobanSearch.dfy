/** The reverse search over box-line pulls, and why every level it yields is solvable. */
module SokobanSearch {
  import opened Options
  import opened SokobanGrid
  import opened SokobanState
  import opened Layers

  // ----- One box line -----

  /** The box at `b` can be pulled `k` cells towards `d`: the cells it crosses and the cell
      the player ends on are all free. */
  ghost predicate PullFree(g: Grid, boxes: set<Cell>, b: Cell, d: Dir, k: nat)
    requires g.Rectangular()
  {
    forall j :: 1 <= j <= k + 1 ==> Free(g, boxes, Shift(b, d, j))
  }

  ghost predicate IsLine(g: Grid, s: State, i: nat, d: Dir, k: nat)
    requires g.Rectangular()
  {
    && i < |s.boxes| && 1 <= k
    && Reach(g, BoxSet(s.boxes), s.playerRegion, Next(s.boxes[i], d))
    && PullFree(g, BoxSet(s.boxes), s.boxes[i], d, k)
  }

  ghost function LineEnd(g: Grid, s: State, i: nat, d: Dir, k: nat): State
    requires g.Rectangular() && i < |s.boxes|
  {
    MakeStateSpec(g, s.boxes[i := Shift(s.boxes[i], d, k)], Shift(s.boxes[i], d, k + 1))
  }

  ghost predicate PullsBox(g: Grid, s: State, i: nat, d: Dir, t: State)
    requires g.Rectangular()
  {
    exists k: nat :: IsLine(g, s, i, d, k) && t == LineEnd(g, s, i, d, k)
  }

  /** `t` arises from `s` by pulling one box along one line. */
  ghost predicate Pulls(g: Grid, s: State, t: State)
    requires g.Rectangular()
  {
    exists i: nat, d: Dir :: i < |s.boxes| && PullsBox(g, s, i, d, t)
  }

  ghost predicate ValidState(g: Grid, s: State)
    requires g.Rectangular()
  {
    && Distinct(s.boxes)
    && (forall b :: b in s.boxes ==> g.Open(b))
    && Free(g, BoxSet(s.boxes), s.playerRegion)
  }

  lemma BoxSetUpdate(boxes: seq<Cell>, i: nat, c: Cell)
    requires Distinct(boxes) && i < |boxes| && c !in boxes
    ensures BoxSet(boxes[i := c]) == BoxSet(boxes) - {boxes[i]} + {c}
    ensures Distinct(boxes[i := c])
  {
    var cs := boxes[i := c];
    forall b | b in BoxSet(boxes) - {boxes[i]} ensures b in BoxSet(cs) {
      var j :| 0 <= j < |boxes| && boxes[j] == b;
      assert cs[j] == b;
    }
    assert cs[i] == c;
  }

  lemma MakeStateValid(g: Grid, boxes: seq<Cell>, p: Cell)
    requires g.Rectangular() && Distinct(boxes) && (forall b :: b in boxes ==> g.Open(b))
    requires Free(g, BoxSet(boxes), p)
    ensures var s := MakeStateSpec(g, boxes, p);
            ValidState(g, s) && BoxSet(s.boxes) == BoxSet(boxes) && |s.boxes| == |boxes|
            && Reach(g, BoxSet(boxes), s.playerRegion, p)
  {
    var s := MakeStateSpec(g, boxes, p);
    SortKeepsCells(boxes);
    DistinctIffCard(boxes);
    DistinctIffCard(s.boxes);
    assert forall b :: b in s.boxes ==> b in BoxSet(s.boxes);
    ReachSym(g, BoxSet(boxes), p, s.playerRegion);
  }

  lemma PullsKeepsValid(g: Grid, s: State, i: nat, d: Dir, k: nat)
    requires g.Rectangular() && ValidState(g, s) && IsLine(g, s, i, d, k)
    ensures var t := LineEnd(g, s, i, d, k);
            var b := s.boxes[i];
            && ValidState(g, t) && |t.boxes| == |s.boxes|
            && BoxSet(t.boxes) == BoxSet(s.boxes) - {b} + {Shift(b, d, k)}
            && Reach(g, BoxSet(t.boxes), t.playerRegion, Shift(b, d, k + 1))
  {
    var b := s.boxes[i];
    assert Free(g, BoxSet(s.boxes), Shift(b, d, k)) && Free(g, BoxSet(s.boxes), Shift(b, d, k + 1));
    BoxSetUpdate(s.boxes, i, Shift(b, d, k));
    ShiftNext(b, d, k + 1);
    var cs := s.boxes[i := Shift(b, d, k)];
    assert forall c :: c in cs ==> c == Shift(b, d, k) || c in s.boxes;
    MakeStateValid(g, cs, Shift(b, d, k + 1));
  }

  lemma PulledStateValid(g: Grid, s: State, t: State)
    requires g.Rectangular() && ValidState(g, s) && Pulls(g, s, t)
    ensures ValidState(g, t) && |t.boxes| == |s.boxes|
  {
    var i: nat, d: Dir :| i < |s.boxes| && PullsBox(g, s, i, d, t);
    var k: nat :| IsLine(g, s, i, d, k) && t == LineEnd(g, s, i, d, k);
    PullsKeepsValid(g, s, i, d, k);
  }

  // ----- Pulls are undone by pushes -----

  /** Pushing `k` times against `d` brings a box pulled `k` cells back to `b`. */
  lemma {:induction false} PushesUndoPull(g: Grid, boxes: set<Cell>, b: Cell, d: Dir, k: nat) returns (ds: seq<Dir>)
    requires g.Rectangular() && b in boxes && g.Open(b) && PullFree(g, boxes, b, d, k)
    ensures Play(g, Config(boxes - {b} + {Shift(b, d, k)}, Shift(b, d, k + 1)), ds)
            == Some(Config(boxes, Shift(b, d, 1)))
    ensures ds == Repeat(d.Opposite(), k)
    decreases k
  {
    ShiftNext(b, d, k);
    if k == 0 {
      ds := [];
      assert boxes - {b} + {Shift(b, d, 0)} == boxes;
    } else {
      ShiftNext(b, d, k + 1);
      ShiftNext(b, d, k - 1);
      var rest := PushesUndoPull(g, boxes, b, d, k - 1);
      var o := d.Opposite();
      var c := Config(boxes - {b} + {Shift(b, d, k)}, Shift(b, d, k + 1));
      var n := Config(boxes - {b} + {Shift(b, d, k - 1)}, Shift(b, d, k));
      assert Free(g, boxes, Shift(b, d, k));
      assert Free(g, c.boxes, Shift(b, d, k - 1)) by {
        if k > 1 {
          assert Free(g, boxes, Shift(b, d, k - 1));
        } else {
          ShiftNext(b, d, 0);
        }
      }
      assert c.boxes - {Shift(b, d, k)} + {Shift(b, d, k - 1)} == n.boxes;
      assert Move(g, c, o) == Some(n);
      ds := [o] + rest;
    }
  }

  lemma PulledStateSolvable(g: Grid, s: State, t: State, goals: set<Cell>)
    requires g.Rectangular() && ValidState(g, s) && Pulls(g, s, t)
    requires Solvable(g, Config(BoxSet(s.boxes), s.playerRegion), goals)
    ensures Solvable(g, Config(BoxSet(t.boxes), t.playerRegion), goals)
  {
    var i: nat, d: Dir :| i < |s.boxes| && PullsBox(g, s, i, d, t);
    var k: nat :| IsLine(g, s, i, d, k) && t == LineEnd(g, s, i, d, k);
    PullsKeepsValid(g, s, i, d, k);
    var b := s.boxes[i];
    var boxes := BoxSet(s.boxes);
    ShiftNext(b, d, 0);
    ReachSym(g, boxes, s.playerRegion, Shift(b, d, 1));
    SolvableAfterWalk(g, boxes, Shift(b, d, 1), s.playerRegion, goals);
    var ds := PushesUndoPull(g, boxes, b, d, k);
    SolvableAfterPlay(g, Config(BoxSet(t.boxes), Shift(b, d, k + 1)), ds, goals);
    SolvableAfterWalk(g, BoxSet(t.boxes), t.playerRegion, Shift(b, d, k + 1), goals);
  }

  // ----- Layers -----

  /** A solved position with the player anywhere it can stand. */
  ghost predicate StartState(g: Grid, goals: seq<Cell>, s: State)
    requires g.Rectangular()
  {
    exists p :: Free(g, BoxSet(goals), p) && s == MakeStateSpec(g, goals, p)
  }

  ghost function Solved(g: Grid, goals: seq<Cell>): State -> bool {
    s => g.Rectangular() && StartState(g, goals, s)
  }

  ghost function Pulled(g: Grid): (State, State) -> bool {
    (s, t) => g.Rectangular() && Pulls(g, s, t)
  }

  ghost predicate GoalsOk(g: Grid, goals: seq<Cell>) {
    g.WellFormed() && Distinct(goals) && forall c :: c in goals ==> g.Open(c)
  }

  /** What every search state satisfies: as many boxes as goals, and a solution. */
  ghost predicate GoodState(g: Grid, goals: seq<Cell>, s: State)
    requires g.Rectangular()
  {
    && ValidState(g, s) && |s.boxes| == |goals|
    && Solvable(g, Config(BoxSet(s.boxes), s.playerRegion), BoxSet(goals))
  }

  lemma StartGood(g: Grid, goals: seq<Cell>, s: State)
    requires GoalsOk(g, goals) && StartState(g, goals, s)
    ensures GoodState(g, goals, s)
  {
    var p :| Free(g, BoxSet(goals), p) && s == MakeStateSpec(g, goals, p);
    MakeStateValid(g, goals, p);
    assert Play(g, Config(BoxSet(s.boxes), s.playerRegion), []).Some?;
  }

  lemma PulledGood(g: Grid, goals: seq<Cell>, s: State, t: State)
    requires g.Rectangular() && GoodState(g, goals, s) && Pulls(g, s, t)
    ensures GoodState(g, goals, t)
  {
    PulledStateValid(g, s, t);
    PulledStateSolvable(g, s, t, BoxSet(goals));
  }

  /** Every state any number of box lines away from a solved position can be solved by
      walking and pushing. */
  lemma LinesFromSolvable(g: Grid, goals: seq<Cell>, n: nat, s: State)
    requires GoalsOk(g, goals) && After(Solved(g, goals), Pulled(g), n, s)
    ensures GoodState(g, goals, s)
  {
    var good: State -> bool := t => g.Rectangular() && GoodState(g, goals, t);
    forall t | Solved(g, goals)(t) ensures good(t) {
      StartGood(g, goals, t);
    }
    forall t, u | good(t) && Pulled(g)(t, u) ensures good(u) {
      PulledGood(g, goals, t, u);
    }
    Invariance(Solved(g, goals), Pulled(g), good, n, s);
    assert good(s);
  }

  // ----- The search -----

  /** The states at which pulling box `i` towards `d` can stop, once the player stands beside it. */
  ghost predicate LineEnds(g: Grid, s: State, i: nat, d: Dir, ends: set<State>)
    requires g.Rectangular() && i < |s.boxes|
  {
    forall t :: t in ends <==>
      exists k: nat :: 1 <= k && PullFree(g, BoxSet(s.boxes), s.boxes[i], d, k) && t == LineEnd(g, s, i, d, k)
  }

  /** The pull loop: one state per cell the box can be pulled to, once the player stands
      beside it. */
  method PullLine(g: Grid, s: State, boxSet: set<Cell>, i: nat, d: Dir) returns (ends: set<State>)
    requires g.Rectangular() && i < |s.boxes| && boxSet == BoxSet(s.boxes)
    requires Free(g, boxSet, Next(s.boxes[i], d))
    ensures LineEnds(g, s, i, d, ends)
  {
    hide MakeStateSpec, PullFree, Shift, Next, LineEnds, Free, Blocked, EndsUpTo, LineEnd, BoxSet;
    ends := {};
    var b := s.boxes[i];
    var curBox := b;
    var curPlayer := Next(b, d);
    LineStarts(g, s, boxSet, i, d);
    ghost var k: nat := 0;
    while true
      invariant curBox == Shift(b, d, k) && curPlayer == Shift(b, d, k + 1)
      invariant PullFree(g, boxSet, b, d, k)
      invariant ends == EndsUpTo(g, s, i, d, k)
      decreases g.width + g.height - k
    {
      LineSoFar(g, boxSet, b, d, k);
      var newBox := curPlayer;
      var newPlayer := Next(curPlayer, d);
      BlockedIff(g, boxSet, newBox, newPlayer, curBox);
      if Blocked(g, boxSet, newBox, newPlayer, curBox) {
        break;
      }
      curBox := newBox;
      curPlayer := newPlayer;
      LineGrows(g, boxSet, b, d, k);
      k := k + 1;
      var newBoxes := s.boxes[i := curBox];
      var ns := MakeState(g, newBoxes, curPlayer);
      LineStep(g, s, i, d, k);
      ends := ends + {ns};
    }
    EndsUpToHolds(g, s, i, d, k);
  }

  /** The checks before each pull: the player must not leave the board, enter a wall or another box,
      nor the box another box. */
  predicate Blocked(g: Grid, boxSet: set<Cell>, newBox: Cell, newPlayer: Cell, curBox: Cell)
    requires g.Rectangular()
  {
    || newPlayer.x < 0 || newPlayer.y < 0 || g.IsWall(newPlayer.x, newPlayer.y)
    || (newPlayer in boxSet && newPlayer != curBox)
    || (newBox in boxSet && newBox != curBox)
  }

  lemma BlockedIff(g: Grid, boxSet: set<Cell>, newBox: Cell, newPlayer: Cell, curBox: Cell)
    requires g.Rectangular() && Free(g, boxSet, newBox) && newPlayer != curBox
    ensures Blocked(g, boxSet, newBox, newPlayer, curBox) <==> !Free(g, boxSet, newPlayer)
  {
  }

  lemma LineStarts(g: Grid, s: State, boxSet: set<Cell>, i: nat, d: Dir)
    requires g.Rectangular() && i < |s.boxes| && Free(g, boxSet, Next(s.boxes[i], d))
    ensures PullFree(g, boxSet, s.boxes[i], d, 0) && EndsUpTo(g, s, i, d, 0) == {}
    ensures Shift(s.boxes[i], d, 0) == s.boxes[i] && Shift(s.boxes[i], d, 1) == Next(s.boxes[i], d)
  {
    ShiftNext(s.boxes[i], d, 0);
  }

  lemma LineStep(g: Grid, s: State, i: nat, d: Dir, k: nat)
    requires g.Rectangular() && i < |s.boxes| && k > 0
    ensures EndsUpTo(g, s, i, d, k) == EndsUpTo(g, s, i, d, k - 1)
              + {MakeStateSpec(g, s.boxes[i := Shift(s.boxes[i], d, k)], Shift(s.boxes[i], d, k + 1))}
  {
  }

  lemma LineSoFar(g: Grid, boxes: set<Cell>, b: Cell, d: Dir, k: nat)
    requires g.Rectangular() && PullFree(g, boxes, b, d, k)
    ensures Free(g, boxes, Shift(b, d, k + 1)) && k < g.width + g.height
    ensures Next(Shift(b, d, k + 1), d) == Shift(b, d, k + 2) != Shift(b, d, k)
  {
    assert Free(g, boxes, Shift(b, d, 1)) && Free(g, boxes, Shift(b, d, k + 1));
    LineInGrid(g, b, d, k);
  }

  lemma LineGrows(g: Grid, boxes: set<Cell>, b: Cell, d: Dir, k: nat)
    requires g.Rectangular() && PullFree(g, boxes, b, d, k) && Free(g, boxes, Shift(b, d, k + 2))
    ensures PullFree(g, boxes, b, d, k + 1)
  {
    hide Free;
  }

  /** The states after one, two, ... `k` pulls of the line. */
  ghost function EndsUpTo(g: Grid, s: State, i: nat, d: Dir, k: nat): set<State>
    requires g.Rectangular() && i < |s.boxes|
  {
    if k == 0 then {} else EndsUpTo(g, s, i, d, k - 1) + {LineEnd(g, s, i, d, k)}
  }

  lemma {:induction false} EndsUpToIff(g: Grid, s: State, i: nat, d: Dir, k: nat, t: State)
    requires g.Rectangular() && i < |s.boxes|
    ensures t in EndsUpTo(g, s, i, d, k) <==> exists m: nat :: 1 <= m <= k && t == LineEnd(g, s, i, d, m)
    decreases k
  {
    hide LineEnd;
    if k > 0 {
      EndsUpToIff(g, s, i, d, k - 1, t);
    }
  }

  lemma EndsUpToHolds(g: Grid, s: State, i: nat, d: Dir, k: nat)
    requires g.Rectangular() && i < |s.boxes|
    requires PullFree(g, BoxSet(s.boxes), s.boxes[i], d, k)
    requires !Free(g, BoxSet(s.boxes), Shift(s.boxes[i], d, k + 2))
    ensures LineEnds(g, s, i, d, EndsUpTo(g, s, i, d, k))
  {
    forall m: nat ensures PullFree(g, BoxSet(s.boxes), s.boxes[i], d, m) <==> m <= k {
      PullFreeUpTo(g, BoxSet(s.boxes), s.boxes[i], d, k, m);
    }
    forall t ensures t in EndsUpTo(g, s, i, d, k) <==>
        exists m: nat :: 1 <= m && PullFree(g, BoxSet(s.boxes), s.boxes[i], d, m) && t == LineEnd(g, s, i, d, m)
    {
      EndsUpToIff(g, s, i, d, k, t);
    }
  }

  lemma PullFreeUpTo(g: Grid, boxes: set<Cell>, b: Cell, d: Dir, k: nat, m: nat)
    requires g.Rectangular() && PullFree(g, boxes, b, d, k) && !Free(g, boxes, Shift(b, d, k + 2))
    ensures PullFree(g, boxes, b, d, m) <==> m <= k
  {
  }

  /** Every end position of pulling box `i` towards `d`. */
  method PullBox(g: Grid, s: State, boxSet: set<Cell>, reachable: set<Cell>, i: nat, d: Dir)
    returns (ends: set<State>)
    requires g.Rectangular() && i < |s.boxes| && boxSet == BoxSet(s.boxes)
    requires forall c :: c in reachable <==> Reach(g, boxSet, s.playerRegion, c)
    ensures forall t :: t in ends <==> PullsBox(g, s, i, d, t)
  {
    ends := {};
    var playerPos := Next(s.boxes[i], d);
    ShiftNext(s.boxes[i], d, 0);
    if playerPos.x < 0 || playerPos.y < 0 {
      return;
    }
    if g.IsWall(playerPos.x, playerPos.y) || playerPos in boxSet {
      return;
    }
    if playerPos !in reachable {
      return;
    }
    ends := PullLine(g, s, boxSet, i, d);
  }

  lemma LineInGrid(g: Grid, b: Cell, d: Dir, k: nat)
    requires g.Rectangular() && g.Open(Shift(b, d, 1)) && g.Open(Shift(b, d, k + 1))
    ensures k < g.width + g.height
  {
  }

  method ExpandBox(g: Grid, s: State, boxSet: set<Cell>, reachable: set<Cell>, i: nat)
    returns (next: set<State>)
    requires g.Rectangular() && i < |s.boxes| && boxSet == BoxSet(s.boxes)
    requires forall c :: c in reachable <==> Reach(g, boxSet, s.playerRegion, c)
    ensures forall t :: t in next <==> exists d: Dir :: PullsBox(g, s, i, d, t)
  {
    hide PullsBox, Reach;
    next := {};
    for n := 0 to |DIRS|
      invariant forall t :: t in next <==> exists m :: 0 <= m < n && PullsBox(g, s, i, DIRS[m], t)
    {
      var ends := PullBox(g, s, boxSet, reachable, i, DIRS[n]);
      next := next + ends;
    }
    forall t | exists d: Dir :: PullsBox(g, s, i, d, t) ensures t in next {
      var d: Dir :| PullsBox(g, s, i, d, t);
      var m := match d case Up => 0 case Down => 1 case Left => 2 case Right => 3;
      assert DIRS[m] == d;
    }
  }

  method ExpandState(g: Grid, s: State) returns (next: set<State>)
    requires g.Rectangular()
    ensures forall t :: t in next <==> Pulls(g, s, t)
  {
    hide PullsBox, Reach;
    next := {};
    var boxSet := BoxSet(s.boxes);
    var region, reachable := Flood(g, boxSet, s.playerRegion, {});
    for i := 0 to |s.boxes|
      invariant forall t :: t in next <==> exists j: nat, d: Dir :: j < i && PullsBox(g, s, j, d, t)
    {
      var more := ExpandBox(g, s, boxSet, reachable, i);
      next := next + more;
    }
  }

  /** `expand_box_lines`: exactly the states one box line away from `states`. */
  method ExpandBoxLines(g: Grid, states: set<State>) returns (next: set<State>)
    requires g.Rectangular()
    ensures IsImage(Pulled(g), states, next)
  {
    hide Pulls, Pulled;
    next := {};
    var todo := states;
    while todo != {}
      invariant todo <= states
      invariant IsImage(Pulled(g), states - todo, next)
      decreases todo
    {
      var s :| s in todo;
      var more := ExpandState(g, s);
      ImageExtend(g, states - todo, next, s, more);
      next := next + more;
      todo := todo - {s};
      assert states - todo == states - (todo + {s}) + {s};
    }
    assert states - todo == states;
  }

  lemma ImageExtend(g: Grid, from: set<State>, to: set<State>, s: State, more: set<State>)
    requires g.Rectangular() && IsImage(Pulled(g), from, to) && forall t :: t in more <==> Pulls(g, s, t)
    ensures IsImage(Pulled(g), from + {s}, to + more)
  {
    forall t ensures t in to + more <==> exists p :: p in from + {s} && Pulled(g)(p, t) {
      assert t in more <==> Pulled(g)(s, t);
    }
  }

  method LeastOf(region: seq<Cell>) returns (best: Cell)
    requires region != []
    ensures best in region && forall c :: c in region ==> !RowBefore(c, best)
  {
    best := region[0];
    for i := 0 to |region|
      invariant best in region && forall j :: 0 <= j < i ==> !RowBefore(region[j], best)
    {
      if RowBefore(region[i], best) {
        best := region[i];
      }
    }
  }

  /** The start set: one state for every region the goal boxes leave. */
  method MakeStartSet(g: Grid, goals: seq<Cell>) returns (starts: set<State>)
    requires GoalsOk(g, goals)
    ensures forall s :: s in starts <==> Solved(g, goals)(s)
  {
    hide Reach;
    var boxSet := BoxSet(goals);
    starts := {};
    var visited: set<Cell> := {};
    for i := 0 to |g.floor|
      invariant forall c :: c in visited ==> Free(g, boxSet, c) && MakeStateSpec(g, goals, c) in starts
      invariant Closed(g, boxSet, visited)
      invariant forall j :: 0 <= j < i ==> g.floor[j] in boxSet || g.floor[j] in visited
      invariant forall s :: s in starts ==> StartState(g, goals, s)
    {
      var f := g.floor[i];
      assert f in g.floor;
      if f in boxSet || f in visited {
        continue;
      }
      forall c | Reach(g, boxSet, f, c) ensures c !in visited && Free(g, boxSet, c) {
        ReachSym(g, boxSet, f, c);
        if c in visited {
          ClosedHoldsReach(g, boxSet, visited, c);
        }
      }
      ghost var before := visited;
      var region: seq<Cell>;
      region, visited := Flood(g, boxSet, f, visited);
      ReachRefl(g, boxSet, f);
      assert f in region;
      if region != [] {
        var best := LeastOf(region);
        var s := MakeState(g, goals, best);
        starts := starts + {s};
        forall c | Reach(g, boxSet, f, c) ensures MakeStateSpec(g, goals, c) == s {
          ReachSym(g, boxSet, f, c);
          ReachTrans(g, boxSet, c, f, best);
          CornerEqualIffReach(g, boxSet, c, best);
        }
      }
      forall c, d {:trigger Next(c, d)} | c in visited && Free(g, boxSet, Next(c, d))
        ensures Next(c, d) in visited
      {
        if c !in before {
          ReachStep(g, boxSet, f, c, d);
        }
      }
    }
    forall s | StartState(g, goals, s) ensures s in starts {
      var p :| Free(g, boxSet, p) && s == MakeStateSpec(g, goals, p);
      assert p in g.floor;
    }
  }

  ghost function Arrangements(cells: set<Cell>, n: nat): (r: set<seq<Cell>>)
    ensures forall s: seq<Cell> :: |s| == n && (forall c :: c in s ==> c in cells) ==> s in r
  {
    if n == 0 then {[]}
    else
      var shorter := Arrangements(cells, n - 1);
      var r := set c, s | c in cells && s in shorter :: [c] + s;
      assert forall s: seq<Cell> :: |s| == n && (forall c :: c in s ==> c in cells) ==> s in r by {
        forall s: seq<Cell> | |s| == n && forall c :: c in s ==> c in cells ensures s in r {
          assert s == [s[0]] + s[1..];
          assert s[1..] in shorter;
        }
      }
      r
  }

  /** A finite set holding every valid state with `n` boxes: what bounds the search. */
  ghost function Universe(g: Grid, n: nat): (u: set<State>)
    requires g.Rectangular()
    ensures forall s :: ValidState(g, s) && |s.boxes| == n ==> s in u
  {
    var all := g.Cells();
    var arrangements := Arrangements(all, n);
    set b, p | b in arrangements && p in all :: State(b, p)
  }

  /** The deepest layer among the first `ticks` is `depth`. */
  ghost predicate Deepest(g: Grid, goals: seq<Cell>, ticks: nat, depth: nat) {
    forall n: nat :: depth < n <= ticks ==> NoneAt(Solved(g, goals), Pulled(g), n)
  }

  /** `find_farthest`. The clock is an input: `ticks` is the number of layers the time limit
      lets the loop start. */
  method FindFarthest(g: Grid, goals: seq<Cell>, ticks: nat) returns (r: Option<(nat, set<State>)>)
    requires GoalsOk(g, goals)
    ensures r.None? <==> ticks == 0 || NoneAt(Solved(g, goals), Pulled(g), 1)
    ensures r.Some? ==>
              var (depth, states) := r.value;
              && 1 <= depth <= ticks && states != {}
              && IsLayer(Solved(g, goals), Pulled(g), depth, states)
              && (depth < ticks ==> AllWithin(Solved(g, goals), Pulled(g), depth))
    ensures r.Some? ==>
              forall s :: s in r.value.1 ==>
                Solvable(g, Config(BoxSet(s.boxes), s.playerRegion), BoxSet(goals))
    ensures Deepest(g, goals, ticks, if r.Some? then r.value.0 else 0)
  {
    hide Pulled, Solved, At, Within, Universe, Solvable, AllWithin, NoneAt;
    ghost var start, step := Solved(g, goals), Pulled(g);
    var starts := MakeStartSet(g, goals);
    FirstLayer(start, step, starts);
    if starts == {} {
      EmptyLayer(start, step, 0, starts);
      LaterLayerNeedsFirst(start, step);
      DeepestWhenDone(g, goals, ticks, 0);
      return None;
    }
    var visited := starts;
    var frontier := starts;
    var bestDepth := 0;
    var bestFrontier := starts;
    var depth := 0;
    var elapsed := 0;
    ghost var universe := Universe(g, |goals|);
    LayerInUniverse(g, goals, 0, starts);
    while true
      invariant elapsed == depth <= ticks && bestDepth == depth && bestFrontier == frontier != {}
      invariant IsLayer(start, step, depth, frontier) && IsBall(start, step, depth, visited)
      invariant depth > 0 ==> !NoneAt(start, step, 1)
      invariant visited <= universe
      decreases universe - visited
    {
      if elapsed == ticks {
        assert Deepest(g, goals, ticks, depth);
        break;
      }
      elapsed := elapsed + 1;
      var expanded := ExpandBoxLines(g, frontier);
      var newStates := expanded - visited;
      NextLayer(start, step, depth, frontier, visited, expanded);
      EmptyLayer(start, step, depth + 1, newStates);
      if newStates == {} {
        DeepestWhenDone(g, goals, ticks, depth);
        EmptyLayerEnds(start, step, depth);
        break;
      }
      LayerInUniverse(g, goals, depth + 1, newStates);
      var t :| t in newStates;
      assert t in universe - visited;
      visited := visited + newStates;
      depth := depth + 1;
      bestDepth := depth;
      bestFrontier := newStates;
      frontier := newStates;
    }
    if bestDepth == 0 {
      return None;
    }
    LayerInUniverse(g, goals, bestDepth, bestFrontier);
    r := Some((bestDepth, bestFrontier));
  }

  lemma EmptyLayer(start: State -> bool, step: (State, State) -> bool, n: nat, layer: set<State>)
    requires IsLayer(start, step, n, layer)
    ensures layer == {} <==> NoneAt(start, step, n)
  {
    if layer != {} {
      var s :| s in layer;
      assert At(start, step, n, s);
    }
  }

  lemma DeepestWhenDone(g: Grid, goals: seq<Cell>, ticks: nat, depth: nat)
    requires NoneAt(Solved(g, goals), Pulled(g), depth + 1)
    ensures Deepest(g, goals, ticks, depth)
  {
    EmptyLayerEnds(Solved(g, goals), Pulled(g), depth);
    forall n: nat | depth < n <= ticks ensures NoneAt(Solved(g, goals), Pulled(g), n) {
      NothingBeyond(Solved(g, goals), Pulled(g), depth, n);
    }
  }

  lemma LayerInUniverse(g: Grid, goals: seq<Cell>, n: nat, layer: set<State>)
    requires GoalsOk(g, goals) && IsLayer(Solved(g, goals), Pulled(g), n, layer)
    ensures layer <= Universe(g, |goals|)
    ensures forall s :: s in layer ==> Solvable(g, Config(BoxSet(s.boxes), s.playerRegion), BoxSet(goals))
  {
    forall s | s in layer
      ensures s in Universe(g, |goals|)
      ensures Solvable(g, Config(BoxSet(s.boxes), s.playerRegion), BoxSet(goals))
    {
      LinesFromSolvable(g, goals, n, s);
    }
  }
}
