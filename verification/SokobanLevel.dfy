/** The level generator: rooms, goal placements and the reverse search put together. */
module SokobanLevel {
  import opened Options
  import opened SokobanGrid
  import opened SokobanState
  import opened SokobanSearch
  import opened SokobanRoom
  import opened SokobanSolutions
  import opened Layers

  const GOAL_ATTEMPTS := 500
  const TRIES_PER_GOAL := 100

  /** The random draws of one goal placement, and the layers its search may start. */
  datatype Placement = Placement(draw: (int, int) -> nat, ticks: nat)

  /** The random draws of one room and of the placements tried in it. */
  datatype Attempt = Attempt(pick: (int, int) -> int, placements: seq<Placement>)

  datatype Level = Level(grid: Grid, goals: seq<Cell>, start: State)

  /** What the generator promises about the level it returns. */
  ghost predicate LevelOk(l: Level, numBoxes: nat, depth: nat) {
    && GoalsOk(l.grid, l.goals) && |l.goals| == numBoxes
    && WalledIn(l.grid)
    && At(Solved(l.grid, l.goals), Pulled(l.grid), depth, l.start)
    && Solvable(l.grid, Config(BoxSet(l.start.boxes), l.start.playerRegion), BoxSet(l.goals))
    && LeastLines(l.grid, Config(BoxSet(l.start.boxes), l.start.playerRegion), BoxSet(l.goals), depth)
  }

  // ----- Goals -----

  /** The cell that draw `t` for goal `b` gives. */
  function Drawn(floor: seq<Cell>, draw: (int, int) -> nat, b: nat, t: nat): Cell
    requires floor != []
  {
    floor[draw(b, t) % |floor|]
  }

  /** Goal `b` is the first of its draws, a hundred at most, that no earlier goal took. */
  ghost predicate FirstNew(floor: seq<Cell>, draw: (int, int) -> nat, goals: seq<Cell>, b: nat)
    requires floor != [] && b < |goals|
  {
    exists t: nat :: DrawnAt(floor, draw, goals, b, t)
  }

  ghost predicate DrawnAt(floor: seq<Cell>, draw: (int, int) -> nat, goals: seq<Cell>, b: nat, t: nat)
    requires floor != [] && b < |goals|
  {
    && t < TRIES_PER_GOAL && goals[b] == floor[draw(b, t) % |floor|] && goals[b] !in goals[..b]
    && forall u: nat :: u < t ==> Drawn(floor, draw, b, u) in goals[..b]
  }

  /** Every goal is the first of its draws that is new. */
  ghost predicate Chosen(floor: seq<Cell>, draw: (int, int) -> nat, goals: seq<Cell>)
    requires floor != []
  {
    forall b: nat :: b < |goals| ==> FirstNew(floor, draw, goals, b)
  }

  /** All draws for the goal after `goals` are among them. */
  ghost predicate OutOfDraws(floor: seq<Cell>, draw: (int, int) -> nat, goals: seq<Cell>)
    requires floor != []
  {
    forall t: nat :: t < TRIES_PER_GOAL ==> Drawn(floor, draw, |goals|, t) in goals
  }

  /** No choice of `numBoxes` goals: some goal runs out of draws. */
  ghost predicate NoneChosen(floor: seq<Cell>, draw: (int, int) -> nat, numBoxes: nat)
    requires floor != []
  {
    exists goals: seq<Cell> :: |goals| < numBoxes && Chosen(floor, draw, goals) && OutOfDraws(floor, draw, goals)
  }

  /** What is chosen does not depend on how many goals follow. */
  lemma {:induction false} ChosenOnce(floor: seq<Cell>, draw: (int, int) -> nat, goals: seq<Cell>, more: seq<Cell>)
    requires floor != [] && |goals| <= |more| && Chosen(floor, draw, goals) && Chosen(floor, draw, more)
    ensures goals == more[..|goals|]
    decreases |goals|
  {
    if goals != [] {
      var b: nat := |goals| - 1;
      var fewer := goals[..b];
      FewerChosen(floor, draw, goals, b);
      ChosenOnce(floor, draw, fewer, more);
      assert FirstNew(floor, draw, goals, b) && FirstNew(floor, draw, more, b);
      var t: nat :| DrawnAt(floor, draw, goals, b, t);
      var u: nat :| DrawnAt(floor, draw, more, b, u);
      assert more[..b] == fewer == goals[..b];
      assert t < u ==> Drawn(floor, draw, b, t) in fewer;
      assert u < t ==> Drawn(floor, draw, b, u) in fewer;
      assert more[..|goals|] == more[..b] + [more[b]];
    }
  }

  lemma FewerChosen(floor: seq<Cell>, draw: (int, int) -> nat, goals: seq<Cell>, n: nat)
    requires floor != [] && n <= |goals| && Chosen(floor, draw, goals)
    ensures Chosen(floor, draw, goals[..n])
  {
    forall b: nat | b < n ensures FirstNew(floor, draw, goals[..n], b) {
      assert FirstNew(floor, draw, goals, b);
      var t: nat :| DrawnAt(floor, draw, goals, b, t);
      assert goals[..n][..b] == goals[..b];
      assert DrawnAt(floor, draw, goals[..n], b, t);
    }
  }

  lemma OneMoreChosen(floor: seq<Cell>, draw: (int, int) -> nat, goals: seq<Cell>, t: nat)
    requires floor != [] && Chosen(floor, draw, goals) && t < TRIES_PER_GOAL
    requires Drawn(floor, draw, |goals|, t) !in goals
    requires forall u: nat :: u < t ==> Drawn(floor, draw, |goals|, u) in goals
    ensures Chosen(floor, draw, goals + [Drawn(floor, draw, |goals|, t)])
  {
    var more := goals + [Drawn(floor, draw, |goals|, t)];
    forall b: nat | b < |more| ensures FirstNew(floor, draw, more, b) {
      assert more[..b] == goals[..b] && (b == |goals| ==> more[..b] == goals);
      if b < |goals| {
        assert FirstNew(floor, draw, goals, b);
        var v: nat :| DrawnAt(floor, draw, goals, b, v);
        assert DrawnAt(floor, draw, more, b, v);
      } else {
        assert DrawnAt(floor, draw, more, b, t);
      }
    }
  }

  /** A goal that ran out of draws is missing from every choice. */
  lemma OutOfDrawsEnds(floor: seq<Cell>, draw: (int, int) -> nat, numBoxes: nat, goals: seq<Cell>)
    requires floor != [] && NoneChosen(floor, draw, numBoxes) && |goals| == numBoxes
    ensures !Chosen(floor, draw, goals)
  {
    var picked: seq<Cell> :| |picked| < numBoxes && Chosen(floor, draw, picked) && OutOfDraws(floor, draw, picked);
    if Chosen(floor, draw, goals) {
      ChosenOnce(floor, draw, picked, goals);
      NotNew(floor, draw, picked, goals);
    }
  }

  lemma NotNew(floor: seq<Cell>, draw: (int, int) -> nat, picked: seq<Cell>, goals: seq<Cell>)
    requires floor != [] && OutOfDraws(floor, draw, picked) && |picked| < |goals| && goals[..|picked|] == picked
    ensures !FirstNew(floor, draw, goals, |picked|)
  {
    forall t: nat ensures !DrawnAt(floor, draw, goals, |picked|, t) {
      assert t < TRIES_PER_GOAL ==> Drawn(floor, draw, |picked|, t) in picked;
    }
  }

  lemma ChosenDistinct(floor: seq<Cell>, draw: (int, int) -> nat, goals: seq<Cell>)
    requires floor != [] && Chosen(floor, draw, goals)
    ensures Distinct(goals) && forall c :: c in goals ==> c in floor
  {
    forall b: nat | b < |goals| ensures goals[b] !in goals[..b] && goals[b] in floor {
      assert FirstNew(floor, draw, goals, b);
    }
    forall i, j | 0 <= i < j < |goals| ensures goals[i] != goals[j] {
      assert goals[i] in goals[..j];
    }
  }

  method PickGoals(floor: seq<Cell>, numBoxes: nat, draw: (int, int) -> nat) returns (goals: Option<seq<Cell>>)
    requires floor != []
    ensures goals.Some? ==> |goals.value| == numBoxes && Chosen(floor, draw, goals.value)
    ensures goals.None? <==> NoneChosen(floor, draw, numBoxes)
    ensures goals.Some? ==> Distinct(goals.value) && forall c :: c in goals.value ==> c in floor
  {
    hide Chosen, NoneChosen;
    var picked: seq<Cell> := [];
    var used: set<Cell> := {};
    NothingChosen(floor, draw);
    for b := 0 to numBoxes
      invariant |picked| == b && used == BoxSet(picked) && Chosen(floor, draw, picked)
    {
      var found: Option<Cell> := None;
      for t := 0 to TRIES_PER_GOAL
        invariant found.None? && forall u: nat :: u < t ==> Drawn(floor, draw, b, u) in picked
      {
        var pos := floor[draw(b, t) % |floor|];
        if pos !in used {
          OneMoreChosen(floor, draw, picked, t);
          found := Some(pos);
          break;
        }
      }
      if found.None? {
        RanOut(floor, draw, numBoxes, picked);
        return None;
      }
      used := used + {found.value};
      picked := picked + [found.value];
    }
    ChosenDistinct(floor, draw, picked);
    if NoneChosen(floor, draw, numBoxes) {
      OutOfDrawsEnds(floor, draw, numBoxes, picked);
    }
    return Some(picked);
  }

  lemma NothingChosen(floor: seq<Cell>, draw: (int, int) -> nat)
    requires floor != []
    ensures Chosen(floor, draw, [])
  {
  }

  lemma RanOut(floor: seq<Cell>, draw: (int, int) -> nat, numBoxes: nat, goals: seq<Cell>)
    requires floor != [] && |goals| < numBoxes && Chosen(floor, draw, goals) && OutOfDraws(floor, draw, goals)
    ensures NoneChosen(floor, draw, numBoxes)
  {
  }

  // ----- Rooms -----

  /** No layer that the search for the goals of this placement could start lies beyond `depth`. */
  ghost predicate Beaten(grid: Grid, numBoxes: nat, p: Placement, depth: nat)
    requires grid.floor != []
  {
    forall goals :: |goals| == numBoxes && Chosen(grid.floor, p.draw, goals) ==> Deepest(grid, goals, p.ticks, depth)
  }

  lemma BeatenStays(grid: Grid, numBoxes: nat, p: Placement, depth: nat, deeper: nat)
    requires grid.floor != [] && Beaten(grid, numBoxes, p, depth) && depth <= deeper
    ensures Beaten(grid, numBoxes, p, deeper)
  {
    hide Chosen;
  }

  lemma NoGoalsBeaten(grid: Grid, numBoxes: nat, p: Placement, depth: nat)
    requires grid.floor != [] && NoneChosen(grid.floor, p.draw, numBoxes)
    ensures Beaten(grid, numBoxes, p, depth)
  {
    hide Chosen, NoneChosen;
    forall goals | |goals| == numBoxes ensures !Chosen(grid.floor, p.draw, goals) {
      OutOfDrawsEnds(grid.floor, p.draw, numBoxes, goals);
    }
  }

  lemma GoalsBeaten(grid: Grid, numBoxes: nat, p: Placement, goals: seq<Cell>, depth: nat)
    requires grid.floor != [] && |goals| == numBoxes && Chosen(grid.floor, p.draw, goals) && Deepest(grid, goals, p.ticks, depth)
    ensures Beaten(grid, numBoxes, p, depth)
  {
    hide Chosen, Deepest;
    forall other | |other| == numBoxes && Chosen(grid.floor, p.draw, other) ensures other == goals {
      ChosenOnce(grid.floor, p.draw, other, goals);
      assert goals[..|other|] == goals;
    }
  }

  function Tried(placements: seq<Placement>): nat {
    if |placements| < GOAL_ATTEMPTS then |placements| else GOAL_ATTEMPTS
  }

  /** The placements tried in one room, keeping the deepest level found so far. */
  method TryRoom(grid: Grid, numBoxes: nat, placements: seq<Placement>, best: Option<Level>, bestDepth: nat)
    returns (best': Option<Level>, bestDepth': nat)
    requires grid.WellFormed() && WalledIn(grid) && grid.floor != []
    requires best.None? <==> bestDepth == 0
    requires best.Some? ==> LevelOk(best.value, numBoxes, bestDepth)
    ensures best'.None? <==> bestDepth' == 0
    ensures best'.Some? ==> LevelOk(best'.value, numBoxes, bestDepth')
    ensures bestDepth <= bestDepth' && (bestDepth' == bestDepth ==> best' == best)
    ensures forall i :: 0 <= i < |placements| && i < GOAL_ATTEMPTS ==> Beaten(grid, numBoxes, placements[i], bestDepth')
  {
    hide Solvable, At, Solved, Pulled, WalledIn, GoalsOk, Deepest, LeastLines, Beaten, Chosen, NoneChosen;
    best', bestDepth' := best, bestDepth;
    for i := 0 to Tried(placements)
      invariant best'.None? <==> bestDepth' == 0
      invariant best'.Some? ==> LevelOk(best'.value, numBoxes, bestDepth')
      invariant bestDepth <= bestDepth' && (bestDepth' == bestDepth ==> best' == best)
      invariant forall j :: 0 <= j < i ==> Beaten(grid, numBoxes, placements[j], bestDepth')
    {
      var goals := PickGoals(grid.floor, numBoxes, placements[i].draw);
      if goals.None? {
        NoGoalsBeaten(grid, numBoxes, placements[i], bestDepth');
        continue;
      }
      PickedOk(grid, goals.value);
      var far := FindFarthest(grid, goals.value, placements[i].ticks);
      var before := bestDepth';
      if far.Some? && far.value.0 > bestDepth' && far.value.1 != {} {
        var state :| state in far.value.1;
        DepthIsLeastLines(grid, goals.value, far.value.0, state);
        best' := Some(Level(grid, goals.value, state));
        bestDepth' := far.value.0;
      }
      forall j | 0 <= j < i ensures Beaten(grid, numBoxes, placements[j], bestDepth') {
        BeatenStays(grid, numBoxes, placements[j], before, bestDepth');
      }
      var reached := if far.Some? then far.value.0 else 0;
      GoalsBeaten(grid, numBoxes, placements[i], goals.value, reached);
      BeatenStays(grid, numBoxes, placements[i], reached, bestDepth');
    }
  }

  lemma PickedOk(grid: Grid, goals: seq<Cell>)
    requires grid.WellFormed() && Distinct(goals) && forall c :: c in goals ==> c in grid.floor
    ensures GoalsOk(grid, goals)
  {
  }

  // ----- The generator -----

  /** Every placement tried in the room, if there is one, is beaten. */
  ghost predicate RoomBeaten(r: Option<Grid>, numBoxes: nat, placements: seq<Placement>, depth: nat) {
    r.Some? && r.value.floor != [] ==>
      forall j :: 0 <= j < |placements| && j < GOAL_ATTEMPTS ==> Beaten(r.value, numBoxes, placements[j], depth)
  }

  lemma RoomStaysBeaten(r: Option<Grid>, numBoxes: nat, placements: seq<Placement>, depth: nat, deeper: nat)
    requires RoomBeaten(r, numBoxes, placements, depth) && depth <= deeper
    ensures RoomBeaten(r, numBoxes, placements, deeper)
  {
    if r.Some? && r.value.floor != [] {
      forall j | 0 <= j < |placements| && j < GOAL_ATTEMPTS ensures Beaten(r.value, numBoxes, placements[j], deeper) {
        BeatenStays(r.value, numBoxes, placements[j], depth, deeper);
      }
    }
  }

  /** `generate_level`: whatever the draws and the clock do, a returned level is solvable, `depth` is
      the least number of box lines in any solution, and no search it made in any of its rooms got
      deeper. */
  method GenerateLevel(tw: nat, th: nat, numBoxes: nat, attempts: seq<Attempt>)
    returns (level: Option<Level>, depth: nat, ghost carved: seq<Grid>, ghost rooms: seq<Option<Grid>>)
    ensures level.None? <==> depth == 0
    ensures level.Some? ==> LevelOk(level.value, numBoxes, depth)
    ensures |carved| == |rooms| == |attempts|
    ensures forall i :: 0 <= i < |attempts| ==> Generated(tw, th, numBoxes, attempts[i].pick, carved[i], rooms[i])
    ensures forall i :: 0 <= i < |attempts| ==> RoomBeaten(rooms[i], numBoxes, attempts[i].placements, depth)
  {
    hide LevelOk, Beaten, Generated, RoomBeaten;
    level, depth, carved, rooms := None, 0, [], [];
    for i := 0 to |attempts|
      invariant level.None? <==> depth == 0
      invariant level.Some? ==> LevelOk(level.value, numBoxes, depth)
      invariant |carved| == |rooms| == i
      invariant forall j :: 0 <= j < i ==> Generated(tw, th, numBoxes, attempts[j].pick, carved[j], rooms[j])
      invariant forall j :: 0 <= j < i ==> RoomBeaten(rooms[j], numBoxes, attempts[j].placements, depth)
    {
      var grid, room := GenerateRoom(tw, th, numBoxes, attempts[i].pick);
      ghost var before := depth;
      carved, rooms := carved + [room], rooms + [grid];
      if grid.None? {
        NoRoom(grid, numBoxes, attempts[i].placements, depth);
        continue;
      }
      GeneratedRoom(tw, th, numBoxes, attempts[i].pick, room, grid.value);
      level, depth := TryRoom(grid.value, numBoxes, attempts[i].placements, level, depth);
      forall j | 0 <= j < i ensures RoomBeaten(rooms[j], numBoxes, attempts[j].placements, depth) {
        RoomStaysBeaten(rooms[j], numBoxes, attempts[j].placements, before, depth);
      }
      RoomIsBeaten(grid, numBoxes, attempts[i].placements, depth);
    }
  }

  lemma GeneratedRoom(tw: nat, th: nat, numBoxes: nat, pick: (int, int) -> int, room: Grid, g: Grid)
    requires Generated(tw, th, numBoxes, pick, room, Some(g))
    ensures g.WellFormed() && WalledIn(g) && g.floor != []
  {
  }

  lemma NoRoom(r: Option<Grid>, numBoxes: nat, placements: seq<Placement>, depth: nat)
    requires r.None?
    ensures RoomBeaten(r, numBoxes, placements, depth)
  {
  }

  lemma RoomIsBeaten(r: Option<Grid>, numBoxes: nat, placements: seq<Placement>, depth: nat)
    requires r.Some? && r.value.floor != []
    requires forall j :: 0 <= j < |placements| && j < GOAL_ATTEMPTS ==> Beaten(r.value, numBoxes, placements[j], depth)
    ensures RoomBeaten(r, numBoxes, placements, depth)
  {
  }
}
