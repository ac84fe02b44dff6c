/** The depth of a level is the least number of box lines in any solution: pull lines read backwards
    are exactly the straight runs of pushes of one box. */
module SokobanSolutions {
  import opened Options
  import opened SokobanGrid
  import opened SokobanState
  import opened SokobanSearch
  import opened Layers

  // ----- Box lines of a player -----

  /** The player walks to a box and pushes it one or more cells straight on. */
  ghost predicate PushLine(g: Grid, c: Config, n: Config)
    requires g.Rectangular()
  {
    exists p: Cell, o: Dir, k: nat :: IsPushLine(g, c, n, p, o, k)
  }

  ghost predicate IsPushLine(g: Grid, c: Config, n: Config, p: Cell, o: Dir, k: nat)
    requires g.Rectangular()
  {
    && k >= 1 && Reach(g, c.boxes, c.player, p) && Next(p, o) in c.boxes
    && Play(g, Config(c.boxes, p), Repeat(o, k)) == Some(n)
  }

  /** `n` box lines put the boxes exactly on the goals. */
  ghost predicate SolvesIn(g: Grid, c: Config, goals: set<Cell>, n: nat)
    requires g.Rectangular()
    decreases n
  {
    if n == 0 then c.boxes == goals else exists m: Config :: PushLine(g, c, m) && SolvesIn(g, m, goals, n - 1)
  }

  // ----- A run of pushes -----

  lemma ShiftShift(c: Cell, d: Dir, j: int, k: int)
    ensures Shift(Shift(c, d, j), d, k) == Shift(c, d, j + k)
    ensures Shift(Shift(c, d, j), d.Opposite(), k) == Shift(c, d, j - k)
  {
  }

  /** Moving straight on behind a box pushes that box, and no other, along free cells. */
  lemma {:induction false} PushRun(g: Grid, boxes: set<Cell>, p: Cell, o: Dir, k: nat)
    requires g.Rectangular() && Next(p, o) in boxes && Play(g, Config(boxes, p), Repeat(o, k)).Some?
    ensures var c := Next(p, o);
            && Play(g, Config(boxes, p), Repeat(o, k)).value == Config(boxes - {c} + {Shift(c, o, k)}, Shift(p, o, k))
            && forall j :: 1 <= j <= k ==> Free(g, boxes, Shift(c, o, j))
    decreases k
  {
    var c := Next(p, o);
    ShiftNext(c, o, 0);
    ShiftNext(p, o, 0);
    if k == 0 {
      assert boxes - {c} + {c} == boxes;
    } else {
      var n := Next(c, o);
      var boxes' := boxes - {c} + {n};
      assert Repeat(o, k)[0] == o && Repeat(o, k)[1..] == Repeat(o, k - 1);
      assert Move(g, Config(boxes, p), o) == Some(Config(boxes', c));
      PushRun(g, boxes', c, o, k - 1);
      ShiftShift(c, o, 1, k - 1);
      ShiftShift(p, o, 1, k - 1);
      assert boxes' - {n} + {Shift(n, o, k - 1)} == boxes - {c} + {Shift(c, o, k)};
      forall j | 1 <= j <= k ensures Free(g, boxes, Shift(c, o, j)) {
        if j > 1 {
          ShiftShift(c, o, 1, j - 1);
          assert Free(g, boxes', Shift(n, o, j - 1));
          ShiftNext(c, o, j);
        }
      }
    }
  }

  // ----- Canonical states -----

  ghost predicate Standing(g: Grid, bs: seq<Cell>, p: Cell)
    requires g.Rectangular()
  {
    Distinct(bs) && (forall b :: b in bs ==> g.Open(b)) && Free(g, BoxSet(bs), p)
  }

  /** The same boxes and a player in the same region make the same state. */
  lemma SameState(g: Grid, bs: seq<Cell>, p: Cell, cs: seq<Cell>, q: Cell)
    requires g.Rectangular() && Standing(g, bs, p) && Standing(g, cs, q)
    requires BoxSet(bs) == BoxSet(cs) && Reach(g, BoxSet(bs), p, q)
    ensures MakeStateSpec(g, bs, p) == MakeStateSpec(g, cs, q)
  {
    hide Reach;
    SameCells(bs, cs);
    StatesEqualIff(g, bs, p, cs, q);
  }

  lemma {:induction false} SameCells(a: seq<Cell>, b: seq<Cell>)
    requires Distinct(a) && Distinct(b) && BoxSet(a) == BoxSet(b)
    ensures multiset(a) == multiset(b)
  {
    forall c ensures multiset(a)[c] == multiset(b)[c] {
      OnceEach(a, c);
      OnceEach(b, c);
      assert c in BoxSet(a) <==> c in a;
      assert c in BoxSet(b) <==> c in b;
    }
  }

  lemma {:induction false} OnceEach(a: seq<Cell>, c: Cell)
    requires Distinct(a)
    ensures multiset(a)[c] == if c in a then 1 else 0
  {
    if a != [] {
      var t := a[1..];
      assert forall i :: 0 <= i < |t| ==> t[i] == a[i + 1];
      OnceEach(t, c);
      assert a == [a[0]] + t;
      assert a[0] !in t;
    }
  }

  // ----- Pushes are pulls read backwards -----

  /** A push line from `bs` with the player at `p` leads to boxes from which pulling leads back. */
  lemma PushIsPull(g: Grid, bs: seq<Cell>, p: Cell, n: Config, q: Cell, o: Dir, k: nat) returns (cs: seq<Cell>)
    requires g.Rectangular() && Standing(g, bs, p) && IsPushLine(g, Config(BoxSet(bs), p), n, q, o, k)
    ensures BoxSet(cs) == n.boxes && Standing(g, cs, n.player) && |cs| == |bs|
    ensures Pulls(g, MakeStateSpec(g, cs, n.player), MakeStateSpec(g, bs, p))
  {
    var boxes := BoxSet(bs);
    ReachSym(g, boxes, p, q);
    PushRun(g, boxes, q, o, k);
    var c := Next(q, o);
    var b := Shift(c, o, k);
    assert Free(g, boxes, b);
    var i :| 0 <= i < |bs| && bs[i] == c;
    cs := bs[i := b];
    BoxSetUpdate(bs, i, b);
    PushStands(g, bs, cs, q, o, k, i);
    PullsBack(g, bs, p, cs, n.player, q, o, k, i);
  }

  lemma PushStands(g: Grid, bs: seq<Cell>, cs: seq<Cell>, q: Cell, o: Dir, k: nat, i: nat)
    requires g.Rectangular() && k >= 1 && Distinct(cs) && (forall b :: b in bs ==> g.Open(b))
    requires i < |bs| && bs[i] == Next(q, o) && cs == bs[i := Shift(bs[i], o, k)]
    requires BoxSet(cs) == BoxSet(bs) - {bs[i]} + {Shift(bs[i], o, k)}
    requires forall j :: 1 <= j <= k ==> Free(g, BoxSet(bs), Shift(bs[i], o, j))
    ensures Standing(g, cs, Shift(q, o, k))
  {
    var c := bs[i];
    ShiftNext(q, o, 0);
    ShiftShift(q, o, 1, k - 1);
    ShiftNext(c, o, k - 1);
    assert Shift(q, o, k) == Shift(c, o, k - 1);
    ShiftNext(c, o, 0);
    assert k > 1 ==> Free(g, BoxSet(bs), Shift(c, o, k - 1));
    assert Free(g, BoxSet(bs), Shift(c, o, k));
    assert forall b :: b in cs ==> b == Shift(c, o, k) || b in bs;
  }

  lemma PullsBack(g: Grid, bs: seq<Cell>, p: Cell, cs: seq<Cell>, r: Cell, q: Cell, o: Dir, k: nat, i: nat)
    requires g.Rectangular() && Standing(g, bs, p) && Standing(g, cs, r) && k >= 1
    requires Reach(g, BoxSet(bs), p, q) && Free(g, BoxSet(bs), q)
    requires i < |bs| && bs[i] == Next(q, o) && cs == bs[i := Shift(bs[i], o, k)] && r == Shift(q, o, k)
    requires BoxSet(cs) == BoxSet(bs) - {bs[i]} + {Shift(bs[i], o, k)}
    requires forall j :: 1 <= j <= k ==> Free(g, BoxSet(bs), Shift(bs[i], o, j))
    ensures Pulls(g, MakeStateSpec(g, cs, r), MakeStateSpec(g, bs, p))
  {
    hide Reach;
    var s, d, b := MakeStateSpec(g, cs, r), o.Opposite(), cs[i];
    MakeStateValid(g, cs, r);
    assert b in BoxSet(s.boxes);
    var j :| 0 <= j < |s.boxes| && s.boxes[j] == b;
    ShiftBack(q, bs[i], o, k);
    PullFreeBack(g, BoxSet(bs), BoxSet(cs), q, o, k);
    assert IsLine(g, s, j, d, k);
    EndsWhereItBegan(g, bs, p, s, j, q, bs[i], o, k);
    assert PullsBox(g, s, j, d, MakeStateSpec(g, bs, p));
  }

  lemma ShiftBack(q: Cell, c: Cell, o: Dir, k: nat)
    requires c == Next(q, o) && k >= 1
    ensures var b := Shift(c, o, k); var d := o.Opposite();
            Shift(b, d, k) == c && Shift(b, d, k + 1) == q && Next(b, d) == Shift(q, o, k)
  {
  }

  lemma PullFreeBack(g: Grid, boxes: set<Cell>, after: set<Cell>, q: Cell, o: Dir, k: nat)
    requires g.Rectangular() && k >= 1 && Free(g, boxes, q) && Next(q, o) in boxes && g.Open(Next(q, o))
    requires var c := Next(q, o); after == boxes - {c} + {Shift(c, o, k)}
    requires forall j :: 1 <= j <= k ==> Free(g, boxes, Shift(Next(q, o), o, j))
    ensures PullFree(g, after, Shift(Next(q, o), o, k), o.Opposite(), k)
  {
    var c := Next(q, o);
    var b, d := Shift(c, o, k), o.Opposite();
    forall j | 1 <= j <= k + 1 ensures Free(g, after, Shift(b, d, j)) {
      ShiftShift(c, o, k, j);
      ShiftNext(c, o, k);
      ShiftNext(c, o, 0);
      if j < k {
        assert Free(g, boxes, Shift(c, o, k - j));
      } else if j == k + 1 {
        ShiftBack(q, c, o, k);
      }
    }
  }

  lemma EndsWhereItBegan(g: Grid, bs: seq<Cell>, p: Cell, s: State, j: nat, q: Cell, c: Cell, o: Dir, k: nat)
    requires g.Rectangular() && Standing(g, bs, p) && ValidState(g, s) && k >= 1
    requires c in bs && c == Next(q, o) && Reach(g, BoxSet(bs), p, q) && Free(g, BoxSet(bs), q)
    requires j < |s.boxes| && s.boxes[j] == Shift(c, o, k)
    requires BoxSet(s.boxes) == BoxSet(bs) - {c} + {Shift(c, o, k)} && Shift(c, o, k) !in BoxSet(bs)
    ensures LineEnd(g, s, j, o.Opposite(), k) == MakeStateSpec(g, bs, p)
  {
    hide Reach;
    ShiftBack(q, c, o, k);
    var b := Shift(c, o, k);
    ShiftNext(c, o, k);
    assert c !in s.boxes by { assert c in s.boxes ==> c in BoxSet(s.boxes); ShiftNext(c, o, 0); }
    BoxSetUpdate(s.boxes, j, c);
    var ds := s.boxes[j := c];
    assert BoxSet(ds) == BoxSet(bs);
    assert forall x :: x in ds ==> x in BoxSet(bs);
    ReachSym(g, BoxSet(bs), p, q);
    SameState(g, ds, q, bs, p);
  }

  /** A solution in `n` box lines makes the state `n` pull lines away from a solved one. */
  lemma {:induction false} SolutionIsPulls(g: Grid, goals: seq<Cell>, bs: seq<Cell>, p: Cell, n: nat)
    requires GoalsOk(g, goals) && Standing(g, bs, p) && SolvesIn(g, Config(BoxSet(bs), p), BoxSet(goals), n)
    ensures After(Solved(g, goals), Pulled(g), n, MakeStateSpec(g, bs, p))
    decreases n
  {
    hide Reach, MakeStateSpec, PushLine, IsPushLine, Pulls;
    if n == 0 {
      SolvedFromHere(g, goals, bs, p);
    } else {
      var m: Config :| PushLine(g, Config(BoxSet(bs), p), m) && SolvesIn(g, m, BoxSet(goals), n - 1);
      var cs := BackOneLine(g, bs, p, m);
      SolutionIsPulls(g, goals, cs, m.player, n - 1);
      assert Pulled(g)(MakeStateSpec(g, cs, m.player), MakeStateSpec(g, bs, p));
    }
  }

  lemma SolvedFromHere(g: Grid, goals: seq<Cell>, bs: seq<Cell>, p: Cell)
    requires GoalsOk(g, goals) && Standing(g, bs, p) && BoxSet(bs) == BoxSet(goals)
    ensures Solved(g, goals)(MakeStateSpec(g, bs, p))
  {
    ReachRefl(g, BoxSet(bs), p);
    SameState(g, bs, p, goals, p);
    assert StartState(g, goals, MakeStateSpec(g, bs, p));
  }

  lemma BackOneLine(g: Grid, bs: seq<Cell>, p: Cell, m: Config) returns (cs: seq<Cell>)
    requires g.Rectangular() && Standing(g, bs, p) && PushLine(g, Config(BoxSet(bs), p), m)
    ensures BoxSet(cs) == m.boxes && Standing(g, cs, m.player)
    ensures Pulls(g, MakeStateSpec(g, cs, m.player), MakeStateSpec(g, bs, p))
  {
    hide Reach;
    var q: Cell, o: Dir, k: nat :| IsPushLine(g, Config(BoxSet(bs), p), m, q, o, k);
    cs := PushIsPull(g, bs, p, m, q, o, k);
  }

  // ----- Pulls are pushes read backwards -----

  /** Where in its region the player starts makes no difference to a solution. */
  lemma SolvesFromRegion(g: Grid, boxes: set<Cell>, p: Cell, q: Cell, goals: set<Cell>, n: nat)
    requires g.Rectangular() && Reach(g, boxes, p, q) && SolvesIn(g, Config(boxes, q), goals, n)
    ensures SolvesIn(g, Config(boxes, p), goals, n)
  {
    hide Reach;
    if n > 0 {
      var m: Config :| PushLine(g, Config(boxes, q), m) && SolvesIn(g, m, goals, n - 1);
      var r: Cell, o: Dir, k: nat :| IsPushLine(g, Config(boxes, q), m, r, o, k);
      ReachTrans(g, boxes, p, q, r);
      assert IsPushLine(g, Config(boxes, p), m, r, o, k);
      assert PushLine(g, Config(boxes, p), m);
    }
  }

  /** Pushing from `t` leads to the boxes of `s`, with the player in the region of `s`. */
  ghost predicate PushesTo(g: Grid, t: State, s: State, p: Cell)
    requires g.Rectangular()
  {
    && PushLine(g, Config(BoxSet(t.boxes), t.playerRegion), Config(BoxSet(s.boxes), p))
    && Reach(g, BoxSet(s.boxes), p, s.playerRegion)
  }

  lemma PullIsPush(g: Grid, s: State, t: State) returns (p: Cell)
    requires g.Rectangular() && ValidState(g, s) && Pulls(g, s, t)
    ensures PushesTo(g, t, s, p)
  {
    hide Reach, MakeStateSpec, PushesTo;
    var i: nat, d: Dir :| i < |s.boxes| && PullsBox(g, s, i, d, t);
    var k: nat :| IsLine(g, s, i, d, k) && t == LineEnd(g, s, i, d, k);
    hide LineEnd, IsLine;
    p := LineIsPush(g, s, i, d, k, t);
  }

  lemma LineIsPush(g: Grid, s: State, i: nat, d: Dir, k: nat, t: State) returns (p: Cell)
    requires g.Rectangular() && ValidState(g, s) && IsLine(g, s, i, d, k) && t == LineEnd(g, s, i, d, k)
    ensures PushesTo(g, t, s, p)
  {
    hide Reach, LineEnd;
    PullsKeepsValid(g, s, i, d, k);
    var b, boxes, o := s.boxes[i], BoxSet(s.boxes), d.Opposite();
    p := Shift(b, d, 1);
    ShiftNext(b, d, 0);
    ShiftNext(b, d, k + 1);
    assert b in boxes && g.Open(b);
    var ds := PushesUndoPull(g, boxes, b, d, k);
    ReachSym(g, boxes, s.playerRegion, p);
    hide ValidState, PullFree, Play, Free, Shift;
    assert IsPushLine(g, Config(BoxSet(t.boxes), t.playerRegion), Config(boxes, p), Shift(b, d, k + 1), o, k);
  }

  /** A state `n` pull lines away from a solved one has a solution in `n` box lines. */
  lemma {:induction false} PullsAreSolution(g: Grid, goals: seq<Cell>, n: nat, t: State)
    requires GoalsOk(g, goals) && After(Solved(g, goals), Pulled(g), n, t)
    ensures ValidState(g, t) && SolvesIn(g, Config(BoxSet(t.boxes), t.playerRegion), BoxSet(goals), n)
    decreases n
  {
    hide Reach, Pulls, PushLine;
    LinesFromSolvable(g, goals, n, t);
    if n == 0 {
      var p :| Free(g, BoxSet(goals), p) && t == MakeStateSpec(g, goals, p);
      SortKeepsCells(goals);
    } else {
      var s :| After(Solved(g, goals), Pulled(g), n - 1, s) && Pulled(g)(s, t);
      PullsAreSolution(g, goals, n - 1, s);
      var p := PullIsPush(g, s, t);
      SolvesFromRegion(g, BoxSet(s.boxes), p, s.playerRegion, BoxSet(goals), n - 1);
    }
  }

  // ----- The depth of a state -----

  /** States of the search are their own canonical form. */
  ghost predicate Canonical(g: Grid, s: State)
    requires g.Rectangular()
  {
    ValidState(g, s) && s == MakeStateSpec(g, s.boxes, s.playerRegion)
  }

  lemma MadeCanonical(g: Grid, bs: seq<Cell>, p: Cell)
    requires g.Rectangular() && Standing(g, bs, p)
    ensures Canonical(g, MakeStateSpec(g, bs, p))
  {
    hide Reach;
    var s := MakeStateSpec(g, bs, p);
    MakeStateValid(g, bs, p);
    SameState(g, s.boxes, s.playerRegion, bs, p);
  }

  lemma ReachedCanonical(g: Grid, goals: seq<Cell>, n: nat, t: State)
    requires GoalsOk(g, goals) && After(Solved(g, goals), Pulled(g), n, t)
    ensures Canonical(g, t)
  {
    hide Reach, Pulls, ValidState, Canonical;
    if n == 0 {
      var p :| Free(g, BoxSet(goals), p) && t == MakeStateSpec(g, goals, p);
      MadeCanonical(g, goals, p);
    } else {
      var s :| After(Solved(g, goals), Pulled(g), n - 1, s) && Pulled(g)(s, t);
      LinesFromSolvable(g, goals, n - 1, s);
      PulledCanonical(g, s, t);
    }
  }

  lemma PulledCanonical(g: Grid, s: State, t: State)
    requires g.Rectangular() && ValidState(g, s) && Pulls(g, s, t)
    ensures Canonical(g, t)
  {
    hide Reach, MakeStateSpec, ValidState;
    var i: nat, d: Dir :| i < |s.boxes| && PullsBox(g, s, i, d, t);
    var k: nat :| IsLine(g, s, i, d, k) && t == LineEnd(g, s, i, d, k);
    LineEndStands(g, s, i, d, k);
    MadeCanonical(g, s.boxes[i := Shift(s.boxes[i], d, k)], Shift(s.boxes[i], d, k + 1));
  }

  lemma LineEndStands(g: Grid, s: State, i: nat, d: Dir, k: nat)
    requires g.Rectangular() && ValidState(g, s) && IsLine(g, s, i, d, k)
    ensures Standing(g, s.boxes[i := Shift(s.boxes[i], d, k)], Shift(s.boxes[i], d, k + 1))
  {
    var b := s.boxes[i];
    assert Free(g, BoxSet(s.boxes), Shift(b, d, k)) && Free(g, BoxSet(s.boxes), Shift(b, d, k + 1));
    BoxSetUpdate(s.boxes, i, Shift(b, d, k));
    ShiftNext(b, d, k + 1);
  }

  /** `n` is the least number of box lines in any solution. */
  ghost predicate LeastLines(g: Grid, c: Config, goals: set<Cell>, n: nat)
    requires g.Rectangular()
  {
    SolvesIn(g, c, goals, n) && forall m: nat :: m < n ==> !SolvesIn(g, c, goals, m)
  }

  /** What the search calls the depth of a state is the least number of box lines a player needs to
      solve it. */
  lemma DepthIsLeastLines(g: Grid, goals: seq<Cell>, depth: nat, s: State)
    requires GoalsOk(g, goals) && At(Solved(g, goals), Pulled(g), depth, s)
    ensures LeastLines(g, Config(BoxSet(s.boxes), s.playerRegion), BoxSet(goals), depth)
  {
    hide Solved, Pulled, After, SolvesIn, MakeStateSpec;
    PullsAreSolution(g, goals, depth, s);
    ReachedCanonical(g, goals, depth, s);
    var c := Config(BoxSet(s.boxes), s.playerRegion);
    forall m: nat | m < depth ensures !SolvesIn(g, c, BoxSet(goals), m) {
      if SolvesIn(g, c, BoxSet(goals), m) {
        SolutionIsPulls(g, goals, s.boxes, s.playerRegion, m);
      }
    }
  }
}
