/** The Sokoban board of `games/bin/sokoban_gen.rs`: cells, walls, walking, and the
    forward rules of the game that the generated levels have to be solvable under. */
module SokobanGrid {
  import opened Options

  datatype Cell = Cell(x: int, y: int)

  datatype Dir = Up | Down | Left | Right {
    function Dx(): int {
      match this case Left => -1 case Right => 1 case _ => 0
    }

    function Dy(): int {
      match this case Up => -1 case Down => 1 case _ => 0
    }

    function Opposite(): Dir {
      match this case Up => Down case Down => Up case Left => Right case Right => Left
    }
  }

  const DIRS: seq<Dir> := [Up, Down, Left, Right]

  /** The cell `k` steps away from `c` in direction `d`. */
  function Shift(c: Cell, d: Dir, k: int): Cell {
    match d
    case Up => Cell(c.x, c.y - k)
    case Down => Cell(c.x, c.y + k)
    case Left => Cell(c.x - k, c.y)
    case Right => Cell(c.x + k, c.y)
  }

  function Next(c: Cell, d: Dir): Cell {
    Cell(c.x + d.Dx(), c.y + d.Dy())
  }

  lemma ShiftNext(c: Cell, d: Dir, k: int)
    ensures Next(Shift(c, d, k), d) == Shift(c, d, k + 1)
    ensures Next(Shift(c, d, k), d.Opposite()) == Shift(c, d, k - 1)
    ensures Shift(c, d, 0) == c && Shift(c, d, 1) == Next(c, d)
    ensures forall j: int :: Shift(c, d, j) == Shift(c, d, k) ==> j == k
  {
  }

  /** `cells[y][x]` is true at a wall; `floor` lists the open cells. */
  datatype Grid = Grid(cells: seq<seq<bool>>, width: nat, height: nat, floor: seq<Cell>) {

    predicate Rectangular() {
      |cells| == height && forall y :: 0 <= y < height ==> |cells[y]| == width
    }

    predicate IsWall(x: nat, y: nat)
      requires Rectangular()
    {
      x >= width || y >= height || cells[y][x]
    }

    /** The bound checks the searches make before casting to unsigned, plus `IsWall`. */
    predicate Open(c: Cell)
      requires Rectangular()
    {
      c.x >= 0 && c.y >= 0 && !IsWall(c.x, c.y)
    }

    /** What every grid built by the room generator satisfies. */
    ghost predicate WellFormed() {
      Rectangular() && forall c :: c in floor <==> Open(c)
    }

    ghost function Cells(): (s: set<Cell>)
      ensures Rectangular() ==> forall c :: Open(c) ==> c in s
    {
      set x, y | 0 <= x < width && 0 <= y < height :: Cell(x, y)
    }
  }

  predicate Free(g: Grid, boxes: set<Cell>, c: Cell)
    requires g.Rectangular()
  {
    g.Open(c) && c !in boxes
  }

  // ----- Walking -----

  /** Where the player ends after walking `ds` over free cells, if every step is free. */
  function Walk(g: Grid, boxes: set<Cell>, c: Cell, ds: seq<Dir>): Option<Cell>
    requires g.Rectangular()
    decreases |ds|
  {
    if ds == [] then Some(c)
    else if Free(g, boxes, Next(c, ds[0])) then Walk(g, boxes, Next(c, ds[0]), ds[1..])
    else None
  }

  ghost predicate Reach(g: Grid, boxes: set<Cell>, a: Cell, b: Cell)
    requires g.Rectangular()
  {
    exists ds :: Walk(g, boxes, a, ds) == Some(b)
  }

  lemma {:induction false} WalkConcat(g: Grid, boxes: set<Cell>, a: Cell, ds: seq<Dir>, es: seq<Dir>)
    requires g.Rectangular() && Walk(g, boxes, a, ds).Some?
    ensures Walk(g, boxes, a, ds + es) == Walk(g, boxes, Walk(g, boxes, a, ds).value, es)
    decreases |ds|
  {
    if ds == [] {
      assert ds + es == es;
    } else {
      WalkConcat(g, boxes, Next(a, ds[0]), ds[1..], es);
      assert (ds + es)[1..] == ds[1..] + es;
    }
  }

  lemma ReachRefl(g: Grid, boxes: set<Cell>, a: Cell)
    requires g.Rectangular()
    ensures Reach(g, boxes, a, a)
  {
    assert Walk(g, boxes, a, []) == Some(a);
  }

  lemma ReachStep(g: Grid, boxes: set<Cell>, a: Cell, b: Cell, d: Dir)
    requires g.Rectangular() && Reach(g, boxes, a, b) && Free(g, boxes, Next(b, d))
    ensures Reach(g, boxes, a, Next(b, d))
  {
    var ds :| Walk(g, boxes, a, ds) == Some(b);
    WalkConcat(g, boxes, a, ds, [d]);
    assert Walk(g, boxes, b, [d]) == Walk(g, boxes, Next(b, d), []);
  }

  lemma ReachTrans(g: Grid, boxes: set<Cell>, a: Cell, b: Cell, c: Cell)
    requires g.Rectangular() && Reach(g, boxes, a, b) && Reach(g, boxes, b, c)
    ensures Reach(g, boxes, a, c)
  {
    var ds :| Walk(g, boxes, a, ds) == Some(b);
    var es :| Walk(g, boxes, b, es) == Some(c);
    WalkConcat(g, boxes, a, ds, es);
  }

  /** A walk never leaves the free cells, and walking back is possible. */
  lemma {:induction false} WalkBack(g: Grid, boxes: set<Cell>, a: Cell, ds: seq<Dir>)
    requires g.Rectangular() && Free(g, boxes, a) && Walk(g, boxes, a, ds).Some?
    ensures Free(g, boxes, Walk(g, boxes, a, ds).value)
    ensures Reach(g, boxes, Walk(g, boxes, a, ds).value, a)
    decreases |ds|
  {
    var b := Walk(g, boxes, a, ds).value;
    if ds == [] {
      ReachRefl(g, boxes, a);
    } else {
      var n := Next(a, ds[0]);
      WalkBack(g, boxes, n, ds[1..]);
      assert Next(n, ds[0].Opposite()) == a;
      ReachStep(g, boxes, b, n, ds[0].Opposite());
    }
  }

  lemma ReachSym(g: Grid, boxes: set<Cell>, a: Cell, b: Cell)
    requires g.Rectangular() && Free(g, boxes, a) && Reach(g, boxes, a, b)
    ensures Free(g, boxes, b) && Reach(g, boxes, b, a)
  {
    var ds :| Walk(g, boxes, a, ds) == Some(b);
    WalkBack(g, boxes, a, ds);
  }

  /** A set holding `a` and closed under free neighbours holds everything reachable. */
  ghost predicate Closed(g: Grid, boxes: set<Cell>, s: set<Cell>)
    requires g.Rectangular()
  {
    forall c, d {:trigger Next(c, d)} :: c in s && Free(g, boxes, Next(c, d)) ==> Next(c, d) in s
  }

  lemma {:induction false} WalkStaysIn(g: Grid, boxes: set<Cell>, s: set<Cell>, a: Cell, ds: seq<Dir>)
    requires g.Rectangular() && Closed(g, boxes, s) && a in s && Walk(g, boxes, a, ds).Some?
    ensures Walk(g, boxes, a, ds).value in s
    decreases |ds|
  {
    if ds != [] {
      WalkStaysIn(g, boxes, s, Next(a, ds[0]), ds[1..]);
    }
  }

  lemma ClosedHoldsReach(g: Grid, boxes: set<Cell>, s: set<Cell>, a: Cell)
    requires g.Rectangular() && Closed(g, boxes, s) && a in s
    ensures forall b :: Reach(g, boxes, a, b) ==> b in s
  {
    forall b | Reach(g, boxes, a, b) ensures b in s {
      var ds :| Walk(g, boxes, a, ds) == Some(b);
      WalkStaysIn(g, boxes, s, a, ds);
    }
  }

  // ----- The forward game -----

  function Repeat(d: Dir, k: nat): (r: seq<Dir>)
    ensures |r| == k
  {
    if k == 0 then [] else [d] + Repeat(d, k - 1)
  }

  datatype Config = Config(boxes: set<Cell>, player: Cell)

  /** One move of a Sokoban player: walk onto a free cell, or push one box one cell. */
  function Move(g: Grid, c: Config, d: Dir): Option<Config>
    requires g.Rectangular()
  {
    var to := Next(c.player, d);
    if Free(g, c.boxes, to) then Some(Config(c.boxes, to))
    else if to in c.boxes && Free(g, c.boxes, Next(to, d)) then
      Some(Config(c.boxes - {to} + {Next(to, d)}, to))
    else None
  }

  function Play(g: Grid, c: Config, ds: seq<Dir>): Option<Config>
    requires g.Rectangular()
    decreases |ds|
  {
    if ds == [] then Some(c)
    else match Move(g, c, ds[0])
      case None => None
      case Some(n) => Play(g, n, ds[1..])
  }

  /** Some finite sequence of legal moves puts the boxes exactly on the goals. */
  ghost predicate Solvable(g: Grid, c: Config, goals: set<Cell>)
    requires g.Rectangular()
  {
    exists ds :: Play(g, c, ds).Some? && Play(g, c, ds).value.boxes == goals
  }

  lemma {:induction false} PlayConcat(g: Grid, c: Config, ds: seq<Dir>, es: seq<Dir>)
    requires g.Rectangular() && Play(g, c, ds).Some?
    ensures Play(g, c, ds + es) == Play(g, Play(g, c, ds).value, es)
    decreases |ds|
  {
    if ds == [] {
      assert ds + es == es;
    } else {
      PlayConcat(g, Move(g, c, ds[0]).value, ds[1..], es);
      assert (ds + es)[1..] == ds[1..] + es;
    }
  }

  lemma {:induction false} WalkIsPlay(g: Grid, boxes: set<Cell>, a: Cell, ds: seq<Dir>)
    requires g.Rectangular() && Walk(g, boxes, a, ds).Some?
    ensures Play(g, Config(boxes, a), ds) == Some(Config(boxes, Walk(g, boxes, a, ds).value))
    decreases |ds|
  {
    if ds != [] {
      WalkIsPlay(g, boxes, Next(a, ds[0]), ds[1..]);
    }
  }

  lemma SolvableAfterPlay(g: Grid, c: Config, ds: seq<Dir>, goals: set<Cell>)
    requires g.Rectangular() && Play(g, c, ds).Some?
    requires Solvable(g, Play(g, c, ds).value, goals)
    ensures Solvable(g, c, goals)
  {
    var n := Play(g, c, ds).value;
    var es :| Play(g, n, es).Some? && Play(g, n, es).value.boxes == goals;
    PlayConcat(g, c, ds, es);
  }

  lemma SolvableAfterWalk(g: Grid, boxes: set<Cell>, a: Cell, b: Cell, goals: set<Cell>)
    requires g.Rectangular() && Reach(g, boxes, a, b) && Solvable(g, Config(boxes, b), goals)
    ensures Solvable(g, Config(boxes, a), goals)
  {
    var ds :| Walk(g, boxes, a, ds) == Some(b);
    WalkIsPlay(g, boxes, a, ds);
    SolvableAfterPlay(g, Config(boxes, a), ds, goals);
  }
}
