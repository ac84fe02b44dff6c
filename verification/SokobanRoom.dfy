/** Room generation: carve templates, keep the largest connected floor, validate, trim. */
module SokobanRoom {
  import opened Options
  import opened SokobanGrid
  import opened SokobanState

  // ----- Carving -----

  /** Whether the template drawn as `pattern` has a wall at (`dx`, `dy`). */
  predicate TemplateWall(pattern: int, dx: int, dy: int) {
    if 0 <= pattern <= 1 then true
    else if 2 <= pattern <= 5 then false
    else if pattern == 6 then dy == 1
    else if pattern == 7 then dy == 0
    else if pattern == 8 then dx == 1
    else dx == 0
  }

  /** The carved room: border templates stay walls, the others follow the draw. */
  predicate CarvedWall(tw: nat, th: nat, pick: (int, int) -> int, x: int, y: int) {
    var tx, ty := x / 2, y / 2;
    tx == 0 || ty == 0 || tx == tw - 1 || ty == th - 1 || TemplateWall(pick(tx, ty), x % 2, y % 2)
  }

  function SetCell(cells: seq<seq<bool>>, x: nat, y: nat, wall: bool): (r: seq<seq<bool>>)
    requires y < |cells| && x < |cells[y]|
    ensures |r| == |cells| && forall j :: 0 <= j < |r| ==> |r[j]| == |cells[j]|
    ensures forall j, i :: 0 <= j < |r| && 0 <= i < |r[j]| ==>
              r[j][i] == if j == y && i == x then wall else cells[j][i]
  {
    cells[y := cells[y][x := wall]]
  }

  /** Templates before (`tx`, `ty`) in scanning order. */
  predicate Before(x: int, y: int, tx: int, ty: int) {
    y / 2 < ty || (y / 2 == ty && x / 2 < tx)
  }

  /** Which cells of the template at (`x`, `y`) a draw opens: upper left, upper right, lower left,
      lower right. */
  ghost predicate CarvedAs(room: Grid, x: nat, y: nat, pattern: int)
    requires room.Rectangular() && x + 1 < room.width && y + 1 < room.height
  {
    var clear := (!room.cells[y][x], !room.cells[y][x + 1], !room.cells[y + 1][x], !room.cells[y + 1][x + 1]);
    && (0 <= pattern <= 1 ==> clear == (false, false, false, false))
    && (2 <= pattern <= 5 ==> clear == (true, true, true, true))
    && (pattern == 6 ==> clear == (true, true, false, false))
    && (pattern == 7 ==> clear == (false, false, true, true))
    && (pattern == 8 ==> clear == (true, false, true, false))
    && (pattern == 9 ==> clear == (false, true, false, true))
  }

  lemma CarvedTemplate(tw: nat, th: nat, pick: (int, int) -> int, room: Grid, tx: nat, ty: nat)
    requires room.Rectangular() && room.width == 2 * tw && room.height == 2 * th
    requires forall y, x :: 0 <= y < room.height && 0 <= x < room.width ==>
               room.cells[y][x] == CarvedWall(tw, th, pick, x, y)
    requires 0 < tx < tw - 1 && 0 < ty < th - 1
    ensures CarvedAs(room, 2 * tx, 2 * ty, pick(tx, ty))
  {
    forall dx, dy | 0 <= dx < 2 && 0 <= dy < 2
      ensures room.cells[2 * ty + dy][2 * tx + dx] == TemplateWall(pick(tx, ty), dx, dy)
    {
      var x, y := 2 * tx + dx, 2 * ty + dy;
      assert x / 2 == tx && y / 2 == ty && x % 2 == dx && y % 2 == dy;
      assert room.cells[y][x] == CarvedWall(tw, th, pick, x, y);
    }
    var x, y := 2 * tx, 2 * ty;
    assert room.cells[y + 0][x + 0] == TemplateWall(pick(tx, ty), 0, 0);
    assert room.cells[y + 0][x + 1] == TemplateWall(pick(tx, ty), 1, 0);
    assert room.cells[y + 1][x + 0] == TemplateWall(pick(tx, ty), 0, 1);
    assert room.cells[y + 1][x + 1] == TemplateWall(pick(tx, ty), 1, 1);
  }

  method Carve(tw: nat, th: nat, pick: (int, int) -> int) returns (room: Grid)
    ensures room.Rectangular() && room.width == 2 * tw && room.height == 2 * th
    ensures forall y, x :: 0 <= y < room.height && 0 <= x < room.width ==>
              room.cells[y][x] == CarvedWall(tw, th, pick, x, y)
    ensures forall tx, ty :: 0 < tx < tw - 1 && 0 < ty < th - 1 ==> CarvedAs(room, 2 * tx, 2 * ty, pick(tx, ty))
  {
    var w, h := tw * 2, th * 2;
    var cells := seq(h, _ => seq(w, _ => true));
    for ty := 0 to th
      invariant |cells| == h && forall y :: 0 <= y < h ==> |cells[y]| == w
      invariant forall y, x :: 0 <= y < h && 0 <= x < w ==>
                  cells[y][x] == (y / 2 >= ty || CarvedWall(tw, th, pick, x, y))
    {
      for tx := 0 to tw
        invariant |cells| == h && forall y :: 0 <= y < h ==> |cells[y]| == w
        invariant forall y, x :: 0 <= y < h && 0 <= x < w ==>
                    cells[y][x] == (!Before(x, y, tx, ty) || CarvedWall(tw, th, pick, x, y))
      {
        if tx == 0 || ty == 0 || tx == tw - 1 || ty == th - 1 {
          continue;
        }
        var pattern := pick(tx, ty);
        var x, y := tx * 2, ty * 2;
        cells := SetCell(cells, x, y, TemplateWall(pattern, 0, 0));
        cells := SetCell(cells, x + 1, y, TemplateWall(pattern, 1, 0));
        cells := SetCell(cells, x, y + 1, TemplateWall(pattern, 0, 1));
        cells := SetCell(cells, x + 1, y + 1, TemplateWall(pattern, 1, 1));
      }
    }
    room := Grid(cells, w, h, []);
    forall tx, ty | 0 < tx < tw - 1 && 0 < ty < th - 1 ensures CarvedAs(room, 2 * tx, 2 * ty, pick(tx, ty)) {
      CarvedTemplate(tw, th, pick, room, tx, ty);
    }
  }

  // ----- Keeping the largest region -----

  /** `region` lists one connected component of the open cells, and no component is larger. */
  ghost predicate IsLargest(room: Grid, region: seq<Cell>)
    requires room.Rectangular()
  {
    && (forall c :: room.Open(c) ==> |Region(room, {}, c)| <= |region|)
    && (region != [] ==>
          exists s :: IsComponent(room, region, s))
  }

  ghost predicate IsComponent(room: Grid, region: seq<Cell>, s: Cell)
    requires room.Rectangular()
  {
    && room.Open(s) && |region| == |Region(room, {}, s)|
    && forall c :: c in region <==> Reach(room, {}, s, c)
  }

  lemma SameRegion(g: Grid, s: Cell, c: Cell)
    requires g.Rectangular() && g.Open(s) && Reach(g, {}, s, c)
    ensures g.Open(c) && Region(g, {}, s) == Region(g, {}, c)
  {
    ReachSym(g, {}, s, c);
    forall b ensures b in Region(g, {}, s) <==> b in Region(g, {}, c) {
      if Reach(g, {}, s, b) {
        ReachTrans(g, {}, c, s, b);
      }
      if Reach(g, {}, c, b) {
        ReachTrans(g, {}, s, c, b);
      }
    }
  }

  /** Explored cells form whole components, each no larger than `best`. */
  ghost predicate Explored(g: Grid, seen: set<Cell>, best: seq<Cell>)
    requires g.Rectangular()
  {
    && Closed(g, {}, seen)
    && (forall c :: c in seen ==> g.Open(c) && |Region(g, {}, c)| <= |best|)
    && (best != [] ==> exists s :: IsComponent(g, best, s))
  }

  /** One step of the outer scan: explore the component of (`x`, `y`) if it is new floor. */
  method Explore(room: Grid, x: nat, y: nat, seen: set<Cell>, best: seq<Cell>)
    returns (seen': set<Cell>, best': seq<Cell>)
    requires room.Rectangular() && x < room.width && y < room.height && Explored(room, seen, best)
    ensures Explored(room, seen', best')
    ensures forall c :: c in seen || (c == Cell(x, y) && room.Open(c)) ==> c in seen'
  {
    hide Reach;
    var s := Cell(x, y);
    if room.cells[y][x] || s in seen {
      return seen, best;
    }
    forall c | Reach(room, {}, s, c) ensures c !in seen && room.Open(c) {
      ReachSym(room, {}, s, c);
      if c in seen {
        ClosedHoldsReach(room, {}, seen, c);
      }
    }
    var region: seq<Cell>;
    region, seen' := Flood(room, {}, s, seen);
    ReachRefl(room, {}, s);
    best' := if |region| > |best| then region else best;
    forall c, d {:trigger Next(c, d)} | c in seen' && Free(room, {}, Next(c, d)) ensures Next(c, d) in seen' {
      if c !in seen {
        ReachStep(room, {}, s, c, d);
      }
    }
    forall c | c in seen' ensures |Region(room, {}, c)| <= |best'| {
      if c !in seen {
        SameRegion(room, s, c);
      }
    }
    assert IsComponent(room, region, s);
  }

  method LargestRegion(room: Grid) returns (best: seq<Cell>)
    requires room.Rectangular()
    ensures IsLargest(room, best)
  {
    hide Region, IsComponent, Closed;
    var seen: set<Cell> := {};
    best := [];
    assert Explored(room, seen, best) by { NothingExplored(room); }
    for sy := 0 to room.height
      invariant Explored(room, seen, best)
      invariant forall y, x :: 0 <= y < sy && 0 <= x < room.width && room.Open(Cell(x, y)) ==> Cell(x, y) in seen
    {
      for sx := 0 to room.width
        invariant Explored(room, seen, best)
        invariant forall y, x :: (0 <= y < sy && 0 <= x < room.width) || (y == sy && 0 <= x < sx) ==>
                    room.Open(Cell(x, y)) ==> Cell(x, y) in seen
      {
        seen, best := Explore(room, sx, sy, seen, best);
      }
    }
    forall c | room.Open(c) ensures c in seen {
      assert c == Cell(c.x, c.y);
    }
  }

  lemma NothingExplored(room: Grid)
    requires room.Rectangular()
    ensures Explored(room, {}, [])
  {
  }

  /** Turns every floor cell outside `region` into wall. */
  method Fill(room: Grid, region: seq<Cell>) returns (filled: Grid)
    requires room.Rectangular()
    ensures filled.Rectangular() && filled.width == room.width && filled.height == room.height
    ensures forall c :: filled.Open(c) <==> room.Open(c) && c in region
  {
    var cells := room.cells;
    for y := 0 to room.height
      invariant |cells| == room.height && forall j :: 0 <= j < |cells| ==> |cells[j]| == room.width
      invariant forall j, i :: 0 <= j < room.height && 0 <= i < room.width ==>
                  cells[j][i] == (room.cells[j][i] || (j < y && Cell(i, j) !in region))
    {
      for x := 0 to room.width
        invariant |cells| == room.height && forall j :: 0 <= j < |cells| ==> |cells[j]| == room.width
        invariant forall j, i :: 0 <= j < room.height && 0 <= i < room.width ==>
                    cells[j][i] == (room.cells[j][i] || ((j < y || (j == y && i < x)) && Cell(i, j) !in region))
      {
        if !cells[y][x] && Cell(x, y) !in region {
          cells := SetCell(cells, x, y, true);
        }
      }
    }
    filled := Grid(cells, room.width, room.height, []);
  }

  // ----- Validation -----

  function WallCount(g: Grid, c: Cell): nat
    requires g.Rectangular()
  {
    (if g.Open(Next(c, Up)) then 0 else 1) + (if g.Open(Next(c, Down)) then 0 else 1)
    + (if g.Open(Next(c, Left)) then 0 else 1) + (if g.Open(Next(c, Right)) then 0 else 1)
  }

  ghost predicate DeadEnd(g: Grid)
    requires g.Rectangular()
  {
    exists c :: g.Open(c) && WallCount(g, c) >= 3
  }

  method CountWalls(g: Grid, c: Cell) returns (n: nat)
    requires g.Rectangular()
    ensures n == WallCount(g, c)
  {
    n := 0;
    for i := 0 to |DIRS|
      invariant n == (if i > 0 && !g.Open(Next(c, Up)) then 1 else 0) + (if i > 1 && !g.Open(Next(c, Down)) then 1 else 0)
                     + (if i > 2 && !g.Open(Next(c, Left)) then 1 else 0) + (if i > 3 && !g.Open(Next(c, Right)) then 1 else 0)
    {
      var m := Next(c, DIRS[i]);
      if m.x < 0 || m.y < 0 || m.x >= g.width || m.y >= g.height || g.cells[m.y][m.x] {
        n := n + 1;
      }
    }
  }

  method HasDeadEnd(g: Grid, region: seq<Cell>) returns (dead: bool)
    requires g.Rectangular() && forall c :: c in region <==> g.Open(c)
    ensures dead <==> DeadEnd(g)
  {
    for i := 0 to |region|
      invariant forall j :: 0 <= j < i ==> WallCount(g, region[j]) < 3
    {
      var n := CountWalls(g, region[i]);
      if n >= 3 {
        assert g.Open(region[i]);
        return true;
      }
    }
    return false;
  }

  predicate OpenBlock(g: Grid, x: int, y: int, w: nat, h: nat)
    requires g.Rectangular()
  {
    forall j, i :: y <= j < y + h && x <= i < x + w ==> g.Open(Cell(i, j))
  }

  ghost predicate HasBlock(g: Grid, w: nat, h: nat)
    requires g.Rectangular()
  {
    exists x, y :: OpenBlock(g, x, y, w, h)
  }

  lemma BlockInGrid(g: Grid, x: int, y: int, w: nat, h: nat)
    requires g.Rectangular() && w > 0 && h > 0 && OpenBlock(g, x, y, w, h)
    ensures 0 <= x && x + w <= g.width && 0 <= y && y + h <= g.height
  {
    assert g.Open(Cell(x, y)) && g.Open(Cell(x + w - 1, y + h - 1));
  }

  /** The scan for an open `w` x `h` rectangle. */
  method FindBlock(g: Grid, w: nat, h: nat) returns (found: bool)
    requires g.Rectangular() && w > 0 && h > 0
    ensures found <==> HasBlock(g, w, h)
  {
    var rows := if g.height >= h - 1 then g.height - (h - 1) else 0;
    var cols := if g.width >= w - 1 then g.width - (w - 1) else 0;
    for y := 0 to rows
      invariant forall j, i :: 0 <= j < y && 0 <= i < cols ==> !OpenBlock(g, i, j, w, h)
    {
      for x := 0 to cols
        invariant forall j, i :: 0 <= j < y && 0 <= i < cols ==> !OpenBlock(g, i, j, w, h)
        invariant forall i :: 0 <= i < x ==> !OpenBlock(g, i, y, w, h)
      {
        if OpenBlock(g, x, y, w, h) {
          return true;
        }
      }
    }
    forall i, j | OpenBlock(g, i, j, w, h) ensures 0 <= j < rows && 0 <= i < cols {
      BlockInGrid(g, i, j, w, h);
    }
    return false;
  }

  // ----- Trimming -----

  predicate ColumnHasFloor(g: Grid, x: nat)
    requires g.Rectangular() && x < g.width
  {
    exists y :: 0 <= y < g.height && g.Open(Cell(x, y))
  }

  predicate RowHasFloor(g: Grid, y: nat)
    requires g.Rectangular() && y < g.height
  {
    exists x :: 0 <= x < g.width && g.Open(Cell(x, y))
  }

  function SaturatingDec(n: nat): nat {
    if n == 0 then 0 else n - 1
  }

  /** The window [minX, maxX] x [minY, maxY]: the floor's bounding box plus one cell all round. */
  method Window(g: Grid) returns (minX: nat, maxX: nat, minY: nat, maxY: nat)
    requires g.Rectangular() && WalledIn(g) && exists c :: g.Open(c)
    ensures minX < maxX < g.width && minY < maxY < g.height
    ensures forall c :: g.Open(c) ==> minX < c.x < maxX && minY < c.y < maxY
  {
    ghost var o :| g.Open(o);
    assert o == Cell(o.x, o.y);
    var x0 := 0;
    while !ColumnHasFloor(g, x0)
      invariant 0 <= x0 <= o.x && forall x :: 0 <= x < x0 ==> !ColumnHasFloor(g, x)
      decreases o.x - x0
    {
      x0 := x0 + 1;
    }
    var x1 := g.width - 1;
    while !ColumnHasFloor(g, x1)
      invariant o.x <= x1 < g.width && forall x :: x1 < x < g.width ==> !ColumnHasFloor(g, x)
      decreases x1
    {
      x1 := x1 - 1;
    }
    var y0 := 0;
    while !RowHasFloor(g, y0)
      invariant 0 <= y0 <= o.y && forall y :: 0 <= y < y0 ==> !RowHasFloor(g, y)
      decreases o.y - y0
    {
      y0 := y0 + 1;
    }
    var y1 := g.height - 1;
    while !RowHasFloor(g, y1)
      invariant o.y <= y1 < g.height && forall y :: y1 < y < g.height ==> !RowHasFloor(g, y)
      decreases y1
    {
      y1 := y1 - 1;
    }
    minX, maxX, minY, maxY := SaturatingDec(x0), x1 + 1, SaturatingDec(y0), y1 + 1;
    forall c | g.Open(c) ensures x0 <= c.x <= x1 && y0 <= c.y <= y1 {
      assert c == Cell(c.x, c.y);
      assert ColumnHasFloor(g, c.x) && RowHasFloor(g, c.y);
    }
  }

  /** Copies the window; cells past the old grid stay walls. */
  method CopyWindow(g: Grid, minX: nat, minY: nat, w: nat, h: nat) returns (cells: seq<seq<bool>>)
    requires g.Rectangular()
    ensures |cells| == h && forall y :: 0 <= y < h ==> |cells[y]| == w
    ensures forall y, x :: 0 <= y < h && 0 <= x < w ==> cells[y][x] == !g.Open(Cell(minX + x, minY + y))
  {
    cells := seq(h, _ => seq(w, _ => true));
    for y := 0 to h
      invariant |cells| == h && forall j :: 0 <= j < h ==> |cells[j]| == w
      invariant forall j, i :: 0 <= j < h && 0 <= i < w ==>
                  cells[j][i] == (j >= y || !g.Open(Cell(minX + i, minY + j)))
    {
      for x := 0 to w
        invariant |cells| == h && forall j :: 0 <= j < h ==> |cells[j]| == w
        invariant forall j, i :: 0 <= j < h && 0 <= i < w ==>
                    cells[j][i] == (j > y || (j == y && i >= x) || !g.Open(Cell(minX + i, minY + j)))
      {
        var sx, sy := minX + x, minY + y;
        if sx < g.width && sy < g.height {
          cells := SetCell(cells, x, y, g.cells[sy][sx]);
        }
      }
    }
  }

  method ListFloor(cells: seq<seq<bool>>, w: nat, h: nat) returns (floor: seq<Cell>)
    requires |cells| == h && forall y :: 0 <= y < h ==> |cells[y]| == w
    ensures forall c :: c in floor <==> 0 <= c.x < w && 0 <= c.y < h && !cells[c.y][c.x]
    ensures Distinct(floor)
  {
    floor := [];
    for y := 0 to h
      invariant forall c :: c in floor <==> 0 <= c.x < w && 0 <= c.y < y && !cells[c.y][c.x]
      invariant Distinct(floor)
    {
      for x := 0 to w
        invariant forall c :: c in floor <==>
                    0 <= c.x < w && (0 <= c.y < y || (c.y == y && c.x < x)) && !cells[c.y][c.x]
        invariant Distinct(floor)
      {
        if !cells[y][x] {
          floor := floor + [Cell(x, y)];
        }
      }
    }
  }

  // ----- The generated grid -----

  function Moved(c: Cell, dx: int, dy: int): Cell {
    Cell(c.x + dx, c.y + dy)
  }

  /** Walks inside a component of `room` are walks in any grid holding a copy of it. */
  lemma {:induction false} WalkMoved(room: Grid, g: Grid, s: Cell, dx: int, dy: int, a: Cell, ds: seq<Dir>)
    requires room.Rectangular() && g.Rectangular()
    requires forall c :: g.Open(c) <==> Reach(room, {}, s, Moved(c, dx, dy))
    requires g.Open(a) && Walk(room, {}, Moved(a, dx, dy), ds).Some?
    ensures var b := Walk(room, {}, Moved(a, dx, dy), ds).value;
            Walk(g, {}, a, ds) == Some(Cell(b.x - dx, b.y - dy))
    decreases |ds|
  {
    if ds != [] {
      var n := Next(a, ds[0]);
      assert Next(Moved(a, dx, dy), ds[0]) == Moved(n, dx, dy);
      ReachStep(room, {}, s, Moved(a, dx, dy), ds[0]);
      WalkMoved(room, g, s, dx, dy, n, ds[1..]);
    }
  }

  lemma MovedConnected(room: Grid, g: Grid, s: Cell, dx: int, dy: int, a: Cell, b: Cell)
    requires room.Rectangular() && g.Rectangular() && room.Open(s)
    requires forall c :: g.Open(c) <==> Reach(room, {}, s, Moved(c, dx, dy))
    requires g.Open(a) && g.Open(b)
    ensures Reach(g, {}, a, b)
  {
    var a', b' := Moved(a, dx, dy), Moved(b, dx, dy);
    ReachSym(room, {}, s, a');
    ReachTrans(room, {}, a', s, b');
    var ds :| Walk(room, {}, a', ds) == Some(b');
    WalkMoved(room, g, s, dx, dy, a, ds);
    assert Cell(b'.x - dx, b'.y - dy) == b;
  }

  ghost predicate WalledIn(g: Grid)
    requires g.Rectangular()
  {
    forall c :: g.Open(c) ==> 0 < c.x < g.width - 1 && 0 < c.y < g.height - 1
  }

  /** The floor of `g` is a translated copy of a largest component of `room`. */
  ghost predicate CopiesLargest(room: Grid, g: Grid)
    requires room.Rectangular() && g.Rectangular()
  {
    && (forall c :: room.Open(c) ==> |Region(room, {}, c)| <= |g.floor|)
    && exists s, dx: int, dy: int :: IsCopy(room, g, s, dx, dy)
  }

  ghost predicate IsCopy(room: Grid, g: Grid, s: Cell, dx: int, dy: int)
    requires room.Rectangular() && g.Rectangular()
  {
    && room.Open(s) && |g.floor| == |Region(room, {}, s)|
    && forall c :: g.Open(c) <==> Reach(room, {}, s, Moved(c, dx, dy))
  }

  /** What the validation refuses about a chosen region, filled in. */
  ghost predicate Unsuitable(filled: Grid, region: seq<Cell>, numBoxes: nat)
    requires filled.Rectangular()
  {
    |region| < numBoxes + 2 || DeadEnd(filled) || HasBlock(filled, 4, 3) || HasBlock(filled, 3, 4)
  }

  ghost predicate RoomOk(room: Grid, g: Grid, numBoxes: nat)
    requires room.Rectangular()
  {
    && g.WellFormed() && Distinct(g.floor) && |g.floor| >= numBoxes + 2
    && CopiesLargest(room, g)
    && WalledIn(g)
    && (forall a, b :: g.Open(a) && g.Open(b) ==> Reach(g, {}, a, b))
    && !DeadEnd(g) && !HasBlock(g, 4, 3) && !HasBlock(g, 3, 4)
  }

  lemma MovedWallCount(a: Grid, b: Grid, dx: int, dy: int, c: Cell)
    requires a.Rectangular() && b.Rectangular()
    requires forall c :: b.Open(c) <==> a.Open(Moved(c, dx, dy))
    ensures WallCount(a, Moved(c, dx, dy)) == WallCount(b, c)
  {
    hide Grid.Open;
    assert forall d: Dir :: Next(Moved(c, dx, dy), d) == Moved(Next(c, d), dx, dy);
  }

  lemma MovedBlock(a: Grid, b: Grid, dx: int, dy: int, w: nat, h: nat)
    requires a.Rectangular() && b.Rectangular() && HasBlock(b, w, h)
    requires forall c :: b.Open(c) <==> a.Open(Moved(c, dx, dy))
    ensures HasBlock(a, w, h)
  {
    hide Grid.Open;
    var x, y :| OpenBlock(b, x, y, w, h);
    forall j, i | y + dy <= j < y + dy + h && x + dx <= i < x + dx + w ensures a.Open(Cell(i, j)) {
      assert b.Open(Cell(i - dx, j - dy));
      assert Moved(Cell(i - dx, j - dy), dx, dy) == Cell(i, j);
    }
    assert OpenBlock(a, x + dx, y + dy, w, h);
  }

  /** Dead ends and open rectangles survive translation. */
  lemma MovedShape(a: Grid, b: Grid, dx: int, dy: int)
    requires a.Rectangular() && b.Rectangular()
    requires forall c :: b.Open(c) <==> a.Open(Moved(c, dx, dy))
    ensures DeadEnd(b) ==> DeadEnd(a)
    ensures forall w: nat, h: nat :: HasBlock(b, w, h) ==> HasBlock(a, w, h)
  {
    hide Grid.Open, WallCount, HasBlock;
    if c :| b.Open(c) && WallCount(b, c) >= 3 {
      MovedWallCount(a, b, dx, dy, c);
    }
    forall w: nat, h: nat | HasBlock(b, w, h) ensures HasBlock(a, w, h) {
      MovedBlock(a, b, dx, dy, w, h);
    }
  }

  /** Trims `filled` to its window and lists the floor. */
  method Trim(filled: Grid) returns (g: Grid, ghost dx: int, ghost dy: int)
    requires filled.Rectangular() && WalledIn(filled) && exists c :: filled.Open(c)
    ensures g.WellFormed() && Distinct(g.floor) && WalledIn(g)
    ensures forall c :: g.Open(c) <==> filled.Open(Moved(c, dx, dy))
  {
    var minX, maxX, minY, maxY := Window(filled);
    var w := (if maxX - minX < filled.width then maxX - minX else filled.width) + 1;
    var h := (if maxY - minY < filled.height then maxY - minY else filled.height) + 1;
    var cells := CopyWindow(filled, minX, minY, w, h);
    var floor := ListFloor(cells, w, h);
    g := Grid(cells, w, h, floor);
    dx, dy := minX, minY;
    WindowCopies(filled, g, minX, maxX, minY, maxY);
  }

  lemma WindowCopies(filled: Grid, g: Grid, minX: nat, maxX: nat, minY: nat, maxY: nat)
    requires filled.Rectangular() && g.Rectangular() && minX < maxX && minY < maxY
    requires g.width == maxX - minX + 1 && g.height == maxY - minY + 1
    requires forall c :: filled.Open(c) ==> minX < c.x < maxX && minY < c.y < maxY
    requires forall y, x :: 0 <= y < g.height && 0 <= x < g.width ==>
              g.cells[y][x] == !filled.Open(Cell(minX + x, minY + y))
    ensures WalledIn(g) && forall c :: g.Open(c) <==> filled.Open(Moved(c, minX, minY))
  {
    hide WalledIn;
    forall c ensures g.Open(c) <==> filled.Open(Moved(c, minX, minY)) {
      if 0 <= c.x < g.width && 0 <= c.y < g.height {
        assert g.cells[c.y][c.x] == !filled.Open(Cell(minX + c.x, minY + c.y));
      }
    }
    WindowWalledIn(filled, g, minX, maxX, minY, maxY);
  }

  lemma WindowWalledIn(filled: Grid, g: Grid, minX: nat, maxX: nat, minY: nat, maxY: nat)
    requires filled.Rectangular() && g.Rectangular()
    requires g.width == maxX - minX + 1 && g.height == maxY - minY + 1
    requires forall c :: filled.Open(c) ==> minX < c.x < maxX && minY < c.y < maxY
    requires forall c :: g.Open(c) <==> filled.Open(Moved(c, minX, minY))
    ensures WalledIn(g)
  {
    hide Grid.Open;
  }

  lemma CarvedWalledIn(tw: nat, th: nat, pick: (int, int) -> int, room: Grid)
    requires room.Rectangular() && room.width == 2 * tw && room.height == 2 * th
    requires forall y, x :: 0 <= y < room.height && 0 <= x < room.width ==>
              room.cells[y][x] == CarvedWall(tw, th, pick, x, y)
    ensures WalledIn(room)
  {
    forall c | room.Open(c) ensures 0 < c.x < room.width - 1 && 0 < c.y < room.height - 1 {
      assert !CarvedWall(tw, th, pick, c.x, c.y);
    }
  }

  /** Translating a finite set of cells keeps its size. */
  lemma {:induction false} MovedSize(a: set<Cell>, b: set<Cell>, dx: int, dy: int)
    requires forall c :: c in a <==> Moved(c, dx, dy) in b
    ensures |a| == |b|
    decreases |a|
  {
    if a == {} {
      forall c ensures c !in b {
        assert Moved(Cell(c.x - dx, c.y - dy), dx, dy) == c;
      }
    } else {
      var c :| c in a;
      MovedSize(a - {c}, b - {Moved(c, dx, dy)}, dx, dy);
    }
  }

  /** Everything the validation and the trim establish about the returned grid. */
  lemma TrimmedOk(room: Grid, region: seq<Cell>, filled: Grid, g: Grid, dx: int, dy: int, numBoxes: nat)
    requires room.Rectangular() && filled.Rectangular() && g.WellFormed() && Distinct(g.floor) && WalledIn(g)
    requires IsLargest(room, region) && !Unsuitable(filled, region, numBoxes)
    requires forall c :: filled.Open(c) <==> room.Open(c) && c in region
    requires forall c :: g.Open(c) <==> filled.Open(Moved(c, dx, dy))
    ensures RoomOk(room, g, numBoxes)
  {
    var s :| IsComponent(room, region, s);
    forall c ensures g.Open(c) <==> Reach(room, {}, s, Moved(c, dx, dy)) {
      if Reach(room, {}, s, Moved(c, dx, dy)) {
        ReachSym(room, {}, s, Moved(c, dx, dy));
      }
    }
    DistinctIffCard(g.floor);
    MovedSize(BoxSet(g.floor), Region(room, {}, s), dx, dy);
    assert IsCopy(room, g, s, dx, dy);
    forall a, b | g.Open(a) && g.Open(b) ensures Reach(g, {}, a, b) {
      MovedConnected(room, g, s, dx, dy, a, b);
    }
    MovedShape(filled, g, dx, dy);
  }

  /** How a room carved for these draws and the outcome of validating it belong together. */
  ghost predicate Generated(tw: nat, th: nat, numBoxes: nat, pick: (int, int) -> int, room: Grid, r: Option<Grid>) {
    && room.Rectangular() && room.width == 2 * tw && room.height == 2 * th
    && (forall y, x :: 0 <= y < room.height && 0 <= x < room.width ==>
          room.cells[y][x] == CarvedWall(tw, th, pick, x, y))
    && (r.Some? ==> RoomOk(room, r.value, numBoxes))
    && (r.None? ==> exists region, filled: Grid ::
          && IsLargest(room, region) && filled.Rectangular()
          && (forall c :: filled.Open(c) <==> room.Open(c) && c in region)
          && Unsuitable(filled, region, numBoxes))
  }

  /** `generate_room`, for any draw of templates. `room` is the room as carved. */
  method GenerateRoom(tw: nat, th: nat, numBoxes: nat, pick: (int, int) -> int)
    returns (r: Option<Grid>, room: Grid)
    ensures Generated(tw, th, numBoxes, pick, room, r)
  {
    hide IsLargest, RoomOk, DeadEnd, HasBlock;
    room := Carve(tw, th, pick);
    CarvedWalledIn(tw, th, pick, room);
    var best := LargestRegion(room);
    var filled := Fill(room, best);
    if |best| < numBoxes + 2 {
      return None, room;
    }
    LargestOpen(room, best);
    var dead := HasDeadEnd(filled, best);
    if dead {
      return None, room;
    }
    var wide := FindBlock(filled, 4, 3);
    if wide {
      return None, room;
    }
    var tall := FindBlock(filled, 3, 4);
    if tall {
      return None, room;
    }
    assert filled.Open(best[0]) by { assert best[0] in best; }
    ghost var dx, dy;
    var g: Grid;
    g, dx, dy := Trim(filled);
    TrimmedOk(room, best, filled, g, dx, dy, numBoxes);
    assert |g.floor| >= numBoxes + 2 by { RoomFloor(room, g, numBoxes); }
    if |g.floor| < numBoxes + 2 {
      return None, room;
    }
    r := Some(g);
  }

  lemma RoomFloor(room: Grid, g: Grid, numBoxes: nat)
    requires room.Rectangular() && RoomOk(room, g, numBoxes)
    ensures |g.floor| >= numBoxes + 2
  {
  }

  lemma LargestOpen(room: Grid, region: seq<Cell>)
    requires room.Rectangular() && IsLargest(room, region)
    ensures forall c :: c in region ==> room.Open(c)
  {
    if region != [] {
      var s :| IsComponent(room, region, s);
      forall c | c in region ensures room.Open(c) {
        ReachSym(room, {}, s, c);
      }
    }
  }
}
