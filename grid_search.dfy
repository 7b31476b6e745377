/** Search over a grid map (backend/service/InformedSearch.py, and
    `successors_grid` of backend/service/UninformedSearch.py): a cell is a
    (row, column) pair, `map_grid[x][y] == 0` marks a free cell, and a move
    goes right, left, down or up to a free cell of the `nx` by `ny` board at
    the fixed costs 5, 7, 2 and 3. The searches are the shared best-first
    loop over these moves; the straight-line `grid_heuristic` is a parameter
    `h` giving each cell a whole-number estimate. */
module GridSearch {
  import opened Wrappers
  import opened WeightedSearch

  datatype Cell = Cell(x: int, y: int)

  /** Python's `xs[i]`: a negative index counts back from the end, and an
      index outside `-|xs| .. |xs| - 1` raises IndexError (None here). */
  function PyIndex<T>(xs: seq<T>, i: int): Option<T>
  {
    if 0 <= i < |xs| then Some(xs[i]) else if -|xs| <= i < 0 then Some(xs[|xs| + i]) else None
  }

  /** `map_grid[x][y]` for the cell `(x, y)`, None where Python raises. */
  function Lookup(grid: seq<seq<int>>, c: Cell): Option<int>
  {
    match PyIndex(grid, c.x)
    case None => None
    case Some(row) => PyIndex(row, c.y)
  }

  /** The four moves, in the order they are tried. */
  datatype Direction = Right | Left | Down | Up

  /** The fixed cost of a move. */
  function StepCost(d: Direction): nat
  {
    match d
    case Right => 5
    case Left => 7
    case Down => 2
    case Up => 3
  }

  /** The cell a move leads to: right and left change the column, down and
      up the row. */
  function Shift(c: Cell, d: Direction): Cell
  {
    match d
    case Right => Cell(c.x, c.y + 1)
    case Left => Cell(c.x, c.y - 1)
    case Down => Cell(c.x + 1, c.y)
    case Up => Cell(c.x - 1, c.y)
  }

  /** The bounds test of a move: right and down only test that the raised
      coordinate stays below `ny` or `nx`, left and up only that the lowered
      one stays at least 0. */
  predicate Guard(nx: int, ny: int, c: Cell, d: Direction)
  {
    match d
    case Right => c.y + 1 < ny
    case Left => c.y - 1 >= 0
    case Down => c.x + 1 < nx
    case Up => c.x - 1 >= 0
  }

  /** A move that passes its test lands on a cell that holds 0. */
  predicate Free(grid: seq<seq<int>>, nx: int, ny: int, c: Cell, d: Direction)
  {
    Guard(nx, ny, c, d) && Lookup(grid, Shift(c, d)) == Some(0)
  }

  /** A move passes its test but its cell is outside Python's index range. */
  predicate Fails(grid: seq<seq<int>>, nx: int, ny: int, c: Cell, d: Direction)
  {
    Guard(nx, ny, c, d) && Lookup(grid, Shift(c, d)).None?
  }

  /** Generating the moves from `c` raises IndexError. */
  predicate Raises(grid: seq<seq<int>>, nx: int, ny: int, c: Cell)
  {
    Fails(grid, nx, ny, c, Right) || Fails(grid, nx, ny, c, Left) || Fails(grid, nx, ny, c, Down) || Fails(grid, nx, ny, c, Up)
  }

  /** The move in direction `d`, if it is free. */
  function Try(grid: seq<seq<int>>, nx: int, ny: int, c: Cell, d: Direction): seq<(Cell, nat)>
  {
    if Free(grid, nx, ny, c, d) then [(Shift(c, d), StepCost(d))] else []
  }

  /** The moves from `c`, right, left, down and up in turn: the reference
      definition both successor builders are proved against. */
  function Moves(grid: seq<seq<int>>, nx: int, ny: int, c: Cell): seq<(Cell, nat)>
  {
    Try(grid, nx, ny, c, Right) + Try(grid, nx, ny, c, Left) + Try(grid, nx, ny, c, Down) + Try(grid, nx, ny, c, Up)
  }

  function MovesOf(grid: seq<seq<int>>, nx: int, ny: int): Cell -> seq<(Cell, nat)>
  {
    c => Moves(grid, nx, ny, c)
  }

  /** `grid_successors` yields at most four moves, each one step right
      (cost 5) with the column below `ny`, left (7) with the column at least
      0, down (2) with the row below `nx` or up (3) with the row at least 0,
      onto a cell holding 0; and it yields every such move. */
  lemma MovesExact(grid: seq<seq<int>>, nx: int, ny: int, c: Cell)
    ensures |Moves(grid, nx, ny, c)| <= 4
    ensures forall e :: e in Moves(grid, nx, ny, c) ==>
      Lookup(grid, e.0) == Some(0)
      && ((e == (Cell(c.x, c.y + 1), 5) && c.y + 1 < ny) || (e == (Cell(c.x, c.y - 1), 7) && c.y - 1 >= 0)
          || (e == (Cell(c.x + 1, c.y), 2) && c.x + 1 < nx) || (e == (Cell(c.x - 1, c.y), 3) && c.x - 1 >= 0))
    ensures forall d :: Free(grid, nx, ny, c, d) ==> (Shift(c, d), StepCost(d)) in Moves(grid, nx, ny, c)
  {
    var r, l, d, u := Try(grid, nx, ny, c, Right), Try(grid, nx, ny, c, Left), Try(grid, nx, ny, c, Down), Try(grid, nx, ny, c, Up);
    assert Moves(grid, nx, ny, c) == r + l + d + u;
    forall e | e in Moves(grid, nx, ny, c)
      ensures Lookup(grid, e.0) == Some(0)
      ensures (e == (Cell(c.x, c.y + 1), 5) && c.y + 1 < ny) || (e == (Cell(c.x, c.y - 1), 7) && c.y - 1 >= 0)
           || (e == (Cell(c.x + 1, c.y), 2) && c.x + 1 < nx) || (e == (Cell(c.x - 1, c.y), 3) && c.x - 1 >= 0)
    {
      assert e in r || e in l || e in d || e in u;
    }
  }

  /** `grid_successors`: tries right, left, down and up in turn, keeping
      each neighbour that passes its bounds test and holds 0, with its cost.
      The lookups follow Python's indexing, so a start off the board reads
      cells counted from the end; a lookup outside the lists raises, and
      then there is no list of moves. */
  method GridSuccessors(st: Cell, nx: int, ny: int, mapGrid: seq<seq<int>>) returns (f: Option<seq<(Cell, nat)>>)
    ensures f.None? <==> Raises(mapGrid, nx, ny, st)
    ensures f.Some? ==> f.value == Moves(mapGrid, nx, ny, st)
  {
    var moves: seq<(Cell, nat)> := [];
    var x, y := st.x, st.y;
    if y + 1 < ny {
      var v := Lookup(mapGrid, Cell(x, y + 1));
      if v.None? {
        return None;
      }
      if v.value == 0 {
        moves := moves + [(Cell(x, y + 1), 5)];
      }
    }
    assert moves == Try(mapGrid, nx, ny, st, Right);
    ghost var f1 := moves;
    if y - 1 >= 0 {
      var v := Lookup(mapGrid, Cell(x, y - 1));
      if v.None? {
        return None;
      }
      if v.value == 0 {
        moves := moves + [(Cell(x, y - 1), 7)];
      }
    }
    assert moves == f1 + Try(mapGrid, nx, ny, st, Left);
    ghost var f2 := moves;
    if x + 1 < nx {
      var v := Lookup(mapGrid, Cell(x + 1, y));
      if v.None? {
        return None;
      }
      if v.value == 0 {
        moves := moves + [(Cell(x + 1, y), 2)];
      }
    }
    assert moves == f2 + Try(mapGrid, nx, ny, st, Down);
    ghost var f3 := moves;
    if x - 1 >= 0 {
      var v := Lookup(mapGrid, Cell(x - 1, y));
      if v.None? {
        return None;
      }
      if v.value == 0 {
        moves := moves + [(Cell(x - 1, y), 3)];
      }
    }
    assert moves == f3 + Try(mapGrid, nx, ny, st, Up);
    f := Some(moves);
  }

  /** `cells` are the target cells of `moves`, in the same order. */
  ghost predicate CellsOf(cells: seq<Cell>, moves: seq<(Cell, nat)>)
  {
    |cells| == |moves| && forall k :: 0 <= k < |cells| ==> cells[k] == moves[k].0
  }

  /** `successors_grid` of the uninformed searches: the same neighbours in
      the same order, without costs, and the same IndexError. */
  method SuccessorsGrid(state: Cell, nx: int, ny: int, grid: seq<seq<int>>) returns (successors: Option<seq<Cell>>)
    ensures successors.None? <==> Raises(grid, nx, ny, state)
    ensures successors.Some? ==> CellsOf(successors.value, Moves(grid, nx, ny, state))
  {
    var cells: seq<Cell> := [];
    var x, y := state.x, state.y;
    if y + 1 < ny {
      var v := Lookup(grid, Cell(x, y + 1));
      if v.None? {
        return None;
      }
      if v.value == 0 {
        cells := cells + [Cell(x, y + 1)];
      }
    }
    assert cells == TryCell(grid, nx, ny, state, Right);
    ghost var s1 := cells;
    if y - 1 >= 0 {
      var v := Lookup(grid, Cell(x, y - 1));
      if v.None? {
        return None;
      }
      if v.value == 0 {
        cells := cells + [Cell(x, y - 1)];
      }
    }
    assert cells == s1 + TryCell(grid, nx, ny, state, Left);
    ghost var s2 := cells;
    if x + 1 < nx {
      var v := Lookup(grid, Cell(x + 1, y));
      if v.None? {
        return None;
      }
      if v.value == 0 {
        cells := cells + [Cell(x + 1, y)];
      }
    }
    assert cells == s2 + TryCell(grid, nx, ny, state, Down);
    ghost var s3 := cells;
    if x - 1 >= 0 {
      var v := Lookup(grid, Cell(x - 1, y));
      if v.None? {
        return None;
      }
      if v.value == 0 {
        cells := cells + [Cell(x - 1, y)];
      }
    }
    assert cells == s3 + TryCell(grid, nx, ny, state, Up);
    NeighboursAreMoves(grid, nx, ny, state);
    successors := Some(cells);
  }

  /** The cell direction `d` leads to, if it is free. */
  function TryCell(grid: seq<seq<int>>, nx: int, ny: int, c: Cell, d: Direction): seq<Cell>
  {
    if Free(grid, nx, ny, c, d) then [Shift(c, d)] else []
  }

  lemma NeighboursAreMoves(grid: seq<seq<int>>, nx: int, ny: int, c: Cell)
    ensures CellsOf(TryCell(grid, nx, ny, c, Right) + TryCell(grid, nx, ny, c, Left)
                    + TryCell(grid, nx, ny, c, Down) + TryCell(grid, nx, ny, c, Up), Moves(grid, nx, ny, c))
  {
    CellsOfAppend(TryCell(grid, nx, ny, c, Right), Try(grid, nx, ny, c, Right),
                  TryCell(grid, nx, ny, c, Left), Try(grid, nx, ny, c, Left));
    CellsOfAppend(TryCell(grid, nx, ny, c, Right) + TryCell(grid, nx, ny, c, Left),
                  Try(grid, nx, ny, c, Right) + Try(grid, nx, ny, c, Left),
                  TryCell(grid, nx, ny, c, Down), Try(grid, nx, ny, c, Down));
    CellsOfAppend(TryCell(grid, nx, ny, c, Right) + TryCell(grid, nx, ny, c, Left) + TryCell(grid, nx, ny, c, Down),
                  Try(grid, nx, ny, c, Right) + Try(grid, nx, ny, c, Left) + Try(grid, nx, ny, c, Down),
                  TryCell(grid, nx, ny, c, Up), Try(grid, nx, ny, c, Up));
  }

  lemma CellsOfAppend(a: seq<Cell>, ma: seq<(Cell, nat)>, b: seq<Cell>, mb: seq<(Cell, nat)>)
    requires CellsOf(a, ma) && CellsOf(b, mb)
    ensures CellsOf(a + b, ma + mb)
  {
    forall k | 0 <= k < |a + b|
      ensures (a + b)[k] == (ma + mb)[k].0
    {
      if k >= |a| {
        assert (a + b)[k] == b[k - |a|];
      }
    }
  }

  function Min(a: int, b: int): int
  {
    if a <= b then a else b
  }

  function Max(a: int, b: int): int
  {
    if a <= b then b else a
  }

  /** The cells with a row in `x0 .. x1` and a column in `y0 .. y1`, row by
      row. */
  ghost function Rect(x0: int, x1: int, y0: int, y1: int): (cells: seq<Cell>)
    ensures forall c :: c in cells <==> x0 <= c.x <= x1 && y0 <= c.y <= y1
    decreases x1 - x0
  {
    if x1 < x0 then []
    else
      var row := seq(if y1 < y0 then 0 else y1 - y0 + 1, j => Cell(x1, y0 + j));
      forall c: Cell | c.x == x1 && y0 <= c.y <= y1
        ensures c in row
      {
        assert row[c.y - y0] == c;
      }
      Rect(x0, x1 - 1, y0, y1) + row
  }

  /** The board, widened to take in `start`: rows `min(start.x, 0) ..
      max(start.x, nx - 1)` and columns likewise. */
  ghost function Region(nx: int, ny: int, start: Cell): seq<Cell>
  {
    Rect(Min(start.x, 0), Max(start.x, nx - 1), Min(start.y, 0), Max(start.y, ny - 1))
  }

  /** No move leaves the region of `start`, which holds `start`: a move
      right or down stays below `ny` or `nx`, and a move left or up stays at
      least 0, so a search from a start off the board never goes further
      out. */
  lemma RegionClosed(grid: seq<seq<int>>, nx: int, ny: int, start: Cell)
    ensures start in Region(nx, ny, start)
    ensures Closed(MovesOf(grid, nx, ny), Region(nx, ny, start))
  {
    forall c, e | c in Region(nx, ny, start) && e in MovesOf(grid, nx, ny)(c)
      ensures e.0 in Region(nx, ny, start)
    {
      MovesExact(grid, nx, ny, c);
    }
  }

  /** Every step of a walk is one move right, left, down or up that passes
      its bounds test, onto a cell holding 0, at that move's cost. */
  lemma GridWalk(grid: seq<seq<int>>, nx: int, ny: int, p: seq<Cell>, ws: seq<nat>, a: Cell, b: Cell, k: nat)
    requires Walk(MovesOf(grid, nx, ny), p, ws, a, b) && k < |ws|
    ensures Lookup(grid, p[k + 1]) == Some(0)
    ensures (p[k + 1] == Cell(p[k].x, p[k].y + 1) && ws[k] == 5 && p[k].y + 1 < ny)
         || (p[k + 1] == Cell(p[k].x, p[k].y - 1) && ws[k] == 7 && p[k].y - 1 >= 0)
         || (p[k + 1] == Cell(p[k].x + 1, p[k].y) && ws[k] == 2 && p[k].x + 1 < nx)
         || (p[k + 1] == Cell(p[k].x - 1, p[k].y) && ws[k] == 3 && p[k].x - 1 >= 0)
  {
    MovesExact(grid, nx, ny, p[k]);
    assert (p[k + 1], ws[k]) in Moves(grid, nx, ny, p[k]);
  }

  /** Grid `uniform_cost`: children ordered by path cost. */
  method UniformCost(start: Cell, end: Cell, mapGrid: seq<seq<int>>, nx: int, ny: int)
    returns (r: SearchResult<Cell>, ghost weights: seq<nat>)
    ensures Answers(MovesOf(mapGrid, nx, ny), start, end, r, weights)
    ensures r.NoPath? <==> start != end && forall p, ws :: !Walk(MovesOf(mapGrid, nx, ny), p, ws, start, end)
  {
    RegionClosed(mapGrid, nx, ny, start);
    r, weights := Drive(MovesOf(mapGrid, nx, ny), (g: nat, c: Cell) => g, Region(nx, ny, start), start, end);
  }

  /** Grid `greedy`: children ordered by their estimate `h`. */
  method Greedy(start: Cell, end: Cell, mapGrid: seq<seq<int>>, nx: int, ny: int, h: Cell -> nat)
    returns (r: SearchResult<Cell>, ghost weights: seq<nat>)
    ensures Answers(MovesOf(mapGrid, nx, ny), start, end, r, weights)
    ensures r.NoPath? <==> start != end && forall p, ws :: !Walk(MovesOf(mapGrid, nx, ny), p, ws, start, end)
  {
    RegionClosed(mapGrid, nx, ny, start);
    r, weights := Drive(MovesOf(mapGrid, nx, ny), (g: nat, c: Cell) => h(c), Region(nx, ny, start), start, end);
  }

  /** Grid `a_star`: children ordered by path cost plus estimate. */
  method AStar(start: Cell, end: Cell, mapGrid: seq<seq<int>>, nx: int, ny: int, h: Cell -> nat)
    returns (r: SearchResult<Cell>, ghost weights: seq<nat>)
    ensures Answers(MovesOf(mapGrid, nx, ny), start, end, r, weights)
    ensures r.NoPath? <==> start != end && forall p, ws :: !Walk(MovesOf(mapGrid, nx, ny), p, ws, start, end)
  {
    RegionClosed(mapGrid, nx, ny, start);
    var priority: (nat, Cell) --> nat := (g: nat, c: Cell) => CostPlus(h, g, c);
    r, weights := Drive(MovesOf(mapGrid, nx, ny), priority, Region(nx, ny, start), start, end);
  }

  function CostPlus(h: Cell -> nat, g: nat, c: Cell): nat
  {
    g + h(c)
  }

  /** `min` of the priorities a round set aside. */
  function Least(xs: seq<nat>): (m: nat)
    requires xs != []
    ensures m in xs && forall k :: 0 <= k < |xs| ==> m <= xs[k]
  {
    if |xs| == 1 then xs[0]
    else
      var m := Least(xs[1..]);
      assert forall k :: 1 <= k < |xs| ==> xs[1..][k - 1] == xs[k];
      if xs[0] <= m then xs[0] else m
  }

  /** The largest estimate over `cells`. */
  ghost function MaxEstimate(h: Cell -> nat, cells: seq<Cell>): (m: nat)
    ensures forall c :: c in cells ==> h(c) <= m
    decreases |cells|
  {
    if cells == [] then 0
    else
      var rest := MaxEstimate(h, cells[1..]);
      assert forall c :: c in cells ==> c == cells[0] || c in cells[1..];
      if h(cells[0]) < rest then rest else h(cells[0])
  }

  /** A bound on every IDA* priority of a search from `start`: the dearest
      simple path through the region plus the largest estimate in it. */
  ghost function RoundCap(grid: seq<seq<int>>, nx: int, ny: int, start: Cell, h: Cell -> nat): nat
  {
    PathCap(MovesOf(grid, nx, ny), Region(nx, ny, start)) + MaxEstimate(h, Region(nx, ny, start))
  }

  /** No child's path cost plus estimate exceeds `RoundCap`, nor does the
      start's estimate. */
  lemma EstimateCapped(grid: seq<seq<int>>, nx: int, ny: int, start: Cell, h: Cell -> nat)
    ensures h(start) <= RoundCap(grid, nx, ny, start, h)
    ensures forall g: nat, c :: c in Region(nx, ny, start) && g <= PathCap(MovesOf(grid, nx, ny), Region(nx, ny, start)) ==>
              CostPlus(h, g, c) <= RoundCap(grid, nx, ny, start, h)
  {
    RegionClosed(grid, nx, ny, start);
  }

  /** The least of the priorities set aside above `limit`, all whole and at
      most `cap`, is above `limit` and still at most `cap`. */
  lemma NextLimit(above: seq<nat>, limit: real, round: nat, cap: nat)
    requires above != [] && round as real <= limit
    requires forall k :: 0 <= k < |above| ==> above[k] as real > limit && above[k] <= cap
    ensures limit < Least(above) as real && (round + 1) as real <= Least(above) as real <= cap as real
  {
    var m := Least(above);
    var k :| 0 <= k < |above| && above[k] == m;
    assert m as real > round as real;
    assert m > round;
  }

  /** The limits and set-aside priorities of the grid IDA* rounds so far:
      each limit after the first is the least of the previous round's
      set-aside priorities, all of which exceed that round's limit and are
      at most `cap`; the limits rise, and the latest is at least the number
      of rounds run. */
  ghost predicate LeastHistory(limits: seq<real>, overs: seq<seq<nat>>, cap: nat)
  {
    |limits| == |overs| + 1
    && (forall k :: 0 <= k < |limits| - 1 ==> limits[k] < limits[k + 1])
    && (forall k :: 0 <= k < |overs| ==> overs[k] != [] && limits[k + 1] == Least(overs[k]) as real)
    && (forall k, j :: 0 <= k < |overs| && 0 <= j < |overs[k]| ==> limits[k] < overs[k][j] as real && overs[k][j] <= cap)
    && |overs| as real <= limits[|overs|] <= cap as real
  }

  /** A round that sets aside priorities above its limit and within `cap`
      extends the history with the least of them. */
  lemma LeastHistoryGrows(limits: seq<real>, overs: seq<seq<nat>>, above: seq<nat>, cap: nat)
    requires LeastHistory(limits, overs, cap) && above != []
    requires forall j :: 0 <= j < |above| ==> limits[|overs|] < above[j] as real && above[j] <= cap
    ensures LeastHistory(limits + [Least(above) as real], overs + [above], cap)
  {
    var n := |overs|;
    NextLimit(above, limits[n], n, cap);
    var limits', overs' := limits + [Least(above) as real], overs + [above];
    assert limits'[n] == limits[n];
    forall k, j | 0 <= k < |overs'| && 0 <= j < |overs'[k]|
      ensures limits'[k] < overs'[k][j] as real && overs'[k][j] <= cap
    {
      if k < n {
        assert overs'[k] == overs[k] && limits'[k] == limits[k];
      }
    }
  }

  /** Grid `ida_star`: the first limit is the start's estimate; each round
      runs the best-first loop ordered by path cost plus estimate, keeping
      only children within the limit, and the next limit is the least
      priority it left out (`overs[k]` for round `k`). The source repeats
      until a round finds the end or leaves nothing out; here at most
      `rounds` rounds run. Every priority set aside exceeds its round's
      limit and is at most `RoundCap`, so each round raises the limit by at
      least one and `RoundCap` rounds always conclude: with more rounds than
      that, no path means no walk. */
  method IdaStar(start: Cell, end: Cell, mapGrid: seq<seq<int>>, nx: int, ny: int, h: Cell -> nat, rounds: nat)
    returns (r: SearchResult<Cell>, ghost weights: seq<nat>, ghost limits: seq<real>, ghost overs: seq<seq<nat>>)
    ensures Answers(MovesOf(mapGrid, nx, ny), start, end, r, weights)
    ensures start != end ==> |limits| >= 1 && limits[0] == h(start) as real && |overs| == |limits| - 1
    ensures forall k :: 0 <= k < |limits| - 1 ==> limits[k] < limits[k + 1]
    ensures forall k :: 0 <= k < |overs| && k + 1 < |limits| ==> overs[k] != [] && limits[k + 1] == Least(overs[k]) as real
    ensures forall k, j :: 0 <= k < |overs| && k < |limits| && 0 <= j < |overs[k]| ==>
              limits[k] < overs[k][j] as real && overs[k][j] <= RoundCap(mapGrid, nx, ny, start, h)
    ensures r.NoPath? && |limits| <= rounds ==> forall p, ws :: !Walk(MovesOf(mapGrid, nx, ny), p, ws, start, end)
    ensures r.NoPath? && rounds > RoundCap(mapGrid, nx, ny, start, h) ==> forall p, ws :: !Walk(MovesOf(mapGrid, nx, ny), p, ws, start, end)
  {
    weights, limits, overs := [], [], [];
    if start == end {
      return StartIsGoal([start]), weights, limits, overs;
    }
    ghost var board := Region(nx, ny, start);
    RegionClosed(mapGrid, nx, ny, start);
    var priority: (nat, Cell) --> nat := (g: nat, c: Cell) => CostPlus(h, g, c);
    ghost var cap := RoundCap(mapGrid, nx, ny, start, h);
    EstimateCapped(mapGrid, nx, ny, start, h);
    var limit := h(start) as real;
    limits := [limit];
    for round := 0 to rounds
      invariant LeastHistory(limits, overs, cap) && |overs| == round
      invariant limits[0] == h(start) as real && limits[round] == limit
    {
      var found, aboveLimit;
      found, weights, aboveLimit := BestFirst(MovesOf(mapGrid, nx, ny), priority, board, start, end, Some(limit), cap);
      if found.Some? {
        return Found(found.value.0, found.value.1), weights, limits, overs;
      }
      if aboveLimit == [] {
        return NoPath, weights, limits, overs;
      }
      LeastHistoryGrows(limits, overs, aboveLimit, cap);
      limit := Least(aboveLimit) as real;
      overs := overs + [aboveLimit];
      limits := limits + [limit];
    }
    r := NoPath;
  }
}
