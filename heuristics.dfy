/** The integer cost estimates the informed searchers rank nodes by. */
module Heuristics {
  import opened Options
  import opened Boards
  import opened States

  function Abs(x: int): int {
    if x < 0 then -x else x
  }

  /** Cell 3 * r + c is in row r and column c. */
  lemma RowColumn(r: int, c: int)
    requires 0 <= r < 3 && 0 <= c < 3
    ensures (3 * r + c) / 3 == r && (3 * r + c) % 3 == c
  {
  }

  /** Cells p and q share a side. */
  ghost predicate Adjacent(p: int, q: int) {
    0 <= p < 9 && 0 <= q < 9 && Abs(p / 3 - q / 3) + Abs(p % 3 - q % 3) == 1
  }

  /** The blank moves to a cell next to the one it leaves. */
  lemma MoveAdjacent(g: Grid, direction: string)
    requires Shaped(g) && Move(g, direction).Some?
    ensures Adjacent(BlankIndex(g), BlankIndex(Move(g, direction).value))
  {
    var h := Move(g, direction).value;
    assert BlankIndex(g) / 3 == g.blankR && BlankIndex(g) % 3 == g.blankC;
    assert BlankIndex(h) / 3 == h.blankR && BlankIndex(h) % 3 == h.blankC;
  }

  /** The grid reached by making the moves in order, if every one of them succeeds. */
  function Apply(g: Grid, moves: seq<string>): Option<Grid>
    requires Shaped(g)
    decreases |moves|
  {
    if moves == [] then Some(g)
    else
      match Move(g, moves[0])
      case None => None
      case Some(h) => Apply(h, moves[1..])
  }

  /** The moves take g to the goal layout. */
  ghost predicate Solves(g: Grid, moves: seq<string>)
    requires Shaped(g)
  {
    Apply(g, moves).Some? && Apply(g, moves).value.cells == GOAL_TILES
  }

  /** A per-cell cost that is 0 for the blank and rises by at most 1 when a tile slides
      to a neighbouring cell. */
  ghost predicate StepBounded(cost: (int, int) -> int) {
    && (forall cell :: cost(0, cell) == 0)
    && (forall t, p, q :: Adjacent(p, q) ==> cost(t, q) <= cost(t, p) + 1)
  }

  /** Replacing one cell changes a cell sum by the change in that cell's cost. */
  lemma {:induction false} SumUpdate(cells: seq<int>, n: nat, k: int, v: int, cost: (int, int) -> int)
    requires n <= |cells| && 0 <= k < |cells|
    ensures CellSum(cells[k := v], n, cost) ==
      CellSum(cells, n, cost) + if k < n then cost(v, k) - cost(cells[k], k) else 0
  {
    if n > 0 {
      SumUpdate(cells, n - 1, k, v, cost);
    }
  }

  /** A move changes a cell sum whose blank cost is 0 by the moved tile's cost in its new
      cell minus its cost in its old one. */
  lemma MoveChangesSum(g: Grid, direction: string, cost: (int, int) -> int)
    requires ValidGrid(g) && Move(g, direction).Some?
    requires forall cell :: cost(0, cell) == 0
    ensures var h := Move(g, direction).value;
      var p, q := BlankIndex(g), BlankIndex(h);
      CellSum(h.cells, 9, cost) == CellSum(g.cells, 9, cost) + cost(g.cells[q], p) - cost(g.cells[q], q)
  {
    var h := Move(g, direction).value;
    var p, q := BlankIndex(g), BlankIndex(h);
    var mid := g.cells[p := g.cells[q]];
    SumUpdate(g.cells, 9, p, g.cells[q], cost);
    SumUpdate(mid, 9, q, 0, cost);
    assert h.cells == mid[q := 0];
  }

  /** The goal board costs nothing when every tile costs nothing in its own cell. */
  lemma {:induction false} GoalSumZero(n: nat, cost: (int, int) -> int)
    requires n <= 9
    requires forall t :: 0 <= t < 9 ==> cost(t, t) == 0
    ensures CellSum(GOAL_TILES, n, cost) == 0
  {
    GoalCells();
    if n > 0 {
      GoalSumZero(n - 1, cost);
    }
  }

  /** A step-bounded cost that vanishes on the goal never overestimates the number of
      moves to the goal. */
  lemma {:induction false} StepBoundedAdmissible(g: Grid, moves: seq<string>, cost: (int, int) -> int)
    requires ValidGrid(g) && Solves(g, moves)
    requires StepBounded(cost)
    requires forall t :: 0 <= t < 9 ==> cost(t, t) == 0
    ensures CellSum(g.cells, 9, cost) <= |moves|
    decreases |moves|
  {
    if moves == [] {
      GoalSumZero(9, cost);
    } else {
      var h := Move(g, moves[0]).value;
      StepBoundedAdmissible(h, moves[1..], cost);
      MoveChangesSum(g, moves[0], cost);
      MoveAdjacent(g, moves[0]);
    }
  }

  /** `h0`: the same estimate, 0, for every node. */
  function H0(s: State): (estimate: int)
    ensures estimate == 0
  {
    0
  }

  /** `h1`: the number of misplaced tiles; in 0..8 and 0 exactly at the goal. */
  function H1(s: State): (estimate: int)
    requires ValidGrid(s.board)
    ensures 0 <= estimate <= 8
    ensures estimate == 0 <==> IsGoal(s)
  {
    MisplacedRange(s.board.cells);
    Misplaced(s.board.cells)
  }

  /** Misplaced-tile counting never overestimates the moves to the goal. */
  lemma MisplacedAdmissible(g: Grid, moves: seq<string>)
    requires ValidGrid(g) && Solves(g, moves)
    ensures Misplaced(g.cells) <= |moves|
  {
    StepBoundedAdmissible(g, moves, MisplacedCost);
  }

  /** The cost `h2` charges tile `tile` in cell `cell`, with the goal cell of tile t taken
      to be row (t - 1) // 3, column (t - 1) % 3. */
  function AsWrittenCost(tile: int, cell: int): int {
    if tile == 0 then 0 else Abs(cell / 3 - (tile - 1) / 3) + Abs(cell % 3 - (tile - 1) % 3)
  }

  function ManhattanAsWritten(cells: seq<int>): int
    requires |cells| == 9
  {
    CellSum(cells, 9, AsWrittenCost)
  }

  /** A sum of costs that are never negative is never negative. */
  lemma {:induction false} CellSumNonNegative(cells: seq<int>, n: nat, cost: (int, int) -> int)
    requires n <= |cells|
    requires forall t, cell :: cost(t, cell) >= 0
    ensures CellSum(cells, n, cost) >= 0
  {
    if n > 0 {
      CellSumNonNegative(cells, n - 1, cost);
    }
  }

  /** `h2` as written is never negative, whatever the cells hold. */
  lemma AsWrittenNonNegative(cells: seq<int>)
    requires |cells| == 9
    ensures ManhattanAsWritten(cells) >= 0
  {
    CellSumNonNegative(cells, 9, AsWrittenCost);
  }

  /** The layout `h2` as written charges nothing for: tile t in cell t - 1, the blank
      last, that is "123456780". */
  const SHIFTED_TILES: seq<int> := [1, 2, 3, 4, 5, 6, 7, 8, 0]

  /** The as-written sum of a prefix is zero exactly when every non-blank tile in it sits
      one cell before its number. */
  lemma {:induction false} AsWrittenPrefix(cells: seq<int>, n: nat)
    requires IsPermutation(cells) && n <= 9
    ensures CellSum(cells, n, AsWrittenCost) == 0 <==>
      forall i :: 0 <= i < n ==> cells[i] == 0 || cells[i] == i + 1
  {
    if n > 0 {
      AsWrittenPrefix(cells, n - 1);
      CellSumNonNegative(cells, n - 1, AsWrittenCost);
      var t, i := cells[n - 1], n - 1;
      assert AsWrittenCost(t, i) == 0 <==> t == 0 || t == i + 1 by {
        assert i == 3 * (i / 3) + i % 3;
        assert t != 0 ==> t - 1 == 3 * ((t - 1) / 3) + (t - 1) % 3;
      }
    }
  }

  /** On a permutation, `h2` as written is 0 exactly on "123456780", which is not the
      goal layout. */
  lemma AsWrittenZeroIff(cells: seq<int>)
    requires IsPermutation(cells)
    ensures ManhattanAsWritten(cells) == 0 <==> cells == SHIFTED_TILES
    ensures SHIFTED_TILES != GOAL_TILES
  {
    AsWrittenPrefix(cells, 9);
    if ManhattanAsWritten(cells) == 0 {
      assert cells[8] == 0;
      forall i | 0 <= i < 8
        ensures cells[i] == SHIFTED_TILES[i]
      {
        assert cells[i] != cells[8];
      }
    }
    assert SHIFTED_TILES[0] != GOAL_TILES[0];
  }

  /** Adding cell (r, c) to the sum adds `h2`'s charge for the tile there. */
  lemma AsWrittenStep(tiles: seq<int>, r: int, c: int)
    requires |tiles| == 9 && 0 <= r < 3 && 0 <= c < 3
    ensures var tile := tiles[3 * r + c];
      CellSum(tiles, 3 * r + c + 1, AsWrittenCost) == CellSum(tiles, 3 * r + c, AsWrittenCost) +
        if tile == 0 then 0 else Abs(r - (tile - 1) / 3) + Abs(c - (tile - 1) % 3)
  {
    RowColumn(r, c);
  }

  /** `h2` as written: the nested loop over rows and columns with an accumulator. */
  method H2(s: State) returns (distance: int)
    requires |s.board.cells| == 9
    ensures distance == ManhattanAsWritten(s.board.cells)
    ensures distance >= 0
  {
    var tiles := s.board.cells;
    distance := 0;
    for r := 0 to 3
      invariant distance == CellSum(tiles, 3 * r, AsWrittenCost)
    {
      for c := 0 to 3
        invariant distance == CellSum(tiles, 3 * r + c, AsWrittenCost)
      {
        var tile := tiles[3 * r + c];
        AsWrittenStep(tiles, r, c);
        if tile != 0 {
          var goalR := (tile - 1) / 3;
          var goalC := (tile - 1) % 3;
          distance := distance + Abs(r - goalR) + Abs(c - goalC);
        }
      }
    }
    AsWrittenNonNegative(tiles);
  }

  /** As written, `h2` charges 12 on the goal board, which needs no move: it
      overestimates. */
  lemma H2OverestimatesAtGoal()
    ensures ValidGrid(Grid(GOAL_TILES, 0, 0)) && Solves(Grid(GOAL_TILES, 0, 0), [])
    ensures ManhattanAsWritten(GOAL_TILES) == 12
  {
    GoalCells();
    assert IsPermutation(GOAL_TILES);
    var g := GOAL_TILES;
    assert CellSum(g, 1, AsWrittenCost) == 0;
    assert CellSum(g, 2, AsWrittenCost) == 1;
    assert CellSum(g, 3, AsWrittenCost) == 2;
    assert CellSum(g, 4, AsWrittenCost) == 5;
    assert CellSum(g, 5, AsWrittenCost) == 6;
    assert CellSum(g, 6, AsWrittenCost) == 7;
    assert CellSum(g, 7, AsWrittenCost) == 10;
    assert CellSum(g, 8, AsWrittenCost) == 11;
    assert CellSum(g, 9, AsWrittenCost) == 12;
  }

  /** The Manhattan cost with the goal cell of tile t at row t / 3, column t % 3, which
      is where GOAL_TILES puts it. */
  function ManhattanCost(tile: int, cell: int): int {
    if tile == 0 then 0 else Abs(cell / 3 - tile / 3) + Abs(cell % 3 - tile % 3)
  }

  /** Corrected `h2`: the sum of each non-blank tile's row and column distance from its
      goal cell. */
  function Manhattan(cells: seq<int>): int
    requires |cells| == 9
  {
    CellSum(cells, 9, ManhattanCost)
  }

  /** The Manhattan sum of a prefix is non-negative, and zero exactly when every non-blank
      tile in it is in its goal cell. */
  lemma {:induction false} ManhattanPrefix(cells: seq<int>, n: nat)
    requires IsPermutation(cells) && n <= 9
    ensures CellSum(cells, n, ManhattanCost) >= 0
    ensures CellSum(cells, n, ManhattanCost) == 0 <==>
      forall i :: 0 <= i < n ==> cells[i] == 0 || cells[i] == i
  {
    if n > 0 {
      ManhattanPrefix(cells, n - 1);
      var t, i := cells[n - 1], n - 1;
      assert ManhattanCost(t, i) == 0 <==> t == 0 || t == i by {
        assert i == 3 * (i / 3) + i % 3 && t == 3 * (t / 3) + t % 3;
      }
    }
  }

  /** The corrected `h2` is non-negative and 0 exactly on the goal board. */
  lemma ManhattanZeroIffGoal(cells: seq<int>)
    requires IsPermutation(cells)
    ensures Manhattan(cells) >= 0
    ensures Manhattan(cells) == 0 <==> cells == GOAL_TILES
  {
    ManhattanPrefix(cells, 9);
    GoalCells();
    if Manhattan(cells) == 0 {
      FixedTilesIsGoal(cells);
    }
  }

  /** The corrected `h2` never overestimates the moves to the goal. */
  lemma ManhattanAdmissible(g: Grid, moves: seq<string>)
    requires ValidGrid(g) && Solves(g, moves)
    ensures Manhattan(g.cells) <= |moves|
  {
    assert StepBounded(ManhattanCost);
    StepBoundedAdmissible(g, moves, ManhattanCost);
  }

  /** Which heuristic an informed searcher uses: `h0`, `h1`, `h2` as the program
      computes it, or the corrected `h2`. */
  datatype Heuristic = Zero | MisplacedTiles | RowColumnDistances | ManhattanDistance

  /** The heuristics that are 0 exactly on a goal node. */
  predicate ExactAtGoal(h: Heuristic) {
    h.MisplacedTiles? || h.ManhattanDistance?
  }

  /** The heuristics that never overestimate the moves to the goal; `h2` as written is
      not one of them (EstimateOverestimates). */
  predicate Admissible(h: Heuristic) {
    !h.RowColumnDistances?
  }

  /** The estimate a heuristic gives a node. */
  function Estimate(h: Heuristic, s: State): (estimate: int)
    requires ValidGrid(s.board)
    ensures estimate >= 0
    ensures ExactAtGoal(h) ==> (estimate == 0 <==> IsGoal(s))
    ensures h.RowColumnDistances? ==> (estimate == 0 <==> s.board.cells == SHIFTED_TILES)
  {
    match h
    case Zero => H0(s)
    case MisplacedTiles => H1(s)
    case RowColumnDistances =>
      AsWrittenNonNegative(s.board.cells);
      AsWrittenZeroIff(s.board.cells);
      ManhattanAsWritten(s.board.cells)
    case ManhattanDistance =>
      ManhattanZeroIffGoal(s.board.cells);
      Manhattan(s.board.cells)
  }

  /** The admissible heuristics never exceed the length of a solving move sequence. */
  lemma EstimateAdmissible(h: Heuristic, s: State, moves: seq<string>)
    requires ValidGrid(s.board) && Solves(s.board, moves)
    ensures Admissible(h) ==> Estimate(h, s) <= |moves|
  {
    match h
    case Zero =>
    case MisplacedTiles => MisplacedAdmissible(s.board, moves);
    case RowColumnDistances =>
    case ManhattanDistance => ManhattanAdmissible(s.board, moves);
  }

  /** `h2` as written estimates 12 for every goal node, which the empty move sequence
      solves: it overestimates. */
  lemma EstimateOverestimates(s: State)
    requires ValidGrid(s.board) && IsGoal(s)
    ensures Solves(s.board, [])
    ensures Estimate(RowColumnDistances, s) == 12
  {
    assert Estimate(RowColumnDistances, s) == ManhattanAsWritten(s.board.cells);
    assert ManhattanAsWritten(GOAL_TILES) == 12 by {
      H2OverestimatesAtGoal();
    }
  }
}
