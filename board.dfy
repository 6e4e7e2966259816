/** The Eight Puzzle board: a 3x3 grid of the tiles 0..8, where 0 is the blank.
    The grid is kept row-major in a 9-cell array, cell (r, c) at index 3 * r + c. */
module Boards {
  import opened Options
  import opened Permutations

  /** `str(d)` for a single decimal digit. */
  function DigitChar(d: int): char
    requires 0 <= d <= 9
  {
    ('0' as int + d) as char
  }

  /** `int(ch)` for a decimal digit character. */
  function DigitValue(ch: char): int {
    ch as int - '0' as int
  }

  /** The goal layout [[0, 1, 2], [3, 4, 5], [6, 7, 8]], row-major: tile t belongs in cell t. */
  const GOAL_TILES: seq<int> := [0, 1, 2, 3, 4, 5, 6, 7, 8]

  /** Tile t belongs in cell t. */
  lemma GoalCells()
    ensures |GOAL_TILES| == 9 && forall i :: 0 <= i < 9 ==> GOAL_TILES[i] == i
  {
  }

  /** Nine cells holding each of the tiles 0..8 exactly once. */
  ghost predicate IsPermutation(cells: seq<int>) {
    |cells| == 9 && (forall i :: 0 <= i < 9 ==> 0 <= cells[i] < 9) && Distinct(cells)
  }

  /** What the constructor asserts of its argument: nine characters, among which each of
      the digits 0..8 occurs. */
  ghost predicate ValidDigitString(s: string) {
    |s| == 9 && forall x :: 0 <= x < 9 ==> DigitChar(x) in s
  }

  /** The row-major cell values a digit string describes. */
  function Decode(s: string): seq<int> {
    seq(|s|, i requires 0 <= i < |s| => DigitValue(s[i]))
  }

  /** The digit string of row-major cell values. */
  function Encode(cells: seq<int>): string
    requires forall i :: 0 <= i < |cells| ==> 0 <= cells[i] <= 9
  {
    seq(|cells|, i requires 0 <= i < |cells| => DigitChar(cells[i]))
  }

  /** The digit string of the goal board, "012345678". */
  const GOAL_DIGITS: string := Encode(GOAL_TILES)

  /** The constructor's check (length 9, every digit 0..8 present) admits exactly the
      permutations of "012345678"; decoding then encoding gives the string back. */
  lemma DecodeValid(s: string)
    requires ValidDigitString(s)
    ensures IsPermutation(Decode(s))
    ensures Encode(Decode(s)) == s
  {
    var digits := seq(9, i requires 0 <= i < 9 => DigitChar(i));
    forall x | x in digits
      ensures x in s
    {
      var i :| 0 <= i < 9 && digits[i] == x;
      assert DigitChar(i) in s;
    }
    Pigeonhole(s, digits);
    var g := Decode(s);
    forall i | 0 <= i < 9
      ensures 0 <= g[i] < 9
    {
      assert s[i] in digits;
    }
    forall i, j | 0 <= i < j < 9
      ensures g[i] != g[j]
    {
      assert s[i] != s[j];
    }
  }

  /** The goal layout holds exactly the tiles 0..8. */
  lemma InGoal(x: int)
    ensures x in GOAL_TILES <==> 0 <= x < 9
  {
    if 0 <= x < 9 {
      assert GOAL_TILES[x] == x;
    }
  }

  /** Every tile 0..8 occurs somewhere on a permutation. */
  lemma PermutationHasAll(cells: seq<int>)
    requires IsPermutation(cells)
    ensures forall x :: 0 <= x < 9 ==> x in cells
  {
    forall x | x in cells
      ensures x in GOAL_TILES
    {
      InGoal(x);
    }
    Pigeonhole(GOAL_TILES, cells);
    forall x | 0 <= x < 9
      ensures x in cells
    {
      InGoal(x);
    }
  }

  /** Encoding a permutation gives a string the constructor accepts, and decoding it
      gives the cells back. */
  lemma EncodeValid(cells: seq<int>)
    requires IsPermutation(cells)
    ensures ValidDigitString(Encode(cells))
    ensures Decode(Encode(cells)) == cells
  {
    PermutationHasAll(cells);
    var s := Encode(cells);
    forall x | 0 <= x < 9
      ensures DigitChar(x) in s
    {
      assert x in cells;
      var i :| 0 <= i < 9 && cells[i] == x;
      assert s[i] == DigitChar(x);
    }
  }

  /** A board's value: its cells and the blank's coordinates. */
  datatype Grid = Grid(cells: seq<int>, blankR: int, blankC: int)

  predicate InGrid(r: int, c: int) {
    0 <= r < 3 && 0 <= c < 3
  }

  /** Index of the blank's cell. */
  function BlankIndex(g: Grid): int {
    3 * g.blankR + g.blankC
  }

  /** Nine cells and blank coordinates inside the grid. */
  predicate Shaped(g: Grid) {
    |g.cells| == 9 && InGrid(g.blankR, g.blankC)
  }

  /** The board invariant: the cells are a permutation of 0..8 and the recorded blank
      position holds 0. */
  ghost predicate ValidGrid(g: Grid) {
    Shaped(g) && IsPermutation(g.cells) && g.cells[BlankIndex(g)] == 0
  }

  /** On a valid grid the blank is the only cell holding 0. */
  lemma BlankUnique(g: Grid, r: int, c: int)
    requires ValidGrid(g) && InGrid(r, c) && g.cells[3 * r + c] == 0
    ensures r == g.blankR && c == g.blankC
  {
    assert 3 * r + c == BlankIndex(g);
  }

  /** On valid grids, equal cells mean equal grids and equal digit strings. */
  lemma SameTiles(g: Grid, h: Grid)
    ensures ValidGrid(g) && ValidGrid(h) ==> (g.cells == h.cells <==> g == h)
    ensures ValidGrid(g) && ValidGrid(h) ==>
      (g.cells == h.cells <==> Encode(g.cells) == Encode(h.cells))
  {
    if ValidGrid(g) && ValidGrid(h) {
      if g.cells == h.cells {
        BlankUnique(g, h.blankR, h.blankC);
      }
      EncodeValid(g.cells);
      EncodeValid(h.cells);
    }
  }

  /** The (row, column) offset of a direction name; other names have none. */
  function Offset(direction: string): Option<(int, int)> {
    if direction == "up" then Some((-1, 0))
    else if direction == "down" then Some((1, 0))
    else if direction == "left" then Some((0, -1))
    else if direction == "right" then Some((0, 1))
    else None
  }

  /** The direction that undoes `direction`. */
  function Opposite(direction: string): string {
    if direction == "up" then "down"
    else if direction == "down" then "up"
    else if direction == "left" then "right"
    else if direction == "right" then "left"
    else direction
  }

  /** `after` is `before` with the tile from cell q slid into the blank cell p. */
  ghost predicate SlidInto(before: seq<int>, after: seq<int>, p: int, q: int) {
    |after| == |before| && 0 <= p < |before| && 0 <= q < |before| && p != q &&
    after[p] == before[q] && after[q] == 0 &&
    forall i :: 0 <= i < |before| && i != p && i != q ==> after[i] == before[i]
  }

  /** Sliding the tile from cell q into the blank cell p of a permutation gives a
      permutation with the blank at q. */
  lemma SlideKeepsPermutation(cells: seq<int>, p: int, q: int)
    requires 0 <= p < 9 && 0 <= q < 9 && p != q
    ensures IsPermutation(cells) && cells[p] == 0 ==>
      IsPermutation(cells[p := cells[q]][q := 0]) && cells[p := cells[q]][q := 0][q] == 0
  {
    if IsPermutation(cells) && cells[p] == 0 {
      var after := cells[p := cells[q]][q := 0];
      forall i, j | 0 <= i < j < 9
        ensures after[i] != after[j]
      {
        assert cells[i] != cells[j];
      }
    }
  }

  /** The effect of `move_blank`: the blank moves one cell in `direction` when that cell
      is inside the grid; an unknown direction or a move off the grid gives None. */
  function Move(g: Grid, direction: string): (r: Option<Grid>)
    requires Shaped(g)
    ensures direction == "up" ==> (r.Some? <==> g.blankR > 0)
    ensures direction == "down" ==> (r.Some? <==> g.blankR < 2)
    ensures direction == "left" ==> (r.Some? <==> g.blankC > 0)
    ensures direction == "right" ==> (r.Some? <==> g.blankC < 2)
    ensures Offset(direction).None? ==> r.None?
    ensures r.Some? ==>
      && Shaped(r.value)
      && r.value.blankR == g.blankR + Offset(direction).value.0
      && r.value.blankC == g.blankC + Offset(direction).value.1
      && SlidInto(g.cells, r.value.cells, BlankIndex(g), BlankIndex(r.value))
    ensures r.Some? && ValidGrid(g) ==> ValidGrid(r.value)
  {
    match Offset(direction)
    case None => None
    case Some(offset) =>
      var newR, newC := g.blankR + offset.0, g.blankC + offset.1;
      if InGrid(newR, newC) then
        var p, q := BlankIndex(g), 3 * newR + newC;
        SlideKeepsPermutation(g.cells, p, q);
        Some(Grid(g.cells[p := g.cells[q]][q := 0], newR, newC))
      else
        None
  }

  /** A successful move followed by the opposite move restores the board exactly. */
  lemma MoveUndo(g: Grid, direction: string)
    requires ValidGrid(g) && Move(g, direction).Some?
    ensures Move(Move(g, direction).value, Opposite(direction)) == Some(g)
  {
    var h := Move(g, direction).value;
    var back := Move(h, Opposite(direction));
    assert back.Some?;
    var p, q := BlankIndex(g), BlankIndex(h);
    assert BlankIndex(back.value) == p;
    assert back.value.cells == g.cells by {
      forall i | 0 <= i < 9
        ensures back.value.cells[i] == g.cells[i]
      {
      }
    }
  }

  /** Sum of `cost(tile, cell)` over the first n cells. */
  function CellSum(cells: seq<int>, n: nat, cost: (int, int) -> int): int
    requires n <= |cells|
  {
    if n == 0 then 0 else CellSum(cells, n - 1, cost) + cost(cells[n - 1], n - 1)
  }

  /** 1 for a non-blank tile that is not in its goal cell. */
  function MisplacedCost(tile: int, cell: int): int {
    if tile != 0 && tile != cell then 1 else 0
  }

  /** The number of misplaced non-blank tiles. */
  function Misplaced(cells: seq<int>): int
    requires |cells| == 9
  {
    CellSum(cells, 9, MisplacedCost)
  }

  /** A permutation on which every non-blank tile sits in its goal cell is the goal. */
  lemma FixedTilesIsGoal(cells: seq<int>)
    requires IsPermutation(cells)
    requires forall i :: 0 <= i < 9 ==> cells[i] == 0 || cells[i] == i
    ensures cells == GOAL_TILES
  {
    assert cells[0] == 0;
    forall i | 0 < i < 9
      ensures cells[i] == GOAL_TILES[i]
    {
      assert cells[i] != cells[0];
    }
  }

  /** The misplaced count of a prefix: bounded by the non-blank cells in it, and zero
      exactly when every non-blank tile in it is in its goal cell. */
  lemma {:induction false} MisplacedPrefix(cells: seq<int>, n: nat, k: int)
    requires n <= |cells| && 0 <= k < |cells| && cells[k] == 0
    ensures 0 <= CellSum(cells, n, MisplacedCost) <= n - (if k < n then 1 else 0)
    ensures CellSum(cells, n, MisplacedCost) == 0 <==>
      forall i :: 0 <= i < n ==> cells[i] == 0 || cells[i] == i
  {
    if n > 0 {
      MisplacedPrefix(cells, n - 1, k);
    }
  }

  /** `num_misplaced` ignores the blank, lies in 0..8 and is 0 exactly on the goal board. */
  lemma MisplacedRange(cells: seq<int>)
    requires IsPermutation(cells)
    ensures 0 <= Misplaced(cells) <= 8
    ensures Misplaced(cells) == 0 <==> cells == GOAL_TILES
  {
    PermutationHasAll(cells);
    assert 0 in cells;
    var k :| 0 <= k < 9 && cells[k] == 0;
    MisplacedPrefix(cells, 9, k);
    if Misplaced(cells) == 0 {
      FixedTilesIsGoal(cells);
    }
  }

  /** A puzzle board, updated in place only by MoveBlank. */
  class Board {
    var tiles: array<int>
    var blankR: int
    var blankC: int

    /** The board's value. */
    function Value(): Grid
      reads this, tiles
    {
      Grid(tiles[..], blankR, blankC)
    }

    ghost predicate Valid()
      reads this, tiles
    {
      tiles.Length == 9 && ValidGrid(Value())
    }

    /** Builds the board a digit string describes; the Python constructor asserts
        that the string passes ValidDigitString. */
    constructor (digitstr: string)
      requires ValidDigitString(digitstr)
      ensures Valid() && fresh(tiles)
      ensures Value().cells == Decode(digitstr)
      ensures Encode(Value().cells) == digitstr
    {
      var t := new int[9](i => 0);
      tiles := t;
      blankR, blankC := -1, -1;
      new;
      DecodeValid(digitstr);
      assert DigitChar(0) in digitstr;
      ghost var k :| 0 <= k < 9 && digitstr[k] == '0';
      assert Decode(digitstr)[k] == 0;
      var r := 0;
      while r < 3
        invariant 0 <= r <= 3 && tiles == t
        invariant forall i :: 0 <= i < 3 * r ==> t[i] == DigitValue(digitstr[i])
        invariant if k < 3 * r then InGrid(blankR, blankC) && 3 * blankR + blankC == k
                  else blankR == -1 && blankC == -1
      {
        var c := 0;
        while c < 3
          invariant 0 <= c <= 3 && tiles == t
          invariant forall i :: 0 <= i < 3 * r + c ==> t[i] == DigitValue(digitstr[i])
          invariant if k < 3 * r + c then InGrid(blankR, blankC) && 3 * blankR + blankC == k
                    else blankR == -1 && blankC == -1
        {
          var tileValue := DigitValue(digitstr[3 * r + c]);
          t[3 * r + c] := tileValue;
          if tileValue == 0 {
            assert Decode(digitstr)[3 * r + c] == 0;
            assert 3 * r + c == k;
            blankR, blankC := r, c;
          }
          c := c + 1;
        }
        r := r + 1;
      }
      assert t[..] == Decode(digitstr);
    }

    /** `move_blank`: slides the blank one cell in `direction` and reports whether it could.
        An unknown direction, or a target off the grid, changes nothing. */
    method MoveBlank(direction: string) returns (moved: bool)
      requires Valid()
      modifies this, tiles
      ensures Valid() && tiles == old(tiles)
      ensures moved == Move(old(Value()), direction).Some?
      ensures Value() == if moved then Move(old(Value()), direction).value else old(Value())
    {
      ghost var g := Value();
      var offset := Offset(direction);
      if offset.None? {
        return false;
      }
      var newR, newC := blankR + offset.value.0, blankC + offset.value.1;
      if 0 <= newR < 3 && 0 <= newC < 3 {
        var p, q := 3 * blankR + blankC, 3 * newR + newC;
        tiles[p] := tiles[q];
        tiles[q] := 0;
        blankR, blankC := newR, newC;
        assert tiles[..] == g.cells[p := g.cells[q]][q := 0];
        assert Value() == Move(g, direction).value;
        return true;
      } else {
        return false;
      }
    }

    /** `digit_string`: the row-major digits of the board, which rebuild it. */
    method DigitString() returns (s: string)
      requires Valid()
      ensures s == Encode(Value().cells)
      ensures ValidDigitString(s) && Decode(s) == Value().cells
    {
      s := "";
      for r := 0 to 3
        invariant |s| == 3 * r
        invariant forall i :: 0 <= i < |s| ==> s[i] == DigitChar(tiles[i])
      {
        for c := 0 to 3
          invariant |s| == 3 * r + c
          invariant forall i :: 0 <= i < |s| ==> s[i] == DigitChar(tiles[i])
        {
          s := s + [DigitChar(tiles[3 * r + c])];
        }
      }
      EncodeValid(Value().cells);
    }

    /** `copy`: a fresh board with the same value; moving it cannot change this one. */
    method Copy() returns (b: Board)
      requires Valid()
      ensures fresh(b) && fresh(b.tiles) && b.Valid()
      ensures b.Value() == Value()
    {
      var digits := DigitString();
      b := new Board(digits);
      assert b.Value().cells == Value().cells;
      BlankUnique(Value(), b.blankR, b.blankC);
    }

    /** `num_misplaced`: the number of non-blank tiles outside their goal cell. */
    method NumMisplaced() returns (count: int)
      requires Valid()
      ensures count == Misplaced(Value().cells)
      ensures 0 <= count <= 8
      ensures count == 0 <==> Value().cells == GOAL_TILES
    {
      var goal := GOAL_DIGITS;
      count := 0;
      for r := 0 to 3
        invariant count == CellSum(tiles[..], 3 * r, MisplacedCost)
      {
        for c := 0 to 3
          invariant count == CellSum(tiles[..], 3 * r + c, MisplacedCost)
        {
          var currentTile := tiles[3 * r + c];
          if currentTile != 0 && currentTile != DigitValue(goal[3 * r + c]) {
            count := count + 1;
          }
        }
      }
      MisplacedRange(Value().cells);
    }

    /** `__eq__`: boards are equal when their tiles are; on valid boards that fixes the
        blank too, and it is the same as having the same digit string. */
    function Equals(other: Board): (equal: bool)
      reads this, tiles, other, other.tiles
      ensures Valid() && other.Valid() ==> (equal <==> Value() == other.Value())
      ensures Valid() && other.Valid() ==>
        (equal <==> Encode(Value().cells) == Encode(other.Value().cells))
    {
      SameTiles(Value(), other.Value());
      tiles[..] == other.tiles[..]
    }
  }
}
