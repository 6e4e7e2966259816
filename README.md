# Eight Puzzle search engine, in Dafny

This project models the search engine of an Eight Puzzle solver in three layers:
boards, search nodes and searchers. It also proves properties of each layer.

- **Boards** (`board.dfy`, module `Boards`). A board is a 3×3 grid of the tiles 0..8, where
  0 is the blank. It also records the blank's row and column.
  - A class `Board` holds the grid in a 9-cell array, row-major: cell (r, c) is at index 3r + c.
  - Its value is the datatype `Grid`.
  - The board invariant is "the cells are a permutation of 0..8 and the recorded blank cell
    holds 0".
  - Operations:
    - the constructor takes a 9-digit string;
    - `move_blank` (`MoveBlank`) updates the board in place, as specified by the function `Move`;
    - `digit_string`, `copy` and `num_misplaced`;
    - equality.
  - `__eq__` compares a board's tile matrix with the other *board*. Python answers that
    comparison through the reflected call on the other board, so it ends up comparing the two
    tile matrices. `Equals` models that result.
- **Search nodes** (`state.dfy`, module `States`). A node is an immutable `State`. It holds:
  - a board snapshot;
  - an optional predecessor;
  - the move that reached it;
  - its depth `numMoves`.

  The module also covers the goal test, successor generation (moves tried in the order up,
  down, left, right) and cycle detection along the ancestor chain.
- **Heuristics** (`heuristics.dfy`, module `Heuristics`): `h0`, `h1` (misplaced tiles) and
  `h2` as the program computes it, plus a corrected `h2` (see Findings). The module proves
  which of them never overestimate the number of moves to the goal, and that `h2` as
  written does.
- **Searchers** (`searcher.dfy`, module `Searchers`). One class `Searcher` covers all five
  searcher classes through a `Strategy`: random, breadth-first, depth-first, greedy and A*.
  - It holds a frontier of entries (`Plain(state)`, or `Ranked(priority, state)` for the
    informed strategies), a tested count and a depth limit (-1 for none).
  - It runs the shared expand-and-test loop `find_solution`.

`options.dfy` holds the `Option` type. `permutations.dfy` holds the counting lemmas the
permutation invariant rests on.

## Model

| member | source | states |
|---|---|---|
| Boards.DecodeValid | board.py:20-22 | The constructor's check (length 9, each digit 0..8 present) admits exactly the permutations of 0..8. The decoded digits encode back to the same string. |
| Boards.Board.constructor | board.py:13-38 | The new board is valid. Cell 3r+c holds digit 3r+c of the string, and the recorded blank is the cell holding 0. Its digit string is the argument. |
| Boards.Move | board.py:55-83 | "up", "down", "left" and "right" succeed exactly when the target cell is on the grid. Any other direction fails. On success, the blank moves by the direction's offset and the target tile slides into the old blank cell. Every other cell is unchanged, and the permutation invariant is kept. |
| Boards.MoveUndo | board.py:60-81 | A successful move followed by the opposite move restores the board exactly, digit string included. |
| Boards.Board.MoveBlank | board.py:55-83 | Returns whether `Move` succeeds on the old board. The new board is `Move`'s result, or the old board when the move fails. The board stays valid and keeps its array. |
| Boards.Board.DigitString | board.py:86-94 | Returns the row-major digits of the board. The constructor accepts them and they decode back to the board's cells. |
| Boards.EncodeValid | board.py:86-94 | The digit string of any valid board passes the constructor's check and decodes back to its cells. |
| Boards.Board.Copy | board.py:97-100 | Returns a fresh board, with a fresh array, holding an equal value. Moving its blank therefore cannot change the original. |
| Boards.Board.NumMisplaced | board.py:103-114 | Counts the non-blank tiles not in their goal cell. The count is in 0..8 and is 0 exactly on the goal board. |
| Boards.MisplacedRange | board.py:103-114 | On any permutation the misplaced count lies in 0..8 and is 0 exactly on the goal layout. |
| Boards.SameTiles | board.py:116-119 | On valid boards, equal tile grids, equal boards and equal digit strings coincide. |
| Boards.Board.Equals | board.py:116-119 | On valid boards, the result holds exactly when the values are equal, and exactly when the digit strings are equal. |
| States.NewState | state.py:26-34 | Stores the board, predecessor and move. A node is well formed exactly when its predecessor is absent or well formed. A well-formed node's depth is its number of ancestors. |
| States.DepthIsChainLength | state.py:31-34 | The constructor's depth rule (0 for a root, predecessor's depth + 1 otherwise) makes the depth equal to the length of the ancestor chain. |
| States.GoalTests | state.py:13-15 | On a valid board, three tests agree: tiles equal to the goal layout, no misplaced tile, and digit string "012345678". |
| States.IsGoal | state.py:36-38 | On a valid board, true exactly when no tile is misplaced, and exactly when the digit string is "012345678". |
| States.SuccessorsSound | state.py:44-48 | Every generated node has the node as predecessor, depth one more, a move label from MOVES, and as board the node's board after that move. It is itself good. |
| States.SuccessorsComplete | state.py:44-48 | Each move in MOVES that succeeds on the board yields a generated node labelled with it. |
| Boards.GoalCells | state.py:13-15 | The goal layout `GOAL_TILES` holds tile t in cell t, that is in row t//3 and column t%3. |
| States.MovesAreDirections | state.py:17-19 | `MOVES` holds exactly the directions `move_blank` accepts, and the opposite of each move is also in `MOVES`. |
| States.SuccessorsOrdered | state.py:19 | The generated nodes come in the order of their moves in MOVES: up, down, left, right. |
| States.SuccessorCount | state.py:40-49 | Between 2 and 4 nodes are generated: one per neighbouring cell of the blank. |
| States.SuccessorsSpec | state.py:40-49 | All of the above together, for the full move list. |
| States.GenerateSuccessors | state.py:40-49 | The loop, which moves a fresh board for each move, returns exactly `Successors(s)`. The node's own board is a value and is never moved. |
| States.CreatesCycle | state.py:61-72 | True exactly when some strict ancestor has the same tiles. A root never creates a cycle. |
| States.BackAndForthRepeats | state.py:61-72 | A move followed by the opposite move (for example "up" then "down") yields a node that repeats its grandparent's board. |
| Heuristics.H0 | searcher.py:83-85 | `h0` is 0 for every node. |
| Heuristics.H1 | searcher.py:88-92 | `h1` is in 0..8 and is 0 exactly on a goal node. |
| Heuristics.MisplacedAdmissible | searcher.py:88-92 | The misplaced count never exceeds the length of any move sequence that solves the board. |
| Heuristics.H2 | searcher.py:94-106 | The nested loop computes the as-written sum: for each non-blank tile t, abs(r − (t−1)//3) + abs(c − (t−1)%3). The result is never negative. |
| Heuristics.AsWrittenNonNegative | searcher.py:94-106 | The as-written sum is non-negative for every nine cells. |
| Heuristics.AsWrittenZeroIff | searcher.py:94-106 | On a valid board, the as-written sum is 0 exactly on "123456780", which is not the goal layout. |
| Heuristics.H2OverestimatesAtGoal | searcher.py:94-106 | The as-written sum is 12 on the goal board, which the empty move sequence solves. |
| Heuristics.ManhattanZeroIffGoal | searcher.py:94-106 | With goal cell (t/3, t%3), the Manhattan sum is non-negative and 0 exactly on the goal layout. |
| Heuristics.ManhattanAdmissible | searcher.py:94-106 | With goal cell (t/3, t%3), the Manhattan sum never exceeds the length of any solving move sequence. |
| Heuristics.Estimate | searcher.py:83-106 | On a valid board every heuristic is non-negative. `h1` and the corrected `h2` are 0 exactly on a goal node. `h2` as written (`RowColumnDistances`) is 0 exactly on "123456780". |
| Heuristics.EstimateAdmissible | searcher.py:83-106 | `h0`, `h1` and the corrected `h2` never exceed the length of a move sequence that solves the board. |
| Heuristics.EstimateOverestimates | searcher.py:94-106 | `h2` as written gives every goal node 12, although the empty move sequence solves it, so it is not admissible. |
| Searchers.Priority | searcher.py:124-127 | A priority is never positive. For A* it is at most minus the depth. For `h1` and the corrected `h2` it is 0 exactly on a goal node (for A*, a goal that is also a root). For `h2` as written it is 0 exactly on "123456780" (for A*, at the root). |
| Searchers.PriorityBound | searcher.py:219-222 | With an admissible heuristic, minus the greedy priority is at most the remaining solution length, and minus the A* priority is at most the depth plus the remaining solution length. |
| Searchers.AsWrittenPriorityAtGoal | searcher.py:124-127 | With `h2` as written, a goal node gets greedy priority −12 and A* priority −12 minus its depth, so a non-goal node of priority 0 is taken before it. |
| Searchers.EntryFor | searcher.py:129-137 | The informed strategies store a `[priority, state]` pair, and the others the bare node. |
| Searchers.FirstMaxIndex | searcher.py:144-147 | The index of an entry of maximal priority. Every earlier entry has strictly lower priority, so ties go to the lowest index. |
| Searchers.ScanBest | searcher.py:144-147 | The scan loop with strict `>` returns `FirstMaxIndex`. |
| Searchers.Without | searcher.py:150-154 | The rebuild loop keeps every other entry, in order, and loses exactly one occurrence of the chosen one. |
| Searchers.Remove | searcher.py:65-67 | Removing index k shortens the list by one and shifts the later elements down. Exactly one occurrence of the removed element is lost. |
| Searchers.Searcher.constructor | searcher.py:20-24 | Empty frontier, nothing tested, and the given depth limit and strategy. |
| Searchers.Searcher.ShouldAdd | searcher.py:40-48 | False when a depth limit other than -1 is exceeded. Otherwise, false exactly when the node repeats an ancestor's board. |
| Searchers.BackAndForthPruned | searcher.py:40-48 | The back-and-forth successor is among the generated successors and is always turned away. |
| Searchers.Searcher.AddState | searcher.py:50-53 | Appends the node's entry (with its priority for greedy and A*) and keeps the frontier invariant. |
| Searchers.Searcher.AddStates | searcher.py:55-59 | The existing entries are unchanged, followed by `Admitted(news)`. |
| Searchers.AdmittedSpec | searcher.py:55-59 | `Admitted(news)` holds an entry for every node `should_add` accepts and for no other node. Every entry is stored as the strategy stores it. |
| Searchers.Searcher.NextStateRandom | searcher.py:61-67 | Returns the node of some entry and removes exactly that entry. |
| Searchers.Searcher.NextStateFirst | searcher.py:176-189 | None on an empty frontier. Otherwise it returns the oldest entry's node and leaves the rest in order. |
| Searchers.Searcher.NextStateLast | searcher.py:195-205 | None on an empty frontier. Otherwise it returns the newest entry's node and leaves the rest in order. |
| Searchers.Searcher.NextStateBest | searcher.py:139-156 | None on an empty frontier. Otherwise it returns the node at `FirstMaxIndex` and removes only that entry. |
| Searchers.Searcher.NextState | searcher.py:61-67 | On a non-empty frontier, removes the one entry the strategy chooses and returns its node. On an empty frontier, returns None (the random searcher requires a non-empty frontier). |
| Searchers.Searcher.Expand | searcher.py:79-80 | The new frontier is the old one followed by `Admitted(Successors(s))`: the entries of the generated successors that pass `should_add`, in order. |
| Searchers.Searcher.TestNext | searcher.py:75-80 | One pass of the loop: removes the strategy's chosen entry and counts its node as tested. Unless that node is a goal, the entries of its admitted successors are appended. This is stated as `Round(old frontier, node, new frontier)`. |
| Searchers.Searcher.FindSolution | searcher.py:69-81 | The first frontier is the old one plus the initial node's entry. Each tested node is linked by `Round` to the frontier before its test and the one after, and the final frontier is the searcher's. So the run is one removal and test per tested node, plus one expansion per non-goal node. It returns only a goal, the last node tested, and no earlier node tested was a goal. It reports no solution only on an empty frontier. Every entry it adds, other than the initial node, passed `should_add`, so none is deeper than a set limit. On a searcher whose frontier is empty, the initial node is tested first and a goal initial node is returned at once. Every driver call in eight_puzzle.py (lines 58-67 and 91-98) starts on a freshly created searcher, whose frontier is empty. |

## Left out

- `eight_puzzle.py` is not part of this model. That covers the console driver, batch processing, timing and the catching of a keyboard interrupt.
- All `__repr__` methods, `State.print_moves_to` and `State.__gt__` are left out. They format output, and Python's `max()` needs the last; the greedy searcher never calls `max()`.
- The `print` for an unknown direction in `move_blank` is left out; only the `False` result is kept.
- Boards.Board.constructor: the source's `assert` on the digit string is a precondition, not a modelled failure.
- The tile matrix is a flat 9-cell array, with `tiles[r][c]` at index 3r + c.
- A node holds a board *value* rather than a reference to a `Board` object. Sharing and aliasing between nodes are therefore not modelled. No board is moved after it is placed in a node, so no behaviour depends on them.
- States.GenerateSuccessors: it makes its copy with the constructor on the node's digit string, as `Board.copy` does. `Board.Copy` itself is modelled separately.
- The identity semantics of `list.remove` are left out. Frontier entries are distinct objects, so removal is modelled by index.
- `random.choice` is a nondeterministic choice; its distribution is not modelled.
- Searchers.Searcher.NextStateRandom: it requires a non-empty frontier. `random.choice` raises on an empty list, and `find_solution` never calls it then.
- Heuristics.H1: it requires a valid board. The source only applies heuristics to search nodes, whose boards are valid. The same holds for Heuristics.Estimate and Searchers.Priority.
- Heuristic functions are named by a `Heuristic` value rather than passed as arbitrary callables. `RowColumnDistances` is the source's `h2`. `ManhattanDistance`, the corrected `h2` of Findings, is an extra choice that the source does not offer.
- Searchers.Searcher.FindSolution: `maxTests` bounds the number of tests and stands for the user interrupting the search. Termination without it, completeness, and the optimality of breadth-first search and A* are not stated.
- The example searches (for instance, breadth-first search from "125340678") are not proved.
- Integers are unbounded, as Python's are; no width limit applies.

## Findings

| source | as written | input that shows it | evidently intended | confidence | as-written member | corrected member |
|---|---|---|---|---|---|---|
| searcher.py:103-104 | `h2` takes the goal cell of tile t to be ((t−1)//3, (t−1)%3), the layout with the blank last. | The goal board "012345678": `h2` returns 12 although no move is needed, so it is not admissible and is not 0 at the goal. | Goal cell (t//3, t%3), matching GOAL_TILES in state.py:13-15, where tile t sits in cell t. | not executed; follows from the proved value 12 | Heuristics.EstimateOverestimates | Heuristics.ManhattanAdmissible |
