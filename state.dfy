/** A node of the search tree: a frozen board, the node it was reached from, the move
    that reached it and its depth. */
module States {
  import opened Options
  import opened Boards

  /** The moves successors are generated for, in this order. */
  const MOVES: seq<string> := ["up", "down", "left", "right"]

  /** MOVES are exactly the directions `move_blank` knows, and the opposite of each is
      among them. */
  lemma MovesAreDirections(direction: string)
    ensures direction in MOVES <==> Offset(direction).Some?
    ensures direction in MOVES ==> Opposite(direction) in MOVES && Opposite(Opposite(direction)) == direction
  {
  }

  /** Position of a move name in MOVES. */
  function MoveRank(move: string): int {
    if move == "up" then 0 else if move == "down" then 1 else if move == "left" then 2 else 3
  }

  /** A search node. Its board is a snapshot: no board is moved after it is placed in a node. */
  datatype State = State(board: Grid, predecessor: Option<State>, move: string, numMoves: int)

  /** The predecessors of a node and of theirs, nearest first. */
  function Chain(o: Option<State>): seq<State>
    decreases o
  {
    match o
    case None => []
    case Some(p) => [p] + Chain(p.predecessor)
  }

  /** The strict ancestors of s, nearest first. */
  function Ancestors(s: State): seq<State> {
    Chain(s.predecessor)
  }

  /** Every node on the chain got its depth from the constructor's rule. */
  ghost predicate WellFormed(s: State)
    decreases s
  {
    match s.predecessor
    case None => s.numMoves == 0
    case Some(p) => s.numMoves == p.numMoves + 1 && WellFormed(p)
  }

  /** The depth of a well-formed node is the number of its ancestors. */
  lemma {:induction false} DepthIsChainLength(s: State)
    ensures WellFormed(s) ==> s.numMoves == |Ancestors(s)|
    decreases s
  {
    match s.predecessor
    case None =>
    case Some(p) => DepthIsChainLength(p);
  }

  /** A node whose board is valid and whose depths are consistent. */
  ghost predicate Good(s: State) {
    ValidGrid(s.board) && WellFormed(s)
  }

  /** `State.__init__`: a root has depth 0, any other node one more than its predecessor. */
  function NewState(board: Grid, predecessor: Option<State>, move: string): (s: State)
    ensures s.board == board && s.predecessor == predecessor && s.move == move
    ensures WellFormed(s) <==> predecessor.None? || WellFormed(predecessor.value)
    ensures WellFormed(s) ==> s.numMoves == |Ancestors(s)| && s.numMoves >= 0
  {
    DepthIsChainLength(State(board, predecessor, move,
                   if predecessor.None? then 0 else predecessor.value.numMoves + 1));
    State(board, predecessor, move,
          if predecessor.None? then 0 else predecessor.value.numMoves + 1)
  }

  /** The goal tests agree: goal tiles, no misplaced tile, goal digit string. */
  lemma GoalTests(g: Grid)
    ensures ValidGrid(g) ==> (g.cells == GOAL_TILES <==> Misplaced(g.cells) == 0)
    ensures ValidGrid(g) ==> (g.cells == GOAL_TILES <==> Encode(g.cells) == GOAL_DIGITS)
  {
    if ValidGrid(g) {
      MisplacedRange(g.cells);
      EncodeValid(g.cells);
      assert IsPermutation(GOAL_TILES);
      EncodeValid(GOAL_TILES);
    }
  }

  /** `is_goal`: the board is the goal layout, which is the board with no misplaced tile
      and the board whose digit string is "012345678". */
  function IsGoal(s: State): (goal: bool)
    ensures ValidGrid(s.board) ==> (goal <==> Misplaced(s.board.cells) == 0)
    ensures ValidGrid(s.board) ==> (goal <==> Encode(s.board.cells) == GOAL_DIGITS)
  {
    GoalTests(s.board);
    s.board.cells == GOAL_TILES
  }

  /** The successors of s for the moves in `moves`, in that order. */
  function SuccessorsVia(s: State, moves: seq<string>): seq<State>
    requires Shaped(s.board)
    decreases |moves|
  {
    if moves == [] then []
    else
      var earlier := SuccessorsVia(s, moves[..|moves| - 1]);
      var m := moves[|moves| - 1];
      match Move(s.board, m)
      case None => earlier
      case Some(b) => earlier + [NewState(b, Some(s), m)]
  }

  /** The successors of s: one per move in MOVES that succeeds. */
  function Successors(s: State): seq<State>
    requires Shaped(s.board)
  {
    SuccessorsVia(s, MOVES)
  }

  /** t is the node reached from s by the move it is labelled with. */
  ghost predicate SuccessorOf(s: State, t: State)
    requires Shaped(s.board)
  {
    && t.predecessor == Some(s) && t.numMoves == s.numMoves + 1
    && t.move in MOVES && Move(s.board, t.move) == Some(t.board) && Good(t)
  }

  /** Every node generated for the first n moves of MOVES is a successor of s, labelled
      with one of those moves. */
  lemma {:induction false} SuccessorsSound(s: State, n: nat)
    requires Good(s) && n <= 4
    ensures forall t :: t in SuccessorsVia(s, MOVES[..n]) ==> SuccessorOf(s, t) && MoveRank(t.move) < n
  {
    if n > 0 {
      SuccessorsSound(s, n - 1);
      assert MOVES[..n][..n - 1] == MOVES[..n - 1];
      assert MOVES[n - 1] in MOVES && MoveRank(MOVES[n - 1]) == n - 1;
    }
  }

  /** Each of the first n moves of MOVES that succeeds yields a node. */
  lemma {:induction false} SuccessorsComplete(s: State, n: nat)
    requires Shaped(s.board) && n <= 4
    ensures forall i :: 0 <= i < n && Move(s.board, MOVES[i]).Some? ==>
      exists t :: t in SuccessorsVia(s, MOVES[..n]) && t.move == MOVES[i]
  {
    if n > 0 {
      SuccessorsComplete(s, n - 1);
      var front := SuccessorsVia(s, MOVES[..n - 1]);
      var r := SuccessorsVia(s, MOVES[..n]);
      assert MOVES[..n][..n - 1] == MOVES[..n - 1];
      assert MOVES[..n][n - 1] == MOVES[n - 1];
      forall i | 0 <= i < n && Move(s.board, MOVES[i]).Some?
        ensures exists t :: t in r && t.move == MOVES[i]
      {
        if i < n - 1 {
          var t :| t in front && t.move == MOVES[i];
          assert t in r;
        } else {
          var t := NewState(Move(s.board, MOVES[i]).value, Some(s), MOVES[i]);
          assert r == front + [t];
          assert t in r;
        }
      }
    }
  }

  /** The nodes come in the order of their moves in MOVES. */
  lemma {:induction false} SuccessorsOrdered(s: State, n: nat)
    requires Shaped(s.board) && n <= 4
    ensures var r := SuccessorsVia(s, MOVES[..n]);
      && (forall t :: t in r ==> MoveRank(t.move) < n)
      && (forall i, j :: 0 <= i < j < |r| ==> MoveRank(r[i].move) < MoveRank(r[j].move))
  {
    if n > 0 {
      SuccessorsOrdered(s, n - 1);
      SuccessorsStep(s, n - 1);
      assert MoveRank(MOVES[n - 1]) == n - 1;
    }
  }

  /** Trying one more move of MOVES appends its node when it succeeds and nothing when
      it fails. */
  lemma {:induction false} SuccessorsStep(s: State, n: nat)
    requires Shaped(s.board) && n < 4
    ensures SuccessorsVia(s, MOVES[..n + 1]) == SuccessorsVia(s, MOVES[..n]) +
      if Move(s.board, MOVES[n]).None? then []
      else [NewState(Move(s.board, MOVES[n]).value, Some(s), MOVES[n])]
  {
    assert MOVES[..n + 1][..n] == MOVES[..n];
    assert MOVES[..n + 1][n] == MOVES[n];
  }

  /** Trying one more move adds one node when the move succeeds and none when it fails. */
  lemma StepLength(s: State, n: nat)
    requires Shaped(s.board) && n < 4
    ensures |SuccessorsVia(s, MOVES[..n + 1])| ==
      |SuccessorsVia(s, MOVES[..n])| + if Move(s.board, MOVES[n]).Some? then 1 else 0
  {
    SuccessorsStep(s, n);
  }

  /** A blank has two to four neighbours, so two to four moves succeed. */
  lemma SuccessorCount(s: State)
    requires Shaped(s.board)
    ensures 2 <= |Successors(s)| <= 4
  {
    var g := s.board;
    StepLength(s, 0);
    StepLength(s, 1);
    StepLength(s, 2);
    StepLength(s, 3);
    assert MOVES[..4] == MOVES;
    assert MOVES[0] == "up" && MOVES[1] == "down" && MOVES[2] == "left" && MOVES[3] == "right";
    assert |SuccessorsVia(s, MOVES[..4])| ==
      (if g.blankR > 0 then 1 else 0) + (if g.blankR < 2 then 1 else 0) +
      (if g.blankC > 0 then 1 else 0) + (if g.blankC < 2 then 1 else 0);
  }

  /** `generate_successors` yields between 2 and 4 nodes, one per move that succeeds on
      a copy of the board, in up, down, left, right order; each has s as predecessor,
      the move tried as label, depth one more, and s's board after that move. */
  lemma SuccessorsSpec(s: State)
    requires Good(s)
    ensures 2 <= |Successors(s)| <= 4
    ensures forall t :: t in Successors(s) ==> SuccessorOf(s, t)
    ensures forall m :: m in MOVES && Move(s.board, m).Some? ==>
      exists t :: t in Successors(s) && t.move == m
    ensures forall i, j :: 0 <= i < j < |Successors(s)| ==>
      MoveRank(Successors(s)[i].move) < MoveRank(Successors(s)[j].move)
  {
    assert MOVES[..4] == MOVES;
    SuccessorsSound(s, 4);
    SuccessorsComplete(s, 4);
    SuccessorsOrdered(s, 4);
    SuccessorCount(s);
  }

  /** `generate_successors`: each move is tried on a fresh copy of the board, so s's own
      board is never moved. */
  method GenerateSuccessors(s: State) returns (successors: seq<State>)
    requires Good(s)
    ensures successors == Successors(s)
  {
    EncodeValid(s.board.cells);
    successors := [];
    for i := 0 to |MOVES|
      invariant successors == SuccessorsVia(s, MOVES[..i])
    {
      var m := MOVES[i];
      var b := new Board(Encode(s.board.cells));
      BlankUnique(s.board, b.blankR, b.blankC);
      assert b.Value() == s.board;
      var moved := b.MoveBlank(m);
      SuccessorsStep(s, i);
      if moved {
        successors := successors + [NewState(b.Value(), Some(s), m)];
      }
    }
    assert MOVES[..|MOVES|] == MOVES;
  }

  /** Some strict ancestor of s has the same tiles as s. */
  ghost predicate RepeatsAncestor(s: State) {
    exists a :: a in Ancestors(s) && a.board.cells == s.board.cells
  }

  /** `creates_cycle`: walks the predecessor chain looking for a board equal to s's. */
  method CreatesCycle(s: State) returns (cycle: bool)
    ensures cycle <==> RepeatsAncestor(s)
    ensures s.predecessor.None? ==> !cycle
  {
    var state := s.predecessor;
    while state.Some?
      invariant RepeatsAncestor(s) <==>
        exists a :: a in Chain(state) && a.board.cells == s.board.cells
      decreases state
    {
      if state.value.board.cells == s.board.cells {
        assert state.value in Chain(state);
        return true;
      }
      state := state.value.predecessor;
    }
    return false;
  }

  /** Moving the blank one way and straight back repeats the grandparent's board. */
  lemma BackAndForthRepeats(s: State, direction: string)
    requires Good(s) && Move(s.board, direction).Some?
    ensures var u := NewState(Move(s.board, direction).value, Some(s), direction);
      && Move(u.board, Opposite(direction)).Some?
      && RepeatsAncestor(NewState(Move(u.board, Opposite(direction)).value, Some(u), Opposite(direction)))
  {
    MoveUndo(s.board, direction);
    var u := NewState(Move(s.board, direction).value, Some(s), direction);
    var v := NewState(Move(u.board, Opposite(direction)).value, Some(u), Opposite(direction));
    assert Ancestors(v) == [u] + Chain(Some(s)) == [u] + ([s] + Chain(s.predecessor));
    assert s in Ancestors(v);
  }
}
