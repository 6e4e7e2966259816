/** The searchers: a frontier of untested nodes, a count of tested nodes and a depth
    limit, driven by one expand-and-test loop. The strategies differ only in which
    frontier entry they take next and in what they store for a node. */
module Searchers {
  import opened Options
  import opened Boards
  import opened States
  import opened Heuristics

  /** The searcher classes: Searcher (random), BFSearcher, DFSearcher, GreedySearcher and
      AStarSearcher, the last two with the heuristic they were given. */
  datatype Strategy =
    | Random
    | BreadthFirst
    | DepthFirst
    | Greedy(heuristic: Heuristic)
    | AStar(heuristic: Heuristic)

  /** The strategies that keep [priority, state] pairs and take the best one. */
  predicate Informed(strategy: Strategy) {
    strategy.Greedy? || strategy.AStar?
  }

  /** A frontier entry: a bare node, or a node with the priority it was added with. */
  datatype Entry = Plain(state: State) | Ranked(priority: int, state: State)

  /** How a search ends: a goal node, an empty frontier, or stopped from outside. */
  datatype Outcome = Solved(goal: State) | NoSolution | Interrupted

  /** `priority`: minus the estimate for greedy search, minus the estimate plus the depth
      for A*. Never positive; 0 exactly on a goal that (for A*) is a root when the
      heuristic is exact at the goal, and exactly on "123456780" for `h2` as written. */
  function Priority(strategy: Strategy, s: State): (p: int)
    requires Informed(strategy) && Good(s)
    ensures p <= 0
    ensures strategy.AStar? ==> p <= -s.numMoves
    ensures ExactAtGoal(strategy.heuristic) ==>
      (p == 0 <==> IsGoal(s) && (strategy.AStar? ==> s.numMoves == 0))
    ensures strategy.heuristic.RowColumnDistances? ==>
      (p == 0 <==> s.board.cells == SHIFTED_TILES && (strategy.AStar? ==> s.numMoves == 0))
  {
    DepthIsChainLength(s);
    if strategy.Greedy? then -Estimate(strategy.heuristic, s)
    else -(Estimate(strategy.heuristic, s) + s.numMoves)
  }

  /** With an admissible heuristic, minus the greedy priority never exceeds the moves
      still needed, and minus the A* priority never exceeds the depth plus the moves
      still needed. */
  lemma PriorityBound(strategy: Strategy, s: State, moves: seq<string>)
    requires Informed(strategy) && Good(s) && Solves(s.board, moves)
    ensures Admissible(strategy.heuristic) && strategy.Greedy? ==> -Priority(strategy, s) <= |moves|
    ensures Admissible(strategy.heuristic) && strategy.AStar? ==>
      -Priority(strategy, s) <= s.numMoves + |moves|
  {
    EstimateAdmissible(strategy.heuristic, s, moves);
  }

  /** With `h2` as written, a goal node, which needs no further move, gets greedy
      priority -12 and A* priority -12 minus its depth, below a node of priority 0. */
  lemma AsWrittenPriorityAtGoal(s: State)
    requires Good(s) && IsGoal(s)
    ensures Solves(s.board, [])
    ensures Priority(Greedy(RowColumnDistances), s) == -12
    ensures Priority(AStar(RowColumnDistances), s) == -12 - s.numMoves
  {
    EstimateOverestimates(s);
  }

  /** The priority an entry was stored with; a bare node has none and counts as 0. */
  function PriorityOf(e: Entry): int {
    match e
    case Ranked(p, _) => p
    case Plain(_) => 0
  }

  /** The index the greedy scan settles on: an entry of highest priority, the first one
      when several tie. */
  function FirstMaxIndex(es: seq<Entry>): (k: int)
    requires es != []
    ensures 0 <= k < |es|
    ensures forall i :: 0 <= i < |es| ==> PriorityOf(es[i]) <= PriorityOf(es[k])
    ensures forall i :: 0 <= i < k ==> PriorityOf(es[i]) < PriorityOf(es[k])
    decreases |es|
  {
    if |es| == 1 then 0
    else
      var k := FirstMaxIndex(es[..|es| - 1]);
      if PriorityOf(es[|es| - 1]) > PriorityOf(es[k]) then |es| - 1 else k
  }

  /** The list without its element at index k. */
  function Remove<T>(s: seq<T>, k: int): (r: seq<T>)
    requires 0 <= k < |s|
    ensures |r| == |s| - 1
    ensures forall i :: 0 <= i < k ==> r[i] == s[i]
    ensures forall i :: k <= i < |r| ==> r[i] == s[i + 1]
    ensures multiset(r) + multiset{s[k]} == multiset(s)
    ensures forall x :: x in r ==> x in s
  {
    assert s == s[..k] + [s[k]] + s[k + 1..];
    s[..k] + s[k + 1..]
  }

  /** `should_add`'s rule: not deeper than a depth limit other than -1, and not repeating
      the board of an ancestor. */
  ghost predicate Admits(depthLimit: int, s: State) {
    (depthLimit == -1 || s.numMoves <= depthLimit) && !RepeatsAncestor(s)
  }

  /** What the strategy stores for a node: the bare node, or the node with its priority. */
  function EntryFor(strategy: Strategy, s: State): (e: Entry)
    requires Good(s)
    ensures e.state == s
    ensures e.Ranked? <==> Informed(strategy)
  {
    if Informed(strategy) then Ranked(Priority(strategy, s), s) else Plain(s)
  }

  /** An entry holds a good node, stored as the strategy stores it. */
  ghost predicate Fits(strategy: Strategy, e: Entry) {
    Good(e.state) && e == EntryFor(strategy, e.state)
  }

  /** The entries `add_states` appends for `news`: those of the admitted nodes, in order. */
  ghost function Admitted(strategy: Strategy, depthLimit: int, news: seq<State>): seq<Entry>
    requires forall t :: t in news ==> Good(t)
    decreases |news|
  {
    if news == [] then []
    else
      var last := news[|news| - 1];
      Admitted(strategy, depthLimit, news[..|news| - 1]) +
        if Admits(depthLimit, last) then [EntryFor(strategy, last)] else []
  }

  /** Exactly the admitted nodes get an entry, each stored as the strategy stores it. */
  lemma {:induction false} AdmittedSpec(strategy: Strategy, depthLimit: int, news: seq<State>)
    requires forall t :: t in news ==> Good(t)
    ensures var r := Admitted(strategy, depthLimit, news);
      && |r| <= |news|
      && (forall e :: e in r ==> Fits(strategy, e) && e.state in news && Admits(depthLimit, e.state))
      && (forall t :: t in news && Admits(depthLimit, t) ==> EntryFor(strategy, t) in r)
    decreases |news|
  {
    if news != [] {
      var front := news[..|news| - 1];
      AdmittedSpec(strategy, depthLimit, front);
      assert news == front + [news[|news| - 1]];
    }
  }

  /** Removing an entry keeps every remaining entry well stored. */
  lemma RemoveKeepsFits(strategy: Strategy, es: seq<Entry>, k: int)
    requires 0 <= k < |es| && forall i :: 0 <= i < |es| ==> Fits(strategy, es[i])
    ensures forall i :: 0 <= i < |Remove(es, k)| ==> Fits(strategy, Remove(es, k)[i])
  {
  }

  /** Which index of the frontier es the strategy's `next_state` removes. */
  ghost predicate Chosen(strategy: Strategy, es: seq<Entry>, k: int)
    requires 0 <= k < |es|
  {
    match strategy
    case Random => true
    case BreadthFirst => k == 0
    case DepthFirst => k == |es| - 1
    case Greedy(_) => k == FirstMaxIndex(es)
    case AStar(_) => k == FirstMaxIndex(es)
  }

  /** One round of `find_solution` on the frontier `before`: the strategy's entry is
      removed and its node t tested; unless t is a goal, the entries of its admitted
      successors are appended, giving the frontier `after`. */
  ghost predicate Round(strategy: Strategy, depthLimit: int, before: seq<Entry>, t: State, after: seq<Entry>) {
    exists k ::
      && 0 <= k < |before| && Chosen(strategy, before, k) && before[k].state == t
      && Good(t) && (forall u :: u in Successors(t) ==> Good(u))
      && after == Remove(before, k) + if IsGoal(t) then [] else Admitted(strategy, depthLimit, Successors(t))
  }

  /** The frontiers before each test and after the last one, linked by a round per tested
      node. */
  ghost predicate Rounds(strategy: Strategy, depthLimit: int, frontiers: seq<seq<Entry>>, tested: seq<State>) {
    && |frontiers| == |tested| + 1
    && forall i :: 0 <= i < |tested| ==> Round(strategy, depthLimit, frontiers[i], tested[i], frontiers[i + 1])
  }

  /** One more round extends the record. */
  lemma RoundsExtend(strategy: Strategy, depthLimit: int, frontiers: seq<seq<Entry>>, tested: seq<State>,
                     t: State, after: seq<Entry>)
    requires Rounds(strategy, depthLimit, frontiers, tested)
    requires Round(strategy, depthLimit, frontiers[|tested|], t, after)
    ensures Rounds(strategy, depthLimit, frontiers + [after], tested + [t])
  {
    var fs, ts := frontiers + [after], tested + [t];
    forall i | 0 <= i < |ts|
      ensures Round(strategy, depthLimit, fs[i], ts[i], fs[i + 1])
    {
      if i < |tested| {
        assert fs[i] == frontiers[i] && fs[i + 1] == frontiers[i + 1] && ts[i] == tested[i];
      }
    }
  }

  /** Removing the chosen entry of a good node and appending what its test adds makes
      a round. */
  lemma RoundIntro(strategy: Strategy, depthLimit: int, before: seq<Entry>, k: int, after: seq<Entry>)
    requires 0 <= k < |before| && Chosen(strategy, before, k) && Good(before[k].state)
    requires IsGoal(before[k].state) ==> after == Remove(before, k)
    requires !IsGoal(before[k].state) ==>
      && (forall u :: u in Successors(before[k].state) ==> Good(u))
      && after == Remove(before, k) + Admitted(strategy, depthLimit, Successors(before[k].state))
    ensures Round(strategy, depthLimit, before, before[k].state, after)
  {
    var t := before[k].state;
    SuccessorsSpec(t);
    assert after == Remove(before, k) + if IsGoal(t) then [] else Admitted(strategy, depthLimit, Successors(t));
  }

  /** Moving the blank one way and straight back gives a successor that `should_add`
      turns away. */
  lemma BackAndForthPruned(s: State, direction: string, depthLimit: int)
    requires Good(s) && Move(s.board, direction).Some?
    ensures var u := NewState(Move(s.board, direction).value, Some(s), direction);
      && Good(u)
      && exists v :: v in Successors(u) && v.move == Opposite(direction) && !Admits(depthLimit, v)
  {
    var u := NewState(Move(s.board, direction).value, Some(s), direction);
    assert Good(u);
    BackAndForthRepeats(s, direction);
    var w := Move(u.board, Opposite(direction)).value;
    var v := NewState(w, Some(u), Opposite(direction));
    assert Opposite(direction) in MOVES by {
      assert Offset(direction).Some?;
    }
    SuccessorsSpec(u);
    var t :| t in Successors(u) && t.move == Opposite(direction);
    assert t == v;
  }

  /** The first loop of `GreedySearcher.next_state`: the index of the first entry of
      highest priority. */
  method ScanBest(es: seq<Entry>) returns (best: int)
    requires es != []
    ensures best == FirstMaxIndex(es)
    ensures 0 <= best < |es| && forall i :: 0 <= i < |es| ==> PriorityOf(es[i]) <= PriorityOf(es[best])
  {
    best := 0;
    for i := 1 to |es|
      invariant 0 <= best < i
      invariant best == FirstMaxIndex(es[..i])
    {
      assert es[..i + 1][..i] == es[..i];
      if PriorityOf(es[i]) > PriorityOf(es[best]) {
        best := i;
      }
    }
    assert es[..|es|] == es;
  }

  /** The second loop of `GreedySearcher.next_state`: every entry but the one at `best`,
      in order. */
  method Without(es: seq<Entry>, best: int) returns (rest: seq<Entry>)
    requires 0 <= best < |es|
    ensures rest == Remove(es, best)
    ensures multiset(rest) + multiset{es[best]} == multiset(es)
  {
    rest := [];
    for i := 0 to |es|
      invariant rest == if i <= best then es[..i] else es[..best] + es[best + 1..i]
    {
      if i != best {
        rest := rest + [es[i]];
      }
    }
    assert es[best + 1..|es|] == es[best + 1..];
  }

  class Searcher {
    const strategy: Strategy
    /** -1 for no limit. */
    const depthLimit: int
    /** The untested nodes. */
    var states: seq<Entry>
    var numTested: int

    ghost predicate Valid()
      reads this
    {
      numTested >= 0 && forall i :: 0 <= i < |states| ==> Fits(strategy, states[i])
    }

    /** `__init__`: an empty frontier and nothing tested yet. */
    constructor (strategy: Strategy, depthLimit: int)
      ensures this.strategy == strategy && this.depthLimit == depthLimit
      ensures states == [] && numTested == 0
      ensures Valid()
    {
      this.strategy := strategy;
      this.depthLimit := depthLimit;
      states := [];
      numTested := 0;
    }

    /** `should_add`: false for a node deeper than a set depth limit, otherwise false
        exactly when the node repeats the board of an ancestor. */
    method ShouldAdd(s: State) returns (add: bool)
      ensures depthLimit != -1 && s.numMoves > depthLimit ==> !add
      ensures add <==> Admits(depthLimit, s)
    {
      if depthLimit != -1 && s.numMoves > depthLimit {
        return false;
      }
      var cycle := CreatesCycle(s);
      return !cycle;
    }

    /** `add_state`: appends the node, with its priority for the informed strategies. */
    method AddState(s: State)
      requires Valid() && Good(s)
      modifies this
      ensures Valid() && numTested == old(numTested)
      ensures states == old(states) + [EntryFor(strategy, s)]
    {
      states := states + [EntryFor(strategy, s)];
    }

    /** `add_states`: appends, in order, the entries of the nodes `should_add` accepts;
        the entries already there stay as they were. */
    method AddStates(news: seq<State>)
      requires Valid() && forall t :: t in news ==> Good(t)
      modifies this
      ensures Valid() && numTested == old(numTested)
      ensures states == old(states) + Admitted(strategy, depthLimit, news)
    {
      for i := 0 to |news|
        invariant Valid() && numTested == old(numTested)
        invariant states == old(states) + Admitted(strategy, depthLimit, news[..i])
      {
        var add := ShouldAdd(news[i]);
        assert news[..i + 1][..i] == news[..i];
        if add {
          AddState(news[i]);
        }
      }
      assert news[..|news|] == news;
    }

    /** `Searcher.next_state`: removes and returns an entry picked at random. */
    method NextStateRandom() returns (s: State)
      requires Valid() && states != []
      modifies this
      ensures Valid() && numTested == old(numTested)
      ensures exists k ::
        && 0 <= k < |old(states)|
        && s == old(states)[k].state
        && states == Remove(old(states), k)
    {
      var k :| 0 <= k < |states|;
      RemoveKeepsFits(strategy, states, k);
      s := states[k].state;
      states := Remove(states, k);
    }

    /** `BFSearcher.next_state`: removes and returns the oldest entry. */
    method NextStateFirst() returns (s: Option<State>)
      requires Valid()
      modifies this
      ensures Valid() && numTested == old(numTested)
      ensures old(states) == [] ==> s.None? && states == []
      ensures old(states) != [] ==> s == Some(old(states)[0].state) && states == old(states)[1..]
    {
      if states == [] {
        return None;
      }
      RemoveKeepsFits(strategy, states, 0);
      s := Some(states[0].state);
      states := Remove(states, 0);
    }

    /** `DFSearcher.next_state`: removes and returns the newest entry. */
    method NextStateLast() returns (s: Option<State>)
      requires Valid()
      modifies this
      ensures Valid() && numTested == old(numTested)
      ensures old(states) == [] ==> s.None? && states == []
      ensures old(states) != [] ==>
        s == Some(old(states)[|old(states)| - 1].state) &&
        states == old(states)[..|old(states)| - 1]
    {
      if states == [] {
        return None;
      }
      RemoveKeepsFits(strategy, states, |states| - 1);
      s := Some(states[|states| - 1].state);
      states := Remove(states, |states| - 1);
    }

    /** `GreedySearcher.next_state`: scans for the first entry of highest priority, then
        rebuilds the frontier without it. */
    method NextStateBest() returns (s: Option<State>)
      requires Valid()
      modifies this
      ensures Valid() && numTested == old(numTested)
      ensures old(states) == [] ==> s.None? && states == []
      ensures old(states) != [] ==>
        var k := FirstMaxIndex(old(states));
        s == Some(old(states)[k].state) && states == Remove(old(states), k)
    {
      if states == [] {
        return None;
      }
      var best := ScanBest(states);
      var rest := Without(states, best);
      RemoveKeepsFits(strategy, states, best);
      s := Some(states[best].state);
      states := rest;
    }

    /** `next_state` of the searcher's class: on a non-empty frontier removes one entry,
        the one the strategy picks, and returns its node; on an empty one returns None,
        except the random searcher, which needs an entry to pick from. */
    method NextState() returns (s: Option<State>)
      requires Valid()
      requires strategy.Random? ==> states != []
      modifies this
      ensures Valid() && numTested == old(numTested)
      ensures old(states) == [] ==> s.None? && states == []
      ensures old(states) != [] ==>
        && s.Some?
        && exists k ::
          && 0 <= k < |old(states)|
          && Chosen(strategy, old(states), k)
          && s.value == old(states)[k].state
          && states == Remove(old(states), k)
      ensures forall e :: e in states ==> e in old(states)
      ensures |old(states)| == 1 ==> s == Some(old(states)[0].state) && states == []
    {
      match strategy
      case Random =>
        var t := NextStateRandom();
        s := Some(t);
      case BreadthFirst =>
        s := NextStateFirst();
        if old(states) != [] {
          assert Chosen(strategy, old(states), 0);
        }
      case DepthFirst =>
        s := NextStateLast();
        if old(states) != [] {
          assert Chosen(strategy, old(states), |old(states)| - 1);
        }
      case Greedy(_) =>
        s := NextStateBest();
      case AStar(_) =>
        s := NextStateBest();
    }

    /** The expansion step of `find_solution`: `add_states(s.generate_successors())`. */
    method Expand(s: State)
      requires Valid() && Good(s)
      modifies this
      ensures Valid() && numTested == old(numTested)
      ensures forall u :: u in Successors(s) ==> Good(u)
      ensures states == old(states) + Admitted(strategy, depthLimit, Successors(s))
      ensures forall e :: e in states ==> e in old(states) || Admits(depthLimit, e.state)
    {
      var successors := GenerateSuccessors(s);
      SuccessorsSpec(s);
      AdmittedSpec(strategy, depthLimit, successors);
      AddStates(successors);
    }

    /** One pass of `find_solution`'s loop: takes the next node, counts it as tested and,
        unless it is a goal, adds its successors. */
    method TestNext() returns (s: State, goal: bool)
      requires Valid() && states != []
      modifies this
      ensures Valid() && numTested == old(numTested) + 1
      ensures goal == IsGoal(s)
      ensures Round(strategy, depthLimit, old(states), s, states)
      ensures forall e :: e in states ==> e in old(states) || Admits(depthLimit, e.state)
      ensures |old(states)| == 1 ==> s == old(states)[0].state
    {
      var next := NextState();
      s := next.value;
      ghost var k :|
        && 0 <= k < |old(states)| && Chosen(strategy, old(states), k)
        && s == old(states)[k].state && states == Remove(old(states), k);
      assert Fits(strategy, old(states)[k]);
      numTested := numTested + 1;
      goal := IsGoal(s);
      if !goal {
        Expand(s);
      }
      RoundIntro(strategy, depthLimit, old(states), k, states);
    }

    /** `find_solution`: seeds the frontier with init, then repeatedly takes the next node,
        counts it as tested, returns it if it is a goal and otherwise adds its successors.
        `maxTests` stands for the user interrupting the search: after that many tests the
        search stops with `Interrupted`. `tested` lists the tested nodes in order and
        `frontiers` the frontier before each test and after the last one. */
    method FindSolution(init: State, maxTests: nat)
      returns (r: Outcome, ghost tested: seq<State>, ghost frontiers: seq<seq<Entry>>)
      requires Valid() && Good(init)
      modifies this
      ensures Valid()
      ensures numTested == old(numTested) + |tested| && |tested| <= maxTests
      ensures Rounds(strategy, depthLimit, frontiers, tested)
      ensures frontiers[0] == old(states) + [EntryFor(strategy, init)]
      ensures states == frontiers[|tested|]
      ensures forall i :: 0 <= i < |tested| && !(r.Solved? && i == |tested| - 1) ==>
        !IsGoal(tested[i])
      ensures r.Solved? ==> tested != [] && r.goal == tested[|tested| - 1] && IsGoal(r.goal)
      ensures r.NoSolution? ==> states == []
      ensures r.Interrupted? ==> |tested| == maxTests && states != []
      ensures forall e :: e in states ==>
        e in old(states) || e.state == init || Admits(depthLimit, e.state)
      ensures old(states) == [] && tested != [] ==> tested[0] == init
      ensures old(states) == [] && maxTests > 0 && IsGoal(init) ==>
        r == Solved(init) && tested == [init]
    {
      AddState(init);
      tested := [];
      frontiers := [states];
      var count := 0;
      while states != []
        invariant count == |tested|
        invariant Valid()
        invariant numTested == old(numTested) + |tested| && |tested| <= maxTests
        invariant Rounds(strategy, depthLimit, frontiers, tested)
        invariant frontiers[0] == old(states) + [EntryFor(strategy, init)]
        invariant states == frontiers[|tested|]
        invariant forall i :: 0 <= i < |tested| ==> !IsGoal(tested[i])
        invariant forall e :: e in states ==>
          e in old(states) || e.state == init || Admits(depthLimit, e.state)
        invariant old(states) == [] && tested != [] ==> tested[0] == init
        decreases maxTests - |tested|
      {
        if count == maxTests {
          return Interrupted, tested, frontiers;
        }
        var s, goal := TestNext();
        RoundsExtend(strategy, depthLimit, frontiers, tested, s, states);
        tested := tested + [s];
        frontiers := frontiers + [states];
        count := count + 1;
        if goal {
          return Solved(s), tested, frontiers;
        }
      }
      return NoSolution, tested, frontiers;
    }
  }
}
