/**
 * aStarSearch: best-first search over whole boards. The frontier holds
 * nodes (f, g, board, moves); the node with the least (f, g) is popped,
 * every pop is counted, a board already visited is skipped, a solved board
 * ends the search, and otherwise one child per valid move is pushed.
 */
module Search {
  import opened Grid
  import opened Moves
  import opened Game

  /** The heuristic passed to aStarSearch: heuristic1 or heuristic2. */
  datatype Heuristic = FivePerCell | OnePerCell

  function HeuristicValue(h: Heuristic, b: Board): nat {
    match h
    case FivePerCell => 5 * CountUncolored(b)
    case OnePerCell => CountUncolored(b)
  }

  /** Both heuristics are 0 exactly on solved boards. */
  lemma HeuristicZeroIffSolved(h: Heuristic, N: nat, b: Board)
    requires WellFormed(N, b)
    ensures HeuristicValue(h, b) == 0 <==> Solved(N, b)
  {
    SolvedIffNoneUncolored(N, b);
  }

  /** Calls the heuristic. */
  method Evaluate(h: Heuristic, N: nat, b: Board) returns (v: nat)
    requires WellFormed(N, b)
    ensures v == HeuristicValue(h, b)
  {
    match h
    case FivePerCell => v := Heuristic1(N, b);
    case OnePerCell => v := Heuristic2(N, b);
  }

  /** A frontier entry (f, g, (board, moves)). */
  datatype Node = Node(priority: nat, g: nat, board: Board, moves: seq<Move>)

  /** What aStarSearch returns: (moves, g, expanded nodes) or "No solution found". */
  datatype Outcome = Found(moves: seq<Move>, cost: nat, expanded: nat) | NoSolution

  /** The heap order on the first two components (f, g). */
  predicate KeyLeq(a: Node, b: Node) {
    a.priority < b.priority || (a.priority == b.priority && a.g <= b.g)
  }

  /**
   * heappop's choice: an entry whose (f, g) is least. Later components of
   * the heap key are not modelled, so among ties any entry may be chosen.
   */
  method SelectMin(frontier: seq<Node>) returns (k: nat)
    requires frontier != []
    ensures k < |frontier|
    ensures forall i :: 0 <= i < |frontier| ==> KeyLeq(frontier[k], frontier[i])
  {
    k := 0;
    for i := 1 to |frontier|
      invariant k < i
      invariant forall j :: 0 <= j < i ==> KeyLeq(frontier[k], frontier[j])
    {
      if !KeyLeq(frontier[k], frontier[i]) {
        k := i;
      }
    }
  }

  // ---------------------------------------------------------------------
  // Search invariants
  // ---------------------------------------------------------------------

  /**
   * A node is the replay of its moves from the root: every move is valid,
   * the board is where they lead and g is the sum of their costs. (That
   * f is g + h is stated by ChildOf.)
   */
  ghost predicate NodeOk(N: nat, root: Board, n: Node)
    requires WellFormed(N, root) && HasAgent(N, root)
  {
    ValidPath(N, root, n.moves) &&
    n.board == Replay(N, root, n.moves) &&
    n.g == PathCost(N, root, n.moves)
  }

  ghost function Boards(frontier: seq<Node>): set<Board> {
    set i | 0 <= i < |frontier| :: frontier[i].board
  }

  /** Every board one valid move away from v is in s. */
  ghost predicate ChildrenIn(N: nat, v: Board, s: set<Board>)
    requires WellFormed(N, v) && HasAgent(N, v)
  {
    forall m :: m in AgentMoves(N, v) ==> ApplyMove(N, v, m) in s
  }

  /**
   * The children of every visited board are in s. The second quantifier
   * fires only where ChildrenIn of a board is mentioned.
   */
  ghost predicate Closed(N: nat, visited: set<Board>, s: set<Board>) {
    (forall v :: v in visited ==> WellFormed(N, v) && HasAgent(N, v)) &&
    forall v {:trigger ChildrenIn(N, v, s)} :: v in visited ==> ChildrenIn(N, v, s)
  }

  lemma ClosedGrow(N: nat, visited: set<Board>, s: set<Board>, s': set<Board>)
    requires Closed(N, visited, s) && s <= s'
    ensures Closed(N, visited, s')
  {
    forall v | v in visited
      ensures ChildrenIn(N, v, s')
    {
      assert ChildrenIn(N, v, s);
    }
  }

  lemma ClosedAdd(N: nat, visited: set<Board>, s: set<Board>, s': set<Board>, v: Board)
    requires Closed(N, visited, s) && s <= s'
    requires WellFormed(N, v) && HasAgent(N, v) && ChildrenIn(N, v, s')
    ensures Closed(N, visited + {v}, s')
  {
    ClosedGrow(N, visited, s, s');
    forall w | w in visited + {v}
      ensures ChildrenIn(N, w, s')
    {
      if w != v {
        assert ChildrenIn(N, w, s');
      }
    }
  }

  /**
   * From a visited board of a set closed under moves, every valid path
   * stays among the visited boards.
   */
  lemma {:induction false} ClosedReach(N: nat, visited: set<Board>, v: Board, moves: seq<Move>)
    requires Closed(N, visited, visited) && v in visited
    requires WellFormed(N, v) && HasAgent(N, v) && ValidPath(N, v, moves)
    ensures Replay(N, v, moves) in visited
    decreases |moves|
  {
    if moves != [] {
      assert ChildrenIn(N, v, visited);
      var next := PlayMove(N, v, moves[0]);
      assert next in visited;
      ClosedReach(N, visited, next, moves[1..]);
    }
  }

  lemma BoardsSnoc(frontier: seq<Node>, n: Node)
    ensures Boards(frontier + [n]) == Boards(frontier) + {n.board}
  {
    var f := frontier + [n];
    assert f[|frontier|] == n;
    forall x | x in Boards(frontier)
      ensures x in Boards(f)
    {
      var i :| 0 <= i < |frontier| && frontier[i].board == x;
      assert f[i] == frontier[i];
    }
  }

  lemma BoardsRemove(frontier: seq<Node>, k: nat)
    requires k < |frontier|
    ensures Boards(frontier) <= Boards(frontier[..k] + frontier[k + 1..]) + {frontier[k].board}
    ensures forall n :: n in frontier[..k] + frontier[k + 1..] ==> n in frontier
  {
    var f := frontier[..k] + frontier[k + 1..];
    forall x | x in Boards(frontier)
      ensures x in Boards(f) + {frontier[k].board}
    {
      var i :| 0 <= i < |frontier| && frontier[i].board == x;
      if i < k {
        assert f[i] == frontier[i];
      } else if i > k {
        assert f[i - 1] == frontier[i];
      }
    }
  }

  /**
   * heappop: removes an entry whose (f, g) is least and returns it with
   * the remaining entries.
   */
  method PopMin(frontier: seq<Node>) returns (node: Node, rest: seq<Node>)
    requires frontier != []
    ensures node in frontier && forall n :: n in frontier ==> KeyLeq(node, n)
    ensures multiset(rest) + multiset{node} == multiset(frontier) && |rest| == |frontier| - 1
    ensures forall n :: n in rest ==> n in frontier
    ensures Boards(frontier) <= Boards(rest) + {node.board}
  {
    var k := SelectMin(frontier);
    node := frontier[k];
    rest := frontier[..k] + frontier[k + 1..];
    BoardsRemove(frontier, k);
    assert frontier == frontier[..k] + [node] + frontier[k + 1..];
  }

  /** The node pushed for move m: g grows by the cost of m, f is the new g plus h. */
  function Child(N: nat, h: Heuristic, node: Node, m: Move): (c: Node)
    requires WellFormed(N, node.board) && HasAgent(N, node.board)
    ensures c.moves == node.moves + [m]
    ensures c.g >= node.g + 1 <==> m in AgentMoves(N, node.board)
    ensures m !in AgentMoves(N, node.board) ==> c.board == node.board && c.g == node.g
    ensures WellFormed(N, c.board) && c.priority >= c.g
    ensures c.priority == c.g <==> Solved(N, c.board)
  {
    var g := node.g + MoveCost(N, node.board, m);
    var board := ApplyMove(N, node.board, m);
    var c := Node(g + HeuristicValue(h, board), g, board, node.moves + [m]);
    CostPositiveIffOpen(N, node.board, m);
    HeuristicZeroIffSolved(h, N, board);
    if m in AgentMoves(N, node.board) then c
    else
      BlockedMoveIsIdentity(N, node.board, m);
      c
  }


  /** The child pushed for a valid move satisfies NodeOk when its parent does. */
  lemma ChildOk(N: nat, root: Board, h: Heuristic, node: Node, m: Move)
    requires WellFormed(N, root) && HasAgent(N, root) && NodeOk(N, root, node)
    requires m in AgentMoves(N, node.board)
    ensures NodeOk(N, root, Child(N, h, node, m))
  {
    ExtendPath(N, root, node.moves, m);
  }

  // ---------------------------------------------------------------------
  // Finiteness of the state space (for termination)
  // ---------------------------------------------------------------------

  ghost function AllRows(n: nat): set<seq<Cell>> {
    if n == 0 then {[]}
    else set c: Cell, r: seq<Cell> | c in {Wall, Uncolored, Colored, Agent} && r in AllRows(n - 1) :: [c] + r
  }

  lemma {:induction false} AllRowsComplete(n: nat, r: seq<Cell>)
    requires |r| == n
    ensures r in AllRows(n)
  {
    if n > 0 {
      AllRowsComplete(n - 1, r[1..]);
      assert r == [r[0]] + r[1..];
      assert r[0] in {Wall, Uncolored, Colored, Agent} by {
        match r[0]
        case Wall =>
        case Uncolored =>
        case Colored =>
        case Agent =>
      }
    }
  }

  /** All grids of k rows of length n. */
  ghost function AllGrids(k: nat, n: nat): set<Board> {
    if k == 0 then {[]}
    else set row: seq<Cell>, g: Board | row in AllRows(n) && g in AllGrids(k - 1, n) :: [row] + g
  }

  lemma {:induction false} AllGridsComplete(k: nat, n: nat, b: Board)
    requires |b| == k && forall i :: 0 <= i < k ==> |b[i]| == n
    ensures b in AllGrids(k, n)
  {
    if k > 0 {
      AllRowsComplete(n, b[0]);
      AllGridsComplete(k - 1, n, b[1..]);
      assert b == [b[0]] + b[1..];
    }
  }

  /** A finite set holding every N-by-N board, which bounds the visited set. */
  lemma Universe(N: nat) returns (u: set<Board>)
    ensures forall v {:trigger WellFormed(N, v)} :: WellFormed(N, v) ==> v in u
  {
    u := AllGrids(N, N);
    forall v | WellFormed(N, v)
      ensures v in u
    {
      AllGridsComplete(N, N, v);
    }
  }

  lemma VisitShrinks(universe: set<Board>, visited: set<Board>, x: Board)
    requires x in universe && x !in visited
    ensures |universe - (visited + {x})| < |universe - visited|
  {
    assert universe - visited == (universe - (visited + {x})) + {x};
  }

  // ---------------------------------------------------------------------
  // The search
  // ---------------------------------------------------------------------

  /** The nodes pushed for the moves ms, in order. */
  function Children(N: nat, h: Heuristic, node: Node, ms: seq<Move>): (r: seq<Node>)
    requires WellFormed(N, node.board) && HasAgent(N, node.board)
    ensures |r| == |ms|
  {
    if ms == [] then []
    else Children(N, h, node, ms[..|ms| - 1]) + [Child(N, h, node, ms[|ms| - 1])]
  }

  /** Children of a node reached by a valid path are reached by valid paths. */
  lemma {:induction false} ChildrenOk(N: nat, root: Board, h: Heuristic, node: Node, ms: seq<Move>)
    requires WellFormed(N, root) && HasAgent(N, root) && NodeOk(N, root, node)
    requires forall m :: m in ms ==> m in AgentMoves(N, node.board)
    ensures forall n :: n in Children(N, h, node, ms) ==> NodeOk(N, root, n)
  {
    if ms != [] {
      var init := ms[..|ms| - 1];
      assert forall m :: m in init ==> m in ms;
      ChildrenOk(N, root, h, node, init);
      ChildOk(N, root, h, node, ms[|ms| - 1]);
    }
  }

  /** The children of a node hold the board after each of the moves. */
  lemma {:induction false} ChildrenBoards(N: nat, h: Heuristic, node: Node, ms: seq<Move>)
    requires WellFormed(N, node.board) && HasAgent(N, node.board)
    ensures forall m :: m in ms ==> ApplyMove(N, node.board, m) in Boards(Children(N, h, node, ms))
  {
    if ms != [] {
      var init := ms[..|ms| - 1];
      var last := ms[|ms| - 1];
      var kids := Children(N, h, node, init);
      var kid := Child(N, h, node, last);
      ChildrenBoards(N, h, node, init);
      BoardsSnoc(kids, kid);
      assert Children(N, h, node, ms) == kids + [kid];
      assert kid.board == ApplyMove(N, node.board, last);
      forall m | m in ms
        ensures ApplyMove(N, node.board, m) in Boards(kids + [kid])
      {
        if m != last {
          assert m in init;
        }
      }
    }
  }

  lemma BoardsAppend(f: seq<Node>, g: seq<Node>)
    ensures Boards(f + g) == Boards(f) + Boards(g)
  {
    var fg := f + g;
    forall x | x in Boards(f)
      ensures x in Boards(fg)
    {
      var i :| 0 <= i < |f| && f[i].board == x;
      assert fg[i] == f[i];
    }
    forall x | x in Boards(g)
      ensures x in Boards(fg)
    {
      var i :| 0 <= i < |g| && g[i].board == x;
      assert fg[|f| + i] == g[i];
    }
  }

  /** A node built from MakeMove's board, Cost's count and the heuristic is the child. */
  lemma ChildOf(N: nat, h: Heuristic, node: Node, m: Move, kid: Node)
    requires WellFormed(N, node.board) && HasAgent(N, node.board)
    requires kid.board == ApplyMove(N, node.board, m) && kid.g == node.g + MoveCost(N, node.board, m)
    requires kid.priority == kid.g + HeuristicValue(h, kid.board) && kid.moves == node.moves + [m]
    ensures Child(N, h, node, m) == kid
  {
  }

  /** Children of the first i + 1 moves extend the children of the first i. */
  lemma ChildrenSnoc(N: nat, h: Heuristic, node: Node, ms: seq<Move>, i: nat)
    requires WellFormed(N, node.board) && HasAgent(N, node.board) && i < |ms|
    ensures Children(N, h, node, ms[..i + 1]) == Children(N, h, node, ms[..i]) + [Child(N, h, node, ms[i])]
  {
    assert ms[..i + 1][..i] == ms[..i];
  }

  /** Pushing the child for the next move extends the pushed nodes by that child. */
  lemma PushChild(N: nat, h: Heuristic, node: Node, frontier: seq<Node>, ms: seq<Move>, i: nat,
                  next: seq<Node>, kid: Node)
    requires WellFormed(N, node.board) && HasAgent(N, node.board) && i < |ms|
    requires next == frontier + Children(N, h, node, ms[..i])
    requires kid.board == ApplyMove(N, node.board, ms[i]) && kid.g == node.g + MoveCost(N, node.board, ms[i])
    requires kid.priority == kid.g + HeuristicValue(h, kid.board) && kid.moves == node.moves + [ms[i]]
    ensures next + [kid] == frontier + Children(N, h, node, ms[..i + 1])
  {
    ChildOf(N, h, node, ms[i], kid);
    ChildrenSnoc(N, h, node, ms, i);
    SnocStep(frontier, Children(N, h, node, ms[..i]), Children(N, h, node, ms[..i + 1]), next, kid);
  }

  lemma SnocStep<T>(frontier: seq<T>, xs: seq<T>, ys: seq<T>, next: seq<T>, x: T)
    requires next == frontier + xs && ys == xs + [x]
    ensures next + [x] == frontier + ys
  {
  }

  /**
   * The expansion loop of aStarSearch: for each move getValidMoves offers
   * at the agent (in the order u, d, l, r) it pushes the child for that move.
   */
  method Expand(N: nat, h: Heuristic, node: Node, frontier: seq<Node>) returns (next: seq<Node>)
    requires WellFormed(N, node.board) && HasAgent(N, node.board)
    ensures next == frontier + Children(N, h, node, AgentMoves(N, node.board))
  {
    var board := node.board;
    var pos := GetAgentPos(N, board);
    var moves := GetValidMoves(N, board, pos.value.0, pos.value.1);
    next := frontier;
    for i := 0 to |moves|
      invariant next == frontier + Children(N, h, node, moves[..i])
    {
      var m := moves[i];
      var newBoard := MakeMove(N, board, m);
      var newMoves := node.moves + [m];
      var c := Cost(N, board, m);
      var newG := node.g + c;
      var hv := Evaluate(h, N, newBoard);
      var priority := newG + hv;
      var kid := Node(priority, newG, newBoard, newMoves);
      PushChild(N, h, node, frontier, moves, i, next, kid);
      next := next + [kid];
    }
    assert moves[..|moves|] == moves;
  }

  /** No element occurs twice. */
  ghost predicate Distinct<T>(s: seq<T>) {
    s == [] || (s[|s| - 1] !in s[..|s| - 1] && Distinct(s[..|s| - 1]))
  }

  /** The elements of a list, as a set. */
  ghost function Elements<T>(s: seq<T>): set<T> {
    if s == [] then {} else Elements(s[..|s| - 1]) + {s[|s| - 1]}
  }

  lemma {:induction false} ElementsIn<T>(s: seq<T>, x: T)
    ensures x in Elements(s) <==> x in s
  {
    if s != [] {
      ElementsIn(s[..|s| - 1], x);
      assert s == s[..|s| - 1] + [s[|s| - 1]];
    }
  }

  /** Marking x visited and appending it to the goal-tested list keeps the two in step. */
  lemma VisitStep<T>(visited: set<T>, tested: seq<T>, x: T)
    requires visited == Elements(tested) && Distinct(tested) && x !in visited
    ensures visited + {x} == Elements(tested + [x])
    ensures Distinct(tested + [x])
  {
    var t := tested + [x];
    assert t[..|t| - 1] == tested;
    ElementsIn(tested, x);
  }

  /** Every board on the list is well formed and not solved. */
  ghost predicate AllUnsolved(N: nat, s: seq<Board>) {
    s == [] || (WellFormed(N, s[|s| - 1]) && !Solved(N, s[|s| - 1]) && AllUnsolved(N, s[..|s| - 1]))
  }

  lemma UnsolvedStep(N: nat, s: seq<Board>, x: Board)
    requires AllUnsolved(N, s) && WellFormed(N, x) && !Solved(N, x)
    ensures AllUnsolved(N, s + [x])
  {
    assert (s + [x])[..|s|] == s;
  }

  lemma {:induction false} AllUnsolvedIn(N: nat, s: seq<Board>, v: Board)
    requires AllUnsolved(N, s) && v in Elements(s)
    ensures WellFormed(N, v) && !Solved(N, v)
  {
    if v != s[|s| - 1] {
      AllUnsolvedIn(N, s[..|s| - 1], v);
    }
  }

  /**
   * One expansion keeps the search invariant: the new frontier holds only
   * nodes reached by valid paths, and the visited set, now including the
   * expanded board, is closed under moves into itself and the new frontier.
   */
  lemma ExpandKeeps(N: nat, root: Board, h: Heuristic, node: Node, rest: seq<Node>,
                    visited: set<Board>, before: set<Board>)
    requires WellFormed(N, root) && HasAgent(N, root) && NodeOk(N, root, node)
    requires forall n {:trigger NodeOk(N, root, n)} :: n in rest ==> NodeOk(N, root, n)
    requires Closed(N, visited, before) && before <= visited + {node.board} + Boards(rest)
    ensures forall n {:trigger NodeOk(N, root, n)} :: n in rest + Children(N, h, node, AgentMoves(N, node.board)) ==> NodeOk(N, root, n)
    ensures Closed(N, visited + {node.board},
                   visited + {node.board} + Boards(rest + Children(N, h, node, AgentMoves(N, node.board))))
    ensures before <= visited + {node.board} + Boards(rest + Children(N, h, node, AgentMoves(N, node.board)))
  {
    var moves := AgentMoves(N, node.board);
    var kids := Children(N, h, node, moves);
    var f := rest + kids;
    var after := visited + {node.board} + Boards(f);
    ChildrenOk(N, root, h, node, moves);
    ChildrenBoards(N, h, node, moves);
    BoardsAppend(rest, kids);
    forall n | n in f
      ensures NodeOk(N, root, n)
    {
      if n !in rest {
        assert n in kids;
      }
    }
    ClosedAdd(N, visited, before, after, node.board);
  }

  /** The list with every repeat of an earlier element dropped, in order. */
  ghost function FirstOccurrences<T>(s: seq<T>): seq<T> {
    if s == [] then []
    else
      var t := FirstOccurrences(s[..|s| - 1]);
      if s[|s| - 1] in t then t else t + [s[|s| - 1]]
  }

  lemma FirstOccurrencesSnoc<T>(s: seq<T>, x: T)
    ensures FirstOccurrences(s + [x]) ==
            if x in FirstOccurrences(s) then FirstOccurrences(s) else FirstOccurrences(s) + [x]
  {
    assert (s + [x])[..|s|] == s;
  }

  /** Dropping repeats keeps the first element and never lengthens the list. */
  lemma {:induction false} FirstOccurrencesBounds<T>(s: seq<T>)
    ensures |FirstOccurrences(s)| <= |s|
    ensures s != [] ==> FirstOccurrences(s) != [] && FirstOccurrences(s)[0] == s[0]
  {
    if s != [] {
      var init := s[..|s| - 1];
      FirstOccurrencesBounds(init);
      if init != [] {
        assert init[0] == s[0];
      }
    }
  }

  /** Dropping repeats keeps every element. */
  lemma {:induction false} FirstOccurrencesIn<T>(s: seq<T>, x: T)
    ensures x in FirstOccurrences(s) <==> x in s
  {
    if s != [] {
      var init := s[..|s| - 1];
      FirstOccurrencesIn(init, x);
      assert s == init + [s[|s| - 1]];
    }
  }

  /** Some valid path from the root replays to v. */
  ghost predicate Reachable(N: nat, root: Board, v: Board)
    requires WellFormed(N, root) && HasAgent(N, root)
  {
    exists ms :: ValidPath(N, root, ms) && Replay(N, root, ms) == v
  }

  /** Every board on the list is reachable from the root. */
  ghost predicate AllReachable(N: nat, root: Board, s: seq<Board>)
    requires WellFormed(N, root) && HasAgent(N, root)
  {
    s == [] || (Reachable(N, root, s[|s| - 1]) && AllReachable(N, root, s[..|s| - 1]))
  }

  /** The board of a node reached by its own moves is reachable. */
  lemma ReachableStep(N: nat, root: Board, s: seq<Board>, node: Node)
    requires WellFormed(N, root) && HasAgent(N, root)
    requires AllReachable(N, root, s) && NodeOk(N, root, node)
    ensures AllReachable(N, root, s + [node.board])
  {
    assert (s + [node.board])[..|s|] == s;
    assert ValidPath(N, root, node.moves) && Replay(N, root, node.moves) == node.board;
  }

  lemma {:induction false} AllReachableAt(N: nat, root: Board, s: seq<Board>)
    requires WellFormed(N, root) && HasAgent(N, root) && AllReachable(N, root, s)
    ensures forall i :: 0 <= i < |s| ==> Reachable(N, root, s[i])
  {
    if s != [] {
      var init := s[..|s| - 1];
      AllReachableAt(N, root, init);
      forall i | 0 <= i < |s|
        ensures Reachable(N, root, s[i])
      {
        if i < |init| {
          assert s[i] == init[i];
        }
      }
    }
  }

  lemma {:induction false} AllUnsolvedAt(N: nat, s: seq<Board>)
    requires AllUnsolved(N, s)
    ensures forall i :: 0 <= i < |s| ==> WellFormed(N, s[i]) && !Solved(N, s[i])
  {
    if s != [] {
      var init := s[..|s| - 1];
      AllUnsolvedAt(N, init);
      forall i | 0 <= i < |s|
        ensures WellFormed(N, s[i]) && !Solved(N, s[i])
      {
        if i < |init| {
          assert s[i] == init[i];
        }
      }
    }
  }

  /**
   * What the history of pops gives: the root is goal-tested first, there
   * are at least as many pops as goal tests, and every popped board is
   * reachable.
   */
  lemma HistoryFacts(N: nat, root: Board, tested: seq<Board>, popped: seq<Board>)
    requires WellFormed(N, root) && HasAgent(N, root)
    requires tested == FirstOccurrences(popped) && AllReachable(N, root, popped)
    requires popped != [] && popped[0] == root
    ensures |tested| >= 1 && tested[0] == root && |popped| >= |tested|
    ensures forall i :: 0 <= i < |popped| ==> Reachable(N, root, popped[i])
  {
    FirstOccurrencesBounds(popped);
    AllReachableAt(N, root, popped);
  }

  /**
   * The invariant of the main loop of aStarSearch, over the frontier, the
   * visited set, the ghost lists of popped and of goal-tested boards, and
   * the counter:
   * - every queued node is reached by its own moves at its own cost;
   * - the counter is the number of pops, and every popped board is reachable;
   * - the goal-tested boards are the popped ones with repeats dropped, they
   *   are exactly the visited set, and none of them is solved;
   * - every move out of a visited board lands on a visited or a queued board,
   *   and the root is visited or queued;
   * - before the first pop the root is alone on the queue, the first pop is
   *   the root, and a solved root has not been popped yet.
   */
  ghost predicate SearchInv(N: nat, root: Board, frontier: seq<Node>, visited: set<Board>,
                            tested: seq<Board>, popped: seq<Board>, expanded: int)
    requires WellFormed(N, root) && HasAgent(N, root)
  {
    (forall n {:trigger NodeOk(N, root, n)} :: n in frontier ==> NodeOk(N, root, n)) &&
    expanded == |popped| && AllReachable(N, root, popped) &&
    tested == FirstOccurrences(popped) && visited == Elements(tested) && Distinct(tested) &&
    AllUnsolved(N, tested) &&
    Closed(N, visited, visited + Boards(frontier)) && root in visited + Boards(frontier) &&
    (popped == [] ==> frontier == [Node(0, 0, root, [])]) &&
    (popped != [] ==> popped[0] == root) &&
    (Solved(N, root) ==> popped == [])
  }

  /** The invariant holds before the first pop. */
  lemma SearchInit(N: nat, root: Board)
    requires WellFormed(N, root) && HasAgent(N, root)
    ensures SearchInv(N, root, [Node(0, 0, root, [])], {}, [], [], 0)
  {
    var frontier := [Node(0, 0, root, [])];
    assert Boards(frontier) == {root} by {
      assert frontier[0].board == root;
    }
  }

  /** A popped node is reached from the root by its own moves. */
  lemma PopKeeps(N: nat, root: Board, frontier: seq<Node>, visited: set<Board>,
                 tested: seq<Board>, popped: seq<Board>, expanded: int, node: Node)
    requires WellFormed(N, root) && HasAgent(N, root)
    requires SearchInv(N, root, frontier, visited, tested, popped, expanded) && node in frontier
    ensures NodeOk(N, root, node) && WellFormed(N, node.board) && HasAgent(N, node.board)
  {
  }

  /**
   * What a pop adds to the history: the popped boards stay reachable and
   * start with the root, and the board is goal-tested anew exactly when it
   * is not visited yet.
   */
  lemma PopRecord(N: nat, root: Board, frontier: seq<Node>, visited: set<Board>,
                  tested: seq<Board>, popped: seq<Board>, expanded: int, node: Node)
    requires WellFormed(N, root) && HasAgent(N, root)
    requires SearchInv(N, root, frontier, visited, tested, popped, expanded) && node in frontier
    ensures AllReachable(N, root, popped + [node.board]) && (popped + [node.board])[0] == root
    ensures node.board in visited ==> FirstOccurrences(popped + [node.board]) == tested
    ensures node.board !in visited ==> FirstOccurrences(popped + [node.board]) == tested + [node.board]
    ensures Solved(N, root) ==> node == Node(0, 0, root, []) && visited == {} && expanded == 0
  {
    assert NodeOk(N, root, node);
    ReachableStep(N, root, popped, node);
    if popped == [] {
      assert node == frontier[0];
    } else {
      assert (popped + [node.board])[0] == popped[0];
    }
    FirstOccurrencesSnoc(popped, node.board);
    ElementsIn(tested, node.board);
  }

  /** Skipping an already visited board, after counting its pop, keeps the invariant. */
  lemma DuplicateKeeps(N: nat, root: Board, frontier: seq<Node>, visited: set<Board>,
                       tested: seq<Board>, popped: seq<Board>, expanded: int, node: Node, rest: seq<Node>)
    requires WellFormed(N, root) && HasAgent(N, root)
    requires SearchInv(N, root, frontier, visited, tested, popped, expanded)
    requires node in frontier && node.board in visited
    requires forall n :: n in rest ==> n in frontier
    requires Boards(frontier) <= Boards(rest) + {node.board}
    ensures SearchInv(N, root, rest, visited, tested, popped + [node.board], expanded + 1)
  {
    PopRecord(N, root, frontier, visited, tested, popped, expanded, node);
    ClosedGrow(N, visited, visited + Boards(frontier), visited + Boards(rest));
  }

  /** Counting, visiting and goal-testing a fresh unsolved board and pushing its children keeps the invariant. */
  lemma VisitKeeps(N: nat, root: Board, h: Heuristic, frontier: seq<Node>, visited: set<Board>,
                   tested: seq<Board>, popped: seq<Board>, expanded: int, node: Node, rest: seq<Node>,
                   next: seq<Node>)
    requires WellFormed(N, root) && HasAgent(N, root)
    requires SearchInv(N, root, frontier, visited, tested, popped, expanded)
    requires node in frontier && node.board !in visited
    requires forall n :: n in rest ==> n in frontier
    requires Boards(frontier) <= Boards(rest) + {node.board}
    requires WellFormed(N, node.board) && HasAgent(N, node.board) && !Solved(N, node.board)
    requires next == rest + Children(N, h, node, AgentMoves(N, node.board))
    ensures SearchInv(N, root, next, visited + {node.board}, tested + [node.board],
                      popped + [node.board], expanded + 1)
  {
    PopRecord(N, root, frontier, visited, tested, popped, expanded, node);
    VisitStep(visited, tested, node.board);
    UnsolvedStep(N, tested, node.board);
    ExpandKeeps(N, root, h, node, rest, visited, visited + Boards(frontier));
  }

  /**
   * A popped board that is solved ends the search with a valid, skip-free
   * path of cost g to it; a solved root is popped first, with nothing
   * counted before it.
   */
  lemma FoundPath(N: nat, root: Board, frontier: seq<Node>, visited: set<Board>,
                  seen: seq<Board>, history: seq<Board>, expanded: int, node: Node, result: Outcome)
    requires WellFormed(N, root) && HasAgent(N, root)
    requires SearchInv(N, root, frontier, visited, seen, history, expanded)
    requires node in frontier && WellFormed(N, node.board) && Solved(N, node.board)
    requires result == Found(node.moves, node.g, expanded + 1)
    ensures result.Found? ==> ValidPath(N, root, result.moves) && SkipCount(N, root, result.moves) == 0
    ensures result.Found? ==> Solved(N, Replay(N, root, result.moves))
    ensures result.Found? ==> result.cost == PathCost(N, root, result.moves)
    ensures Solved(N, root) ==> result == Found([], 0, 1)
  {
    assert NodeOk(N, root, node);
    NoSkipIffValidPath(N, root, node.moves);
  }

  /**
   * A popped board that is new and solved is the last of the goal-tested
   * boards, all earlier ones unsolved, and its pop is counted; stated over
   * the returned outcome and the ghost lists after the pop.
   */
  lemma FoundKeeps(N: nat, root: Board, frontier: seq<Node>, visited: set<Board>,
                   seen: seq<Board>, history: seq<Board>, expanded: int, node: Node,
                   result: Outcome, tested: seq<Board>, popped: seq<Board>)
    requires WellFormed(N, root) && HasAgent(N, root)
    requires SearchInv(N, root, frontier, visited, seen, history, expanded)
    requires node in frontier && node.board !in visited
    requires tested == seen + [node.board] && popped == history + [node.board]
    requires result == Found(node.moves, node.g, expanded + 1)
    ensures result.Found? ==> result.expanded == |popped| >= |tested|
    ensures tested == FirstOccurrences(popped) && Distinct(tested)
    ensures |tested| >= 1 && tested[0] == root
    ensures forall i :: 0 <= i < |popped| ==> Reachable(N, root, popped[i])
    ensures result.Found? ==> |tested| >= 1 && tested[|tested| - 1] == Replay(N, root, result.moves)
    ensures result.Found? ==> forall i :: 0 <= i < |tested| - 1 ==> WellFormed(N, tested[i]) && !Solved(N, tested[i])
  {
    PopRecord(N, root, frontier, visited, seen, history, expanded, node);
    assert NodeOk(N, root, node);
    VisitStep(visited, seen, node.board);
    HistoryFacts(N, root, tested, popped);
    assert tested[|tested| - 1] == node.board == Replay(N, root, result.moves);
    AllUnsolvedAt(N, seen);
    forall i | 0 <= i < |tested| - 1
      ensures WellFormed(N, tested[i]) && !Solved(N, tested[i])
    {
      assert tested[i] == seen[i];
    }
  }

  /**
   * When the visited set holds the root, is closed under moves and holds
   * no solved board, no valid path from the root reaches a solved board.
   */
  lemma Unreachable(N: nat, b: Board, visited: set<Board>, tested: seq<Board>)
    requires WellFormed(N, b) && HasAgent(N, b)
    requires Closed(N, visited, visited) && b in visited
    requires visited == Elements(tested) && AllUnsolved(N, tested)
    ensures forall moves :: ValidPath(N, b, moves) ==> !Solved(N, Replay(N, b, moves))
  {
    forall moves | ValidPath(N, b, moves)
      ensures !Solved(N, Replay(N, b, moves))
    {
      ClosedReach(N, visited, b, moves);
      AllUnsolvedIn(N, tested, Replay(N, b, moves));
    }
  }

  /**
   * An empty frontier ends the search with what aStarSearch promises: the
   * root was popped and goal-tested first, every goal-tested board is
   * unsolved, and no valid path from the root reaches a solved board.
   */
  lemma ExhaustedKeeps(N: nat, root: Board, frontier: seq<Node>, visited: set<Board>,
                       expanded: int, result: Outcome, tested: seq<Board>, popped: seq<Board>)
    requires WellFormed(N, root) && HasAgent(N, root) && frontier == []
    requires SearchInv(N, root, frontier, visited, tested, popped, expanded)
    requires result == NoSolution
    ensures tested == FirstOccurrences(popped) && Distinct(tested)
    ensures |tested| >= 1 && tested[0] == root
    ensures forall i :: 0 <= i < |popped| ==> Reachable(N, root, popped[i])
    ensures result.NoSolution? ==> forall i :: 0 <= i < |tested| ==> WellFormed(N, tested[i]) && !Solved(N, tested[i])
    ensures !Solved(N, root)
    ensures result.NoSolution? ==> forall moves :: ValidPath(N, root, moves) ==> !Solved(N, Replay(N, root, moves))
  {
    assert Boards(frontier) == {};
    assert visited + Boards(frontier) == visited;
    HistoryFacts(N, root, tested, popped);
    AllUnsolvedAt(N, tested);
    Unreachable(N, root, visited, tested);
  }

  /**
   * aStarSearch, with two ghost lists beside it: `popped`, every board
   * popped in order, and `tested`, the boards goal-tested, which are the
   * popped ones with repeats dropped. Every pop is counted, skipped
   * duplicates included, and every popped board is reachable from the
   * root by a valid path; the root is goal-tested first. On success the
   * moves replay, with no move skipped, to a solved board that was the
   * last goal-tested, every earlier one unsolved, and the returned g is
   * their total cost. An already solved board gives ([], 0, 1). "No
   * solution found" is returned only when every goal-tested board was
   * unsolved and no valid path from the root reaches a solved board.
   */
  method AStarSearch(N: nat, b: Board, h: Heuristic)
    returns (result: Outcome, ghost tested: seq<Board>, ghost popped: seq<Board>)
    requires WellFormed(N, b) && HasAgent(N, b)
    ensures result.Found? ==> ValidPath(N, b, result.moves) && SkipCount(N, b, result.moves) == 0
    ensures result.Found? ==> Solved(N, Replay(N, b, result.moves))
    ensures result.Found? ==> result.cost == PathCost(N, b, result.moves)
    ensures result.Found? ==> result.expanded == |popped| >= |tested|
    ensures tested == FirstOccurrences(popped) && Distinct(tested)
    ensures |tested| >= 1 && tested[0] == b
    ensures forall i :: 0 <= i < |popped| ==> Reachable(N, b, popped[i])
    ensures result.Found? ==> |tested| >= 1 && tested[|tested| - 1] == Replay(N, b, result.moves)
    ensures result.Found? ==> forall i :: 0 <= i < |tested| - 1 ==> WellFormed(N, tested[i]) && !Solved(N, tested[i])
    ensures result.NoSolution? ==> forall i :: 0 <= i < |tested| ==> WellFormed(N, tested[i]) && !Solved(N, tested[i])
    ensures Solved(N, b) ==> result == Found([], 0, 1)
    ensures result.NoSolution? ==> forall moves :: ValidPath(N, b, moves) ==> !Solved(N, Replay(N, b, moves))
  {
    var frontier := [Node(0, 0, b, [])];
    var expanded := 0;
    var visited: set<Board> := {};
    tested, popped := [], [];
    ghost var universe := Universe(N);
    SearchInit(N, b);
    while frontier != []
      invariant SearchInv(N, b, frontier, visited, tested, popped, expanded)
      invariant visited <= universe
      decreases |universe - visited|, |frontier|
    {
      var node, rest := PopMin(frontier);
      PopKeeps(N, b, frontier, visited, tested, popped, expanded, node);
      ghost var queued, counted, seen, seenTested, seenPopped := frontier, expanded, visited, tested, popped;
      frontier := rest;
      expanded := expanded + 1;
      popped := popped + [node.board];
      if node.board in visited {
        DuplicateKeeps(N, b, queued, seen, seenTested, seenPopped, counted, node, rest);
        continue;
      }
      VisitShrinks(universe, visited, node.board);
      visited := visited + {node.board};
      tested := tested + [node.board];
      var solved := IsSolved(N, node.board);
      if solved {
        result := Found(node.moves, node.g, expanded);
        FoundPath(N, b, queued, seen, seenTested, seenPopped, counted, node, result);
        FoundKeeps(N, b, queued, seen, seenTested, seenPopped, counted, node, result, tested, popped);
        assert result.Found? ==> |tested| >= 1 && tested[|tested| - 1] == Replay(N, b, result.moves);
        return;
      }
      frontier := Expand(N, h, node, frontier);
      VisitKeeps(N, b, h, queued, seen, seenTested, seenPopped, counted, node, rest, frontier);
    }
    result := NoSolution;
    ExhaustedKeeps(N, b, frontier, visited, expanded, result, tested, popped);
  }
}
