/**
 * The move generator: which slide directions are open from a cell, how far
 * a slide goes (its cost), and the board a slide produces.
 */
module Moves {
  import opened Grid

  /** The four directions "u", "d", "l", "r". */
  datatype Move = Up | Down | Left | Right

  /** Place of a direction in the order u, d, l, r that getValidMoves tries. */
  function Rank(m: Move): nat {
    match m
    case Up => 0
    case Down => 1
    case Left => 2
    case Right => 3
  }

  /** The cell k steps from p in direction m ("u" decreases the row). */
  function StepN(p: Pos, m: Move, k: int): Pos {
    match m
    case Up => (p.0 - k, p.1)
    case Down => (p.0 + k, p.1)
    case Left => (p.0, p.1 - k)
    case Right => (p.0, p.1 + k)
  }

  /** The neighbour of p in direction m. */
  function Step(p: Pos, m: Move): Pos {
    StepN(p, m, 1)
  }

  lemma StepNext(p: Pos, m: Move, k: int)
    ensures Step(StepN(p, m, k), m) == StepN(p, m, k + 1)
  {
  }

  /** t steps from p are t - 1 steps from p's neighbour. */
  lemma StepShift(p: Pos, m: Move, t: int)
    ensures StepN(Step(p, m), m, t - 1) == StepN(p, m, t)
  {
  }

  /** isValid at a position. */
  predicate ValidAt(N: nat, b: Board, q: Pos)
    requires WellFormed(N, b)
  {
    IsValid(N, b, q.0, q.1)
  }

  /** Cells left between p and the edge of the board in direction m. */
  function Room(N: nat, p: Pos, m: Move): int {
    match m
    case Up => p.0
    case Down => N - 1 - p.0
    case Left => p.1
    case Right => N - 1 - p.1
  }

  /**
   * The number of steps a slide from p in direction m takes: every cell
   * 1..k steps away is valid and the cell k+1 steps away is not.
   */
  function Reach(N: nat, b: Board, p: Pos, m: Move): nat
    requires WellFormed(N, b) && InBounds(N, p)
    decreases Room(N, p, m)
  {
    var q := Step(p, m);
    if ValidAt(N, b, q) then 1 + Reach(N, b, q, m) else 0
  }

  /** Every cell 1..k steps away is valid and the cell k+1 steps away is not. */
  lemma {:induction false} ReachSpec(N: nat, b: Board, p: Pos, m: Move)
    requires WellFormed(N, b) && InBounds(N, p)
    ensures forall t :: 1 <= t <= Reach(N, b, p, m) ==> ValidAt(N, b, StepN(p, m, t))
    ensures !ValidAt(N, b, StepN(p, m, Reach(N, b, p, m) + 1))
    decreases Room(N, p, m)
  {
    var q := Step(p, m);
    if ValidAt(N, b, q) {
      ReachSpec(N, b, q, m);
      var k := Reach(N, b, q, m);
      forall t | 1 <= t <= k + 1
        ensures ValidAt(N, b, StepN(p, m, t))
      {
        StepShift(p, m, t);
      }
      StepShift(p, m, k + 2);
    }
  }

  /** Specification of cost(b, m): the steps of the slide that starts at the agent. */
  function MoveCost(N: nat, b: Board, m: Move): nat
    requires WellFormed(N, b) && HasAgent(N, b)
  {
    Reach(N, b, AgentCell(N, b), m)
  }

  /**
   * Specification of getValidMoves: the directions whose neighbour of (x, y) is valid,
   * listed in the order u, d, l, r.
   */
  function ValidMoves(N: nat, b: Board, x: int, y: int): seq<Move>
    requires WellFormed(N, b)
  {
    (if IsValid(N, b, x - 1, y) then [Up] else []) +
    (if IsValid(N, b, x + 1, y) then [Down] else []) +
    (if IsValid(N, b, x, y - 1) then [Left] else []) +
    (if IsValid(N, b, x, y + 1) then [Right] else [])
  }

  /** A direction is offered exactly when its neighbour is valid, in the order u, d, l, r, each once. */
  lemma ValidMovesSpec(N: nat, b: Board, x: int, y: int)
    requires WellFormed(N, b)
    ensures forall m :: m in ValidMoves(N, b, x, y) <==> ValidAt(N, b, Step((x, y), m))
    ensures forall i, j :: 0 <= i < j < |ValidMoves(N, b, x, y)| ==>
              Rank(ValidMoves(N, b, x, y)[i]) < Rank(ValidMoves(N, b, x, y)[j])
  {
  }

  /** The moves open to the agent. */
  function AgentMoves(N: nat, b: Board): seq<Move>
    requires WellFormed(N, b) && HasAgent(N, b)
  {
    var p := AgentCell(N, b);
    ValidMoves(N, b, p.0, p.1)
  }

  /** q lies on the straight segment from p through k steps in direction m. */
  predicate OnSegment(p: Pos, m: Move, k: int, q: Pos) {
    match m
    case Up => q.1 == p.1 && p.0 - k <= q.0 <= p.0
    case Down => q.1 == p.1 && p.0 <= q.0 <= p.0 + k
    case Left => q.0 == p.0 && p.1 - k <= q.1 <= p.1
    case Right => q.0 == p.0 && p.1 <= q.1 <= p.1 + k
  }

  /** A cell on a segment is some number of steps along it. */
  lemma SegmentOffset(p: Pos, m: Move, k: int, q: Pos) returns (t: int)
    requires OnSegment(p, m, k, q)
    ensures 0 <= t <= k && q == StepN(p, m, t)
  {
    match m
    case Up => t := p.0 - q.0;
    case Down => t := q.0 - p.0;
    case Left => t := p.1 - q.1;
    case Right => t := q.1 - p.1;
  }

  /** The new content of cell q after a slide of k steps from p. */
  function SlideCell(c: Cell, p: Pos, m: Move, k: int, q: Pos): Cell {
    if q == StepN(p, m, k) then Agent
    else if OnSegment(p, m, k, q) then Colored
    else c
  }

  /** The cell where the agent comes to rest. */
  function Landing(N: nat, b: Board, m: Move): Pos
    requires WellFormed(N, b) && HasAgent(N, b)
  {
    StepN(AgentCell(N, b), m, MoveCost(N, b, m))
  }

  /** The board after a slide of k steps from p in direction m. */
  function Slide(N: nat, b: Board, p: Pos, m: Move, k: int): (r: Board)
    requires WellFormed(N, b)
    ensures WellFormed(N, r)
  {
    seq(N, i requires 0 <= i < N =>
      seq(N, j requires 0 <= j < N => SlideCell(b[i][j], p, m, k, (i, j))))
  }

  /**
   * makeMove: the start cell and the cells slid over become "1", the
   * landing cell becomes "S", every other cell is as before.
   */
  function ApplyMove(N: nat, b: Board, m: Move): (r: Board)
    requires WellFormed(N, b) && HasAgent(N, b)
    ensures WellFormed(N, r)
  {
    Slide(N, b, AgentCell(N, b), m, MoveCost(N, b, m))
  }

  /** The content of one cell after a slide. */
  lemma SlideAt(N: nat, b: Board, p: Pos, m: Move, k: int, i: int, j: int)
    requires WellFormed(N, b) && 0 <= i < N && 0 <= j < N
    ensures Slide(N, b, p, m, k)[i][j] == SlideCell(b[i][j], p, m, k, (i, j))
  {
  }

  /** The landing cell is on the board. */
  lemma LandingInBounds(N: nat, b: Board, m: Move)
    requires WellFormed(N, b) && HasAgent(N, b)
    ensures InBounds(N, Landing(N, b, m))
  {
    var p, k := AgentCell(N, b), MoveCost(N, b, m);
    ReachSpec(N, b, p, m);
    if k > 0 {
      assert ValidAt(N, b, StepN(p, m, k));
    }
  }

  /** After a slide the board still has an agent: the one on the landing cell. */
  lemma MoveKeepsAgent(N: nat, b: Board, m: Move)
    requires WellFormed(N, b) && HasAgent(N, b)
    ensures HasAgent(N, ApplyMove(N, b, m))
  {
    var q := Landing(N, b, m);
    LandingInBounds(N, b, m);
    ApplyMoveAt(N, b, m, q.0, q.1);
    assert ApplyMove(N, b, m)[q.0][q.1] == Agent;
    AgentPosFirst(N, ApplyMove(N, b, m));
  }

  /** The content of one cell after a slide. */
  lemma ApplyMoveAt(N: nat, b: Board, m: Move, i: int, j: int)
    requires WellFormed(N, b) && HasAgent(N, b) && 0 <= i < N && 0 <= j < N
    ensures ApplyMove(N, b, m)[i][j] == SlideCell(b[i][j], AgentCell(N, b), m, MoveCost(N, b, m), (i, j))
  {
  }

  /** A segment one step longer adds exactly the cell at its new end. */
  lemma SegmentExtend(p: Pos, m: Move, k: int, q: Pos)
    requires 0 <= k
    ensures OnSegment(p, m, k + 1, q) <==> OnSegment(p, m, k, q) || q == StepN(p, m, k + 1)
  {
  }

  // ---------------------------------------------------------------------
  // The source's loops
  // ---------------------------------------------------------------------

  /** getValidMoves: appends "u", "d", "l", "r" in turn when the neighbour is valid. */
  method GetValidMoves(N: nat, b: Board, x: int, y: int) returns (moves: seq<Move>)
    requires WellFormed(N, b)
    ensures moves == ValidMoves(N, b, x, y)
    ensures forall m :: m in moves <==> ValidAt(N, b, Step((x, y), m))
    ensures forall i, j :: 0 <= i < j < |moves| ==> Rank(moves[i]) < Rank(moves[j])
  {
    moves := [];
    if IsValid(N, b, x - 1, y) {
      moves := moves + [Up];
    }
    if IsValid(N, b, x + 1, y) {
      moves := moves + [Down];
    }
    if IsValid(N, b, x, y - 1) {
      moves := moves + [Left];
    }
    if IsValid(N, b, x, y + 1) {
      moves := moves + [Right];
    }
    ValidMovesSpec(N, b, x, y);
  }

  /** One step of the walk shared by cost and makeMove: the next cell is one step further on. */
  lemma StepOn(N: nat, b: Board, p: Pos, m: Move, k: int, cur: Pos)
    requires WellFormed(N, b) && InBounds(N, p) && InBounds(N, cur) && cur == StepN(p, m, k)
    requires Reach(N, b, p, m) == k + Reach(N, b, cur, m) && ValidAt(N, b, Step(cur, m))
    ensures InBounds(N, Step(cur, m)) && Step(cur, m) == StepN(p, m, k + 1)
    ensures Reach(N, b, p, m) == k + 1 + Reach(N, b, Step(cur, m), m)
    ensures Reach(N, b, Step(cur, m), m) < Reach(N, b, cur, m)
  {
    StepNext(p, m, k);
  }

  /**
   * cost: walks from the agent while the next cell is valid and counts
   * the steps; CostPositiveIffOpen says when the count is positive.
   */
  method Cost(N: nat, b: Board, m: Move) returns (count: nat)
    requires WellFormed(N, b) && HasAgent(N, b)
    ensures count == MoveCost(N, b, m)
  {
    var pos := GetAgentPos(N, b);
    var cur := pos.value;
    ghost var start := cur;
    count := 0;
    while ValidAt(N, b, Step(cur, m))
      invariant InBounds(N, cur) && cur == StepN(start, m, count)
      invariant Reach(N, b, start, m) == count + Reach(N, b, cur, m)
      decreases Reach(N, b, cur, m)
    {
      StepOn(N, b, start, m, count, cur);
      cur := Step(cur, m);
      count := count + 1;
    }
  }

  /**
   * makeMove: copies the board, colours the start cell, slides while the
   * next cell of the ORIGINAL board is valid colouring each cell entered,
   * and writes "S" where it stops. The input board is a value and is left
   * as it was.
   */
  method MakeMove(N: nat, b: Board, m: Move) returns (nb: Board)
    requires WellFormed(N, b) && HasAgent(N, b)
    ensures nb == ApplyMove(N, b, m)
  {
    nb := b;
    var pos := GetAgentPos(N, b);
    var cur := pos.value;
    ghost var start := cur;
    ghost var count := 0;
    PaintStart(N, b, start, m);
    nb := SetCell(N, nb, cur, Colored);
    while ValidAt(N, b, Step(cur, m))
      invariant InBounds(N, cur) && cur == StepN(start, m, count)
      invariant 0 <= count && Reach(N, b, start, m) == count + Reach(N, b, cur, m)
      invariant nb == Painted(N, b, start, m, count)
      decreases Reach(N, b, cur, m)
    {
      StepOn(N, b, start, m, count, cur);
      cur := Step(cur, m);
      PaintNext(N, b, start, m, count, cur, nb);
      count := count + 1;
      nb := SetCell(N, nb, cur, Colored);
    }
    PaintFinish(N, b, m, start, count, cur, nb);
    nb := SetCell(N, nb, cur, Agent);
  }

  /** One cell write of makeMove: b with cell q set to c. */
  function SetCell(N: nat, b: Board, q: Pos, c: Cell): (r: Board)
    requires WellFormed(N, b) && InBounds(N, q)
    ensures WellFormed(N, r)
  {
    b[q.0 := b[q.0][q.1 := c]]
  }

  /** b with the start cell p and the k cells after it in direction m coloured "1". */
  function Painted(N: nat, b: Board, p: Pos, m: Move, k: int): (r: Board)
    requires WellFormed(N, b)
    ensures WellFormed(N, r)
  {
    seq(N, i requires 0 <= i < N =>
      seq(N, j requires 0 <= j < N => if OnSegment(p, m, k, (i, j)) then Colored else b[i][j]))
  }

  /** Colouring the start cell gives the segment of length 0. */
  lemma PaintStart(N: nat, b: Board, p: Pos, m: Move)
    requires WellFormed(N, b) && InBounds(N, p)
    ensures SetCell(N, b, p, Colored) == Painted(N, b, p, m, 0)
  {
    var nb := SetCell(N, b, p, Colored);
    var r := Painted(N, b, p, m, 0);
    forall i | 0 <= i < N
      ensures nb[i] == r[i]
    {
      assert |nb[i]| == |r[i]|;
      forall j | 0 <= j < N
        ensures nb[i][j] == r[i][j]
      {
        if OnSegment(p, m, 0, (i, j)) {
          assert (i, j) == p;
        }
      }
    }
  }

  /** Colouring the next cell lengthens the segment by one. */
  lemma PaintNext(N: nat, b: Board, p: Pos, m: Move, k: int, q: Pos, nb: Board)
    requires WellFormed(N, b) && 0 <= k && q == StepN(p, m, k + 1) && InBounds(N, q)
    requires nb == Painted(N, b, p, m, k)
    ensures SetCell(N, nb, q, Colored) == Painted(N, b, p, m, k + 1)
  {
    var nb' := SetCell(N, nb, q, Colored);
    var r := Painted(N, b, p, m, k + 1);
    forall i | 0 <= i < N
      ensures nb'[i] == r[i]
    {
      forall j | 0 <= j < N
        ensures nb'[i][j] == r[i][j]
      {
        SegmentExtend(p, m, k, (i, j));
      }
    }
  }

  /** Writing "S" on the end of the coloured segment gives the slid board. */
  lemma PaintLand(N: nat, b: Board, p: Pos, m: Move, k: int)
    requires WellFormed(N, b) && InBounds(N, StepN(p, m, k))
    ensures SetCell(N, Painted(N, b, p, m, k), StepN(p, m, k), Agent) == Slide(N, b, p, m, k)
  {
    var q, nb := StepN(p, m, k), Painted(N, b, p, m, k);
    var nb' := SetCell(N, nb, q, Agent);
    var r := Slide(N, b, p, m, k);
    forall i | 0 <= i < N
      ensures nb'[i] == r[i]
    {
      forall j | 0 <= j < N
        ensures nb'[i][j] == r[i][j]
      {
      }
    }
  }

  /** Once the walk has stopped, writing "S" where it stopped gives the board of ApplyMove. */
  lemma PaintFinish(N: nat, b: Board, m: Move, p: Pos, k: int, q: Pos, nb: Board)
    requires WellFormed(N, b) && HasAgent(N, b)
    requires p == AgentCell(N, b) && q == StepN(p, m, k) && InBounds(N, q)
    requires 0 <= k && Reach(N, b, p, m) == k + Reach(N, b, q, m) && !ValidAt(N, b, Step(q, m))
    requires nb == Painted(N, b, p, m, k)
    ensures SetCell(N, nb, q, Agent) == ApplyMove(N, b, m)
  {
    assert k == MoveCost(N, b, m);
    PaintLand(N, b, p, m, k);
  }

  // ---------------------------------------------------------------------
  // What a slide preserves
  // ---------------------------------------------------------------------

  /** A slide over valid cells keeps every wall and creates none. */
  lemma SlideKeepsWalls(N: nat, b: Board, p: Pos, m: Move, k: int)
    requires WellFormed(N, b) && InBounds(N, p) && b[p.0][p.1] != Wall && 0 <= k
    requires forall t :: 1 <= t <= k ==> ValidAt(N, b, StepN(p, m, t))
    ensures forall i, j :: 0 <= i < N && 0 <= j < N ==>
              (Slide(N, b, p, m, k)[i][j] == Wall <==> b[i][j] == Wall)
  {
    assert OnSegment(p, m, k, StepN(p, m, k));
    forall i, j | 0 <= i < N && 0 <= j < N
      ensures Slide(N, b, p, m, k)[i][j] == Wall <==> b[i][j] == Wall
    {
      SlideAt(N, b, p, m, k, i, j);
      if OnSegment(p, m, k, (i, j)) {
        var t := SegmentOffset(p, m, k, (i, j));
        if t > 0 {
          assert ValidAt(N, b, StepN(p, m, t));
        }
        assert b[i][j] != Wall;
      }
    }
  }

  /** A slide keeps every wall and creates none. */
  lemma MoveKeepsWalls(N: nat, b: Board, m: Move)
    requires WellFormed(N, b) && HasAgent(N, b)
    ensures forall i, j :: 0 <= i < N && 0 <= j < N ==>
              (ApplyMove(N, b, m)[i][j] == Wall <==> b[i][j] == Wall)
  {
    ReachSpec(N, b, AgentCell(N, b), m);
    SlideKeepsWalls(N, b, AgentCell(N, b), m, MoveCost(N, b, m));
  }

  /** Slid cells only ever become "1" or "S". */
  lemma SlideUncolored(N: nat, b: Board, p: Pos, m: Move, k: int)
    requires WellFormed(N, b)
    ensures forall i, j :: 0 <= i < N && 0 <= j < N && Slide(N, b, p, m, k)[i][j] == Uncolored ==>
              b[i][j] == Uncolored
  {
  }

  /**
   * A slide never turns a cell back into "0" and creates no new "0", so
   * heuristic2 (and with it heuristic1) does not increase.
   */
  lemma MoveDoesNotIncreaseUncolored(N: nat, b: Board, m: Move)
    requires WellFormed(N, b) && HasAgent(N, b)
    ensures forall i, j :: 0 <= i < N && 0 <= j < N && ApplyMove(N, b, m)[i][j] == Uncolored ==>
              b[i][j] == Uncolored
    ensures CountUncolored(ApplyMove(N, b, m)) <= CountUncolored(b)
  {
    SlideUncolored(N, b, AgentCell(N, b), m, MoveCost(N, b, m));
    UncoloredSubset(N, ApplyMove(N, b, m), b);
  }

  /** A slide from the only "S" leaves only the "S" written at the end of the segment. */
  lemma SlideKeepsOneAgent(N: nat, b: Board, p: Pos, m: Move, k: int)
    requires WellFormed(N, b) && OnlyAgentAt(N, b, p) && 0 <= k && InBounds(N, StepN(p, m, k))
    ensures OnlyAgentAt(N, Slide(N, b, p, m, k), StepN(p, m, k))
  {
    var r := Slide(N, b, p, m, k);
    var q := StepN(p, m, k);
    forall i, j | 0 <= i < N && 0 <= j < N && r[i][j] == Agent
      ensures i == q.0 && j == q.1
    {
      if (i, j) != q {
        assert !OnSegment(p, m, k, (i, j)) && b[i][j] == Agent;
        assert OnSegment(p, m, k, p);
      }
    }
  }

  /** A slide from a board with a single "S" leaves a single "S", on the landing cell. */
  lemma MoveKeepsOneAgent(N: nat, b: Board, m: Move)
    requires WellFormed(N, b) && OneAgent(N, b)
    ensures HasAgent(N, b) && OnlyAgentAt(N, ApplyMove(N, b, m), Landing(N, b, m))
    ensures OneAgent(N, ApplyMove(N, b, m))
    ensures AgentPos(N, ApplyMove(N, b, m)) == Some(Landing(N, b, m))
  {
    var x, y :| 0 <= x < N && 0 <= y < N && OnlyAgentAt(N, b, (x, y));
    OneAgentFound(N, b, (x, y));
    LandingInBounds(N, b, m);
    SlideKeepsOneAgent(N, b, (x, y), m, MoveCost(N, b, m));
    var q := Landing(N, b, m);
    OneAgentFound(N, ApplyMove(N, b, m), q);
  }

  /** A slide in a direction whose neighbour is not valid gives back the same board. */
  lemma BlockedMoveIsIdentity(N: nat, b: Board, m: Move)
    requires WellFormed(N, b) && HasAgent(N, b)
    requires m !in AgentMoves(N, b)
    ensures MoveCost(N, b, m) == 0
    ensures ApplyMove(N, b, m) == b
  {
    var p := AgentCell(N, b);
    var r := ApplyMove(N, b, m);
    ValidMovesSpec(N, b, p.0, p.1);
    assert MoveCost(N, b, m) == 0;
    forall i | 0 <= i < N
      ensures r[i] == b[i]
    {
      forall j | 0 <= j < N
        ensures r[i][j] == b[i][j]
      {
        if OnSegment(p, m, 0, (i, j)) {
          assert (i, j) == p;
        }
      }
    }
  }

  /** cost is at least 1 exactly for the moves getValidMoves offers at the agent. */
  lemma CostPositiveIffOpen(N: nat, b: Board, m: Move)
    requires WellFormed(N, b) && HasAgent(N, b)
    ensures MoveCost(N, b, m) >= 1 <==> m in AgentMoves(N, b)
  {
    var p := AgentCell(N, b);
    ValidMovesSpec(N, b, p.0, p.1);
    ReachSpec(N, b, p, m);
  }

  /** An open move slides at least one cell and lands on a valid cell further along. */
  lemma OpenMoveAdvances(N: nat, b: Board, m: Move)
    requires WellFormed(N, b) && HasAgent(N, b)
    requires m in AgentMoves(N, b)
    ensures MoveCost(N, b, m) >= 1
    ensures ValidAt(N, b, Landing(N, b, m))
    ensures !ValidAt(N, b, Step(Landing(N, b, m), m))
  {
    var p := AgentCell(N, b);
    var k := MoveCost(N, b, m);
    ValidMovesSpec(N, b, p.0, p.1);
    ReachSpec(N, b, p, m);
    assert k >= 1;
    assert ValidAt(N, b, StepN(p, m, k));
    assert Step(StepN(p, m, k), m) == StepN(p, m, k + 1);
  }
}
