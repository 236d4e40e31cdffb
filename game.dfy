/**
 * Replaying a list of moves the way playGame does: each move is applied
 * when getValidMoves offers it at the agent's cell and skipped otherwise.
 */
module Game {
  import opened Grid
  import opened Moves

  /** One step of playGame. */
  function PlayMove(N: nat, b: Board, m: Move): (r: Board)
    requires WellFormed(N, b) && HasAgent(N, b)
    ensures WellFormed(N, r) && HasAgent(N, r)
  {
    if m in AgentMoves(N, b) then
      MoveKeepsAgent(N, b, m);
      ApplyMove(N, b, m)
    else b
  }

  /** The board playGame ends on. */
  function Replay(N: nat, b: Board, moves: seq<Move>): (r: Board)
    requires WellFormed(N, b) && HasAgent(N, b)
    ensures WellFormed(N, r) && HasAgent(N, r)
    decreases |moves|
  {
    if moves == [] then b
    else Replay(N, PlayMove(N, b, moves[0]), moves[1..])
  }

  /** Every move is offered by getValidMoves on the board it is played on. */
  predicate ValidPath(N: nat, b: Board, moves: seq<Move>)
    requires WellFormed(N, b) && HasAgent(N, b)
    decreases |moves|
  {
    moves == [] ||
    (moves[0] in AgentMoves(N, b) && ValidPath(N, PlayMove(N, b, moves[0]), moves[1..]))
  }

  /** The sum of cost over the steps of a replay. */
  function PathCost(N: nat, b: Board, moves: seq<Move>): nat
    requires WellFormed(N, b) && HasAgent(N, b)
    decreases |moves|
  {
    if moves == [] then 0
    else MoveCost(N, b, moves[0]) + PathCost(N, PlayMove(N, b, moves[0]), moves[1..])
  }

  /** How many moves playGame rejects with "Invalid move". */
  function SkipCount(N: nat, b: Board, moves: seq<Move>): nat
    requires WellFormed(N, b) && HasAgent(N, b)
    decreases |moves|
  {
    if moves == [] then 0
    else (if moves[0] in AgentMoves(N, b) then 0 else 1) + SkipCount(N, PlayMove(N, b, moves[0]), moves[1..])
  }

  /**
   * playGame without its printing: applies each move that getValidMoves
   * offers and counts the ones it reports as "Invalid move".
   */
  method PlayGame(N: nat, b: Board, moves: seq<Move>) returns (final: Board, skipped: nat)
    requires WellFormed(N, b) && HasAgent(N, b)
    ensures final == Replay(N, b, moves)
    ensures skipped == SkipCount(N, b, moves)
  {
    final, skipped := b, 0;
    for i := 0 to |moves|
      invariant WellFormed(N, final) && HasAgent(N, final)
      invariant Replay(N, b, moves) == Replay(N, final, moves[i..])
      invariant SkipCount(N, b, moves) == skipped + SkipCount(N, final, moves[i..])
    {
      assert moves[i..][1..] == moves[i + 1..];
      var pos := GetAgentPos(N, final);
      var offered := GetValidMoves(N, final, pos.value.0, pos.value.1);
      if moves[i] in offered {
        final := MakeMove(N, final, moves[i]);
      } else {
        skipped := skipped + 1;
      }
    }
  }

  // ---------------------------------------------------------------------
  // Replaying one move more
  // ---------------------------------------------------------------------

  lemma {:induction false} ReplaySnoc(N: nat, b: Board, moves: seq<Move>, m: Move)
    requires WellFormed(N, b) && HasAgent(N, b)
    ensures Replay(N, b, moves + [m]) == PlayMove(N, Replay(N, b, moves), m)
    decreases |moves|
  {
    if moves == [] {
      assert [] + [m] == [m];
    } else {
      assert (moves + [m])[1..] == moves[1..] + [m];
      ReplaySnoc(N, PlayMove(N, b, moves[0]), moves[1..], m);
    }
  }

  lemma {:induction false} ValidPathSnoc(N: nat, b: Board, moves: seq<Move>, m: Move)
    requires WellFormed(N, b) && HasAgent(N, b)
    ensures ValidPath(N, b, moves + [m]) <==>
            ValidPath(N, b, moves) && m in AgentMoves(N, Replay(N, b, moves))
    decreases |moves|
  {
    if moves == [] {
      assert [] + [m] == [m];
    } else {
      var next := PlayMove(N, b, moves[0]);
      assert (moves + [m])[1..] == moves[1..] + [m];
      assert ValidPath(N, b, moves + [m]) == (moves[0] in AgentMoves(N, b) && ValidPath(N, next, moves[1..] + [m]));
      assert ValidPath(N, b, moves) == (moves[0] in AgentMoves(N, b) && ValidPath(N, next, moves[1..]));
      assert Replay(N, b, moves) == Replay(N, next, moves[1..]);
      ValidPathSnoc(N, next, moves[1..], m);
    }
  }

  lemma {:induction false} PathCostSnoc(N: nat, b: Board, moves: seq<Move>, m: Move)
    requires WellFormed(N, b) && HasAgent(N, b)
    ensures PathCost(N, b, moves + [m]) == PathCost(N, b, moves) + MoveCost(N, Replay(N, b, moves), m)
    decreases |moves|
  {
    if moves == [] {
      assert [] + [m] == [m];
    } else {
      assert (moves + [m])[1..] == moves[1..] + [m];
      PathCostSnoc(N, PlayMove(N, b, moves[0]), moves[1..], m);
    }
  }

  /** A valid path extended by a move offered at its end is valid and ends on that move's slide. */
  lemma ExtendPath(N: nat, b: Board, moves: seq<Move>, m: Move)
    requires WellFormed(N, b) && HasAgent(N, b) && ValidPath(N, b, moves)
    requires m in AgentMoves(N, Replay(N, b, moves))
    ensures ValidPath(N, b, moves + [m])
    ensures Replay(N, b, moves + [m]) == ApplyMove(N, Replay(N, b, moves), m)
    ensures PathCost(N, b, moves + [m]) == PathCost(N, b, moves) + MoveCost(N, Replay(N, b, moves), m)
  {
    ReplaySnoc(N, b, moves, m);
    ValidPathSnoc(N, b, moves, m);
    PathCostSnoc(N, b, moves, m);
  }

  // ---------------------------------------------------------------------
  // What a replay preserves
  // ---------------------------------------------------------------------

  /** playGame skips no move exactly when every move is offered where it is played. */
  lemma {:induction false} NoSkipIffValidPath(N: nat, b: Board, moves: seq<Move>)
    requires WellFormed(N, b) && HasAgent(N, b)
    ensures SkipCount(N, b, moves) == 0 <==> ValidPath(N, b, moves)
    decreases |moves|
  {
    if moves != [] {
      NoSkipIffValidPath(N, PlayMove(N, b, moves[0]), moves[1..]);
    }
  }

  /** Every move of a valid path slides at least one cell, so its cost is at least its length. */
  lemma {:induction false} ValidPathCostAtLeastLength(N: nat, b: Board, moves: seq<Move>)
    requires WellFormed(N, b) && HasAgent(N, b) && ValidPath(N, b, moves)
    ensures PathCost(N, b, moves) >= |moves|
    decreases |moves|
  {
    if moves != [] {
      OpenMoveAdvances(N, b, moves[0]);
      ValidPathCostAtLeastLength(N, PlayMove(N, b, moves[0]), moves[1..]);
    }
  }

  /** A board with a single "S" keeps a single "S" through any replay. */
  lemma {:induction false} ReplayKeepsOneAgent(N: nat, b: Board, moves: seq<Move>)
    requires WellFormed(N, b) && OneAgent(N, b)
    ensures HasAgent(N, b) && OneAgent(N, Replay(N, b, moves))
    decreases |moves|
  {
    var x, y :| 0 <= x < N && 0 <= y < N && OnlyAgentAt(N, b, (x, y));
    OneAgentFound(N, b, (x, y));
    if moves != [] {
      if moves[0] in AgentMoves(N, b) {
        MoveKeepsOneAgent(N, b, moves[0]);
      }
      ReplayKeepsOneAgent(N, PlayMove(N, b, moves[0]), moves[1..]);
    }
  }

  /** A replay keeps every wall and creates none. */
  lemma {:induction false} ReplayKeepsWalls(N: nat, b: Board, moves: seq<Move>)
    requires WellFormed(N, b) && HasAgent(N, b)
    ensures forall i, j :: 0 <= i < N && 0 <= j < N ==>
              (Replay(N, b, moves)[i][j] == Wall <==> b[i][j] == Wall)
    decreases |moves|
  {
    if moves != [] {
      var m := moves[0];
      var next := PlayMove(N, b, m);
      if m in AgentMoves(N, b) {
        MoveKeepsWalls(N, b, m);
      }
      ReplayKeepsWalls(N, next, moves[1..]);
      assert Replay(N, b, moves) == Replay(N, next, moves[1..]);
    }
  }

  /** A replay never adds "0" cells. */
  lemma {:induction false} ReplayNeverUncolors(N: nat, b: Board, moves: seq<Move>)
    requires WellFormed(N, b) && HasAgent(N, b)
    ensures forall i, j :: 0 <= i < N && 0 <= j < N && Replay(N, b, moves)[i][j] == Uncolored ==>
              b[i][j] == Uncolored
    decreases |moves|
  {
    if moves != [] {
      var m := moves[0];
      var next := PlayMove(N, b, m);
      if m in AgentMoves(N, b) {
        MoveDoesNotIncreaseUncolored(N, b, m);
      }
      ReplayNeverUncolors(N, next, moves[1..]);
      assert Replay(N, b, moves) == Replay(N, next, moves[1..]);
    }
  }

  /** So heuristic2 (and heuristic1) never grows along a replay. */
  lemma ReplayUncoloredCount(N: nat, b: Board, moves: seq<Move>)
    requires WellFormed(N, b) && HasAgent(N, b)
    ensures CountUncolored(Replay(N, b, moves)) <= CountUncolored(b)
  {
    ReplayNeverUncolors(N, b, moves);
    UncoloredSubset(N, Replay(N, b, moves), b);
  }
}
