/**
 * The Color-Maze board: an N x N grid of cells, with the queries the
 * search engine asks of it (completion, passability, agent position,
 * number of uncoloured cells and their bounding box).
 */
module Grid {

  /** A cell as written in a level file: "X", "0", "1" and "S". */
  datatype Cell = Wall | Uncolored | Colored | Agent

  datatype Option<T> = None | Some(value: T)

  /** A board is a list of rows; the grid dimension N travels beside it. */
  type Board = seq<seq<Cell>>

  /** (row, column), the (x, y) of the source. */
  type Pos = (int, int)

  /** N rows, each of length N. */
  predicate WellFormed(N: nat, b: Board) {
    |b| == N && forall i :: 0 <= i < N ==> |b[i]| == N
  }

  predicate InBounds(N: nat, p: Pos) {
    0 <= p.0 < N && 0 <= p.1 < N
  }

  /** isValid: (x, y) lies on the board and is not a wall. */
  predicate IsValid(N: nat, b: Board, x: int, y: int)
    requires WellFormed(N, b)
  {
    0 <= x < N && 0 <= y < N && b[x][y] != Wall
  }

  /** The board is solved when no cell is still uncoloured. */
  predicate Solved(N: nat, b: Board)
    requires WellFormed(N, b)
  {
    forall i, j :: 0 <= i < N && 0 <= j < N ==> b[i][j] != Uncolored
  }

  // ---------------------------------------------------------------------
  // Counting uncoloured cells (the two heuristics)
  // ---------------------------------------------------------------------

  function RowUncolored(row: seq<Cell>): nat {
    if row == [] then 0
    else RowUncolored(row[..|row| - 1]) + (if row[|row| - 1] == Uncolored then 1 else 0)
  }

  /** Number of "0" cells, row by row. */
  function CountUncolored(b: Board): nat {
    if b == [] then 0
    else CountUncolored(b[..|b| - 1]) + RowUncolored(b[|b| - 1])
  }

  lemma {:induction false} RowUncoloredZero(row: seq<Cell>)
    ensures RowUncolored(row) == 0 <==> forall j :: 0 <= j < |row| ==> row[j] != Uncolored
  {
    if row != [] {
      var init := row[..|row| - 1];
      RowUncoloredZero(init);
      assert forall j :: 0 <= j < |init| ==> init[j] == row[j];
    }
  }

  lemma {:induction false} CountUncoloredZero(b: Board)
    ensures CountUncolored(b) == 0 <==>
            forall i, j :: 0 <= i < |b| && 0 <= j < |b[i]| ==> b[i][j] != Uncolored
  {
    if b != [] {
      var init := b[..|b| - 1];
      CountUncoloredZero(init);
      RowUncoloredZero(b[|b| - 1]);
      assert forall i :: 0 <= i < |init| ==> init[i] == b[i];
    }
  }

  /** isSolved(b) holds exactly when heuristic2(b) is 0. */
  lemma SolvedIffNoneUncolored(N: nat, b: Board)
    requires WellFormed(N, b)
    ensures Solved(N, b) <==> CountUncolored(b) == 0
  {
    CountUncoloredZero(b);
  }

  lemma {:induction false} RowUncoloredMonotone(r: seq<Cell>, s: seq<Cell>)
    requires |r| == |s|
    requires forall j :: 0 <= j < |r| && r[j] == Uncolored ==> s[j] == Uncolored
    ensures RowUncolored(r) <= RowUncolored(s)
  {
    if r != [] {
      RowUncoloredMonotone(r[..|r| - 1], s[..|s| - 1]);
    }
  }

  /** A board whose "0" cells are among those of another has no more of them. */
  lemma {:induction false} CountUncoloredMonotone(a: Board, b: Board)
    requires |a| == |b|
    requires forall i :: 0 <= i < |a| ==> |a[i]| == |b[i]|
    requires forall i, j :: 0 <= i < |a| && 0 <= j < |a[i]| && a[i][j] == Uncolored ==> b[i][j] == Uncolored
    ensures CountUncolored(a) <= CountUncolored(b)
  {
    if a != [] {
      var n := |a| - 1;
      CountUncoloredMonotone(a[..n], b[..n]);
      RowUncoloredMonotone(a[n], b[n]);
    }
  }

  /** The same on N x N boards, cell by cell. */
  lemma UncoloredSubset(N: nat, a: Board, b: Board)
    requires WellFormed(N, a) && WellFormed(N, b)
    requires forall i, j :: 0 <= i < N && 0 <= j < N && a[i][j] == Uncolored ==> b[i][j] == Uncolored
    ensures CountUncolored(a) <= CountUncolored(b)
  {
    CountUncoloredMonotone(a, b);
  }

  // ---------------------------------------------------------------------
  // Agent position
  // ---------------------------------------------------------------------

  /** (i, j) holds an "S" and no earlier cell in row-major order does. */
  predicate FirstAgentAt(b: Board, p: Pos) {
    FirstAgentFrom(b, 0, p)
  }

  /** The first "S" of a row at or after column j. */
  function FindInRow(row: seq<Cell>, j: nat): (r: Option<nat>)
    ensures r.Some? ==> j <= r.value < |row| && row[r.value] == Agent
    decreases |row| - j
  {
    if j >= |row| then None
    else if row[j] == Agent then Some(j)
    else FindInRow(row, j + 1)
  }

  /** FindInRow finds the first "S" from column j on, and None means there is none. */
  lemma {:induction false} FindInRowFirst(row: seq<Cell>, j: nat)
    ensures FindInRow(row, j).Some? ==> forall l :: j <= l < FindInRow(row, j).value ==> row[l] != Agent
    ensures FindInRow(row, j).None? ==> forall l :: j <= l < |row| ==> row[l] != Agent
    decreases |row| - j
  {
    if j < |row| && row[j] != Agent {
      FindInRowFirst(row, j + 1);
    }
  }

  /** The first "S" in row-major order among rows i, i+1, ... */
  function FindAgent(b: Board, i: nat): (r: Option<Pos>)
    ensures r.Some? ==> i <= r.value.0 < |b| && 0 <= r.value.1 < |b[r.value.0]| && b[r.value.0][r.value.1] == Agent
    decreases |b| - i
  {
    if i >= |b| then None
    else match FindInRow(b[i], 0)
         case Some(j) => Some((i, j))
         case None => FindAgent(b, i + 1)
  }

  /** FindAgent finds the first "S" from row i on, and None means there is none. */
  lemma {:induction false} FindAgentFirst(b: Board, i: nat)
    ensures FindAgent(b, i).Some? ==> FirstAgentFrom(b, i, FindAgent(b, i).value)
    ensures FindAgent(b, i).None? ==> forall k, l :: i <= k < |b| && 0 <= l < |b[k]| ==> b[k][l] != Agent
    decreases |b| - i
  {
    if i < |b| {
      FindInRowFirst(b[i], 0);
      if FindInRow(b[i], 0).None? {
        FindAgentFirst(b, i + 1);
      }
    }
  }

  /** (i, j) holds an "S" and no earlier cell in row-major order, from row i on, does. */
  predicate FirstAgentFrom(b: Board, i: nat, p: Pos) {
    0 <= p.0 < |b| && 0 <= p.1 < |b[p.0]| && b[p.0][p.1] == Agent &&
    (forall k, l :: i <= k < p.0 && 0 <= l < |b[k]| ==> b[k][l] != Agent) &&
    (forall l :: 0 <= l < p.1 ==> b[p.0][l] != Agent)
  }

  /** getAgentPos: the first "S" in row-major order, None when there is none. */
  function AgentPos(N: nat, b: Board): (r: Option<Pos>)
    requires WellFormed(N, b)
    ensures r.Some? ==> InBounds(N, r.value) && b[r.value.0][r.value.1] == Agent
  {
    FindAgent(b, 0)
  }

  /** getAgentPos returns the first "S" in row-major order, and None exactly when there is no "S". */
  lemma AgentPosFirst(N: nat, b: Board)
    requires WellFormed(N, b)
    ensures AgentPos(N, b).Some? ==> FirstAgentAt(b, AgentPos(N, b).value)
    ensures AgentPos(N, b).None? <==> forall i, j :: 0 <= i < N && 0 <= j < N ==> b[i][j] != Agent
  {
    FindAgentFirst(b, 0);
  }

  predicate HasAgent(N: nat, b: Board)
    requires WellFormed(N, b)
  {
    AgentPos(N, b).Some?
  }

  /** The agent's cell, on a board that has one. */
  function AgentCell(N: nat, b: Board): (p: Pos)
    requires WellFormed(N, b) && HasAgent(N, b)
    ensures InBounds(N, p) && b[p.0][p.1] == Agent
  {
    AgentPos(N, b).value
  }

  /** Exactly one "S" on the board, at p. */
  predicate OnlyAgentAt(N: nat, b: Board, p: Pos)
    requires WellFormed(N, b)
  {
    InBounds(N, p) && b[p.0][p.1] == Agent &&
    forall i, j :: 0 <= i < N && 0 <= j < N && b[i][j] == Agent ==> i == p.0 && j == p.1
  }

  predicate OneAgent(N: nat, b: Board)
    requires WellFormed(N, b)
  {
    exists x, y :: 0 <= x < N && 0 <= y < N && OnlyAgentAt(N, b, (x, y))
  }

  /** On a board with one "S", getAgentPos finds that one. */
  lemma OneAgentFound(N: nat, b: Board, p: Pos)
    requires WellFormed(N, b) && OnlyAgentAt(N, b, p)
    ensures AgentPos(N, b) == Some(p)
  {
    AgentPosFirst(N, b);
    assert b[p.0][p.1] == Agent;
  }

  // ---------------------------------------------------------------------
  // The source's loops
  // ---------------------------------------------------------------------

  /** isSolved: scans the grid and stops at the first "0". */
  method IsSolved(N: nat, b: Board) returns (solved: bool)
    requires WellFormed(N, b)
    ensures solved == Solved(N, b)
  {
    for i := 0 to N
      invariant forall k, l :: 0 <= k < i && 0 <= l < N ==> b[k][l] != Uncolored
    {
      for j := 0 to N
        invariant forall l :: 0 <= l < j ==> b[i][l] != Uncolored
      {
        if b[i][j] == Uncolored {
          return false;
        }
      }
    }
    return true;
  }

  /** getAgentPos: scans the grid and stops at the first "S". */
  method GetAgentPos(N: nat, b: Board) returns (p: Option<Pos>)
    requires WellFormed(N, b)
    ensures p == AgentPos(N, b)
  {
    for i := 0 to N
      invariant forall k, l :: 0 <= k < i && 0 <= l < N ==> b[k][l] != Agent
    {
      for j := 0 to N
        invariant forall l :: 0 <= l < j ==> b[i][l] != Agent
      {
        if b[i][j] == Agent {
          assert FirstAgentAt(b, (i, j));
          AgentPosFirst(N, b);
          return Some((i, j));
        }
      }
    }
    AgentPosFirst(N, b);
    return None;
  }

  lemma CountStep(b: Board, i: nat, j: nat)
    requires i < |b| && j < |b[i]|
    ensures RowUncolored(b[i][..j + 1]) == RowUncolored(b[i][..j]) + (if b[i][j] == Uncolored then 1 else 0)
  {
    assert b[i][..j + 1][..j] == b[i][..j];
  }

  lemma CountRow(b: Board, i: nat)
    requires i < |b|
    ensures CountUncolored(b[..i + 1]) == CountUncolored(b[..i]) + RowUncolored(b[i][..|b[i]|])
  {
    assert b[..i + 1][..i] == b[..i];
    assert b[i][..|b[i]|] == b[i];
  }

  /** heuristic1: five times the number of "0" cells. */
  method Heuristic1(N: nat, b: Board) returns (h: nat)
    requires WellFormed(N, b)
    ensures h == 5 * CountUncolored(b)
  {
    var count := 0;
    for i := 0 to N
      invariant count == CountUncolored(b[..i])
    {
      for j := 0 to N
        invariant count == CountUncolored(b[..i]) + RowUncolored(b[i][..j])
      {
        CountStep(b, i, j);
        if b[i][j] == Uncolored {
          count := count + 1;
        }
      }
      CountRow(b, i);
    }
    assert b[..N] == b;
    return count * 5;
  }

  /** heuristic2: the number of "0" cells. */
  method Heuristic2(N: nat, b: Board) returns (h: nat)
    requires WellFormed(N, b)
    ensures h == CountUncolored(b)
  {
    var count := 0;
    for i := 0 to N
      invariant count == CountUncolored(b[..i])
    {
      for j := 0 to N
        invariant count == CountUncolored(b[..i]) + RowUncolored(b[i][..j])
      {
        CountStep(b, i, j);
        if b[i][j] == Uncolored {
          count := count + 1;
        }
      }
      CountRow(b, i);
    }
    assert b[..N] == b;
    return count;
  }

  /** Cell (k, l) comes before (i, j) in row-major order. */
  predicate Before(k: int, l: int, i: int, j: int) {
    k < i || (k == i && l < j)
  }

  /** A box (minX, minY, maxX, maxY). */
  datatype Rect = Rect(minX: int, minY: int, maxX: int, maxY: int)

  /** The box after findSmallestRectangle looks at cell (x, y) holding c. */
  function Widen(r: Rect, x: int, y: int, c: Cell): Rect {
    if c == Uncolored then
      Rect(if x < r.minX then x else r.minX, if y < r.minY then y else r.minY,
           if x > r.maxX then x else r.maxX, if y > r.maxY then y else r.maxY)
    else r
  }

  /** The box after findSmallestRectangle has looked at every cell before (i, j) in row-major order. */
  function Box(N: nat, b: Board, i: nat, j: nat): Rect
    requires WellFormed(N, b) && i <= N && j <= N && (i == N ==> j == 0)
    decreases i, j
  {
    if j == 0 then (if i == 0 then Rect(N, N, 0, 0) else Box(N, b, i - 1, N))
    else Widen(Box(N, b, i, j - 1), i, j - 1, b[i][j - 1])
  }

  /** No cell before (i, j) in row-major order is "0". */
  ghost predicate NoneBefore(N: nat, b: Board, i: int, j: int)
    requires WellFormed(N, b)
  {
    forall k, l :: 0 <= k < N && 0 <= l < N && Before(k, l, i, j) ==> b[k][l] != Uncolored
  }

  /**
   * Each bound of r lies on the board and is attained by a "0" cell that
   * comes before (i, j) in row-major order.
   */
  ghost predicate Attained(N: nat, b: Board, r: Rect, i: int, j: int)
    requires WellFormed(N, b)
  {
    0 <= r.minX <= r.maxX < N && 0 <= r.minY <= r.maxY < N &&
    (exists l :: 0 <= l < N && Before(r.minX, l, i, j) && b[r.minX][l] == Uncolored) &&
    (exists l :: 0 <= l < N && Before(r.maxX, l, i, j) && b[r.maxX][l] == Uncolored) &&
    (exists k :: 0 <= k < N && Before(k, r.minY, i, j) && b[k][r.minY] == Uncolored) &&
    (exists k :: 0 <= k < N && Before(k, r.maxY, i, j) && b[k][r.maxY] == Uncolored)
  }

  /** Every "0" cell looked at lies in the box. */
  lemma {:induction false} BoxCovers(N: nat, b: Board, i: nat, j: nat)
    requires WellFormed(N, b) && i <= N && j <= N && (i == N ==> j == 0)
    ensures forall k, l :: 0 <= k < N && 0 <= l < N && Before(k, l, i, j) && b[k][l] == Uncolored ==>
              Box(N, b, i, j).minX <= k <= Box(N, b, i, j).maxX &&
              Box(N, b, i, j).minY <= l <= Box(N, b, i, j).maxY
    decreases i, j
  {
    if j == 0 {
      if i > 0 {
        BoxCovers(N, b, i - 1, N);
        assert forall k, l :: 0 <= l < N && Before(k, l, i, 0) ==> Before(k, l, i - 1, N);
      }
    } else {
      BoxCovers(N, b, i, j - 1);
      assert forall k, l :: Before(k, l, i, j) ==> Before(k, l, i, j - 1) || (k == i && l == j - 1);
    }
  }

  /** The box stays (N, N, 0, 0) exactly while no "0" cell has been looked at. */
  lemma {:induction false} BoxEmpty(N: nat, b: Board, i: nat, j: nat)
    requires WellFormed(N, b) && i <= N && j <= N && (i == N ==> j == 0)
    ensures Box(N, b, i, j).minX <= N
    ensures Box(N, b, i, j).minX == N ==> Box(N, b, i, j) == Rect(N, N, 0, 0) && NoneBefore(N, b, i, j)
    ensures NoneBefore(N, b, i, j) ==> Box(N, b, i, j) == Rect(N, N, 0, 0)
    decreases i, j
  {
    if j == 0 {
      if i > 0 {
        BoxEmpty(N, b, i - 1, N);
        assert forall k, l :: 0 <= l < N && Before(k, l, i, 0) ==> Before(k, l, i - 1, N);
        assert forall k, l :: 0 <= l < N && Before(k, l, i - 1, N) ==> Before(k, l, i, 0);
      }
    } else {
      BoxEmpty(N, b, i, j - 1);
      assert forall k, l :: Before(k, l, i, j) ==> Before(k, l, i, j - 1) || (k == i && l == j - 1);
      assert forall k, l :: Before(k, l, i, j - 1) ==> Before(k, l, i, j);
      assert Before(i, j - 1, i, j);
    }
  }

  /** Once a "0" cell has been looked at, every bound of the box is attained by a "0" cell looked at. */
  lemma {:induction false} BoxAttained(N: nat, b: Board, i: nat, j: nat)
    requires WellFormed(N, b) && i <= N && j <= N && (i == N ==> j == 0)
    ensures Box(N, b, i, j).minX < N ==> Attained(N, b, Box(N, b, i, j), i, j)
    decreases i, j
  {
    if j == 0 {
      if i > 0 {
        BoxAttained(N, b, i - 1, N);
        assert forall k, l :: 0 <= l < N && Before(k, l, i - 1, N) ==> Before(k, l, i, 0);
      }
    } else {
      BoxAttained(N, b, i, j - 1);
      BoxEmpty(N, b, i, j - 1);
      assert forall k, l :: Before(k, l, i, j - 1) ==> Before(k, l, i, j);
      assert Before(i, j - 1, i, j);
      var r := Box(N, b, i, j - 1);
      if b[i][j - 1] == Uncolored {
        assert Box(N, b, i, j) == Widen(r, i, j - 1, Uncolored);
        if r.minX == N {
          assert r == Rect(N, N, 0, 0);
          assert Box(N, b, i, j) == Rect(i, j - 1, i, j - 1);
        }
      }
    }
  }

  /**
   * findSmallestRectangle: the bounding box (minX, minY, maxX, maxY) of the
   * "0" cells, each bound attained by some "0" cell; (N, N, 0, 0) when
   * there is none.
   */
  method FindSmallestRectangle(N: nat, b: Board) returns (minX: int, minY: int, maxX: int, maxY: int)
    requires WellFormed(N, b)
    ensures Rect(minX, minY, maxX, maxY) == Box(N, b, N, 0)
    ensures forall i, j :: 0 <= i < N && 0 <= j < N && b[i][j] == Uncolored ==>
              minX <= i <= maxX && minY <= j <= maxY
    ensures Solved(N, b) ==> minX == N && minY == N && maxX == 0 && maxY == 0
    ensures !Solved(N, b) ==> Attained(N, b, Rect(minX, minY, maxX, maxY), N, 0)
  {
    minX, minY, maxX, maxY := N, N, 0, 0;
    for i := 0 to N
      invariant Rect(minX, minY, maxX, maxY) == Box(N, b, i, 0)
    {
      for j := 0 to N
        invariant Rect(minX, minY, maxX, maxY) == Box(N, b, i, j)
      {
        if b[i][j] == Uncolored {
          if i < minX {
            minX := i;
          }
          if i > maxX {
            maxX := i;
          }
          if j < minY {
            minY := j;
          }
          if j > maxY {
            maxY := j;
          }
        }
      }
    }
    BoxCovers(N, b, N, 0);
    BoxEmpty(N, b, N, 0);
    BoxAttained(N, b, N, 0);
    assert forall k, l :: 0 <= k < N && 0 <= l < N ==> Before(k, l, N, 0);
    if minX < N {
      var l :| 0 <= l < N && Before(minX, l, N, 0) && b[minX][l] == Uncolored;
      assert !Solved(N, b);
    }
  }
}
