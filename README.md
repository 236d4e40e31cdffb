# Color-Maze search engine in Dafny

A model of the Color-Maze solver in `homework.py`, with proofs about it.
The board is an N x N grid of cells. Each cell is a wall "X", an uncoloured
cell "0", a coloured cell "1" or the agent "S". The agent slides in one of
four directions until the next cell is a wall or the edge, and colours every
cell it passes. The puzzle is solved when no "0" is left. `aStarSearch`
looks for a list of moves that solves the board. Each node on its frontier
holds a priority f, a cost g, a board and the moves that led there, and the
frontier is ordered by (f, g).

The project has four modules, one file each:

- `grid.dfy` (module `Grid`): cells, boards and the board queries
  `isSolved`, `isValid`, `getAgentPos`, `heuristic1`, `heuristic2` and
  `findSmallestRectangle`.
- `moves.dfy` (module `Moves`): the move generator `getValidMoves`, `cost`
  and `makeMove`.
- `game.dfy` (module `Game`): the move application of `playGame`, with
  replays of a move list and their paths and costs.
- `search.dfy` (module `Search`): `aStarSearch`, with the heap pop, the
  expansion loop and the loop invariant.

The model follows the source's own form:

- Every Python function that loops is a Dafny `method` with the same
  loops. Each method is proved equal to a specification function:
  `IsSolved` to `Solved`, `GetAgentPos` to `AgentPos`, the heuristics to
  `CountUncolored`, `Cost` to `MoveCost`, `MakeMove` to `ApplyMove`,
  `PlayGame` to `Replay` and `SkipCount`, and `Expand` to `Children`.
  The properties the source promises are then lemmas about those
  functions.
- The global `size` becomes an explicit parameter `N`. Every row has
  length N.
- `makeMove` writes into a copy of the board. The copy is why the caller's
  board is left as it was. In the model, boards are values, and the method
  reassigns a local board one cell at a time, the way the source writes
  `newBoard[x][y]`.
- The four per-direction `while` loops of `cost` and `makeMove` are one loop
  over `StepN(p, m, k)`, the cell k steps from p in direction m.
- `aStarSearch` keeps its `frontier`, `visited` set and counter as local
  state updated in a `while` loop, as the source does. The heap is a
  sequence of nodes. `heappop` removes any node whose (f, g) is least.
- The search loop is proved to terminate. The measure is the number of
  N x N boards not yet visited, then the frontier's length.

Three details of the code shape the model:

- The root is pushed with priority 0, not h(root) (homework.py:163).
- `heuristic1` multiplies by 5, although its comment at homework.py:84
  says 10000 (homework.py:85-91).
- No optimality of the returned cost is claimed, since `heuristic1` need
  not be admissible.

## Model

| member | source | states |
|---|---|---|
| Grid.IsSolved | homework.py:24-29 | the scan returns true exactly when no cell of the N x N board is "0" |
| Grid.IsValid | homework.py:32-35 | (x, y) is on the board and the cell there is not "X"; Moves.ValidMovesSpec and Moves.ReachSpec state what the move generator and cost derive from it |
| Grid.SolvedIffNoneUncolored | homework.py:24-29 | a board is solved exactly when the number of "0" cells (heuristic2) is 0 |
| Grid.CountUncoloredZero | homework.py:94-100 | the row-by-row count of "0" cells is 0 exactly when no cell is "0" |
| Grid.RowUncoloredZero | homework.py:94-100 | a row's count of "0" cells is 0 exactly when the row has no "0" |
| Grid.RowUncoloredMonotone | homework.py:94-100 | a row whose "0" cells all lie where another row of the same length has "0" has no larger count |
| Grid.CountUncoloredMonotone | homework.py:94-100 | a board whose "0" cells all lie where another board has "0" has no larger count |
| Grid.UncoloredSubset | homework.py:94-100 | the same comparison, for two N x N boards |
| Grid.GetAgentPos | homework.py:51-55 | the nested scan returns the position AgentPos names, or None |
| Grid.AgentPos | homework.py:51-55 | a returned position is on the board and holds "S" |
| Grid.AgentPosFirst | homework.py:51-55 | the position found is the first "S" in row-major order, and None is returned exactly when there is no "S" |
| Grid.FindInRow | homework.py:53-55 | a column found in a row holds "S" and is at or after the start column |
| Grid.FindInRowFirst | homework.py:53-55 | no "S" lies between the start column and the one found, and none at all when nothing is found |
| Grid.FindAgent | homework.py:52-55 | a position found holds "S" and is in a row from the start row on |
| Grid.FindAgentFirst | homework.py:52-55 | the position found is the first "S" from the start row on in row-major order, and None means there is none |
| Grid.AgentCell | homework.py:51-55 | on a board with an agent, its cell is on the board and holds "S" |
| Grid.OneAgentFound | homework.py:51-55 | on a board with a single "S", getAgentPos returns that cell |
| Grid.Heuristic1 | homework.py:85-91 | the result is 5 times the number of "0" cells |
| Grid.Heuristic2 | homework.py:94-100 | the result is the number of "0" cells |
| Grid.FindSmallestRectangle | homework.py:227-245 | every "0" cell lies inside (minX, minY, maxX, maxY); each bound is attained by a "0" cell; the result is (N, N, 0, 0) when there is no "0" |
| Grid.BoxCovers | homework.py:233-243 | every "0" cell scanned so far lies inside the running box |
| Grid.BoxEmpty | homework.py:228-243 | the running box is (N, N, 0, 0) exactly when no "0" cell has been scanned, and its minX never exceeds N |
| Grid.BoxAttained | homework.py:233-243 | once a "0" cell has been scanned, each bound of the running box is on the board and attained by a scanned "0" |
| Moves.GetValidMoves | homework.py:38-48 | the list built is the one ValidMoves describes: a direction is on it exactly when isValid holds for that neighbour, in the order u, d, l, r |
| Moves.ValidMovesSpec | homework.py:38-48 | a direction is listed exactly when isValid holds for that neighbour, and the list follows the order u, d, l, r with no direction twice |
| Moves.ReachSpec | homework.py:61-80 | every cell 1..k steps away is valid and the cell k+1 steps away is not, where k is the slide length |
| Moves.StepOn | homework.py:64-79 | one more step of the walk moves one cell further and leaves one step fewer to go; the four loops of makeMove at homework.py:115-130 take the same steps |
| Moves.Cost | homework.py:61-80 | the count of steps equals the slide length from the agent's cell |
| Moves.CostPositiveIffOpen | homework.py:61-80 | cost is at least 1 exactly when getValidMoves offers the move at the agent's cell |
| Moves.OpenMoveAdvances | homework.py:61-80 | an offered move slides at least one cell, lands on a valid cell and cannot go further |
| Moves.LandingInBounds | homework.py:61-80 | the landing cell is on the board |
| Moves.MakeMove | homework.py:106-135 | the board built equals ApplyMove: the start cell and the cells slid over become "1", the landing cell becomes "S", everything else is unchanged; the input board is a value and stays the same |
| Moves.ApplyMove | homework.py:106-135 | the result is again an N x N board |
| Moves.Slide | homework.py:106-135 | the result is again an N x N board |
| Moves.SlideAt | homework.py:106-135 | each cell after a slide is "S" at the landing cell, "1" elsewhere on the segment, and unchanged off the segment |
| Moves.ApplyMoveAt | homework.py:106-135 | the same for the slide makeMove performs from the agent's cell |
| Moves.SegmentOffset | homework.py:112-130 | a cell on the slide's segment is some number of steps, from 0 to k, from its start |
| Moves.SegmentExtend | homework.py:112-130 | a segment one step longer adds exactly the cell at its new end |
| Moves.SetCell | homework.py:110-132 | writing one cell keeps the board N x N |
| Moves.Painted | homework.py:110-130 | the partly coloured board is again N x N |
| Moves.PaintStart | homework.py:112 | colouring the start cell gives the segment of length 0 |
| Moves.PaintNext | homework.py:112-130 | colouring the next cell lengthens the coloured segment by one |
| Moves.PaintLand | homework.py:132 | writing "S" at the end of the coloured segment gives the slid board |
| Moves.PaintFinish | homework.py:112-132 | when the walk stops, writing "S" where it stopped gives the board of ApplyMove |
| Moves.MoveKeepsAgent | homework.py:132 | after a move the board still has an "S" |
| Moves.SlideKeepsWalls | homework.py:112-132 | a slide over valid cells keeps every "X" and creates none |
| Moves.MoveKeepsWalls | homework.py:106-135 | makeMove keeps every "X" and creates none |
| Moves.SlideUncolored | homework.py:110-132 | a cell that is "0" after a slide was "0" before |
| Moves.MoveDoesNotIncreaseUncolored | homework.py:106-135 | makeMove never turns a cell into "0", so heuristic2 (and heuristic1) does not increase |
| Moves.SlideKeepsOneAgent | homework.py:110-132 | a slide from the only "S" leaves only the "S" on the landing cell |
| Moves.MoveKeepsOneAgent | homework.py:106-135 | from a board with a single "S", makeMove gives a board with a single "S", on the landing cell, which getAgentPos then returns |
| Moves.BlockedMoveIsIdentity | homework.py:106-135 | for a direction getValidMoves does not offer, cost is 0 and makeMove returns the same board |
| Game.PlayMove | homework.py:142-148 | one step of playGame keeps an N x N board with an agent |
| Game.Replay | homework.py:138-152 | replaying a move list keeps an N x N board with an agent |
| Game.PlayGame | homework.py:138-152 | the loop ends on the board Replay gives and counts the moves it rejects with "Invalid move" |
| Game.ReplaySnoc | homework.py:142-148 | replaying one move more plays that move on the board reached |
| Game.ValidPathSnoc | homework.py:142-148 | a list extended by one move passes every check exactly when the list does and the move is offered on the board reached |
| Game.PathCostSnoc | homework.py:142-148 | the cost of a list extended by one move grows by that move's cost on the board reached |
| Game.ExtendPath | homework.py:142-148 | a valid path extended by an offered move is valid, ends on makeMove of the board reached, and costs that move's cost more |
| Game.NoSkipIffValidPath | homework.py:142-148 | playGame skips no move exactly when every move is offered where it is played |
| Game.ValidPathCostAtLeastLength | homework.py:142-148 | every move of a valid path slides at least one cell, so the path costs at least its length |
| Game.ReplayKeepsOneAgent | homework.py:138-152 | a board with a single "S" keeps a single "S" through any replay |
| Game.ReplayKeepsWalls | homework.py:138-152 | a replay keeps every "X" and creates none |
| Game.ReplayNeverUncolors | homework.py:138-152 | a cell that is "0" after a replay was "0" before |
| Game.ReplayUncoloredCount | homework.py:138-152 | heuristic2 never grows along a replay |
| Search.HeuristicZeroIffSolved | homework.py:85-100 | both heuristics are 0 exactly on solved boards |
| Search.Evaluate | homework.py:192 | calling the chosen heuristic gives 5 times, or once, the number of "0" cells |
| Search.SelectMin | homework.py:166 | the index chosen holds an entry whose (f, g) is least on the frontier |
| Search.PopMin | homework.py:166 | heappop returns a frontier entry with least (f, g) and leaves the other entries, one fewer, as a multiset |
| Search.BoardsRemove | homework.py:166 | removing an entry loses at most that entry's board |
| Search.BoardsSnoc | homework.py:193 | pushing a node adds exactly its board to the frontier's boards |
| Search.BoardsAppend | homework.py:185-193 | the boards of two frontiers joined are the union of their boards |
| Search.Child | homework.py:188-193 | the pushed node's moves end with m; its g grows by at least 1 exactly when getValidMoves offers m, and a move not offered leaves board and g as they were; its priority is at least g and equals g exactly when its board is solved |
| Search.ChildOf | homework.py:188-193 | a node built from makeMove's board, cost's count and the heuristic is the child for that move |
| Search.ChildOk | homework.py:188-193 | the child of a node reached by a valid path is reached by a valid path whose replay is its board and whose cost is its g |
| Search.Children | homework.py:185-193 | one child is pushed per move |
| Search.ChildrenOk | homework.py:185-193 | all children of such a node are reached by valid paths at their own cost |
| Search.ChildrenBoards | homework.py:185-193 | the board after each offered move is among the children's boards |
| Search.ChildrenSnoc | homework.py:185-193 | the children of one move more end with that move's child |
| Search.PushChild | homework.py:185-193 | pushing the next child extends the frontier by that child |
| Search.Expand | homework.py:185-193 | the expansion loop appends to the frontier exactly one child per offered move, in the order u, d, l, r |
| Search.ClosedGrow | homework.py:173-193 | a visited set closed into a set of boards stays closed into any larger set |
| Search.ClosedAdd | homework.py:176-193 | adding a board whose children are all covered keeps the visited set closed |
| Search.ClosedReach | homework.py:173-193 | from a visited board of a set closed under moves, every valid path stays among the visited boards |
| Search.AllRowsComplete | homework.py:162-176 | every row of length n is one of the finitely many such rows |
| Search.AllGridsComplete | homework.py:162-176 | every grid of k rows of length n is one of the finitely many such grids |
| Search.Universe | homework.py:162-176 | there is a finite set that holds every N x N board, so the visited set can only grow so far |
| Search.VisitShrinks | homework.py:176 | visiting a new board leaves fewer boards unvisited |
| Search.ElementsIn | homework.py:176 | a board is in the set of goal-tested boards exactly when it is on the list of them |
| Search.VisitStep | homework.py:173-176 | adding a board not yet visited keeps the visited set equal to the goal-tested list, still without repeats |
| Search.UnsolvedStep | homework.py:178-179 | a board that failed the goal test joins the list of unsolved tested boards |
| Search.AllUnsolvedIn | homework.py:178-179 | every goal-tested board that did not end the search is well formed and unsolved |
| Search.ExpandKeeps | homework.py:185-193 | after an expansion every queued node is still reached by its own moves at its own cost, and the visited set, now with the expanded board, is closed into itself and the new frontier |
| Search.SearchInit | homework.py:160-163 | the loop invariant holds for the frontier holding only the root at priority 0 and cost 0 |
| Search.FirstOccurrencesSnoc | homework.py:166-176 | a pop adds its board to the goal-tested list exactly when the board was not on it |
| Search.FirstOccurrencesBounds | homework.py:166-176 | there are at least as many pops as goal tests, and the first pop is the first goal test |
| Search.FirstOccurrencesIn | homework.py:166-176 | the goal-tested boards are exactly the popped ones |
| Search.ReachableStep | homework.py:166 | the board of a popped node reached by its own moves is reachable from the root |
| Search.AllReachableAt | homework.py:166 | every board on a list of reachable boards is reachable by a valid path from the root |
| Search.AllUnsolvedAt | homework.py:178-179 | every board on a list of boards that failed the goal test is well formed and unsolved |
| Search.HistoryFacts | homework.py:160-176 | when the root is popped first, it is goal-tested first, the pops are at least as many as the goal tests, and every popped board is reachable |
| Search.PopKeeps | homework.py:166 | the popped node is reached by its own moves at its own cost |
| Search.PopRecord | homework.py:166-176 | a counted pop keeps every popped board reachable with the root first, goal-tests the board anew exactly when it is not visited, and on a solved root pops the root itself first |
| Search.DuplicateKeeps | homework.py:166-174 | a pop of an already visited board is counted and skipped, and the loop invariant still holds |
| Search.VisitKeeps | homework.py:166-193 | a counted pop of a fresh unsolved board that is visited and expanded keeps the loop invariant |
| Search.FoundPath | homework.py:178-179 | a popped node whose board is solved has a path that playGame replays, skipping no move, to that board, at cost g; a solved root gives ([], 0, 1) |
| Search.FoundKeeps | homework.py:166-179 | a new solved board ends the search as the last goal-tested board, every earlier one unsolved, with every pop counted |
| Search.Unreachable | homework.py:195 | from a root inside a visited set closed under moves with no solved board, no valid path reaches a solved board |
| Search.ExhaustedKeeps | homework.py:195 | once the frontier is empty, the root was goal-tested first, every goal-tested board is unsolved, and no valid path from the root reaches a solved board |
| Search.AStarSearch | homework.py:159-195 | on success the moves pass getValidMoves at every step (playGame skips none), replay to a solved board and cost exactly the g returned; the counter is the number of pops, skipped duplicates included; the goal-tested boards are the popped ones without repeats, the root first, every popped board reachable by a valid path; on success the solved board is the last goal-tested and all earlier ones are unsolved; an already solved board gives ([], 0, 1); "No solution found" is returned only when every goal-tested board is unsolved and no valid path from the root reaches a solved board |

## Left out

- Console output: `printBoard` and every `print` in `playGame`. `PlayGame` returns the final board and the number of "Invalid move" messages instead of printing.
- `benchmarker`, `countCellsFromFile` and the `__main__` block. They read files, use the clock, `memory_profiler`, `input()` and plotting, and call the engine through `aStarSearch` (homework.py:210, 476), `playGame` (homework.py:222, 477) and `findSmallestRectangle` (homework.py:256).
- The global `board` and `size`. N is a parameter.
- Grid characters other than "X", "0", "1" and "S", and move strings other than "u", "d", "l" and "r". `Cell` and `Move` have exactly these values.
- A board without "S" for `cost` and `makeMove`. The source then fails unpacking `None`, and `Moves.Cost`, `Moves.MakeMove` and the functions they are proved against require an agent (`HasAgent`).
- Game.PlayGame requires an agent. This excludes an agentless board with an empty move list, which the source accepts without error: the loop body never runs and `playGame` returns None, as it does on every input since it has no return statement. With at least one move the source fails subscripting `None` at homework.py:143.
- Game.Replay requires an agent, for the same reason as `Game.PlayGame`.
- Search.AStarSearch requires an agent. This excludes a solved board without "S", such as a single "1" cell, for which the source returns ([], 0, 1): the goal test at homework.py:178 comes before `getAgentPos` at homework.py:185. On an unsolved board without "S" the source fails subscripting `None` at homework.py:185.
- `heapq` internals. The frontier is a sequence, and the pop removes a node with least (f, g). Python's heap then compares the board and the move list to break ties. The model leaves the choice among (f, g) ties open. The contracts of `PopMin` and `AStarSearch` hold for any such choice.
- Heuristics other than `heuristic1` and `heuristic2`. `aStarSearch` accepts any function from boards to numbers, but the program only ever passes these two (homework.py:302, 334, 476), so `Heuristic` has exactly two values.
- The tuple conversion of boards for the visited set. Boards are values already, so the set holds them directly.
- Search.AStarSearch: no optimality of the returned cost is claimed. The source promises none, and `heuristic1` need not be admissible.
- Search.AStarSearch: the counter is returned only on success, as in the source. On failure the model states nothing about it.
