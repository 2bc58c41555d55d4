# 8-puzzle solver, modelled in Dafny

This project models the core of `8puzzle.py`, a solver for the 3x3 sliding puzzle:

- **the solvability check** `is_solvable`: it counts inversions and reports their parity;
- **the successor generator** `generate_next_states`: it moves the blank up, down, left or right;
- **the Manhattan heuristic** `h` used by A*;
- **the three searches** `bfs`, `dfs` and `a_star`.

A board is a `seq<int>` of nine cells read row by row. The blank is 0 and the tiles are 1..8. A move is the direction the blank travels.

The three searches share one loop, which the model writes once and parameterises by a `Strategy`. At each pass:

- it stops if the budget `max_iterations` is spent;
- it takes an entry off the frontier and skips it if its state was already visited;
- it returns the entry's path if its state is the goal;
- otherwise it pushes the children and counts one iteration.

The strategies differ only in how they use the frontier:

- BFS takes the oldest entry.
- DFS takes the newest entry and pushes only unvisited children.
- A* takes an entry of least `(f, state)` and keys each child by the parent's path length plus the child's `h`.

The model has two layers:

- **Reference semantics**: `Search.Step` is one pass of the loop and `Search.Run` runs passes until the status is no longer `Running`. Termination is proved: each pass either visits a new board, and there are finitely many, or shrinks the frontier.
- **Loops**: the imperative loops `Search.Loop` and `Search.Search` are proved to compute the same result as `Run` and `Solve`.

Files, one module each:

- `wrappers.dfy`: `Option`.
- `board.dfy`: boards, `list.index`, swapping.
- `moves.dfy`: moves and `generate_next_states`.
- `solvability.dfy`: `is_solvable` and the parity invariant.
- `heuristic.dfy`: `h`, its consistency and its admissibility.
- `search.dfy`: the shared search loop.

Inputs are assumed to be boards, that is nine cells holding a permutation of 0..8. The program does not check this either (see "Left out").

## Model

| member | source | states |
|---|---|---|
| Solvability.IsSolvable | 8puzzle.py:8-15 | The nested `i < j` loops count exactly the inversions: pairs of tiles, neither the blank, with the larger one first, as given by the independent recursive definition `Inversions`. The flag is true exactly when that count is even. On nine cells with a blank the count is at most 28. |
| Solvability.InversionsBound | 8puzzle.py:9-14 | A nine-cell state containing the blank has at most 8·7/2 = 28 inversions. |
| Solvability.MovePreservesParity | 8puzzle.py:134-140 | Swapping the blank with any in-bounds neighbour keeps the parity of the inversion count. |
| Solvability.PathPreservesParity | 8puzzle.py:122-142 | Any sequence of generated moves keeps the parity of the inversion count. Boards of different parity are therefore never connected. |
| Board.IndexOf | 8puzzle.py:92-93 | `list.index`: the position returned holds the value, and no earlier position does. |
| Board.Swap | 8puzzle.py:139 | The swap exchanges the two cells and leaves every other cell unchanged. |
| Moves.Target | 8puzzle.py:124-137 | The `divmod` bounds test yields a cell exactly when the direction is legal by the cell-wise rule `Legal` (not off the top row, bottom row, left column or right column). That cell is the flat-index neighbour, whose row and column are shifted by the direction's `(dr, dc)`. |
| Moves.Apply | 8puzzle.py:137-140 | A child exists exactly when the move is legal for the blank's (first) position. The child is the parent with the blank and that neighbour swapped, and it has nine cells. |
| Moves.ApplyKeepsBoard | 8puzzle.py:138-139 | The child of a permutation of 0..8 is again a permutation of 0..8. |
| Moves.NextStates | 8puzzle.py:122-142 | Every listed child is the result of applying its own direction, which is legal. The directions listed are exactly the legal ones among ↑, ↓, ←, → in that order. |
| Moves.Collect | 8puzzle.py:134-140 | The loop over the directions keeps, in order, one child for each legal direction, each the result of applying that direction. |
| Moves.NextStatesMembers | 8puzzle.py:134-136 | A direction labels a child if and only if the blank can travel that way. |
| Moves.NextStatesOrdered | 8puzzle.py:127-134 | The children come strictly in the dictionary order ↑, ↓, ←, →. |
| Moves.NextStatesComplete | 8puzzle.py:134-140 | The generator misses nothing: every move that stays on the grid yields a listed child, paired with that move. |
| Moves.ChildCount | 8puzzle.py:127-136 | A blank in a corner gets 2 children, on an edge 3, in the centre 4. |
| Moves.ChildrenAreBoards | 8puzzle.py:138-140 | Every child of a board is a board. |
| Moves.ApplyPathKeepsBoard | 8puzzle.py:122-142 | Every state a sequence of generated moves reaches from a board is again a board. |
| Heuristic.Manhattan | 8puzzle.py:88-95 | The loop over tiles 1..8 adds, for each tile, the differences of its row and of its column between `state.index(i)` and `goal_state.index(i)`. The result is `H`: the sum of the tiles' grid distances from their goal cells. |
| Heuristic.HZeroIffGoal | 8puzzle.py:88-95 | On boards, `h` is 0 if and only if the state equals the goal. |
| Heuristic.UnitStep | 8puzzle.py:135-137 | Stepping to a grid neighbour changes the Manhattan distance to any cell by exactly one. |
| Heuristic.MovedTile | 8puzzle.py:137-139 | A move carries exactly one tile, from the blank's neighbour onto the blank's cell. Every other tile keeps its cell. |
| Heuristic.HOneTileMoved | 8puzzle.py:88-95 | If only tile `w` has moved, `h` changes by the change in `w`'s own distance. |
| Heuristic.MoveChangesHByOne | 8puzzle.py:88-95 | Every generated move changes `h` by exactly 1, so `h` is consistent. |
| Heuristic.PathBoundsH | 8puzzle.py:88-95 | Along any path, `h` drops by at most the number of moves. |
| Heuristic.Admissible | 8puzzle.py:88-95 | `h` never exceeds the length of any path from the state to the goal. |
| Search.BeforeIsStrictOrder | 8puzzle.py:105 | The queue order on `(f, state)`, with states compared like Python lists, is irreflexive and transitive. |
| Search.LexLess | 8puzzle.py:105 | The recursive list comparison holds exactly when there is a first difference: the lists agree up to some position, where the first list either ends while the second goes on, or holds the smaller entry. |
| Search.MinIndex | 8puzzle.py:105 | The entry `get` returns: no frontier entry comes before it in `(f, state)` order. |
| Search.PopIndex | 8puzzle.py:46-105 | The entry taken is on the frontier. BFS takes the oldest entry (`Queue.get`, index 0), DFS the newest (`deque.pop`, the last index), and A* an entry that no frontier entry comes before in `(f, state)` order, so its `f` is least. |
| Search.Remove | 8puzzle.py:46 | Taking entry `k` off leaves a frontier one shorter: the entries before `k`, then those after it, in their old order. |
| Search.Push | 8puzzle.py:112-116 | Each pushed entry extends the parent's path by the move of a generated child and carries that child's state. For A* the key is `len(parent path) + h(child)`. DFS pushes no visited state. BFS and A* push one entry per child. Every child is visited or pushed. |
| Search.Entry | 8puzzle.py:54 | A pushed entry holds the child state and the path `path + [move]`, and for A* the key `len(path) + h(child)`. |
| Search.PushInOrder | 8puzzle.py:53-54 | BFS and A* push the children in generation order, entry `k` for child `k`. |
| Search.Unseen | 8puzzle.py:79 | The children DFS keeps are exactly the generated children whose state is not yet visited. |
| Search.PushUnseen | 8puzzle.py:78-80 | DFS pushes exactly the entries BFS would push for the unvisited children alone, in generation order. |
| Search.PushUnseenInOrder | 8puzzle.py:78-80 | DFS pushes entry `k` for the `k`-th unvisited child, so the stack pops the last unvisited child first. |
| Search.Children | 8puzzle.py:77-80 | The expansion pushes only boards. DFS skips visited children (line 79). Every successor of the expanded state ends up visited or on the frontier. |
| Search.ChildrenInOrder | 8puzzle.py:77-80 | The expansion in full: BFS and A* push entry `k` for generated child `k`, and DFS pushes entry `k` for the `k`-th unvisited child. |
| Search.ChildrenOf | 8puzzle.py:52-54 | Every pushed entry is a child of the expanded entry: its path is the parent's plus one legal move, and that move yields its state. |
| Search.ChildPath | 8puzzle.py:54 | If the parent's path leads from the initial state to the parent, the child's `path + [move]` leads to the child. |
| Search.Step | 8puzzle.py:43-55 | One pass keeps the frontier and the visited set made of boards and never forgets a visited state. A pass that keeps running either visits a new state or shrinks the frontier. |
| Search.Init | 8puzzle.py:38-41 | The loop starts with the initial state alone on the frontier with the empty path, nothing visited and zero iterations. |
| Search.OverBudget | 8puzzle.py:44 | `max_iterations and iterations >= max_iterations`: a zero budget never stops the loop, a negative one always does, and a positive one does once the count reaches it. |
| Search.Visit | 8puzzle.py:106-117 | After an entry is taken, its state is marked visited. If the run continues, the state was new or the frontier shrank. The remaining entries keep their order at the front of the frontier, and an expansion appends the children after them. |
| Search.StepOutcome | 8puzzle.py:44-55 | A pass stops exactly on an empty frontier or a spent budget (`max_iterations and iterations >= max_iterations`), changing nothing else. It returns a path exactly when it visits the goal for the first time. It adds one to the counter exactly when it visits a new non-goal state. |
| Search.VisitOutcome | 8puzzle.py:70-81 | A visited pop changes nothing but the frontier. The goal pop returns the path without counting. A new non-goal state is expanded and counted. |
| Search.CountCarries | 8puzzle.py:47-55 | The counter stays equal to the number of visited states other than the goal, and the goal is visited exactly when the run has found it. |
| Search.BudgetCarries | 8puzzle.py:66-68 | A positive budget is never exceeded and is not yet reached when a path is returned. A negative budget stops the loop before any visit. The loop stops for the budget only once the budget is spent, so a zero budget never stops it. |
| Search.StepKeepsInv | 8puzzle.py:65-81 | One pass preserves the loop invariant: valid paths, the counting rule, the budget bounds, and closure (every successor of a visited non-goal state is visited or pending). |
| Search.RunKeepsInv | 8puzzle.py:102-117 | The loop invariant holds when the run stops. |
| Search.Run | 8puzzle.py:43-57 | The loop terminates: the run always reaches a final status. |
| Search.ExhaustedMissesGoal | 8puzzle.py:57 | A run that ends with an empty frontier has visited every state reachable from the initial one, so the goal is unreachable. |
| Search.RunOutcome | 8puzzle.py:43-57 | The run from the initial frontier ends in a final status with a valid path if solved, the counting and budget facts, and an unreachable goal if the frontier ran dry. |
| Search.Solve | 8puzzle.py:37-57 | A returned path, applied move by move to the initial state, yields the goal. With `max_iterations > 0` the count never exceeds it, and a path is returned only below it. If a reachable goal is not found, the count equals `max_iterations`. A negative `max_iterations` returns `(None, 0)`. With no limit (0), a path is returned exactly when the goal is reachable. |
| Search.SolveAtGoal | 8puzzle.py:39-51 | Started on the goal with a non-negative budget, every strategy returns the empty path after 0 iterations. |
| Search.ParityMismatchFails | 8puzzle.py:60-84 | If the initial state and the goal have inversion counts of different parity, no strategy returns a path. |
| Search.Pass | 8puzzle.py:65-81 | One trip through the loop body leaves the final outcome of the run unchanged and brings the run closer to its end. |
| Search.Loop | 8puzzle.py:65-84 | The while loop ends in the same state as the reference run `Run`, and the loop invariant `Inv` holds on every pass: valid paths, the counting rule, the budget bounds and closure. |
| Search.Search | 8puzzle.py:87-119 | `bfs`, `dfs` and `a_star` as loops return what `Solve` says: a valid path, if any, and a count within a positive budget. |

## Left out

- `parse_args`, `main` and the command-line dispatch and printing (8puzzle.py:145-201): argument parsing and I/O.
- `format_puzzle` (8puzzle.py:18-26): presentation text only.
- `generate_solvable_state` (8puzzle.py:29-34): depends on `random.shuffle` and has no bounded behaviour.
- Wall-clock timing and the diagnostic `print` calls in `dfs` (8puzzle.py:67, 83): I/O only. The model returns the same `(None, iterations)` the prints accompany.
- Thread safety and the internal layout of `Queue`, `deque` and `PriorityQueue`: each frontier is a plain sequence, with FIFO, LIFO and minimum-key removal.
- Search.MinIndex: among entries with equal `(f, state)`, Python goes on to compare the paths as lists of arrow strings. The model takes the earliest-pushed such entry instead, so ties on equal `(f, state)` are not resolved as Python would resolve them.
- Solvability.IsSolvable: only one direction of solvability is proved. Moves keep the inversion parity (`PathPreservesParity`, `ParityMismatchFails`), so a board of the other parity is never reached. The converse, that every board with the goal's parity is reachable from it, is neither stated nor proved. The program relies on it when `main` (8puzzle.py:170-172) runs the searches only on boards `is_solvable` accepts.
- Input validation: the program does none. `Solve`, `Search` and the board lemmas require nine cells holding a permutation of 0..8. On other inputs the program may raise from `list.index` or compare ill-formed states, and that behaviour is not modelled.
- Optimality of BFS and A* (shortest paths): not stated or proved. Only path validity, the counting and budget rules, termination, and completeness with no limit are proved.
- Concrete example runs are not included as lemmas. From `[1,2,3,4,5,6,7,0,8]` to the default goal, BFS returns `(["→"], 3)`: it enqueues the children ↑, ← and → of the start in that order, so it expands the ↑ and ← children before it pops the goal. DFS and A* return `(["→"], 1)`: DFS pops the → child first, and A* pops the child with key 0.
- Python integers are unbounded, so no wrap-around arises; `int` and `nat` are used throughout.
