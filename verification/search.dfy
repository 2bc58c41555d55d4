/** The search engine shared by `bfs`, `dfs` and `a_star`: one loop over an
    explicit frontier and a visited set, differing only in which frontier
    entry is taken next and which children are pushed. */
module Search {
  import opened Wrappers
  import opened Board
  import opened Moves
  import opened Heuristic
  import opened Solvability

  datatype Strategy = Bfs | Dfs | AStar

  /** A frontier entry: the A* priority `f` (0 for BFS and DFS), a state, and
      the moves that led to it from the initial state. */
  datatype Node = Node(f: int, state: State, path: seq<Move>)

  /** Where a run stands; the last three are final. */
  datatype Status = Running | Solved(path: seq<Move>) | Exhausted | BudgetExceeded

  /** The loop's variables between two iterations. */
  datatype Config = Config(frontier: seq<Node>, visited: set<State>, iterations: nat, status: Status)

  /** Python's list comparison on states: the first differing entry decides,
      and a proper prefix comes first. */
  predicate LexLess(a: seq<int>, b: seq<int>)
    ensures LexLess(a, b) <==> exists k :: FirstDifference(a, b, k)
    decreases |a|
  {
    FirstDifferenceCases(a, b);
    if |a| == 0 then |b| > 0
    else if |b| == 0 then false
    else a[0] < b[0] || (a[0] == b[0] && LexLess(a[1..], b[1..]))
  }

  /** `a` and `b` agree on their first `k` entries, and there `a` either ends
      while `b` goes on, or holds the smaller entry. */
  predicate FirstDifference(a: seq<int>, b: seq<int>, k: int) {
    && 0 <= k <= |a| && k <= |b| && a[..k] == b[..k]
    && (if k == |a| then k < |b| else k < |b| && a[k] < b[k])
  }

  /** Where the first difference of `a` and `b` lies: at the front, or one
      place further on in their tails. */
  lemma FirstDifferenceCases(a: seq<int>, b: seq<int>)
    ensures |a| == 0 ==> ((exists k :: FirstDifference(a, b, k)) <==> |b| > 0)
    ensures |a| > 0 && |b| == 0 ==> !exists k :: FirstDifference(a, b, k)
    ensures |a| > 0 && |b| > 0 ==>
              ((exists k :: FirstDifference(a, b, k))
               <==> a[0] < b[0] || (a[0] == b[0] && exists k :: FirstDifference(a[1..], b[1..], k)))
  {
    if |a| == 0 && |b| > 0 {
      assert FirstDifference(a, b, 0);
    }
    if |a| > 0 && |b| > 0 {
      if k :| FirstDifference(a, b, k) {
        if k > 0 {
          assert a[0] == a[..k][0] == b[..k][0] == b[0];
          assert a[1..][..k - 1] == a[1..k] == b[1..k] == b[1..][..k - 1];
          assert FirstDifference(a[1..], b[1..], k - 1);
        }
      }
      if a[0] < b[0] {
        assert FirstDifference(a, b, 0);
      }
      if a[0] == b[0] && exists k :: FirstDifference(a[1..], b[1..], k) {
        var k :| FirstDifference(a[1..], b[1..], k);
        assert a[..k + 1] == [a[0]] + a[1..][..k] == [b[0]] + b[1..][..k] == b[..k + 1];
        assert FirstDifference(a, b, k + 1);
      }
    }
  }

  lemma {:induction false} LexLessIrreflexive(a: seq<int>)
    ensures !LexLess(a, a)
    decreases |a|
  {
    if |a| > 0 {
      LexLessIrreflexive(a[1..]);
    }
  }

  lemma {:induction false} LexLessTransitive(a: seq<int>, b: seq<int>, c: seq<int>)
    requires LexLess(a, b) && LexLess(b, c)
    ensures LexLess(a, c)
    decreases |a|
  {
    if |a| > 0 && |b| > 0 && |c| > 0 && a[0] == b[0] == c[0] {
      LexLessTransitive(a[1..], b[1..], c[1..]);
    }
  }

  /** The A* queue order on `(f, state)`, as Python orders the tuples. */
  predicate Before(x: Node, y: Node) {
    x.f < y.f || (x.f == y.f && LexLess(x.state, y.state))
  }

  lemma BeforeIsStrictOrder()
    ensures forall x :: !Before(x, x)
    ensures forall x, y, z :: Before(x, y) && Before(y, z) ==> Before(x, z)
  {
    forall x
      ensures !Before(x, x)
    {
      LexLessIrreflexive(x.state);
    }
    forall x, y, z | Before(x, y) && Before(y, z)
      ensures Before(x, z)
    {
      if x.f == y.f == z.f {
        LexLessTransitive(x.state, y.state, z.state);
      }
    }
  }

  /** The position of an entry no other entry comes before: what the
      priority queue's `get` returns. */
  function MinIndex(fr: seq<Node>): (k: nat)
    requires |fr| > 0
    ensures k < |fr|
    ensures forall j :: 0 <= j < |fr| ==> !Before(fr[j], fr[k])
    decreases |fr|
  {
    if |fr| == 1 then
      BeforeIsStrictOrder();
      0
    else
      var k := MinIndex(fr[..|fr| - 1]);
      BeforeIsStrictOrder();
      if Before(fr[|fr| - 1], fr[k]) then |fr| - 1 else k
  }

  /** The entry each discipline takes next: the oldest (FIFO queue), the
      newest (LIFO stack), or a least one in `(f, state)` order. */
  function PopIndex(strategy: Strategy, fr: seq<Node>): (k: nat)
    requires |fr| > 0
    ensures k < |fr|
    ensures strategy == Bfs ==> k == 0
    ensures strategy == Dfs ==> k == |fr| - 1
    ensures strategy == AStar ==> forall j :: 0 <= j < |fr| ==> !Before(fr[j], fr[k]) && fr[k].f <= fr[j].f
  {
    match strategy
    case Bfs => 0
    case Dfs => |fr| - 1
    case AStar => MinIndex(fr)
  }

  /** The frontier with entry `k` taken out. */
  function Remove(fr: seq<Node>, k: nat): (r: seq<Node>)
    requires k < |fr|
    ensures |r| == |fr| - 1
    ensures forall j :: 0 <= j < |r| ==> r[j] == if j < k then fr[j] else fr[j + 1]
    ensures forall n :: n in r ==> n in fr
    ensures forall n :: n in fr ==> n in r || n == fr[k]
  {
    assert forall n :: n in fr[..k] ==> n in fr;
    assert forall n :: n in fr[k + 1..] ==> n in fr;
    assert fr == fr[..k] + [fr[k]] + fr[k + 1..];
    fr[..k] + fr[k + 1..]
  }

  /** The states on a frontier. */
  function States(fr: seq<Node>): set<State> {
    set n | n in fr :: n.state
  }

  /** Every state on the frontier is a board. */
  predicate Boards(fr: seq<Node>) {
    forall n :: n in fr ==> IsBoard(n.state)
  }

  /** `n` extends `parent` by one legal move. */
  predicate ChildOf(parent: Node, n: Node) {
    && |parent.state| == Cells && Blank in parent.state
    && |n.path| == |parent.path| + 1
    && n.path[..|parent.path|] == parent.path
    && Apply(parent.state, n.path[|parent.path|]) == Some(n.state)
  }

  /** The entry pushed for child `c`, reached from `node` by move `m`. */
  function Entry(strategy: Strategy, goal: State, node: Node, c: State, m: Move): (n: Node)
    requires HasTiles(c) && HasTiles(goal)
    ensures n.state == c && n.path == node.path + [m]
    ensures |n.path| == |node.path| + 1 && n.path[..|node.path|] == node.path && n.path[|node.path|] == m
    ensures strategy == AStar ==> n.f == |node.path| + H(c, goal)
  {
    assert (node.path + [m])[..|node.path|] == node.path;
    Node(if strategy == AStar then |node.path| + H(c, goal) else 0, c, node.path + [m])
  }

  /** An entry built from a generated child is a child of its parent. */
  lemma GeneratedChild(parent: Node, n: Node)
    requires IsBoard(parent.state)
    requires |n.path| == |parent.path| + 1 && n.path[..|parent.path|] == parent.path
    requires (n.state, n.path[|parent.path|]) in NextStates(parent.state)
    ensures ChildOf(parent, n) && IsBoard(n.state)
  {
    var cs := NextStates(parent.state);
    var k :| 0 <= k < |cs| && cs[k] == (n.state, n.path[|parent.path|]);
    ApplyKeepsBoard(parent.state, cs[k].1);
  }

  /** The frontier entries an expansion of `node` pushes, for the generated
      children `cs`: DFS skips children already visited; A* keys each child by
      the parent's path length plus the child's `h`. */
  function Push(strategy: Strategy, goal: State, visited: set<State>, node: Node, cs: seq<(State, Move)>): (r: seq<Node>)
    requires HasTiles(goal) && forall k :: 0 <= k < |cs| ==> HasTiles(cs[k].0)
    ensures forall n :: n in r ==>
              && |n.path| == |node.path| + 1 && n.path[..|node.path|] == node.path
              && (n.state, n.path[|node.path|]) in cs
    ensures strategy == Dfs ==> forall n :: n in r ==> n.state !in visited
    ensures strategy != Dfs ==> |r| == |cs|
    ensures forall x :: x in cs ==> x.0 in visited || x.0 in States(r)
    ensures strategy == AStar ==>
              forall n :: n in r ==> HasTiles(n.state) && n.f == |node.path| + H(n.state, goal)
  {
    if |cs| == 0 then []
    else
      var (c, m) := cs[0];
      var rest := Push(strategy, goal, visited, node, cs[1..]);
      assert forall x :: x in cs[1..] ==> x in cs;
      if strategy == Dfs && c in visited then rest
      else [Entry(strategy, goal, node, c, m)] + rest
  }

  /** BFS and A* push one entry per generated child, in generation order. */
  lemma {:induction false} PushInOrder(strategy: Strategy, goal: State, visited: set<State>, node: Node, cs: seq<(State, Move)>)
    requires strategy != Dfs
    requires HasTiles(goal) && forall k :: 0 <= k < |cs| ==> HasTiles(cs[k].0)
    ensures |Push(strategy, goal, visited, node, cs)| == |cs|
    ensures forall k :: 0 <= k < |cs| ==>
              Push(strategy, goal, visited, node, cs)[k] == Entry(strategy, goal, node, cs[k].0, cs[k].1)
    decreases |cs|
  {
    if |cs| > 0 {
      PushInOrder(strategy, goal, visited, node, cs[1..]);
    }
  }

  /** The generated children whose states are not yet visited, in generation order. */
  function Unseen(visited: set<State>, cs: seq<(State, Move)>): (r: seq<(State, Move)>)
    ensures forall x :: x in r <==> x in cs && x.0 !in visited
  {
    if |cs| == 0 then []
    else (if cs[0].0 in visited then [] else [cs[0]]) + Unseen(visited, cs[1..])
  }

  /** DFS pushes exactly the entries BFS would push for the unvisited
      children alone (both key every entry 0). */
  lemma {:induction false} PushUnseen(goal: State, visited: set<State>, node: Node, cs: seq<(State, Move)>)
    requires HasTiles(goal) && forall k :: 0 <= k < |cs| ==> HasTiles(cs[k].0)
    ensures forall k :: 0 <= k < |Unseen(visited, cs)| ==> HasTiles(Unseen(visited, cs)[k].0)
    ensures Push(Dfs, goal, visited, node, cs) == Push(Bfs, goal, visited, node, Unseen(visited, cs))
    decreases |cs|
  {
    if |cs| > 0 {
      PushUnseen(goal, visited, node, cs[1..]);
      var u := Unseen(visited, cs[1..]);
      if cs[0].0 in visited {
        assert Unseen(visited, cs) == [] + u == u;
      } else {
        assert Unseen(visited, cs) == [cs[0]] + u;
        assert ([cs[0]] + u)[1..] == u;
      }
    }
  }

  /** DFS pushes one entry per unvisited child, in generation order, so the
      stack pops the last unvisited child first. */
  lemma PushUnseenInOrder(goal: State, visited: set<State>, node: Node, cs: seq<(State, Move)>)
    requires HasTiles(goal) && forall k :: 0 <= k < |cs| ==> HasTiles(cs[k].0)
    ensures |Push(Dfs, goal, visited, node, cs)| == |Unseen(visited, cs)|
    ensures forall k :: 0 <= k < |Unseen(visited, cs)| ==>
              HasTiles(Unseen(visited, cs)[k].0)
              && Push(Dfs, goal, visited, node, cs)[k]
                 == Entry(Dfs, goal, node, Unseen(visited, cs)[k].0, Unseen(visited, cs)[k].1)
  {
    PushUnseen(goal, visited, node, cs);
    PushInOrder(Bfs, goal, visited, node, Unseen(visited, cs));
  }

  /** The children of `node` as frontier entries, in generation order. */
  function Children(strategy: Strategy, goal: State, visited: set<State>, node: Node): (r: seq<Node>)
    requires IsBoard(node.state) && IsBoard(goal) && HasTiles(goal)
    ensures Boards(r)
    ensures strategy == Dfs ==> forall n :: n in r ==> n.state !in visited
    ensures strategy != Dfs ==> |r| == |NextStates(node.state)|
    ensures Successors(node.state) <= visited + States(r)
    ensures strategy == AStar ==>
              forall n :: n in r ==> HasTiles(n.state) && n.f == |node.path| + H(n.state, goal)
  {
    ChildrenHaveTiles(node.state);
    var r := Push(strategy, goal, visited, node, NextStates(node.state));
    ChildrenAreChildren(strategy, goal, visited, node, r);
    r
  }

  /** The expansion in full: BFS and A* push one entry per generated child,
      DFS one per unvisited child, each in the generator's order. */
  lemma ChildrenInOrder(strategy: Strategy, goal: State, visited: set<State>, node: Node)
    requires IsBoard(node.state) && IsBoard(goal) && HasTiles(goal)
    ensures forall k :: 0 <= k < |NextStates(node.state)| ==> HasTiles(NextStates(node.state)[k].0)
    ensures strategy != Dfs ==>
              && |Children(strategy, goal, visited, node)| == |NextStates(node.state)|
              && forall k :: 0 <= k < |NextStates(node.state)| ==>
                   Children(strategy, goal, visited, node)[k]
                   == Entry(strategy, goal, node, NextStates(node.state)[k].0, NextStates(node.state)[k].1)
    ensures strategy == Dfs ==>
              && |Children(strategy, goal, visited, node)| == |Unseen(visited, NextStates(node.state))|
              && forall k :: 0 <= k < |Unseen(visited, NextStates(node.state))| ==>
                   HasTiles(Unseen(visited, NextStates(node.state))[k].0)
                   && Children(strategy, goal, visited, node)[k]
                      == Entry(strategy, goal, node, Unseen(visited, NextStates(node.state))[k].0,
                               Unseen(visited, NextStates(node.state))[k].1)
  {
    ChildrenHaveTiles(node.state);
    if strategy == Dfs {
      PushUnseenInOrder(goal, visited, node, NextStates(node.state));
    } else {
      PushInOrder(strategy, goal, visited, node, NextStates(node.state));
    }
  }

  /** Each pushed entry extends its parent by one legal move. */
  lemma ChildrenAreChildren(strategy: Strategy, goal: State, visited: set<State>, node: Node, r: seq<Node>)
    requires IsBoard(node.state) && HasTiles(goal)
    requires forall k :: 0 <= k < |NextStates(node.state)| ==> HasTiles(NextStates(node.state)[k].0)
    requires r == Push(strategy, goal, visited, node, NextStates(node.state))
    ensures forall n :: n in r ==> ChildOf(node, n) && IsBoard(n.state)
  {
    forall n | n in r
      ensures ChildOf(node, n) && IsBoard(n.state)
    {
      GeneratedChild(node, n);
    }
  }

  lemma ChildrenOf(strategy: Strategy, goal: State, visited: set<State>, node: Node)
    requires IsBoard(node.state) && IsBoard(goal) && HasTiles(goal)
    ensures forall n :: n in Children(strategy, goal, visited, node) ==> ChildOf(node, n)
  {
    ChildrenHaveTiles(node.state);
    ChildrenAreChildren(strategy, goal, visited, node, Children(strategy, goal, visited, node));
  }

  /** Before the first pass: the initial state alone on the frontier, with
      the empty path and key 0, nothing visited and nothing counted. */
  function Init(initial: State): (c: Config)
    ensures c.status == Running && c.iterations == 0 && c.visited == {}
    ensures |c.frontier| == 1 && c.frontier[0].state == initial && c.frontier[0].path == []
    ensures States(c.frontier) == {initial}
  {
    Config([Node(0, initial, [])], {}, 0, Running)
  }

  /** The loop's budget test `max_iterations and iterations >= max_iterations`:
      a zero budget is falsy and means no limit. */
  predicate OverBudget(budget: int, iterations: nat)
    ensures budget == 0 ==> !OverBudget(budget, iterations)
    ensures budget < 0 ==> OverBudget(budget, iterations)
    ensures budget > 0 ==> (OverBudget(budget, iterations) <==> iterations >= budget)
  {
    budget != 0 && iterations >= budget
  }

  /** Every visited state is a board. */
  predicate VisitedBoards(visited: set<State>) {
    forall s :: s in visited ==> IsBoard(s)
  }

  /** One pass of the loop body: stop on an empty frontier or a spent
      budget; otherwise take the next entry, skip it if its state was seen,
      stop if it is the goal, and else expand it and count one iteration. */
  function Step(strategy: Strategy, goal: State, budget: int, c: Config): (d: Config)
    requires IsBoard(goal) && c.status == Running
    requires Boards(c.frontier) && VisitedBoards(c.visited)
    ensures Boards(d.frontier) && VisitedBoards(d.visited)
    ensures c.visited <= d.visited
    ensures d.status == Running ==>
              c.visited < d.visited || (d.visited == c.visited && |d.frontier| < |c.frontier|)
  {
    if |c.frontier| == 0 then c.(status := Exhausted)
    else if OverBudget(budget, c.iterations) then c.(status := BudgetExceeded)
    else Visit(strategy, goal, c, PopIndex(strategy, c.frontier))
  }

  /** The rest of a pass once entry `k` is taken off the frontier: skip it
      if its state was seen, stop if it is the goal, else expand it. */
  function Visit(strategy: Strategy, goal: State, c: Config, k: nat): (d: Config)
    requires IsBoard(goal) && k < |c.frontier|
    requires Boards(c.frontier) && VisitedBoards(c.visited)
    ensures Boards(d.frontier) && VisitedBoards(d.visited)
    ensures d.visited == c.visited + {c.frontier[k].state}
    ensures d.status == Running ==> |d.frontier| < |c.frontier| || c.frontier[k].state !in c.visited
    ensures |c.frontier| - 1 <= |d.frontier| && d.frontier[..|c.frontier| - 1] == Remove(c.frontier, k)
    ensures d.status == Running && c.frontier[k].state !in c.visited ==>
              d.frontier[|c.frontier| - 1..] == Children(strategy, goal, d.visited, c.frontier[k])
  {
    var node := c.frontier[k];
    var rest := Remove(c.frontier, k);
    if node.state in c.visited then c.(frontier := rest)
    else
      var visited := c.visited + {node.state};
      if node.state == goal then Config(rest, visited, c.iterations, Solved(node.path))
      else
        BoardHasTiles(goal);
        Config(rest + Children(strategy, goal, visited, node), visited, c.iterations + 1, Running)
  }

  /** How many sequences of the goal's length over the labels are not yet
      visited; every visited board is one of them. */
  function Unvisited(goal: State, visited: set<State>): nat {
    |Words(|goal|) - visited|
  }

  /** Visiting a new board leaves fewer unvisited ones. */
  lemma FewerUnvisited(goal: State, a: set<State>, b: set<State>)
    requires IsBoard(goal) && a <= b && VisitedBoards(b)
    ensures a < b ==> Unvisited(goal, b) < Unvisited(goal, a)
  {
    if a < b {
      var x :| x in b && x !in a;
      BoardInWords(x);
      FewerOutside(Words(|goal|), a, b, x);
    }
  }

  lemma FewerOutside<T>(u: set<T>, a: set<T>, b: set<T>, x: T)
    requires a <= b && x in b && x !in a && x in u
    ensures |u - b| < |u - a|
  {
    var extra := (u - a) - (u - b);
    assert u - a == (u - b) + extra;
    assert (u - b) * extra == {};
    assert x in extra;
  }

  /** The loop run to completion; it stops because every pass either visits
      a new board, of which there are finitely many, or shrinks the frontier. */
  function Run(strategy: Strategy, goal: State, budget: int, c: Config): (d: Config)
    requires IsBoard(goal) && Boards(c.frontier) && VisitedBoards(c.visited)
    ensures d.status != Running
    decreases if c.status == Running then 1 else 0, Unvisited(goal, c.visited), |c.frontier|
  {
    if c.status != Running then c
    else
      var d := Step(strategy, goal, budget, c);
      FewerUnvisited(goal, c.visited, d.visited);
      Run(strategy, goal, budget, d)
  }

  lemma StatesConcat(a: seq<Node>, b: seq<Node>)
    ensures States(a + b) == States(a) + States(b)
  {
    assert forall n :: n in a + b <==> n in a || n in b;
  }

  lemma StatesRemove(fr: seq<Node>, k: nat)
    requires k < |fr|
    ensures States(fr) <= States(Remove(fr, k)) + {fr[k].state}
  {
  }

  /** Every frontier entry's path leads from `initial` to its state, and so
      does a returned path to the goal. */
  predicate PathsValid(initial: State, goal: State, c: Config)
    requires IsBoard(initial)
  {
    && (forall n :: n in c.frontier ==> ApplyPath(initial, n.path) == Some(n.state))
    && (c.status.Solved? ==> ApplyPath(initial, c.status.path) == Some(goal))
  }

  /** The counter is the number of visited states other than the goal, and
      the goal is visited exactly when the run has found it. */
  predicate Counted(goal: State, c: Config) {
    && c.iterations == |c.visited - {goal}|
    && (goal in c.visited <==> c.status.Solved?)
  }

  /** What the budget guarantees: a positive budget is never exceeded and is
      not yet reached when a path is returned; a negative one stops the loop
      before it visits anything; the loop stops for the budget only once it
      is spent, so a zero one never stops it. */
  predicate Budgeted(budget: int, c: Config) {
    && (budget > 0 ==> c.iterations <= budget)
    && (budget > 0 && c.status.Solved? ==> c.iterations < budget)
    && (budget < 0 ==> c.visited == {})
    && (c.status == BudgetExceeded ==> OverBudget(budget, c.iterations))
  }

  /** Nothing is lost: the initial state is visited or pending, every child
      of a visited non-goal state is visited or pending, and the frontier is
      empty once the run is exhausted. */
  predicate Closed(initial: State, goal: State, c: Config)
    requires VisitedBoards(c.visited)
  {
    && (initial in c.visited || initial in States(c.frontier))
    && (forall s :: s in c.visited && s != goal ==> Successors(s) <= c.visited + States(c.frontier))
    && (c.status == Exhausted ==> |c.frontier| == 0)
  }

  /** The loop invariant of all three searches. */
  predicate Inv(initial: State, goal: State, budget: int, c: Config) {
    && IsBoard(initial) && IsBoard(goal)
    && Boards(c.frontier) && VisitedBoards(c.visited)
    && PathsValid(initial, goal, c)
    && Counted(goal, c)
    && Budgeted(budget, c)
    && Closed(initial, goal, c)
  }

  lemma InitInv(initial: State, goal: State, budget: int)
    requires IsBoard(initial) && IsBoard(goal)
    ensures Inv(initial, goal, budget, Init(initial))
  {
    assert initial in States(Init(initial).frontier);
  }

  /** A child's path is its parent's path and one more move. */
  lemma ChildPath(initial: State, parent: Node, n: Node)
    requires IsBoard(initial) && ChildOf(parent, n)
    requires ApplyPath(initial, parent.path) == Some(parent.state)
    ensures ApplyPath(initial, n.path) == Some(n.state)
  {
    var m := n.path[|parent.path|];
    LastSplit(n.path, parent.path);
    ApplyPathExtend(initial, parent.path, m);
  }

  /** A sequence one longer than its prefix `p` is `p` and its last entry. */
  lemma LastSplit<T>(q: seq<T>, p: seq<T>)
    requires |q| == |p| + 1 && q[..|p|] == p
    ensures q == p + [q[|p|]]
  {
    assert q == q[..|p|] + q[|p|..];
  }

  lemma StepKeepsPaths(strategy: Strategy, initial: State, goal: State, budget: int, c: Config)
    requires IsBoard(initial) && IsBoard(goal) && c.status == Running
    requires Boards(c.frontier) && VisitedBoards(c.visited)
    requires PathsValid(initial, goal, c)
    ensures PathsValid(initial, goal, Step(strategy, goal, budget, c))
  {
    if |c.frontier| > 0 && !OverBudget(budget, c.iterations) {
      var k := PopIndex(strategy, c.frontier);
      var node := c.frontier[k];
      var rest := Remove(c.frontier, k);
      if node.state !in c.visited && node.state != goal {
        var visited := c.visited + {node.state};
        BoardHasTiles(goal);
        var ch := Children(strategy, goal, visited, node);
        assert Step(strategy, goal, budget, c).frontier == rest + ch;
        forall n: Node | n in rest + ch
          ensures ApplyPath(initial, n.path) == Some(n.state)
        {
          if n in ch {
            ChildrenOf(strategy, goal, visited, node);
            ChildPath(initial, node, n);
          }
        }
      }
    }
  }

  /** How a pass ends and what it counts: it stops exactly on an empty
      frontier or a spent budget, changing nothing else; it returns a path
      exactly when it visits the goal for the first time; and it adds one
      to the counter exactly when it visits a new state and carries on. */
  lemma StepOutcome(strategy: Strategy, goal: State, budget: int, c: Config)
    requires IsBoard(goal) && c.status == Running
    requires Boards(c.frontier) && VisitedBoards(c.visited)
    ensures var d := Step(strategy, goal, budget, c);
      && (d.status == Exhausted <==> |c.frontier| == 0)
      && (d.status == BudgetExceeded <==> |c.frontier| > 0 && OverBudget(budget, c.iterations))
      && (d.status == Exhausted || d.status == BudgetExceeded ==> d == c.(status := d.status))
      && (d.status.Solved? <==> goal !in c.visited && d.visited == c.visited + {goal})
      && (goal in d.visited ==> goal in c.visited || d.status.Solved?)
      && (d.visited == c.visited || exists s :: s !in c.visited && d.visited == c.visited + {s})
      && d.iterations == c.iterations + (if d.status == Running && d.visited != c.visited then 1 else 0)
  {
    if |c.frontier| > 0 && !OverBudget(budget, c.iterations) {
      VisitOutcome(strategy, goal, c, PopIndex(strategy, c.frontier));
    }
  }

  /** The outcome of `Visit`: a seen state changes nothing but the frontier,
      the goal ends the search with its path, any other state is counted. */
  lemma VisitOutcome(strategy: Strategy, goal: State, c: Config, k: nat)
    requires IsBoard(goal) && c.status == Running && k < |c.frontier|
    requires Boards(c.frontier) && VisitedBoards(c.visited)
    ensures var d := Visit(strategy, goal, c, k);
      && d.status != Exhausted && d.status != BudgetExceeded
      && (d.status.Solved? <==> goal !in c.visited && d.visited == c.visited + {goal})
      && (goal in d.visited ==> goal in c.visited || d.status.Solved?)
      && (d.visited == c.visited || exists s :: s !in c.visited && d.visited == c.visited + {s})
      && d.iterations == c.iterations + (if d.status == Running && d.visited != c.visited then 1 else 0)
  {
    var d := Visit(strategy, goal, c, k);
    var node := c.frontier[k];
    if node.state in c.visited {
      assert d.status == Running && d.visited == c.visited && d.iterations == c.iterations;
    } else if node.state == goal {
      assert d.status == Solved(node.path) && d.visited == c.visited + {goal};
      assert d.iterations == c.iterations;
    } else {
      assert d.status == Running && d.visited == c.visited + {node.state};
      assert d.iterations == c.iterations + 1;
    }
  }

  /** The counting facts carry over any pass with the outcome described by
      `StepOutcome`. */
  lemma CountCarries(goal: State, c: Config, d: Config)
    requires c.status == Running && Counted(goal, c)
    requires d.status.Solved? <==> goal !in c.visited && d.visited == c.visited + {goal}
    requires goal in d.visited ==> goal in c.visited || d.status.Solved?
    requires d.visited == c.visited || exists s :: s !in c.visited && d.visited == c.visited + {s}
    requires d.status != Running && !d.status.Solved? ==> d.visited == c.visited
    requires d.iterations == c.iterations + (if d.status == Running && d.visited != c.visited then 1 else 0)
    ensures Counted(goal, d)
  {
    if d.visited != c.visited {
      var s :| s !in c.visited && d.visited == c.visited + {s};
      if d.status == Running {
        assert s != goal;
        AddOther(c.visited, s, goal);
      } else {
        assert s == goal;
        AddSame(c.visited, goal);
      }
    }
  }

  lemma AddOther<T>(a: set<T>, x: T, g: T)
    requires x !in a && x != g
    ensures |(a + {x}) - {g}| == |a - {g}| + 1
  {
    assert (a + {x}) - {g} == (a - {g}) + {x};
  }

  lemma AddSame<T>(a: set<T>, g: T)
    ensures (a + {g}) - {g} == a - {g}
  {
  }

  /** The budget facts carry over any pass with the outcome described by
      `StepOutcome`. */
  lemma BudgetCarries(goal: State, budget: int, c: Config, d: Config)
    requires c.status == Running && Budgeted(budget, c)
    requires d.status == Exhausted <==> |c.frontier| == 0
    requires d.status == BudgetExceeded <==> |c.frontier| > 0 && OverBudget(budget, c.iterations)
    requires d.status == Exhausted || d.status == BudgetExceeded ==> d == c.(status := d.status)
    requires d.iterations == c.iterations + (if d.status == Running && d.visited != c.visited then 1 else 0)
    requires d.status != Running && d.status != Exhausted && d.status != BudgetExceeded ==> d.iterations == c.iterations
    ensures Budgeted(budget, d)
  {
  }

  lemma StepKeepsCount(strategy: Strategy, goal: State, budget: int, c: Config)
    requires IsBoard(goal) && c.status == Running
    requires Boards(c.frontier) && VisitedBoards(c.visited)
    requires Counted(goal, c) && Budgeted(budget, c)
    ensures Counted(goal, Step(strategy, goal, budget, c))
    ensures Budgeted(budget, Step(strategy, goal, budget, c))
  {
    StepOutcome(strategy, goal, budget, c);
    CountCarries(goal, c, Step(strategy, goal, budget, c));
    BudgetCarries(goal, budget, c, Step(strategy, goal, budget, c));
  }

  /** Closure carries over a pass that visits `s`, keeps every pending
      state visited or pending, and leaves every child of `s` visited or
      pending. */
  lemma ClosedCarries(initial: State, goal: State, c: Config, d: Config, s: State)
    requires VisitedBoards(c.visited) && VisitedBoards(d.visited) && Closed(initial, goal, c)
    requires d.visited == c.visited + {s}
    requires States(c.frontier) <= d.visited + States(d.frontier)
    requires s != goal ==> Successors(s) <= d.visited + States(d.frontier)
    requires d.status == Exhausted ==> |d.frontier| == 0
    ensures Closed(initial, goal, d)
  {
    var before := c.visited + States(c.frontier);
    var after := d.visited + States(d.frontier);
    assert before <= after;
    forall t | t in d.visited && t != goal
      ensures Successors(t) <= after
    {
      if t != s {
        assert Successors(t) <= before;
      }
    }
  }

  lemma VisitKeepsClosed(strategy: Strategy, initial: State, goal: State, c: Config, k: nat)
    requires IsBoard(goal) && k < |c.frontier| && c.status == Running
    requires Boards(c.frontier) && VisitedBoards(c.visited)
    requires Closed(initial, goal, c)
    ensures Closed(initial, goal, Visit(strategy, goal, c, k))
  {
    var d := Visit(strategy, goal, c, k);
    var node := c.frontier[k];
    var rest := Remove(c.frontier, k);
    StatesRemove(c.frontier, k);
    var visited := c.visited + {node.state};
    if node.state in c.visited {
      assert d.frontier == rest;
    } else if node.state == goal {
      assert d.frontier == rest;
    } else {
      BoardHasTiles(goal);
      var ch := Children(strategy, goal, visited, node);
      assert d.frontier == rest + ch;
      StatesConcat(rest, ch);
    }
    ClosedCarries(initial, goal, c, d, node.state);
  }

  lemma StepKeepsClosed(strategy: Strategy, initial: State, goal: State, budget: int, c: Config)
    requires IsBoard(goal) && c.status == Running
    requires Boards(c.frontier) && VisitedBoards(c.visited)
    requires Closed(initial, goal, c)
    ensures Closed(initial, goal, Step(strategy, goal, budget, c))
  {
    if |c.frontier| > 0 && !OverBudget(budget, c.iterations) {
      VisitKeepsClosed(strategy, initial, goal, c, PopIndex(strategy, c.frontier));
    }
  }

  lemma StepKeepsInv(strategy: Strategy, initial: State, goal: State, budget: int, c: Config)
    requires Inv(initial, goal, budget, c) && c.status == Running
    ensures Inv(initial, goal, budget, Step(strategy, goal, budget, c))
  {
    StepKeepsPaths(strategy, initial, goal, budget, c);
    StepKeepsCount(strategy, goal, budget, c);
    StepKeepsClosed(strategy, initial, goal, budget, c);
  }

  lemma {:induction false} RunKeepsInv(strategy: Strategy, initial: State, goal: State, budget: int, c: Config)
    requires Inv(initial, goal, budget, c)
    ensures Inv(initial, goal, budget, Run(strategy, goal, budget, c))
    decreases if c.status == Running then 1 else 0, Unvisited(goal, c.visited), |c.frontier|
  {
    if c.status == Running {
      StepKeepsInv(strategy, initial, goal, budget, c);
      var d := Step(strategy, goal, budget, c);
      FewerUnvisited(goal, c.visited, d.visited);
      RunKeepsInv(strategy, initial, goal, budget, d);
    }
  }

  /** Some sequence of moves leads from `initial` to `goal`. */
  ghost predicate Reachable(initial: State, goal: State)
    requires |initial| == Cells && Blank in initial
  {
    exists p :: ApplyPath(initial, p) == Some(goal)
  }

  /** Once the frontier runs dry, every state reachable from the initial
      one has been visited. */
  lemma {:induction false} ExhaustedVisitsReachable(initial: State, goal: State, budget: int, c: Config, p: seq<Move>)
    requires Inv(initial, goal, budget, c) && c.status == Exhausted
    requires ApplyPath(initial, p).Some?
    ensures ApplyPath(initial, p).value in c.visited
    decreases |p|
  {
    assert States(c.frontier) == {};
    if p != [] {
      var q := p[..|p| - 1];
      var m := p[|p| - 1];
      ExhaustedVisitsReachable(initial, goal, budget, c, q);
      var t := ApplyPath(initial, q).value;
      assert ApplyPath(initial, p) == Apply(t, m);
      SuccessorsComplete(t, m);
      assert Successors(t) <= c.visited + States(c.frontier);
    }
  }

  /** A run that ends with an empty frontier proves the goal unreachable. */
  lemma ExhaustedMissesGoal(initial: State, goal: State, budget: int, c: Config)
    requires Inv(initial, goal, budget, c)
    ensures c.status == Exhausted ==> !Reachable(initial, goal)
  {
    if c.status == Exhausted {
      forall p | ApplyPath(initial, p).Some?
        ensures ApplyPath(initial, p) != Some(goal)
      {
        ExhaustedVisitsReachable(initial, goal, budget, c, p);
      }
    }
  }

  /** `bfs`, `dfs` or `a_star` on `initial`, `goal` and `max_iterations`:
      the path found, if any, and the final count. */
  function Solve(strategy: Strategy, initial: State, goal: State, budget: int): (r: (Option<seq<Move>>, nat))
    requires IsBoard(initial) && IsBoard(goal)
    ensures r.0.Some? ==> ApplyPath(initial, r.0.value) == Some(goal)
    ensures budget > 0 ==> r.1 <= budget && (r.0.Some? ==> r.1 < budget)
    ensures budget < 0 ==> r == (None, 0)
    ensures budget == 0 ==> (r.0.Some? <==> Reachable(initial, goal))
    ensures budget > 0 && r.0.None? && Reachable(initial, goal) ==> r.1 == budget
  {
    RunOutcome(strategy, initial, goal, budget);
    var d := Run(strategy, goal, budget, Init(initial));
    (if d.status.Solved? then Some(d.status.path) else None, d.iterations)
  }

  /** What the run from the initial configuration ends with: a final status,
      a valid path if solved, the counting and budget facts, and an
      unreachable goal if the frontier ran dry. */
  lemma RunOutcome(strategy: Strategy, initial: State, goal: State, budget: int)
    requires IsBoard(initial) && IsBoard(goal)
    ensures var d := Run(strategy, goal, budget, Init(initial));
      && d.status != Running
      && (d.status.Solved? ==> ApplyPath(initial, d.status.path) == Some(goal))
      && Counted(goal, d) && Budgeted(budget, d)
      && (d.status == Exhausted ==> !Reachable(initial, goal))
  {
    var d := Run(strategy, goal, budget, Init(initial));
    InitInv(initial, goal, budget);
    RunKeepsInv(strategy, initial, goal, budget, Init(initial));
    ExhaustedMissesGoal(initial, goal, budget, d);
  }

  /** Started on the goal with a non-negative budget, every strategy returns
      the empty path after zero iterations. */
  lemma SolveAtGoal(strategy: Strategy, initial: State, budget: int)
    requires IsBoard(initial) && budget >= 0
    ensures Solve(strategy, initial, initial, budget) == (Some([]), 0)
  {
    var c := Init(initial);
    var d := Step(strategy, initial, budget, c);
    assert PopIndex(strategy, c.frontier) == 0;
    assert d == Config([], {initial}, 0, Solved([]));
    assert Run(strategy, initial, budget, c) == Run(strategy, initial, budget, d);
  }

  /** Moves keep the inversion parity, so a goal of the other parity is never
      found, whatever the strategy and budget. */
  lemma ParityMismatchFails(strategy: Strategy, initial: State, goal: State, budget: int)
    requires IsBoard(initial) && IsBoard(goal)
    requires Inversions(initial) % 2 != Inversions(goal) % 2
    ensures Solve(strategy, initial, goal, budget).0 == None
  {
    var r := Solve(strategy, initial, goal, budget);
    if r.0.Some? {
      PathPreservesParity(initial, r.0.value);
    }
  }

  /** A run that has stopped stays where it is. */
  lemma RunStopped(strategy: Strategy, goal: State, budget: int, c: Config)
    requires IsBoard(goal) && Boards(c.frontier) && VisitedBoards(c.visited) && c.status != Running
    ensures Run(strategy, goal, budget, c) == c
  {
  }

  /** One trip through the loop body; the outcome of the whole run does not
      change, and the run gets closer to its end. */
  method Pass(strategy: Strategy, goal: State, budget: int, c: Config) returns (d: Config)
    requires IsBoard(goal) && Boards(c.frontier) && VisitedBoards(c.visited) && c.status == Running
    ensures Boards(d.frontier) && VisitedBoards(d.visited)
    ensures Run(strategy, goal, budget, d) == Run(strategy, goal, budget, c)
    ensures d.status == Running ==>
              Unvisited(goal, d.visited) < Unvisited(goal, c.visited)
              || (d.visited == c.visited && |d.frontier| < |c.frontier|)
    ensures d == Step(strategy, goal, budget, c)
  {
    d := Step(strategy, goal, budget, c);
    FewerUnvisited(goal, c.visited, d.visited);
  }

  /** The search loop itself: pass after pass until the run stops. It ends
      where `Run` ends, and the loop invariant `Inv` holds on every pass. */
  method Loop(strategy: Strategy, ghost initial: State, goal: State, budget: int, start: Config) returns (c: Config)
    requires Inv(initial, goal, budget, start)
    ensures c == Run(strategy, goal, budget, start)
    ensures Inv(initial, goal, budget, c) && c.status != Running
  {
    c := start;
    while c.status == Running
      invariant Inv(initial, goal, budget, c)
      invariant Run(strategy, goal, budget, c) == Run(strategy, goal, budget, start)
      decreases if c.status == Running then 1 else 0, Unvisited(goal, c.visited), |c.frontier|
    {
      StepKeepsInv(strategy, initial, goal, budget, c);
      c := Pass(strategy, goal, budget, c);
    }
    RunStopped(strategy, goal, budget, c);
  }

  /** `bfs`, `dfs` and `a_star` as loops: they return what `Solve` says. */
  method Search(strategy: Strategy, initial: State, goal: State, budget: int)
      returns (path: Option<seq<Move>>, iterations: nat)
    requires IsBoard(initial) && IsBoard(goal)
    ensures (path, iterations) == Solve(strategy, initial, goal, budget)
    ensures path.Some? ==> ApplyPath(initial, path.value) == Some(goal)
    ensures budget > 0 ==> iterations <= budget
  {
    InitInv(initial, goal, budget);
    var c := Loop(strategy, initial, goal, budget, Init(initial));
    path := if c.status.Solved? then Some(c.status.path) else None;
    iterations := c.iterations;
  }
}
