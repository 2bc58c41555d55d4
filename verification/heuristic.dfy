/** The Manhattan-distance heuristic `h` that A* uses. */
module Heuristic {
  import opened Wrappers
  import opened Board
  import opened Moves

  /** Every tile 1..8 occurs in `s`, which `state.index(i)` needs. */
  predicate HasTiles(s: State) {
    forall v :: 1 <= v <= 8 ==> v in s
  }

  function Abs(x: int): nat {
    if x < 0 then -x else x
  }

  /** Grid (Manhattan) distance between cells `p` and `q`. */
  function Distance(p: int, q: int): nat {
    Abs(Row(p) - Row(q)) + Abs(Col(p) - Col(q))
  }

  /** Distance of tile `v` from its cell in `goal`. */
  function TileDistance(s: State, goal: State, v: int): nat
    requires 1 <= v <= 8 && HasTiles(s) && HasTiles(goal)
  {
    Distance(IndexOf(s, v), IndexOf(goal, v))
  }

  /** The distances of tiles 1..8, tile `v` at position `v - 1`. */
  function TileDistances(s: State, goal: State): (r: seq<nat>)
    requires HasTiles(s) && HasTiles(goal)
    ensures |r| == 8 && forall i :: 0 <= i < 8 ==> r[i] == TileDistance(s, goal, i + 1)
  {
    seq(8, i requires 0 <= i < 8 => TileDistance(s, goal, i + 1))
  }

  function Sum(a: seq<nat>): nat {
    if |a| == 0 then 0 else a[0] + Sum(a[1..])
  }

  /** `h`: the total distance of the tiles 1..8 from their goal cells. */
  function H(s: State, goal: State): nat
    requires HasTiles(s) && HasTiles(goal)
  {
    Sum(TileDistances(s, goal))
  }

  /** `h` as the program computes it: one pass over the tiles 1..8, adding
      each tile's row and column offsets from its goal cell. */
  method Manhattan(s: State, goal: State) returns (distance: nat)
    requires HasTiles(s) && HasTiles(goal)
    ensures distance == H(s, goal)
  {
    ghost var d := TileDistances(s, goal);
    distance := 0;
    var i := 1;
    while i < 9
      invariant 1 <= i <= 9
      invariant distance == Sum(d[..i - 1])
    {
      var current := IndexOf(s, i);
      var target := IndexOf(goal, i);
      PrefixStep(d, i - 1);
      distance := distance + Abs(current / Width - target / Width) + Abs(current % Width - target % Width);
      i := i + 1;
    }
    assert d[..8] == d;
  }

  /** A prefix sum grows by the next term. */
  lemma PrefixStep(a: seq<nat>, k: int)
    requires 0 <= k < |a|
    ensures Sum(a[..k + 1]) == Sum(a[..k]) + a[k]
  {
    SumSnoc(a[..k], a[k]);
    assert a[..k + 1] == a[..k] + [a[k]];
  }

  /** Adding one more term at the end adds it to the sum. */
  lemma {:induction false} SumSnoc(a: seq<nat>, x: nat)
    ensures Sum(a + [x]) == Sum(a) + x
    decreases |a|
  {
    if |a| > 0 {
      SumSnoc(a[1..], x);
      assert (a + [x])[1..] == a[1..] + [x];
    }
  }

  /** A sum of naturals is zero exactly when every term is. */
  lemma {:induction false} SumZero(a: seq<nat>)
    ensures Sum(a) == 0 <==> forall i :: 0 <= i < |a| ==> a[i] == 0
    decreases |a|
  {
    if |a| > 0 {
      SumZero(a[1..]);
      assert forall i :: 1 <= i < |a| ==> a[i] == a[1..][i - 1];
    }
  }

  lemma BoardHasTiles(s: State)
    requires IsBoard(s)
    ensures HasTiles(s)
  {
    forall v | 1 <= v <= 8
      ensures v in s
    {
      BoardHasLabel(s, v);
    }
  }

  lemma ChildrenHaveTiles(s: State)
    requires IsBoard(s)
    ensures forall k :: 0 <= k < |NextStates(s)| ==> HasTiles(NextStates(s)[k].0)
  {
    ChildrenAreBoards(s);
    forall k | 0 <= k < |NextStates(s)|
      ensures HasTiles(NextStates(s)[k].0)
    {
      BoardHasTiles(NextStates(s)[k].0);
    }
  }

  /** `h` vanishes exactly on the goal. */
  lemma HZeroIffGoal(s: State, goal: State)
    requires IsBoard(s) && IsBoard(goal)
    ensures HasTiles(s) && HasTiles(goal)
    ensures H(s, goal) == 0 <==> s == goal
  {
    BoardHasTiles(s);
    BoardHasTiles(goal);
    if s == goal {
      HAtGoal(goal);
    }
    if H(s, goal) == 0 {
      HZeroMeansGoal(s, goal);
    }
  }

  /** Every tile of the goal is at its goal cell. */
  lemma HAtGoal(goal: State)
    requires HasTiles(goal)
    ensures H(goal, goal) == 0
  {
    var d := TileDistances(goal, goal);
    ZeroDistancesAtGoal(goal);
    SumZero(d);
  }

  lemma ZeroDistancesAtGoal(goal: State)
    requires HasTiles(goal)
    ensures forall i :: 0 <= i < 8 ==> TileDistances(goal, goal)[i] == 0
  {
    forall i | 0 <= i < 8
      ensures TileDistances(goal, goal)[i] == 0
    {
      var p := IndexOf(goal, i + 1);
      assert TileDistances(goal, goal)[i] == Distance(p, p);
    }
  }

  /** Boards on which every tile has distance zero are equal. */
  lemma HZeroMeansGoal(s: State, goal: State)
    requires IsBoard(s) && IsBoard(goal) && HasTiles(s) && HasTiles(goal)
    requires H(s, goal) == 0
    ensures s == goal
  {
    ZeroMeansSameCells(s, goal);
    SameCellsSameBoard(s, goal);
  }

  /** A zero `h` puts every tile at its goal cell. */
  lemma ZeroMeansSameCells(s: State, goal: State)
    requires HasTiles(s) && HasTiles(goal) && H(s, goal) == 0
    ensures forall u :: 1 <= u <= 8 ==> IndexOf(s, u) == IndexOf(goal, u)
  {
    var d := TileDistances(s, goal);
    SumZero(d);
    forall u | 1 <= u <= 8
      ensures IndexOf(s, u) == IndexOf(goal, u)
    {
      assert d[u - 1] == 0;
      ZeroDistance(IndexOf(s, u), IndexOf(goal, u));
    }
  }

  /** Cells at grid distance zero coincide. */
  lemma ZeroDistance(p: nat, q: nat)
    requires Distance(p, q) == 0
    ensures p == q
  {
    assert p == Width * Row(p) + Col(p) && q == Width * Row(q) + Col(q);
  }

  /** Two boards whose tiles all sit in the same cells are equal. */
  lemma SameCellsSameBoard(s: State, goal: State)
    requires IsBoard(s) && IsBoard(goal) && HasTiles(s) && HasTiles(goal)
    requires forall u :: 1 <= u <= 8 ==> IndexOf(s, u) == IndexOf(goal, u)
    ensures s == goal
  {
    forall k | 0 <= k < Cells
      ensures goal[k] != Blank ==> s[k] == goal[k]
      ensures s[k] != Blank ==> s[k] == goal[k]
    {
      IndexOfBoard(s, k);
      IndexOfBoard(goal, k);
    }
  }

  /** A tile stepping to a neighbouring cell changes its distance to any
      cell by exactly one. */
  lemma UnitStep(b: int, m: Move, q: int)
    requires 0 <= b < Cells && Legal(b, m)
    ensures Abs(Distance(Neighbour(b, m), q) - Distance(b, q)) == 1
  {
    var t := Target(b, m);
    assert Row(Neighbour(b, m)) == Row(b) + Offset(m).0;
    assert Col(Neighbour(b, m)) == Col(b) + Offset(m).1;
  }

  /** Changing one term of a sum changes the sum by the same amount. */
  lemma {:induction false} SumOneChanged(a: seq<nat>, b: seq<nat>, i: int)
    requires |a| == |b| && 0 <= i < |a|
    requires forall j :: 0 <= j < |a| && j != i ==> a[j] == b[j]
    ensures Sum(b) == Sum(a) + b[i] - a[i]
    decreases |a|
  {
    if i == 0 {
      assert a[1..] == b[1..];
    } else {
      SumOneChanged(a[1..], b[1..], i - 1);
    }
  }

  /** A move carries the tile `w` at the blank's neighbour `n` onto the
      blank's cell `b` and leaves every other tile where it was. */
  lemma MovedTile(s: State, m: Move) returns (b: nat, n: nat, w: int)
    requires IsBoard(s) && Apply(s, m).Some?
    ensures b < Cells && Legal(b, m) && n == Neighbour(b, m) && 1 <= w <= 8
    ensures IsBoard(Apply(s, m).value)
    ensures w in s && IndexOf(s, w) == n
    ensures w in Apply(s, m).value && IndexOf(Apply(s, m).value, w) == b
    ensures forall u :: 1 <= u <= 8 && u != w ==>
              u in s && u in Apply(s, m).value && IndexOf(Apply(s, m).value, u) == IndexOf(s, u)
  {
    var s' := Apply(s, m).value;
    ApplyKeepsBoard(s, m);
    b := IndexOf(s, Blank);
    n := Neighbour(b, m);
    assert s' == Swap(s, b, n);
    w := s[n];
    BoardDistinct(s, if b < n then b else n, if b < n then n else b);
    BoardCellInRange(s, n);
    IndexOfBoard(s, n);
    IndexOfBoard(s', b);
    forall u | 1 <= u <= 8 && u != w
      ensures u in s && u in s' && IndexOf(s', u) == IndexOf(s, u)
    {
      BoardHasLabel(s, u);
      var k := IndexOf(s, u);
      assert k != b && k != n;
      assert s'[k] == u;
      IndexOfBoard(s', k);
    }
  }

  /** `h` after one tile `w` has stepped from `n` to the neighbouring cell `b`. */
  lemma OneStepChangesH(s: State, s': State, goal: State, m: Move, b: nat, n: nat, w: int)
    requires HasTiles(s) && HasTiles(s') && HasTiles(goal)
    requires b < Cells && Legal(b, m) && n == Neighbour(b, m)
    requires 1 <= w <= 8 && IndexOf(s, w) == n && IndexOf(s', w) == b
    requires forall u :: 1 <= u <= 8 && u != w ==> IndexOf(s', u) == IndexOf(s, u)
    ensures Abs(H(s', goal) - H(s, goal)) == 1
  {
    HOneTileMoved(s, s', goal, w);
    TileStep(s, s', goal, m, b, n, w);
    ShiftByOne(H(s, goal), H(s', goal), TileDistance(s', goal, w), TileDistance(s, goal, w));
  }

  /** When only tile `w` has moved, `h` changes by the change in `w`'s distance. */
  lemma HOneTileMoved(s: State, s': State, goal: State, w: int)
    requires HasTiles(s) && HasTiles(s') && HasTiles(goal) && 1 <= w <= 8
    requires forall u :: 1 <= u <= 8 && u != w ==> IndexOf(s', u) == IndexOf(s, u)
    ensures H(s', goal) == H(s, goal) + TileDistance(s', goal, w) - TileDistance(s, goal, w)
  {
    var d, d' := TileDistances(s, goal), TileDistances(s', goal);
    OtherTilesKeepDistance(s, s', goal, w);
    SumOneChanged(d, d', w - 1);
  }

  lemma OtherTilesKeepDistance(s: State, s': State, goal: State, w: int)
    requires HasTiles(s) && HasTiles(s') && HasTiles(goal) && 1 <= w <= 8
    requires forall u :: 1 <= u <= 8 && u != w ==> IndexOf(s', u) == IndexOf(s, u)
    ensures forall i :: 0 <= i < 8 && i != w - 1 ==> TileDistances(s, goal)[i] == TileDistances(s', goal)[i]
  {
    forall i | 0 <= i < 8 && i != w - 1
      ensures TileDistances(s, goal)[i] == TileDistances(s', goal)[i]
    {
      SameCellSameDistance(s, s', goal, i + 1);
    }
  }

  lemma SameCellSameDistance(s: State, s': State, goal: State, v: int)
    requires 1 <= v <= 8 && HasTiles(s) && HasTiles(s') && HasTiles(goal)
    requires IndexOf(s', v) == IndexOf(s, v)
    ensures TileDistance(s', goal, v) == TileDistance(s, goal, v)
  {
  }

  /** The moved tile itself comes one step nearer to or farther from its goal cell. */
  lemma TileStep(s: State, s': State, goal: State, m: Move, b: nat, n: nat, w: int)
    requires HasTiles(s) && HasTiles(s') && HasTiles(goal)
    requires b < Cells && Legal(b, m) && n == Neighbour(b, m)
    requires 1 <= w <= 8 && IndexOf(s, w) == n && IndexOf(s', w) == b
    ensures Abs(TileDistance(s, goal, w) - TileDistance(s', goal, w)) == 1
  {
    UnitStep(b, m, IndexOf(goal, w));
  }

  lemma ShiftByOne(x: int, y: int, a: int, c: int)
    requires y == x + a - c && Abs(c - a) == 1
    ensures Abs(y - x) == 1
  {
  }

  /** Each move changes `h` by exactly one: the moved tile is one step nearer
      to or farther from its goal cell, and no other tile moves. */
  lemma MoveChangesHByOne(s: State, s': State, goal: State, m: Move)
    requires IsBoard(s) && IsBoard(goal) && Apply(s, m) == Some(s')
    ensures HasTiles(s) && HasTiles(goal) && HasTiles(s')
    ensures Abs(H(s', goal) - H(s, goal)) == 1
  {
    var b, n, w := MovedTile(s, m);
    BoardHasTiles(s);
    BoardHasTiles(s');
    BoardHasTiles(goal);
    OneStepChangesH(s, s', goal, m, b, n, w);
  }

  /** `h` never overestimates: from `s`, a path reaching `u` is at least as
      long as the drop in `h` along it. */
  lemma {:induction false} PathBoundsH(s: State, goal: State, p: seq<Move>)
    requires IsBoard(s) && IsBoard(goal) && ApplyPath(s, p).Some?
    ensures HasTiles(s) && HasTiles(goal) && HasTiles(ApplyPath(s, p).value)
    ensures H(s, goal) <= |p| + H(ApplyPath(s, p).value, goal)
    decreases |p|
  {
    BoardHasTiles(s);
    BoardHasTiles(goal);
    var u := ApplyPath(s, p).value;
    ApplyPathKeepsBoard(s, p);
    BoardHasTiles(u);
    if p != [] {
      var q := p[..|p| - 1];
      PathBoundsH(s, goal, q);
      var t := ApplyPath(s, q).value;
      ApplyPathKeepsBoard(s, q);
      MoveChangesHByOne(t, u, goal, p[|p| - 1]);
    }
  }

  /** Hence `h` is admissible: no path to the goal is shorter than `h`. */
  lemma Admissible(s: State, goal: State, p: seq<Move>)
    requires IsBoard(s) && IsBoard(goal) && ApplyPath(s, p) == Some(goal)
    ensures HasTiles(s) && HasTiles(goal)
    ensures H(s, goal) <= |p|
  {
    PathBoundsH(s, goal, p);
    HZeroIffGoal(goal, goal);
  }
}
