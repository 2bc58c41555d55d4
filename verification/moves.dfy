/** Blank moves and the successor generator `generate_next_states`. */
module Moves {
  import opened Wrappers
  import opened Board

  /** The direction the blank travels: the source's arrows ↑ ↓ ← →. */
  datatype Move = Up | Down | Left | Right

  /** The fixed order in which the generator tries the directions. */
  const Directions: seq<Move> := [Up, Down, Left, Right]

  /** Position of a direction in `Directions`. */
  function Rank(m: Move): nat {
    match m
    case Up => 0
    case Down => 1
    case Left => 2
    case Right => 3
  }

  /** The generator's `(dr, dc)` table. */
  function Offset(m: Move): (int, int) {
    match m
    case Up => (-1, 0)
    case Down => (1, 0)
    case Left => (0, -1)
    case Right => (0, 1)
  }

  /** When the blank at `b` may travel in direction `m`, stated cell by cell:
      not off the top row, the bottom row, the left or the right column. */
  predicate Legal(b: int, m: Move) {
    match m
    case Up => b >= Width
    case Down => b < Cells - Width
    case Left => b % Width != 0
    case Right => b % Width != Width - 1
  }

  /** The cell the blank reaches from `b` in direction `m`, in flat indices. */
  function Neighbour(b: int, m: Move): int {
    match m
    case Up => b - Width
    case Down => b + Width
    case Left => b - 1
    case Right => b + 1
  }

  /** The generator's bounds test: split `b` into row and column, add the
      offset, and keep the cell only if both coordinates stay in [0, 3). */
  function Target(b: int, m: Move): (r: Option<nat>)
    requires 0 <= b < Cells
    ensures r.Some? <==> Legal(b, m)
    ensures r.Some? ==> r.value == Neighbour(b, m) && r.value < Cells
    ensures r.Some? ==> Row(r.value) == Row(b) + Offset(m).0 && Col(r.value) == Col(b) + Offset(m).1
  {
    var (row, col) := (b / Width, b % Width);
    var (nr, nc) := (row + Offset(m).0, col + Offset(m).1);
    if 0 <= nr < Width && 0 <= nc < Width then Some(nr * Width + nc) else None
  }

  /** The state the generator produces for direction `m`, if it is in bounds:
      the blank (its first occurrence) swapped with the neighbouring cell. */
  function Apply(s: State, m: Move): (r: Option<State>)
    requires |s| == Cells && Blank in s
    ensures r.Some? <==> Legal(IndexOf(s, Blank), m)
    ensures r.Some? ==> r.value == Swap(s, IndexOf(s, Blank), Neighbour(IndexOf(s, Blank), m))
    ensures r.Some? ==> |r.value| == Cells
  {
    var b := IndexOf(s, Blank);
    match Target(b, m)
    case None => None
    case Some(t) => Some(Swap(s, b, t))
  }

  lemma ApplyKeepsBoard(s: State, m: Move)
    requires IsBoard(s) && Apply(s, m).Some?
    ensures IsBoard(Apply(s, m).value)
  {
    var b := IndexOf(s, Blank);
    SwapSamePieces(s, b, Neighbour(b, m));
    SamePieces(s, Apply(s, m).value);
  }

  /** The moves of a child list, in order. */
  function MovesOf(r: seq<(State, Move)>): (ms: seq<Move>)
    ensures |ms| == |r| && forall k :: 0 <= k < |r| ==> ms[k] == r[k].1
  {
    if r == [] then [] else [r[0].1] + MovesOf(r[1..])
  }

  /** The directions of `ms` that are legal for a blank at `b`, in order. */
  function Filter(b: int, ms: seq<Move>): seq<Move> {
    if ms == [] then []
    else (if Legal(b, ms[0]) then [ms[0]] else []) + Filter(b, ms[1..])
  }

  /** Strictly increasing in the generator's direction order. */
  predicate Ordered(ms: seq<Move>) {
    forall p, q :: 0 <= p < q < |ms| ==> Rank(ms[p]) < Rank(ms[q])
  }

  /** Children of `s` for the directions `ms`, tried in that order. */
  function Collect(s: State, ms: seq<Move>): (r: seq<(State, Move)>)
    requires |s| == Cells && Blank in s
    ensures forall k :: 0 <= k < |r| ==> Apply(s, r[k].1) == Some(r[k].0)
    ensures MovesOf(r) == Filter(IndexOf(s, Blank), ms)
  {
    if ms == [] then []
    else
      var rest := Collect(s, ms[1..]);
      match Apply(s, ms[0])
      case None =>
        assert [] + Filter(IndexOf(s, Blank), ms[1..]) == Filter(IndexOf(s, Blank), ms[1..]);
        rest
      case Some(c) =>
        MovesOfCons((c, ms[0]), rest);
        [(c, ms[0])] + rest
  }

  lemma MovesOfCons(x: (State, Move), r: seq<(State, Move)>)
    ensures MovesOf([x] + r) == [x.1] + MovesOf(r)
  {
    assert ([x] + r)[1..] == r;
  }

  /** `generate_next_states`: each child is the parent with the blank swapped
      with a legal neighbouring cell, labelled with that direction. */
  function NextStates(s: State): (r: seq<(State, Move)>)
    requires |s| == Cells && Blank in s
    ensures forall k :: 0 <= k < |r| ==> Apply(s, r[k].1) == Some(r[k].0)
    ensures forall k :: 0 <= k < |r| ==>
              Legal(IndexOf(s, Blank), r[k].1)
              && r[k].0 == Swap(s, IndexOf(s, Blank), Neighbour(IndexOf(s, Blank), r[k].1))
    ensures MovesOf(r) == Filter(IndexOf(s, Blank), Directions)
  {
    Collect(s, Directions)
  }

  lemma {:induction false} FilterMembers(b: int, ms: seq<Move>)
    ensures forall m :: m in Filter(b, ms) <==> m in ms && Legal(b, m)
  {
    if ms != [] {
      FilterMembers(b, ms[1..]);
      assert ms == [ms[0]] + ms[1..];
    }
  }

  lemma {:induction false} FilterOrdered(b: int, ms: seq<Move>)
    requires Ordered(ms)
    ensures Ordered(Filter(b, ms))
  {
    if ms != [] {
      FilterOrdered(b, ms[1..]);
      FilterMembers(b, ms[1..]);
      var rest := Filter(b, ms[1..]);
      forall q | 0 <= q < |rest|
        ensures Rank(ms[0]) < Rank(rest[q])
      {
        assert rest[q] in ms[1..];
      }
    }
  }

  /** A direction labels a child exactly when the blank can travel that way. */
  lemma NextStatesMembers(s: State)
    requires |s| == Cells && Blank in s
    ensures forall m :: m in MovesOf(NextStates(s)) <==> Legal(IndexOf(s, Blank), m)
  {
    var b := IndexOf(s, Blank);
    var ms := MovesOf(NextStates(s));
    FilterMembers(b, Directions);
    forall m
      ensures m in ms <==> Legal(b, m)
    {
      assert m in Directions by { match m { case Up => case Down => case Left => case Right => } }
    }
  }

  /** The children come in the order Up, Down, Left, Right. */
  lemma NextStatesOrdered(s: State)
    requires |s| == Cells && Blank in s
    ensures Ordered(MovesOf(NextStates(s)))
  {
    assert Ordered(Directions);
    FilterOrdered(IndexOf(s, Blank), Directions);
  }

  function One(c: bool): nat { if c then 1 else 0 }

  lemma FilterLength(b: int)
    ensures |Filter(b, Directions)|
            == One(Legal(b, Up)) + One(Legal(b, Down)) + One(Legal(b, Left)) + One(Legal(b, Right))
  {
    assert |Filter(b, [])| == 0;
    assert |Filter(b, [Right])| == One(Legal(b, Right));
    assert |Filter(b, [Left, Right])| == One(Legal(b, Left)) + One(Legal(b, Right));
    assert |Filter(b, [Down, Left, Right])|
           == One(Legal(b, Down)) + One(Legal(b, Left)) + One(Legal(b, Right));
  }

  /** A corner cell has two neighbours, an edge cell three, the centre four. */
  function NeighbourCount(b: int): nat {
    if b in {0, 2, 6, 8} then 2 else if b == 4 then 4 else 3
  }

  lemma ChildCount(s: State)
    requires |s| == Cells && Blank in s
    ensures |NextStates(s)| == NeighbourCount(IndexOf(s, Blank))
  {
    var b := IndexOf(s, Blank);
    assert |NextStates(s)| == |MovesOf(NextStates(s))| == |Filter(b, Directions)|;
    FilterLength(b);
    LegalCount(b);
  }

  lemma LegalCount(b: int)
    requires 0 <= b < Cells
    ensures One(Legal(b, Up)) + One(Legal(b, Down)) + One(Legal(b, Left)) + One(Legal(b, Right))
            == NeighbourCount(b)
  {
  }

  /** The states one move away from `s`. */
  function Successors(s: State): set<State>
    requires |s| == Cells && Blank in s
  {
    set x | x in NextStates(s) :: x.0
  }

  /** The generator misses nothing: every move that stays on the grid
      yields one of the listed children, paired with that move. */
  lemma NextStatesComplete(s: State, m: Move)
    requires |s| == Cells && Blank in s && Apply(s, m).Some?
    ensures (Apply(s, m).value, m) in NextStates(s)
  {
    var r := NextStates(s);
    var ms := MovesOf(r);
    NextStatesMembers(s);
    assert m in ms;
    var k :| 0 <= k < |ms| && ms[k] == m;
    assert r[k].1 == m && Apply(s, r[k].1) == Some(r[k].0);
    assert r[k] == (Apply(s, m).value, m);
  }

  lemma SuccessorsComplete(s: State, m: Move)
    requires |s| == Cells && Blank in s && Apply(s, m).Some?
    ensures Apply(s, m).value in Successors(s)
  {
    NextStatesComplete(s, m);
  }

  /** Children of a board are boards. */
  lemma ChildrenAreBoards(s: State)
    requires IsBoard(s)
    ensures forall k :: 0 <= k < |NextStates(s)| ==> IsBoard(NextStates(s)[k].0)
  {
    var r := NextStates(s);
    forall k | 0 <= k < |r|
      ensures IsBoard(r[k].0)
    {
      ApplyKeepsBoard(s, r[k].1);
    }
  }

  /** Applies the moves of a path one by one; `None` as soon as a move would
      leave the grid. */
  function ApplyPath(s: State, p: seq<Move>): (r: Option<State>)
    requires |s| == Cells && Blank in s
    ensures r.Some? ==> |r.value| == Cells
    decreases |p|
  {
    if p == [] then Some(s)
    else
      match ApplyPath(s, p[..|p| - 1])
      case None => None
      case Some(t) => Apply(t, p[|p| - 1])
  }

  lemma ApplyPathExtend(s: State, p: seq<Move>, m: Move)
    requires |s| == Cells && Blank in s && ApplyPath(s, p).Some?
    ensures ApplyPath(s, p + [m]) == Apply(ApplyPath(s, p).value, m)
  {
    assert (p + [m])[..|p|] == p;
  }

  /** Every state a path reaches from a board is a board. */
  lemma {:induction false} ApplyPathKeepsBoard(s: State, p: seq<Move>)
    requires IsBoard(s) && ApplyPath(s, p).Some?
    ensures IsBoard(ApplyPath(s, p).value)
    decreases |p|
  {
    if p != [] {
      var q := p[..|p| - 1];
      ApplyPathKeepsBoard(s, q);
      ApplyKeepsBoard(ApplyPath(s, q).value, p[|p| - 1]);
    }
  }
}
