/** Inversion counting (`is_solvable`) and the fact behind it: no legal move
    changes the parity of the inversion count. */
module Solvability {
  import opened Board
  import opened Moves

  /** `x` standing before `y` is an inversion: both are tiles and `x` is larger. */
  predicate Inverted(x: int, y: int) {
    x != Blank && y != Blank && x > y
  }

  /** How many entries of `r` the value `x`, standing before all of them, inverts with. */
  function Exceeded(x: int, r: seq<int>): nat {
    if |r| == 0 then 0 else (if Inverted(x, r[0]) then 1 else 0) + Exceeded(x, r[1..])
  }

  /** The number of index pairs `i < j` with `Inverted(s[i], s[j])`. */
  function Inversions(s: seq<int>): nat {
    if |s| == 0 then 0 else Exceeded(s[0], s[1..]) + Inversions(s[1..])
  }

  /** The tiles of `s`, in order, with the blanks dropped. */
  function NonZero(s: seq<int>): (r: seq<int>)
    ensures |r| <= |s|
    ensures Blank in s ==> |r| < |s|
    ensures Blank !in r
  {
    if |s| == 0 then [] else (if s[0] != Blank then [s[0]] else []) + NonZero(s[1..])
  }

  lemma {:induction false} ExceededSnoc(x: int, r: seq<int>, y: int)
    ensures Exceeded(x, r + [y]) == Exceeded(x, r) + (if Inverted(x, y) then 1 else 0)
  {
    if |r| > 0 {
      assert (r + [y])[1..] == r[1..] + [y];
      ExceededSnoc(x, r[1..], y);
    }
  }

  /** `is_solvable`: counts the inversions with the source's two nested loops
      and reports whether the count is even. */
  method IsSolvable(s: seq<int>) returns (solvable: bool, inversions: nat)
    ensures inversions == Inversions(s)
    ensures solvable <==> inversions % 2 == 0
    ensures |s| == Cells && Blank in s ==> inversions <= 28
  {
    inversions := 0;
    var i := 0;
    while i < |s|
      invariant 0 <= i <= |s|
      invariant inversions + Inversions(s[i..]) == Inversions(s)
    {
      var j := i + 1;
      while j < |s|
        invariant i + 1 <= j <= |s|
        invariant inversions + Inversions(s[i..]) == Inversions(s) + Exceeded(s[i], s[i + 1..j])
      {
        if s[i] != 0 && s[j] != 0 && s[i] > s[j] {
          inversions := inversions + 1;
        }
        assert s[i + 1..j + 1] == s[i + 1..j] + [s[j]];
        ExceededSnoc(s[i], s[i + 1..j], s[j]);
        j := j + 1;
      }
      assert s[i + 1..j] == s[i + 1..];
      assert s[i..][1..] == s[i + 1..] && s[i..][0] == s[i];
      i := i + 1;
    }
    assert s[0..] == s;
    if |s| == Cells && Blank in s {
      InversionsBound(s);
    }
    solvable := inversions % 2 == 0;
  }

  lemma {:induction false} ExceededAtMostTiles(x: int, r: seq<int>)
    ensures Exceeded(x, r) <= (if x == Blank then 0 else |NonZero(r)|)
  {
    if |r| > 0 {
      ExceededAtMostTiles(x, r[1..]);
    }
  }

  /** With `k` tiles there are at most k(k-1)/2 inversions. */
  lemma {:induction false} InversionsAtMostPairs(s: seq<int>)
    ensures 2 * Inversions(s) <= |NonZero(s)| * (|NonZero(s)| - 1)
  {
    if |s| > 0 {
      InversionsAtMostPairs(s[1..]);
      ExceededAtMostTiles(s[0], s[1..]);
      var n := |NonZero(s[1..])|;
      assert (n + 1) * n == n * (n - 1) + 2 * n;
    }
  }

  /** A nine-cell state with a blank has at most 8 * 7 / 2 = 28 inversions. */
  lemma InversionsBound(s: seq<int>)
    requires |s| == Cells && Blank in s
    ensures Inversions(s) <= 28
  {
    InversionsAtMostPairs(s);
    var k := |NonZero(s)|;
    assert k <= 8;
    assert k * (k - 1) <= 56 by {
      assert 0 <= k <= 8;
    }
  }

  // Parity: inversions only see the tiles, and a move either keeps the order
  // of the tiles or carries one tile past two others.

  lemma {:induction false} ExceededIgnoresBlanks(x: int, r: seq<int>)
    ensures Exceeded(x, r) == Exceeded(x, NonZero(r))
  {
    if |r| > 0 {
      ExceededIgnoresBlanks(x, r[1..]);
      if r[0] != Blank {
        assert ([r[0]] + NonZero(r[1..]))[1..] == NonZero(r[1..]);
      } else {
        assert NonZero(r) == NonZero(r[1..]);
      }
    }
  }

  lemma {:induction false} InversionsIgnoreBlanks(s: seq<int>)
    ensures Inversions(s) == Inversions(NonZero(s))
  {
    if |s| > 0 {
      InversionsIgnoreBlanks(s[1..]);
      ExceededIgnoresBlanks(s[0], s[1..]);
      ExceededAtMostTiles(s[0], s[1..]);
      if s[0] != Blank {
        assert ([s[0]] + NonZero(s[1..]))[1..] == NonZero(s[1..]);
      } else {
        assert NonZero(s) == NonZero(s[1..]);
      }
    }
  }

  lemma {:induction false} NonZeroConcat(a: seq<int>, b: seq<int>)
    ensures NonZero(a + b) == NonZero(a) + NonZero(b)
  {
    if |a| > 0 {
      assert (a + b)[1..] == a[1..] + b;
      NonZeroConcat(a[1..], b);
    } else {
      assert a + b == b;
    }
  }

  lemma {:induction false} ExceededConcat(x: int, a: seq<int>, b: seq<int>)
    ensures Exceeded(x, a + b) == Exceeded(x, a) + Exceeded(x, b)
  {
    if |a| > 0 {
      assert (a + b)[1..] == a[1..] + b;
      ExceededConcat(x, a[1..], b);
    } else {
      assert a + b == b;
    }
  }

  /** Inversions between a block `u` and a block `v` that follows it. */
  function Cross(u: seq<int>, v: seq<int>): nat {
    if |u| == 0 then 0 else Exceeded(u[0], v) + Cross(u[1..], v)
  }

  lemma {:induction false} InversionsConcat(u: seq<int>, v: seq<int>)
    ensures Inversions(u + v) == Inversions(u) + Inversions(v) + Cross(u, v)
  {
    if |u| > 0 {
      assert (u + v)[1..] == u[1..] + v;
      InversionsConcat(u[1..], v);
      ExceededConcat(u[0], u[1..], v);
    } else {
      assert u + v == v;
    }
  }

  lemma {:induction false} CrossConcat(u: seq<int>, v: seq<int>, w: seq<int>)
    ensures Cross(u, v + w) == Cross(u, v) + Cross(u, w)
  {
    if |u| > 0 {
      CrossConcat(u[1..], v, w);
      ExceededConcat(u[0], v, w);
    }
  }

  lemma ExceededTriple(p: int, t: int, x: int, y: int)
    ensures Exceeded(p, [t, x, y]) == Exceeded(p, [x, y, t])
  {
    ExceededConcat(p, [t], [x, y]);
    ExceededConcat(p, [x, y], [t]);
    assert [t, x, y] == [t] + [x, y];
    assert [x, y, t] == [x, y] + [t];
  }

  lemma {:induction false} CrossRotated(u: seq<int>, t: int, x: int, y: int)
    ensures Cross(u, [t, x, y]) == Cross(u, [x, y, t])
  {
    if |u| > 0 {
      CrossRotated(u[1..], t, x, y);
      ExceededTriple(u[0], t, x, y);
    } else {
      assert Cross(u, [t, x, y]) == 0 == Cross(u, [x, y, t]);
    }
  }

  lemma CrossTriple(t: int, x: int, y: int, q: seq<int>)
    ensures Cross([t, x, y], q) == Exceeded(t, q) + Exceeded(x, q) + Exceeded(y, q)
  {
    assert [t, x, y][1..] == [x, y];
    assert [x, y][1..] == [y];
    assert [y][1..] == [];
    assert Cross([y], q) == Exceeded(y, q) + Cross([], q);
    assert Cross([x, y], q) == Exceeded(x, q) + Cross([y], q);
  }

  lemma InversionsTriple(t: int, x: int, y: int)
    ensures Inversions([t, x, y]) == Exceeded(t, [x, y]) + Exceeded(x, [y])
  {
    assert [t, x, y][1..] == [x, y];
    assert [x, y][1..] == [y];
    assert [y][1..] == [];
    assert Inversions([y]) == Exceeded(y, []) + Inversions([]) == 0;
    assert Inversions([x, y]) == Exceeded(x, [y]) + Inversions([y]);
  }

  lemma ExceededPair(p: int, a: int, b: int)
    ensures Exceeded(p, [b]) == One(Inverted(p, b))
    ensures Exceeded(p, [a, b]) == One(Inverted(p, a)) + One(Inverted(p, b))
  {
    assert [b][1..] == [];
    assert Exceeded(p, [b]) == One(Inverted(p, b)) + Exceeded(p, []);
    assert [a, b][1..] == [b];
    assert Exceeded(p, [a, b]) == One(Inverted(p, a)) + Exceeded(p, [b]);
  }

  /** The inversions of three consecutive blocks. */
  lemma SplitThree(p: seq<int>, m: seq<int>, q: seq<int>)
    ensures Inversions(p + m + q)
            == Inversions(p) + Inversions(m) + Inversions(q) + Cross(p, m) + Cross(p, q) + Cross(m, q)
  {
    assert p + m + q == p + (m + q);
    InversionsConcat(p, m + q);
    InversionsConcat(m, q);
    CrossConcat(p, m, q);
  }

  /** Among three distinct tiles, rotating the first to the back flips two
      of the three pairs. */
  lemma TripleParity(t: int, x: int, y: int)
    requires t != Blank && x != Blank && y != Blank && t != x && t != y
    ensures Inversions([t, x, y]) % 2 == Inversions([x, y, t]) % 2
  {
    InversionsTriple(t, x, y);
    InversionsTriple(x, y, t);
    ExceededPair(t, x, y);
    ExceededPair(x, y, t);
    ExceededPair(y, t, t);
    assert One(Inverted(t, x)) + One(Inverted(x, t)) == 1;
    assert One(Inverted(t, y)) + One(Inverted(y, t)) == 1;
  }

  lemma CrossTripleRotated(t: int, x: int, y: int, q: seq<int>)
    ensures Cross([t, x, y], q) == Cross([x, y, t], q)
  {
    CrossTriple(t, x, y, q);
    CrossTriple(x, y, t, q);
  }

  /** Carrying the tile `t` past the two tiles `x` and `y` flips exactly two
      pairs, so the parity of the inversion count survives. */
  lemma RotationParity(p: seq<int>, q: seq<int>, t: int, x: int, y: int)
    requires t != Blank && x != Blank && y != Blank && t != x && t != y
    ensures Inversions(p + [t, x, y] + q) % 2 == Inversions(p + [x, y, t] + q) % 2
  {
    SplitThree(p, [t, x, y], q);
    SplitThree(p, [x, y, t], q);
    CrossRotated(p, t, x, y);
    CrossTripleRotated(t, x, y, q);
    TripleParity(t, x, y);
  }

  /** Swapping the blank with the cell next to it keeps the tiles' order. */
  lemma AdjacentSwap(s: seq<int>, i: nat)
    requires i + 1 < |s| && (s[i] == Blank || s[i + 1] == Blank)
    ensures Inversions(Swap(s, i, i + 1)) == Inversions(s)
  {
    var a, b := s[..i], s[i + 2..];
    var s' := Swap(s, i, i + 1);
    assert s == a + [s[i], s[i + 1]] + b;
    assert s' == a + [s[i + 1], s[i]] + b;
    NonZeroConcat(a + [s[i], s[i + 1]], b);
    NonZeroConcat(a, [s[i], s[i + 1]]);
    NonZeroConcat(a + [s[i + 1], s[i]], b);
    NonZeroConcat(a, [s[i + 1], s[i]]);
    assert NonZero([s[i], s[i + 1]]) == NonZero([s[i + 1], s[i]]) by {
      assert [s[i], s[i + 1]][1..] == [s[i + 1]];
      assert [s[i + 1], s[i]][1..] == [s[i]];
    }
    InversionsIgnoreBlanks(s);
    InversionsIgnoreBlanks(s');
  }

  lemma NonZeroThree(a: seq<int>, m: seq<int>, b: seq<int>)
    ensures NonZero(a + m + b) == NonZero(a) + NonZero(m) + NonZero(b)
  {
    NonZeroConcat(a + m, b);
    NonZeroConcat(a, m);
  }

  lemma NonZeroBlankLast(w: int, x: int, y: int)
    requires w != Blank && x != Blank && y != Blank
    ensures NonZero([w, x, y, Blank]) == [w, x, y]
  {
    assert [w, x, y, Blank][1..] == [x, y, Blank];
    assert [x, y, Blank][1..] == [y, Blank];
    assert [y, Blank][1..] == [Blank];
    assert [Blank][1..] == [];
    assert NonZero([Blank]) == [];
    assert NonZero([y, Blank]) == [y];
    assert NonZero([x, y, Blank]) == [x, y];
  }

  lemma NonZeroBlankFirst(w: int, x: int, y: int)
    requires w != Blank && x != Blank && y != Blank
    ensures NonZero([Blank, x, y, w]) == [x, y, w]
  {
    assert [Blank, x, y, w][1..] == [x, y, w];
    assert [x, y, w][1..] == [y, w];
    assert [y, w][1..] == [w];
    assert [w][1..] == [];
    assert NonZero([w]) == [w];
    assert NonZero([y, w]) == [y, w];
    assert NonZero([x, y, w]) == [x, y, w];
  }

  /** A tile `w` and the blank trading places across the tiles `x` and `y`. */
  lemma BlankCrossing(a: seq<int>, b: seq<int>, w: int, x: int, y: int)
    requires w != Blank && x != Blank && y != Blank && w != x && w != y
    ensures Inversions(a + [w, x, y, Blank] + b) % 2 == Inversions(a + [Blank, x, y, w] + b) % 2
  {
    NonZeroThree(a, [w, x, y, Blank], b);
    NonZeroThree(a, [Blank, x, y, w], b);
    NonZeroBlankLast(w, x, y);
    NonZeroBlankFirst(w, x, y);
    InversionsIgnoreBlanks(a + [w, x, y, Blank] + b);
    InversionsIgnoreBlanks(a + [Blank, x, y, w] + b);
    RotationParity(NonZero(a), NonZero(b), w, x, y);
  }

  /** Swapping the blank with the cell three places away (one row up or
      down) carries one tile past the two tiles between them. */
  lemma VerticalSwap(s: seq<int>, i: nat)
    requires i + 3 < |s|
    requires (s[i] == Blank) != (s[i + 3] == Blank)
    requires s[i + 1] != Blank && s[i + 2] != Blank
    requires s[i] != s[i + 1] && s[i] != s[i + 2] && s[i + 3] != s[i + 1] && s[i + 3] != s[i + 2]
    ensures Inversions(Swap(s, i, i + 3)) % 2 == Inversions(s) % 2
  {
    var a, b := s[..i], s[i + 4..];
    var w, x, y, z := s[i], s[i + 1], s[i + 2], s[i + 3];
    assert s == a + [w, x, y, z] + b;
    assert Swap(s, i, i + 3) == a + [z, x, y, w] + b;
    if z == Blank {
      BlankCrossing(a, b, w, x, y);
    } else {
      BlankCrossing(a, b, z, x, y);
    }
  }

  lemma SwapSymmetric(s: seq<int>, i: nat, j: nat)
    requires i < |s| && j < |s|
    ensures Swap(s, i, j) == Swap(s, j, i)
  {
  }

  /** The blank at `b` trading places with the tile three cells earlier. */
  lemma BlankUpParity(s: State, b: nat)
    requires IsBoard(s) && 3 <= b < |s| && s[b] == Blank
    ensures Inversions(Swap(s, b, b - 3)) % 2 == Inversions(s) % 2
  {
    var n := b - 3;
    SwapSymmetric(s, b, n);
    BoardDistinct(s, n, n + 1);
    BoardDistinct(s, n, n + 2);
    BoardDistinct(s, n + 1, b);
    BoardDistinct(s, n + 2, b);
    BoardDistinct(s, n, b);
    VerticalSwap(s, n);
  }

  /** The blank at `b` trading places with the tile three cells later. */
  lemma BlankDownParity(s: State, b: nat)
    requires IsBoard(s) && b + 3 < |s| && s[b] == Blank
    ensures Inversions(Swap(s, b, b + 3)) % 2 == Inversions(s) % 2
  {
    var n := b + 3;
    BoardDistinct(s, b, b + 1);
    BoardDistinct(s, b, b + 2);
    BoardDistinct(s, b + 1, n);
    BoardDistinct(s, b + 2, n);
    BoardDistinct(s, b, n);
    VerticalSwap(s, b);
  }

  lemma BlankLeftParity(s: seq<int>, b: nat)
    requires 1 <= b < |s| && s[b] == Blank
    ensures Inversions(Swap(s, b, b - 1)) % 2 == Inversions(s) % 2
  {
    SwapSymmetric(s, b, b - 1);
    AdjacentSwap(s, b - 1);
  }

  lemma BlankRightParity(s: seq<int>, b: nat)
    requires b + 1 < |s| && s[b] == Blank
    ensures Inversions(Swap(s, b, b + 1)) % 2 == Inversions(s) % 2
  {
    AdjacentSwap(s, b);
  }

  /** Every legal move keeps the parity of the inversion count. */
  lemma MovePreservesParity(s: State, m: Move)
    requires IsBoard(s) && Apply(s, m).Some?
    ensures Inversions(Apply(s, m).value) % 2 == Inversions(s) % 2
  {
    var b := IndexOf(s, Blank);
    assert Apply(s, m).value == Swap(s, b, Neighbour(b, m));
    match m
    case Left =>
      assert b != 0;
      BlankLeftParity(s, b);
    case Right =>
      assert b != 8;
      BlankRightParity(s, b);
    case Up => BlankUpParity(s, b);
    case Down => BlankDownParity(s, b);
  }

  /** Hence no sequence of moves links boards of different inversion parity. */
  lemma {:induction false} PathPreservesParity(s: State, p: seq<Move>)
    requires IsBoard(s) && ApplyPath(s, p).Some?
    ensures Inversions(ApplyPath(s, p).value) % 2 == Inversions(s) % 2
    decreases |p|
  {
    if p != [] {
      var q := p[..|p| - 1];
      PathPreservesParity(s, q);
      var t := ApplyPath(s, q).value;
      ApplyPathKeepsBoard(s, q);
      MovePreservesParity(t, p[|p| - 1]);
    }
  }
}
