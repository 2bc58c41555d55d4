/** Board states of the 8-puzzle: the nine cells of a 3x3 grid read row by
    row, cell `p` lying in row `p / 3` and column `p % 3`. */
module Board {

  /** Number of cells, and the width of a row. */
  const Cells := 9
  const Width := 3

  /** The blank is label 0; the tiles are the labels 1..8. */
  const Blank := 0

  type State = seq<int>

  /** A well-formed board: nine cells, each holding a label 0..8, and every
      label occurring exactly once, so the cells are a permutation of 0..8. */
  predicate IsBoard(s: State) {
    && |s| == Cells
    && (forall i :: 0 <= i < |s| ==> 0 <= s[i] < Cells)
    && (forall v :: 0 <= v < Cells ==> v in s && multiset(s)[v] == 1)
  }

  function Row(p: int): int { p / Width }

  function Col(p: int): int { p % Width }

  /** Python's `list.index`: the first position holding `v`. */
  function IndexOf(s: State, v: int): (k: nat)
    requires v in s
    ensures k < |s| && s[k] == v
    ensures forall j :: 0 <= j < k ==> s[j] != v
  {
    if s[0] == v then 0 else 1 + IndexOf(s[1..], v)
  }

  /** Exchanges the contents of cells `i` and `j`, leaving the rest alone. */
  function Swap(s: State, i: nat, j: nat): (r: State)
    requires i < |s| && j < |s|
    ensures |r| == |s| && r[i] == s[j] && r[j] == s[i]
    ensures forall k :: 0 <= k < |s| && k != i && k != j ==> r[k] == s[k]
  {
    s[i := s[j]][j := s[i]]
  }

  /** Swapping two cells keeps the multiset of labels. */
  lemma SwapSamePieces(s: State, i: nat, j: nat)
    requires i < |s| && j < |s|
    ensures multiset(Swap(s, i, j)) == multiset(s)
  {
  }

  lemma BoardCellInRange(s: State, i: int)
    requires IsBoard(s) && 0 <= i < |s|
    ensures 0 <= s[i] < Cells
  {
  }

  lemma BoardHasLabel(s: State, v: int)
    requires IsBoard(s) && 0 <= v < Cells
    ensures v in s
  {
  }

  /** No label occurs twice on a board. */
  lemma BoardDistinct(s: State, i: int, j: int)
    requires IsBoard(s) && 0 <= i < j < |s|
    ensures s[i] != s[j]
  {
    CountedOnce(s, i, j);
  }

  /** Rearranging the cells of a board yields a board. */
  lemma SamePieces(s: State, t: State)
    requires IsBoard(s) && |t| == Cells && multiset(t) == multiset(s)
    ensures IsBoard(t)
  {
    forall i | 0 <= i < |t|
      ensures 0 <= t[i] < Cells
    {
      assert t[i] in multiset(t);
      assert t[i] in s;
    }
    forall v | 0 <= v < Cells
      ensures v in t
    {
      assert v in multiset(s);
    }
  }

  /** A value that occurs at most once in a sequence is not repeated. */
  lemma CountedOnce<T>(s: seq<T>, i: int, j: int)
    requires 0 <= i < j < |s| && multiset(s)[s[i]] <= 1
    ensures s[i] != s[j]
  {
    var a, b := s[..j], s[j..];
    assert s == a + b;
    assert a[i] == s[i] && b[0] == s[j];
    assert multiset(s)[s[i]] == multiset(a)[s[i]] + multiset(b)[s[i]];
  }

  /** On a board the first position of a label is its only position. */
  lemma IndexOfBoard(s: State, k: int)
    requires IsBoard(s) && 0 <= k < |s|
    ensures IndexOf(s, s[k]) == k
  {
    var r := IndexOf(s, s[k]);
    if r < k {
      BoardDistinct(s, r, k);
    } else if r > k {
      BoardDistinct(s, k, r);
    }
  }

  /** Every sequence of length `n` over the labels 0..8: a finite set that
      contains every board, used to bound the searches. */
  function Words(n: nat): set<State>
  {
    if n == 0 then {[]}
    else set x: int, t: State | 0 <= x < Cells && t in Words(n - 1) :: [x] + t
  }

  lemma {:induction false} InWords(s: State)
    requires forall i :: 0 <= i < |s| ==> 0 <= s[i] < Cells
    ensures s in Words(|s|)
  {
    if |s| > 0 {
      InWords(s[1..]);
      assert s == [s[0]] + s[1..];
    }
  }

  /** All boards lie in one finite universe. */
  lemma BoardInWords(s: State)
    requires IsBoard(s)
    ensures s in Words(|s|)
  {
    forall i | 0 <= i < |s|
      ensures 0 <= s[i] < Cells
    {
      BoardCellInRange(s, i);
    }
    InWords(s);
  }
}
