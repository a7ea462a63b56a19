/**
 * The square lattice of side L with periodic boundaries, stored row-major:
 * site (i, j) lives at flat index i * L + j of a sequence of L * L spins.
 */
module Lattice {

  /** A spin configuration: every cell is +1 or -1. */
  ghost predicate IsSpins(s: seq<int>)
  {
    forall k :: 0 <= k < |s| ==> s[k] == 1 || s[k] == -1
  }

  /**
   * Periodic boundary: one wrap-around step into [0, L).
   * An index at or above L is moved down by L, a negative one up by L.
   */
  function Bc(i: int, L: int): (r: int)
    ensures 0 <= i < L ==> r == i
    ensures -L <= i < 2 * L ==> 0 <= r < L || L <= 0
  {
    if i > L - 1 then i - L
    else if i < 0 then i + L
    else i
  }

  /** On the range the source uses, Bc agrees with the (Euclidean) remainder modulo L. */
  lemma BcIsMod(i: int, L: int)
    requires L > 0 && -L <= i < 2 * L
    ensures Bc(i, L) == i % L
  {
    if i >= L {
      assert i == 1 * L + (i - L);
    } else if i < 0 {
      assert i == -1 * L + (i + L);
    }
  }

  /** Stepping back and stepping forward undo each other on the periodic lattice. */
  lemma BcStepInverse(a: int, b: int, L: int)
    requires 0 <= a < L && 0 <= b < L
    ensures Bc(a - 1, L) == b <==> a == Bc(b + 1, L)
  {
  }

  /** With at least two rows, a neighbour one step away is never the site itself. */
  lemma BcStepMoves(a: int, L: int)
    requires L >= 2 && 0 <= a < L
    ensures Bc(a - 1, L) != a && Bc(a + 1, L) != a
  {
  }

  /** The flat row-major index of an in-range site is an in-range index. */
  lemma IndexInRange(L: nat, i: nat, j: nat)
    requires i < L && j < L
    ensures i * L + j < L * L
    ensures i * L + L <= L * L
  {
    MulAtMost(i + 1, L, L);
    assert (i + 1) * L == i * L + L;
  }

  /** Multiplication by a natural number is monotone. */
  lemma MulAtMost(a: nat, b: nat, k: nat)
    requires a <= b
    ensures a * k <= b * k
  {
    assert b * k - a * k == (b - a) * k;
  }

  /** Rows further down start at least one whole row later. */
  lemma RowGap(i: int, i': int, L: nat)
    requires i < i'
    ensures i' * L >= i * L + L
  {
    assert i' * L == i * L + (i' - i) * L;
    assert (i' - i) * L == (i' - i - 1) * L + L;
  }

  /** Distinct sites have distinct flat indices. */
  lemma IndexInjective(L: nat, i: nat, j: nat, i': nat, j': nat)
    requires i < L && j < L && i' < L && j' < L
    requires i * L + j == i' * L + j'
    ensures i == i' && j == j'
  {
    if i < i' {
      RowGap(i, i', L);
      assert false;
    } else if i' < i {
      RowGap(i', i, L);
      assert false;
    }
  }

  /**
   * The row-major position of site (i, j): i whole rows of L cells, then j more.
   * It is written by recursion on the row so that proofs about the lattice do not
   * have to reason about products; IdxIsRowMajor gives the closed form i * L + j
   * and IdxInRange the bound L * L.
   */
  function Idx(L: nat, i: nat, j: nat): nat
  {
    RowOffset(L, i) + j
  }

  /** Where row i starts: i whole rows of L cells. */
  function RowOffset(L: nat, i: nat): nat
  {
    if i == 0 then 0 else RowOffset(L, i - 1) + L
  }

  lemma {:induction false} RowOffsetIsProduct(L: nat, i: nat)
    ensures RowOffset(L, i) == i * L
  {
    if i > 0 {
      RowOffsetIsProduct(L, i - 1);
      assert i * L == (i - 1) * L + L;
    }
  }

  lemma IdxIsRowMajor(L: nat, i: nat, j: nat)
    ensures Idx(L, i, j) == i * L + j
  {
    RowOffsetIsProduct(L, i);
  }

  /** Two in-range sites share a position exactly when they are the same site. */
  lemma IdxInjective(L: nat, i: nat, j: nat, x: nat, y: nat)
    requires i < L && j < L && x < L && y < L
    ensures Idx(L, x, y) == Idx(L, i, j) <==> x == i && y == j
  {
    IdxIsRowMajor(L, i, j);
    IdxIsRowMajor(L, x, y);
    if Idx(L, x, y) == Idx(L, i, j) {
      IndexInjective(L, x, y, i, j);
    }
  }

  /** The position of an in-range site lies inside the lattice. */
  lemma IdxInRange(L: nat, i: nat, j: nat)
    requires i < L && j < L
    ensures Idx(L, i, j) < L * L
  {
    IdxIsRowMajor(L, i, j);
    IndexInRange(L, i, j);
  }

  /** The spin at site (i, j). */
  function Cell(s: seq<int>, L: nat, i: int, j: int): int
    requires |s| == L * L && 0 <= i < L && 0 <= j < L
  {
    IdxInRange(L, i, j);
    s[Idx(L, i, j)]
  }

  /** The four periodic neighbours of site (i, j), as the source reads them. */
  function Upper(s: seq<int>, L: nat, i: int, j: int): int
    requires |s| == L * L && 0 <= i < L && 0 <= j < L
  {
    Cell(s, L, Bc(i - 1, L), j)
  }

  function Lower(s: seq<int>, L: nat, i: int, j: int): int
    requires |s| == L * L && 0 <= i < L && 0 <= j < L
  {
    Cell(s, L, Bc(i + 1, L), j)
  }

  function Left(s: seq<int>, L: nat, i: int, j: int): int
    requires |s| == L * L && 0 <= i < L && 0 <= j < L
  {
    Cell(s, L, i, Bc(j - 1, L))
  }

  function Right(s: seq<int>, L: nat, i: int, j: int): int
    requires |s| == L * L && 0 <= i < L && 0 <= j < L
  {
    Cell(s, L, i, Bc(j + 1, L))
  }

  /**
   * The five cells the source reads around site (i, j), written with the
   * explicit row-major arithmetic, are in range and are the cells above.
   */
  lemma ReadSite(s: seq<int>, L: nat, i: nat, j: nat)
    requires |s| == L * L && i < L && j < L
    ensures 0 <= i * L + j < |s| && s[i * L + j] == Cell(s, L, i, j)
    ensures 0 <= Bc(i - 1, L) * L + j < |s| && s[Bc(i - 1, L) * L + j] == Upper(s, L, i, j)
    ensures 0 <= Bc(i + 1, L) * L + j < |s| && s[Bc(i + 1, L) * L + j] == Lower(s, L, i, j)
    ensures 0 <= i * L + Bc(j - 1, L) < |s| && s[i * L + Bc(j - 1, L)] == Left(s, L, i, j)
    ensures 0 <= i * L + Bc(j + 1, L) < |s| && s[i * L + Bc(j + 1, L)] == Right(s, L, i, j)
  {
    IndexInRange(L, i, j);
    IdxIsRowMajor(L, i, j);
    IndexInRange(L, Bc(i - 1, L), j);
    IdxIsRowMajor(L, Bc(i - 1, L), j);
    IndexInRange(L, Bc(i + 1, L), j);
    IdxIsRowMajor(L, Bc(i + 1, L), j);
    IndexInRange(L, i, Bc(j - 1, L));
    IdxIsRowMajor(L, i, Bc(j - 1, L));
    IndexInRange(L, i, Bc(j + 1, L));
    IdxIsRowMajor(L, i, Bc(j + 1, L));
  }
}
