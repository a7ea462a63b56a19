/**
 * The energy model of the Ising Hamiltonian H = -J * sum over nearest-neighbour
 * pairs of s_a * s_b, and the total magnetisation, on the periodic L x L lattice.
 */
module Hamiltonian {
  import opened Lattice

  /** Energy of the bonds of one site with its four neighbours (not halved). */
  function CentreEnergy(centre: int, upper: int, lower: int, left: int, right: int, J: real): real
  {
    -J * (centre as real) * ((upper + lower + left + right) as real)
  }

  /** The local energy is odd in the centre spin. */
  lemma CentreEnergyOdd(centre: int, upper: int, lower: int, left: int, right: int, J: real)
    ensures CentreEnergy(-centre, upper, lower, left, right, J)
         == -CentreEnergy(centre, upper, lower, left, right, J)
  {
  }

  /** Negating the centre and all four neighbours leaves the local energy unchanged. */
  lemma CentreEnergyEven(centre: int, upper: int, lower: int, left: int, right: int, J: real)
    ensures CentreEnergy(-centre, -upper, -lower, -left, -right, J)
         == CentreEnergy(centre, upper, lower, left, right, J)
  {
    assert (-upper + -lower + -left + -right) as real == -((upper + lower + left + right) as real);
  }

  // ---------------------------------------------------------------------
  // Whole-lattice energy, summed in the order of the source's nested loops

  /** The local energy of site (i, j), read through the periodic boundary. */
  function SiteEnergy(s: seq<int>, L: nat, J: real, i: nat, j: nat): real
    requires |s| == L * L && i < L && j < L
  {
    CentreEnergy(Cell(s, L, i, j), Upper(s, L, i, j), Lower(s, L, i, j),
                 Left(s, L, i, j), Right(s, L, i, j), J)
  }

  /** Local energies of the first n sites of row i. */
  function RowEnergy(s: seq<int>, L: nat, J: real, i: nat, n: nat): real
    requires |s| == L * L && i < L && n <= L
  {
    if n == 0 then 0.0 else RowEnergy(s, L, J, i, n - 1) + SiteEnergy(s, L, J, i, n - 1)
  }

  /** Local energies of every site of the first m rows. */
  function RowsEnergy(s: seq<int>, L: nat, J: real, m: nat): real
    requires |s| == L * L && m <= L
  {
    if m == 0 then 0.0 else RowsEnergy(s, L, J, m - 1) + RowEnergy(s, L, J, m - 1, L)
  }

  /**
   * The total energy: the sum of all local energies, halved because the
   * per-site sum sees every bond from both of its ends.
   */
  function Energy(s: seq<int>, L: nat, J: real): real
    requires |s| == L * L
  {
    0.5 * RowsEnergy(s, L, J, L)
  }

  lemma {:induction false} RowEnergyZeroCoupling(s: seq<int>, L: nat, i: nat, n: nat)
    requires |s| == L * L && i < L && n <= L
    ensures RowEnergy(s, L, 0.0, i, n) == 0.0
  {
    if n > 0 {
      RowEnergyZeroCoupling(s, L, i, n - 1);
    }
  }

  lemma {:induction false} RowsEnergyZeroCoupling(s: seq<int>, L: nat, m: nat)
    requires |s| == L * L && m <= L
    ensures RowsEnergy(s, L, 0.0, m) == 0.0
  {
    if m > 0 {
      RowsEnergyZeroCoupling(s, L, m - 1);
      RowEnergyZeroCoupling(s, L, m - 1, L);
    }
  }

  /** With zero coupling every configuration has zero energy. */
  lemma ZeroCouplingEnergy(s: seq<int>, L: nat)
    requires |s| == L * L
    ensures Energy(s, L, 0.0) == 0.0
  {
    RowsEnergyZeroCoupling(s, L, L);
  }

  // ---------------------------------------------------------------------
  // The energy bound

  /** The size of a coupling. */
  function Abs(x: real): (r: real)
    ensures r >= 0.0 && (r == x || r == -x)
  {
    if x < 0.0 then -x else x
  }

  /** With ±1 spins, the four bonds of a site contribute at most |J| each to its local energy. */
  lemma CentreEnergyBound(centre: int, upper: int, lower: int, left: int, right: int, J: real)
    requires centre == 1 || centre == -1
    requires -4 <= upper + lower + left + right <= 4
    ensures -4.0 * Abs(J) <= CentreEnergy(centre, upper, lower, left, right, J) <= 4.0 * Abs(J)
  {
    var x := (upper + lower + left + right) as real;
    var a := Abs(J);
    ProductNonNegative(a, 4.0 - x);
    ProductNonNegative(a, x + 4.0);
    assert -4.0 * a <= J * x <= 4.0 * a;
  }

  /** The local energy of a site of a spin configuration lies in [-4|J|, 4|J|]. */
  lemma SiteEnergyBound(s: seq<int>, L: nat, J: real, i: nat, j: nat)
    requires |s| == L * L && i < L && j < L && IsSpins(s)
    ensures -4.0 * Abs(J) <= SiteEnergy(s, L, J, i, j) <= 4.0 * Abs(J)
  {
    IdxInRange(L, i, j);
    IdxInRange(L, Bc(i - 1, L), j);
    IdxInRange(L, Bc(i + 1, L), j);
    IdxInRange(L, i, Bc(j - 1, L));
    IdxInRange(L, i, Bc(j + 1, L));
    CentreEnergyBound(Cell(s, L, i, j), Upper(s, L, i, j), Lower(s, L, i, j),
                      Left(s, L, i, j), Right(s, L, i, j), J);
  }

  /** A product of two non-negative reals is non-negative. */
  lemma ProductNonNegative(a: real, b: real)
    requires a >= 0.0 && b >= 0.0
    ensures a * b >= 0.0
  {
  }

  /** k * b, written as k additions of b so that the sums over the lattice stay linear. */
  function Times(k: nat, b: real): real
  {
    if k == 0 then 0.0 else Times(k - 1, b) + b
  }

  lemma {:induction false} TimesIsProduct(k: nat, b: real)
    ensures Times(k, b) == (k as real) * b
  {
    if k > 0 {
      TimesIsProduct(k - 1, b);
      assert (k as real) * b == ((k - 1) as real) * b + b;
    }
  }

  /** The first n sites of a row contribute at most 4|J| each. */
  lemma {:induction false} RowEnergyBound(s: seq<int>, L: nat, J: real, i: nat, n: nat)
    requires |s| == L * L && i < L && n <= L && IsSpins(s)
    ensures -Times(n, 4.0 * Abs(J)) <= RowEnergy(s, L, J, i, n) <= Times(n, 4.0 * Abs(J))
  {
    if n > 0 {
      RowEnergyBound(s, L, J, i, n - 1);
      SiteEnergyBound(s, L, J, i, n - 1);
    }
  }

  /** The first m rows contribute at most 4|J| per site. */
  lemma {:induction false} RowsEnergyBound(s: seq<int>, L: nat, J: real, m: nat)
    requires |s| == L * L && m <= L && IsSpins(s)
    ensures -Times(m, Times(L, 4.0 * Abs(J))) <= RowsEnergy(s, L, J, m) <= Times(m, Times(L, 4.0 * Abs(J)))
  {
    if m > 0 {
      RowsEnergyBound(s, L, J, m - 1);
      RowEnergyBound(s, L, J, m - 1, L);
    }
  }

  /**
   * The total energy of a configuration of N spins lies in [-2|J|N, 2|J|N]
   * (Times(N, b) is N * b, by TimesIsProduct).
   */
  lemma EnergyBound(s: seq<int>, L: nat, J: real)
    requires |s| == L * L && IsSpins(s)
    ensures -Times(|s|, 2.0 * Abs(J)) <= Energy(s, L, J) <= Times(|s|, 2.0 * Abs(J))
  {
    RowsEnergyBound(s, L, J, L);
    TimesSquare(L, |s|, Abs(J));
  }

  /** L rows of L sites at 4a each come to twice N sites at 2a each, for N = L * L. */
  lemma TimesSquare(L: nat, n: nat, a: real)
    requires n == L * L
    ensures Times(L, Times(L, 4.0 * a)) == 2.0 * Times(n, 2.0 * a)
  {
    TimesIsProduct(L, 4.0 * a);
    TimesIsProduct(L, Times(L, 4.0 * a));
    TimesIsProduct(n, 2.0 * a);
    assert (n as real) == (L as real) * (L as real);
  }

  // ---------------------------------------------------------------------
  // Global spin reversal

  /** Every spin negated. */
  function Negated(s: seq<int>): seq<int>
  {
    seq(|s|, k requires 0 <= k < |s| => -s[k])
  }

  lemma CellNegated(s: seq<int>, L: nat, i: nat, j: nat)
    requires |s| == L * L && i < L && j < L
    ensures Cell(Negated(s), L, i, j) == -Cell(s, L, i, j)
  {
    IdxInRange(L, i, j);
  }

  lemma SiteEnergyNegated(s: seq<int>, L: nat, J: real, i: nat, j: nat)
    requires |s| == L * L && i < L && j < L
    ensures SiteEnergy(Negated(s), L, J, i, j) == SiteEnergy(s, L, J, i, j)
  {
    CellNegated(s, L, i, j);
    CellNegated(s, L, Bc(i - 1, L), j);
    CellNegated(s, L, Bc(i + 1, L), j);
    CellNegated(s, L, i, Bc(j - 1, L));
    CellNegated(s, L, i, Bc(j + 1, L));
    CentreEnergyEven(Cell(s, L, i, j), Upper(s, L, i, j), Lower(s, L, i, j),
                     Left(s, L, i, j), Right(s, L, i, j), J);
  }

  lemma {:induction false} RowEnergyNegated(s: seq<int>, L: nat, J: real, i: nat, n: nat)
    requires |s| == L * L && i < L && n <= L
    ensures RowEnergy(Negated(s), L, J, i, n) == RowEnergy(s, L, J, i, n)
  {
    if n > 0 {
      RowEnergyNegated(s, L, J, i, n - 1);
      SiteEnergyNegated(s, L, J, i, n - 1);
    }
  }

  lemma {:induction false} RowsEnergyNegated(s: seq<int>, L: nat, J: real, m: nat)
    requires |s| == L * L && m <= L
    ensures RowsEnergy(Negated(s), L, J, m) == RowsEnergy(s, L, J, m)
  {
    if m > 0 {
      RowsEnergyNegated(s, L, J, m - 1);
      RowEnergyNegated(s, L, J, m - 1, L);
    }
  }

  /** Reversing every spin leaves the total energy unchanged. */
  lemma EnergyGlobalFlip(s: seq<int>, L: nat, J: real)
    requires |s| == L * L
    ensures Energy(Negated(s), L, J) == Energy(s, L, J)
  {
    RowsEnergyNegated(s, L, J, L);
  }

  // ---------------------------------------------------------------------
  // Magnetisation

  /** The sum of all spins, taken in index order. */
  function Magnetization(s: seq<int>): int
  {
    if |s| == 0 then 0 else Magnetization(s[..|s| - 1]) + s[|s| - 1]
  }

  /** A sum over a prefix grows by the next cell. */
  lemma MagnetizationSnoc(s: seq<int>, k: nat)
    requires k < |s|
    ensures Magnetization(s[..k + 1]) == Magnetization(s[..k]) + s[k]
  {
    assert s[..k + 1][..k] == s[..k];
  }

  /** For a +-1 configuration the magnetisation lies in [-n, n] and has the parity of n. */
  lemma {:induction false} MagnetizationBounds(s: seq<int>)
    requires IsSpins(s)
    ensures -|s| <= Magnetization(s) <= |s|
    ensures (Magnetization(s) + |s|) % 2 == 0
  {
    if |s| > 0 {
      var t := s[..|s| - 1];
      assert IsSpins(t) by {
        forall k | 0 <= k < |t| ensures t[k] == 1 || t[k] == -1 {
          assert t[k] == s[k];
        }
      }
      MagnetizationBounds(t);
    }
  }

  /** Replacing one cell changes the magnetisation by the difference of the values. */
  lemma {:induction false} MagnetizationUpdate(s: seq<int>, k: nat, v: int)
    requires k < |s|
    ensures Magnetization(s[k := v]) == Magnetization(s) - s[k] + v
  {
    var n := |s| - 1;
    if k == n {
      assert s[k := v][..n] == s[..n];
    } else {
      assert s[k := v][..n] == s[..n][k := v];
      MagnetizationUpdate(s[..n], k, v);
    }
  }

  // ---------------------------------------------------------------------
  // The source's two whole-lattice loops

  /** Sums every cell of the L x L lattice, row by row. */
  method TotalMagnetization(spins: array<int>, L: nat) returns (magTot: int)
    requires spins.Length == L * L
    ensures magTot == Magnetization(spins[..])
  {
    ghost var s := spins[..];
    magTot := 0;
    var i := 0;
    while i < L
      invariant 0 <= i <= L
      invariant RowOffset(L, i) <= |s|
      invariant magTot == Magnetization(s[..RowOffset(L, i)])
    {
      var j := 0;
      while j < L
        invariant 0 <= j <= L
        invariant RowOffset(L, i) + j <= |s|
        invariant magTot == Magnetization(s[..RowOffset(L, i) + j])
      {
        PrefixStep(s, L, i, j);
        magTot := magTot + spins[i * L + j];
        j := j + 1;
      }
      i := i + 1;
    }
    RowOffsetIsProduct(L, L);
    assert s[..RowOffset(L, L)] == s;
  }

  /** One more cell of the row-major prefix, read at the source's flat index. */
  lemma PrefixStep(s: seq<int>, L: nat, i: nat, j: nat)
    requires |s| == L * L && i < L && j < L
    ensures 0 <= i * L + j < |s| && RowOffset(L, i) + j + 1 <= |s|
    ensures Magnetization(s[..RowOffset(L, i) + j + 1])
         == Magnetization(s[..RowOffset(L, i) + j]) + s[i * L + j]
  {
    IndexInRange(L, i, j);
    IdxIsRowMajor(L, i, j);
    MagnetizationSnoc(s, RowOffset(L, i) + j);
  }

  /** Reads the spin at (i, j) and its four periodic neighbours, as the source does before every local energy. */
  method ReadNeighbourhood(spins: array<int>, L: nat, i: nat, j: nat)
      returns (centre: int, upper: int, lower: int, left: int, right: int)
    requires spins.Length == L * L && i < L && j < L
    ensures centre == Cell(spins[..], L, i, j)
    ensures upper == Upper(spins[..], L, i, j) && lower == Lower(spins[..], L, i, j)
    ensures left == Left(spins[..], L, i, j) && right == Right(spins[..], L, i, j)
  {
    ReadSite(spins[..], L, i, j);
    centre := spins[i * L + j];
    upper := spins[Bc(i - 1, L) * L + j];
    lower := spins[Bc(i + 1, L) * L + j];
    left := spins[i * L + Bc(j - 1, L)];
    right := spins[i * L + Bc(j + 1, L)];
  }

  /** Sums the local energy of every site, row by row, and halves the sum. */
  method TotalEnergy(spins: array<int>, L: nat, J: real) returns (engTot: real)
    requires spins.Length == L * L
    ensures engTot == Energy(spins[..], L, J)
  {
    ghost var s := spins[..];
    engTot := 0.0;
    var i := 0;
    while i < L
      invariant 0 <= i <= L
      invariant engTot == RowsEnergy(s, L, J, i)
    {
      var j := 0;
      while j < L
        invariant 0 <= j <= L
        invariant engTot == RowsEnergy(s, L, J, i) + RowEnergy(s, L, J, i, j)
      {
        var centre, upper, lower, left, right := ReadNeighbourhood(spins, L, i, j);
        var e := CentreEnergy(centre, upper, lower, left, right, J);
        assert e == SiteEnergy(s, L, J, i, j);
        engTot := engTot + e;
        j := j + 1;
      }
      i := i + 1;
    }
    engTot := 0.5 * engTot;
  }
}
