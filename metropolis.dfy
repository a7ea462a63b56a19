/**
 * One Metropolis move and the random initial configuration.
 *
 * The random numbers the program draws are inputs here: a move is the two
 * draws that choose the site and the outcome of the acceptance test
 * `uniform <= exp(-dE / T)`, which the program consults only when the move
 * does not lower the energy.
 */
module Metropolis {
  import opened Lattice
  import opened Hamiltonian

  // ---------------------------------------------------------------------
  // Initialisation

  /** The spin made from one draw: an even draw gives -1, an odd one +1. */
  function InitSpin(draw: nat): (v: int)
    ensures v == 1 || v == -1
    ensures v == 1 <==> draw % 2 == 1
  {
    if draw % 2 == 0 then -1 else 1
  }

  /** The configuration made from one draw per cell, taken in row-major order. */
  function InitialSpins(draws: seq<nat>): (s: seq<int>)
    ensures |s| == |draws|
    ensures forall k :: 0 <= k < |s| ==> s[k] == InitSpin(draws[k])
  {
    seq(|draws|, k requires 0 <= k < |draws| => InitSpin(draws[k]))
  }

  /** Every initial configuration is a spin configuration. */
  lemma InitialSpinsAreSpins(draws: seq<nat>)
    ensures IsSpins(InitialSpins(draws))
  {
    var s := InitialSpins(draws);
    forall k | 0 <= k < |s| ensures s[k] == 1 || s[k] == -1 {
      assert s[k] == InitSpin(draws[k]);
    }
  }

  /** Fills the lattice row by row, one draw per cell. */
  method Initialization(spins: array<int>, L: nat, draws: seq<nat>)
    requires spins.Length == L * L && |draws| == L * L
    modifies spins
    ensures spins[..] == InitialSpins(draws)
  {
    var i := 0;
    while i < L
      invariant 0 <= i <= L
      invariant RowOffset(L, i) <= L * L
      invariant forall k :: 0 <= k < RowOffset(L, i) ==> spins[k] == InitSpin(draws[k])
    {
      var j := 0;
      while j < L
        invariant 0 <= j <= L
        invariant RowOffset(L, i) + j <= L * L
        invariant forall k :: 0 <= k < RowOffset(L, i) + j ==> spins[k] == InitSpin(draws[k])
      {
        IndexInRange(L, i, j);
        IdxIsRowMajor(L, i, j);
        spins[i * L + j] := draws[i * L + j] % 2;
        if spins[i * L + j] == 0 {
          spins[i * L + j] := -1;
        }
        j := j + 1;
      }
      i := i + 1;
    }
    RowOffsetIsProduct(L, L);
  }

  // ---------------------------------------------------------------------
  // Flipping one spin

  /** The configuration with the spin at (i, j) reversed. */
  function Flip(s: seq<int>, L: nat, i: nat, j: nat): (r: seq<int>)
    requires |s| == L * L && i < L && j < L
    ensures |r| == |s|
  {
    IdxInRange(L, i, j);
    s[Idx(L, i, j) := -Cell(s, L, i, j)]
  }

  /** The change of local energy the program computes for reversing the spin at (i, j). */
  function FlipDelta(s: seq<int>, L: nat, J: real, i: nat, j: nat): real
    requires |s| == L * L && i < L && j < L
  {
    CentreEnergy(-1 * Cell(s, L, i, j), Upper(s, L, i, j), Lower(s, L, i, j),
                 Left(s, L, i, j), Right(s, L, i, j), J)
    - CentreEnergy(Cell(s, L, i, j), Upper(s, L, i, j), Lower(s, L, i, j),
                   Left(s, L, i, j), Right(s, L, i, j), J)
  }

  /** The random input of one move: two site draws and the outcome of the acceptance test. */
  datatype Move = Move(rowDraw: nat, colDraw: nat, accept: bool)

  function Row(m: Move, L: nat): (i: nat)
    requires L > 0
    ensures i < L
  {
    m.rowDraw % L
  }

  function Col(m: Move, L: nat): (j: nat)
    requires L > 0
    ensures j < L
  {
    m.colDraw % L
  }

  /** A move is taken when it lowers the energy, and otherwise when the acceptance test succeeds. */
  predicate Accepted(s: seq<int>, L: nat, J: real, m: Move)
    requires L > 0 && |s| == L * L
  {
    FlipDelta(s, L, J, Row(m, L), Col(m, L)) < 0.0 || m.accept
  }

  /** The configuration after one move. */
  function Step(s: seq<int>, L: nat, J: real, m: Move): (r: seq<int>)
    requires L > 0 && |s| == L * L
    ensures |r| == |s|
  {
    if Accepted(s, L, J, m) then Flip(s, L, Row(m, L), Col(m, L)) else s
  }

  /** The energy change one move reports: the flip's change if taken, else zero. */
  function StepEnergyDelta(s: seq<int>, L: nat, J: real, m: Move): real
    requires L > 0 && |s| == L * L
  {
    if Accepted(s, L, J, m) then FlipDelta(s, L, J, Row(m, L), Col(m, L)) else 0.0
  }

  /** The magnetisation change one move reports: minus twice the old spin if taken, else zero. */
  function StepMagDelta(s: seq<int>, L: nat, J: real, m: Move): int
    requires L > 0 && |s| == L * L
  {
    if Accepted(s, L, J, m) then -2 * Cell(s, L, Row(m, L), Col(m, L)) else 0
  }

  /**
   * Picks a site from the move's draws, computes the energy and magnetisation
   * change of reversing its spin, and reverses it when the move is accepted;
   * a rejected move reports zero changes.
   */
  method SpinFlip(spins: array<int>, L: nat, J: real, m: Move) returns (dE: real, dM: int)
    requires L > 0 && spins.Length == L * L
    modifies spins
    ensures spins[..] == Step(old(spins[..]), L, J, m)
    ensures dE == StepEnergyDelta(old(spins[..]), L, J, m)
    ensures dM == StepMagDelta(old(spins[..]), L, J, m)
  {
    ghost var s := spins[..];
    var i := m.rowDraw % L;
    var j := m.colDraw % L;
    var centre, upper, lower, left, right := ReadNeighbourhood(spins, L, i, j);
    var flipped := CentreEnergy(-1 * centre, upper, lower, left, right, J);
    var current := CentreEnergy(centre, upper, lower, left, right, J);
    dE := flipped - current;
    assert dE == FlipDelta(s, L, J, i, j);
    dM := -2 * centre;
    ReadSite(s, L, i, j);
    IdxIsRowMajor(L, i, j);
    if dE < 0.0 {
      spins[i * L + j] := -1 * spins[i * L + j];
    } else if m.accept {
      spins[i * L + j] := -1 * spins[i * L + j];
    } else {
      dE := 0.0;
      dM := 0;
    }
  }

  // ---------------------------------------------------------------------
  // Properties of a flip

  /** Reversing a spin keeps a spin configuration one. */
  lemma FlipKeepsSpins(s: seq<int>, L: nat, i: nat, j: nat)
    requires |s| == L * L && i < L && j < L && IsSpins(s)
    ensures IsSpins(Flip(s, L, i, j))
  {
    var r := Flip(s, L, i, j);
    forall k | 0 <= k < |r| ensures r[k] == 1 || r[k] == -1 {
      if k != Idx(L, i, j) {
        assert r[k] == s[k];
      }
    }
  }

  /** A move keeps a spin configuration one. */
  lemma StepKeepsSpins(s: seq<int>, L: nat, J: real, m: Move)
    requires L > 0 && |s| == L * L && IsSpins(s)
    ensures IsSpins(Step(s, L, J, m))
  {
    if Accepted(s, L, J, m) {
      FlipKeepsSpins(s, L, Row(m, L), Col(m, L));
    }
  }

  /** Reversing a spin twice restores the configuration. */
  lemma FlipInvolution(s: seq<int>, L: nat, i: nat, j: nat)
    requires |s| == L * L && i < L && j < L
    ensures Flip(Flip(s, L, i, j), L, i, j) == s
  {
    var k := Idx(L, i, j);
    IdxInRange(L, i, j);
    assert Flip(s, L, i, j)[k] == -s[k];
  }

  /** After reversing (i, j), exactly the cell (i, j) reads differently. */
  lemma FlipCell(s: seq<int>, L: nat, i: nat, j: nat, x: nat, y: nat)
    requires |s| == L * L && i < L && j < L && x < L && y < L
    ensures Cell(Flip(s, L, i, j), L, x, y)
         == if x == i && y == j then -Cell(s, L, i, j) else Cell(s, L, x, y)
  {
    IdxInjective(L, i, j, x, y);
    IdxInRange(L, i, j);
    IdxInRange(L, x, y);
  }

  /** Only the flipped cell changes: the flat view of FlipCell. */
  lemma FlipFrame(s: seq<int>, L: nat, i: nat, j: nat)
    requires |s| == L * L && i < L && j < L
    ensures forall k :: 0 <= k < |s| && k != i * L + j ==> Flip(s, L, i, j)[k] == s[k]
    ensures 0 <= i * L + j < |s| && Flip(s, L, i, j)[i * L + j] == -s[i * L + j]
  {
    IdxIsRowMajor(L, i, j);
    IndexInRange(L, i, j);
    var k := Idx(L, i, j);
    assert k == i * L + j;
    assert Flip(s, L, i, j) == s[k := -s[k]];
  }

  /** Reversing a spin changes the magnetisation by minus twice that spin. */
  lemma FlipMagnetization(s: seq<int>, L: nat, i: nat, j: nat)
    requires |s| == L * L && i < L && j < L
    ensures Magnetization(Flip(s, L, i, j)) == Magnetization(s) - 2 * Cell(s, L, i, j)
  {
    IdxInRange(L, i, j);
    MagnetizationUpdate(s, Idx(L, i, j), -Cell(s, L, i, j));
  }

  /** The magnetisation change a move reports is the change of the configuration's magnetisation. */
  lemma StepMagnetization(s: seq<int>, L: nat, J: real, m: Move)
    requires L > 0 && |s| == L * L
    ensures Magnetization(Step(s, L, J, m)) == Magnetization(s) + StepMagDelta(s, L, J, m)
  {
    if Accepted(s, L, J, m) {
      FlipMagnetization(s, L, Row(m, L), Col(m, L));
    }
  }

  // ---------------------------------------------------------------------
  // The reported energy change is the change of the total energy (L >= 2)
  //
  // Reversing the spin c at p changes the local energy at p by FlipDelta and,
  // through each of the four bonds of p, the local energy at the neighbour v
  // at the other end by BondGain(J, c, v). Summed over the lattice and halved,
  // this is FlipDelta again.

  /** The change of local energy at a neighbour v of a reversed spin c, through one bond. */
  function BondGain(J: real, c: int, v: int): real
  {
    2.0 * J * (c as real) * (v as real)
  }

  /** The value v placed at site (qi, qj), zero elsewhere. */
  function Pick(i: int, j: int, qi: int, qj: int, v: real): real
  {
    if i == qi && j == qj then v else 0.0
  }

  /**
   * The change of local energy at (i, j) when the spin at p = (pi, pj) is
   * reversed: `centre` at p and `up`, `down`, `left`, `right` at p's four neighbours.
   */
  function Spread(L: nat, pi: nat, pj: nat, i: int, j: int,
                  centre: real, up: real, down: real, left: real, right: real): real
  {
    Pick(i, j, pi, pj, centre)
    + Pick(i, j, Bc(pi - 1, L), pj, up) + Pick(i, j, Bc(pi + 1, L), pj, down)
    + Pick(i, j, pi, Bc(pj - 1, L), left) + Pick(i, j, pi, Bc(pj + 1, L), right)
  }

  function RowSpread(L: nat, pi: nat, pj: nat, i: int, n: nat,
                     centre: real, up: real, down: real, left: real, right: real): real
  {
    if n == 0 then 0.0
    else RowSpread(L, pi, pj, i, n - 1, centre, up, down, left, right)
         + Spread(L, pi, pj, i, n - 1, centre, up, down, left, right)
  }

  function RowsSpread(L: nat, pi: nat, pj: nat, m: nat,
                      centre: real, up: real, down: real, left: real, right: real): real
  {
    if m == 0 then 0.0
    else RowsSpread(L, pi, pj, m - 1, centre, up, down, left, right)
         + RowSpread(L, pi, pj, m - 1, L, centre, up, down, left, right)
  }

  /** v when the condition holds and k lies before n, else zero. */
  function Before(b: bool, k: int, n: int, v: real): real
  {
    if b && k < n then v else 0.0
  }

  lemma {:induction false} RowSpreadClosed(L: nat, pi: nat, pj: nat, i: int, n: nat,
                                           centre: real, up: real, down: real, left: real, right: real)
    requires pi < L && pj < L && n <= L
    ensures RowSpread(L, pi, pj, i, n, centre, up, down, left, right)
         == Before(i == pi, pj, n, centre)
          + Before(i == Bc(pi - 1, L), pj, n, up) + Before(i == Bc(pi + 1, L), pj, n, down)
          + Before(i == pi, Bc(pj - 1, L), n, left) + Before(i == pi, Bc(pj + 1, L), n, right)
  {
    if n > 0 {
      RowSpreadClosed(L, pi, pj, i, n - 1, centre, up, down, left, right);
    }
  }

  lemma {:induction false} RowsSpreadClosed(L: nat, pi: nat, pj: nat, m: nat,
                                            centre: real, up: real, down: real, left: real, right: real)
    requires pi < L && pj < L && m <= L
    ensures RowsSpread(L, pi, pj, m, centre, up, down, left, right)
         == Before(true, pi, m, centre)
          + Before(true, Bc(pi - 1, L), m, up) + Before(true, Bc(pi + 1, L), m, down)
          + Before(true, pi, m, left) + Before(true, pi, m, right)
  {
    if m > 0 {
      RowsSpreadClosed(L, pi, pj, m - 1, centre, up, down, left, right);
      RowSpreadClosed(L, pi, pj, m - 1, L, centre, up, down, left, right);
    }
  }

  /** Over the whole lattice the spread adds up to its five parts. */
  lemma SpreadTotal(L: nat, pi: nat, pj: nat,
                    centre: real, up: real, down: real, left: real, right: real)
    requires pi < L && pj < L
    ensures RowsSpread(L, pi, pj, L, centre, up, down, left, right)
         == centre + up + down + left + right
  {
    RowsSpreadClosed(L, pi, pj, L, centre, up, down, left, right);
  }

  /** The local energy changes by the four bond shifts of the neighbour sum. */
  lemma CentreEnergyShift(x: int, u: int, d: int, l: int, r: int,
                          du: int, dd: int, dl: int, dr: int, J: real)
    ensures CentreEnergy(x, u + du, d + dd, l + dl, r + dr, J)
         == CentreEnergy(x, u, d, l, r, J)
          + -J * (x as real) * (du as real) + -J * (x as real) * (dd as real)
          + -J * (x as real) * (dl as real) + -J * (x as real) * (dr as real)
  {
    var X := -J * (x as real);
    assert ((u + du + d + dd + l + dl + r + dr) as real)
        == ((u + d + l + r) as real) + (du as real) + (dd as real) + (dl as real) + (dr as real);
    assert X * (((u + d + l + r) as real) + (du as real) + (dd as real) + (dl as real) + (dr as real))
        == X * ((u + d + l + r) as real) + X * (du as real) + X * (dd as real) + X * (dl as real) + X * (dr as real);
  }

  /** A neighbour that reads the reversed spin c sees its value shifted by -2c. */
  lemma BondTerm(J: real, x: int, c: int, b: bool)
    ensures -J * (x as real) * ((if b then -2 * c else 0) as real)
         == (if b then BondGain(J, c, x) else 0.0)
  {
  }

  /** The change FlipDelta is the sum of the four bond gains. */
  lemma FlipDeltaIsGain(c: int, u: int, d: int, l: int, r: int, J: real)
    ensures CentreEnergy(-1 * c, u, d, l, r, J) - CentreEnergy(c, u, d, l, r, J)
         == BondGain(J, c, u) + BondGain(J, c, d) + BondGain(J, c, l) + BondGain(J, c, r)
  {
    var C := 2.0 * J * (c as real);
    assert BondGain(J, c, u) + BondGain(J, c, d) + BondGain(J, c, l) + BondGain(J, c, r)
        == C * ((u + d + l + r) as real);
  }

  /** The program's dE is minus twice the local energy before the flip. */
  lemma FlipDeltaIsDoubleLocal(s: seq<int>, L: nat, J: real, i: nat, j: nat)
    requires |s| == L * L && i < L && j < L
    ensures FlipDelta(s, L, J, i, j)
         == -2.0 * CentreEnergy(Cell(s, L, i, j), Upper(s, L, i, j), Lower(s, L, i, j),
                                Left(s, L, i, j), Right(s, L, i, j), J)
  {
    CentreEnergyOdd(Cell(s, L, i, j), Upper(s, L, i, j), Lower(s, L, i, j),
                    Left(s, L, i, j), Right(s, L, i, j), J);
  }

  /** The spread of reversing the spin at p, with its five parts read from s. */
  function FlipSpread(s: seq<int>, L: nat, J: real, pi: nat, pj: nat, i: int, j: int): real
    requires |s| == L * L && pi < L && pj < L
  {
    var c := Cell(s, L, pi, pj);
    Spread(L, pi, pj, i, j, FlipDelta(s, L, J, pi, pj),
           BondGain(J, c, Upper(s, L, pi, pj)), BondGain(J, c, Lower(s, L, pi, pj)),
           BondGain(J, c, Left(s, L, pi, pj)), BondGain(J, c, Right(s, L, pi, pj)))
  }

  /** At the reversed site itself the local energy changes by FlipDelta. */
  lemma SiteAtFlip(s: seq<int>, L: nat, J: real, pi: nat, pj: nat)
    requires |s| == L * L && L >= 2 && pi < L && pj < L
    ensures SiteEnergy(Flip(s, L, pi, pj), L, J, pi, pj)
         == SiteEnergy(s, L, J, pi, pj) + FlipSpread(s, L, J, pi, pj, pi, pj)
  {
    var t := Flip(s, L, pi, pj);
    BcStepMoves(pi, L);
    BcStepMoves(pj, L);
    FlipCell(s, L, pi, pj, pi, pj);
    FlipCell(s, L, pi, pj, Bc(pi - 1, L), pj);
    FlipCell(s, L, pi, pj, Bc(pi + 1, L), pj);
    FlipCell(s, L, pi, pj, pi, Bc(pj - 1, L));
    FlipCell(s, L, pi, pj, pi, Bc(pj + 1, L));
    var c := Cell(s, L, pi, pj);
    assert Cell(t, L, pi, pj) == -1 * c;
    assert Upper(t, L, pi, pj) == Upper(s, L, pi, pj);
    assert Lower(t, L, pi, pj) == Lower(s, L, pi, pj);
    assert Left(t, L, pi, pj) == Left(s, L, pi, pj);
    assert Right(t, L, pi, pj) == Right(s, L, pi, pj);
  }

  /** Away from p, a neighbour of (i, j) reads differently exactly when it is p. */
  lemma NeighboursAwayFromFlip(s: seq<int>, L: nat, pi: nat, pj: nat, i: nat, j: nat)
    requires |s| == L * L && pi < L && pj < L && i < L && j < L
    requires i != pi || j != pj
    ensures var t, c := Flip(s, L, pi, pj), Cell(s, L, pi, pj);
      && Cell(t, L, i, j) == Cell(s, L, i, j)
      && Upper(t, L, i, j) == Upper(s, L, i, j) + (if i == Bc(pi + 1, L) && j == pj then -2 * c else 0)
      && Lower(t, L, i, j) == Lower(s, L, i, j) + (if i == Bc(pi - 1, L) && j == pj then -2 * c else 0)
      && Left(t, L, i, j) == Left(s, L, i, j) + (if i == pi && j == Bc(pj + 1, L) then -2 * c else 0)
      && Right(t, L, i, j) == Right(s, L, i, j) + (if i == pi && j == Bc(pj - 1, L) then -2 * c else 0)
  {
    FlipCell(s, L, pi, pj, i, j);
    FlipCell(s, L, pi, pj, Bc(i - 1, L), j);
    FlipCell(s, L, pi, pj, Bc(i + 1, L), j);
    FlipCell(s, L, pi, pj, i, Bc(j - 1, L));
    FlipCell(s, L, pi, pj, i, Bc(j + 1, L));
    BcStepInverse(i, pi, L);
    BcStepInverse(pi, i, L);
    BcStepInverse(j, pj, L);
    BcStepInverse(pj, j, L);
  }

  /** The local energy at a site whose neighbours were shifted by -2c where the flag is set. */
  lemma ShiftedCentreEnergy(x: int, u: int, d: int, l: int, r: int, c: int,
                            bu: bool, bd: bool, bl: bool, br: bool, J: real)
    ensures CentreEnergy(x, u + (if bu then -2 * c else 0), d + (if bd then -2 * c else 0),
                         l + (if bl then -2 * c else 0), r + (if br then -2 * c else 0), J)
         == CentreEnergy(x, u, d, l, r, J)
          + (if bu then BondGain(J, c, x) else 0.0) + (if bd then BondGain(J, c, x) else 0.0)
          + (if bl then BondGain(J, c, x) else 0.0) + (if br then BondGain(J, c, x) else 0.0)
  {
    CentreEnergyShift(x, u, d, l, r, if bu then -2 * c else 0, if bd then -2 * c else 0,
                      if bl then -2 * c else 0, if br then -2 * c else 0, J);
    BondTerm(J, x, c, bu);
    BondTerm(J, x, c, bd);
    BondTerm(J, x, c, bl);
    BondTerm(J, x, c, br);
  }

  /** Away from the reversed site, the local energy changes by the bond gains of bonds into p. */
  lemma SiteAwayFromFlip(s: seq<int>, L: nat, J: real, pi: nat, pj: nat, i: nat, j: nat)
    requires |s| == L * L && L >= 2 && pi < L && pj < L && i < L && j < L
    requires i != pi || j != pj
    ensures SiteEnergy(Flip(s, L, pi, pj), L, J, i, j)
         == SiteEnergy(s, L, J, i, j) + FlipSpread(s, L, J, pi, pj, i, j)
  {
    var t := Flip(s, L, pi, pj);
    var c := Cell(s, L, pi, pj);
    var x := Cell(s, L, i, j);
    var bu := i == Bc(pi + 1, L) && j == pj;
    var bd := i == Bc(pi - 1, L) && j == pj;
    var bl := i == pi && j == Bc(pj + 1, L);
    var br := i == pi && j == Bc(pj - 1, L);
    NeighboursAwayFromFlip(s, L, pi, pj, i, j);
    ShiftedCentreEnergy(x, Upper(s, L, i, j), Lower(s, L, i, j), Left(s, L, i, j), Right(s, L, i, j),
                        c, bu, bd, bl, br, J);
    assert SiteEnergy(t, L, J, i, j)
        == SiteEnergy(s, L, J, i, j)
         + (if bu then BondGain(J, c, x) else 0.0) + (if bd then BondGain(J, c, x) else 0.0)
         + (if bl then BondGain(J, c, x) else 0.0) + (if br then BondGain(J, c, x) else 0.0);
    assert (if bd then BondGain(J, c, x) else 0.0) == Pick(i, j, Bc(pi - 1, L), pj, BondGain(J, c, Upper(s, L, pi, pj)));
    assert (if bu then BondGain(J, c, x) else 0.0) == Pick(i, j, Bc(pi + 1, L), pj, BondGain(J, c, Lower(s, L, pi, pj)));
    assert (if br then BondGain(J, c, x) else 0.0) == Pick(i, j, pi, Bc(pj - 1, L), BondGain(J, c, Left(s, L, pi, pj)));
    assert (if bl then BondGain(J, c, x) else 0.0) == Pick(i, j, pi, Bc(pj + 1, L), BondGain(J, c, Right(s, L, pi, pj)));
  }

  lemma SiteFlip(s: seq<int>, L: nat, J: real, pi: nat, pj: nat, i: nat, j: nat)
    requires |s| == L * L && L >= 2 && pi < L && pj < L && i < L && j < L
    ensures SiteEnergy(Flip(s, L, pi, pj), L, J, i, j)
         == SiteEnergy(s, L, J, i, j) + FlipSpread(s, L, J, pi, pj, i, j)
  {
    if i == pi && j == pj {
      SiteAtFlip(s, L, J, pi, pj);
    } else {
      SiteAwayFromFlip(s, L, J, pi, pj, i, j);
    }
  }

  /** The spread of reversing p, summed over the first n sites of row i. */
  function FlipRowSpread(s: seq<int>, L: nat, J: real, pi: nat, pj: nat, i: int, n: nat): real
    requires |s| == L * L && pi < L && pj < L
  {
    var c := Cell(s, L, pi, pj);
    RowSpread(L, pi, pj, i, n, FlipDelta(s, L, J, pi, pj),
              BondGain(J, c, Upper(s, L, pi, pj)), BondGain(J, c, Lower(s, L, pi, pj)),
              BondGain(J, c, Left(s, L, pi, pj)), BondGain(J, c, Right(s, L, pi, pj)))
  }

  /** The spread of reversing p, summed over the first m rows. */
  function FlipRowsSpread(s: seq<int>, L: nat, J: real, pi: nat, pj: nat, m: nat): real
    requires |s| == L * L && pi < L && pj < L
  {
    var c := Cell(s, L, pi, pj);
    RowsSpread(L, pi, pj, m, FlipDelta(s, L, J, pi, pj),
               BondGain(J, c, Upper(s, L, pi, pj)), BondGain(J, c, Lower(s, L, pi, pj)),
               BondGain(J, c, Left(s, L, pi, pj)), BondGain(J, c, Right(s, L, pi, pj)))
  }

  lemma {:induction false} RowEnergyFlip(s: seq<int>, L: nat, J: real, pi: nat, pj: nat, i: nat, n: nat)
    requires |s| == L * L && L >= 2 && pi < L && pj < L && i < L && n <= L
    ensures RowEnergy(Flip(s, L, pi, pj), L, J, i, n)
         == RowEnergy(s, L, J, i, n) + FlipRowSpread(s, L, J, pi, pj, i, n)
  {
    if n > 0 {
      RowEnergyFlip(s, L, J, pi, pj, i, n - 1);
      SiteFlip(s, L, J, pi, pj, i, n - 1);
    }
  }

  lemma RowsEnergyFlip(s: seq<int>, L: nat, J: real, pi: nat, pj: nat, m: nat)
    requires |s| == L * L && L >= 2 && pi < L && pj < L && m <= L
    ensures RowsEnergy(Flip(s, L, pi, pj), L, J, m)
         == RowsEnergy(s, L, J, m) + FlipRowsSpread(s, L, J, pi, pj, m)
  {
    var c := Cell(s, L, pi, pj);
    var d := FlipDelta(s, L, J, pi, pj);
    var gu, gd := BondGain(J, c, Upper(s, L, pi, pj)), BondGain(J, c, Lower(s, L, pi, pj));
    var gl, gr := BondGain(J, c, Left(s, L, pi, pj)), BondGain(J, c, Right(s, L, pi, pj));
    forall i | 0 <= i < m
      ensures RowEnergy(Flip(s, L, pi, pj), L, J, i, L)
           == RowEnergy(s, L, J, i, L) + RowSpread(L, pi, pj, i, L, d, gu, gd, gl, gr)
    {
      RowEnergyFlip(s, L, J, pi, pj, i, L);
    }
    RowsAdd(s, Flip(s, L, pi, pj), L, J, pi, pj, m, d, gu, gd, gl, gr);
  }

  /** Row energies that differ by the row spreads add up to totals that differ by the spread. */
  lemma {:induction false} RowsAdd(s: seq<int>, t: seq<int>, L: nat, J: real, pi: nat, pj: nat, m: nat,
                                   d: real, gu: real, gd: real, gl: real, gr: real)
    requires |s| == L * L && |t| == L * L && m <= L
    requires forall i :: 0 <= i < m ==>
      RowEnergy(t, L, J, i, L) == RowEnergy(s, L, J, i, L) + RowSpread(L, pi, pj, i, L, d, gu, gd, gl, gr)
    ensures RowsEnergy(t, L, J, m) == RowsEnergy(s, L, J, m) + RowsSpread(L, pi, pj, m, d, gu, gd, gl, gr)
  {
    if m > 0 {
      RowsAdd(s, t, L, J, pi, pj, m - 1, d, gu, gd, gl, gr);
    }
  }

  /**
   * On a lattice of side at least 2, the change the program computes from the
   * five spins around p is exactly the change of the total energy.
   */
  lemma FlipEnergy(s: seq<int>, L: nat, J: real, pi: nat, pj: nat)
    requires |s| == L * L && L >= 2 && pi < L && pj < L
    ensures Energy(Flip(s, L, pi, pj), L, J) == Energy(s, L, J) + FlipDelta(s, L, J, pi, pj)
  {
    var c := Cell(s, L, pi, pj);
    RowsEnergyFlip(s, L, J, pi, pj, L);
    SpreadTotal(L, pi, pj, FlipDelta(s, L, J, pi, pj),
                BondGain(J, c, Upper(s, L, pi, pj)), BondGain(J, c, Lower(s, L, pi, pj)),
                BondGain(J, c, Left(s, L, pi, pj)), BondGain(J, c, Right(s, L, pi, pj)));
    FlipDeltaIsGain(c, Upper(s, L, pi, pj), Lower(s, L, pi, pj), Left(s, L, pi, pj), Right(s, L, pi, pj), J);
  }

  /** The energy change a move reports is the change of the total energy, on a lattice of side at least 2. */
  lemma StepEnergy(s: seq<int>, L: nat, J: real, m: Move)
    requires |s| == L * L && L >= 2
    ensures Energy(Step(s, L, J, m), L, J) == Energy(s, L, J) + StepEnergyDelta(s, L, J, m)
  {
    if Accepted(s, L, J, m) {
      FlipEnergy(s, L, J, Row(m, L), Col(m, L));
    }
  }

  /**
   * On a 1 x 1 lattice the site is its own four neighbours: reversing it leaves
   * the total energy at -2J, while the reported change is 8J.
   */
  lemma SingleSiteFlipMismatch()
    ensures Energy([1], 1, 1.0) == -2.0
    ensures Energy(Flip([1], 1, 0, 0), 1, 1.0) == -2.0
    ensures FlipDelta([1], 1, 1.0, 0, 0) == 8.0
  {
    var t := Flip([1], 1, 0, 0);
    assert Idx(1, 0, 0) == 0;
    assert t == [-1];
    assert SiteEnergy([1], 1, 1.0, 0, 0) == -4.0;
    assert SiteEnergy(t, 1, 1.0, 0, 0) == -4.0;
  }
}
