/**
 * The Metropolis-Hastings driver: a chain of moves from a random initial
 * configuration, the running energy and magnetisation it keeps by adding the
 * reported changes, the sums it accumulates at the sampling steps, and the
 * four per-spin observables derived from those sums.
 */
module Sampling {
  import opened Lattice
  import opened Hamiltonian
  import opened Metropolis

  // ---------------------------------------------------------------------
  // The chain

  /** The configuration after the first n moves. */
  function Run(s0: seq<int>, L: nat, J: real, moves: seq<Move>, n: nat): (s: seq<int>)
    requires L > 0 && |s0| == L * L && n <= |moves|
    ensures |s| == L * L
  {
    if n == 0 then s0 else Step(Run(s0, L, J, moves, n - 1), L, J, moves[n - 1])
  }

  /** The running total energy after n moves: the initial energy plus every reported change. */
  function TrackedEnergy(s0: seq<int>, L: nat, J: real, moves: seq<Move>, n: nat): real
    requires L > 0 && |s0| == L * L && n <= |moves|
  {
    if n == 0 then Energy(s0, L, J)
    else TrackedEnergy(s0, L, J, moves, n - 1)
         + StepEnergyDelta(Run(s0, L, J, moves, n - 1), L, J, moves[n - 1])
  }

  /** The running total magnetisation after n moves, kept the same way. */
  function TrackedMagnetization(s0: seq<int>, L: nat, J: real, moves: seq<Move>, n: nat): int
    requires L > 0 && |s0| == L * L && n <= |moves|
  {
    if n == 0 then Magnetization(s0)
    else TrackedMagnetization(s0, L, J, moves, n - 1)
         + StepMagDelta(Run(s0, L, J, moves, n - 1), L, J, moves[n - 1])
  }

  /** Move k takes the chain, its running energy and its running magnetisation to move n = k + 1. */
  lemma RunStep(s0: seq<int>, L: nat, J: real, moves: seq<Move>, k: nat, n: nat)
    requires L > 0 && |s0| == L * L && k < |moves| && n == k + 1
    ensures Run(s0, L, J, moves, n) == Step(Run(s0, L, J, moves, k), L, J, moves[k])
    ensures TrackedEnergy(s0, L, J, moves, n)
         == TrackedEnergy(s0, L, J, moves, k) + StepEnergyDelta(Run(s0, L, J, moves, k), L, J, moves[k])
    ensures TrackedMagnetization(s0, L, J, moves, n)
         == TrackedMagnetization(s0, L, J, moves, k) + StepMagDelta(Run(s0, L, J, moves, k), L, J, moves[k])
  {
  }

  /** Every configuration of the chain is a spin configuration. */
  lemma {:induction false} RunKeepsSpins(s0: seq<int>, L: nat, J: real, moves: seq<Move>, n: nat)
    requires L > 0 && |s0| == L * L && n <= |moves| && IsSpins(s0)
    ensures IsSpins(Run(s0, L, J, moves, n))
  {
    if n > 0 {
      var k := n - 1;
      RunKeepsSpins(s0, L, J, moves, k);
      RunStep(s0, L, J, moves, k, n);
      StepKeepsSpins(Run(s0, L, J, moves, k), L, J, moves[k]);
    }
  }

  /** On a lattice of side at least 2, the running energy is the energy of the current configuration. */
  lemma {:induction false} TrackedEnergyIsEnergy(s0: seq<int>, L: nat, J: real, moves: seq<Move>, n: nat)
    requires L >= 2 && |s0| == L * L && n <= |moves|
    ensures TrackedEnergy(s0, L, J, moves, n) == Energy(Run(s0, L, J, moves, n), L, J)
  {
    if n > 0 {
      var k := n - 1;
      TrackedEnergyIsEnergy(s0, L, J, moves, k);
      RunStep(s0, L, J, moves, k, n);
      StepEnergy(Run(s0, L, J, moves, k), L, J, moves[k]);
    }
  }

  /** On a lattice of side at least 2, the running energy stays within [-2|J|N, 2|J|N]. */
  lemma TrackedEnergyBound(s0: seq<int>, L: nat, J: real, moves: seq<Move>, n: nat)
    requires L >= 2 && |s0| == L * L && n <= |moves| && IsSpins(s0)
    ensures -Times(|s0|, 2.0 * Abs(J)) <= TrackedEnergy(s0, L, J, moves, n) <= Times(|s0|, 2.0 * Abs(J))
  {
    TrackedEnergyIsEnergy(s0, L, J, moves, n);
    RunKeepsSpins(s0, L, J, moves, n);
    EnergyBound(Run(s0, L, J, moves, n), L, J);
  }

  /** The running magnetisation is the magnetisation of the current configuration. */
  lemma {:induction false} TrackedMagnetizationIsMagnetization(s0: seq<int>, L: nat, J: real,
                                                               moves: seq<Move>, n: nat)
    requires L > 0 && |s0| == L * L && n <= |moves|
    ensures TrackedMagnetization(s0, L, J, moves, n) == Magnetization(Run(s0, L, J, moves, n))
  {
    if n > 0 {
      var k := n - 1;
      TrackedMagnetizationIsMagnetization(s0, L, J, moves, k);
      RunStep(s0, L, J, moves, k, n);
      StepMagnetization(Run(s0, L, J, moves, k), L, J, moves[k]);
    }
  }

  // ---------------------------------------------------------------------
  // Sampling

  /** Iteration k is sampled when it is past the burn-in and on the sampling stride. */
  predicate IsSampleStep(k: nat, start: nat, interval: nat)
    requires interval > 0
  {
    k >= start && k % interval == 0
  }

  /** The number of sampled iterations among the first n. */
  function SampleCount(n: nat, start: nat, interval: nat): nat
    requires interval > 0
  {
    if n == 0 then 0
    else SampleCount(n - 1, start, interval) + (if IsSampleStep(n - 1, start, interval) then 1 else 0)
  }

  /** The sums of the sampled energies and magnetisations, of their squares, and the sample count. */
  datatype Stats = Stats(e1: real, e2: real, m1: real, m2: real, count: nat)

  /** Adds one sample of energy e and magnetisation m. */
  function Accumulate(st: Stats, e: real, m: real): (r: Stats)
    ensures r.count == st.count + 1
  {
    Stats(st.e1 + e, st.e2 + e * e, st.m1 + m, st.m2 + m * m, st.count + 1)
  }

  /** The sums after the first n iterations: iteration k samples the running values after move k. */
  function SampleStats(s0: seq<int>, L: nat, J: real, moves: seq<Move>, n: nat, start: nat, interval: nat): Stats
    requires L > 0 && |s0| == L * L && n <= |moves| && interval > 0
  {
    if n == 0 then Stats(0.0, 0.0, 0.0, 0.0, 0)
    else
      var st := SampleStats(s0, L, J, moves, n - 1, start, interval);
      if IsSampleStep(n - 1, start, interval)
      then Accumulate(st, TrackedEnergy(s0, L, J, moves, n),
                      TrackedMagnetization(s0, L, J, moves, n) as real)
      else st
  }

  /** The sample counter counts exactly the sampled iterations. */
  lemma {:induction false} SampleStatsCount(s0: seq<int>, L: nat, J: real, moves: seq<Move>,
                                            n: nat, start: nat, interval: nat)
    requires L > 0 && |s0| == L * L && n <= |moves| && interval > 0
    ensures SampleStats(s0, L, J, moves, n, start, interval).count == SampleCount(n, start, interval)
  {
    if n > 0 {
      SampleStatsCount(s0, L, J, moves, n - 1, start, interval);
    }
  }

  /** A sampled iteration before n makes the count positive. */
  lemma {:induction false} SampleCountPositive(n: nat, start: nat, interval: nat, k: nat)
    requires interval > 0 && k < n && IsSampleStep(k, start, interval)
    ensures SampleCount(n, start, interval) > 0
  {
    if k < n - 1 {
      SampleCountPositive(n - 1, start, interval, k);
    }
  }

  /**
   * The guard the program applies before running the driver, stated without
   * unsigned wrap-around: at least one whole sampling interval fits between the
   * first sampled iteration and the number of iterations.
   */
  predicate SamplingGuard(iterNum: nat, start: nat, interval: nat)
    requires interval > 0
  {
    start <= iterNum && (iterNum - start) / interval > 0
  }

  /** The guard guarantees that at least one iteration is sampled. */
  lemma GuardGivesSamples(iterNum: nat, start: nat, interval: nat)
    requires interval > 0 && SamplingGuard(iterNum, start, interval)
    ensures SampleCount(iterNum, start, interval) > 0
  {
    var k := FirstMultiple(start, interval);
    assert iterNum - start >= interval;
    SampleCountPositive(iterNum, start, interval, k);
  }

  /**
   * The converse fails: the guard is stricter than "some iteration is
   * sampled". An 11-step run sampling every 10th step from step 5 samples
   * step 10, yet (11 - 5) / 10 is 0 and the guard rejects it.
   */
  lemma GuardRejectsSampledRun()
    ensures SampleCount(11, 5, 10) == 1
    ensures !SamplingGuard(11, 5, 10)
  {
  }

  /** Within any d consecutive numbers from start there is a multiple of d. */
  lemma FirstMultiple(start: nat, d: nat) returns (k: nat)
    requires d > 0
    ensures start <= k < start + d && k % d == 0
  {
    var b := start + d - 1;
    k := b - b % d;
    ModUnique(k, d, b / d, 0);
  }

  /** The remainder is determined by any decomposition a = d * q + r with 0 <= r < d. */
  lemma ModUnique(a: int, d: int, q: int, r: int)
    requires d > 0 && a == d * q + r && 0 <= r < d
    ensures a % d == r
  {
    var t := q - a / d;
    assert d * t == a % d - r;
    if t > 0 {
      PositiveMultiple(d, t);
      assert false;
    } else if t < 0 {
      PositiveMultiple(d, -t);
      assert false;
    }
  }

  lemma {:induction false} PositiveMultiple(d: int, t: int)
    requires d > 0 && t > 0
    ensures d * t >= d
  {
    if t > 1 {
      PositiveMultiple(d, t - 1);
      assert d * t == d * (t - 1) + d;
    }
  }

  // ---------------------------------------------------------------------
  // Observables

  /** Energy, magnetisation, heat capacity and susceptibility, all per spin. */
  datatype Observables = Observables(energyPerSpin: real, magPerSpin: real,
                                     heatCapacityPerSpin: real, susceptibilityPerSpin: real)

  /**
   * The sample variance of n values with sum s and sum of squares q,
   * q / n - s^2 / n^2, with n^2 formed as an integer product as the program does.
   */
  function Variance(n: nat, s: real, q: real): real
    requires n > 0
  {
    VarianceOver(n, n * n, s, q)
  }

  /** The variance formula q / n - s^2 / d with the integer divisor d of s^2 given separately. */
  function VarianceOver(n: nat, d: int, s: real, q: real): real
    requires n > 0 && d != 0
  {
    q / n as real - (s * s) / d as real
  }

  /** A real sum divided by an integer count, as the program divides a double by an int. */
  function Quotient(x: real, d: int): real
    requires d != 0
  {
    x / d as real
  }

  /** The factor T^2 N that turns the energy variance into the heat capacity per spin. */
  function HeatScale(T: real, N: nat): (d: real)
    requires T > 0.0 && N > 0
    ensures d > 0.0
  {
    QuotientNonNegative3(1.0, T, T, N as real);
    T * T * N as real
  }

  /**
   * The four observables from the sums of a run over a lattice of N spins at
   * temperature T, in exact arithmetic: the means per spin, and the variances
   * scaled by 1 / (T^2 N) and 1 / (T N).
   */
  function Derive(st: Stats, N: nat, T: real): Observables
    requires st.count > 0 && N > 0 && T > 0.0
  {
    Observables(Quotient(st.e1, st.count * N),
                Quotient(st.m1, st.count * N),
                Variance(st.count, st.e1, st.e2) / HeatScale(T, N),
                Variance(st.count, st.m1, st.m2) / (T * N as real))
  }

  /**
   * What a sum s and a sum of squares q of n values always satisfy: q is
   * non-negative, the Cauchy-Schwarz bound n * q >= s^2 holds, and the sum of
   * no values is zero.
   */
  predicate SumsValid(n: real, s: real, q: real)
  {
    q >= 0.0 && n * q >= s * s && (n == 0.0 ==> s == 0.0)
  }

  /** A magnetisation sum at most b in size per sample. */
  predicate MagnetizationBounded(st: Stats, b: real)
  {
    -(st.count as real * b) <= st.m1 <= st.count as real * b
  }

  lemma SquareNonNegative(y: real)
    ensures y * y >= 0.0
  {
  }

  lemma PositiveFactor(a: real, b: real)
    requires a > 0.0 && a * b >= 0.0
    ensures b >= 0.0
  {
  }

  /** Adding one more value x keeps the sums valid. */
  lemma SumsStep(k: nat, s: real, q: real, x: real)
    requires SumsValid(k as real, s, q)
    ensures SumsValid((k + 1) as real, s + x, q + x * x)
  {
    var n := k as real;
    assert (k + 1) as real == n + 1.0;
    var rest := q + n * (x * x) - 2.0 * s * x;
    assert (n + 1.0) * (q + x * x) - (s + x) * (s + x) == (n * q - s * s) + rest;
    if n > 0.0 {
      var y := s - n * x;
      assert n * rest == n * q - s * s + y * y;
      SquareNonNegative(y);
      PositiveFactor(n, rest);
    }
  }

  /** Adding a magnetisation within [-b, b] keeps the magnetisation sum bounded. */
  lemma AccumulateBounded(st: Stats, e: real, m: real, b: real)
    requires MagnetizationBounded(st, b) && -b <= m <= b
    ensures MagnetizationBounded(Accumulate(st, e, m), b)
  {
    BoundStep(st.count, b, st.m1, m);
  }

  /** A sum of n values each at most b in size grows to one of n + 1 such values. */
  lemma BoundStep(k: nat, b: real, s: real, x: real)
    requires -(k as real * b) <= s <= k as real * b && -b <= x <= b
    ensures -((k + 1) as real * b) <= s + x <= (k + 1) as real * b
  {
    assert (k + 1) as real * b == k as real * b + b;
  }

  /** Adding a sample keeps both pairs of sums valid. */
  lemma AccumulateValid(st: Stats, e: real, m: real)
    requires SumsValid(st.count as real, st.e1, st.e2)
    requires SumsValid(st.count as real, st.m1, st.m2)
    ensures var r := Accumulate(st, e, m);
      SumsValid(r.count as real, r.e1, r.e2) && SumsValid(r.count as real, r.m1, r.m2)
  {
    SumsStep(st.count, st.e1, st.e2, e);
    SumsStep(st.count, st.m1, st.m2, m);
  }

  /** The energy and magnetisation sums of any chain are valid. */
  lemma {:induction false} SampleSumsValid(s0: seq<int>, L: nat, J: real, moves: seq<Move>,
                                           n: nat, start: nat, interval: nat)
    requires L > 0 && |s0| == L * L && n <= |moves| && interval > 0
    ensures var st := SampleStats(s0, L, J, moves, n, start, interval);
      SumsValid(st.count as real, st.e1, st.e2) && SumsValid(st.count as real, st.m1, st.m2)
  {
    if n > 0 {
      var k := n - 1;
      SampleSumsValid(s0, L, J, moves, k, start, interval);
      SampleStatsStep(s0, L, J, moves, k, n, start, interval);
      if IsSampleStep(k, start, interval) {
        AccumulateValid(SampleStats(s0, L, J, moves, k, start, interval),
                        TrackedEnergy(s0, L, J, moves, n), TrackedMagnetization(s0, L, J, moves, n) as real);
      }
    }
  }

  /** The running magnetisation of a chain from a spin configuration is at most N = L * L in size. */
  lemma TrackedMagnetizationBound(s0: seq<int>, L: nat, J: real, moves: seq<Move>, n: nat)
    requires L > 0 && |s0| == L * L && n <= |moves| && IsSpins(s0)
    ensures var m := TrackedMagnetization(s0, L, J, moves, n) as real;
      -((L * L) as real) <= m <= (L * L) as real
  {
    RunKeepsSpins(s0, L, J, moves, n);
    TrackedMagnetizationIsMagnetization(s0, L, J, moves, n);
    MagnetizationBounds(Run(s0, L, J, moves, n));
  }

  /** A chain whose running magnetisation stays within [-b, b] has a magnetisation sum within count * b. */
  lemma {:induction false} SampledMagnetizationBounded(s0: seq<int>, L: nat, J: real, moves: seq<Move>,
                                                       n: nat, start: nat, interval: nat, b: real)
    requires L > 0 && |s0| == L * L && n <= |moves| && interval > 0
    requires forall k :: 0 < k <= n ==> -b <= TrackedMagnetization(s0, L, J, moves, k) as real <= b
    ensures MagnetizationBounded(SampleStats(s0, L, J, moves, n, start, interval), b)
  {
    if n > 0 {
      var k := n - 1;
      SampledMagnetizationBounded(s0, L, J, moves, k, start, interval, b);
      var st := SampleStats(s0, L, J, moves, k, start, interval);
      SampleStatsStep(s0, L, J, moves, k, n, start, interval);
      if IsSampleStep(k, start, interval) {
        AccumulateBounded(st, TrackedEnergy(s0, L, J, moves, n), TrackedMagnetization(s0, L, J, moves, n) as real, b);
      }
    }
  }

  /** A chain started from a spin configuration samples magnetisations at most N = L * L in size. */
  lemma SampledMagnetizationWithinLattice(s0: seq<int>, L: nat, J: real, moves: seq<Move>,
                                          n: nat, start: nat, interval: nat)
    requires L > 0 && |s0| == L * L && n <= |moves| && interval > 0 && IsSpins(s0)
    ensures MagnetizationBounded(SampleStats(s0, L, J, moves, n, start, interval), (L * L) as real)
  {
    forall k | 0 < k <= n
      ensures -((L * L) as real) <= TrackedMagnetization(s0, L, J, moves, k) as real <= (L * L) as real
    {
      TrackedMagnetizationBound(s0, L, J, moves, k);
    }
    SampledMagnetizationBounded(s0, L, J, moves, n, start, interval, (L * L) as real);
  }

  /** An energy sum at most b in size per sample. */
  predicate EnergyBounded(st: Stats, b: real)
  {
    -(st.count as real * b) <= st.e1 <= st.count as real * b
  }

  /** Adding an energy within [-b, b] keeps the energy sum bounded. */
  lemma AccumulateEnergyBounded(st: Stats, e: real, m: real, b: real)
    requires EnergyBounded(st, b) && -b <= e <= b
    ensures EnergyBounded(Accumulate(st, e, m), b)
  {
    BoundStep(st.count, b, st.e1, e);
  }

  /** A chain whose running energy stays within [-b, b] has an energy sum within count * b. */
  lemma {:induction false} SampledEnergyBounded(s0: seq<int>, L: nat, J: real, moves: seq<Move>,
                                                n: nat, start: nat, interval: nat, b: real)
    requires L > 0 && |s0| == L * L && n <= |moves| && interval > 0
    requires forall k :: 0 < k <= n ==> -b <= TrackedEnergy(s0, L, J, moves, k) <= b
    ensures EnergyBounded(SampleStats(s0, L, J, moves, n, start, interval), b)
  {
    if n > 0 {
      var k := n - 1;
      SampledEnergyBounded(s0, L, J, moves, k, start, interval, b);
      var st := SampleStats(s0, L, J, moves, k, start, interval);
      SampleStatsStep(s0, L, J, moves, k, n, start, interval);
      if IsSampleStep(k, start, interval) {
        AccumulateEnergyBounded(st, TrackedEnergy(s0, L, J, moves, n), TrackedMagnetization(s0, L, J, moves, n) as real, b);
      }
    }
  }

  /** On a lattice of side at least 2, a chain from a spin configuration samples energies within 2|J|N. */
  lemma SampledEnergyWithinCoupling(s0: seq<int>, L: nat, J: real, moves: seq<Move>,
                                    n: nat, start: nat, interval: nat)
    requires L >= 2 && |s0| == L * L && n <= |moves| && interval > 0 && IsSpins(s0)
    ensures EnergyBounded(SampleStats(s0, L, J, moves, n, start, interval), Times(|s0|, 2.0 * Abs(J)))
  {
    forall k | 0 < k <= n
      ensures -Times(|s0|, 2.0 * Abs(J)) <= TrackedEnergy(s0, L, J, moves, k) <= Times(|s0|, 2.0 * Abs(J))
    {
      TrackedEnergyBound(s0, L, J, moves, k);
    }
    SampledEnergyBounded(s0, L, J, moves, n, start, interval, Times(|s0|, 2.0 * Abs(J)));
  }

  /** An integer product converts to the product of the converted factors. */
  lemma ProductAsReal(a: nat, b: nat)
    ensures (a * b) as real == a as real * b as real
  {
  }

  /** Dividing twice by n is dividing once by n * n. */
  lemma DivideTwice(x: real, n: real)
    requires n > 0.0
    ensures x / (n * n) == (x / n) / n
  {
    var a := x / (n * n);
    var b := (x / n) / n;
    assert a * (n * n) == x;
    assert (a * n) * n == x;
    assert b * n == x / n;
    assert (x / n) * n == x;
    Cancel(a * n, x / n, n);
    Cancel(a, b, n);
  }

  lemma Cancel(y: real, z: real, n: real)
    requires n != 0.0 && y * n == z * n
    ensures y == z
  {
  }

  lemma QuotientNonNegative(a: real, b: real)
    requires a >= 0.0 && b > 0.0
    ensures a / b >= 0.0
  {
  }

  lemma QuotientNonNegative2(v: real, a: real, b: real)
    requires v >= 0.0 && a > 0.0 && b > 0.0
    ensures v / (a * b) >= 0.0
  {
    assert a * b > 0.0;
  }

  lemma QuotientNonNegative3(v: real, a: real, b: real, c: real)
    requires v >= 0.0 && a > 0.0 && b > 0.0 && c > 0.0
    ensures v / (a * b * c) >= 0.0
  {
    assert a * b > 0.0;
    assert a * b * c > 0.0;
  }

  /** Under the Cauchy-Schwarz bound the sample variance is non-negative. */
  lemma VarianceNonNegative(count: nat, s: real, q: real)
    requires count > 0 && count as real * q >= s * s
    ensures Variance(count, s, q) >= 0.0
  {
    var n := count as real;
    ProductAsReal(count, count);
    DivideTwice(s * s, n);
    var c := (s * s) / n;
    assert q >= c by {
      assert c * n == s * s;
    }
    assert q / n - c / n == (q - c) / n;
    QuotientNonNegative(q - c, n);
  }

  /** A sum bounded by a * b in size, divided by a * b, lies in [-1, 1]. */
  lemma MeanBounds(m: real, a: real, b: real)
    requires a > 0.0 && b > 0.0 && -(a * b) <= m <= a * b
    ensures -1.0 <= m / (a * b) <= 1.0
  {
    assert a * b > 0.0;
  }

  /** From valid sums, the heat capacity per spin is non-negative. */
  lemma HeatCapacityNonNegative(st: Stats, N: nat, T: real)
    requires st.count > 0 && N > 0 && T > 0.0 && SumsValid(st.count as real, st.e1, st.e2)
    ensures Derive(st, N, T).heatCapacityPerSpin >= 0.0
  {
    VarianceNonNegative(st.count, st.e1, st.e2);
    QuotientNonNegative(Variance(st.count, st.e1, st.e2), HeatScale(T, N));
  }

  /** From valid sums, the susceptibility per spin is non-negative. */
  lemma SusceptibilityNonNegative(st: Stats, N: nat, T: real)
    requires st.count > 0 && N > 0 && T > 0.0 && SumsValid(st.count as real, st.m1, st.m2)
    ensures Derive(st, N, T).susceptibilityPerSpin >= 0.0
  {
    VarianceNonNegative(st.count, st.m1, st.m2);
    QuotientNonNegative2(Variance(st.count, st.m1, st.m2), T, N as real);
  }

  /** A sum bounded by c * (n * a) in size, divided by c * n, lies in [-a, a]. */
  lemma ScaledMeanBounds(m: real, c: real, n: real, a: real)
    requires c > 0.0 && n > 0.0 && a >= 0.0 && -(c * (n * a)) <= m <= c * (n * a)
    ensures -a <= m / (c * n) <= a
  {
    var d := c * n;
    assert d > 0.0;
    assert c * (n * a) == d * a;
    assert m / d * d == m;
  }

  /** From an energy sum within count * N * a, the energy per spin lies in [-a, a]. */
  lemma EnergyPerSpinBounds(st: Stats, N: nat, T: real, a: real)
    requires st.count > 0 && N > 0 && T > 0.0 && a >= 0.0 && EnergyBounded(st, Times(N, a))
    ensures -a <= Derive(st, N, T).energyPerSpin <= a
  {
    TimesIsProduct(N, a);
    ProductAsReal(st.count, N);
    ScaledMeanBounds(st.e1, st.count as real, N as real, a);
  }

  /** From valid sums, the magnetisation per spin lies in [-1, 1]. */
  lemma MagPerSpinBounds(st: Stats, N: nat, T: real)
    requires st.count > 0 && N > 0 && T > 0.0 && MagnetizationBounded(st, N as real)
    ensures -1.0 <= Derive(st, N, T).magPerSpin <= 1.0
  {
    ProductAsReal(st.count, N);
    MeanBounds(st.m1, st.count as real, N as real);
  }

  /**
   * The sums of every chain from a spin configuration count the sampled
   * iterations, and when there is at least one sample their observables have
   * non-negative heat capacity and susceptibility and a magnetisation per spin
   * within [-1, 1].
   */
  lemma SampleStatsObservables(s0: seq<int>, L: nat, J: real, T: real, moves: seq<Move>,
                               n: nat, start: nat, interval: nat, st: Stats, obs: Observables)
    requires L > 0 && |s0| == L * L && n <= |moves| && interval > 0 && IsSpins(s0) && T > 0.0
    requires SampleCount(n, start, interval) > 0
    requires st == SampleStats(s0, L, J, moves, n, start, interval) && st.count > 0
    requires obs == Derive(st, L * L, T)
    ensures obs.heatCapacityPerSpin >= 0.0 && obs.susceptibilityPerSpin >= 0.0
    ensures -1.0 <= obs.magPerSpin <= 1.0
    ensures L >= 2 ==> -2.0 * Abs(J) <= obs.energyPerSpin <= 2.0 * Abs(J)
  {
    SampleSumsValid(s0, L, J, moves, n, start, interval);
    SampledMagnetizationWithinLattice(s0, L, J, moves, n, start, interval);
    HeatCapacityNonNegative(st, L * L, T);
    SusceptibilityNonNegative(st, L * L, T);
    MagPerSpinBounds(st, L * L, T);
    if L >= 2 {
      SampledEnergyWithinCoupling(s0, L, J, moves, n, start, interval);
      EnergyPerSpinBounds(st, L * L, T, 2.0 * Abs(J));
    }
  }

  // ---------------------------------------------------------------------
  // The driver

  /** Iteration k extends the sums by the running values after move k exactly when it is a sampling step. */
  lemma SampleStatsStep(s0: seq<int>, L: nat, J: real, moves: seq<Move>, k: nat, n: nat, start: nat, interval: nat)
    requires L > 0 && |s0| == L * L && k < |moves| && n == k + 1 && interval > 0
    ensures SampleStats(s0, L, J, moves, n, start, interval)
         == if IsSampleStep(k, start, interval)
            then Accumulate(SampleStats(s0, L, J, moves, k, start, interval),
                            TrackedEnergy(s0, L, J, moves, n),
                            TrackedMagnetization(s0, L, J, moves, n) as real)
            else SampleStats(s0, L, J, moves, k, start, interval)
  {
  }

  /** The loop invariant of the driver survives one move, in terms of the values the move reports. */
  lemma DriverStep(s0: seq<int>, L: nat, J: real, moves: seq<Move>, n: nat, next: nat, start: nat, interval: nat,
                   before: seq<int>, after: seq<int>, e: real, dE: real, m: int, dM: int, st: Stats)
    requires L > 0 && |s0| == L * L && n < |moves| && next == n + 1 && interval > 0
    requires before == Run(s0, L, J, moves, n)
    requires e == TrackedEnergy(s0, L, J, moves, n) && m == TrackedMagnetization(s0, L, J, moves, n)
    requires st == SampleStats(s0, L, J, moves, n, start, interval)
    requires after == Step(before, L, J, moves[n])
    requires dE == StepEnergyDelta(before, L, J, moves[n]) && dM == StepMagDelta(before, L, J, moves[n])
    ensures after == Run(s0, L, J, moves, next)
    ensures e + dE == TrackedEnergy(s0, L, J, moves, next)
    ensures m + dM == TrackedMagnetization(s0, L, J, moves, next)
    ensures (if n >= start && n % interval == 0 then Accumulate(st, e + dE, (m + dM) as real) else st)
         == SampleStats(s0, L, J, moves, next, start, interval)
  {
    RunStep(s0, L, J, moves, n, next);
    SampleStatsStep(s0, L, J, moves, n, next, start, interval);
  }

  /**
   * One iteration of the driver's loop: the move, the running energy and
   * magnetisation advanced by the changes it reports, and the sums extended
   * when the iteration is a sampling step.
   */
  method Advance(spins: array<int>, L: nat, J: real, moves: seq<Move>, n: nat, next: nat, start: nat, interval: nat,
                 ghost s0: seq<int>, e: real, m: int, st: Stats)
      returns (e': real, m': int, st': Stats)
    requires L > 0 && |s0| == L * L && n < |moves| && next == n + 1 && interval > 0
    requires spins.Length == L * L && spins[..] == Run(s0, L, J, moves, n)
    requires e == TrackedEnergy(s0, L, J, moves, n) && m == TrackedMagnetization(s0, L, J, moves, n)
    requires st == SampleStats(s0, L, J, moves, n, start, interval)
    modifies spins
    ensures spins[..] == Run(s0, L, J, moves, next)
    ensures e' == TrackedEnergy(s0, L, J, moves, next) && m' == TrackedMagnetization(s0, L, J, moves, next)
    ensures st' == SampleStats(s0, L, J, moves, next, start, interval)
  {
    ghost var before := spins[..];
    var dE, dM := SpinFlip(spins, L, J, moves[n]);
    DriverStep(s0, L, J, moves, n, next, start, interval, before, spins[..], e, dE, m, dM, st);
    e' := e + dE;
    m' := m + dM;
    st' := st;
    if n >= start && n % interval == 0 {
      st' := Accumulate(st, e', m' as real);
    }
  }

  /**
   * Initialises the lattice from initDraws, runs iterNum moves, keeps the
   * running energy and magnetisation by adding the reported changes, samples
   * them at the sampling steps and derives the observables.
   */
  method MetropolisHastings(L: nat, J: real, T: real, iterNum: nat, startSample: nat, sampleInterval: nat,
                            initDraws: seq<nat>, moves: seq<Move>)
      returns (stats: Stats, obs: Observables)
    requires L > 0 && T > 0.0 && sampleInterval > 0
    requires |initDraws| == L * L && |moves| == iterNum
    requires SampleCount(iterNum, startSample, sampleInterval) > 0
    ensures stats == SampleStats(InitialSpins(initDraws), L, J, moves, iterNum, startSample, sampleInterval)
    ensures stats.count == SampleCount(iterNum, startSample, sampleInterval)
    ensures obs == Derive(stats, L * L, T)
    ensures obs.heatCapacityPerSpin >= 0.0 && obs.susceptibilityPerSpin >= 0.0
    ensures -1.0 <= obs.magPerSpin <= 1.0
    ensures L >= 2 ==> -2.0 * Abs(J) <= obs.energyPerSpin <= 2.0 * Abs(J)
  {
    ghost var s0 := InitialSpins(initDraws);
    var spins := new int[L * L];
    Initialization(spins, L, initDraws);
    var eTot := TotalEnergy(spins, L, J);
    var mTot := TotalMagnetization(spins, L);
    var n := L * L;
    stats := Stats(0.0, 0.0, 0.0, 0.0, 0);

    var i := 0;
    while i < iterNum
      invariant 0 <= i <= iterNum
      invariant spins.Length == L * L
      invariant spins[..] == Run(s0, L, J, moves, i)
      invariant eTot == TrackedEnergy(s0, L, J, moves, i)
      invariant mTot == TrackedMagnetization(s0, L, J, moves, i)
      invariant stats == SampleStats(s0, L, J, moves, i, startSample, sampleInterval)
    {
      var next := i + 1;
      eTot, mTot, stats := Advance(spins, L, J, moves, i, next, startSample, sampleInterval, s0, eTot, mTot, stats);
      i := next;
    }
    assert stats.count == SampleCount(iterNum, startSample, sampleInterval) by {
      SampleStatsCount(s0, L, J, moves, iterNum, startSample, sampleInterval);
    }
    assert n > 0 by {
      PositiveMultiple(L, L);
    }
    obs := Derive(stats, n, T);
    InitialSpinsAreSpins(initDraws);
    SampleStatsObservables(s0, L, J, T, moves, iterNum, startSample, sampleInterval, stats, obs);
  }
}
