/**
 * The observables and the sampling guard as the program computes them,
 * with C's 32-bit int products and unsigned subtraction written out, next to
 * concrete inputs on which they part from the exact definitions in Sampling.
 */
module Findings {
  import opened Lattice
  import opened Sampling

  const TWO_31: int := 0x8000_0000
  const TWO_32: int := 0x1_0000_0000

  /** A mathematical integer reduced to a 32-bit two's-complement int. */
  function WrapInt32(x: int): (r: int)
    ensures -TWO_31 <= r < TWO_31
    ensures (r - x) % TWO_32 == 0
    ensures -TWO_31 <= x < TWO_31 ==> r == x
  {
    (x + TWO_31) % TWO_32 - TWO_31
  }

  /** A mathematical integer reduced to a 32-bit unsigned int. */
  function WrapUInt32(x: int): (r: int)
    ensures 0 <= r < TWO_32
    ensures (r - x) % TWO_32 == 0
    ensures 0 <= x < TWO_32 ==> r == x
  {
    x % TWO_32
  }

  // ---------------------------------------------------------------------
  // The per-spin observables with an int sample count

  /**
   * The magnetisation per spin with the denominator sample_num * N computed in
   * int. A wrapped denominator of zero is a division by zero in the program.
   */
  function WrappedMagPerSpin(st: Stats, N: nat): real
    requires WrapInt32(st.count * N) != 0
  {
    Quotient(st.m1, WrapInt32(st.count * N))
  }

  /**
   * The heat capacity per spin with the denominator sample_num * sample_num
   * computed in int.
   */
  function WrappedHeatCapacity(st: Stats, N: nat, T: real): real
    requires st.count > 0 && N > 0 && T > 0.0 && WrapInt32(st.count * st.count) != 0
  {
    VarianceOver(st.count, WrapInt32(st.count * st.count), st.e1, st.e2) / HeatScale(T, N)
  }

  /** Without overflow, the program's magnetisation per spin is the exact one. */
  lemma WrappedMagPerSpinInRange(st: Stats, N: nat, T: real)
    requires st.count > 0 && N > 0 && T > 0.0 && st.count * N < TWO_31
    ensures WrapInt32(st.count * N) != 0
    ensures WrappedMagPerSpin(st, N) == Derive(st, N, T).magPerSpin
  {
    PositiveMultiple(st.count, N);
    SmallWrap(st.count * N);
  }

  /**
   * Without overflow, the program's heat capacity per spin is the exact one:
   * 46340 is the largest count whose square fits in an int.
   */
  lemma WrappedHeatCapacityInRange(st: Stats, N: nat, T: real)
    requires 0 < st.count <= 46340 && N > 0 && T > 0.0
    ensures WrapInt32(st.count * st.count) != 0
    ensures WrappedHeatCapacity(st, N, T) == Derive(st, N, T).heatCapacityPerSpin
  {
    SquareFits(st.count);
  }

  lemma SquareFits(c: nat)
    requires 0 < c <= 46340
    ensures WrapInt32(c * c) == c * c && c * c != 0
  {
    MulAtMost(c, 46340, c);
    MulAtMost(c, 46340, 46340);
    assert c * 46340 == 46340 * c;
    assert 46340 * 46340 < TWO_31;
    PositiveMultiple(c, c);
    SmallWrap(c * c);
  }

  lemma SmallWrap(x: int)
    requires 0 < x < TWO_31
    ensures WrapInt32(x) == x && x != 0
  {
  }

  /**
   * 65537 samples of energy 1 on a single spin at T = 1: the squared count
   * wraps to 131073, and the heat capacity comes out negative where the exact
   * value is zero. The sums are those such samples produce.
   */
  lemma HeatCapacityWrapsNegative()
    ensures var st := Stats(65537.0, 65537.0, 0.0, 0.0, 65537);
      SumsValid(st.count as real, st.e1, st.e2) &&
      WrapInt32(st.count * st.count) == 131073 &&
      WrappedHeatCapacity(st, 1, 1.0) < 0.0 &&
      Derive(st, 1, 1.0).heatCapacityPerSpin == 0.0
  {
    var st := Stats(65537.0, 65537.0, 0.0, 0.0, 65537);
    assert 65537 * 65537 == TWO_32 + 131073;
    assert WrapInt32(st.count * st.count) == 131073;
    assert HeatScale(1.0, 1) == 1.0;
    assert Variance(65537, 65537.0, 65537.0) == 0.0 by {
      assert 65537.0 / 65537.0 == 1.0;
      assert (65537 * 65537) as real == 65537.0 * 65537.0;
      assert (65537.0 * 65537.0) / (65537.0 * 65537.0) == 1.0;
    }
  }

  /**
   * 2^17 samples of an all-up 128 x 128 lattice: sample_num * N is 2^31, which
   * wraps to -2^31, and the magnetisation per spin comes out -1 where the
   * exact value is 1.
   */
  lemma MagPerSpinWrapsSign()
    ensures var N := 0x4000;
      var st := Stats(0.0, 0.0, 0x8000_0000 as real, 0x2000_0000_0000 as real, 0x2_0000);
      MagnetizationBounded(st, N as real) && SumsValid(st.count as real, st.m1, st.m2) &&
      WrapInt32(st.count * N) == -TWO_31 &&
      WrappedMagPerSpin(st, N) == -1.0 &&
      Derive(st, N, 1.0).magPerSpin == 1.0
  {
    var N := 0x4000;
    var st := Stats(0.0, 0.0, 0x8000_0000 as real, 0x2000_0000_0000 as real, 0x2_0000);
    assert st.count * N == TWO_31;
    assert WrapInt32(st.count * N) == -TWO_31;
    assert (st.count * N) as real == 0x8000_0000 as real;
  }

  // ---------------------------------------------------------------------
  // The sampling guard with unsigned subtraction

  /**
   * The program's guard before the driver: (iter_num - start_sample) /
   * sample_interval in unsigned 32-bit arithmetic, stored in an int, must be
   * positive. Arguments are the unsigned values the program parsed.
   */
  predicate WrappedSamplingGuard(iterNum: nat, start: nat, interval: nat)
    requires 0 < interval < TWO_32
  {
    WrapInt32(WrapUInt32(iterNum - start) / interval) > 0
  }

  /** In range, with the burn-in no later than the end, the program's guard is the exact one. */
  lemma WrappedGuardInRange(iterNum: nat, start: nat, interval: nat)
    requires 0 < interval < TWO_32 && start <= iterNum < TWO_31
    ensures WrappedSamplingGuard(iterNum, start, interval) == SamplingGuard(iterNum, start, interval)
  {
    var d := iterNum - start;
    assert WrapUInt32(d) == d;
    assert d / interval <= d by {
      QuotientAtMost(d, interval);
    }
  }

  lemma QuotientAtMost(d: nat, k: nat)
    requires k > 0
    ensures d / k <= d
  {
    var q := d / k;
    if q > 0 {
      PositiveMultiple(q, k);
      assert q * k <= d;
    }
  }

  /** No iteration below the burn-in start is sampled. */
  lemma {:induction false} NoSamplesBeforeStart(n: nat, start: nat, interval: nat)
    requires interval > 0 && n <= start
    ensures SampleCount(n, start, interval) == 0
  {
    if n > 0 {
      NoSamplesBeforeStart(n - 1, start, interval);
    }
  }

  /**
   * Sampling from step 20 of a 10-step run with interval 2 passes the
   * program's guard, although no iteration is ever sampled; the exact guard
   * rejects it.
   */
  lemma GuardWrapsPastEnd()
    ensures WrappedSamplingGuard(10, 20, 2)
    ensures SampleCount(10, 20, 2) == 0
    ensures !SamplingGuard(10, 20, 2)
  {
    assert WrapUInt32(10 - 20) == TWO_32 - 10;
    assert (TWO_32 - 10) / 2 == TWO_31 - 5;
    NoSamplesBeforeStart(10, 20, 2);
  }
}
