/** Totals that grow by the same amount at every tick, under the default smoothing and multiplier. */
module Growth {
  import opened Baseline

  const ALPHA := DEFAULT.alpha
  const SIGMA_K := DEFAULT.sigmaK

  /** Every reading is the one before plus `r`. */
  predicate Steady(xs: seq<real>, r: real) {
    |xs| > 1 ==> Steady(xs[..|xs| - 1], r) && xs[|xs| - 1] == xs[|xs| - 2] + r
  }

  /** After `n` readings that grow by 1: how far the next one is ahead of the mean. */
  function Gap(n: nat): real {
    if n == 0 then 0.0 else 0.9 * Gap(n - 1) + 1.0
  }

  /** The variance at that point. */
  function Spread(n: nat): real {
    if n == 0 then 0.0 else 0.9 * (Spread(n - 1) + 0.1 * Sq(Gap(n - 1)))
  }

  /** Gap and variance of a series about to read `x`, in multiples of `r` and its square. */
  ghost predicate Trails(m: Series, x: real, r: real, gap: real, spread: real) {
    x - m.mean == gap * r && m.variance == spread * Sq(r)
  }

  lemma ScaledSquare(gap: real, r: real)
    ensures Sq(gap * r) == Sq(gap) * Sq(r)
  {
    Regroup(gap, r);
  }

  lemma ScaledSpread(spread: real, gap: real, r: real, v: real, q: real)
    requires v == spread * Sq(r) && q == Sq(gap) * Sq(r)
    ensures 0.9 * v + 0.9 * (0.1 * q) == 0.9 * (spread + 0.1 * Sq(gap)) * Sq(r)
  {
    var s := Sq(r);
    assert 0.9 * (spread * s) + 0.09 * (Sq(gap) * s) == (0.9 * spread + 0.09 * Sq(gap)) * s;
  }

  lemma TrailsOn(m: Series, x: real, r: real, gap: real, spread: real)
    requires Trails(m, x, r, gap, spread)
    ensures Trails(Update(ALPHA, m, x), x + r, r, 0.9 * gap + 1.0, 0.9 * (spread + 0.1 * Sq(gap)))
  {
    var d := x - m.mean;
    UpdateGap(ALPHA, m, x);
    ScaledSquare(gap, r);
    assert d * d == Sq(d);
    ScaledSpread(spread, gap, r, m.variance, Sq(d));
    assert 0.9 * (gap * r) + r == (0.9 * gap + 1.0) * r;
  }

  /** Mean and variance after steady readings, whatever the first reading and the growth. */
  lemma {:induction false} SteadySeries(xs: seq<real>, r: real)
    requires xs != [] && Steady(xs, r)
    ensures Trails(SeriesOf(ALPHA, xs), xs[|xs| - 1] + r, r, Gap(|xs|), Spread(|xs|))
  {
    var x := xs[|xs| - 1];
    if |xs| == 1 {
      TrailsOn(Series(x, 0.0), x, r, 0.0, 0.0);
      assert Gap(1) == 1.0 && Spread(1) == 0.0;
    } else {
      var init := xs[..|xs| - 1];
      SteadySeries(init, r);
      assert init[|init| - 1] == xs[|xs| - 2];
      TrailsOn(SeriesOf(ALPHA, init), x, r, Gap(|init|), Spread(|init|));
    }
  }

  /** Three deviations cover the gap except after one to four readings. */
  predicate Covered(n: nat) {
    Sq(Gap(n)) <= 9.0 * Spread(n)
  }

  lemma CoverageLasts(g: real, s: real)
    requires 4.0 <= g && Sq(g) <= 9.0 * s
    ensures 4.0 <= 0.9 * g + 1.0
    ensures Sq(0.9 * g + 1.0) <= 9.0 * (0.9 * (s + 0.1 * Sq(g)))
  {
    Product(g - 4.0, g);
    assert Sq(0.9 * g + 1.0) == 0.81 * Sq(g) + 1.8 * g + 1.0;
  }

  lemma FirstGaps()
    ensures Gap(1) == 1.0 && Gap(2) == 1.9 && Gap(3) == 2.71 && Gap(4) == 3.439 && Gap(5) == 4.0951
    ensures Spread(1) == 0.0 && Spread(2) == 0.09 && Spread(3) == 0.40590 && 1.02 < Spread(4) < 1.03 && 1.98 < Spread(5)
    ensures !Covered(1) && !Covered(2) && !Covered(3) && !Covered(4) && Covered(5)
  {
  }

  lemma {:induction false} CoveredFromFive(n: nat)
    requires n >= 5
    ensures 4.0 <= Gap(n) && Covered(n)
  {
    FirstGaps();
    if n > 5 {
      CoveredFromFive(n - 1);
      CoverageLasts(Gap(n - 1), Spread(n - 1));
    }
  }

  lemma {:induction false} SpreadNonNegative(n: nat)
    ensures Spread(n) >= 0.0 && Gap(n) >= 0.0
  {
    if n > 0 {
      SpreadNonNegative(n - 1);
      Square(Gap(n - 1));
    }
  }

  lemma CoveredExactly(n: nat)
    requires n > 0
    ensures Covered(n) <==> n >= 5
  {
    FirstGaps();
    if n >= 5 {
      CoveredFromFive(n);
    }
  }

  /** A gap of `g` growths against three deviations `s`. */
  lemma GapAgainstDeviations(g: real, r: real, spread: real, s: real)
    requires 0.0 <= g && 0.0 < r && 0.0 <= spread && 0.0 <= s && Sq(s) == spread * Sq(r)
    ensures g * r <= SIGMA_K * s <==> Sq(g) <= 9.0 * spread
  {
    ScaledSquare(g, r);
    Product(g, r);
    SquareOrder(g * r, 3.0 * s);
    assert (3.0 * s) * (3.0 * s) == 9.0 * (spread * Sq(r));
    var q := PositiveSquare(r);
    SameFactor(Sq(g), 9.0 * spread, q);
    assert 9.0 * spread * Sq(r) == 9.0 * (spread * Sq(r));
  }

  lemma SameFactor(p: real, q: real, r: real)
    requires r > 0.0
    ensures p * r <= q * r <==> p <= q
  {
    if p <= q {
      Scale(p, q, r);
    } else {
      Positive(p - q, r);
    }
  }

  lemma NoGap(g: real, r: real, s: real)
    requires 0.0 <= g && r <= 0.0 && 0.0 <= s
    ensures g * r <= SIGMA_K * s
  {
    Product(g, -r);
    assert g * r == -(g * -r);
  }

  lemma ExceedsByGap(sqrt: real -> real, floor: real, m: Series, x: real, r: real, g: real, spread: real)
    requires IsSqrt(sqrt) && 0.0 <= g && 0.0 <= spread && Trails(m, x, r, g, spread)
    ensures Exceeds(sqrt, SIGMA_K, floor, m, x) <==> r > 0.0 && Sq(g) > 9.0 * spread && sqrt(m.variance) > floor
  {
    Square(r);
    Product(spread, Sq(r));
    var s := sqrt(m.variance);
    if r > 0.0 {
      GapAgainstDeviations(g, r, spread, s);
    } else {
      NoGap(g, r, s);
    }
  }

  lemma ExceedsAfter(sqrt: real -> real, floor: real, m: Series, x: real, r: real, n: nat, g: real, spread: real)
    requires IsSqrt(sqrt) && n > 0 && g == Gap(n) && spread == Spread(n) && Trails(m, x, r, g, spread)
    ensures Exceeds(sqrt, SIGMA_K, floor, m, x) <==> r > 0.0 && n <= 4 && sqrt(m.variance) > floor
  {
    SpreadNonNegative(n);
    ExceedsByGap(sqrt, floor, m, x, r, g, spread);
    CoveredExactly(n);
  }

  /** Under steady growth the next reading exceeds the test exactly after one to four readings, when the totals do grow
      and the deviation is above its floor. */
  lemma SteadyGrowthExactly(sqrt: real -> real, floor: real, xs: seq<real>, r: real)
    requires IsSqrt(sqrt) && xs != [] && Steady(xs, r)
    ensures Exceeds(sqrt, SIGMA_K, floor, SeriesOf(ALPHA, xs), xs[|xs| - 1] + r)
       <==> r > 0.0 && |xs| <= 4 && sqrt(SeriesOf(ALPHA, xs).variance) > floor
  {
    SteadySeries(xs, r);
    ExceedsAfter(sqrt, floor, SeriesOf(ALPHA, xs), xs[|xs| - 1] + r, r, |xs|, Gap(|xs|), Spread(|xs|));
  }
}
