/** `Manager.ObserveHost`: exponentially weighted mean and variance of a host's readings, and the deviation alerts. */
module Baseline {
  import opened Packets
  import opened Totals

  datatype Config = Config(warmupSec: int, alpha: real, sigmaK: real)

  /** The defaults of the smoothing factor and the deviation multiplier. */
  const DEFAULT := Config(60, 0.1, 3.0)

  /** `math.Sqrt` in exact arithmetic. */
  ghost predicate IsSqrt(sqrt: real -> real) {
    forall v: real | v >= 0.0 :: sqrt(v) >= 0.0 && sqrt(v) * sqrt(v) == v
  }

  // ---- one smoothed series ----

  datatype Series = Series(mean: real, variance: real)

  /** One step of an exponential moving average. */
  function Mix(a: real, x: real, u: real): real {
    a * x + (1.0 - a) * u
  }

  function Update(a: real, m: Series, x: real): Series {
    var diff := x - m.mean;
    Series(Mix(a, x, m.mean), (1.0 - a) * (m.variance + a * diff * diff))
  }

  /** The deviation test; the square root of a negative variance is not a number and passes no comparison. */
  predicate Exceeds(sqrt: real -> real, k: real, floor: real, m: Series, x: real) {
    m.variance >= 0.0 && sqrt(m.variance) > floor && x > m.mean + k * sqrt(m.variance)
  }

  lemma Positive(p: real, q: real)
    requires p > 0.0 && q > 0.0
    ensures p * q > 0.0
  {
  }

  lemma PositiveSquare(d: real) returns (r: real)
    requires d > 0.0
    ensures r == d * d && r > 0.0
  {
    r := d * d;
    PositiveProduct(d, d, r);
  }

  lemma PositiveProduct(p: real, q: real, r: real)
    requires p > 0.0 && q > 0.0 && r == p * q
    ensures r > 0.0
  {
  }

  lemma StrictSquares(p: real, q: real)
    requires 0.0 <= p < q
    ensures p * p < q * q
  {
    Positive(q - p, q + p);
    assert (q - p) * (q + p) == q * q - p * p;
  }

  lemma SquareOrder(p: real, q: real)
    requires p >= 0.0 && q >= 0.0
    ensures p * p < q * q <==> p < q
    ensures p * p <= q * q <==> p <= q
  {
    if p < q {
      StrictSquares(p, q);
    } else if q < p {
      StrictSquares(q, p);
    }
  }

  lemma Scale(p: real, q: real, r: real)
    requires p <= q && r >= 0.0
    ensures p * r <= q * r
  {
  }

  lemma Product(p: real, q: real)
    requires p >= 0.0 && q >= 0.0
    ensures p * q >= 0.0
  {
  }

  lemma Regroup(p: real, q: real)
    ensures (p * q) * (p * q) == (p * p) * (q * q)
  {
  }

  lemma Square(d: real)
    ensures d * d >= 0.0
  {
  }

  /** What an update leaves: the gap to the reading shrinks by 1 - a, the variance gains a (1 - a) times its square. */
  lemma UpdateGap(a: real, m: Series, x: real)
    ensures x - Update(a, m, x).mean == (1.0 - a) * (x - m.mean)
    ensures Update(a, m, x).variance == (1.0 - a) * m.variance + (1.0 - a) * (a * ((x - m.mean) * (x - m.mean)))
  {
  }

  lemma VarianceStaysNonNegative(a: real, m: Series, x: real)
    requires 0.0 <= a <= 1.0 && m.variance >= 0.0
    ensures Update(a, m, x).variance >= (1.0 - a) * (a * ((x - m.mean) * (x - m.mean))) >= 0.0
  {
    var d := x - m.mean;
    UpdateGap(a, m, x);
    Square(d);
    Product(a, d * d);
    Product(1.0 - a, a * (d * d));
    Product(1.0 - a, m.variance);
  }

  lemma GapWithinDeviations(a: real, b: real, k: real, d: real, s: real)
    requires 0.0 <= b && 0.0 <= k && 0.0 <= s
    requires b * (a * (d * d)) <= s * s && b <= k * k * a
    ensures b * d <= k * s
  {
    Product(k, s);
    if d <= 0.0 {
      Product(b, -d);
    } else {
      Square(d);
      Square(k);
      Product(b, d);
      var e := b * (d * d);
      Product(b, d * d);
      Scale(b, k * k * a, e);
      Scale(b * (a * (d * d)), s * s, k * k);
      assert b * (a * (d * d)) * (k * k) == k * k * a * e;
      assert (b * d) * (b * d) == b * e;
      Regroup(k, s);
      SquareOrder(b * d, k * s);
    }
  }

  /** A reading that does not exceed the one just absorbed raises no alert, whatever mean and variance were before. */
  lemma NoRepeatedAlert(sqrt: real -> real, a: real, k: real, floor: real, m: Series, x: real, y: real)
    requires IsSqrt(sqrt) && 0.0 <= a <= 1.0 && 0.0 <= k && k * k * a >= 1.0 - a
    requires m.variance >= 0.0 && y <= x
    ensures !Exceeds(sqrt, k, floor, Update(a, m, x), y)
  {
    var after := Update(a, m, x);
    assert after.variance >= 0.0 && x - after.mean <= k * sqrt(after.variance) by {
      VarianceStaysNonNegative(a, m, x);
      UpdateGap(a, m, x);
      GapWithinDeviations(a, 1.0 - a, k, x - m.mean, sqrt(after.variance));
    }
    WithinTest(sqrt, k, floor, after, x, y);
  }

  lemma WithinTest(sqrt: real -> real, k: real, floor: real, m: Series, x: real, y: real)
    requires m.variance >= 0.0 && x - m.mean <= k * sqrt(m.variance) && y <= x
    ensures !Exceeds(sqrt, k, floor, m, y)
  {
  }

  /** The guarantee holds for all means, variances and readings exactly when SigmaK^2 * Alpha >= 1 - Alpha. */
  ghost predicate NeverRepeats(sqrt: real -> real, a: real, k: real, floor: real) {
    forall m: Series, x: real, y: real | m.variance >= 0.0 && y <= x :: !Exceeds(sqrt, k, floor, Update(a, m, x), y)
  }

  lemma RepeatExactly(sqrt: real -> real, a: real, k: real, floor: real)
    requires IsSqrt(sqrt) && 0.0 <= a <= 1.0 && 0.0 <= k && 0.0 <= floor
    ensures NeverRepeats(sqrt, a, k, floor) <==> k * k * a >= 1.0 - a
  {
    if k * k * a >= 1.0 - a {
      forall m: Series, x: real, y: real | m.variance >= 0.0 && y <= x
        ensures !Exceeds(sqrt, k, floor, Update(a, m, x), y)
      {
        NoRepeatedAlert(sqrt, a, k, floor, m, x, y);
      }
    } else if a == 0.0 {
      StillRepeats(sqrt, k, floor);
    } else {
      SpikeRepeats(sqrt, a, k, floor);
    }
  }

  /** Without smoothing the variance never moves, so a large reading alerts again and again. */
  lemma StillRepeats(sqrt: real -> real, k: real, floor: real)
    requires IsSqrt(sqrt) && 0.0 <= k && 0.0 <= floor
    ensures !NeverRepeats(sqrt, 0.0, k, floor)
  {
    var v := (floor + 1.0) * (floor + 1.0);
    var m, x := Series(0.0, v), k * sqrt(v) + 1.0;
    assert Update(0.0, m, x) == m;
    SquareOrder(floor, sqrt(v));
    assert Exceeds(sqrt, k, floor, Update(0.0, m, x), x);
  }

  lemma SpikeSize(a: real, floor: real) returns (d: real)
    requires 0.0 < a < 1.0 && 0.0 <= floor
    ensures d > 0.0 && (1.0 - a) * (a * (d * d)) >= (floor + 1.0) * (floor + 1.0)
  {
    var b := (1.0 - a) * a;
    Product(1.0 - a, a);
    assert 0.0 < b <= 1.0 by { Scale(1.0 - a, 1.0, a); }
    d := (floor + 1.0) / b;
    assert b * d == floor + 1.0;
    Scale(b, 1.0, d);
    Scale(floor + 1.0, d, floor + 1.0);
    assert (1.0 - a) * (a * (d * d)) == (b * d) * d;
  }

  lemma SpikeArea(b: real, d: real) returns (e: real)
    requires 0.0 < b && 0.0 < d
    ensures e == b * (d * d) && e > 0.0 && (b * d) * (b * d) == b * e && b * d > 0.0
  {
    var dd := PositiveSquare(d);
    Positive(b, dd);
    Positive(b, d);
    e := b * dd;
  }

  lemma SpikeGap(a: real, b: real, k: real, d: real, s: real)
    requires 0.0 < b && 0.0 <= k && 0.0 < d && 0.0 <= s
    requires s * s == b * (a * (d * d)) && k * k * a < b
    ensures k * s < b * d
  {
    var e := SpikeArea(b, d);
    Regroup(k, s);
    assert (k * k) * (s * s) == k * k * a * e;
    var gap := b - k * k * a;
    Positive(gap, e);
    assert gap * e == b * e - k * k * a * e;
    Product(k, s);
    SquareOrder(k * s, b * d);
  }

  /** From a still series, a large enough spike alerts on its own repetition. */
  lemma SpikeRepeats(sqrt: real -> real, a: real, k: real, floor: real)
    requires IsSqrt(sqrt) && 0.0 < a < 1.0 && 0.0 <= k && 0.0 <= floor && k * k * a < 1.0 - a
    ensures !NeverRepeats(sqrt, a, k, floor)
  {
    var d := SpikeSize(a, floor);
    var m := Series(0.0, 0.0);
    var after := Update(a, m, d);
    UpdateGap(a, m, d);
    var s := sqrt(after.variance);
    assert floor < s by {
      SquareOrder(floor + 1.0, s);
    }
    SpikeGap(a, 1.0 - a, k, d, s);
    assert Exceeds(sqrt, k, floor, after, d);
  }

  /** The defaults meet the condition, with equality. */
  lemma DefaultsNeverRepeat(sqrt: real -> real, floor: real)
    requires IsSqrt(sqrt) && 0.0 <= floor
    ensures DEFAULT.sigmaK * DEFAULT.sigmaK * DEFAULT.alpha == 1.0 - DEFAULT.alpha
    ensures NeverRepeats(sqrt, DEFAULT.alpha, DEFAULT.sigmaK, floor)
  {
    RepeatExactly(sqrt, DEFAULT.alpha, DEFAULT.sigmaK, floor);
  }

  // ---- mean and variance over a run of readings ----

  /** A fresh host starts at its first reading with variance 0 and then absorbs every reading, the first included. */
  function SeriesOf(a: real, xs: seq<real>): Series
    requires xs != []
  {
    if |xs| == 1 then Update(a, Series(xs[0], 0.0), xs[0])
    else Update(a, SeriesOf(a, xs[..|xs| - 1]), xs[|xs| - 1])
  }

  function Sq(x: real): real {
    x * x
  }

  function Squares(xs: seq<real>): seq<real> {
    seq(|xs|, i requires 0 <= i < |xs| => Sq(xs[i]))
  }

  lemma Moments(a: real, u: real, q: real, x: real, v: real, n: real, g: real)
    requires v == q - Sq(u) && n == Mix(a, x, u) && g == a * Sq(x - u)
    ensures (1.0 - a) * v + (1.0 - a) * g == Mix(a, Sq(x), q) - Sq(n)
  {
    assert (1.0 - a) * (q - u * u) + (1.0 - a) * (a * ((x - u) * (x - u)))
        == a * (x * x) + (1.0 - a) * q - (a * x + (1.0 - a) * u) * (a * x + (1.0 - a) * u);
  }

  lemma UpdateMoments(a: real, m: Series, q: real, x: real, after: Series)
    requires m.variance == q - Sq(m.mean) && after == Update(a, m, x)
    ensures after.mean == Mix(a, x, m.mean)
    ensures after.variance == Mix(a, Sq(x), q) - Sq(after.mean)
  {
    UpdateGap(a, m, x);
    Moments(a, m.mean, q, x, m.variance, after.mean, a * Sq(x - m.mean));
  }

  /** The exponential moving average of a list, starting at its first item. */
  function Smoothed(a: real, ys: seq<real>): real
    requires ys != []
  {
    if |ys| == 1 then ys[0] else a * ys[|ys| - 1] + (1.0 - a) * Smoothed(a, ys[..|ys| - 1])
  }

  /** The same over a value to start from. */
  function Averaged(a: real, start: real, ys: seq<real>): real {
    if ys == [] then start else a * ys[|ys| - 1] + (1.0 - a) * Averaged(a, start, ys[..|ys| - 1])
  }

  /** A series that absorbs readings. */
  function SeriesFrom(a: real, m: Series, xs: seq<real>): Series {
    if xs == [] then m else Update(a, SeriesFrom(a, m, xs[..|xs| - 1]), xs[|xs| - 1])
  }

  /** From any mean and second moment to start from, the mean is the moving average of the readings and the variance
      that of their squares minus its square. */
  lemma {:induction false} SeriesMoments(a: real, m: Series, q: real, xs: seq<real>)
    requires m.variance == q - Sq(m.mean)
    ensures SeriesFrom(a, m, xs).mean == Averaged(a, m.mean, xs)
    ensures SeriesFrom(a, m, xs).variance == Averaged(a, q, Squares(xs)) - Sq(SeriesFrom(a, m, xs).mean)
  {
    if xs != [] {
      var init, x := xs[..|xs| - 1], xs[|xs| - 1];
      SeriesMoments(a, m, q, init);
      AveragedSquares(a, q, xs);
      UpdateMoments(a, SeriesFrom(a, m, init), Averaged(a, q, Squares(init)), x, SeriesFrom(a, m, xs));
    }
  }

  lemma AveragedSquares(a: real, q: real, xs: seq<real>)
    requires xs != []
    ensures Averaged(a, q, Squares(xs)) == Mix(a, Sq(xs[|xs| - 1]), Averaged(a, q, Squares(xs[..|xs| - 1])))
  {
    assert Squares(xs)[..|xs| - 1] == Squares(xs[..|xs| - 1]);
  }

  /** A reading `y` more than `k` deviations above the mean of a series whose deviation is above the floor, with no root
      taken. */
  predicate Above(k: real, floor: real, mean: real, variance: real, y: real) {
    var d := y - mean;
    && variance > floor * floor
    && if k >= 0.0 then d > 0.0 && d * d > k * k * variance else d >= 0.0 || d * d < k * k * variance
  }

  lemma ExceedsExactly(sqrt: real -> real, k: real, floor: real, m: Series, y: real)
    requires IsSqrt(sqrt) && floor >= 0.0
    ensures Exceeds(sqrt, k, floor, m, y) <==> Above(k, floor, m.mean, m.variance, y)
  {
    Square(floor);
    if m.variance >= 0.0 {
      var s := sqrt(m.variance);
      SquareOrder(floor, s);
      if s > floor {
        BeyondExactly(k, s, m.variance, y - m.mean);
      }
    }
  }

  lemma BeyondExactly(k: real, s: real, v: real, d: real)
    requires s > 0.0 && s * s == v
    ensures d > k * s <==> if k >= 0.0 then d > 0.0 && d * d > k * k * v else d >= 0.0 || d * d < k * k * v
  {
    Regroup(k, s);
    assert (k * s) * (k * s) == k * k * v;
    if k >= 0.0 {
      Product(k, s);
      if d > 0.0 {
        SquareOrder(k * s, d);
      }
    } else {
      Positive(-k, s);
      assert -k * s == -(k * s);
      if d < 0.0 {
        SquareOrder(-d, -(k * s));
      }
    }
  }

  /** The mean is the moving average of the readings, and the variance that of their squares minus its square. */
  lemma {:induction false} VarianceLaw(a: real, xs: seq<real>)
    requires xs != []
    ensures SeriesOf(a, xs).mean == Smoothed(a, xs)
    ensures SeriesOf(a, xs).variance == Smoothed(a, Squares(xs)) - Sq(Smoothed(a, xs))
  {
    if |xs| == 1 {
      Idle(a, xs[0]);
    } else {
      VarianceLaw(a, xs[..|xs| - 1]);
      SmoothedSquares(a, xs);
      VarianceStep(a, xs, SeriesOf(a, xs[..|xs| - 1]), Smoothed(a, Squares(xs[..|xs| - 1])));
    }
  }

  lemma SmoothedSquares(a: real, xs: seq<real>)
    requires |xs| > 1
    ensures Smoothed(a, Squares(xs)) == Mix(a, Sq(xs[|xs| - 1]), Smoothed(a, Squares(xs[..|xs| - 1])))
  {
    assert Squares(xs)[..|xs| - 1] == Squares(xs[..|xs| - 1]);
  }

  lemma VarianceStep(a: real, xs: seq<real>, m: Series, q: real)
    requires |xs| > 1 && m == SeriesOf(a, xs[..|xs| - 1]) && m.variance == q - Sq(m.mean)
    ensures SeriesOf(a, xs).mean == Mix(a, xs[|xs| - 1], m.mean)
    ensures SeriesOf(a, xs).variance == Mix(a, Sq(xs[|xs| - 1]), q) - Sq(SeriesOf(a, xs).mean)
  {
    UpdateMoments(a, m, q, xs[|xs| - 1], SeriesOf(a, xs));
  }

  /** A series at rest at a reading is left at rest by it. */
  lemma Idle(a: real, x: real)
    ensures Update(a, Series(x, 0.0), x) == Series(x, 0.0)
  {
  }

  /** The height of the chord through the squares of lo and hi above the square of n. */
  function Room(lo: real, hi: real, n: real): real {
    (hi - n) * (n - lo)
  }

  /** The mean lies in [lo, hi] and the variance fits under the chord. */
  ghost predicate Bounded(m: Series, lo: real, hi: real) {
    lo <= m.mean <= hi && 0.0 <= m.variance <= Room(lo, hi, m.mean)
  }

  /** The height of the chord at x. */
  function Line(lo: real, hi: real, x: real): real {
    (lo + hi) * x - lo * hi
  }

  lemma Chord(lo: real, hi: real, x: real)
    ensures Room(lo, hi, x) == Line(lo, hi, x) - Sq(x)
  {
  }

  lemma UnderLine(lo: real, hi: real, x: real)
    requires lo <= x <= hi
    ensures Sq(x) <= Line(lo, hi, x)
  {
    Product(hi - x, x - lo);
    Chord(lo, hi, x);
  }

  lemma LineOfMix(lo: real, hi: real, a: real, x: real, u: real)
    ensures Mix(a, Line(lo, hi, x), Line(lo, hi, u)) == Line(lo, hi, Mix(a, x, u))
  {
    var s, c, m := lo + hi, lo * hi, Mix(a, x, u);
    assert a * (s * x - c) + (1.0 - a) * (s * u - c) == s * (a * x + (1.0 - a) * u) - c;
  }

  lemma MixMonotone(a: real, x: real, y: real, u: real, v: real)
    requires 0.0 <= a <= 1.0 && x <= y && u <= v
    ensures Mix(a, x, u) <= Mix(a, y, v)
  {
    Product(a, y - x);
    Product(1.0 - a, v - u);
  }

  /** Reading and mean lie under the chord through the squares of lo and hi, and so does their average. */
  lemma UpdateBounds(a: real, m: Series, x: real, lo: real, hi: real)
    requires 0.0 <= a <= 1.0 && lo <= x <= hi && Bounded(m, lo, hi)
    ensures Bounded(Update(a, m, x), lo, hi)
  {
    var after, q := Update(a, m, x), m.variance + Sq(m.mean);
    VarianceStaysNonNegative(a, m, x);
    Between(a, x, m.mean, lo, hi);
    UpdateMoments(a, m, q, x, after);
    UnderChord(a, x, m.mean, q, lo, hi, after.mean);
  }

  lemma UnderChord(a: real, x: real, u: real, q: real, lo: real, hi: real, n: real)
    requires 0.0 <= a <= 1.0 && lo <= x <= hi && n == Mix(a, x, u)
    requires q - Sq(u) <= Room(lo, hi, u)
    ensures Mix(a, Sq(x), q) - Sq(n) <= Room(lo, hi, n)
  {
    Chord(lo, hi, u);
    Chord(lo, hi, n);
    UnderLine(lo, hi, x);
    MixMonotone(a, Sq(x), Line(lo, hi, x), q, Line(lo, hi, u));
    LineOfMix(lo, hi, a, x, u);
  }

  lemma Between(a: real, x: real, u: real, lo: real, hi: real)
    requires 0.0 <= a <= 1.0 && lo <= x <= hi && lo <= u <= hi
    ensures lo <= Mix(a, x, u) <= hi
  {
    Product(a, x - lo);
    Product(a, hi - x);
    Product(1.0 - a, u - lo);
    Product(1.0 - a, hi - u);
  }

  /** Readings within bounds keep the mean within them and the variance below (hi - mean) * (mean - lo). */
  lemma {:induction false} SeriesBounds(a: real, xs: seq<real>, lo: real, hi: real)
    requires xs != [] && 0.0 <= a <= 1.0
    requires forall i | 0 <= i < |xs| :: lo <= xs[i] <= hi
    ensures Bounded(SeriesOf(a, xs), lo, hi)
  {
    var x := xs[|xs| - 1];
    if |xs| == 1 {
      Product(hi - x, x - lo);
      UpdateBounds(a, Series(x, 0.0), x, lo, hi);
    } else {
      SeriesBounds(a, xs[..|xs| - 1], lo, hi);
      UpdateBounds(a, SeriesOf(a, xs[..|xs| - 1]), x, lo, hi);
    }
  }

  /** Constant readings leave no variance, so no next reading, however large, exceeds the test. */
  lemma ConstantNeverAlerts(sqrt: real -> real, a: real, k: real, floor: real, xs: seq<real>, x: real, y: real)
    requires IsSqrt(sqrt) && xs != [] && 0.0 <= a <= 1.0 && 0.0 <= floor
    requires forall i | 0 <= i < |xs| :: xs[i] == x
    ensures !Exceeds(sqrt, k, floor, SeriesOf(a, xs), y)
  {
    var m := SeriesOf(a, xs);
    SeriesBounds(a, xs, x, x);
    assert m.mean == x;
    assert m.variance == 0.0;
    SquareOrder(0.0, sqrt(m.variance));
  }

  // ---- hosts ----

  datatype Metrics = Metrics(packets: Series, bytes: Series, portsMean: real, samples: nat, lastUpdated: Time)

  const PACKETS_FLOOR := 1.0
  const BYTES_FLOOR := 1024.0

  /** The record the test runs on: the stored one, or a new one at the readings. */
  function Current(hosts: map<string, Metrics>, ip: string, pkts: real, bytes: real, ports: real, now: Time): Metrics {
    if ip in hosts then hosts[ip] else Metrics(Series(pkts, 0.0), Series(bytes, 0.0), ports, 0, now)
  }

  predicate Tested(cfg: Config, start: Time, m: Metrics, now: Time) {
    (now - start >= cfg.warmupSec * SECOND || m.samples >= 30) && m.samples > 10
  }

  function Alerts(cfg: Config, sqrt: real -> real, start: Time, m: Metrics, ip: string, pkts: real, bytes: real,
                  now: Time): seq<Event> {
    if !Tested(cfg, start, m, now) then []
    else (if Exceeds(sqrt, cfg.sigmaK, PACKETS_FLOOR, m.packets, pkts) then [PacketRate(now, ip)] else [])
         + (if Exceeds(sqrt, cfg.sigmaK, BYTES_FLOOR, m.bytes, bytes) then [ByteRate(now, ip)] else [])
  }

  function Absorbed(cfg: Config, m: Metrics, pkts: real, bytes: real, ports: real, now: Time): Metrics {
    Metrics(Update(cfg.alpha, m.packets, pkts), Update(cfg.alpha, m.bytes, bytes),
            Mix(cfg.alpha, ports, m.portsMean), m.samples + 1, now)
  }

  function Observe(cfg: Config, sqrt: real -> real, start: Time, hosts: map<string, Metrics>,
                   ip: string, pkts: real, bytes: real, ports: real, now: Time): (map<string, Metrics>, seq<Event>)
  {
    var m := Current(hosts, ip, pkts, bytes, ports, now);
    (hosts[ip := Absorbed(cfg, m, pkts, bytes, ports, now)], Alerts(cfg, sqrt, start, m, ip, pkts, bytes, now))
  }

  method Deviates(sqrt: real -> real, k: real, floor: real, mean: real, variance: real, x: real) returns (high: bool)
    ensures high <==> Exceeds(sqrt, k, floor, Series(mean, variance), x)
  {
    high := false;
    if variance >= 0.0 {
      var stdDev := sqrt(variance);
      high := stdDev > floor && x > mean + k * stdDev;
    }
  }

  class HostMetrics {
    const ip: string
    var packetsSecEMA: real
    var bytesSecEMA: real
    var portsMinEMA: real
    var packetsSecVar: real
    var bytesSecVar: real
    var sampleCount: nat
    var lastUpdated: Time

    ghost function Value(): Metrics
      reads this
    {
      Metrics(Series(packetsSecEMA, packetsSecVar), Series(bytesSecEMA, bytesSecVar), portsMinEMA, sampleCount,
              lastUpdated)
    }

    constructor (ip: string, pktsSec: real, bytesSec: real, portsMin: real, now: Time)
      ensures this.ip == ip && Value() == Metrics(Series(pktsSec, 0.0), Series(bytesSec, 0.0), portsMin, 0, now)
    {
      this.ip := ip;
      packetsSecEMA, bytesSecEMA, portsMinEMA := pktsSec, bytesSec, portsMin;
      packetsSecVar, bytesSecVar := 0.0, 0.0;
      sampleCount, lastUpdated := 0, now;
    }

    method Absorb(config: Config, pktsSec: real, bytesSec: real, portsMin: real, now: Time)
      modifies this
      ensures Value() == Absorbed(config, old(Value()), pktsSec, bytesSec, portsMin, now)
    {
      ghost var m := Value();
      var alpha := config.alpha;
      sampleCount := sampleCount + 1;
      var diffP := pktsSec - packetsSecEMA;
      packetsSecEMA := alpha * pktsSec + (1.0 - alpha) * packetsSecEMA;
      packetsSecVar := (1.0 - alpha) * (packetsSecVar + alpha * diffP * diffP);
      assert Series(packetsSecEMA, packetsSecVar) == Update(alpha, m.packets, pktsSec);
      var diffB := bytesSec - bytesSecEMA;
      bytesSecEMA := alpha * bytesSec + (1.0 - alpha) * bytesSecEMA;
      bytesSecVar := (1.0 - alpha) * (bytesSecVar + alpha * diffB * diffB);
      assert Series(bytesSecEMA, bytesSecVar) == Update(alpha, m.bytes, bytesSec);
      portsMinEMA := alpha * portsMin + (1.0 - alpha) * portsMinEMA;
      lastUpdated := now;
    }
  }

  class Manager {
    const config: Config
    const startTime: Time
    var hosts: map<string, HostMetrics>
    ghost var view: map<string, Metrics>
    ghost var repr: set<object>

    /** `view` is what the host records hold; each sits under its own address. */
    ghost predicate Valid()
      reads this, repr
    {
      && this in repr && hosts.Keys == view.Keys
      && forall ip | ip in hosts :: hosts[ip] in repr && hosts[ip].ip == ip && hosts[ip].Value() == view[ip]
    }

    constructor (cfg: Config, now: Time)
      ensures Valid() && fresh(repr) && view == map[] && config == cfg && startTime == now
    {
      config, startTime := cfg, now;
      hosts, view := map[], map[];
      repr := {this};
    }

    /** The host's record, created at the readings when it is new. */
    method Record(ip: string, pktsSec: real, bytesSec: real, portsMin: real, now: Time) returns (hm: HostMetrics)
      requires Valid()
      modifies this
      ensures Valid() && fresh(repr - old(repr))
      ensures ip in hosts && hosts[ip] == hm && hm in repr
      ensures hm.Value() == Current(old(view), ip, pktsSec, bytesSec, portsMin, now)
      ensures view == old(view)[ip := hm.Value()]
    {
      if ip in hosts {
        hm := hosts[ip];
        assert view == old(view)[ip := hm.Value()];
      } else {
        hm := new HostMetrics(ip, pktsSec, bytesSec, portsMin, now);
        hosts := hosts[ip := hm];
        view := view[ip := hm.Value()];
        repr := repr + {hm};
      }
    }

    method Evaluate(hm: HostMetrics, pktsSec: real, bytesSec: real, now: Time, sqrt: real -> real)
      returns (events: seq<Event>)
      ensures events == Alerts(config, sqrt, startTime, hm.Value(), hm.ip, pktsSec, bytesSec, now)
    {
      events := [];
      var isWarmedUp := now - startTime >= config.warmupSec * SECOND || hm.sampleCount >= 30;
      if isWarmedUp && hm.sampleCount > 10 {
        var pktsHigh := Deviates(sqrt, config.sigmaK, 1.0, hm.packetsSecEMA, hm.packetsSecVar, pktsSec);
        if pktsHigh {
          events := events + [PacketRate(now, hm.ip)];
        }
        var bytesHigh := Deviates(sqrt, config.sigmaK, 1024.0, hm.bytesSecEMA, hm.bytesSecVar, bytesSec);
        if bytesHigh {
          events := events + [ByteRate(now, hm.ip)];
        }
      }
    }

    method ObserveHost(ip: string, pktsSec: real, bytesSec: real, portsMin: real, now: Time, sqrt: real -> real)
      returns (events: seq<Event>)
      requires Valid()
      modifies repr
      ensures Valid() && fresh(repr - old(repr))
      ensures (view, events) == Observe(config, sqrt, startTime, old(view), ip, pktsSec, bytesSec, portsMin, now)
    {
      var hm := Record(ip, pktsSec, bytesSec, portsMin, now);
      ghost var m := hm.Value();
      events := Evaluate(hm, pktsSec, bytesSec, now, sqrt);
      hm.Absorb(config, pktsSec, bytesSec, portsMin, now);
      Overwrites(old(view), ip, m, hm.Value());
      view := view[ip := hm.Value()];
    }
  }
}
