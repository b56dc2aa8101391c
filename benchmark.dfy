/**
 * The benchmark engine's arithmetic: when the sampling loop keeps going,
 * what it collects, and the trailing-window average it reports.
 *
 * Time is an input. A `Clock` lists the elapsed milliseconds observed at each
 * evaluation of the loop condition (reading k is the one taken before call
 * k + 1) and the measured duration of each call in nanoseconds.
 */
module Benchmark {
  import opened Wrappers

  const BENCHMARK_WINDOW: nat := 100
  /** `BENCHMARK_TIMEOUT_SECONDS.seconds.inWholeMilliseconds` */
  const BENCHMARK_TIMEOUT_MS: int := 10 * 1000
  /** `1.seconds.inWholeMilliseconds` */
  const WARMUP_MS: int := 1000
  const MIN_SAMPLES: nat := BENCHMARK_WINDOW * 20

  /** The condition of the sampling loop, as written: it says when to go on. */
  predicate KeepSampling(elapsedMs: int, samples: nat) {
    elapsedMs < BENCHMARK_TIMEOUT_MS && (samples < MIN_SAMPLES || elapsedMs < WARMUP_MS)
  }

  /** The loop stops exactly when the hard timeout is reached, or when both floors are met. */
  lemma StopRule(elapsedMs: int, samples: nat)
    ensures !KeepSampling(elapsedMs, samples) <==>
      elapsedMs >= BENCHMARK_TIMEOUT_MS || (samples >= MIN_SAMPLES && elapsedMs >= WARMUP_MS)
  {
  }

  datatype Clock = Clock(elapsedMs: seq<int>, callNanos: seq<nat>)

  /**
   * The readings end with one at or past the hard timeout (time passes), and
   * there is a duration for every call that can happen before it.
   */
  predicate Covers(c: Clock) {
    && |c.elapsedMs| > 0
    && c.elapsedMs[|c.elapsedMs| - 1] >= BENCHMARK_TIMEOUT_MS
    && |c.callNanos| + 1 >= |c.elapsedMs|
  }

  function FirstStop(c: Clock, k: nat): (n: nat)
    requires Covers(c) && k < |c.elapsedMs|
    requires forall j :: 0 <= j < k ==> KeepSampling(c.elapsedMs[j], j)
    decreases |c.elapsedMs| - k
    ensures k <= n < |c.elapsedMs| && !KeepSampling(c.elapsedMs[n], n)
    ensures forall j :: 0 <= j < n ==> KeepSampling(c.elapsedMs[j], j)
  {
    if !KeepSampling(c.elapsedMs[k], k) then k else FirstStop(c, k + 1)
  }

  /**
   * How many times the loop calls the solver: the index of the first
   * evaluation of the condition that fails.
   */
  function CallsMade(c: Clock): (n: nat)
    requires Covers(c)
    ensures n < |c.elapsedMs| && !KeepSampling(c.elapsedMs[n], n)
    ensures forall j :: 0 <= j < n ==> KeepSampling(c.elapsedMs[j], j)
    ensures c.elapsedMs[n] >= BENCHMARK_TIMEOUT_MS || (n >= MIN_SAMPLES && c.elapsedMs[n] >= WARMUP_MS)
  {
    FirstStop(c, 0)
  }

  /** The stopping point is determined by the readings: any first failing evaluation is it. */
  lemma CallsMadeUnique(c: Clock, n: nat)
    requires Covers(c) && n < |c.elapsedMs| && !KeepSampling(c.elapsedMs[n], n)
    requires forall j :: 0 <= j < n ==> KeepSampling(c.elapsedMs[j], j)
    ensures CallsMade(c) == n
  {
  }

  /**
   * Fewer than `20 * BENCHMARK_WINDOW` samples means the loop ran into the
   * hard timeout: the one-second floor alone never ends it.
   */
  lemma FewSamplesMeansTimeout(c: Clock)
    requires Covers(c) && CallsMade(c) < MIN_SAMPLES
    ensures c.elapsedMs[CallsMade(c)] >= BENCHMARK_TIMEOUT_MS
  {
  }

  /**
   * The sampling loop of `benchmark`: every iteration measures one call and
   * appends its duration, in call order.
   */
  method Sample(c: Clock) returns (durations: seq<nat>)
    requires Covers(c)
    ensures |durations| < |c.elapsedMs| && !KeepSampling(c.elapsedMs[|durations|], |durations|)
    ensures durations == c.callNanos[..|durations|]
    ensures forall k :: 0 <= k < |durations| ==> KeepSampling(c.elapsedMs[k], k)
  {
    durations := [];
    var reading := 0;
    while KeepSampling(c.elapsedMs[reading], |durations|)
      invariant reading == |durations| < |c.elapsedMs|
      invariant durations == c.callNanos[..reading]
      invariant forall k :: 0 <= k < reading ==> KeepSampling(c.elapsedMs[k], k)
      decreases |c.elapsedMs| - reading
    {
      durations := durations + [c.callNanos[reading]];
      reading := reading + 1;
    }
  }

  // ---------------------------------------------------------------------------
  // The trailing-window average

  /** `Duration.inWholeMicroseconds` of each sample. */
  function Micros(ns: seq<nat>): (us: seq<nat>)
    ensures |us| == |ns| && forall i :: 0 <= i < |ns| ==> us[i] == ns[i] / 1000
  {
    if ns == [] then [] else [ns[0] / 1000] + Micros(ns[1..])
  }

  /** `takeLast(n)` */
  function TakeLast<T>(s: seq<T>, n: nat): (r: seq<T>)
    ensures |r| == if |s| <= n then |s| else n
    ensures r == s[|s| - |r|..]
  {
    if |s| <= n then s else s[|s| - n..]
  }

  function Sum(s: seq<nat>): nat {
    if s == [] then 0 else s[0] + Sum(s[1..])
  }

  /** How far `x` lies from `y`, as the rounding proofs measure it. */
  function Dist(x: int, y: int): nat {
    if x >= y then x - y else y - x
  }

  /**
   * `BigDecimal` division of two whole numbers with `RoundingMode.HALF_EVEN`
   * at scale 0: the nearest whole number to `a / b`, ties going to the even one.
   */
  function DivideHalfEven(a: nat, b: nat): (q: nat)
    requires b > 0
    ensures 2 * Dist(q * b, a) <= b
    ensures 2 * Dist(q * b, a) == b ==> q % 2 == 0
  {
    var (q, r) := DivRem(a, b);
    RoundingDistances(a, b, q, r);
    if 2 * r < b then q
    else if 2 * r > b then q + 1
    else if q % 2 == 0 then q
    else q + 1
  }

  /** Whole-number division with remainder, by repeated subtraction. */
  function DivRem(a: nat, b: nat): (qr: (nat, nat))
    requires b > 0
    decreases a
    ensures qr.0 * b + qr.1 == a && qr.1 < b
  {
    if a < b then (0, a)
    else
      var (q, r) := DivRem(a - b, b);
      assert (q + 1) * b == q * b + b;
      (q + 1, r)
  }

  /** Rounding down is `r` away from `a`, rounding up `b - r`. */
  lemma RoundingDistances(a: nat, b: nat, q: nat, r: nat)
    requires b > 0 && q * b + r == a && r < b
    ensures Dist(q * b, a) == r && Dist((q + 1) * b, a) == b - r
  {
    assert (q + 1) * b == q * b + b;
  }

  /** The microsecond values the average is taken over: the last `BENCHMARK_WINDOW` samples. */
  function Window(ns: seq<nat>): seq<nat> {
    TakeLast(Micros(ns), BENCHMARK_WINDOW)
  }

  /**
   * `durations.takeLast(BENCHMARK_WINDOW)`, summed exactly and divided by
   * its size; there is no average of no samples (the division throws).
   */
  function Average(ns: seq<nat>): (r: Option<nat>)
    ensures r.None? <==> ns == []
  {
    var w := Window(ns);
    if |w| == 0 then None else Some(DivideHalfEven(Sum(w), |w|))
  }

  lemma {:induction false} SumBounds(s: seq<nat>, lo: nat, hi: nat)
    requires forall i :: 0 <= i < |s| ==> lo <= s[i] <= hi
    ensures |s| * lo <= Sum(s) <= |s| * hi
  {
    if s != [] {
      SumBounds(s[1..], lo, hi);
      assert |s| * lo == lo + (|s| - 1) * lo;
      assert |s| * hi == hi + (|s| - 1) * hi;
    }
  }

  lemma MulCancel(a: int, b: int, n: nat)
    requires n > 0 && a * n < b * n
    ensures a < b
  {
  }

  /** Rounding to the nearest whole number stays within any whole bounds of the exact quotient. */
  lemma RoundedWithin(s: nat, n: nat, lo: nat, hi: nat)
    requires n > 0 && n * lo <= s <= n * hi
    ensures lo <= DivideHalfEven(s, n) <= hi
  {
    var q := DivideHalfEven(s, n);
    assert 2 * Dist(q * n, s) <= n;
    assert q * n < (hi + 1) * n by {
      assert (hi + 1) * n == n * hi + n;
    }
    MulCancel(q, hi + 1, n);
    assert (lo - 1) * n < q * n by {
      assert (lo - 1) * n == n * lo - n;
    }
    MulCancel(lo - 1, q, n);
  }

  /**
   * The reported average lies between the smallest and the largest value of
   * the window: whatever bounds all of the last `BENCHMARK_WINDOW` samples bounds it.
   */
  lemma AverageBounded(ns: seq<nat>, lo: nat, hi: nat)
    requires ns != []
    requires forall i :: 0 <= i < |Window(ns)| ==> lo <= Window(ns)[i] <= hi
    ensures lo <= Average(ns).value <= hi
  {
    var w := Window(ns);
    SumBounds(w, lo, hi);
    RoundedWithin(Sum(w), |w|, lo, hi);
  }

  /** Samples that all take the same whole number of microseconds average to exactly that. */
  lemma ConstantAverage(ns: seq<nat>, us: nat)
    requires ns != [] && forall i :: 0 <= i < |ns| ==> ns[i] / 1000 == us
    ensures Average(ns) == Some(us)
  {
    var w := Window(ns);
    assert forall i :: 0 <= i < |w| ==> w[i] == Micros(ns)[|ns| - |w| + i];
    AverageBounded(ns, us, us);
  }

  lemma MicrosAppend(a: seq<nat>, b: seq<nat>)
    ensures Micros(a + b) == Micros(a) + Micros(b)
  {
    var l, r := Micros(a + b), Micros(a) + Micros(b);
    forall i | 0 <= i < |l| ensures l[i] == r[i] {
      if i < |a| {
        assert (a + b)[i] == a[i];
      } else {
        assert (a + b)[i] == b[i - |a|];
      }
    }
  }

  /** Only the last `BENCHMARK_WINDOW` samples are in the window. */
  lemma WindowIgnoresOlderSamples(older: seq<nat>, recent: seq<nat>)
    requires |recent| >= BENCHMARK_WINDOW
    ensures Window(older + recent) == Window(recent)
  {
    MicrosAppend(older, recent);
    TakeLastAppend(Micros(older), Micros(recent), BENCHMARK_WINDOW);
  }

  lemma TakeLastAppend<T>(a: seq<T>, b: seq<T>, n: nat)
    requires n <= |b|
    ensures TakeLast(a + b, n) == TakeLast(b, n)
  {
    var l, r := TakeLast(a + b, n), TakeLast(b, n);
    forall i | 0 <= i < n ensures l[i] == r[i] {
      assert l[i] == (a + b)[|a| + |b| - n + i];
    }
  }

  /** Earlier samples never change the average. */
  lemma AverageIgnoresOlderSamples(older: seq<nat>, recent: seq<nat>)
    requires |recent| >= BENCHMARK_WINDOW
    ensures Average(older + recent) == Average(recent)
  {
    WindowIgnoresOlderSamples(older, recent);
  }
}
