/** The online statistics aggregator: counters, the latency list and the derived summary. */
module Metrics {
  import opened Common
  import opened Sorting

  /** Where the linear interpolation of a quantile reads the sorted data. */
  datatype Interp = Interp(lower: nat, upper: nat, frac: real)

  /** Hyndman–Fan definition 7 for `n` samples: `pos = (n-1)*q`, `lower = int(pos)`,
      `upper = min(lower + 1, n - 1)`, `frac = pos - lower`. */
  function Interpolation(n: nat, q: real): (ip: Interp)
    requires n > 0 && 0.0 <= q <= 1.0
    ensures 0 <= ip.lower <= ip.upper <= n - 1
    ensures ip.upper == ip.lower || ip.upper == ip.lower + 1
    ensures 0.0 <= ip.frac < 1.0
    ensures ip.lower as real + ip.frac == (n - 1) as real * q
    ensures ip.frac > 0.0 ==> ip.upper == ip.lower + 1
  {
    var pos := (n - 1) as real * q;
    assert pos <= (n - 1) as real by {
      MulNonNegative((n - 1) as real, 1.0 - q);
    }
    assert pos >= 0.0 by {
      MulNonNegative((n - 1) as real, q);
    }
    var lower := Trunc(pos);
    Interp(lower, Min(lower + 1, n - 1), pos - lower as real)
  }

  /** The integer part and the fraction of `(n-1)*q` determine the interpolation. */
  lemma InterpolationAt(n: nat, q: real, lower: nat, frac: real)
    requires n > 0 && 0.0 <= q <= 1.0
    requires 0.0 <= frac < 1.0 && lower as real + frac == (n - 1) as real * q
    ensures Interpolation(n, q) == Interp(lower, Min(lower + 1, n - 1), frac)
  {
    var ip := Interpolation(n, q);
    assert ip.lower == lower;
  }

  lemma InterpolationAtEnd(n: nat)
    requires n > 0
    ensures Interpolation(n, 1.0) == Interp(n - 1, n - 1, 0.0)
  {
    InterpolationAt(n, 1.0, n - 1, 0.0);
  }

  /** Linear interpolation between two samples: `a*(1-f) + b*f`. */
  function Lerp(a: real, b: real, f: real): real
  {
    a * (1.0 - f) + b * f
  }

  /** The interpolated quantile of data that is already sorted. */
  function SortedQuantile(s: seq<real>, q: real): real
    requires 0.0 <= q <= 1.0
  {
    if |s| == 0 then 0.0
    else
      var ip := Interpolation(|s|, q);
      Lerp(s[ip.lower], s[ip.upper], ip.frac)
  }

  /** `quantile(data, q)`: 0 for no data, otherwise interpolation between two order statistics
      of a sorted copy of `data`. */
  function Quantile(data: seq<real>, q: real): (r: real)
    requires 0.0 <= q <= 1.0
    ensures data == [] ==> r == 0.0
  {
    SortedQuantile(Sort(data), q)
  }

  lemma MulNonNegative(x: real, y: real)
    requires x >= 0.0 && y >= 0.0
    ensures x * y >= 0.0
  {
  }

  lemma LerpBetween(a: real, b: real, f: real)
    requires a <= b && 0.0 <= f <= 1.0
    ensures a <= Lerp(a, b, f) <= b
  {
    assert Lerp(a, b, f) == a + f * (b - a);
    MulNonNegative(f, b - a);
    MulNonNegative(1.0 - f, b - a);
    assert f * (b - a) + (1.0 - f) * (b - a) == b - a;
  }

  lemma LerpExact(a: real, b: real)
    ensures Lerp(a, b, 0.0) == a
  {
  }

  ghost predicate IsMin(m: real, data: seq<real>) { m in data && forall x :: x in data ==> m <= x }
  ghost predicate IsMax(m: real, data: seq<real>) { m in data && forall x :: x in data ==> x <= m }

  /** Every quantile of non-empty data lies between its minimum and its maximum. */
  lemma QuantileWithin(data: seq<real>, q: real, lo: real, hi: real)
    requires 0.0 <= q <= 1.0
    requires IsMin(lo, data) && IsMax(hi, data)
    ensures lo <= Quantile(data, q) <= hi
  {
    var s := Sort(data);
    SortEnds(data);
    assert s[0] == lo && s[|s| - 1] == hi;
    var ip := Interpolation(|s|, q);
    assert s[0] <= s[ip.lower] <= s[ip.upper] <= s[|s| - 1];
    LerpBetween(s[ip.lower], s[ip.upper], ip.frac);
    assert Quantile(data, q) == Lerp(s[ip.lower], s[ip.upper], ip.frac);
  }

  /** q = 0 gives the minimum and q = 1 the maximum. */
  lemma QuantileEnds(data: seq<real>, lo: real, hi: real)
    requires IsMin(lo, data) && IsMax(hi, data)
    ensures Quantile(data, 0.0) == lo && Quantile(data, 1.0) == hi
  {
    QuantileAtZero(data, lo);
    QuantileAtOne(data, hi);
  }

  lemma QuantileAtZero(data: seq<real>, lo: real)
    requires IsMin(lo, data)
    ensures Quantile(data, 0.0) == lo
  {
    SortEnds(data);
    var s := Sort(data);
    assert lo in data && s[0] in data;
    assert s[0] == lo;
    InterpolationAt(|s|, 0.0, 0, 0.0);
    assert Quantile(data, 0.0) == Lerp(s[0], s[Min(1, |s| - 1)], 0.0);
    LerpExact(s[0], s[Min(1, |s| - 1)]);
  }

  lemma QuantileAtOne(data: seq<real>, hi: real)
    requires IsMax(hi, data)
    ensures Quantile(data, 1.0) == hi
  {
    SortEnds(data);
    var s := Sort(data);
    assert hi in data && s[|s| - 1] in data;
    assert s[|s| - 1] == hi;
    InterpolationAtEnd(|s|);
    assert Quantile(data, 1.0) == Lerp(s[|s| - 1], s[|s| - 1], 0.0);
    LerpExact(s[|s| - 1], s[|s| - 1]);
  }

  /** A single sample is every quantile of itself. */
  lemma QuantileSingle(x: real, q: real)
    requires 0.0 <= q <= 1.0
    ensures Quantile([x], q) == x
  {
    assert Sort([x]) == [x];
  }

  /** The quantile depends only on the multiset of samples, not on their arrival order. */
  lemma QuantilePermutation(a: seq<real>, b: seq<real>, q: real)
    requires 0.0 <= q <= 1.0
    requires multiset(a) == multiset(b)
    ensures Quantile(a, q) == Quantile(b, q)
  {
    SortPermutation(a, b);
  }

  /** `quantile([1..10], 0.5) == 5.5`, the unit test's even-count median. */
  lemma QuantileOneToTenHalf(d: seq<real>)
    requires |d| == 10 && forall i :: 0 <= i < 10 ==> d[i] == (i + 1) as real
    ensures Quantile(d, 0.5) == 5.5
  {
    OneToTenSorted(d);
    InterpolationAt(10, 0.5, 4, 0.5);
    assert SortedQuantile(d, 0.5) == Lerp(d[4], d[5], 0.5);
  }

  /** Over exact reals the 0.95 quantile of `[1..10]` is 9.55 (the unit test rounds a float). */
  lemma QuantileOneToTenP95(d: seq<real>)
    requires |d| == 10 && forall i :: 0 <= i < 10 ==> d[i] == (i + 1) as real
    ensures Quantile(d, 0.95) == 9.55
  {
    OneToTenSorted(d);
    InterpolationAt(10, 0.95, 8, 0.55);
    assert SortedQuantile(d, 0.95) == Lerp(d[8], d[9], 0.55);
  }

  lemma OneToTenSorted(d: seq<real>)
    requires |d| == 10 && forall i :: 0 <= i < 10 ==> d[i] == (i + 1) as real
    ensures Sort(d) == d
  {
    SortOfSorted(d);
  }

  /** `statistics.median`: the middle element of the sorted data, or the mean of the two
      middle elements for an even count. */
  function Median(data: seq<real>): (r: real)
    requires data != []
    ensures Sort(data)[0] <= r <= Sort(data)[|data| - 1]
  {
    var s := Sort(data);
    var n := |s|;
    if n % 2 == 1 then s[n / 2] else (s[n / 2 - 1] + s[n / 2]) / 2.0
  }

  /** The median is the 0.5 quantile of the same definition. */
  lemma MedianIsHalfQuantile(data: seq<real>)
    requires data != []
    ensures Median(data) == Quantile(data, 0.5)
  {
    var n := |data|;
    if n % 2 == 1 {
      assert (n - 1) as real * 0.5 == (n / 2) as real;
      assert Interpolation(n, 0.5).lower == n / 2;
    } else {
      assert (n - 1) as real * 0.5 == (n / 2 - 1) as real + 0.5;
      assert Interpolation(n, 0.5) == Interp(n / 2 - 1, n / 2, 0.5);
    }
  }

  function Sum(s: seq<real>): real
  {
    if s == [] then 0.0 else Sum(s[..|s| - 1]) + s[|s| - 1]
  }

  /** `statistics.fmean`: the arithmetic mean. */
  function Mean(data: seq<real>): (r: real)
    requires data != []
    ensures r * |data| as real == Sum(data)
  {
    Sum(data) / |data| as real
  }

  lemma {:induction false} SumBounds(s: seq<real>, lo: real, hi: real)
    requires forall i :: 0 <= i < |s| ==> lo <= s[i] <= hi
    ensures |s| as real * lo <= Sum(s) <= |s| as real * hi
  {
    if s != [] {
      SumBounds(s[..|s| - 1], lo, hi);
    }
  }

  lemma DivideBounds(x: real, n: real, lo: real, hi: real)
    requires n > 0.0 && n * lo <= x <= n * hi
    ensures lo <= x / n <= hi
  {
    assert (x / n - lo) * n == x - n * lo;
    assert (hi - x / n) * n == n * hi - x;
  }

  /** The mean lies between the minimum and the maximum. */
  lemma MeanWithin(data: seq<real>, lo: real, hi: real)
    requires IsMin(lo, data) && IsMax(hi, data)
    ensures lo <= Mean(data) <= hi
  {
    assert forall i :: 0 <= i < |data| ==> data[i] in data;
    SumBounds(data, lo, hi);
    DivideBounds(Sum(data), |data| as real, lo, hi);
  }

  /** The mean of `n` copies of `x` is `x`. */
  lemma MeanConstant(s: seq<real>, x: real)
    requires s != []
    requires forall i :: 0 <= i < |s| ==> s[i] == x
    ensures Mean(s) == x
  {
    assert IsMin(x, s) && IsMax(x, s) by { assert s[0] in s; }
    MeanWithin(s, x, x);
  }

  /** `loss_pct` before rounding: 0 without transmissions, otherwise the share of transmitted
      packets not received, clamped at 0 when more were received than sent. */
  function LossPct(tx: nat, rx: nat): (r: real)
    ensures 0.0 <= r <= 100.0
    ensures tx == 0 ==> r == 0.0
    ensures tx > 0 && rx <= tx ==> r == 100.0 * (tx - rx) as real / tx as real
    ensures r == 0.0 <==> (tx == 0 || rx >= tx)
  {
    if tx == 0 then 0.0
    else
      var raw := 100.0 * (tx as real - rx as real) / tx as real;
      assert raw <= 100.0 by {
        assert 100.0 * (tx as real - rx as real) <= 100.0 * tx as real;
      }
      assert rx < tx ==> raw > 0.0;
      Max0(raw)
  }

  /** The summary dictionary, without the rounding to three decimals. */
  datatype Summary = Summary(
    tx: nat, rx: nat, lossPct: real, bytesTx: int, mbTx: real,
    latP50: Option<real>, latP95: Option<real>, latMean: Option<real>)

  /** `round(median(lat), 3) if lat else None`, without the rounding. */
  function MedianOrNone(lat: seq<real>): (r: Option<real>)
    ensures r.None? <==> lat == []
    ensures r.Some? ==> r.value == Quantile(lat, 0.5)
  {
    if lat == [] then None
    else
      MedianIsHalfQuantile(lat);
      Some(Median(lat))
  }

  /** `round(quantile(lat, 0.95), 3) if len(lat) >= 5 else None`, without the rounding. */
  function P95OrNone(lat: seq<real>): (r: Option<real>)
    ensures r.None? <==> |lat| < 5
    ensures r.Some? ==> r.value == Quantile(lat, 0.95)
  {
    if |lat| >= 5 then Some(Quantile(lat, 0.95)) else None
  }

  function MeanOrNone(lat: seq<real>): (r: Option<real>)
    ensures r.None? <==> lat == []
    ensures r.Some? ==> lat != [] && r.value == Mean(lat)
  {
    if lat != [] then Some(Mean(lat)) else None
  }

  /** `bytes_tx / (1024 * 1024)` */
  function Mebibytes(bytes: int): (mb: real)
    ensures mb * 1048576.0 == bytes as real
  {
    bytes as real / 1048576.0
  }

  function Summarize(countTx: nat, countRx: nat, bytesTx: int, lat: seq<real>): (s: Summary)
    ensures s.tx == countTx && s.rx == countRx && s.bytesTx == bytesTx
    ensures s.lossPct == LossPct(countTx, countRx) && 0.0 <= s.lossPct <= 100.0
    ensures s.mbTx * 1048576.0 == bytesTx as real
    ensures s.latP50.None? <==> lat == []
    ensures s.latMean.None? <==> lat == []
    ensures s.latP95.None? <==> |lat| < 5
    ensures s.latP50.Some? ==> s.latP50.value == Quantile(lat, 0.5)
    ensures s.latP95.Some? ==> s.latP95.value == Quantile(lat, 0.95)
    ensures s.latMean.Some? ==> lat != [] && s.latMean.value == Mean(lat)
  {
    Summary(countTx, countRx, LossPct(countTx, countRx), bytesTx, Mebibytes(bytesTx),
            MedianOrNone(lat), P95OrNone(lat), MeanOrNone(lat))
  }

  class StreamStats {
    var countTx: nat
    var countRx: nat
    var bytesTx: int
    var latenciesMs: seq<real>

    /** One latency per received packet. */
    ghost predicate Valid()
      reads this
    {
      |latenciesMs| == countRx
    }

    constructor ()
      ensures Valid()
      ensures countTx == 0 && countRx == 0 && bytesTx == 0 && latenciesMs == []
    {
      countTx, countRx, bytesTx, latenciesMs := 0, 0, 0, [];
    }

    method RecordTx(nbytes: int)
      modifies this
      ensures countTx == old(countTx) + 1 && bytesTx == old(bytesTx) + nbytes
      ensures countRx == old(countRx) && latenciesMs == old(latenciesMs)
      ensures old(Valid()) ==> Valid()
    {
      countTx := countTx + 1;
      bytesTx := bytesTx + nbytes;
    }

    method RecordRx(latencyMs: real)
      modifies this
      ensures countRx == old(countRx) + 1 && latenciesMs == old(latenciesMs) + [latencyMs]
      ensures countTx == old(countTx) && bytesTx == old(bytesTx)
      ensures old(Valid()) ==> Valid()
    {
      countRx := countRx + 1;
      latenciesMs := latenciesMs + [latencyMs];
    }

    /** `summary()`: the summary of the current counters and latencies. With one latency per
        reception, the latency statistics are absent exactly when too few packets arrived. */
    function Summary(): (s: Summary)
      reads this
      ensures s.tx == countTx && s.rx == countRx && s.bytesTx == bytesTx
      ensures s.lossPct == LossPct(countTx, countRx)
      ensures Valid() ==> (s.latP50.None? <==> countRx == 0) && (s.latMean.None? <==> countRx == 0)
      ensures Valid() ==> (s.latP95.None? <==> countRx < 5)
    {
      Summarize(countTx, countRx, bytesTx, latenciesMs)
    }
  }

  /** The unit test: 10 transmissions of 1000 bytes and 8 receptions at 5.0 ms. */
  method BasicScenario() returns (s: Summary)
    ensures s.tx == 10 && s.rx == 8 && s.bytesTx == 10000
    ensures s.lossPct == 20.0 && s.latMean == Some(5.0)
    ensures s.latP95.Some? && s.latP95.value == 5.0
  {
    var stats := new StreamStats();
    var i := 0;
    while i < 10
      invariant 0 <= i <= 10
      invariant stats.countTx == i && stats.bytesTx == 1000 * i
      invariant stats.countRx == 0 && stats.latenciesMs == []
    {
      stats.RecordTx(1000);
      i := i + 1;
    }
    i := 0;
    while i < 8
      invariant 0 <= i <= 8
      invariant stats.countTx == 10 && stats.bytesTx == 10000
      invariant stats.countRx == i && |stats.latenciesMs| == i
      invariant forall k :: 0 <= k < i ==> stats.latenciesMs[k] == 5.0
    {
      stats.RecordRx(5.0);
      i := i + 1;
    }
    var lat := stats.latenciesMs;
    MeanConstant(lat, 5.0);
    assert IsMin(5.0, lat) && IsMax(5.0, lat) by { assert lat[0] in lat; }
    QuantileWithin(lat, 0.95, 5.0, 5.0);
    s := stats.Summary();
  }
}
