/** `write_histogram` and `write_prometheus`: a latency histogram (bucket upper bound in
    ms to count) as CSV rows and as Prometheus histogram samples. The file is abstracted
    to the rows and the text written to it. */
module HistExport {
  import opened Common
  import opened Decimal

  type Histogram = map<real, int>

  predicate StrictlySorted(s: seq<real>) { forall i, j :: 0 <= i < j < |s| ==> s[i] < s[j] }

  lemma NonEmptySet(s: set<real>)
    requires s != {}
    ensures exists x :: x in s
  {
    if forall x :: x !in s {
      assert false;
    }
  }

  lemma NonEmptyMap(m: Histogram)
    requires m != map[]
    ensures exists k :: k in m
  {
    if forall k :: k !in m {
      assert false;
    }
  }

  /** `m` is the smallest element of `s`. */
  predicate IsLeast(m: real, s: set<real>) { m in s && forall y :: y in s ==> m <= y }

  lemma {:induction false} SetMinExists(s: set<real>)
    requires s != {}
    ensures exists m :: IsLeast(m, s)
    decreases |s|
  {
    NonEmptySet(s);
    var x :| x in s;
    if s != {x} {
      SetMinExists(s - {x});
      var m :| IsLeast(m, s - {x});
      var least := if x < m then x else m;
      forall y | y in s ensures least <= y {
        if y != x {
          assert y in s - {x};
        }
      }
      assert IsLeast(least, s);
    } else {
      assert IsLeast(x, s);
    }
  }

  /** The keys of a histogram in ascending order: the key order of `sorted(hist.items())`
      (strictly ascending and complete by `SortedKeysSpec`). */
  ghost function SortedKeys(s: set<real>): (r: seq<real>)
    ensures |r| == |s|
    ensures forall i :: 0 <= i < |r| ==> r[i] in s
    decreases |s|
  {
    if s == {} then []
    else
      SetMinExists(s);
      var m :| IsLeast(m, s);
      [m] + SortedKeys(s - {m})
  }

  lemma ConsStrictlySorted(m: real, t: seq<real>)
    requires StrictlySorted(t) && forall i :: 0 <= i < |t| ==> m < t[i]
    ensures StrictlySorted([m] + t)
  {
    var r := [m] + t;
    forall i, j | 0 <= i < j < |r| ensures r[i] < r[j] {
      assert r[j] == t[j - 1];
      if i > 0 {
        assert r[i] == t[i - 1];
      }
    }
  }

  /** The least key comes first, followed by the rest in order. */
  lemma SortedKeysHead(s: set<real>, m: real)
    requires IsLeast(m, s)
    ensures SortedKeys(s) == [m] + SortedKeys(s - {m})
  {
    var m' :| IsLeast(m', s) && SortedKeys(s) == [m'] + SortedKeys(s - {m'});
    assert IsLeast(m', s);
    assert m in s && m' in s;
  }

  /** Every key appears, and the order is strictly ascending. */
  lemma {:induction false} SortedKeysSpec(s: set<real>)
    ensures StrictlySorted(SortedKeys(s))
    ensures forall x :: x in s ==> x in SortedKeys(s)
    decreases |s|
  {
    if s != {} {
      SetMinExists(s);
      var m :| IsLeast(m, s);
      SortedKeysHead(s, m);
      var tail := SortedKeys(s - {m});
      SortedKeysSpec(s - {m});
      forall i | 0 <= i < |tail| ensures m < tail[i] {
        assert tail[i] in s - {m};
      }
      ConsStrictlySorted(m, tail);
      forall x | x in s ensures x in SortedKeys(s) {
        if x != m {
          assert x in s - {m} && x in tail;
        }
      }
    }
  }

  /** `sum(hist.values())`, independent of the dictionary's iteration order (`MapTotalRemove`). */
  ghost function MapTotal(m: Histogram): int
    decreases |m|
  {
    if m == map[] then 0
    else
      NonEmptyMap(m);
      var k :| k in m;
      m[k] + MapTotal(m - {k})
  }

  lemma {:induction false} MapTotalRemove(m: Histogram, k: real)
    requires k in m
    ensures MapTotal(m) == m[k] + MapTotal(m - {k})
    decreases |m|
  {
    var j :| j in m && MapTotal(m) == m[j] + MapTotal(m - {j});
    if j != k {
      MapTotalRemove(m - {j}, k);
      MapTotalRemove(m - {k}, j);
      assert m - {j} - {k} == m - {k} - {j};
    }
  }

  /** The running `cumulative` after the given keys. */
  predicate KeysIn(keys: seq<real>, m: Histogram) { forall i :: 0 <= i < |keys| ==> keys[i] in m }

  function KeySum(m: Histogram, keys: seq<real>): int
    requires KeysIn(keys, m)
  {
    if keys == [] then 0 else KeySum(m, keys[..|keys| - 1]) + m[keys[|keys| - 1]]
  }

  lemma {:induction false} KeySumAgree(m: Histogram, n: Histogram, keys: seq<real>)
    requires KeysIn(keys, m) && KeysIn(keys, n)
    requires forall i :: 0 <= i < |keys| ==> m[keys[i]] == n[keys[i]]
    ensures KeySum(m, keys) == KeySum(n, keys)
    decreases |keys|
  {
    if keys != [] {
      KeySumAgree(m, n, keys[..|keys| - 1]);
    }
  }

  /** Summing over all keys, each once, in any order, gives `sum(hist.values())`. */
  lemma {:induction false} KeySumTotal(m: Histogram, keys: seq<real>)
    requires forall i, j :: 0 <= i < j < |keys| ==> keys[i] != keys[j]
    requires forall k :: k in keys <==> k in m
    ensures KeySum(m, keys) == MapTotal(m)
    decreases |keys|
  {
    if keys != [] {
      var last := keys[|keys| - 1];
      var init := keys[..|keys| - 1];
      var rest := m - {last};
      forall k ensures k in init <==> k in rest {
        if k in init {
          var i :| 0 <= i < |init| && init[i] == k;
          assert keys[i] != keys[|keys| - 1];
        }
        if k in rest {
          assert k in keys && k != last;
          var i :| 0 <= i < |keys| && keys[i] == k;
          assert i < |keys| - 1 && init[i] == k;
        }
      }
      KeySumAgree(m, rest, init);
      KeySumTotal(rest, init);
      MapTotalRemove(m, last);
    }
  }

  /** A CSV cell: a header string, a latency key, or a count. */
  datatype Cell = Label(s: string) | Latency(ms: real) | Count(n: int)

  const Header: seq<Cell> := [Label("latency_ms"), Label("count")]

  lemma NextKey(keys: seq<real>, rest: set<real>, all: set<real>, m: real)
    requires keys + SortedKeys(rest) == SortedKeys(all)
    requires IsLeast(m, rest)
    ensures (keys + [m]) + SortedKeys(rest - {m}) == SortedKeys(all)
  {
    SortedKeysHead(rest, m);
    var tail := SortedKeys(rest - {m});
    assert (keys + [m]) + tail == keys + ([m] + tail);
  }

  /** The keys of `hist`, smallest first. */
  method AscendingKeys(hist: Histogram) returns (keys: seq<real>)
    ensures keys == SortedKeys(hist.Keys)
  {
    keys := [];
    var rest := hist.Keys;
    while rest != {}
      invariant keys + SortedKeys(rest) == SortedKeys(hist.Keys)
      decreases |rest|
    {
      SetMinExists(rest);
      var m :| IsLeast(m, rest);
      NextKey(keys, rest, hist.Keys, m);
      keys, rest := keys + [m], rest - {m};
    }
    assert keys + [] == keys;
  }

  /** The rows `write_histogram` writes: the header, then one `[latency_ms, count]` row per
      key in ascending key order. */
  method WriteHistogram(hist: Histogram) returns (rows: seq<seq<Cell>>)
    ensures |rows| == |hist| + 1 && rows[0] == Header
    ensures forall i :: 1 <= i < |rows| ==>
              var k := SortedKeys(hist.Keys)[i - 1];
              rows[i] == [Latency(k), Count(hist[k])]
  {
    var keys := AscendingKeys(hist);
    rows := [Header];
    for i := 0 to |keys|
      invariant |rows| == i + 1 && rows[0] == Header
      invariant forall j :: 1 <= j <= i ==> rows[j] == [Latency(keys[j - 1]), Count(hist[keys[j - 1]])]
    {
      rows := rows + [[Latency(keys[i]), Count(hist[keys[i]])]];
    }
  }

  /** The samples `write_prometheus` writes, one line each. */
  datatype HistLine = Bucket(le: real, cumulative: int) | InfBucket(total: int) | CountLine(count: int)

  function LineText(l: HistLine, showReal: real -> string): string
  {
    match l
    case Bucket(le, c) => "stream_latency_ms_bucket{le=\"" + showReal(le) + "\"} " + FormatInt(c) + "\n"
    case InfBucket(t) => "stream_latency_ms_bucket{le=\"+Inf\"} " + FormatInt(t) + "\n"
    case CountLine(t) => "stream_latency_ms_count " + FormatInt(t) + "\n"
  }

  function Text(lines: seq<HistLine>, showReal: real -> string): string
  {
    if lines == [] then "" else Text(lines[..|lines| - 1], showReal) + LineText(lines[|lines| - 1], showReal)
  }

  /** One bucket per key, carrying the running sum of counts up to and including it. */
  function Buckets(m: Histogram, keys: seq<real>): (r: seq<HistLine>)
    requires KeysIn(keys, m)
    ensures |r| == |keys|
    ensures forall i :: 0 <= i < |r| ==> r[i].Bucket?
  {
    if keys == [] then []
    else Buckets(m, keys[..|keys| - 1]) + [Bucket(keys[|keys| - 1], KeySum(m, keys))]
  }

  /** The buckets in key order, then the `+Inf` bucket and the `_count` line. */
  function Samples(m: Histogram, keys: seq<real>, total: int): seq<HistLine>
    requires KeysIn(keys, m)
  {
    Buckets(m, keys) + [InfBucket(total), CountLine(total)]
  }

  ghost function PromLines(hist: Histogram): seq<HistLine>
  {
    Samples(hist, SortedKeys(hist.Keys), MapTotal(hist))
  }

  lemma {:induction false} BucketsAt(m: Histogram, keys: seq<real>)
    requires KeysIn(keys, m)
    ensures forall i :: 0 <= i < |keys| ==> Buckets(m, keys)[i] == Bucket(keys[i], KeySum(m, keys[..i + 1]))
    decreases |keys|
  {
    if keys != [] {
      var init := keys[..|keys| - 1];
      BucketsAt(m, init);
      assert keys[..|keys|] == keys;
      forall i | 0 <= i < |init|
        ensures Buckets(m, keys)[i] == Bucket(keys[i], KeySum(m, keys[..i + 1]))
      {
        assert init[..i + 1] == keys[..i + 1];
      }
    }
  }

  /** Bucket `i` is the `i`-th smallest key with the sum of the counts of the `i + 1` smallest
      keys; the last two lines carry the total, so there are two lines more than keys. */
  lemma PromLinesShape(hist: Histogram)
    ensures var keys := SortedKeys(hist.Keys);
            var lines := PromLines(hist);
            && |lines| == |hist| + 2
            && lines[|hist|] == InfBucket(MapTotal(hist))
            && lines[|hist| + 1] == CountLine(MapTotal(hist))
            && forall i :: 0 <= i < |hist| ==> lines[i] == Bucket(keys[i], KeySum(hist, keys[..i + 1]))
  {
    var keys := SortedKeys(hist.Keys);
    BucketsAt(hist, keys);
    assert PromLines(hist) == Buckets(hist, keys) + [InfBucket(MapTotal(hist)), CountLine(MapTotal(hist))];
  }

  /** `sorted(hist.items())`: the finite buckets come in strictly ascending order of `le`
      (and name every key, as `SortedKeysSpec` and `PromLinesShape` give). */
  lemma PromBucketsAscending(hist: Histogram)
    ensures var lines := PromLines(hist);
            forall i, j :: 0 <= i < j < |hist| ==> lines[i].le < lines[j].le
  {
    var keys := SortedKeys(hist.Keys);
    PromLinesShape(hist);
    SortedKeysSpec(hist.Keys);
  }

  lemma {:induction false} KeySumMonotone(m: Histogram, keys: seq<real>, i: nat, j: nat)
    requires KeysIn(keys, m)
    requires forall k :: k in m ==> m[k] >= 0
    requires i <= j <= |keys|
    ensures KeySum(m, keys[..i]) <= KeySum(m, keys[..j])
    decreases j - i
  {
    if i < j {
      KeySumMonotone(m, keys, i, j - 1);
      assert keys[..j][..j - 1] == keys[..j - 1];
      assert keys[..j][j - 1] == keys[j - 1] && keys[j - 1] in m;
      assert KeySum(m, keys[..j]) == KeySum(m, keys[..j - 1]) + m[keys[j - 1]];
    }
  }

  lemma BucketsMonotone(m: Histogram, keys: seq<real>)
    requires KeysIn(keys, m)
    requires forall k :: k in m ==> m[k] >= 0
    ensures forall i, j :: 0 <= i < j < |keys| ==> Buckets(m, keys)[i].cumulative <= Buckets(m, keys)[j].cumulative
  {
    BucketsAt(m, keys);
    forall i, j | 0 <= i < j < |keys| ensures Buckets(m, keys)[i].cumulative <= Buckets(m, keys)[j].cumulative {
      KeySumMonotone(m, keys, i + 1, j + 1);
    }
  }

  /** With non-negative counts the cumulative bucket values never decrease. */
  lemma CumulativeMonotone(hist: Histogram)
    requires forall k :: k in hist ==> hist[k] >= 0
    ensures var lines := PromLines(hist);
            forall i, j :: 0 <= i < j < |hist| ==> lines[i].cumulative <= lines[j].cumulative
  {
    var keys := SortedKeys(hist.Keys);
    assert PromLines(hist) == Buckets(hist, keys) + [InfBucket(MapTotal(hist)), CountLine(MapTotal(hist))];
    BucketsMonotone(hist, keys);
  }

  lemma BucketsEndInTotal(m: Histogram, keys: seq<real>)
    requires keys != [] && KeysIn(keys, m)
    requires forall i, j :: 0 <= i < j < |keys| ==> keys[i] != keys[j]
    requires forall k :: k in keys <==> k in m
    ensures Buckets(m, keys)[|keys| - 1].cumulative == MapTotal(m)
  {
    KeySumTotal(m, keys);
  }

  /** The last finite bucket carries the same total as the `+Inf` bucket and the `_count` line. */
  lemma LastBucketIsTotal(hist: Histogram)
    requires hist != map[]
    ensures PromLines(hist)[|hist| - 1].cumulative == MapTotal(hist)
  {
    var keys := SortedKeys(hist.Keys);
    assert PromLines(hist) == Buckets(hist, keys) + [InfBucket(MapTotal(hist)), CountLine(MapTotal(hist))];
    SortedKeysSpec(hist.Keys);
    BucketsEndInTotal(hist, keys);
  }

  /** `total = sum(hist.values())`, summed in whatever order the dictionary yields its keys. */
  method Total(hist: Histogram) returns (total: int)
    ensures total == MapTotal(hist)
  {
    total := 0;
    var rest := hist;
    while rest != map[]
      invariant total + MapTotal(rest) == MapTotal(hist)
      decreases |rest|
    {
      var k :| k in rest;
      MapTotalRemove(rest, k);
      total := total + rest[k];
      rest := rest - {k};
    }
  }

  /** The loop of `write_prometheus`: one bucket line per key with the running sum. */
  method EmitBuckets(hist: Histogram, keys: seq<real>, showReal: real -> string)
      returns (lines: seq<HistLine>, text: string)
    requires KeysIn(keys, hist)
    ensures lines == Buckets(hist, keys)
    ensures text == Text(lines, showReal)
  {
    var cumulative := 0;
    lines, text := [], "";
    for i := 0 to |keys|
      invariant cumulative == KeySum(hist, keys[..i])
      invariant lines == Buckets(hist, keys[..i])
      invariant text == Text(lines, showReal)
    {
      BucketsSnoc(hist, keys, i);
      cumulative := cumulative + hist[keys[i]];
      TextSnoc(lines, Bucket(keys[i], cumulative), showReal);
      lines, text := lines + [Bucket(keys[i], cumulative)], text + LineText(Bucket(keys[i], cumulative), showReal);
    }
    assert keys[..|keys|] == keys;
  }

  /** The lines `write_prometheus` writes for the given keys and total. */
  method EmitSamples(hist: Histogram, keys: seq<real>, total: int, showReal: real -> string)
      returns (lines: seq<HistLine>, text: string)
    requires KeysIn(keys, hist)
    ensures lines == Samples(hist, keys, total)
    ensures text == Text(lines, showReal)
  {
    lines, text := EmitBuckets(hist, keys, showReal);
    TextSnoc(lines, InfBucket(total), showReal);
    lines, text := lines + [InfBucket(total)], text + LineText(InfBucket(total), showReal);
    TextSnoc(lines, CountLine(total), showReal);
    lines, text := lines + [CountLine(total)], text + LineText(CountLine(total), showReal);
  }

  lemma BucketsSnoc(m: Histogram, keys: seq<real>, i: nat)
    requires KeysIn(keys, m) && i < |keys|
    ensures KeysIn(keys[..i], m) && KeysIn(keys[..i + 1], m)
    ensures KeySum(m, keys[..i + 1]) == KeySum(m, keys[..i]) + m[keys[i]]
    ensures Buckets(m, keys[..i + 1]) == Buckets(m, keys[..i]) + [Bucket(keys[i], KeySum(m, keys[..i + 1]))]
  {
    assert keys[..i + 1][..i] == keys[..i];
  }

  lemma TextSnoc(lines: seq<HistLine>, l: HistLine, showReal: real -> string)
    ensures Text(lines + [l], showReal) == Text(lines, showReal) + LineText(l, showReal)
  {
    assert (lines + [l])[..|lines|] == lines;
  }

  /** The samples and the text `write_prometheus` writes. */
  method WritePrometheus(hist: Histogram, showReal: real -> string) returns (lines: seq<HistLine>, text: string)
    ensures lines == PromLines(hist)
    ensures text == Text(lines, showReal)
  {
    var total := Total(hist);
    var keys := AscendingKeys(hist);
    lines, text := EmitSamples(hist, keys, total, showReal);
  }
}
