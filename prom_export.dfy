/** `format_prometheus`: one gauge per summary entry with a value, in the text exposition format. */
module PromExport {
  import opened Common
  import opened Decimal
  import Metrics

  /** A summary value: Python ints print as decimal numerals, floats through `showReal`
      (their `repr`, which this model does not spell out). */
  datatype Value = IntValue(i: int) | RealValue(x: real)

  type Entry = (string, Option<Value>)

  function Render(v: Value, showReal: real -> string): string
  {
    match v
    case IntValue(i) => FormatInt(i)
    case RealValue(x) => showReal(x)
  }

  /** `s.replace(".", "_")` */
  function Underscored(s: string): (r: string)
    ensures |r| == |s|
    ensures forall i :: 0 <= i < |s| ==> r[i] == (if s[i] == '.' then '_' else s[i])
  {
    if s == [] then [] else [if s[0] == '.' then '_' else s[0]] + Underscored(s[1..])
  }

  /** `f"stream_{k}".replace(".", "_")` */
  function MetricName(key: string): (m: string)
    ensures m == "stream_" + Underscored(key)
    ensures forall i :: 0 <= i < |m| ==> m[i] != '.'
  {
    var full := "stream_" + key;
    assert Underscored(full) == "stream_" + Underscored(key) by {
      UnderscoredConcat("stream_", key);
    }
    Underscored(full)
  }

  lemma {:induction false} UnderscoredConcat(a: string, b: string)
    ensures Underscored(a + b) == Underscored(a) + Underscored(b)
    decreases |a|
  {
    if a != [] {
      assert (a + b)[1..] == a[1..] + b;
      UnderscoredConcat(a[1..], b);
    }
  }

  /** The two lines of one entry with a value; none for a `None` value. */
  function EntryLines(e: Entry, showReal: real -> string): seq<string>
  {
    if e.1.None? then []
    else
      var m := MetricName(e.0);
      ["# TYPE " + m + " gauge", m + " " + Render(e.1.value, showReal)]
  }

  /** The `lines` list after the loop over `entries`. */
  function GaugeLines(entries: seq<Entry>, showReal: real -> string): seq<string>
  {
    if entries == [] then []
    else GaugeLines(entries[..|entries| - 1], showReal) + EntryLines(entries[|entries| - 1], showReal)
  }

  /** The entries that carry a value, in their original order. */
  function Present(entries: seq<Entry>): (p: seq<Entry>)
    ensures forall k :: 0 <= k < |p| ==> p[k].1.Some?
  {
    if entries == [] then []
    else
      var last := entries[|entries| - 1];
      Present(entries[..|entries| - 1]) + (if last.1.None? then [] else [last])
  }

  /** Each entry with a value gives exactly two lines, `# TYPE <m> gauge` then `<m> <v>`,
      in the entries' order; entries without a value give none. */
  lemma {:induction false} GaugeLinesShape(entries: seq<Entry>, showReal: real -> string)
    ensures |GaugeLines(entries, showReal)| == 2 * |Present(entries)|
    ensures forall k :: 0 <= k < |Present(entries)| ==>
              var e := Present(entries)[k];
              && GaugeLines(entries, showReal)[2 * k] == "# TYPE " + MetricName(e.0) + " gauge"
              && GaugeLines(entries, showReal)[2 * k + 1] == MetricName(e.0) + " " + Render(e.1.value, showReal)
    decreases |entries|
  {
    if entries != [] {
      var init := entries[..|entries| - 1];
      GaugeLinesShape(init, showReal);
    }
  }

  /** `"\n".join(lines)` */
  function Join(lines: seq<string>): string
  {
    if lines == [] then ""
    else if |lines| == 1 then lines[0]
    else Join(lines[..|lines| - 1]) + "\n" + lines[|lines| - 1]
  }

  /** Every line followed by its own newline. */
  function Terminated(lines: seq<string>): string
  {
    if lines == [] then "" else Terminated(lines[..|lines| - 1]) + lines[|lines| - 1] + "\n"
  }

  /** `"\n".join(lines) + "\n"` ends every line with one newline, and is `"\n"` alone when
      there are no lines. */
  lemma {:induction false} JoinTerminated(lines: seq<string>)
    ensures lines != [] ==> Join(lines) + "\n" == Terminated(lines)
    ensures lines == [] ==> Join(lines) + "\n" == "\n"
    decreases |lines|
  {
    if |lines| > 1 {
      JoinTerminated(lines[..|lines| - 1]);
    }
  }

  method FormatPrometheus(summary: seq<Entry>, showReal: real -> string) returns (text: string)
    ensures text == Join(GaugeLines(summary, showReal)) + "\n"
  {
    var lines: seq<string> := [];
    for i := 0 to |summary|
      invariant lines == GaugeLines(summary[..i], showReal)
    {
      assert summary[..i + 1][..i] == summary[..i];
      var (k, v) := summary[i];
      if v.None? {
        continue;
      }
      var metric := MetricName(k);
      lines := lines + ["# TYPE " + metric + " gauge"];
      lines := lines + [metric + " " + Render(v.value, showReal)];
    }
    assert summary[..|summary|] == summary;
    text := Join(lines) + "\n";
  }

  /** The summary dictionary in its key order. */
  function SummaryEntries(s: Metrics.Summary): seq<Entry>
  {
    [ ("tx", Some(IntValue(s.tx))),
      ("rx", Some(IntValue(s.rx))),
      ("loss_pct", Some(RealValue(s.lossPct))),
      ("bytes_tx", Some(IntValue(s.bytesTx))),
      ("mb_tx", Some(RealValue(s.mbTx))),
      ("lat_ms_p50", if s.latP50.Some? then Some(RealValue(s.latP50.value)) else None),
      ("lat_ms_p95", if s.latP95.Some? then Some(RealValue(s.latP95.value)) else None),
      ("lat_ms_mean", if s.latMean.Some? then Some(RealValue(s.latMean.value)) else None) ]
  }

  function Count(b: bool): nat { if b then 1 else 0 }

  /** The five counters are always exported; each latency statistic only when present. */
  lemma SummaryPresent(s: Metrics.Summary)
    ensures |Present(SummaryEntries(s))| == 5 + Count(s.latP50.Some?) + Count(s.latP95.Some?) + Count(s.latMean.Some?)
  {
    var es := SummaryEntries(s);
    AllPresent(es[..5]);
    assert es[..6][..5] == es[..5];
    assert es[..7][..6] == es[..6];
    assert es[..8] == es && es[..8][..7] == es[..7];
    assert |Present(es[..6])| == 5 + Count(s.latP50.Some?);
    assert |Present(es[..7])| == 5 + Count(s.latP50.Some?) + Count(s.latP95.Some?);
  }

  /** The exported summary has ten lines for the five counters, two more for each latency
      statistic present: 10 with no samples, 14 with one to four, 16 with five or more. */
  lemma SummaryLineCount(countTx: nat, countRx: nat, bytesTx: int, lat: seq<real>, showReal: real -> string)
    ensures var n := |GaugeLines(SummaryEntries(Metrics.Summarize(countTx, countRx, bytesTx, lat)), showReal)|;
            n == (if lat == [] then 10 else if |lat| < 5 then 14 else 16)
  {
    var s := Metrics.Summarize(countTx, countRx, bytesTx, lat);
    GaugeLinesShape(SummaryEntries(s), showReal);
    SummaryPresent(s);
  }

  lemma {:induction false} AllPresent(entries: seq<Entry>)
    requires forall k :: 0 <= k < |entries| ==> entries[k].1.Some?
    ensures Present(entries) == entries
    decreases |entries|
  {
    if entries != [] {
      AllPresent(entries[..|entries| - 1]);
    }
  }
}
