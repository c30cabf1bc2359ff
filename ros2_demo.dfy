/** The ROS 2 demo: a timer-driven publisher of `CompressedImage` messages stamped with the
    send time, and a subscriber that records one latency and one transmission per message. */
module Ros2Demo {
  import opened Common
  import opened Encoders
  import Metrics
  import Cli

  const NsPerSec: int := 1_000_000_000

  /** `builtin_interfaces/Time` */
  datatype RosTime = RosTime(sec: int, nanosec: int)

  /** `to_ros_time_ns`: floor division and modulo split any integer nanosecond count into
      whole seconds and a nanosecond remainder in range. */
  function ToRosTime(tNs: int): (t: RosTime)
    ensures 0 <= t.nanosec < NsPerSec
    ensures StampNs(t) == tNs
    ensures tNs >= 0 ==> t.sec >= 0
    ensures tNs < 0 ==> t.sec < 0
  {
    RosTime(tNs / NsPerSec, tNs % NsPerSec)
  }

  /** The reconstruction `sec * 1_000_000_000 + nanosec` in the subscriber callback. */
  function StampNs(t: RosTime): int
  {
    t.sec * NsPerSec + t.nanosec
  }

  /** A stamp with its nanoseconds in range is split back into the same two fields. */
  lemma SplitOfStamp(t: RosTime)
    requires 0 <= t.nanosec < NsPerSec
    ensures ToRosTime(StampNs(t)) == t
  {
    var r := ToRosTime(StampNs(t));
    assert (r.sec - t.sec) * NsPerSec == t.nanosec - r.nanosec;
  }

  /** Different stamps name different instants once their nanoseconds are in range. */
  lemma StampInjective(a: RosTime, b: RosTime)
    requires 0 <= a.nanosec < NsPerSec && 0 <= b.nanosec < NsPerSec
    requires StampNs(a) == StampNs(b)
    ensures a == b
  {
    SplitOfStamp(a);
    SplitOfStamp(b);
  }

  /** `sensor_msgs/CompressedImage`, the header reduced to its stamp. */
  datatype CompressedImage = CompressedImage(stamp: RosTime, format: string, data: seq<byte>)

  /** The `Pub` node. Publishing appends to `sent`, the messages put on `/stream/compressed`. */
  class Pub {
    const kind: string
    const codec: string
    const period: real
    const tEnd: real
    const enc: Encoder
    var idx: nat
    var timerActive: bool
    var sent: seq<CompressedImage>

    ghost predicate Valid()
      reads this
    {
      |sent| == idx && Consumes(enc) == FrameSignal(kind)
    }

    constructor (kind: string, codec: string, period: real, tEnd: real, enc: Encoder)
      requires Consumes(enc) == FrameSignal(kind)
      ensures Valid()
      ensures this.kind == kind && this.codec == codec && this.period == period
      ensures this.tEnd == tEnd && this.enc == enc
      ensures idx == 0 && timerActive && sent == []
    {
      this.kind, this.codec, this.period, this.tEnd, this.enc := kind, codec, period, tEnd, enc;
      idx, timerActive, sent := 0, true, [];
    }

    /** One timer callback at wall-clock reading `now` (seconds), `tNs` being the
        nanosecond reading taken after encoding. Callbacks come only from a live timer:
        once `destroy_timer` has run, `tick` is never called again. */
    method Tick<Img>(now: real, tNs: int, render: (Signal, nat) -> Img, encode: (Encoder, Img) -> seq<byte>)
      requires Valid() && timerActive
      modifies this
      ensures Valid()
      ensures now >= tEnd ==> !timerActive && sent == old(sent) && idx == old(idx)
      ensures now < tEnd ==> timerActive && idx == old(idx) + 1
                             && sent == old(sent) + [CompressedImage(ToRosTime(tNs), codec,
                                                       encode(enc, render(FrameSignal(kind), old(idx))))]
    {
      if now >= tEnd {
        timerActive := false;
        return;
      }
      var img := render(FrameSignal(kind), idx);
      var bb := encode(enc, img);
      var msg := CompressedImage(ToRosTime(tNs), codec, bb);
      sent := sent + [msg];
      idx := idx + 1;
    }
  }

  /** `Pub.__init__` at wall-clock reading `now`: `1.0 / hz` is computed before the encoder
      table is consulted, so a zero rate raises before an unsupported pair does. */
  method NewPub(kind: string, codec: string, hz: real, seconds: real, now: real)
      returns (r: Result<Pub, Cli.StartError>)
    ensures hz == 0.0 ==> r == Err(Cli.ZeroDivisionError)
    ensures hz != 0.0 && Lookup(kind, codec).None? ==> r == Err(Cli.KeyError)
    ensures r.Ok? ==> hz != 0.0 && Lookup(kind, codec).Some?
    ensures r.Ok? ==> fresh(r.value) && r.value.Valid()
                      && r.value.period == 1.0 / hz && r.value.tEnd == now + seconds
                      && r.value.enc == Lookup(kind, codec).value
                      && r.value.kind == kind && r.value.codec == codec
                      && r.value.idx == 0 && r.value.sent == [] && r.value.timerActive
  {
    if hz == 0.0 {
      return Err(Cli.ZeroDivisionError);
    }
    var period := 1.0 / hz;
    var tEnd := now + seconds;
    var found := Lookup(kind, codec);
    if found.None? {
      return Err(Cli.KeyError);
    }
    var p := new Pub(kind, codec, period, tEnd, found.value);
    return Ok(p);
  }

  /** The end-to-end latency in ms of a message received at `tRxNs`. */
  function RxLatencyMs(tRxNs: int, msg: CompressedImage): real
  {
    (tRxNs - StampNs(msg.stamp)) as real / 1000000.0
  }

  /** A message stamped at `tNs` and received at `tRxNs` reports the true transit time. */
  lemma RxLatencyOfStamp(tNs: int, tRxNs: int, format: string, data: seq<byte>)
    ensures RxLatencyMs(tRxNs, CompressedImage(ToRosTime(tNs), format, data))
            == (tRxNs - tNs) as real / 1000000.0
  {
  }

  /** The `Sub` node; `stats` is the shared `StreamStats`. */
  class Sub {
    const stats: Metrics.StreamStats
    const tEnd: real

    constructor (stats: Metrics.StreamStats, seconds: real, now: real)
      ensures this.stats == stats && tEnd == now + seconds + 1.0
    {
      this.stats := stats;
      tEnd := now + seconds + 1.0;
    }

    /** The subscription callback, `tRxNs` being the nanosecond clock reading on entry:
        one reception with its latency, then one transmission with the payload size. */
    method Cb(msg: CompressedImage, tRxNs: int)
      modifies stats
      ensures stats.countRx == old(stats.countRx) + 1
      ensures stats.latenciesMs == old(stats.latenciesMs) + [RxLatencyMs(tRxNs, msg)]
      ensures stats.countTx == old(stats.countTx) + 1
      ensures stats.bytesTx == old(stats.bytesTx) + |msg.data|
      ensures old(stats.Valid()) ==> stats.Valid()
    {
      var tTx := msg.stamp.sec * 1_000_000_000 + msg.stamp.nanosec;
      var latMs := (tRxNs - tTx) as real / 1000000.0;
      stats.RecordRx(latMs);
      stats.RecordTx(|msg.data|);
    }

    /** The callback run once per delivered message, `rxNs[j]` being the reading when the
        `j`-th arrived: the counts move together, so a balanced `StreamStats` stays balanced. */
    method Deliver(msgs: seq<CompressedImage>, rxNs: seq<int>)
      requires |rxNs| == |msgs|
      modifies stats
      ensures stats.countRx == old(stats.countRx) + |msgs|
      ensures stats.countTx == old(stats.countTx) + |msgs|
      ensures stats.latenciesMs == old(stats.latenciesMs) + RxLatencies(msgs, rxNs)
      ensures stats.bytesTx == old(stats.bytesTx) + DataBytes(msgs)
      ensures old(stats.Valid()) ==> stats.Valid()
    {
      for i := 0 to |msgs|
        invariant stats.countRx == old(stats.countRx) + i
        invariant stats.countTx == old(stats.countTx) + i
        invariant stats.latenciesMs == old(stats.latenciesMs) + RxLatencies(msgs[..i], rxNs)
        invariant stats.bytesTx == old(stats.bytesTx) + DataBytes(msgs[..i])
        invariant old(stats.Valid()) ==> stats.Valid()
      {
        assert msgs[..i + 1][..i] == msgs[..i];
        Cb(msgs[i], rxNs[i]);
      }
      assert msgs[..|msgs|] == msgs;
    }
  }

  function RxLatencies(msgs: seq<CompressedImage>, rxNs: seq<int>): (lat: seq<real>)
    requires |rxNs| >= |msgs|
    ensures |lat| == |msgs|
  {
    if msgs == [] then []
    else
      var k := |msgs| - 1;
      RxLatencies(msgs[..k], rxNs) + [RxLatencyMs(rxNs[k], msgs[k])]
  }

  function DataBytes(msgs: seq<CompressedImage>): int
  {
    if msgs == [] then 0 else DataBytes(msgs[..|msgs| - 1]) + |msgs[|msgs| - 1].data|
  }

  /** The summary of a demo run: with as many transmissions as receptions the reported
      loss is always 0, and the byte count is the delivered payload. */
  method DemoSummary(msgs: seq<CompressedImage>, rxNs: seq<int>, now: real, seconds: real)
      returns (s: Metrics.Summary)
    requires |rxNs| == |msgs|
    ensures s.tx == |msgs| && s.rx == |msgs| && s.lossPct == 0.0
    ensures s.bytesTx == DataBytes(msgs)
    ensures s.latP50.None? <==> msgs == []
  {
    var stats := new Metrics.StreamStats();
    var sub := new Sub(stats, seconds, now);
    sub.Deliver(msgs, rxNs);
    s := stats.Summary();
  }
}
