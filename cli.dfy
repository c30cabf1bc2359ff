/** The producer and consumer loops of the command-line driver, with the clock, the frame
    source and the encoder supplied from outside. */
module Cli {
  import opened Common
  import opened Metrics
  import opened Memory
  import opened Encoders

  /** Why the producer stops before its loop: the table lookup, then `1.0 / hz`. */
  datatype StartError = KeyError | ZeroDivisionError

  /** One producer iteration: the frame index, the packet published, the instant the next
      iteration aims at and the sleep requested (`None`: no sleep). */
  datatype Tick = Tick(idx: nat, packet: Packet, target: real, sleepS: Option<real>)

  /** `next_t = t0 + idx * period`: the instant the producer aims at after `idx` publishes. */
  function Target(t0: real, idx: nat, period: real): real
  {
    t0 + idx as real * period
  }

  /** Consecutive aim points are exactly one period apart, whatever the iterations slept. */
  lemma TargetStep(t0: real, idx: nat, period: real)
    ensures Target(t0, idx + 1, period) == Target(t0, idx, period) + period
  {
    assert (idx + 1) as real * period == idx as real * period + period;
  }

  /** For a positive rate the aim points strictly increase: the schedule never goes back. */
  lemma TargetIncreasing(t0: real, i: nat, j: nat, period: real)
    requires period > 0.0 && i < j
    ensures Target(t0, i, period) < Target(t0, j, period)
  {
    assert (j - i) as real * period > 0.0 by {
      assert (j - i) as real >= 1.0;
      assert (j - i) as real * period >= period;
    }
    assert j as real * period == i as real * period + (j - i) as real * period;
  }

  /** `if sleep_left > 0: time.sleep(sleep_left)` */
  function SleepFor(left: real): (s: Option<real>)
    ensures s.Some? <==> left > 0.0
    ensures s.Some? ==> s.value == left && s.value > 0.0
  {
    if left > 0.0 then Some(left) else None
  }

  function Packets(ticks: seq<Tick>): (ps: seq<Packet>)
    ensures |ps| == |ticks| && forall j :: 0 <= j < |ticks| ==> ps[j] == ticks[j].packet
  {
    if ticks == [] then [] else Packets(ticks[..|ticks| - 1]) + [ticks[|ticks| - 1].packet]
  }

  function PayloadBytes(ticks: seq<Tick>): int
  {
    if ticks == [] then 0
    else PayloadBytes(ticks[..|ticks| - 1]) + |ticks[|ticks| - 1].packet.payload|
  }

  lemma TicksSnoc(ticks: seq<Tick>, t: Tick)
    ensures Packets(ticks + [t]) == Packets(ticks) + [t.packet]
    ensures PayloadBytes(ticks + [t]) == PayloadBytes(ticks) + |t.packet.payload|
  {
    assert (ticks + [t])[..|ticks|] == ticks;
  }

  /** The body of one producer iteration that touches shared state: publish, then `record_tx`. */
  method PublishAndRecord(bus: MemoryBus, stats: StreamStats, pkt: Packet)
    requires bus.Valid()
    modifies bus, stats
    ensures bus.Valid() && bus.q == Appended(old(bus.q), bus.maxlen, pkt)
    ensures stats.countTx == old(stats.countTx) + 1
    ensures stats.bytesTx == old(stats.bytesTx) + |pkt.payload|
    ensures stats.countRx == old(stats.countRx) && stats.latenciesMs == old(stats.latenciesMs)
  {
    bus.Publish(pkt);
    stats.RecordTx(|pkt.payload|);
  }

  /** Iteration `j` of the producer, as the loop performs it. */
  ghost predicate IsTick<Img>(t: Tick, j: nat, enc: Encoder, kind: string, period: real, t0: real,
                              stamp: int, afterPublish: real,
                              render: (Signal, nat) -> Img, encode: (Encoder, Img) -> seq<byte>)
  {
    && t.idx == j
    && t.packet == Packet(stamp, encode(enc, render(FrameSignal(kind), j)))
    && t.target == Target(t0, j + 1, period)
    && t.sleepS == SleepFor(t.target - afterPublish)
  }

  /** The loop ran `n` iterations: each began before the deadline, and it stopped at the
      deadline or at the end of the supplied clock readings. */
  ghost predicate RanUntilDeadline(n: nat, t0: real, durationS: real, checks: seq<real>)
  {
    && n <= |checks|
    && (forall j :: 0 <= j < n ==> checks[j] - t0 < durationS)
    && (n < |checks| ==> checks[n] - t0 >= durationS)
  }

  /** `producer`. The clock is given as readings: `t0` at loop start, `checks[j]` at the loop
      test of iteration `j`, `stamps[j]` the nanosecond stamp of its packet and
      `afterPublish[j]` the reading that computes its sleep. */
  method Producer<Img>(bus: MemoryBus, kind: string, codec: string, hz: real, stats: StreamStats,
                       durationS: real, t0: real, checks: seq<real>, stamps: seq<int>,
                       afterPublish: seq<real>,
                       render: (Signal, nat) -> Img, encode: (Encoder, Img) -> seq<byte>)
    returns (r: Result<seq<Tick>, StartError>)
    requires bus.Valid()
    requires |stamps| >= |checks| && |afterPublish| >= |checks|
    modifies bus, stats
    ensures bus.Valid()
    ensures Lookup(kind, codec).None? ==> r == Err(KeyError)
    ensures Lookup(kind, codec).Some? && hz == 0.0 ==> r == Err(ZeroDivisionError)
    ensures r.Err? ==> bus.q == old(bus.q) && stats.countTx == old(stats.countTx)
                       && stats.bytesTx == old(stats.bytesTx)
    ensures r.Ok? ==> Lookup(kind, codec).Some? && hz != 0.0
    ensures r.Ok? ==> RanUntilDeadline(|r.value|, t0, durationS, checks)
    ensures r.Ok? ==> forall j :: 0 <= j < |r.value| ==>
              IsTick(r.value[j], j, Lookup(kind, codec).value, kind, 1.0 / hz, t0, stamps[j],
                     afterPublish[j], render, encode)
    ensures r.Ok? ==> stats.countTx == old(stats.countTx) + |r.value|
                      && stats.bytesTx == old(stats.bytesTx) + PayloadBytes(r.value)
                      && bus.q == PublishAll(old(bus.q), bus.maxlen, Packets(r.value))
    ensures stats.countRx == old(stats.countRx) && stats.latenciesMs == old(stats.latenciesMs)
  {
    var found := Lookup(kind, codec);
    if found.None? {
      return Err(KeyError);
    }
    if hz == 0.0 {
      return Err(ZeroDivisionError);
    }
    var ticks := RunProducer(bus, kind, found.value, 1.0 / hz, stats, durationS, t0, checks, stamps,
                             afterPublish, render, encode);
    return Ok(ticks);
  }

  /** One iteration: encode frame `idx`, publish it stamped `stamp`, `record_tx`, and work
      out the sleep to the next period boundary from the reading `afterPublish`. */
  method ProduceOne<Img>(bus: MemoryBus, kind: string, enc: Encoder, period: real, stats: StreamStats,
                         t0: real, idx: nat, stamp: int, afterPublish: real,
                         render: (Signal, nat) -> Img, encode: (Encoder, Img) -> seq<byte>)
      returns (tick: Tick)
    requires bus.Valid()
    modifies bus, stats
    ensures IsTick(tick, idx, enc, kind, period, t0, stamp, afterPublish, render, encode)
    ensures bus.Valid() && bus.q == Appended(old(bus.q), bus.maxlen, tick.packet)
    ensures stats.countTx == old(stats.countTx) + 1
    ensures stats.bytesTx == old(stats.bytesTx) + |tick.packet.payload|
    ensures stats.countRx == old(stats.countRx) && stats.latenciesMs == old(stats.latenciesMs)
  {
    var img := render(FrameSignal(kind), idx);
    var bb := encode(enc, img);
    var pkt := Packet(stamp, bb);
    PublishAndRecord(bus, stats, pkt);
    var nextT := Target(t0, idx + 1, period);
    var sleepLeft := nextT - afterPublish;
    tick := Tick(idx, pkt, nextT, SleepFor(sleepLeft));
  }

  /** The producer loop once the encoder and the period are known. */
  method RunProducer<Img>(bus: MemoryBus, kind: string, enc: Encoder, period: real, stats: StreamStats,
                          durationS: real, t0: real, checks: seq<real>, stamps: seq<int>,
                          afterPublish: seq<real>,
                          render: (Signal, nat) -> Img, encode: (Encoder, Img) -> seq<byte>)
      returns (ticks: seq<Tick>)
    requires bus.Valid()
    requires |stamps| >= |checks| && |afterPublish| >= |checks|
    modifies bus, stats
    ensures bus.Valid()
    ensures RanUntilDeadline(|ticks|, t0, durationS, checks)
    ensures forall j :: 0 <= j < |ticks| ==>
              IsTick(ticks[j], j, enc, kind, period, t0, stamps[j], afterPublish[j], render, encode)
    ensures stats.countTx == old(stats.countTx) + |ticks|
    ensures stats.bytesTx == old(stats.bytesTx) + PayloadBytes(ticks)
    ensures bus.q == PublishAll(old(bus.q), bus.maxlen, Packets(ticks))
    ensures stats.countRx == old(stats.countRx) && stats.latenciesMs == old(stats.latenciesMs)
  {
    ticks := [];
    var idx := 0;
    while idx < |checks| && checks[idx] - t0 < durationS
      invariant 0 <= idx <= |checks| && |ticks| == idx
      invariant bus.Valid()
      invariant forall j :: 0 <= j < idx ==> checks[j] - t0 < durationS
      invariant forall j :: 0 <= j < idx ==>
                  IsTick(ticks[j], j, enc, kind, period, t0, stamps[j], afterPublish[j], render, encode)
      invariant stats.countTx == old(stats.countTx) + idx
      invariant stats.bytesTx == old(stats.bytesTx) + PayloadBytes(ticks)
      invariant bus.q == PublishAll(old(bus.q), bus.maxlen, Packets(ticks))
      invariant stats.countRx == old(stats.countRx) && stats.latenciesMs == old(stats.latenciesMs)
    {
      assert forall j :: 0 <= j < idx + 1 ==> checks[j] - t0 < durationS;
      var tick := ProduceOne(bus, kind, enc, period, stats, t0, idx, stamps[idx], afterPublish[idx],
                             render, encode);
      TicksSnoc(ticks, tick);
      forall j | 0 <= j < idx + 1
        ensures IsTick((ticks + [tick])[j], j, enc, kind, period, t0, stamps[j], afterPublish[j], render, encode)
      {
        if j < idx { assert (ticks + [tick])[j] == ticks[j]; }
      }
      ticks := ticks + [tick];
      idx := idx + 1;
    }
  }

  /** `(now - pkt.ts_ns) / 1e6`: the latency in milliseconds of a packet received at `nowNs`. */
  function LatencyMs(nowNs: int, pkt: Packet): (ms: real)
    ensures ms * 1000000.0 == (nowNs - pkt.tsNs) as real
    ensures nowNs >= pkt.tsNs ==> ms >= 0.0
  {
    (nowNs - pkt.tsNs) as real / 1000000.0
  }

  /** The latencies the consumer records, `nowNs[j]` being the reading taken when the `j`-th
      packet arrived. */
  function Latencies(received: seq<Packet>, nowNs: seq<int>): (lat: seq<real>)
    requires |nowNs| >= |received|
    ensures |lat| == |received|
  {
    if received == [] then []
    else
      var k := |received| - 1;
      Latencies(received[..k], nowNs) + [LatencyMs(nowNs[k], received[k])]
  }

  lemma {:induction false} LatenciesAt(received: seq<Packet>, nowNs: seq<int>, j: nat)
    requires |nowNs| >= |received| && j < |received|
    ensures Latencies(received, nowNs)[j] == LatencyMs(nowNs[j], received[j])
    decreases |received|
  {
    var k := |received| - 1;
    if j < k {
      LatenciesAt(received[..k], nowNs, j);
    }
  }

  lemma ReceivedSnoc(q0: seq<Packet>, received: seq<Packet>, p: Packet, nowNs: seq<int>)
    requires |received| < |q0| && received == q0[..|received|] && p == q0[|received|]
    requires |nowNs| > |received|
    ensures received + [p] == q0[..|received| + 1]
    ensures q0[|received|..][1..] == q0[|received| + 1..]
    ensures Latencies(received + [p], nowNs)
         == Latencies(received, nowNs) + [LatencyMs(nowNs[|received|], p)]
  {
    var r2 := received + [p];
    assert r2[..|r2| - 1] == received;
    assert r2[|r2| - 1] == p;
  }

  /** The body of one consumer iteration: `subscribe`, then `record_rx` for a packet. */
  method ReceiveAndRecord(bus: MemoryBus, stats: StreamStats, nowNs: int) returns (pkt: Option<Packet>)
    requires bus.Valid()
    modifies bus, stats
    ensures bus.Valid()
    ensures old(bus.q) == [] ==> pkt == None && bus.q == []
    ensures old(bus.q) != [] ==> pkt == Some(old(bus.q)[0]) && bus.q == old(bus.q)[1..]
    ensures pkt.None? ==> stats.countRx == old(stats.countRx) && stats.latenciesMs == old(stats.latenciesMs)
    ensures pkt.Some? ==> stats.countRx == old(stats.countRx) + 1
    ensures pkt.Some? ==> stats.latenciesMs == old(stats.latenciesMs) + [LatencyMs(nowNs, pkt.value)]
    ensures stats.countTx == old(stats.countTx) && stats.bytesTx == old(stats.bytesTx)
  {
    pkt := bus.Subscribe();
    if pkt.Some? {
      var latMs := (nowNs - pkt.value.tsNs) as real / 1e6;
      stats.RecordRx(latMs);
    }
  }

  /** `consumer`, polling a memory bus into which nothing is published meanwhile: `t0` is the
      reading at loop start, `checks[j]` the one at the loop test of iteration `j` and
      `nowNs[j]` the nanosecond reading taken if that iteration receives a packet. */
  method Consumer(bus: MemoryBus, stats: StreamStats, durationS: real, t0: real,
                  checks: seq<real>, nowNs: seq<int>)
    returns (iterations: nat, received: seq<Packet>)
    requires bus.Valid()
    requires |nowNs| >= |checks|
    modifies bus, stats
    ensures bus.Valid()
    ensures RanUntilDeadline(iterations, t0, durationS, checks)
    ensures received == old(bus.q)[..Min(iterations, |old(bus.q)|)]
    ensures bus.q == old(bus.q)[|received|..]
    ensures stats.countRx == old(stats.countRx) + |received|
    ensures stats.latenciesMs == old(stats.latenciesMs) + Latencies(received, nowNs)
    ensures stats.countTx == old(stats.countTx) && stats.bytesTx == old(stats.bytesTx)
  {
    ghost var q0 := bus.q;
    iterations, received := 0, [];
    while iterations < |checks| && checks[iterations] - t0 < durationS
      invariant 0 <= iterations <= |checks|
      invariant bus.Valid()
      invariant forall j :: 0 <= j < iterations ==> checks[j] - t0 < durationS
      invariant received == q0[..Min(iterations, |q0|)]
      invariant bus.q == q0[|received|..]
      invariant stats.countRx == old(stats.countRx) + |received|
      invariant stats.latenciesMs == old(stats.latenciesMs) + Latencies(received, nowNs)
      invariant stats.countTx == old(stats.countTx) && stats.bytesTx == old(stats.bytesTx)
    {
      var pkt := ReceiveAndRecord(bus, stats, nowNs[iterations]);
      if pkt.Some? {
        ReceivedSnoc(q0, received, pkt.value, nowNs);
        received := received + [pkt.value];
      }
      iterations := iterations + 1;
    }
  }
}
