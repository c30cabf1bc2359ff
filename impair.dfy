/** The receive-side impairment decorator: drop and delay applied on `subscribe`. */
module Impair {
  import opened Common
  import opened Memory

  /** What one `subscribe` hands back, and how long it slept first (`None`: no sleep). */
  datatype Delivery = Delivery(pkt: Option<Packet>, sleepMs: Option<real>)

  /** The decision of `ImpairedBus.subscribe` for the inner bus's result `inner`, with
      `r` the uniform draw in [0, 1) and `gauss` the sample of N(0, jitterMs). */
  function Decide(inner: Option<Packet>, latencyMs: real, jitterMs: real, dropPctRx: real,
                  r: real, gauss: real): (d: Delivery)
    // Nothing from the inner bus: nothing delivered, no draw consulted, no sleep.
    ensures inner.None? ==> d == Delivery(None, None)
    // A packet is dropped exactly when the drop percentage is positive and the draw falls under it.
    ensures inner.Some? ==> (d.pkt.None? <==> dropPctRx > 0.0 && r < dropPctRx / 100.0)
    ensures dropPctRx <= 0.0 ==> d.pkt == inner
    ensures inner.Some? && dropPctRx >= 100.0 && 0.0 <= r < 1.0 ==> d.pkt.None?
    // A delivered packet is the inner one, unchanged.
    ensures d.pkt.Some? ==> d.pkt == inner
    // Sleep only for a positive delay `latency + gauss` (the sample counts as 0 without jitter).
    ensures d.sleepMs.Some? ==> d.pkt.Some? && d.sleepMs.value > 0.0
    ensures d.sleepMs.Some? ==> d.sleepMs.value == latencyMs + (if jitterMs > 0.0 then gauss else 0.0)
    ensures d.pkt.Some? && (latencyMs > 0.0 || jitterMs > 0.0) && latencyMs + (if jitterMs > 0.0 then gauss else 0.0) > 0.0
            ==> d.sleepMs.Some?
    ensures latencyMs <= 0.0 && jitterMs <= 0.0 ==> d.sleepMs.None?
  {
    if inner.None? then Delivery(None, None)
    else if dropPctRx > 0.0 && r < dropPctRx / 100.0 then Delivery(None, None)
    else if latencyMs > 0.0 || jitterMs > 0.0 then
      var extra := latencyMs + (if jitterMs > 0.0 then gauss else 0.0);
      Delivery(inner, if extra > 0.0 then Some(extra) else None)
    else Delivery(inner, None)
  }

  class ImpairedBus {
    const inner: MemoryBus
    const latencyMs: real
    const jitterMs: real
    const dropPctRx: real

    /** Stores each parameter clamped at 0. */
    constructor (inner: MemoryBus, latencyMs: real := 0.0, jitterMs: real := 0.0, dropPctRx: real := 0.0)
      ensures this.inner == inner
      ensures this.latencyMs == Max0(latencyMs) && this.jitterMs == Max0(jitterMs)
      ensures this.dropPctRx == Max0(dropPctRx)
      ensures this.latencyMs >= 0.0 && this.jitterMs >= 0.0 && this.dropPctRx >= 0.0
    {
      this.inner := inner;
      this.latencyMs := Max0(latencyMs);
      this.jitterMs := Max0(jitterMs);
      this.dropPctRx := Max0(dropPctRx);
    }

    /** Forwards the packet unchanged to the inner bus and does nothing else. */
    method Publish(pkt: Packet)
      requires inner.Valid()
      modifies inner
      ensures inner.Valid()
      ensures inner.q == Appended(old(inner.q), inner.maxlen, pkt)
    {
      inner.Publish(pkt);
    }

    /** One inner `subscribe`, then the drop/delay decision; `r` and `gauss` stand for the
        `random.random()` and `random.gauss(0, jitterMs)` draws. */
    method Subscribe(r: real, gauss: real) returns (pkt: Option<Packet>, sleepMs: Option<real>)
      requires inner.Valid()
      modifies inner
      ensures inner.Valid()
      ensures inner.q == if old(inner.q) == [] then [] else old(inner.q)[1..]
      ensures Delivery(pkt, sleepMs)
           == Decide(if old(inner.q) == [] then None else Some(old(inner.q)[0]),
                     latencyMs, jitterMs, dropPctRx, r, gauss)
    {
      var got := inner.Subscribe();
      var d := Decide(got, latencyMs, jitterMs, dropPctRx, r, gauss);
      pkt, sleepMs := d.pkt, d.sleepMs;
    }
  }
}
