/** The in-process bus: a bounded FIFO that evicts its oldest packet when full. */
module Memory {
  import opened Common

  const DefaultMaxLen: nat := 1024

  /** The last `n` elements of `s` (all of them when there are fewer). */
  function Last(s: seq<Packet>, n: nat): (r: seq<Packet>)
    ensures |r| == Min(|s|, n)
    ensures r == s[|s| - |r|..]
  {
    if |s| <= n then s else s[|s| - n..]
  }

  /** `deque.append` on a deque with `maxlen`: append at the tail, then drop the head while
      the length exceeds the bound. */
  function Appended(q: seq<Packet>, maxlen: nat, pkt: Packet): (r: seq<Packet>)
    requires |q| <= maxlen
    ensures |r| <= maxlen
    ensures |q| < maxlen ==> r == q + [pkt]
    ensures 0 < |q| == maxlen ==> r == q[1..] + [pkt]
    ensures r == Last(q + [pkt], maxlen)
  {
    var full := q + [pkt];
    if |full| > maxlen then full[1..] else full
  }

  /** The queue after publishing `ps` in order. */
  function PublishAll(q: seq<Packet>, maxlen: nat, ps: seq<Packet>): (r: seq<Packet>)
    requires |q| <= maxlen
    ensures |r| <= maxlen
  {
    if ps == [] then q
    else Appended(PublishAll(q, maxlen, ps[..|ps| - 1]), maxlen, ps[|ps| - 1])
  }

  lemma LastOfLast(s: seq<Packet>, n: nat, p: Packet)
    ensures Last(Last(s, n) + [p], n) == Last(s + [p], n)
  {
  }

  /** Whatever was published, the queue holds exactly the most recent `maxlen` packets of
      the old contents followed by the new ones, in publish order. */
  lemma {:induction false} PublishAllKeepsLast(q: seq<Packet>, maxlen: nat, ps: seq<Packet>)
    requires |q| <= maxlen
    ensures PublishAll(q, maxlen, ps) == Last(q + ps, maxlen)
    decreases |ps|
  {
    if ps == [] {
      assert q + ps == q;
    } else {
      var init, p := ps[..|ps| - 1], ps[|ps| - 1];
      PublishAllKeepsLast(q, maxlen, init);
      assert q + ps == (q + init) + [p];
      LastOfLast(q + init, maxlen, p);
    }
  }

  class MemoryBus {
    const maxlen: nat
    var q: seq<Packet>

    ghost predicate Valid()
      reads this
    {
      |q| <= maxlen
    }

    constructor (maxlen: nat := DefaultMaxLen)
      ensures Valid()
      ensures this.maxlen == maxlen && q == []
    {
      this.maxlen := maxlen;
      q := [];
    }

    /** Never blocks and never fails; when full, the oldest packet is silently discarded. */
    method Publish(pkt: Packet)
      requires Valid()
      modifies this
      ensures Valid()
      ensures q == Appended(old(q), maxlen, pkt)
    {
      q := q + [pkt];
      if |q| > maxlen {
        q := q[1..];
      }
    }

    /** Pops the head, or gives `None` when the queue is still empty after the wait (the
        model lets nothing arrive while the caller waits). */
    method Subscribe() returns (pkt: Option<Packet>)
      requires Valid()
      modifies this
      ensures Valid()
      ensures old(q) == [] ==> pkt == None && q == []
      ensures old(q) != [] ==> pkt == Some(old(q)[0]) && q == old(q)[1..]
    {
      if q == [] {
        pkt := None;
      } else {
        pkt := Some(q[0]);
        q := q[1..];
      }
    }
  }

  /** A fresh bus of capacity `n` after publishing `ps`. */
  method Filled(n: nat, ps: seq<Packet>) returns (bus: MemoryBus)
    ensures fresh(bus) && bus.Valid() && bus.maxlen == n
    ensures bus.q == Last(ps, n)
  {
    bus := new MemoryBus(n);
    for i := 0 to |ps|
      invariant bus.Valid() && bus.maxlen == n
      invariant bus.q == PublishAll([], n, ps[..i])
    {
      bus.Publish(ps[i]);
      assert ps[..i + 1][..i] == ps[..i];
    }
    assert ps[..|ps|] == ps;
    PublishAllKeepsLast([], n, ps);
    assert [] + ps == ps;
  }

  /** Subscribing `k` times on a bus holding at least `k` packets returns its first `k`. */
  method Drain(bus: MemoryBus, k: nat) returns (got: seq<Option<Packet>>)
    requires bus.Valid() && k <= |bus.q|
    modifies bus
    ensures bus.Valid()
    ensures |got| == k && bus.q == old(bus.q)[k..]
    ensures forall j :: 0 <= j < k ==> got[j] == Some(old(bus.q)[j])
  {
    got := [];
    for j := 0 to k
      invariant bus.Valid()
      invariant |got| == j && bus.q == old(bus.q)[j..]
      invariant forall i :: 0 <= i < j ==> got[i] == Some(old(bus.q)[i])
    {
      ghost var before := bus.q;
      assert before[1..] == old(bus.q)[j + 1..];
      var p := bus.Subscribe();
      got := got + [p];
    }
  }

  /** Publishing `|ps| >= n` packets into a fresh bus of capacity `n` and then subscribing
      `n + 1` times yields the last `n` packets in publish order, then `None`. */
  method OverflowScenario(n: nat, ps: seq<Packet>) returns (got: seq<Option<Packet>>)
    requires |ps| >= n
    ensures |got| == n + 1
    ensures forall j :: 0 <= j < n ==> got[j] == Some(ps[|ps| - n + j])
    ensures got[n] == None
  {
    var bus := Filled(n, ps);
    got := Drain(bus, n);
    var last := bus.Subscribe();
    got := got + [last];
  }
}
