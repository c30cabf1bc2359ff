/** `make_bus`: picks the base bus from its kind and wraps it when any impairment is asked for. */
module BusFactory {
  import opened Common
  import Memory
  import Impair

  /** The bus that `make_bus` builds, described by the constructor calls it makes. */
  datatype BusShape =
    | MemoryBase(maxlen: nat)
    | ZmqBase(endpoint: string)
    | Impaired(base: BusShape, latencyMs: real, jitterMs: real, dropPctRx: real)

  datatype FactoryError = RuntimeError(message: string) | ValueError(message: string)

  function BaseOf(b: BusShape): BusShape
  {
    if b.Impaired? then BaseOf(b.base) else b
  }

  /** `zmqAvailable` is whether the optional import of the ZMQ transport succeeded. */
  function MakeBus(kind: string, endpoint: string, netLatencyMs: real, netJitterMs: real,
                   dropPctRx: real, zmqAvailable: bool): (r: Result<BusShape, FactoryError>)
    ensures r.Err? <==> kind != "memory" && (kind != "zmq" || !zmqAvailable)
    ensures r.Err? && kind == "zmq" ==> r.error == RuntimeError("pyzmq not installed")
    ensures r.Err? && kind != "zmq" ==> r.error == ValueError("unknown bus kind: " + kind)
    ensures r.Ok? && kind == "memory" ==> BaseOf(r.value) == MemoryBase(Memory.DefaultMaxLen)
    ensures r.Ok? && kind == "zmq" ==> BaseOf(r.value) == ZmqBase(endpoint)
    ensures r.Ok? ==> (r.value.Impaired? <==> netLatencyMs > 0.0 || netJitterMs > 0.0 || dropPctRx > 0.0)
    ensures r.Ok? && r.value.Impaired? ==>
              r.value.base == BaseOf(r.value) &&
              r.value.latencyMs == netLatencyMs && r.value.jitterMs == netJitterMs &&
              r.value.dropPctRx == dropPctRx
    ensures r.Ok? && !r.value.Impaired? ==> r.value == BaseOf(r.value)
  {
    var base :=
      if kind == "memory" then Ok(MemoryBase(Memory.DefaultMaxLen))
      else if kind == "zmq" then
        if !zmqAvailable then Err(RuntimeError("pyzmq not installed")) else Ok(ZmqBase(endpoint))
      else Err(ValueError("unknown bus kind: " + kind));
    if base.Err? then Err(base.error)
    else
      var useImp := netLatencyMs > 0.0 || netJitterMs > 0.0 || dropPctRx > 0.0;
      Ok(if useImp then Impaired(base.value, netLatencyMs, netJitterMs, dropPctRx) else base.value)
  }

  /** Leaving the wrapper out loses nothing: when no parameter is positive, the parameters
      the wrapper would have stored (clamped at 0) make every delivery the inner one,
      without sleep, whatever the draws. */
  lemma UnwrappedMeansUnimpaired(kind: string, endpoint: string, netLatencyMs: real,
                                 netJitterMs: real, dropPctRx: real, zmqAvailable: bool,
                                 inner: Option<Packet>, r: real, gauss: real)
    requires MakeBus(kind, endpoint, netLatencyMs, netJitterMs, dropPctRx, zmqAvailable).Ok?
    requires !MakeBus(kind, endpoint, netLatencyMs, netJitterMs, dropPctRx, zmqAvailable).value.Impaired?
    ensures Impair.Decide(inner, Max0(netLatencyMs), Max0(netJitterMs), Max0(dropPctRx), r, gauss)
         == Impair.Delivery(inner, None)
  {
  }
}
