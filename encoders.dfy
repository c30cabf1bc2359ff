/** The `(kind, codec)` table from which the producers pick their payload encoder. */
module Encoders {
  import opened Common

  /** Which synthetic frame source feeds the encoder. */
  datatype Signal = Rgb | Tof

  /** The encoders of the table, with the quality or compression level they are called with. */
  datatype Encoder = RgbJpeg(quality: nat) | RgbPng(level: nat) | DepthPng16(level: nat)

  /** The frame source a producer uses for `kind`: RGB for "rgb", depth for anything else. */
  function FrameSignal(kind: string): Signal
  {
    if kind == "rgb" then Rgb else Tof
  }

  /** The signal an encoder consumes. */
  function Consumes(e: Encoder): Signal
  {
    if e.DepthPng16? then Tof else Rgb
  }

  /** The dictionary lookup; `None` is the `KeyError` of an unsupported pair. */
  function Lookup(kind: string, codec: string): (e: Option<Encoder>)
    ensures e.Some? <==> (kind == "rgb" && (codec == "jpeg" || codec == "png"))
                         || (kind == "tof" && codec == "png16")
    ensures e.Some? ==> Consumes(e.value) == FrameSignal(kind)
    ensures e == Some(RgbJpeg(80)) <==> kind == "rgb" && codec == "jpeg"
    ensures e == Some(RgbPng(3)) <==> kind == "rgb" && codec == "png"
    ensures e == Some(DepthPng16(3)) <==> kind == "tof" && codec == "png16"
  {
    if kind == "rgb" && codec == "jpeg" then Some(RgbJpeg(80))
    else if kind == "rgb" && codec == "png" then Some(RgbPng(3))
    else if kind == "tof" && codec == "png16" then Some(DepthPng16(3))
    else None
  }
}
