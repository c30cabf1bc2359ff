/** The ZMQ bus's message layout and timeout handling; the sockets themselves are not modelled. */
module Zmq {
  import opened Common
  import opened Decimal

  type Frame = seq<byte>

  predicate IsAscii(s: string) { forall i :: 0 <= i < |s| ==> s[i] as int < 128 }

  /** `s.encode("ascii")` for a string known to be ASCII. */
  function AsciiEncode(s: string): (b: Frame)
    requires IsAscii(s)
    ensures |b| == |s| && forall i :: 0 <= i < |s| ==> b[i] == s[i] as int
  {
    if s == [] then [] else [s[0] as int as byte] + AsciiEncode(s[1..])
  }

  /** `b.decode("ascii")`; `None` is the `UnicodeDecodeError` for a byte of 128 or more. */
  function AsciiDecode(b: Frame): (s: Option<string>)
    ensures s.Some? <==> forall i :: 0 <= i < |b| ==> b[i] < 128
    ensures s.Some? ==> |s.value| == |b| && forall i :: 0 <= i < |b| ==> s.value[i] as int == b[i]
  {
    if b == [] then Some([])
    else if b[0] >= 128 then None
    else
      var rest := AsciiDecode(b[1..]);
      if rest.None? then None else Some([b[0] as char] + rest.value)
  }

  lemma DecodeEncode(s: string)
    requires IsAscii(s)
    ensures AsciiDecode(AsciiEncode(s)) == Some(s)
  {
    var d := AsciiDecode(AsciiEncode(s));
    assert d.Some?;
    assert d.value == s;
  }

  /** The numeral of an integer is ASCII. */
  lemma FormatIntAscii(i: int)
    ensures IsAscii(FormatInt(i))
  {
  }

  /** `[b"", str(ts_ns).encode("ascii"), payload]`: the multipart message `publish` sends. */
  function PublishFrames(pkt: Packet): (f: seq<Frame>)
    ensures |f| == 3 && f[0] == [] && f[2] == pkt.payload
    ensures AsciiDecode(f[1]) == Some(FormatInt(pkt.tsNs))
  {
    FormatIntAscii(pkt.tsNs);
    DecodeEncode(FormatInt(pkt.tsNs));
    [[], AsciiEncode(FormatInt(pkt.tsNs)), pkt.payload]
  }

  /** Why decoding a received message raises. */
  datatype RecvError = UnpackError | DecodeError | ParseError

  /** Unpacking `_topic, ts_b, payload` and `int(ts_b.decode("ascii"))`. */
  function Unframe(frames: seq<Frame>): (r: Result<Packet, RecvError>)
    ensures |frames| != 3 ==> r == Err(UnpackError)
    ensures r.Ok? ==> r.value.payload == frames[2]
  {
    if |frames| != 3 then Err(UnpackError)
    else
      var text := AsciiDecode(frames[1]);
      if text.None? then Err(DecodeError)
      else
        var ts := ParseInt(text.value);
        if ts.None? then Err(ParseError) else Ok(Packet(ts.value, frames[2]))
  }

  /** What `publish` sends, `subscribe` reads back: timestamp (negative ones included) and
      payload byte for byte. */
  lemma FramingRoundTrip(pkt: Packet)
    ensures Unframe(PublishFrames(pkt)) == Ok(pkt)
  {
    ParseFormatInt(pkt.tsNs);
  }

  /** The poll timeout in milliseconds: `0 if timeout is None else int(max(0.0, timeout) * 1000)`. */
  function TimeoutMs(timeout: Option<real>): (ms: int)
    ensures ms >= 0
    ensures timeout.None? ==> ms == 0
    ensures timeout.Some? && timeout.value <= 0.0 ==> ms == 0
    ensures timeout.Some? && timeout.value >= 0.0 ==>
              ms as real <= timeout.value * 1000.0 < ms as real + 1.0
  {
    if timeout.None? then 0 else Trunc(Max0(timeout.value) * 1000.0)
  }

  /** `subscribe` after the poll: `ready` says whether the poller reported the sub socket,
      `inbox` holds the messages waiting at that socket. With no event, nothing is received. */
  function Subscribe(ready: bool, inbox: seq<seq<Frame>>): (r: (Result<Option<Packet>, RecvError>, seq<seq<Frame>>))
    requires ready ==> inbox != []
    ensures !ready ==> r == (Ok(None), inbox)
    ensures ready ==> r.1 == inbox[1..]
  {
    if !ready then (Ok(None), inbox)
    else
      var u := Unframe(inbox[0]);
      (if u.Ok? then Ok(Some(u.value)) else Err(u.error), inbox[1..])
  }

  /** A message that `publish` sent is received as the packet that was published. */
  lemma PublishThenSubscribe(pkt: Packet, rest: seq<seq<Frame>>)
    ensures Subscribe(true, [PublishFrames(pkt)] + rest) == (Ok(Some(pkt)), rest)
  {
    FramingRoundTrip(pkt);
    assert ([PublishFrames(pkt)] + rest)[1..] == rest;
  }
}
