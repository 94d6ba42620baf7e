/** http2/frame.go: the wire form of frames, and its parser. */
module FrameCodec {
  import opened Common

  type Uint16 = x: int | 0 <= x < 0x1_0000
  type Uint32 = x: int | 0 <= x < 0x1_0000_0000

  const HIGH_BIT := 0x8000_0000
  const HEADER_LEN := 9
  const MAX_FRAME_SIZE := 0xff_ffff

  // ----- Numbers on the wire -----

  /** Two big-endian digits in base 256. */
  function Join(high: int, low: int): (v: int) {
    high * 0x100 + low
  }

  function PutUint16(v: Uint16): (s: Bytes)
    ensures |s| == 2
  {
    [v / 0x100, v % 0x100]
  }

  function Uint16At(s: Bytes): (v: Uint16)
    requires |s| >= 2
  {
    Join(s[0], s[1])
  }

  function PutUint32(v: Uint32): (s: Bytes)
    ensures |s| == 4
  {
    var v1 := v / 0x100;
    var v2 := v1 / 0x100;
    [v2 / 0x100, v2 % 0x100, v1 % 0x100, v % 0x100]
  }

  function Uint32At(s: Bytes): (v: Uint32)
    requires |s| >= 4
  {
    Join(Join(Join(s[0], s[1]), s[2]), s[3])
  }

  /** Without the high bit. */
  function Low31(v: Uint32): (r: Uint32)
    ensures r < HIGH_BIT && (v < HIGH_BIT ==> r == v)
  {
    if v < HIGH_BIT then v else v - HIGH_BIT
  }

  lemma Uint32Back(v: Uint32, rest: Bytes)
    ensures Uint32At(PutUint32(v) + rest) == v
  {
  }

  lemma Uint16Back(v: Uint16, rest: Bytes)
    ensures Uint16At(PutUint16(v) + rest) == v
  {
  }

  // ----- Flags and headers -----

  type Flags = Byte

  const END_STREAM: Flags := 0x1
  const ACK: Flags := 0x1
  const END_HEADERS: Flags := 0x4
  const PADDED: Flags := 0x8
  const PRIORITY: Flags := 0x20

  /** Whether the one bit of v is set in f. */
  predicate Has(f: Flags, v: Flags)
    requires v > 0
  {
    f / v % 2 == 1
  }

  /** The flags whose conditions hold. */
  function FlagsOf(endStream: bool, endHeaders: bool, padded: bool, priority: bool): (f: Flags)
    ensures Has(f, END_STREAM) == endStream && Has(f, END_HEADERS) == endHeaders
    ensures Has(f, PADDED) == padded && Has(f, PRIORITY) == priority
  {
    (if endStream then END_STREAM else 0) + (if endHeaders then END_HEADERS else 0)
    + (if padded then PADDED else 0) + (if priority then PRIORITY else 0)
  }

  const DATA: Byte := 0
  const HEADERS: Byte := 1
  const PRIORITY_TYPE: Byte := 2
  const RST_STREAM: Byte := 3
  const SETTINGS: Byte := 4
  const PUSH_PROMISE: Byte := 5
  const PING: Byte := 6
  const GOAWAY: Byte := 7
  const WINDOW_UPDATE: Byte := 8
  const CONTINUATION: Byte := 9

  datatype FrameHeader = FrameHeader(typ: Byte, flags: Flags, length: nat, streamID: Uint32)

  /** The bytes startWrite puts down, with the length that endWrite fills in. */
  function HeaderBytes(h: FrameHeader): (s: Bytes)
    requires h.length <= MAX_FRAME_SIZE
    ensures |s| == HEADER_LEN
  {
    var n := h.length / 0x100;
    [n / 0x100, n % 0x100, h.length % 0x100, h.typ, h.flags] + PutUint32(h.streamID)
  }

  /** The header at the front of s; the reserved bit is dropped. */
  function HeaderAt(s: Bytes): (h: FrameHeader)
    requires |s| >= HEADER_LEN
    ensures h.length <= MAX_FRAME_SIZE && h.streamID < HIGH_BIT
  {
    FrameHeader(s[3], s[4], Join(Join(s[0], s[1]), s[2]), Low31(Uint32At(s[5..])))
  }

  lemma HeaderBack(h: FrameHeader, rest: Bytes)
    requires h.length <= MAX_FRAME_SIZE
    ensures HeaderAt(HeaderBytes(h) + rest) == h.(streamID := Low31(h.streamID))
  {
    var s := HeaderBytes(h) + rest;
    assert s[5..] == PutUint32(h.streamID) + rest;
    Uint32Back(h.streamID, rest);
  }

  // ----- Frames -----

  datatype PriorityParam = PriorityParam(streamDep: Uint32, exclusive: bool, weight: Byte)

  const NO_PRIORITY := PriorityParam(0, false, 0)

  datatype Setting = Setting(id: Uint16, val: Uint32)

  const INITIAL_WINDOW_SIZE: Uint16 := 4

  datatype Frame =
    | DataFrame(h: FrameHeader, data: Bytes)
    | HeadersFrame(h: FrameHeader, priority: PriorityParam, frag: Bytes)
    | PriorityFrame(h: FrameHeader, priority: PriorityParam)
    | RSTStreamFrame(h: FrameHeader, code: Uint32)
    | SettingsFrame(h: FrameHeader, settings: seq<Setting>)
    | PushPromiseFrame(h: FrameHeader, promiseID: Uint32, frag: Bytes)
    | PingFrame(h: FrameHeader, data: Bytes)
    | GoAwayFrame(h: FrameHeader, lastStreamID: Uint32, code: Uint32, debug: Bytes)
    | WindowUpdateFrame(h: FrameHeader, increment: Uint32)
    | ContinuationFrame(h: FrameHeader, frag: Bytes)
    | UnknownFrame(h: FrameHeader, data: Bytes)
  {
    /** The frame type that goes with the kind of the frame. */
    function Type(): (typ: Byte) {
      match this
      case DataFrame(_, _) => DATA
      case HeadersFrame(_, _, _) => HEADERS
      case PriorityFrame(_, _) => PRIORITY_TYPE
      case RSTStreamFrame(_, _) => RST_STREAM
      case SettingsFrame(_, _) => SETTINGS
      case PushPromiseFrame(_, _, _) => PUSH_PROMISE
      case PingFrame(_, _) => PING
      case GoAwayFrame(_, _, _, _) => GOAWAY
      case WindowUpdateFrame(_, _) => WINDOW_UPDATE
      case ContinuationFrame(_, _) => CONTINUATION
      case UnknownFrame(h, _) => h.typ
    }
  }

  /** Frames that belong to a stream, and frames that belong to none; WINDOW_UPDATE may be either. */
  predicate OfStream(typ: Byte) {
    typ == DATA || typ == HEADERS || typ == PRIORITY_TYPE || typ == RST_STREAM || typ == PUSH_PROMISE || typ == CONTINUATION
  }

  predicate OfConnection(typ: Byte) {
    typ == SETTINGS || typ == PING || typ == GOAWAY
  }

  datatype Error = Eof | TooLarge | Connection(code: nat) | Stream(id: Uint32, code: nat)

  const PROTOCOL_ERROR := 1
  const FLOW_CONTROL_ERROR := 3
  const FRAME_SIZE_ERROR := 6

  datatype Result<+T> = Ok(value: T) | Err(error: Error)

  // ----- Parsers -----

  /** The padding length and what follows it. */
  function ReadPad(h: FrameHeader, p: Bytes): (r: Result<(Byte, Bytes)>) {
    if !Has(h.flags, PADDED) then Ok((0, p))
    else if p == [] then Err(Eof)
    else Ok((p[0], p[1..]))
  }

  /** The dependency and weight in five bytes. */
  function PriorityAt(p: Bytes): (r: PriorityParam)
    requires |p| >= 5
  {
    var v := Uint32At(p);
    PriorityParam(Low31(v), v != Low31(v), p[4])
  }

  function ParseData(h: FrameHeader, payload: Bytes): (r: Result<Frame>) {
    if h.streamID == 0 then Err(Connection(PROTOCOL_ERROR))
    else
      match ReadPad(h, payload)
      case Err(e) => Err(e)
      case Ok((pad, p)) =>
        if pad > |p| then Err(Connection(PROTOCOL_ERROR)) else Ok(DataFrame(h, p[..|p| - pad]))
  }

  function HeadersBody(h: FrameHeader, priority: PriorityParam, pad: Byte, p: Bytes): (r: Result<Frame>) {
    if |p| < pad then Err(Stream(h.streamID, PROTOCOL_ERROR)) else Ok(HeadersFrame(h, priority, p[..|p| - pad]))
  }

  function ParseHeaders(h: FrameHeader, payload: Bytes): (r: Result<Frame>) {
    if h.streamID == 0 then Err(Connection(PROTOCOL_ERROR))
    else
      match ReadPad(h, payload)
      case Err(e) => Err(e)
      case Ok((pad, p)) =>
        if !Has(h.flags, PRIORITY) then HeadersBody(h, NO_PRIORITY, pad, p)
        else if |p| < 5 then Err(Eof)
        else HeadersBody(h, PriorityAt(p), pad, p[5..])
  }

  function ParsePriority(h: FrameHeader, p: Bytes): (r: Result<Frame>) {
    if h.streamID == 0 then Err(Connection(PROTOCOL_ERROR))
    else if |p| != 5 then Err(Connection(FRAME_SIZE_ERROR))
    else Ok(PriorityFrame(h, PriorityAt(p)))
  }

  function ParseRSTStream(h: FrameHeader, p: Bytes): (r: Result<Frame>) {
    if |p| != 4 then Err(Connection(FRAME_SIZE_ERROR))
    else if h.streamID == 0 then Err(Connection(PROTOCOL_ERROR))
    else Ok(RSTStreamFrame(h, Uint32At(p)))
  }

  function SettingsAt(p: Bytes): (r: seq<Setting>) {
    if |p| < 6 then [] else [Setting(Uint16At(p), Uint32At(p[2..]))] + SettingsAt(p[6..])
  }

  /** The first value given for a setting. */
  function Value(settings: seq<Setting>, id: Uint16): (r: Option<Uint32>) {
    if settings == [] then None
    else if settings[0].id == id then Some(settings[0].val)
    else Value(settings[1..], id)
  }

  predicate WindowTooBig(settings: seq<Setting>) {
    var v := Value(settings, INITIAL_WINDOW_SIZE);
    v.Some? && v.value > 0x7fff_ffff
  }

  function ParseSettings(h: FrameHeader, p: Bytes): (r: Result<Frame>) {
    if Has(h.flags, ACK) && h.length > 0 then Err(Connection(FRAME_SIZE_ERROR))
    else if h.streamID != 0 then Err(Connection(PROTOCOL_ERROR))
    else if |p| % 6 != 0 then Err(Connection(FRAME_SIZE_ERROR))
    else if WindowTooBig(SettingsAt(p)) then Err(Connection(FLOW_CONTROL_ERROR))
    else Ok(SettingsFrame(h, SettingsAt(p)))
  }

  function ParsePushPromise(h: FrameHeader, payload: Bytes): (r: Result<Frame>) {
    if h.streamID == 0 then Err(Connection(PROTOCOL_ERROR))
    else
      match ReadPad(h, payload)
      case Err(e) => Err(e)
      case Ok((pad, p)) =>
        if |p| < 4 then Err(Eof)
        else if pad > |p| - 4 then Err(Connection(PROTOCOL_ERROR))
        else Ok(PushPromiseFrame(h, Low31(Uint32At(p)), p[4..|p| - pad]))
  }

  function ParsePing(h: FrameHeader, p: Bytes): (r: Result<Frame>) {
    if |p| != 8 then Err(Connection(FRAME_SIZE_ERROR))
    else if h.streamID != 0 then Err(Connection(PROTOCOL_ERROR))
    else Ok(PingFrame(h, p))
  }

  function ParseGoAway(h: FrameHeader, p: Bytes): (r: Result<Frame>) {
    if h.streamID != 0 then Err(Connection(PROTOCOL_ERROR))
    else if |p| < 8 then Err(Connection(FRAME_SIZE_ERROR))
    else Ok(GoAwayFrame(h, Low31(Uint32At(p)), Uint32At(p[4..]), p[8..]))
  }

  function ParseWindowUpdate(h: FrameHeader, p: Bytes): (r: Result<Frame>) {
    if |p| != 4 then Err(Connection(FRAME_SIZE_ERROR))
    else if Low31(Uint32At(p)) == 0 then
      if h.streamID == 0 then Err(Connection(PROTOCOL_ERROR)) else Err(Stream(h.streamID, PROTOCOL_ERROR))
    else Ok(WindowUpdateFrame(h, Low31(Uint32At(p))))
  }

  function ParseContinuation(h: FrameHeader, p: Bytes): (r: Result<Frame>) {
    if h.streamID == 0 then Err(Connection(PROTOCOL_ERROR)) else Ok(ContinuationFrame(h, p))
  }

  function Parse(h: FrameHeader, p: Bytes): (r: Result<Frame>)
    ensures r.Ok? ==> r.value.h == h && r.value.Type() == h.typ
    ensures r.Ok? ==> (r.value.UnknownFrame? <==> h.typ > CONTINUATION)
    ensures r.Ok? && OfStream(h.typ) ==> h.streamID != 0
    ensures r.Ok? && OfConnection(h.typ) ==> h.streamID == 0
  {
    if h.typ == DATA then ParseData(h, p)
    else if h.typ == HEADERS then ParseHeaders(h, p)
    else if h.typ == PRIORITY_TYPE then ParsePriority(h, p)
    else if h.typ == RST_STREAM then ParseRSTStream(h, p)
    else if h.typ == SETTINGS then ParseSettings(h, p)
    else if h.typ == PUSH_PROMISE then ParsePushPromise(h, p)
    else if h.typ == PING then ParsePing(h, p)
    else if h.typ == GOAWAY then ParseGoAway(h, p)
    else if h.typ == WINDOW_UPDATE then ParseWindowUpdate(h, p)
    else if h.typ == CONTINUATION then ParseContinuation(h, p)
    else Ok(UnknownFrame(h, p))
  }

  /** A frame at the front of the stream, before its place among the others is checked. */
  function FrameAt(s: Bytes, maxReadSize: nat): (r: Result<Frame>) {
    if |s| < HEADER_LEN then Err(Eof)
    else
      var h := HeaderAt(s);
      if h.length > maxReadSize then Err(TooLarge)
      else if |s| < HEADER_LEN + h.length then Err(Eof)
      else Parse(h, s[HEADER_LEN..HEADER_LEN + h.length])
  }

  // ----- Writing -----

  /** A whole frame on the wire. */
  function Wire(typ: Byte, flags: Flags, streamID: Uint32, payload: Bytes): (s: Bytes)
    requires |payload| <= MAX_FRAME_SIZE
    ensures |s| == HEADER_LEN + |payload|
  {
    HeaderBytes(FrameHeader(typ, flags, |payload|, streamID)) + payload
  }

  /** A reader that may read that much parses what was written, whatever follows. */
  lemma WireBack(typ: Byte, flags: Flags, streamID: Uint32, payload: Bytes, rest: Bytes, maxReadSize: nat)
    requires |payload| <= MAX_FRAME_SIZE && |payload| <= maxReadSize && streamID < HIGH_BIT
    ensures FrameAt(Wire(typ, flags, streamID, payload) + rest, maxReadSize)
            == Parse(FrameHeader(typ, flags, |payload|, streamID), payload)
  {
    hide Parse;
    var h := FrameHeader(typ, flags, |payload|, streamID);
    var s := Wire(typ, flags, streamID, payload) + rest;
    HeaderBack(h, payload + rest);
    assert s == HeaderBytes(h) + (payload + rest);
    assert s[HEADER_LEN..HEADER_LEN + |payload|] == payload;
  }

  function Zeros(n: nat): (s: Bytes)
    ensures |s| == n
  {
    seq(n, _ => 0)
  }
}
