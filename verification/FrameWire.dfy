/** HTTP/2 frames byte by byte, in the numbers of sections 4.1 and 6.1 to 6.10 of RFC 7540. */
module FrameWire {
  import opened Common
  import opened FrameCodec
  import opened Framer

  // ----- Numbers -----

  /** The n bytes of s from i on, most significant first. */
  ghost function Number(s: Bytes, i: nat, n: nat): (v: nat)
    requires i + n <= |s|
  {
    if n == 0 then 0
    else
      var low: int := s[i + n - 1];
      256 * Number(s, i, n - 1) + low
  }

  lemma FourBytes(s: Bytes, i: nat)
    requires i + 4 <= |s|
    ensures var b0: int, b1: int, b2: int, b3: int := s[i], s[i + 1], s[i + 2], s[i + 3];
            Number(s, i, 4) == 16777216 * b0 + 65536 * b1 + 256 * b2 + b3
  {
    var b0: int, b1: int, b2: int, b3: int := s[i], s[i + 1], s[i + 2], s[i + 3];
    assert Number(s, i, 1) == b0;
    assert Number(s, i, 2) == 256 * b0 + b1;
    assert Number(s, i, 3) == 65536 * b0 + 256 * b1 + b2;
  }

  lemma NumbersRead(s: Bytes, i: nat)
    requires i <= |s|
    ensures i + 2 <= |s| ==> Uint16At(s[i..]) == Number(s, i, 2)
    ensures i + 4 <= |s| ==> Uint32At(s[i..]) == Number(s, i, 4)
  {
    if i + 2 <= |s| {
      assert Number(s, i, 1) == s[i];
    }
    if i + 4 <= |s| {
      FourBytes(s, i);
    }
  }

  lemma NumbersWritten(v: Uint32, w: Uint16)
    ensures Number(PutUint32(v), 0, 4) == v && Number(PutUint16(w), 0, 2) == w
  {
    FourBytes(PutUint32(v), 0);
    assert Number(PutUint16(w), 0, 1) == PutUint16(w)[0];
  }

  /** Where a number stands does not matter. */
  lemma {:induction false} NumberMoved(a: Bytes, s: Bytes, b: Bytes, n: nat)
    requires n <= |s|
    ensures Number(a + s + b, |a|, n) == Number(s, 0, n)
  {
    if n > 0 {
      NumberMoved(a, s, b, n - 1);
      assert (a + s + b)[|a| + n - 1] == s[n - 1];
    }
  }

  // ----- Flags and types -----

  lemma FlagsMean(endStream: bool, endHeaders: bool, padded: bool, priority: bool, f: Flags)
    ensures FlagsOf(endStream, endHeaders, padded, priority) ==
            (if endStream then 1 else 0) + (if endHeaders then 4 else 0) + (if padded then 8 else 0) + (if priority then 32 else 0)
    ensures END_STREAM == ACK == 1 && END_HEADERS == 4 && PADDED == 8 && PRIORITY == 32
    ensures Has(f, END_STREAM) <==> f % 2 == 1
    ensures Has(f, END_HEADERS) <==> f / 4 % 2 == 1
    ensures Has(f, PADDED) <==> f / 8 % 2 == 1
    ensures Has(f, PRIORITY) <==> f / 32 % 2 == 1
  {
  }

  lemma TypesMean(h: FrameHeader, p: Bytes)
    requires Parse(h, p).Ok?
    ensures var f := Parse(h, p).value;
            && (f.DataFrame? <==> h.typ == 0)
            && (f.HeadersFrame? <==> h.typ == 1)
            && (f.PriorityFrame? <==> h.typ == 2)
            && (f.RSTStreamFrame? <==> h.typ == 3)
            && (f.SettingsFrame? <==> h.typ == 4)
            && (f.PushPromiseFrame? <==> h.typ == 5)
            && (f.PingFrame? <==> h.typ == 6)
            && (f.GoAwayFrame? <==> h.typ == 7)
            && (f.WindowUpdateFrame? <==> h.typ == 8)
            && (f.ContinuationFrame? <==> h.typ == 9)
            && (f.UnknownFrame? <==> h.typ > 9)
  {
    hide Parse;
  }

  // ----- The nine bytes of a header -----

  /** s is a frame with this header and payload. */
  ghost predicate IsFrame(s: Bytes, typ: int, flags: int, streamID: int, payload: Bytes) {
    && |s| == 9 + |payload|
    && Number(s, 0, 3) == |payload| && s[3] == typ && s[4] == flags && Number(s, 5, 4) == streamID
    && s[9..] == payload
  }

  lemma HeaderOnWire(typ: Byte, flags: Flags, streamID: Uint32, payload: Bytes)
    requires |payload| <= 0xff_ffff
    ensures IsFrame(Wire(typ, flags, streamID, payload), typ, flags, streamID, payload)
  {
    hide PutUint32;
    var s := Wire(typ, flags, streamID, payload);
    NumbersWritten(streamID, 0);
    NumberMoved(s[..5], PutUint32(streamID), payload, 4);
    assert s == s[..5] + PutUint32(streamID) + payload;
    ThreeBytes(s);
  }

  /** The header read from a frame: the length, type, flags and the low 31 bits of the stream ID. */
  lemma HeaderRead(s: Bytes)
    requires |s| >= 9
    ensures HeaderAt(s) == FrameHeader(s[3], s[4], Number(s, 0, 3), Number(s, 5, 4) % 0x8000_0000)
  {
    hide Uint32At, Number, Low31;
    NumbersRead(s, 5);
    ThreeBytes(s);
    LowBits(Uint32At(s[5..]));
  }

  lemma LowBits(v: Uint32)
    ensures Low31(v) == v % 0x8000_0000
  {
  }

  lemma ThreeBytes(s: Bytes)
    requires |s| >= 3
    ensures Number(s, 0, 3) == Join(Join(s[0], s[1]), s[2])
  {
    assert Number(s, 0, 1) == s[0];
    assert Number(s, 0, 2) == Join(s[0], s[1]);
  }

  // ----- Payloads -----

  /** The payload p holds body, after the length of the padding and before the padding, if it is padded. */
  ghost predicate IsPadded(p: Bytes, pad: Option<Bytes>, body: Bytes) {
    if pad.None? then p == body
    else
      var n := |pad.value|;
      |p| == 1 + |body| + n && p[0] == n && p[1..1 + |body|] == body && p[1 + |body|..] == pad.value
  }

  lemma PaddingOnWire(pad: Option<Bytes>, body: Bytes)
    requires pad.Some? ==> |pad.value| < 256
    ensures IsPadded(Padded(pad, body), pad, body)
  {
  }

  lemma DataOnWire(streamID: Uint32, endStream: bool, data: Bytes, pad: Option<Bytes>)
    requires (pad.Some? ==> |pad.value| < 256) && |Padded(pad, data)| <= 0xff_ffff
    ensures var p := Padded(pad, data);
            && IsPadded(p, pad, data)
            && IsFrame(Wire(DATA, FlagsOf(endStream, false, pad.Some?, false), streamID, p),
                       0, (if endStream then 1 else 0) + (if pad.Some? then 8 else 0), streamID, p)
  {
    hide Wire, IsFrame, FlagsOf, Has;
    PaddingOnWire(pad, data);
    FlagsMean(endStream, false, pad.Some?, false, 0);
    HeaderOnWire(DATA, FlagsOf(endStream, false, pad.Some?, false), streamID, Padded(pad, data));
  }

  /** The five bytes of a priority: the dependency with the exclusive bit on top, and the weight. */
  lemma PriorityOnWire(streamID: Uint32, p: PriorityParam)
    requires p.streamDep < 0x8000_0000
    ensures var s := PriorityBytes(p);
            |s| == 5 && Number(s, 0, 4) == p.streamDep + (if p.exclusive then 0x8000_0000 else 0) && s[4] == p.weight
    ensures IsFrame(Wire(PRIORITY_TYPE, 0, streamID, PriorityBytes(p)), 2, 0, streamID, PriorityBytes(p))
  {
    hide PutUint32;
    var v := if p.exclusive then p.streamDep + 0x8000_0000 else p.streamDep;
    NumbersWritten(v, 0);
    NumberMoved([], PutUint32(v), [p.weight], 4);
    assert [] + PutUint32(v) + [p.weight] == PriorityBytes(p);
    HeaderOnWire(PRIORITY_TYPE, 0, streamID, PriorityBytes(p));
  }

  lemma HeadersOnWire(streamID: Uint32, frag: Bytes, endStream: bool, endHeaders: bool, padLength: Byte, priority: PriorityParam)
    requires priority.streamDep < 0x8000_0000
    requires |Padded(PadOf(padLength), PrioritySection(priority) + frag)| <= 0xff_ffff
    ensures var p := Padded(PadOf(padLength), PrioritySection(priority) + frag);
            && IsPadded(p, if padLength == 0 then None else Some(seq(padLength, _ => 0)),
                        (if priority == PriorityParam(0, false, 0) then [] else PriorityBytes(priority)) + frag)
            && IsFrame(Wire(HEADERS, FlagsOf(endStream, endHeaders, padLength != 0, priority != NO_PRIORITY), streamID, p),
                       1, (if endStream then 1 else 0) + (if endHeaders then 4 else 0) + (if padLength != 0 then 8 else 0)
                          + (if priority != PriorityParam(0, false, 0) then 32 else 0), streamID, p)
  {
    hide Wire, IsFrame, FlagsOf, Has, IsPadded, PriorityBytes;
    var p := Padded(PadOf(padLength), PrioritySection(priority) + frag);
    PaddingOnWire(PadOf(padLength), PrioritySection(priority) + frag);
    FlagsMean(endStream, endHeaders, padLength != 0, priority != NO_PRIORITY, 0);
    HeaderOnWire(HEADERS, FlagsOf(endStream, endHeaders, padLength != 0, priority != NO_PRIORITY), streamID, p);
  }

  lemma PushPromiseOnWire(streamID: Uint32, promiseID: Uint32, frag: Bytes, endHeaders: bool, padLength: Byte)
    requires |Padded(PadOf(padLength), PutUint32(promiseID) + frag)| <= 0xff_ffff
    ensures var p := Padded(PadOf(padLength), PutUint32(promiseID) + frag);
            && Number(PutUint32(promiseID), 0, 4) == promiseID
            && IsPadded(p, if padLength == 0 then None else Some(seq(padLength, _ => 0)), PutUint32(promiseID) + frag)
            && IsFrame(Wire(PUSH_PROMISE, FlagsOf(false, endHeaders, padLength != 0, false), streamID, p),
                       5, (if endHeaders then 4 else 0) + (if padLength != 0 then 8 else 0), streamID, p)
  {
    hide Wire, IsFrame, FlagsOf, Has, IsPadded, PutUint32;
    var p := Padded(PadOf(padLength), PutUint32(promiseID) + frag);
    NumbersWritten(promiseID, 0);
    PaddingOnWire(PadOf(padLength), PutUint32(promiseID) + frag);
    FlagsMean(false, endHeaders, padLength != 0, false, 0);
    HeaderOnWire(PUSH_PROMISE, FlagsOf(false, endHeaders, padLength != 0, false), streamID, p);
  }

  /** RST_STREAM and WINDOW_UPDATE hold one number each. */
  lemma NumberOnWire(streamID: Uint32, v: Uint32)
    ensures |PutUint32(v)| == 4 && Number(PutUint32(v), 0, 4) == v
    ensures IsFrame(Wire(RST_STREAM, 0, streamID, PutUint32(v)), 3, 0, streamID, PutUint32(v))
    ensures IsFrame(Wire(WINDOW_UPDATE, 0, streamID, PutUint32(v)), 8, 0, streamID, PutUint32(v))
  {
    hide Wire, IsFrame, PutUint32;
    NumbersWritten(v, 0);
    HeaderOnWire(RST_STREAM, 0, streamID, PutUint32(v));
    HeaderOnWire(WINDOW_UPDATE, 0, streamID, PutUint32(v));
  }

  lemma PingOnWire(ack: bool, data: Bytes)
    requires |data| == 8
    ensures IsFrame(Wire(PING, if ack then ACK else 0, 0, data), 6, if ack then 1 else 0, 0, data)
    ensures IsFrame(Wire(SETTINGS, ACK, 0, []), 4, 1, 0, [])
  {
    hide Wire, IsFrame;
    HeaderOnWire(PING, if ack then ACK else 0, 0, data);
    HeaderOnWire(SETTINGS, ACK, 0, []);
  }

  /** Each setting is six bytes: its number and its value. */
  lemma {:induction false} SettingsOnWire(settings: seq<Setting>, i: nat)
    requires i < |settings|
    ensures var s := SettingsBytes(settings);
            && |s| == 6 * |settings|
            && Number(s, 6 * i, 2) == settings[i].id && Number(s, 6 * i + 2, 4) == settings[i].val
  {
    hide PutUint16, PutUint32;
    var a, b, rest := PutUint16(settings[0].id), PutUint32(settings[0].val), SettingsBytes(settings[1..]);
    var s := SettingsBytes(settings);
    NumbersWritten(settings[0].val, settings[0].id);
    if i == 0 {
      NumberMoved([], a, b + rest, 2);
      assert [] + a + (b + rest) == s;
      NumberMoved(a, b, rest, 4);
    } else {
      SettingsOnWire(settings[1..], i - 1);
      NumberLater(a + b, rest, 6 * (i - 1), 2);
      NumberLater(a + b, rest, 6 * (i - 1) + 2, 4);
      assert a + b + rest == s;
    }
  }

  lemma {:induction false} NumberLater(a: Bytes, s: Bytes, i: nat, n: nat)
    requires i + n <= |s|
    ensures Number(a + s, |a| + i, n) == Number(s, i, n)
  {
    if n > 0 {
      NumberLater(a, s, i, n - 1);
      assert (a + s)[|a| + i + n - 1] == s[i + n - 1];
    }
  }

  lemma SettingsFrameOnWire(settings: seq<Setting>)
    requires 6 * |settings| <= 0xff_ffff
    ensures IsFrame(Wire(SETTINGS, 0, 0, SettingsBytes(settings)), 4, 0, 0, SettingsBytes(settings))
  {
    hide Wire, IsFrame;
    HeaderOnWire(SETTINGS, 0, 0, SettingsBytes(settings));
  }

  lemma GoAwayOnWire(maxStreamID: Uint32, code: Uint32, debug: Bytes)
    requires 8 + |debug| <= 0xff_ffff
    ensures var p := PutUint32(Low31(maxStreamID)) + PutUint32(code) + debug;
            && Number(p, 0, 4) == maxStreamID % 0x8000_0000 && Number(p, 4, 4) == code && p[8..] == debug
            && IsFrame(Wire(GOAWAY, 0, 0, p), 7, 0, 0, p)
  {
    hide Wire, IsFrame, PutUint32;
    var a, b := PutUint32(Low31(maxStreamID)), PutUint32(code);
    NumbersWritten(Low31(maxStreamID), 0);
    NumbersWritten(code, 0);
    NumberMoved([], a, b + debug, 4);
    assert [] + a + (b + debug) == a + b + debug;
    NumberMoved(a, b, debug, 4);
    HeaderOnWire(GOAWAY, 0, 0, a + b + debug);
  }

  lemma ContinuationOnWire(streamID: Uint32, endHeaders: bool, frag: Bytes)
    requires |frag| <= 0xff_ffff
    ensures IsFrame(Wire(CONTINUATION, FlagsOf(false, endHeaders, false, false), streamID, frag),
                    9, if endHeaders then 4 else 0, streamID, frag)
  {
    hide Wire, IsFrame, FlagsOf, Has;
    FlagsMean(false, endHeaders, false, false, 0);
    HeaderOnWire(CONTINUATION, FlagsOf(false, endHeaders, false, false), streamID, frag);
  }

  // ----- What the parser accepts -----

  /** The bytes before the body: the length of the padding and the priority, where the flags announce them. */
  ghost function Lead(h: FrameHeader, priority: bool): (n: nat) {
    (if h.flags / 8 % 2 == 1 then 1 else 0) + (if priority && h.flags / 32 % 2 == 1 then 5 else 0)
  }

  /** The padding that the payload announces. */
  ghost function Padding(h: FrameHeader, p: Bytes): (n: nat) {
    if h.flags / 8 % 2 == 1 && p != [] then p[0] else 0
  }

  lemma ParseAccepts(h: FrameHeader, p: Bytes)
    ensures h.typ == 0 ==> (Parse(h, p).Ok? <==> h.streamID != 0 && |p| >= Lead(h, false) + Padding(h, p))
    ensures h.typ == 1 ==> (Parse(h, p).Ok? <==> h.streamID != 0 && |p| >= Lead(h, true) + Padding(h, p))
    ensures h.typ == 2 ==> (Parse(h, p).Ok? <==> h.streamID != 0 && |p| == 5)
    ensures h.typ == 3 ==> (Parse(h, p).Ok? <==> h.streamID != 0 && |p| == 4)
    ensures h.typ == 4 ==>
              (Parse(h, p).Ok? <==>
                 h.streamID == 0 && |p| % 6 == 0 && !(h.flags % 2 == 1 && h.length > 0) && !WindowTooBig(SettingsAt(p)))
    ensures h.typ == 5 ==> (Parse(h, p).Ok? <==> h.streamID != 0 && |p| >= Lead(h, false) + 4 + Padding(h, p))
    ensures h.typ == 6 ==> (Parse(h, p).Ok? <==> h.streamID == 0 && |p| == 8)
    ensures h.typ == 7 ==> (Parse(h, p).Ok? <==> h.streamID == 0 && |p| >= 8)
    ensures h.typ == 8 ==> (Parse(h, p).Ok? <==> |p| == 4 && Number(p, 0, 4) % 0x8000_0000 != 0)
    ensures h.typ == 9 ==> (Parse(h, p).Ok? <==> h.streamID != 0)
    ensures h.typ > 9 ==> Parse(h, p).Ok?
  {
    hide Uint32At, Number, Low31, SettingsAt, WindowTooBig;
    if |p| >= 4 {
      assert p[0..] == p;
      NumbersRead(p, 0);
      LowBits(Uint32At(p));
    }
  }

  /** A wrong stream ID is a PROTOCOL_ERROR (1), a wrong size a FRAME_SIZE_ERROR (6), of the connection. */
  lemma ParseRefuses(h: FrameHeader, p: Bytes)
    ensures (h.typ == 0 || h.typ == 1 || h.typ == 2 || h.typ == 5 || h.typ == 9) && h.streamID == 0 ==>
              Parse(h, p) == Err(Connection(1))
    ensures (h.typ == 3 || h.typ == 8) && |p| != 4 ==> Parse(h, p) == Err(Connection(6))
    ensures h.typ == 3 && |p| == 4 && h.streamID == 0 ==> Parse(h, p) == Err(Connection(1))
    ensures h.typ == 2 && |p| != 5 && h.streamID != 0 ==> Parse(h, p) == Err(Connection(6))
    ensures h.typ == 6 && |p| != 8 ==> Parse(h, p) == Err(Connection(6))
    ensures h.typ == 7 && h.streamID != 0 ==> Parse(h, p) == Err(Connection(1))
    ensures h.typ == 4 && h.streamID == 0 && !(h.flags % 2 == 1 && h.length > 0) && |p| % 6 == 0 && WindowTooBig(SettingsAt(p)) ==>
              Parse(h, p) == Err(Connection(3))
    ensures h.typ == 8 && |p| == 4 && Number(p, 0, 4) % 0x8000_0000 == 0 && h.streamID != 0 ==>
              Parse(h, p) == Err(Stream(h.streamID, 1))
  {
    hide Uint32At, Number, Low31, SettingsAt, WindowTooBig;
    if |p| >= 4 {
      assert p[0..] == p;
      NumbersRead(p, 0);
      LowBits(Uint32At(p));
    }
  }
}
