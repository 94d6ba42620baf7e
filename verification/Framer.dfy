/** http2/frame.go: the writing half of the Framer, and the round trip through the parser. */
module Framer {
  import opened Common
  import opened FrameCodec

  predicate ValidStreamIDOrZero(id: Uint32) {
    id < HIGH_BIT
  }

  predicate ValidStreamID(id: Uint32) {
    id != 0 && id < HIGH_BIT
  }

  // ----- Payloads -----

  /** Padding around a body: its length in front, if it is given, and the bytes behind. */
  function Padded(pad: Option<Bytes>, body: Bytes): (s: Bytes)
    requires pad.Some? ==> |pad.value| < 0x100
  {
    if pad.None? then body else [|pad.value|] + body + pad.value
  }

  /** HEADERS and PUSH_PROMISE frames are padded unless the length is zero. */
  function PadOf(n: Byte): (pad: Option<Bytes>)
    ensures pad.Some? ==> |pad.value| < 0x100
  {
    if n == 0 then None else Some(Zeros(n))
  }

  function PriorityBytes(p: PriorityParam): (s: Bytes)
    requires ValidStreamIDOrZero(p.streamDep)
    ensures |s| == 5
  {
    PutUint32(if p.exclusive then p.streamDep + HIGH_BIT else p.streamDep) + [p.weight]
  }

  function PrioritySection(p: PriorityParam): (s: Bytes)
    requires ValidStreamIDOrZero(p.streamDep)
  {
    if p == NO_PRIORITY then [] else PriorityBytes(p)
  }

  function SettingsBytes(settings: seq<Setting>): (s: Bytes)
    ensures |s| == 6 * |settings|
  {
    if settings == [] then [] else PutUint16(settings[0].id) + PutUint32(settings[0].val) + SettingsBytes(settings[1..])
  }

  // ----- Round trips of the parts -----

  /** The parser removes the padding that the writer put in. */
  lemma PadBack(h: FrameHeader, pad: Option<Bytes>, body: Bytes)
    requires pad.Some? ==> |pad.value| < 0x100
    requires Has(h.flags, PADDED) == pad.Some?
    ensures var n := if pad.Some? then |pad.value| else 0;
            ReadPad(h, Padded(pad, body)) == Ok((n, body + if pad.Some? then pad.value else []))
  {
    if pad.None? {
      assert body + [] == body;
    } else {
      assert ([|pad.value|] + body + pad.value)[1..] == body + pad.value;
    }
  }

  lemma PriorityBack(p: PriorityParam, rest: Bytes)
    requires ValidStreamIDOrZero(p.streamDep)
    ensures PriorityAt(PriorityBytes(p) + rest) == p
  {
    var v := if p.exclusive then p.streamDep + HIGH_BIT else p.streamDep;
    assert PriorityBytes(p) + rest == PutUint32(v) + ([p.weight] + rest);
    Uint32Back(v, [p.weight] + rest);
  }

  lemma {:induction false} SettingsBack(settings: seq<Setting>)
    ensures SettingsAt(SettingsBytes(settings)) == settings
  {
    if settings != [] {
      var s, more := settings[0], SettingsBytes(settings[1..]);
      var p := PutUint16(s.id) + PutUint32(s.val) + more;
      assert p == PutUint16(s.id) + (PutUint32(s.val) + more);
      Uint16Back(s.id, PutUint32(s.val) + more);
      assert p[2..] == PutUint32(s.val) + more;
      Uint32Back(s.val, more);
      assert p[6..] == more;
      SettingsBack(settings[1..]);
    }
  }

  // ----- Round trips of the frames -----

  /** What a reader gets from a frame that was written. */
  function ReadBack(typ: Byte, flags: Flags, streamID: Uint32, payload: Bytes, rest: Bytes, maxReadSize: nat): (r: Result<Frame>)
    requires |payload| <= MAX_FRAME_SIZE
  {
    FrameAt(Wire(typ, flags, streamID, payload) + rest, maxReadSize)
  }

  lemma DataRoundTrip(streamID: Uint32, endStream: bool, data: Bytes, pad: Option<Bytes>, rest: Bytes, maxReadSize: nat)
    requires ValidStreamID(streamID) && (pad.Some? ==> |pad.value| < 0x100)
    requires |Padded(pad, data)| <= Min(MAX_FRAME_SIZE, maxReadSize)
    ensures var flags := FlagsOf(endStream, false, pad.Some?, false);
            var p := Padded(pad, data);
            ReadBack(DATA, flags, streamID, p, rest, maxReadSize)
            == Ok(DataFrame(FrameHeader(DATA, flags, |p|, streamID), data))
  {
    hide FlagsOf, Has, FrameAt, Wire;
    var flags, p := FlagsOf(endStream, false, pad.Some?, false), Padded(pad, data);
    WireBack(DATA, flags, streamID, p, rest, maxReadSize);
    PadBack(FrameHeader(DATA, flags, |p|, streamID), pad, data);
    assert (data + if pad.Some? then pad.value else [])[..|data|] == data;
  }

  lemma HeadersRoundTrip(streamID: Uint32, frag: Bytes, endStream: bool, endHeaders: bool, padLength: Byte,
                         priority: PriorityParam, rest: Bytes, maxReadSize: nat)
    requires ValidStreamID(streamID) && ValidStreamIDOrZero(priority.streamDep)
    requires |Padded(PadOf(padLength), PrioritySection(priority) + frag)| <= Min(MAX_FRAME_SIZE, maxReadSize)
    ensures var flags := FlagsOf(endStream, endHeaders, padLength != 0, priority != NO_PRIORITY);
            var p := Padded(PadOf(padLength), PrioritySection(priority) + frag);
            ReadBack(HEADERS, flags, streamID, p, rest, maxReadSize)
            == Ok(HeadersFrame(FrameHeader(HEADERS, flags, |p|, streamID), priority, frag))
  {
    hide FlagsOf, Has, FrameAt, Wire, PriorityAt, PriorityBytes;
    var flags := FlagsOf(endStream, endHeaders, padLength != 0, priority != NO_PRIORITY);
    var pad, body := PadOf(padLength), PrioritySection(priority) + frag;
    var p := Padded(pad, body);
    WireBack(HEADERS, flags, streamID, p, rest, maxReadSize);
    PadBack(FrameHeader(HEADERS, flags, |p|, streamID), pad, body);
    var padding := if pad.Some? then pad.value else [];
    if priority == NO_PRIORITY {
      assert (body + padding)[..|frag|] == frag;
    } else {
      assert body + padding == PriorityBytes(priority) + (frag + padding);
      PriorityBack(priority, frag + padding);
      assert (body + padding)[5..] == frag + padding;
      assert (frag + padding)[..|frag|] == frag;
    }
  }

  lemma PriorityRoundTrip(streamID: Uint32, priority: PriorityParam, rest: Bytes, maxReadSize: nat)
    requires ValidStreamID(streamID) && ValidStreamIDOrZero(priority.streamDep) && maxReadSize >= 5
    ensures ReadBack(PRIORITY_TYPE, 0, streamID, PriorityBytes(priority), rest, maxReadSize)
            == Ok(PriorityFrame(FrameHeader(PRIORITY_TYPE, 0, 5, streamID), priority))
  {
    hide FrameAt, Wire, PriorityAt, PriorityBytes;
    WireBack(PRIORITY_TYPE, 0, streamID, PriorityBytes(priority), rest, maxReadSize);
    PriorityBack(priority, []);
    assert PriorityBytes(priority) + [] == PriorityBytes(priority);
  }

  lemma RSTStreamRoundTrip(streamID: Uint32, code: Uint32, rest: Bytes, maxReadSize: nat)
    requires ValidStreamID(streamID) && maxReadSize >= 4
    ensures ReadBack(RST_STREAM, 0, streamID, PutUint32(code), rest, maxReadSize)
            == Ok(RSTStreamFrame(FrameHeader(RST_STREAM, 0, 4, streamID), code))
  {
    hide FrameAt, Wire, Uint32At, PutUint32;
    WireBack(RST_STREAM, 0, streamID, PutUint32(code), rest, maxReadSize);
    Uint32Back(code, []);
    assert PutUint32(code) + [] == PutUint32(code);
  }

  /** Settings come back unless the first initial window size given is too big; then reading is a connection error. */
  lemma SettingsRoundTrip(settings: seq<Setting>, rest: Bytes, maxReadSize: nat)
    requires 6 * |settings| <= Min(MAX_FRAME_SIZE, maxReadSize)
    ensures ReadBack(SETTINGS, 0, 0, SettingsBytes(settings), rest, maxReadSize)
            == if WindowTooBig(settings) then Err(Connection(FLOW_CONTROL_ERROR))
               else Ok(SettingsFrame(FrameHeader(SETTINGS, 0, 6 * |settings|, 0), settings))
  {
    hide FrameAt, Wire, SettingsAt, SettingsBytes, WindowTooBig;
    WireBack(SETTINGS, 0, 0, SettingsBytes(settings), rest, maxReadSize);
    SettingsBack(settings);
    assert 6 * |settings| % 6 == 0;
  }

  lemma SettingsAckRoundTrip(rest: Bytes, maxReadSize: nat)
    ensures ReadBack(SETTINGS, ACK, 0, [], rest, maxReadSize) == Ok(SettingsFrame(FrameHeader(SETTINGS, ACK, 0, 0), []))
  {
    hide FrameAt, Wire;
    WireBack(SETTINGS, ACK, 0, [], rest, maxReadSize);
    assert SettingsAt([]) == [];
  }

  lemma PushPromiseRoundTrip(streamID: Uint32, promiseID: Uint32, frag: Bytes, endHeaders: bool, padLength: Byte,
                             rest: Bytes, maxReadSize: nat)
    requires ValidStreamID(streamID) && ValidStreamID(promiseID)
    requires |Padded(PadOf(padLength), PutUint32(promiseID) + frag)| <= Min(MAX_FRAME_SIZE, maxReadSize)
    ensures var flags := FlagsOf(false, endHeaders, padLength != 0, false);
            var p := Padded(PadOf(padLength), PutUint32(promiseID) + frag);
            ReadBack(PUSH_PROMISE, flags, streamID, p, rest, maxReadSize)
            == Ok(PushPromiseFrame(FrameHeader(PUSH_PROMISE, flags, |p|, streamID), promiseID, frag))
  {
    hide FlagsOf, Has, FrameAt, Wire, Uint32At, PutUint32;
    var flags := FlagsOf(false, endHeaders, padLength != 0, false);
    var pad, body := PadOf(padLength), PutUint32(promiseID) + frag;
    var p := Padded(pad, body);
    WireBack(PUSH_PROMISE, flags, streamID, p, rest, maxReadSize);
    PadBack(FrameHeader(PUSH_PROMISE, flags, |p|, streamID), pad, body);
    var padding := if pad.Some? then pad.value else [];
    assert body + padding == PutUint32(promiseID) + (frag + padding);
    Uint32Back(promiseID, frag + padding);
    assert (body + padding)[4..4 + |frag|] == frag;
  }

  lemma PingRoundTrip(ack: bool, data: Bytes, rest: Bytes, maxReadSize: nat)
    requires |data| == 8 <= maxReadSize
    ensures var flags := if ack then ACK else 0;
            ReadBack(PING, flags, 0, data, rest, maxReadSize) == Ok(PingFrame(FrameHeader(PING, flags, 8, 0), data))
  {
    hide FrameAt, Wire;
    WireBack(PING, if ack then ACK else 0, 0, data, rest, maxReadSize);
  }

  /** The high bit of the last stream ID is not sent. */
  lemma GoAwayRoundTrip(maxStreamID: Uint32, code: Uint32, debug: Bytes, rest: Bytes, maxReadSize: nat)
    requires 8 + |debug| <= Min(MAX_FRAME_SIZE, maxReadSize)
    ensures var p := PutUint32(Low31(maxStreamID)) + PutUint32(code) + debug;
            ReadBack(GOAWAY, 0, 0, p, rest, maxReadSize)
            == Ok(GoAwayFrame(FrameHeader(GOAWAY, 0, |p|, 0), Low31(maxStreamID), code, debug))
  {
    hide FrameAt, Wire, Uint32At, PutUint32;
    var p := PutUint32(Low31(maxStreamID)) + PutUint32(code) + debug;
    WireBack(GOAWAY, 0, 0, p, rest, maxReadSize);
    assert p == PutUint32(Low31(maxStreamID)) + (PutUint32(code) + debug);
    Uint32Back(Low31(maxStreamID), PutUint32(code) + debug);
    assert p[4..] == PutUint32(code) + debug && p[8..] == debug;
    Uint32Back(code, debug);
  }

  lemma WindowUpdateRoundTrip(streamID: Uint32, incr: Uint32, rest: Bytes, maxReadSize: nat)
    requires ValidStreamIDOrZero(streamID) && 1 <= incr < HIGH_BIT && maxReadSize >= 4
    ensures ReadBack(WINDOW_UPDATE, 0, streamID, PutUint32(incr), rest, maxReadSize)
            == Ok(WindowUpdateFrame(FrameHeader(WINDOW_UPDATE, 0, 4, streamID), incr))
  {
    hide FrameAt, Wire, Uint32At, PutUint32;
    WireBack(WINDOW_UPDATE, 0, streamID, PutUint32(incr), rest, maxReadSize);
    Uint32Back(incr, []);
    assert PutUint32(incr) + [] == PutUint32(incr);
  }

  lemma ContinuationRoundTrip(streamID: Uint32, endHeaders: bool, frag: Bytes, rest: Bytes, maxReadSize: nat)
    requires ValidStreamID(streamID) && |frag| <= Min(MAX_FRAME_SIZE, maxReadSize)
    ensures var flags := FlagsOf(false, endHeaders, false, false);
            ReadBack(CONTINUATION, flags, streamID, frag, rest, maxReadSize)
            == Ok(ContinuationFrame(FrameHeader(CONTINUATION, flags, |frag|, streamID), frag))
  {
    hide FrameAt, Wire, FlagsOf;
    WireBack(CONTINUATION, FlagsOf(false, endHeaders, false, false), streamID, frag, rest, maxReadSize);
  }

  // ----- The order of frames -----

  /** The frame leaves a header block open. */
  predicate LeavesOpen(f: Frame) {
    (f.h.typ == HEADERS || f.h.typ == CONTINUATION) && !Has(f.h.flags, END_HEADERS)
  }

  /** The stream whose header block is open after f, or None if f may not come now; zero is no stream. */
  function OrderNext(last: Uint32, f: Frame): (r: Option<Uint32>) {
    if last != 0 && (f.h.typ != CONTINUATION || f.h.streamID != last) then None
    else if last == 0 && f.h.typ == CONTINUATION then None
    else if f.h.typ == HEADERS || f.h.typ == CONTINUATION then
      Some(if Has(f.h.flags, END_HEADERS) then 0 else f.h.streamID)
    else Some(last)
  }

  /** All of the frames are accepted, one after the other. */
  predicate Accepts(last: Uint32, frames: seq<Frame>)
    decreases |frames|
  {
    frames == [] || (OrderNext(last, frames[0]).Some? && Accepts(OrderNext(last, frames[0]).value, frames[1..]))
  }

  /** Parsed frames that carry header blocks have a stream. */
  predicate Parsed(f: Frame) {
    f.h.typ == HEADERS || f.h.typ == CONTINUATION ==> f.h.streamID != 0
  }

  /** Frame i follows frame i - 1 as section 6.10 of RFC 7540 asks: a CONTINUATION comes exactly after an open block. */
  predicate Contiguous(last: Uint32, frames: seq<Frame>, i: nat)
    requires i < |frames|
  {
    var open := if i == 0 then last else if LeavesOpen(frames[i - 1]) then frames[i - 1].h.streamID else 0;
    if open != 0 then frames[i].h.typ == CONTINUATION && frames[i].h.streamID == open
    else frames[i].h.typ != CONTINUATION
  }

  /** The check accepts exactly the runs in which every open header block is continued at once on its stream. */
  lemma {:induction false} AcceptsContiguous(last: Uint32, frames: seq<Frame>)
    requires forall i :: 0 <= i < |frames| ==> Parsed(frames[i])
    ensures Accepts(last, frames) <==> forall i :: 0 <= i < |frames| ==> Contiguous(last, frames, i)
    decreases |frames|
  {
    hide Has;
    if frames != [] {
      var f, rest := frames[0], frames[1..];
      var next := if LeavesOpen(f) then f.h.streamID else 0;
      AcceptsContiguous(next, rest);
      assert Contiguous(last, frames, 0) <==> OrderNext(last, f).Some?;
      assert OrderNext(last, f).Some? ==> OrderNext(last, f).value == next;
      forall i | 0 <= i < |rest|
        ensures Contiguous(next, rest, i) <==> Contiguous(last, frames, i + 1)
      {
      }
      if forall i :: 0 <= i < |frames| ==> Contiguous(last, frames, i) {
        forall i | 0 <= i < |rest|
          ensures Contiguous(next, rest, i)
        {
          assert Contiguous(last, frames, i + 1);
        }
      }
      if Accepts(last, frames) {
        forall i | 0 <= i < |frames|
          ensures Contiguous(last, frames, i)
        {
          if i > 0 {
            assert Contiguous(next, rest, i - 1);
          }
        }
      }
    }
  }

  lemma PaddedJoins(header: Bytes, pad: Option<Bytes>, body: Bytes)
    requires pad.Some? ==> |pad.value| < 0x100
    ensures header + Padded(pad, body) == if pad.Some? then header + [|pad.value|] + body + pad.value else header + body
  {
  }

  /** Appending the parts of a padded payload one by one. */
  lemma PayloadJoins(header: Bytes, padLength: Byte, section: Bytes, frag: Bytes)
    ensures var lead := if padLength != 0 then [padLength] else [];
            header + lead + section + frag + Zeros(padLength) == header + Padded(PadOf(padLength), section + frag)
  {
    if padLength == 0 {
      assert Zeros(0) == [];
    } else {
      assert header + [padLength] + section + frag + Zeros(padLength)
          == header + ([padLength] + (section + frag) + Zeros(padLength));
    }
  }

  // ----- The object -----

  datatype WriteError = BadStreamID | BadDepStreamID | BadPadLength | BadPadBytes | BadIncrement | FrameTooLarge

  /** Reads frames from input and writes them to out; it does not write illegal frames. */
  class Framer {
    var input: Bytes
    var out: Bytes
    var wbuf: Bytes
    var lastHeaderStream: Uint32
    var maxReadSize: nat

    constructor (input: Bytes)
      ensures this.input == input && out == [] && lastHeaderStream == 0 && maxReadSize == MAX_FRAME_SIZE
    {
      this.input, out, wbuf, lastHeaderStream, maxReadSize := input, [], [], 0, MAX_FRAME_SIZE;
    }

    method StartWrite(typ: Byte, flags: Flags, streamID: Uint32)
      modifies `wbuf
      ensures wbuf == [0, 0, 0, typ, flags] + PutUint32(streamID)
    {
      wbuf := [0, 0, 0, typ, flags] + PutUint32(streamID);
    }

    /** Fills in the length and writes the frame. */
    method EndWrite(ghost typ: Byte, ghost flags: Flags, ghost streamID: Uint32, ghost payload: Bytes)
      returns (err: Option<WriteError>)
      requires wbuf == [0, 0, 0, typ, flags] + PutUint32(streamID) + payload
      modifies `wbuf, `out
      ensures err == if |payload| > MAX_FRAME_SIZE then Some(FrameTooLarge) else None
      ensures out == if err.Some? then old(out) else old(out) + Wire(typ, flags, streamID, payload)
    {
      var length := |wbuf| - HEADER_LEN;
      if length >= 0x100_0000 {
        return Some(FrameTooLarge);
      }
      var n := length / 0x100;
      wbuf := [n / 0x100, n % 0x100, length % 0x100] + wbuf[3..];
      assert wbuf == Wire(typ, flags, streamID, payload);
      out := out + wbuf;
      return None;
    }

    method WriteDataPadded(streamID: Uint32, endStream: bool, data: Bytes, pad: Option<Bytes>) returns (err: Option<WriteError>)
      modifies `wbuf, `out
      ensures err == if !ValidStreamID(streamID) then Some(BadStreamID)
                     else if pad.Some? && |pad.value| > 255 then Some(BadPadLength)
                     else if pad.Some? && exists i :: 0 <= i < |pad.value| && pad.value[i] != 0 then Some(BadPadBytes)
                     else if |Padded(pad, data)| > MAX_FRAME_SIZE then Some(FrameTooLarge) else None
      ensures out == if err.Some? then old(out)
                     else old(out) + Wire(DATA, FlagsOf(endStream, false, pad.Some?, false), streamID, Padded(pad, data))
    {
      hide FlagsOf, Wire, PutUint32;
      if !ValidStreamID(streamID) {
        return Some(BadStreamID);
      }
      if pad.Some? {
        if |pad.value| > 255 {
          return Some(BadPadLength);
        }
        for i := 0 to |pad.value|
          invariant forall k :: 0 <= k < i ==> pad.value[k] == 0
        {
          if pad.value[i] != 0 {
            return Some(BadPadBytes);
          }
        }
      }
      var flags := FlagsOf(endStream, false, pad.Some?, false);
      StartWrite(DATA, flags, streamID);
      PaddedJoins(wbuf, pad, data);
      if pad.Some? {
        wbuf := wbuf + [|pad.value|];
      }
      wbuf := wbuf + data;
      if pad.Some? {
        wbuf := wbuf + pad.value;
      }
      err := EndWrite(DATA, flags, streamID, Padded(pad, data));
    }

    method WriteHeaders(streamID: Uint32, frag: Bytes, endStream: bool, endHeaders: bool, padLength: Byte,
                        priority: PriorityParam) returns (err: Option<WriteError>)
      modifies `wbuf, `out
      ensures err == if !ValidStreamID(streamID) then Some(BadStreamID)
                     else if priority != NO_PRIORITY && !ValidStreamIDOrZero(priority.streamDep) then Some(BadDepStreamID)
                     else if |Padded(PadOf(padLength), PrioritySection(priority) + frag)| > MAX_FRAME_SIZE then Some(FrameTooLarge)
                     else None
      ensures out == if err.Some? then old(out)
                     else old(out) + Wire(HEADERS, FlagsOf(endStream, endHeaders, padLength != 0, priority != NO_PRIORITY),
                                          streamID, Padded(PadOf(padLength), PrioritySection(priority) + frag))
    {
      hide FlagsOf, Wire, PutUint32;
      if !ValidStreamID(streamID) {
        return Some(BadStreamID);
      }
      var flags := FlagsOf(endStream, endHeaders, padLength != 0, priority != NO_PRIORITY);
      StartWrite(HEADERS, flags, streamID);
      ghost var header, lead := wbuf, if padLength != 0 then [padLength] else [];
      if padLength != 0 {
        wbuf := wbuf + [padLength];
      }
      assert wbuf == header + lead;
      if priority != NO_PRIORITY {
        if !ValidStreamIDOrZero(priority.streamDep) {
          return Some(BadDepStreamID);
        }
        wbuf := wbuf + PutUint32(if priority.exclusive then priority.streamDep + HIGH_BIT else priority.streamDep);
        wbuf := wbuf + [priority.weight];
      }
      assert wbuf == header + lead + PrioritySection(priority);
      PayloadJoins(header, padLength, PrioritySection(priority), frag);
      wbuf := wbuf + frag + Zeros(padLength);
      err := EndWrite(HEADERS, flags, streamID, Padded(PadOf(padLength), PrioritySection(priority) + frag));
    }

    method WritePriority(streamID: Uint32, p: PriorityParam) returns (err: Option<WriteError>)
      modifies `wbuf, `out
      ensures err == if !ValidStreamID(streamID) then Some(BadStreamID)
                     else if !ValidStreamIDOrZero(p.streamDep) then Some(BadDepStreamID) else None
      ensures out == if err.Some? then old(out) else old(out) + Wire(PRIORITY_TYPE, 0, streamID, PriorityBytes(p))
    {
      hide Wire, PutUint32;
      if !ValidStreamID(streamID) {
        return Some(BadStreamID);
      }
      if !ValidStreamIDOrZero(p.streamDep) {
        return Some(BadDepStreamID);
      }
      StartWrite(PRIORITY_TYPE, 0, streamID);
      wbuf := wbuf + PutUint32(if p.exclusive then p.streamDep + HIGH_BIT else p.streamDep);
      wbuf := wbuf + [p.weight];
      err := EndWrite(PRIORITY_TYPE, 0, streamID, PriorityBytes(p));
    }

    method WriteRSTStream(streamID: Uint32, code: Uint32) returns (err: Option<WriteError>)
      modifies `wbuf, `out
      ensures err == if !ValidStreamID(streamID) then Some(BadStreamID) else None
      ensures out == if err.Some? then old(out) else old(out) + Wire(RST_STREAM, 0, streamID, PutUint32(code))
    {
      hide Wire, PutUint32;
      if !ValidStreamID(streamID) {
        return Some(BadStreamID);
      }
      StartWrite(RST_STREAM, 0, streamID);
      wbuf := wbuf + PutUint32(code);
      err := EndWrite(RST_STREAM, 0, streamID, PutUint32(code));
    }

    method WriteSettings(settings: seq<Setting>) returns (err: Option<WriteError>)
      modifies `wbuf, `out
      ensures err == if 6 * |settings| > MAX_FRAME_SIZE then Some(FrameTooLarge) else None
      ensures out == if err.Some? then old(out) else old(out) + Wire(SETTINGS, 0, 0, SettingsBytes(settings))
    {
      hide Wire, PutUint32, PutUint16;
      StartWrite(SETTINGS, 0, 0);
      ghost var header := wbuf;
      for i := 0 to |settings|
        invariant wbuf == header + SettingsBytes(settings[..i]) && out == old(out)
      {
        wbuf := wbuf + PutUint16(settings[i].id);
        wbuf := wbuf + PutUint32(settings[i].val);
        SettingsMore(settings[..i], settings[i]);
        assert settings[..i] + [settings[i]] == settings[..i + 1];
      }
      assert settings[..|settings|] == settings;
      err := EndWrite(SETTINGS, 0, 0, SettingsBytes(settings));
    }

    method WriteSettingsAck() returns (err: Option<WriteError>)
      modifies `wbuf, `out
      ensures err == None && out == old(out) + Wire(SETTINGS, ACK, 0, [])
    {
      hide Wire, PutUint32;
      StartWrite(SETTINGS, ACK, 0);
      err := EndWrite(SETTINGS, ACK, 0, []);
    }

    method WritePushPromise(streamID: Uint32, promiseID: Uint32, frag: Bytes, endHeaders: bool, padLength: Byte)
      returns (err: Option<WriteError>)
      modifies `wbuf, `out
      ensures err == if !ValidStreamID(streamID) || !ValidStreamID(promiseID) then Some(BadStreamID)
                     else if |Padded(PadOf(padLength), PutUint32(promiseID) + frag)| > MAX_FRAME_SIZE then Some(FrameTooLarge)
                     else None
      ensures out == if err.Some? then old(out)
                     else old(out) + Wire(PUSH_PROMISE, FlagsOf(false, endHeaders, padLength != 0, false), streamID,
                                          Padded(PadOf(padLength), PutUint32(promiseID) + frag))
    {
      hide FlagsOf, Wire, PutUint32;
      if !ValidStreamID(streamID) {
        return Some(BadStreamID);
      }
      var flags := FlagsOf(false, endHeaders, padLength != 0, false);
      StartWrite(PUSH_PROMISE, flags, streamID);
      PayloadJoins(wbuf, padLength, PutUint32(promiseID), frag);
      ghost var header, lead := wbuf, if padLength != 0 then [padLength] else [];
      if padLength != 0 {
        wbuf := wbuf + [padLength];
      }
      assert wbuf == header + lead;
      if !ValidStreamID(promiseID) {
        return Some(BadStreamID);
      }
      wbuf := wbuf + PutUint32(promiseID);
      wbuf := wbuf + frag + Zeros(padLength);
      err := EndWrite(PUSH_PROMISE, flags, streamID, Padded(PadOf(padLength), PutUint32(promiseID) + frag));
    }

    method WritePing(ack: bool, data: Bytes) returns (err: Option<WriteError>)
      requires |data| == 8
      modifies `wbuf, `out
      ensures err == None && out == old(out) + Wire(PING, if ack then ACK else 0, 0, data)
    {
      hide Wire, PutUint32;
      var flags := if ack then ACK else 0;
      StartWrite(PING, flags, 0);
      wbuf := wbuf + data;
      err := EndWrite(PING, flags, 0, data);
    }

    method WriteGoAway(maxStreamID: Uint32, code: Uint32, debug: Bytes) returns (err: Option<WriteError>)
      modifies `wbuf, `out
      ensures err == if 8 + |debug| > MAX_FRAME_SIZE then Some(FrameTooLarge) else None
      ensures out == if err.Some? then old(out)
                     else old(out) + Wire(GOAWAY, 0, 0, PutUint32(Low31(maxStreamID)) + PutUint32(code) + debug)
    {
      hide Wire, PutUint32;
      StartWrite(GOAWAY, 0, 0);
      wbuf := wbuf + PutUint32(Low31(maxStreamID));
      wbuf := wbuf + PutUint32(code);
      wbuf := wbuf + debug;
      err := EndWrite(GOAWAY, 0, 0, PutUint32(Low31(maxStreamID)) + PutUint32(code) + debug);
    }

    method WriteWindowUpdate(streamID: Uint32, incr: Uint32) returns (err: Option<WriteError>)
      modifies `wbuf, `out
      ensures err == if incr < 1 || incr > 0x7fff_ffff then Some(BadIncrement) else None
      ensures out == if err.Some? then old(out) else old(out) + Wire(WINDOW_UPDATE, 0, streamID, PutUint32(incr))
    {
      hide Wire, PutUint32;
      if incr < 1 || incr > 0x7fff_ffff {
        return Some(BadIncrement);
      }
      StartWrite(WINDOW_UPDATE, 0, streamID);
      wbuf := wbuf + PutUint32(incr);
      err := EndWrite(WINDOW_UPDATE, 0, streamID, PutUint32(incr));
    }

    method WriteContinuation(streamID: Uint32, endHeaders: bool, frag: Bytes) returns (err: Option<WriteError>)
      modifies `wbuf, `out
      ensures err == if !ValidStreamID(streamID) then Some(BadStreamID)
                     else if |frag| > MAX_FRAME_SIZE then Some(FrameTooLarge) else None
      ensures out == if err.Some? then old(out)
                     else old(out) + Wire(CONTINUATION, FlagsOf(false, endHeaders, false, false), streamID, frag)
    {
      hide FlagsOf, Wire, PutUint32;
      if !ValidStreamID(streamID) {
        return Some(BadStreamID);
      }
      var flags := FlagsOf(false, endHeaders, false, false);
      StartWrite(CONTINUATION, flags, streamID);
      wbuf := wbuf + frag;
      err := EndWrite(CONTINUATION, flags, streamID, frag);
    }

    method CheckFrameOrder(f: Frame) returns (ok: bool)
      modifies `lastHeaderStream
      ensures ok == OrderNext(old(lastHeaderStream), f).Some?
      ensures lastHeaderStream == if ok then OrderNext(old(lastHeaderStream), f).value else old(lastHeaderStream)
    {
      if lastHeaderStream != 0 {
        if f.h.typ != CONTINUATION || f.h.streamID != lastHeaderStream {
          return false;
        }
      } else if f.h.typ == CONTINUATION {
        return false;
      }
      if f.h.typ == HEADERS || f.h.typ == CONTINUATION {
        lastHeaderStream := if Has(f.h.flags, END_HEADERS) then 0 else f.h.streamID;
      }
      return true;
    }

    /** Reads one frame and checks its place. */
    method ReadFrame() returns (r: Result<Frame>)
      modifies `input, `lastHeaderStream
      ensures var f := FrameAt(old(input), maxReadSize);
              var next := if f.Ok? then OrderNext(old(lastHeaderStream), f.value) else None;
              && r == (if f.Ok? && next.None? then Err(Connection(PROTOCOL_ERROR)) else f)
              && lastHeaderStream == (if next.Some? then next.value else old(lastHeaderStream))
              && (f.Ok? ==> HEADER_LEN + f.value.h.length <= |old(input)|
                            && input == old(input)[HEADER_LEN + f.value.h.length..])
    {
      hide Parse, OrderNext;
      if |input| < HEADER_LEN {
        input := [];
        return Err(Eof);
      }
      var h := HeaderAt(input);
      if h.length > maxReadSize {
        input := input[HEADER_LEN..];
        return Err(TooLarge);
      }
      if |input| < HEADER_LEN + h.length {
        input := [];
        return Err(Eof);
      }
      var payload := input[HEADER_LEN..HEADER_LEN + h.length];
      input := input[HEADER_LEN + h.length..];
      r := Parse(h, payload);
      if r.Ok? {
        var ok := CheckFrameOrder(r.value);
        if !ok {
          return Err(Connection(PROTOCOL_ERROR));
        }
      }
    }
  }

  lemma {:induction false} SettingsMore(settings: seq<Setting>, s: Setting)
    ensures SettingsBytes(settings + [s]) == SettingsBytes(settings) + (PutUint16(s.id) + PutUint32(s.val))
  {
    hide PutUint16, PutUint32;
    if settings == [] {
      assert settings + [s] == [s] && [s][1..] == [];
    } else {
      assert (settings + [s])[1..] == settings[1..] + [s];
      SettingsMore(settings[1..], s);
    }
  }
}
