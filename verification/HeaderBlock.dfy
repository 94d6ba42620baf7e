/** http2/write.go and the fragment loop of http2/frame.go: header blocks split over frames and put together again. */
module HeaderBlock {
  import opened Common
  import opened FrameCodec
  import opened Framer

  const MAX_FRAGMENT := 16384

  // ----- Splitting -----

  /** The first fragment of a block. */
  function FirstFragment(block: Bytes): (f: Bytes) {
    if |block| > MAX_FRAGMENT then block[..MAX_FRAGMENT] else block
  }

  /** The fragments of a block. */
  function Fragments(block: Bytes): (fs: seq<Bytes>) {
    if block == [] then []
    else
      var f := FirstFragment(block);
      [f] + Fragments(block[|f|..])
  }

  /** The fragments are the block, and each fits a frame that every peer accepts. */
  lemma {:induction false} FragmentsJoin(block: Bytes)
    ensures Joined(Fragments(block)) == block
    ensures forall i :: 0 <= i < |Fragments(block)| ==> 0 < |Fragments(block)[i]| <= MAX_FRAGMENT
  {
    if block != [] {
      var f := FirstFragment(block);
      FragmentsJoin(block[|f|..]);
    }
  }

  /** The frame that carries a fragment of a response's header block. */
  function ResponseFrame(streamID: Uint32, endStream: bool, frag: Bytes, first: bool, last: bool): (f: Frame) {
    if first then
      HeadersFrame(FrameHeader(HEADERS, FlagsOf(endStream, last, false, false), |frag|, streamID), NO_PRIORITY, frag)
    else ContinuationFrame(FrameHeader(CONTINUATION, FlagsOf(false, last, false, false), |frag|, streamID), frag)
  }

  function ResponseFrames(streamID: Uint32, endStream: bool, block: Bytes, first: bool): (fs: seq<Frame>)
    decreases |block|
  {
    if block == [] then []
    else
      var frag := FirstFragment(block);
      var rest := block[|frag|..];
      [ResponseFrame(streamID, endStream, frag, first, rest == [])] + ResponseFrames(streamID, endStream, rest, false)
  }

  function FrameWire(f: Frame): (s: Bytes)
    requires f.HeadersFrame? || f.ContinuationFrame?
    requires |f.frag| <= MAX_FRAME_SIZE
  {
    Wire(f.h.typ, f.h.flags, f.h.streamID, f.frag)
  }

  /** The frames on the wire. */
  function ResponseWire(streamID: Uint32, endStream: bool, block: Bytes, first: bool): (s: Bytes)
    decreases |block|
  {
    if block == [] then []
    else
      var frag := FirstFragment(block);
      var rest := block[|frag|..];
      FrameWire(ResponseFrame(streamID, endStream, frag, first, rest == [])) + ResponseWire(streamID, endStream, rest, false)
  }

  /** One HEADERS frame, then CONTINUATION frames on its stream; only the last ends the block. */
  lemma {:induction false} ResponseFramesShape(streamID: Uint32, endStream: bool, block: Bytes, first: bool)
    ensures var fs := ResponseFrames(streamID, endStream, block, first);
            && |fs| == |Fragments(block)|
            && forall i :: 0 <= i < |fs| ==>
                 fs[i] == ResponseFrame(streamID, endStream, Fragments(block)[i], first && i == 0, i == |fs| - 1)
    decreases |block|
  {
    if block != [] {
      var frag := FirstFragment(block);
      ResponseFramesShape(streamID, endStream, block[|frag|..], false);
    }
  }

  /** The order check accepts them. */
  lemma {:induction false} ResponseAccepted(streamID: Uint32, endStream: bool, block: Bytes, first: bool)
    requires ValidStreamID(streamID) && block != []
    ensures Accepts(if first then 0 else streamID, ResponseFrames(streamID, endStream, block, first))
    decreases |block|
  {
    hide FlagsOf, Has;
    var frag := FirstFragment(block);
    var rest := block[|frag|..];
    var fs := ResponseFrames(streamID, endStream, block, first);
    assert fs[1..] == ResponseFrames(streamID, endStream, rest, false);
    if rest != [] {
      ResponseAccepted(streamID, endStream, rest, false);
    }
  }

  /** A PUSH_PROMISE frame and CONTINUATION frames for the rest of its block. */
  function PushFrames(streamID: Uint32, promiseID: Uint32, block: Bytes): (fs: seq<Frame>) {
    if block == [] then []
    else
      var frag := FirstFragment(block);
      var rest := block[|frag|..];
      [PushPromiseFrame(FrameHeader(PUSH_PROMISE, FlagsOf(false, rest == [], false, false), 4 + |frag|, streamID), promiseID, frag)]
      + ResponseFrames(streamID, false, rest, false)
  }

  /** The order check does not follow PUSH_PROMISE blocks: it accepts a split one only if there is nothing to continue. */
  lemma PushAccepted(streamID: Uint32, promiseID: Uint32, block: Bytes)
    ensures Accepts(0, PushFrames(streamID, promiseID, block)) <==> |block| <= MAX_FRAGMENT
  {
    hide FlagsOf, Has;
    if block != [] {
      var frag := FirstFragment(block);
      var rest := block[|frag|..];
      var fs := PushFrames(streamID, promiseID, block);
      assert fs[1..] == ResponseFrames(streamID, false, rest, false);
      if rest != [] {
        assert fs[1].h.typ == CONTINUATION;
      }
    }
  }

  /** The promised stream's ID comes on top of the fragment, so the first frame may be longer than a fragment may be. */
  lemma PushLength(streamID: Uint32, promiseID: Uint32, block: Bytes)
    requires block != []
    ensures PushFrames(streamID, promiseID, block)[0].h.length <= MAX_FRAGMENT <==> |block| <= MAX_FRAGMENT - 4
  {
    hide FlagsOf;
  }

  /** splitHeaderBlock with writeHeaderBlock. */
  method WriteHeaderBlock(fr: Framer, streamID: Uint32, endStream: bool, block: Bytes) returns (err: Option<WriteError>)
    modifies fr`wbuf, fr`out
    ensures err == if block != [] && !ValidStreamID(streamID) then Some(BadStreamID) else None
    ensures err.None? ==> fr.out == old(fr.out) + ResponseWire(streamID, endStream, block, true)
    ensures err.Some? ==> fr.out == old(fr.out)
  {
    hide FlagsOf, Wire, ResponseWire, FirstFragment;
    var rest, first := block, true;
    while |rest| > 0
      invariant fr.out + ResponseWire(streamID, endStream, rest, first) == old(fr.out) + ResponseWire(streamID, endStream, block, true)
      invariant !first ==> ValidStreamID(streamID)
      invariant first ==> rest == block && fr.out == old(fr.out)
    {
      var frag := FirstFragment(rest);
      WireNext(fr.out, streamID, endStream, rest, first);
      rest := rest[|frag|..];
      if first {
        WholePayload(frag);
        err := fr.WriteHeaders(streamID, frag, endStream, rest == [], 0, NO_PRIORITY);
      } else {
        err := fr.WriteContinuation(streamID, rest == [], frag);
      }
      if err.Some? {
        return;
      }
      first := false;
    }
    WireNone(fr.out, streamID, endStream, first);
    err := None;
  }

  /** One turn of the loop: a frame more, and a shorter block. */
  lemma WireNext(out: Bytes, streamID: Uint32, endStream: bool, block: Bytes, first: bool)
    requires block != []
    ensures var frag := FirstFragment(block);
            && 0 < |frag| <= |block| && |frag| <= MAX_FRAGMENT
            && out + ResponseWire(streamID, endStream, block, first)
               == out + FrameWire(ResponseFrame(streamID, endStream, frag, first, block[|frag|..] == []))
                  + ResponseWire(streamID, endStream, block[|frag|..], false)
  {
    hide FlagsOf, Wire;
  }

  lemma WireNone(out: Bytes, streamID: Uint32, endStream: bool, first: bool)
    ensures out + ResponseWire(streamID, endStream, [], first) == out
  {
  }

  /** Without padding and priority the payload is the fragment. */
  lemma WholePayload(frag: Bytes)
    ensures Padded(PadOf(0), PrioritySection(NO_PRIORITY) + frag) == frag
  {
    assert [] + frag == frag;
  }

  // ----- Reassembly -----

  /**
   * The rest of a header block that is open on stream last, and what follows it in the stream.
   * Only a CONTINUATION frame passes the order check here, which is why the fragment can be taken without looking.
   */
  function Collect(s: Bytes, maxReadSize: nat, last: Uint32): (r: Result<(Bytes, Bytes)>)
    requires last != 0
    decreases |s|
  {
    match FrameAt(s, maxReadSize)
    case Err(e) => Err(e)
    case Ok(f) =>
      if OrderNext(last, f).None? then Err(Connection(PROTOCOL_ERROR))
      else
        var next := s[HEADER_LEN + f.h.length..];
        if Has(f.h.flags, END_HEADERS) then Ok((f.frag, next))
        else
          match Collect(next, maxReadSize, last)
          case Err(e) => Err(e)
          case Ok((more, after)) => Ok((f.frag + more, after))
  }

  /** A HEADERS frame with its whole block, and what follows it in the stream. */
  function MetaAt(s: Bytes, maxReadSize: nat): (r: Result<(Frame, Bytes, Bytes)>) {
    match FrameAt(s, maxReadSize)
    case Err(e) => Err(e)
    case Ok(f) =>
      if !f.HeadersFrame? then Err(Connection(PROTOCOL_ERROR))
      else
        var next := s[HEADER_LEN + f.h.length..];
        if Has(f.h.flags, END_HEADERS) then Ok((f, f.frag, next))
        else
          match Collect(next, maxReadSize, f.h.streamID)
          case Err(e) => Err(e)
          case Ok((more, after)) => Ok((f, f.frag + more, after))
  }

  /** The fragment loop of readMetaFrame; hf has just been read. */
  method ReadMetaFrame(fr: Framer, hf: Frame) returns (r: Result<Bytes>)
    requires hf.HeadersFrame? && hf.h.typ == HEADERS && hf.h.streamID != 0
    requires fr.lastHeaderStream == if Has(hf.h.flags, END_HEADERS) then 0 else hf.h.streamID
    modifies fr`input, fr`lastHeaderStream
    ensures if Has(hf.h.flags, END_HEADERS) then r == Ok(hf.frag) && fr.input == old(fr.input)
            else match Collect(old(fr.input), fr.maxReadSize, hf.h.streamID)
                 case Err(e) => r == Err(e)
                 case Ok((more, after)) => r == Ok(hf.frag + more) && fr.input == after && fr.lastHeaderStream == 0
  {
    hide Has, FrameAt, Collect;
    var block, hc := [], hf;
    ghost var id := hf.h.streamID;
    while true
      invariant hc.HeadersFrame? || hc.ContinuationFrame?
      invariant hc.h.typ == HEADERS || hc.h.typ == CONTINUATION
      invariant hc.h.streamID == id && fr.lastHeaderStream == if Has(hc.h.flags, END_HEADERS) then 0 else id
      invariant Remaining(fr.input, fr.maxReadSize, id, block, hc) == Remaining(old(fr.input), fr.maxReadSize, id, [], hf)
      decreases |fr.input|
    {
      if !Has(hc.h.flags, END_HEADERS) {
        RemainingNext(fr.input, fr.maxReadSize, id, block, hc);
      }
      assert [] + hf.frag == hf.frag;
      block := block + hc.frag;
      if Has(hc.h.flags, END_HEADERS) {
        return Ok(block);
      }
      ghost var s := fr.input;
      var f := fr.ReadFrame();
      if f.Err? {
        return Err(f.error);
      }
      FrameTypes(s, fr.maxReadSize);
      assert f.value.ContinuationFrame?;
      hc := f.value;
    }
  }

  /** What the loop will return, given what it has collected and the frame it holds. */
  ghost function Remaining(s: Bytes, maxReadSize: nat, id: Uint32, block: Bytes, hc: Frame): (r: Result<(Bytes, Bytes)>)
    requires id != 0 && (hc.HeadersFrame? || hc.ContinuationFrame?)
  {
    if Has(hc.h.flags, END_HEADERS) then Ok((block + hc.frag, s))
    else
      match Collect(s, maxReadSize, id)
      case Err(e) => Err(e)
      case Ok((more, after)) => Ok((block + hc.frag + more, after))
  }

  /** One turn of the loop. */
  lemma RemainingNext(s: Bytes, maxReadSize: nat, id: Uint32, block: Bytes, hc: Frame)
    requires id != 0 && (hc.HeadersFrame? || hc.ContinuationFrame?) && !Has(hc.h.flags, END_HEADERS)
    ensures match FrameAt(s, maxReadSize)
            case Err(e) => Remaining(s, maxReadSize, id, block, hc) == Err(e)
            case Ok(f) =>
              if OrderNext(id, f).None? then Remaining(s, maxReadSize, id, block, hc) == Err(Connection(PROTOCOL_ERROR))
              else
                && f.ContinuationFrame? && HEADER_LEN + f.h.length <= |s|
                && Remaining(s, maxReadSize, id, block, hc)
                   == Remaining(s[HEADER_LEN + f.h.length..], maxReadSize, id, block + hc.frag, f)
  {
    hide Has, FrameAt;
    FrameTypes(s, maxReadSize);
    var f := FrameAt(s, maxReadSize);
    if f.Ok? && OrderNext(id, f.value).Some? && !Has(f.value.h.flags, END_HEADERS) {
      var more := Collect(s[HEADER_LEN + f.value.h.length..], maxReadSize, id);
      if more.Ok? {
        assert block + hc.frag + (f.value.frag + more.value.0) == block + hc.frag + f.value.frag + more.value.0;
      }
    }
  }

  lemma FrameTypes(s: Bytes, maxReadSize: nat)
    ensures var f := FrameAt(s, maxReadSize);
            f.Ok? ==> && (f.value.HeadersFrame? <==> f.value.h.typ == HEADERS)
                      && (f.value.ContinuationFrame? <==> f.value.h.typ == CONTINUATION)
                      && HEADER_LEN + f.value.h.length <= |s|
  {
    hide ParseData, ParseHeaders, ParsePriority, ParseRSTStream, ParseSettings, ParsePushPromise, ParsePing,
         ParseGoAway, ParseWindowUpdate, ParseContinuation;
  }

  /** The frame of a fragment reads back as itself, and leaves the stream just behind it. */
  lemma FrameBack(streamID: Uint32, endStream: bool, frag: Bytes, first: bool, last: bool, rest: Bytes, maxReadSize: nat)
    requires ValidStreamID(streamID) && |frag| <= MAX_FRAGMENT <= maxReadSize
    ensures var f := ResponseFrame(streamID, endStream, frag, first, last);
            && FrameAt(FrameWire(f) + rest, maxReadSize) == Ok(f)
            && HEADER_LEN + f.h.length <= |FrameWire(f) + rest|
            && (FrameWire(f) + rest)[HEADER_LEN + f.h.length..] == rest
  {
    hide FrameAt, FlagsOf;
    if first {
      WholePayload(frag);
      HeadersRoundTrip(streamID, frag, endStream, last, 0, NO_PRIORITY, rest, maxReadSize);
    } else {
      ContinuationRoundTrip(streamID, last, frag, rest, maxReadSize);
    }
  }

  /** The first frame of a block, and the others. */
  lemma WireSplit(streamID: Uint32, endStream: bool, block: Bytes, first: bool, rest: Bytes)
    requires block != []
    ensures var frag := FirstFragment(block);
            var more := block[|frag|..];
            && 0 < |frag| <= MAX_FRAGMENT && frag + more == block
            && ResponseWire(streamID, endStream, block, first) + rest
               == FrameWire(ResponseFrame(streamID, endStream, frag, first, more == []))
                  + (ResponseWire(streamID, endStream, more, false) + rest)
  {
    hide Wire, FlagsOf;
  }

  lemma CollectNext(s: Bytes, maxReadSize: nat, last: Uint32, f: Frame)
    requires last != 0 && FrameAt(s, maxReadSize) == Ok(f) && f.ContinuationFrame? && OrderNext(last, f).Some?
    requires HEADER_LEN + f.h.length <= |s|
    ensures var next := s[HEADER_LEN + f.h.length..];
            Collect(s, maxReadSize, last)
            == if Has(f.h.flags, END_HEADERS) then Ok((f.frag, next))
               else
                 match Collect(next, maxReadSize, last)
                 case Err(e) => Err(e)
                 case Ok((more, after)) => Ok((f.frag + more, after))
  {
    hide FrameAt, Has;
  }

  lemma {:induction false} CollectBack(streamID: Uint32, endStream: bool, block: Bytes, rest: Bytes, maxReadSize: nat)
    requires ValidStreamID(streamID) && block != [] && MAX_FRAGMENT <= maxReadSize
    ensures Collect(ResponseWire(streamID, endStream, block, false) + rest, maxReadSize, streamID) == Ok((block, rest))
    decreases |block|
  {
    hide FrameAt, FlagsOf, FrameWire, Has, Collect, ResponseWire, FirstFragment;
    var frag := FirstFragment(block);
    WireSplit(streamID, endStream, block, false, rest);
    var more := block[|frag|..];
    var f := ResponseFrame(streamID, endStream, frag, false, more == []);
    var after := ResponseWire(streamID, endStream, more, false) + rest;
    FrameBack(streamID, endStream, frag, false, more == [], after, maxReadSize);
    CollectNext(FrameWire(f) + after, maxReadSize, streamID, f);
    if more != [] {
      CollectBack(streamID, endStream, more, rest, maxReadSize);
    } else {
      assert frag + more == frag;
      WireEnds(streamID, endStream, rest);
    }
  }

  lemma WireEnds(streamID: Uint32, endStream: bool, rest: Bytes)
    ensures ResponseWire(streamID, endStream, [], false) + rest == rest
  {
  }

  /** What is split and written is read back whole, whatever follows it. */
  lemma BlockRoundTrip(streamID: Uint32, endStream: bool, block: Bytes, rest: Bytes, maxReadSize: nat)
    requires ValidStreamID(streamID) && block != [] && MAX_FRAGMENT <= maxReadSize
    ensures var f := ResponseFrames(streamID, endStream, block, true)[0];
            MetaAt(ResponseWire(streamID, endStream, block, true) + rest, maxReadSize) == Ok((f, block, rest))
  {
    hide FrameAt, FlagsOf, FrameWire, Has, Collect, ResponseWire, FirstFragment;
    var frag := FirstFragment(block);
    WireSplit(streamID, endStream, block, true, rest);
    var more := block[|frag|..];
    var after := ResponseWire(streamID, endStream, more, false) + rest;
    FrameBack(streamID, endStream, frag, true, more == [], after, maxReadSize);
    if more != [] {
      CollectBack(streamID, endStream, more, rest, maxReadSize);
    } else {
      assert frag + more == frag;
      WireEnds(streamID, endStream, rest);
    }
  }
}
