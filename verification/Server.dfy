/**
 * http2/server.go: the serve loop's state machine. Each method is one event: a frame from the peer, a frame from a
 * handler, a turn of the scheduling loop, or the end of a write. The peer, the handlers and the scheduler choose them.
 */
module Server {
  import opened Common
  import opened FlowControl
  import opened ServerState
  import opened ServerSteps
  import opened ServerRuns
  import opened ServerMeaning

  class ServerConn {
    var flow: Int32
    var streams: map<nat, Stream>
    var bodies: map<nat, Body>
    var control: seq<Frame>
    var queues: map<nat, seq<Frame>>
    var queuedControlFrames: int
    var writing: Option<Frame>
    var initialStreamSendWindowSize: Window
    var maxFrameSize: nat
    const advMaxStreams: nat
    var clientMaxStreams: nat
    var curClientStreams: nat
    var curPushedStreams: nat
    var maxClientStreamID: nat
    var maxPushPromiseID: nat
    var pushEnabled: bool
    var unackedSettings: int
    var needToSendSettingsAck: bool
    var inGoAway: bool
    var needToSendGoAway: bool
    var goAwayCode: nat

    /** History: the streams that were closed, the DATA frames sent, the updates accepted. */
    ghost var closed: set<nat>
    ghost var sent: seq<Sent>
    ghost var updates: seq<Update>
    ghost var spoilt: bool

    /** The state as a value. */
    function View(): (c: Conn)
      reads this
    {
      Conn(flow, streams, bodies, control, queues, writing, initialStreamSendWindowSize, maxFrameSize, clientMaxStreams,
           maxClientStreamID, maxPushPromiseID, pushEnabled, unackedSettings, needToSendSettingsAck, inGoAway,
           needToSendGoAway, goAwayCode)
    }

    ghost function Now(): (c: Context)
      reads this
    {
      Context(control, writing, bodies, initialStreamSendWindowSize, sent, updates, spoilt)
    }

    ghost predicate Valid()
      reads this
    {
      && TableOk(streams.Keys, closed, maxClientStreamID, maxPushPromiseID, curClientStreams, curPushedStreams, advMaxStreams)
      && QueuesOk(streams.Keys, control, queues, queuedControlFrames)
      && EntriesOk(streams, Now())
      && BodiesOk(bodies)
      && AllUsed(bodies.Keys, maxClientStreamID, maxPushPromiseID)
      && initialStreamSendWindowSize <= MAX_WINDOW
      && ConnWindowOk(flow, sent, updates)
      && HistoryOk(sent, updates, maxClientStreamID, maxPushPromiseID)
      && (spoilt ==> Failing())
      && 16384 <= maxFrameSize <= 0xff_ffff
    }

    /** The connection is being ended with an error: nothing more is taken from the scheduler. */
    predicate Failing()
      reads `inGoAway, `goAwayCode
    {
      inGoAway && goAwayCode != NO_ERROR
    }

    function StateOf(id: nat): (s: FullState)
      reads `streams, `maxClientStreamID, `maxPushPromiseID
    {
      if id in streams then Live(streams[id].state)
      else if id <= (if IsClient(id) then maxClientStreamID else maxPushPromiseID) then Closed
      else Idle
    }

    /** No stream that was closed, and none below one in use by the same side, is idle or opens again. */
    lemma ClosedStays(id: nat)
      requires Valid() && id != 0
      ensures id in closed ==> StateOf(id) == Closed
      ensures StateOf(id).Idle? <==> !Used(id, maxClientStreamID, maxPushPromiseID)
    {
    }

    /** Every stream that is live now and was not before has an ID that was not used, and used IDs stay used. */
    twostate predicate OnlyNewOpen()
      reads this
    {
      && old(maxClientStreamID) <= maxClientStreamID && old(maxPushPromiseID) <= maxPushPromiseID
      && forall id :: id in streams && id !in old(streams) ==> !Used(id, old(maxClientStreamID), old(maxPushPromiseID))
    }

    constructor (advMaxStreams: nat)
      requires advMaxStreams >= 1
      ensures this.advMaxStreams == advMaxStreams
      ensures Valid() && streams == map[] && bodies == map[] && control == [Settings] && flow == CONN_WINDOW
      ensures closed == {} && sent == [] && updates == [] && !inGoAway && writing.None?
      ensures View() == Start()
    {
      this.advMaxStreams := advMaxStreams;
      flow, streams, bodies, control, queues, queuedControlFrames := CONN_WINDOW, map[], map[], [Settings], map[], 1;
      writing, initialStreamSendWindowSize, maxFrameSize, clientMaxStreams := None, 65535, 16384, 0xffff_ffff;
      curClientStreams, curPushedStreams, maxClientStreamID, maxPushPromiseID := 0, 0, 0, 0;
      pushEnabled, unackedSettings, needToSendSettingsAck := true, 1, false;
      inGoAway, needToSendGoAway, goAwayCode := false, false, NO_ERROR;
      closed, sent, updates, spoilt := {}, [], [], false;
    }

    /** A GOAWAY with an error is not taken back. */
    method GoAway(code: nat)
      requires Valid()
      modifies `inGoAway, `needToSendGoAway, `goAwayCode
      ensures Valid() && inGoAway
      ensures goAwayCode == if old(Failing()) then old(goAwayCode) else code
      ensures needToSendGoAway == (old(needToSendGoAway) || !old(inGoAway))
      ensures View() == old(View()).Ended(code)
    {
      hide TableOk, QueuesOk, EntriesOk, BodiesOk, AllUsed, ConnWindowOk, HistoryOk;
      if inGoAway {
        if goAwayCode == NO_ERROR {
          goAwayCode := code;
        }
        return;
      }
      inGoAway, needToSendGoAway, goAwayCode := true, true, code;
    }

    /** Queues a frame that belongs to no stream. */
    method WriteControl(f: Frame)
      requires Valid() && IsControl(f)
      modifies `control, `queuedControlFrames
      ensures Valid() && control == old(control) + [f]
      ensures View() == old(View()).Queued(f)
    {
      hide TableOk, EntriesOk, BodiesOk, AllUsed, ConnWindowOk, HistoryOk;
      ControlQueued(streams, Now(), f);
      queuedControlFrames := queuedControlFrames + 1;
      control := control + [f];
    }

    /** Changes the entry of a stream. */
    method SetStream(id: nat, st: Stream)
      requires Valid() && id in streams && EntryOk(id, st, Now())
      modifies `streams
      ensures Valid() && streams == old(streams)[id := st] && streams.Keys == old(streams.Keys)
      ensures View() == old(View()).With(id, st)
    {
      hide TableOk, QueuesOk, BodiesOk, AllUsed, ConnWindowOk, HistoryOk, EntryOk;
      streams := streams[id := st];
      assert streams.Keys == old(streams.Keys);
    }

    /** Queues a frame on a stream, unless it is closed or a 100-continue comes too late. */
    method WriteOnStream(f: Frame)
      requires Valid() && OnStream(f) && Used(f.id, maxClientStreamID, maxPushPromiseID)
      modifies `queues, `streams
      ensures Valid() && View() == HandlerDone(old(View()), f) && streams.Keys == old(streams.Keys)
    {
      hide Valid, Used;
      if f.id !in streams {
        return;
      }
      if f.Headers? {
        EntryAt(f.id);
        SetStream(f.id, streams[f.id].(wroteHeaders := true));
      } else if f.Continue? && streams[f.id].wroteHeaders {
        return;
      }
      Append(f);
    }

    method Append(f: Frame)
      requires Valid() && OnStream(f) && f.id in streams
      modifies `queues
      ensures Valid() && View() == old(View()).Appended(f)
    {
      hide TableOk, EntriesOk, BodiesOk, AllUsed, ConnWindowOk, HistoryOk;
      queues := queues[f.id := (if f.id in queues then queues[f.id] else []) + [f]];
    }

    lemma EntryAt(id: nat)
      requires Valid() && id in streams
      ensures EntryOk(id, streams[id], Now())
      ensures EntryOk(id, streams[id].(wroteHeaders := true), Now())
    {
      hide TableOk, QueuesOk, BodiesOk, AllUsed, ConnWindowOk, HistoryOk, WindowOk, ResetPending;
    }

    /** Sends RST_STREAM, and marks the stream if it is live. */
    method ResetStream(id: nat)
      requires Valid()
      modifies `control, `queuedControlFrames, `streams
      ensures Valid() && control == old(control) + [Reset(id)] && streams.Keys == old(streams.Keys)
      ensures streams == if id in old(streams) then old(streams)[id := old(streams)[id].(resetQueued := true)] else old(streams)
      ensures View() == old(View()).ResetSent(id)
    {
      hide TableOk, QueuesOk, EntriesOk, BodiesOk, AllUsed, ConnWindowOk, HistoryOk, StreamBodyOk, WindowOk;
      WriteControl(Reset(id));
      if id in streams {
        EntryAt(id);
        ResetEntry(id, streams[id], Now());
        SetStream(id, streams[id].(resetQueued := true));
      }
    }

    /** Takes a stream out of the table and drops its frames; the counters and the history follow. */
    method CloseStream(id: nat)
      requires Valid() && id in streams
      modifies `streams, `queues, `bodies, `curClientStreams, `curPushedStreams, `closed
      ensures Valid() && View() == old(View()).Without(id)
      ensures streams == old(streams) - {id} && closed == old(closed) + {id}
    {
      hide Valid, Shut;
      RemoveStream(id);
    }

    method RemoveStream(id: nat)
      requires Valid() && id in streams
      modifies `streams, `queues, `bodies, `curClientStreams, `curPushedStreams, `closed
      ensures Valid() && streams == old(streams) - {id} && closed == old(closed) + {id}
      ensures queues == old(queues) - {id}
      ensures bodies == if id in old(bodies) then old(bodies)[id := Shut(old(bodies)[id], Bad)] else old(bodies)
    {
      hide TableOk, QueuesOk, EntriesOk, BodiesOk, AllUsed, ConnWindowOk, HistoryOk;
      TableClosed(streams.Keys, closed, maxClientStreamID, maxPushPromiseID, curClientStreams, curPushedStreams, advMaxStreams, id);
      EntryRemoved(streams, Now(), id);
      QueueDropped(streams.Keys, control, queues, queuedControlFrames, id);
      if IsClient(id) {
        curClientStreams := curClientStreams - 1;
      } else {
        curPushedStreams := curPushedStreams - 1;
      }
      streams := streams - {id};
      assert streams.Keys == old(streams.Keys) - {id};
      closed := closed + {id};
      queues := queues - {id};
      if id in bodies {
        CloseBody(id);
      }
    }

    /** Closes the body of a stream that is gone. */
    method CloseBody(id: nat)
      requires Valid() && id in bodies && id !in streams
      modifies `bodies
      ensures Valid() && bodies == old(bodies)[id := Shut(old(bodies)[id], Bad)]
    {
      hide TableOk, QueuesOk, EntriesOk, AllUsed, ConnWindowOk, HistoryOk;
      OtherBody(streams, Now(), id, Shut(bodies[id], Bad));
      bodies := bodies[id := Shut(bodies[id], Bad)];
      assert bodies.Keys == old(bodies.Keys);
    }

    /** Opens a stream with the current initial window, and its body if it has one. */
    method NewStream(id: nat, st: Stream, body: Option<Body>)
      requires Valid() && id != 0 && !Used(id, maxClientStreamID, maxPushPromiseID)
      requires IsClient(id) ==> curClientStreams < advMaxStreams
      requires st == Fresh(st.state, initialStreamSendWindowSize, st.declared, st.resetQueued) && st.state != HalfClosedLocal
      requires st.resetQueued ==> ResetPending(id, control, writing)
      requires st.state == Open && !st.resetQueued ==> body.Some?
      requires body.Some? ==> body.value == Body(st.declared, 0, None)
      modifies `streams, `bodies, `curClientStreams, `curPushedStreams, `maxClientStreamID, `maxPushPromiseID
      ensures Valid() && id !in old(streams) && id !in closed && id !in old(bodies)
      ensures View() == old(View()).Opened(id, st, body)
    {
      hide Valid, ResetPending, Used, IsClient, WithBody, Fresh;
      AddStream(id, st, body);
    }

    method AddStream(id: nat, st: Stream, body: Option<Body>)
      requires Valid() && id != 0 && !Used(id, maxClientStreamID, maxPushPromiseID)
      requires IsClient(id) ==> curClientStreams < advMaxStreams
      requires st == Fresh(st.state, initialStreamSendWindowSize, st.declared, st.resetQueued) && st.state != HalfClosedLocal
      requires st.resetQueued ==> ResetPending(id, control, writing)
      requires st.state == Open && !st.resetQueued ==> body.Some?
      requires body.Some? ==> body.value == Body(st.declared, 0, None)
      modifies `streams, `bodies, `curClientStreams, `curPushedStreams, `maxClientStreamID, `maxPushPromiseID
      ensures Valid() && id !in old(streams) && id !in closed && id !in old(bodies)
      ensures streams == old(streams)[id := st]
      ensures bodies == WithBody(old(bodies), id, body)
      ensures maxClientStreamID == if IsClient(id) then id else old(maxClientStreamID)
      ensures maxPushPromiseID == if IsClient(id) then old(maxPushPromiseID) else id
    {
      hide TableOk, QueuesOk, EntriesOk, BodiesOk, AllUsed, HistoryOk, ConnWindowOk, ResetPending, Used, IsClient, WithBody, Fresh;
      StreamFits(id, st, body);
      KeysWith(streams, id, st);
      streams, bodies := streams[id := st], WithBody(bodies, id, body);
      Count(id);
    }

    method Count(id: nat)
      modifies `curClientStreams, `curPushedStreams, `maxClientStreamID, `maxPushPromiseID
      ensures maxClientStreamID == if IsClient(id) then id else old(maxClientStreamID)
      ensures maxPushPromiseID == if IsClient(id) then old(maxPushPromiseID) else id
      ensures curClientStreams == old(curClientStreams) + if IsClient(id) then 1 else 0
      ensures curPushedStreams == old(curPushedStreams) + if IsClient(id) then 0 else 1
    {
      if IsClient(id) {
        maxClientStreamID := id;
        curClientStreams := curClientStreams + 1;
      } else {
        maxPushPromiseID := id;
        curPushedStreams := curPushedStreams + 1;
      }
    }

    lemma StreamFits(id: nat, st: Stream, body: Option<Body>)
      requires Valid() && id != 0 && !Used(id, maxClientStreamID, maxPushPromiseID)
      requires IsClient(id) ==> curClientStreams < advMaxStreams
      requires st == Fresh(st.state, initialStreamSendWindowSize, st.declared, st.resetQueued) && st.state != HalfClosedLocal
      requires st.resetQueued ==> ResetPending(id, control, writing)
      requires st.state == Open && !st.resetQueued ==> body.Some?
      requires body.Some? ==> body.value == Body(st.declared, 0, None)
      ensures id !in streams && id !in closed && id !in bodies
      ensures var maxClient := if IsClient(id) then id else maxClientStreamID;
              var maxPush := if IsClient(id) then maxPushPromiseID else id;
              && TableOk(streams.Keys + {id}, closed, maxClient, maxPush,
                         if IsClient(id) then curClientStreams + 1 else curClientStreams,
                         if IsClient(id) then curPushedStreams else curPushedStreams + 1, advMaxStreams)
              && QueuesOk(streams.Keys + {id}, control, queues, queuedControlFrames)
              && EntriesOk(streams[id := st], Now().(bodies := WithBody(bodies, id, body)))
              && BodiesOk(WithBody(bodies, id, body))
              && AllUsed(WithBody(bodies, id, body).Keys, maxClient, maxPush)
              && HistoryOk(sent, updates, maxClient, maxPush)
    {
      hide TableOk, QueuesOk, EntriesOk, EntryOk, BodiesOk, AllUsed, HistoryOk, ConnWindowOk, ResetPending, Used, IsClient, WithBody;
      TableOpened(streams.Keys, closed, maxClientStreamID, maxPushPromiseID, curClientStreams, curPushedStreams, advMaxStreams, id);
      FreshEntry(id, st, body, Now(), maxClientStreamID, maxPushPromiseID);
      UsedMore(bodies.Keys, sent, updates, maxClientStreamID, maxPushPromiseID, id);
      QueueKept(streams.Keys, control, queues, queuedControlFrames, id);
      EntryAdded(streams, Now(), id, st, body);
      UsedWith(bodies, id, body, if IsClient(id) then id else maxClientStreamID, if IsClient(id) then maxPushPromiseID else id);
    }

    // ----- Frames from the peer -----

    /** Ends the request: at end of file if the body has the declared length. */
    method EndStream(id: nat)
      requires Valid() && id in streams && streams[id].state == Open && !streams[id].resetQueued
      modifies `streams, `bodies
      ensures Valid() && id in old(bodies)
      ensures streams == old(streams)[id := old(streams)[id].(state := HalfClosedRemote)]
      ensures var b := old(bodies)[id];
              bodies == old(bodies)[id := b.(end := Some(if b.declared < 0 || b.bytes == b.declared then Eof else Bad))]
      ensures View() == old(View()).RequestEnded(id)
    {
      hide TableOk, QueuesOk, EntriesOk, BodiesOk, AllUsed, ConnWindowOk, HistoryOk, ResetPending, WindowOk;
      EntryAt(id);
      var st, b := streams[id], bodies[id];
      var whole := st.declared < 0 || st.declared == st.bodyBytes;
      SetBody(id, st.(state := HalfClosedRemote), Shut(b, if whole then Eof else Bad));
    }

    /** Changes the entry of a stream together with its body. */
    method SetBody(id: nat, st: Stream, b: Body)
      requires Valid() && id in streams && id in bodies
      requires EntryOk(id, st, Now().(bodies := bodies[id := b])) && (BodyOk(bodies[id]) ==> BodyOk(b))
      modifies `streams, `bodies
      ensures Valid() && streams == old(streams)[id := st] && bodies == old(bodies)[id := b]
      ensures streams.Keys == old(streams.Keys)
      ensures View() == old(View()).With(id, st).(bodies := old(bodies)[id := b])
    {
      hide TableOk, QueuesOk, EntriesOk, EntryOk, AllUsed, ConnWindowOk, HistoryOk, BodyOk;
      BodyChanged(streams, Now(), id, st, b);
      streams, bodies := streams[id := st], bodies[id := b];
      assert streams.Keys == old(streams.Keys) && bodies.Keys == old(bodies.Keys);
    }

    /** HEADERS on a live stream that is not being reset and can still receive: they must be good trailers. */
    method ProcessTrailerHeaders(id: nat, endStream: bool, bad: bool)
      requires Valid() && id in streams && streams[id].state == Open && !streams[id].resetQueued
      modifies `control, `queuedControlFrames, `streams, `bodies
      ensures Valid() && TrailersDone(old(View()), id, endStream, bad, View())
    {
      hide TableOk, QueuesOk, EntriesOk, BodiesOk, AllUsed, ConnWindowOk, HistoryOk, ResetPending, WindowOk, Conn.RequestEnded;
      EntryAt(id);
      if !endStream || bad {
        ResetStream(id);
      } else {
        EndStream(id);
      }
      EntryAt(id);
      SetStream(id, streams[id].(gotTrailer := true));
    }

    /**
     * HEADERS from the client. selfDependent is a priority that names the stream itself; request is the declared length
     * of the body, or None for a malformed request. Errors are answered as processFrameFromReader does.
     */
    method ProcessHeaders(id: nat, endStream: bool, badTrailers: bool, selfDependent: bool, request: Option<int>)
      requires Valid() && id != 0 && (request.Some? ==> request.value >= -1)
      modifies this
      ensures Valid() && closed == old(closed) && sent == old(sent) && updates == old(updates)
      ensures HeadersDone(advMaxStreams, old(View()), id, endStream, badTrailers, selfDependent, request, View())
    {
      hide Valid, TrailersDone, Conn.Opened, Conn.Queued, Conn.ResetSent, Conn.Ended, Fresh;
      TableAccounted(id);
      if inGoAway {
        return;
      }
      if !IsClient(id) {
        GoAway(PROTOCOL_ERROR);
        return;
      }
      if id in streams {
        ProcessMoreHeaders(id, endStream, badTrailers);
        return;
      }
      if id <= maxClientStreamID {
        GoAway(PROTOCOL_ERROR);
        return;
      }
      if curClientStreams + 1 > advMaxStreams {
        RefuseStream(id);
        return;
      }
      OpenRequest(id, endStream, selfDependent || request.None?, if request.Some? then request.value else 0);
    }

    /** HEADERS on a live stream. */
    method ProcessMoreHeaders(id: nat, endStream: bool, badTrailers: bool)
      requires Valid() && id in streams
      modifies `control, `queuedControlFrames, `streams, `bodies
      ensures Valid() && TrailersDone(old(View()), id, endStream, badTrailers, View())
    {
      hide TableOk, QueuesOk, EntriesOk, BodiesOk, AllUsed, ConnWindowOk, HistoryOk, ResetPending, WindowOk, StreamBodyOk,
           Conn.TrailerSeen, Conn.RequestEnded, Conn.ResetSent;
      EntryAt(id);
      if streams[id].resetQueued {
      } else if streams[id].state == HalfClosedRemote {
        ResetStream(id);
      } else {
        ProcessTrailerHeaders(id, endStream, badTrailers);
      }
    }

    /** A stream beyond the limit: its ID is used up, but it is not opened. */
    method RefuseStream(id: nat)
      requires Valid() && IsClient(id) && id > maxClientStreamID
      modifies `maxClientStreamID, `control, `queuedControlFrames, `streams
      ensures Valid() && maxClientStreamID == id && control == old(control) + [Reset(id)] && streams == old(streams)
      ensures View() == old(View()).ResetSent(id).(maxClient := id)
    {
      hide QueuesOk, EntriesOk, BodiesOk, ConnWindowOk, TableOk, AllUsed, HistoryOk;
      MaxRaised(streams.Keys, closed, bodies.Keys, sent, updates, maxClientStreamID, maxPushPromiseID, curClientStreams,
                curPushedStreams, advMaxStreams, id);
      maxClientStreamID := id;
      ResetStream(id);
    }

    /** A new request, or a stream that is reset at once. */
    method OpenRequest(id: nat, endStream: bool, reset: bool, declared: int)
      requires Valid() && IsClient(id) && id > maxClientStreamID && curClientStreams < advMaxStreams
      modifies this
      ensures Valid() && closed == old(closed) && sent == old(sent) && updates == old(updates)
      ensures var c := if reset then old(View()).Queued(Reset(id)) else old(View());
              View() == c.Opened(id, Fresh(if endStream then HalfClosedRemote else Open, old(initialStreamSendWindowSize), declared, reset),
                                 if !reset && !endStream then Some(Body(declared, 0, None)) else None)
    {
      hide TableOk, QueuesOk, EntriesOk, BodiesOk, AllUsed, ConnWindowOk, HistoryOk, Conn.Opened;
      if reset {
        WriteControl(Reset(id));
      }
      var body := if !reset && !endStream then Some(Body(declared, 0, None)) else None;
      NewStream(id, Fresh(if endStream then HalfClosedRemote else Open, initialStreamSendWindowSize, declared, reset), body);
    }

    /** Refunds connection-level flow control, if the inbound window has run low. */
    method SendWindowUpdate(low: bool)
      requires Valid()
      modifies `control, `queuedControlFrames
      ensures Valid() && control == if low then old(control) + [ConnWindowUpdate] else old(control)
      ensures View() == old(View()).Refunded(low)
    {
      if low {
        WriteControl(ConnWindowUpdate);
      }
    }

    /** Whether DATA may be written to the stream's body. */
    predicate Receiving(id: nat)
      reads `streams
    {
      id in streams && streams[id].state == Open && !streams[id].gotTrailer && !streams[id].resetQueued
    }

    /** A stream that receives has a body that takes the bytes: neither the panic nor a failed write is possible. */
    lemma ReceivingHasBody(id: nat)
      requires Valid() && Receiving(id)
      ensures id in bodies && bodies[id].end.None? && id != 0
      ensures bodies[id].bytes == streams[id].bodyBytes && bodies[id].declared == streams[id].declared
    {
      hide QueuesOk, BodiesOk, AllUsed, ConnWindowOk, HistoryOk, WindowOk, ResetPending, Clients;
      EntryAt(id);
    }

    /**
     * DATA from the client: size bytes in a frame of the given length. connQuota and streamQuota say whether the frame
     * fits the inbound windows, low whether the connection's then needs a refund.
     */
    method ProcessData(id: nat, length: nat, size: nat, endStream: bool, connQuota: bool, streamQuota: bool, low: bool)
      requires Valid() && size <= length
      modifies `control, `queuedControlFrames, `streams, `bodies, `inGoAway, `needToSendGoAway, `goAwayCode
      ensures Valid() && DataDone(old(View()), id, length, size, endStream, connQuota, streamQuota, low, View())
    {
      hide Valid, DataReceived, Conn.Refunded, Conn.ResetSent, Conn.Ended;
      if inGoAway && (goAwayCode != NO_ERROR || id > maxClientStreamID) {
        return;
      }
      var state := StateOf(id);
      if id == 0 || state.Idle? {
        GoAway(PROTOCOL_ERROR);
        return;
      }
      if !Receiving(id) {
        DropData(id, connQuota, low);
        return;
      }
      ReceivingHasBody(id);
      ReceiveData(id, length, size, endStream, connQuota, streamQuota, low);
    }

    /** DATA on a stream that cannot receive it. */
    method DropData(id: nat, connQuota: bool, low: bool)
      requires Valid()
      modifies `control, `queuedControlFrames, `streams
      ensures Valid()
      ensures var c := old(View()).Refunded(connQuota && low);
              View() == if connQuota && id in old(streams) && old(streams)[id].resetQueued then c else c.ResetSent(id)
    {
      hide Valid, Conn.ResetSent;
      if connQuota {
        SendWindowUpdate(low);
        if id in streams && streams[id].resetQueued {
          return;
        }
      }
      ResetStream(id);
    }

    /** DATA on a stream that receives. */
    method ReceiveData(id: nat, length: nat, size: nat, endStream: bool, connQuota: bool, streamQuota: bool, low: bool)
      requires Valid() && size <= length && Receiving(id) && id in bodies
      requires bodies[id].bytes == streams[id].bodyBytes && bodies[id].declared == streams[id].declared && bodies[id].end.None?
      modifies `control, `queuedControlFrames, `streams, `bodies
      ensures Valid() && View() == DataReceived(old(View()), id, length, size, endStream, connQuota, streamQuota, low)
    {
      hide Valid, Conn.ResetSent, Conn.RequestEnded, Conn.Refunded, Conn.With;
      var st := streams[id];
      if st.declared >= 0 && st.bodyBytes + size > st.declared {
        RefuseData(id, connQuota, low);
        return;
      }
      if length > 0 && !streamQuota {
        ResetStream(id);
        return;
      }
      TakeData(id, length, size, endStream);
    }

    /** DATA that is within all limits. */
    method TakeData(id: nat, length: nat, size: nat, endStream: bool)
      requires Valid() && Receiving(id) && id in bodies
      requires streams[id].declared >= 0 ==> streams[id].bodyBytes + size <= streams[id].declared
      modifies `control, `queuedControlFrames, `streams, `bodies
      ensures Valid()
      ensures var st, b := old(streams)[id], old(bodies)[id];
              var c := old(View()).With(id, st.(bodyBytes := st.bodyBytes + size))
                       .(bodies := old(bodies)[id := b.(bytes := b.bytes + size)]).Refunded(length > size);
              id in c.streams && id in c.bodies && View() == if endStream then c.RequestEnded(id) else c
    {
      hide Valid, Conn.RequestEnded;
      AcceptData(id, size);
      SendWindowUpdate(length > size);
      if endStream {
        EndStream(id);
      }
    }

    /** More bytes than were declared. */
    method RefuseData(id: nat, connQuota: bool, low: bool)
      requires Valid() && id in streams && id in bodies
      modifies `control, `queuedControlFrames, `streams, `bodies
      ensures Valid()
      ensures var c := old(View()).Refunded(connQuota && low).ResetSent(id);
              View() == if connQuota then c.(bodies := old(bodies)[id := Shut(old(bodies)[id], Bad)]) else c
    {
      hide Valid;
      if connQuota {
        SendWindowUpdate(low);
      }
      ResetStream(id);
      if connQuota {
        CloseRequestBody(id);
      }
    }

    /** Bytes for the request body. */
    method AcceptData(id: nat, size: nat)
      requires Valid() && Receiving(id)
      requires streams[id].declared >= 0 ==> streams[id].bodyBytes + size <= streams[id].declared
      modifies `streams, `bodies
      ensures Valid() && id in old(bodies)
      ensures var st, b := old(streams)[id], old(bodies)[id];
              View() == old(View()).With(id, st.(bodyBytes := st.bodyBytes + size))
                        .(bodies := old(bodies)[id := b.(bytes := b.bytes + size)])
    {
      hide TableOk, QueuesOk, EntriesOk, BodiesOk, AllUsed, ConnWindowOk, HistoryOk, WindowOk, ResetPending, Conn.With;
      EntryAt(id);
      var st, b := streams[id], bodies[id];
      SetBody(id, st.(bodyBytes := st.bodyBytes + size), b.(bytes := b.bytes + size));
    }

    /** Closes the body of a stream that is being reset. */
    method CloseRequestBody(id: nat)
      requires Valid() && id in streams && streams[id].resetQueued && id in bodies
      modifies `streams, `bodies
      ensures Valid() && streams == old(streams) && bodies == old(bodies)[id := Shut(old(bodies)[id], Bad)]
    {
      hide TableOk, QueuesOk, EntriesOk, BodiesOk, AllUsed, ConnWindowOk, HistoryOk, WindowOk, ResetPending;
      EntryAt(id);
      SetBody(id, streams[id], Shut(bodies[id], Bad));
    }

    /** WINDOW_UPDATE: refused exactly if the window would exceed 2^31 - 1. */
    method ProcessWindowUpdate(id: nat, n: nat)
      requires Valid() && 1 <= n <= MAX_WINDOW
      modifies `flow, `streams, `control, `queuedControlFrames, `updates, `inGoAway, `needToSendGoAway, `goAwayCode
      ensures Valid() && View() == UpdateDone(old(View()), id, n)
      ensures var taken := if id == 0 then old(flow) + n <= MAX_WINDOW else id in old(streams) && old(streams)[id].window + n <= MAX_WINDOW;
              updates == if taken then old(updates) + [Update(id, n)] else old(updates)
    {
      hide Valid, Conn.Ended, Conn.ResetSent;
      if id == 0 {
        var r := WindowAfter(flow, n);
        if r.None? {
          GoAway(FLOW_CONTROL_ERROR);
          return;
        }
        GrantConn(n);
        return;
      }
      var state := StateOf(id);
      if state.Idle? {
        GoAway(PROTOCOL_ERROR);
        return;
      }
      if id !in streams {
        return;
      }
      var r := WindowAfter(streams[id].window, n);
      if r.None? {
        ResetStream(id);
        return;
      }
      GrantStream(id, n);
    }

    lemma ZeroNotLive()
      requires Valid()
      ensures 0 !in streams
    {
      hide QueuesOk, EntriesOk, BodiesOk, AllUsed, ConnWindowOk, HistoryOk, Clients;
    }

    lemma LiveIsUsed(id: nat)
      requires Valid() && id in streams
      ensures id != 0 && Used(id, maxClientStreamID, maxPushPromiseID)
    {
      hide QueuesOk, EntriesOk, BodiesOk, AllUsed, ConnWindowOk, HistoryOk, Clients;
    }

    method GrantConn(n: nat)
      requires Valid() && InInt32(flow + n)
      modifies `flow, `updates
      ensures Valid() && flow == old(flow) + n && updates == old(updates) + [Update(0, n)]
    {
      hide TableOk, QueuesOk, EntriesOk, BodiesOk, AllUsed, HistoryOk, TotalSent, Granted;
      ZeroNotLive();
      ConnGranted(streams, Now(), n);
      UpdateLogged(sent, updates, Update(0, n), maxClientStreamID, maxPushPromiseID);
      flow := flow + n;
      updates := updates + [Update(0, n)];
    }

    method GrantStream(id: nat, n: nat)
      requires Valid() && id in streams && InInt32(streams[id].window + n)
      modifies `streams, `updates
      ensures Valid() && streams.Keys == old(streams.Keys) && updates == old(updates) + [Update(id, n)]
      ensures streams == old(streams)[id := old(streams)[id].(window := old(streams)[id].window + n)]
    {
      hide TableOk, QueuesOk, EntriesOk, BodiesOk, AllUsed, HistoryOk, Used, TotalSent, Granted;
      LiveIsUsed(id);
      WindowGranted(streams, Now(), id, n);
      UpdateLogged(sent, updates, Update(id, n), maxClientStreamID, maxPushPromiseID);
      streams := streams[id := streams[id].(window := streams[id].window + n)];
      assert streams.Keys == old(streams.Keys);
      updates := updates + [Update(id, n)];
    }

    /** RST_STREAM from the client. */
    method ProcessResetStream(id: nat)
      requires Valid() && id != 0
      modifies `streams, `queues, `bodies, `curClientStreams, `curPushedStreams, `closed, `inGoAway, `needToSendGoAway, `goAwayCode
      ensures Valid() && streams == old(streams) - {id}
      ensures closed == if id in old(streams) then old(closed) + {id} else old(closed)
      ensures PeerDone(advMaxStreams, old(View()), PeerReset(id), View())
    {
      hide Valid;
      var state := StateOf(id);
      if state.Idle? {
        GoAway(PROTOCOL_ERROR);
      } else if id in streams {
        CloseStream(id);
      }
      assert id !in old(streams) ==> old(streams) - {id} == old(streams);
    }

    // ----- SETTINGS from the peer -----

    /**
     * Moves every stream window by the change of the initial size. It fails exactly if a window would exceed 2^31 - 1
     * (section 6.9.2 of RFC 7540): no window of a connection that is not already failing can go below what 32 bits hold.
     */
    method ProcessSettingInitialWindowSize(val: nat) returns (ok: bool)
      requires Valid() && val <= MAX_WINDOW
      modifies `initialStreamSendWindowSize, `streams, `spoilt, `inGoAway, `needToSendGoAway, `goAwayCode
      ensures Valid() && (ok <==> AllFit(old(streams), val - old(initialStreamSendWindowSize)))
      ensures !old(spoilt) ==> (ok <==> NoneExceeds(old(streams), val - old(initialStreamSendWindowSize)))
      ensures ok ==> spoilt == old(spoilt) && SettingsApplied(old(View()), [Setting(INITIAL_WINDOW_SIZE, val)], View())
      ensures !ok ==> WindowsSpoilt(old(View()), val, View())
    {
      hide TableOk, QueuesOk, EntriesOk, BodiesOk, AllUsed, ConnWindowOk, HistoryOk, Shifted, NoneExceeds, AllFit, Conn.Ended;
      WindowsHigh(val);
      var changed;
      changed, ok := ShiftWindows(streams, val - initialStreamSendWindowSize);
      if ok {
        InitialChanged(streams, changed, Now(), val);
        initialStreamSendWindowSize, streams := val, changed;
        OneApplied(old(View()), Setting(INITIAL_WINDOW_SIZE, val), View());
      } else {
        Spoil(val, changed);
      }
    }

    /** A change of the initial size that stopped half way ends the connection. */
    method Spoil(val: nat, changed: map<nat, Stream>)
      requires Valid() && val <= MAX_WINDOW && changed.Keys == streams.Keys
      requires forall id :: id in streams ==> changed[id] == streams[id].(window := changed[id].window)
      modifies `initialStreamSendWindowSize, `streams, `spoilt, `inGoAway, `needToSendGoAway, `goAwayCode
      ensures Valid() && View() == old(View()).Ended(FLOW_CONTROL_ERROR).(streams := changed, initial := val)
    {
      hide Valid;
      GoAway(FLOW_CONTROL_ERROR);
      SpoilWindows(val, changed);
    }

    method SpoilWindows(val: nat, changed: map<nat, Stream>)
      requires Valid() && Failing() && val <= MAX_WINDOW && changed.Keys == streams.Keys
      requires forall id :: id in streams ==> changed[id] == streams[id].(window := changed[id].window)
      modifies `initialStreamSendWindowSize, `streams, `spoilt
      ensures Valid() && View() == old(View()).(streams := changed, initial := val)
    {
      hide TableOk, QueuesOk, EntriesOk, BodiesOk, AllUsed, ConnWindowOk, HistoryOk;
      Spoilt(streams, changed, Now(), val);
      initialStreamSendWindowSize, streams, spoilt := val, changed, true;
    }

    /** No window is so low that a smaller initial size could carry it below what 32 bits hold. */
    lemma WindowsHigh(val: nat)
      requires Valid() && val <= MAX_WINDOW
      ensures var growth := val - initialStreamSendWindowSize;
              !spoilt ==> (AllFit(streams, growth) <==> NoneExceeds(streams, growth))
    {
      hide TableOk, QueuesOk, BodiesOk, AllUsed, ConnWindowOk, HistoryOk, ResetPending, StreamBodyOk, Granted, SentOn;
      forall id | id in streams && !spoilt
        ensures streams[id].window >= initialStreamSendWindowSize - MAX_WINDOW
      {
        EntryAt(id);
      }
    }

    method ProcessSetting(s: Setting) returns (err: Option<nat>)
      requires Valid()
      modifies `initialStreamSendWindowSize, `streams, `spoilt, `inGoAway, `needToSendGoAway, `goAwayCode,
               `pushEnabled, `clientMaxStreams, `maxFrameSize
      ensures Valid() && (err.None? <==> Takable(s, old(View())))
      ensures err.None? ==> spoilt == old(spoilt) && SettingsApplied(old(View()), [s], View())
      ensures err.Some? ==>
                if SettingError(s).Some? then err == SettingError(s) && View() == old(View())
                else err == Some(FLOW_CONTROL_ERROR) && WindowsSpoilt(old(View()), s.val, View())
    {
      hide Valid, AllFit, NoneExceeds, WindowsSpoilt, SettingsApplied;
      err := SettingError(s);
      if err.Some? {
        return;
      }
      if s.id == INITIAL_WINDOW_SIZE {
        var ok := ProcessSettingInitialWindowSize(s.val);
        return if ok then None else Some(FLOW_CONTROL_ERROR);
      }
      ProcessOtherSetting(s);
    }

    method ProcessOtherSetting(s: Setting)
      requires Valid() && SettingError(s).None? && s.id != INITIAL_WINDOW_SIZE
      modifies `pushEnabled, `clientMaxStreams, `maxFrameSize
      ensures Valid() && SettingsApplied(old(View()), [s], View())
    {
      hide TableOk, QueuesOk, EntriesOk, BodiesOk, AllUsed, ConnWindowOk, HistoryOk, SettingsApplied;
      if s.id == ENABLE_PUSH {
        pushEnabled := s.val != 0;
      } else if s.id == MAX_CONCURRENT_STREAMS {
        clientMaxStreams := s.val;
      } else if s.id == SETTING_MAX_FRAME_SIZE {
        maxFrameSize := s.val;
      }
      NotMoved(streams);
      OneApplied(old(View()), s, View());
    }

    /** A setting can be taken exactly if it is legal and moves no window past 2^31 - 1. */
    lemma TakableExactly(s: Setting)
      requires Valid() && !spoilt
      ensures Takable(s, View()) <==>
              && SettingError(s).None?
              && (s.id == INITIAL_WINDOW_SIZE ==> NoneExceeds(streams, s.val - initialStreamSendWindowSize))
    {
      hide Valid, NoneExceeds, AllFit;
      if SettingError(s).None? && s.id == INITIAL_WINDOW_SIZE {
        WindowsHigh(s.val);
      }
    }

    /** Applies the settings in turn, up to the first that is refused. */
    method ApplySettings(settings: seq<Setting>) returns (err: Option<nat>, ghost k: nat, ghost c: Conn)
      requires Valid() && !HasDuplicates(settings)
      modifies `initialStreamSendWindowSize, `streams, `spoilt, `inGoAway, `needToSendGoAway, `goAwayCode,
               `pushEnabled, `clientMaxStreams, `maxFrameSize
      ensures Valid() && (err.None? <==> forall s <- settings :: Takable(s, old(View())))
      ensures err.None? ==> SettingsApplied(old(View()), settings, View())
      ensures err.Some? ==>
                && k < |settings| && (forall j :: 0 <= j < k ==> Takable(settings[j], old(View()))) && !Takable(settings[k], old(View()))
                && SettingsApplied(old(View()), settings[..k], c)
                && (if SettingError(settings[k]).Some? then err == SettingError(settings[k]) && View() == c
                    else err == Some(FLOW_CONTROL_ERROR) && WindowsSpoilt(c, settings[k].val, View()))
    {
      hide Valid, SettingError, SettingsApplied, WindowsSpoilt, AllFit;
      NoneApplied(View());
      assert settings[..0] == [];
      k, c := 0, View();
      for i := 0 to |settings|
        invariant Valid() && SettingsApplied(old(View()), settings[..i], View())
        invariant forall j :: 0 <= j < i ==> Takable(settings[j], old(View()))
      {
        k, c := i, View();
        assert settings[i] in settings;
        TakableStill(old(View()), settings, i, c);
        err := ProcessSetting(settings[i]);
        if err.Some? {
          return;
        }
        OneMoreApplied(old(View()), settings, i, c, View());
      }
      assert settings[..|settings|] == settings;
      err := None;
    }

    method ProcessSettings(ack: bool, settings: seq<Setting>) returns (ok: bool)
      requires Valid()
      modifies this
      ensures Valid() && closed == old(closed) && sent == old(sent) && updates == old(updates)
      ensures SettingsDone(old(View()), ack, settings, View())
      ensures ok == if ack then old(unackedSettings) > 0
                    else |settings| <= 100 && !HasDuplicates(settings) && forall s <- settings :: Takable(s, old(View()))
    {
      hide Valid, SettingsApplied, Takable, SettingError, WindowsSpoilt, Conn.Ended;
      if ack {
        ok := ProcessSettingsAck();
        return;
      }
      if |settings| > 100 || HasDuplicates(settings) {
        GoAway(PROTOCOL_ERROR);
        return false;
      }
      var err, k, c := ApplySettings(settings);
      if err.Some? {
        RefuseSettings(err.value, settings, k, old(View()), c);
        return false;
      }
      AckSettings(settings, old(View()));
      return true;
    }

    method ProcessSettingsAck() returns (ok: bool)
      requires Valid()
      modifies `unackedSettings, `inGoAway, `needToSendGoAway, `goAwayCode
      ensures Valid() && ok == (old(unackedSettings) > 0)
      ensures var c := old(View()).(unacked := old(unackedSettings) - 1); View() == if ok then c else c.Ended(PROTOCOL_ERROR)
    {
      hide TableOk, QueuesOk, EntriesOk, BodiesOk, AllUsed, ConnWindowOk, HistoryOk;
      unackedSettings := unackedSettings - 1;
      ok := unackedSettings >= 0;
      if !ok {
        GoAway(PROTOCOL_ERROR);
      }
    }

    method AckSettings(ghost settings: seq<Setting>, ghost before: Conn)
      requires Valid() && SettingsApplied(before, settings, View())
      modifies `needToSendSettingsAck
      ensures Valid() && View().needAck && SettingsApplied(before, settings, View().(needAck := before.needAck))
    {
      hide TableOk, QueuesOk, EntriesOk, BodiesOk, AllUsed, ConnWindowOk, HistoryOk, SettingsApplied;
      AppliedKeepsAck(before, settings, View());
      needToSendSettingsAck := true;
    }

    method RefuseSettings(err: nat, ghost settings: seq<Setting>, ghost k: nat, ghost before: Conn, ghost c: Conn)
      requires Valid() && k < |settings|
      requires (forall j :: 0 <= j < k ==> Takable(settings[j], before)) && !Takable(settings[k], before)
      requires SettingsApplied(before, settings[..k], c)
      requires if SettingError(settings[k]).Some? then Some(err) == SettingError(settings[k]) && View() == c
               else err == FLOW_CONTROL_ERROR && WindowsSpoilt(c, settings[k].val, View())
      modifies `inGoAway, `needToSendGoAway, `goAwayCode
      ensures Valid() && SettingsRefused(before, settings, k, c, View())
    {
      hide Valid, SettingsApplied, SettingError, Takable;
      if SettingError(settings[k]).None? {
        EndedOnce(View(), err);
      }
      GoAway(err);
    }

    // ----- Writing -----

    /** Takes the oldest control frame. */
    method PopControl()
      requires Valid() && writing.None? && control != []
      modifies `control, `queuedControlFrames, `writing
      ensures Valid() && IsControl(old(control)[0])
      ensures View() == old(View()).(control := old(control)[1..], writing := Some(old(control)[0]))
    {
      hide TableOk, EntriesOk, BodiesOk, AllUsed, ConnWindowOk, HistoryOk;
      ControlStarted(streams, Now());
      writing := Some(control[0]);
      control := control[1..];
      queuedControlFrames := queuedControlFrames - 1;
    }

    /** Starts to write a frame that is not in a queue, or no longer. */
    method Begin(f: Frame)
      requires Valid() && writing.None?
      modifies `writing
      ensures Valid() && writing == Some(f)
      ensures View() == old(View()).(writing := Some(f))
    {
      hide TableOk, QueuesOk, EntriesOk, BodiesOk, AllUsed, ConnWindowOk, HistoryOk;
      OtherWritten(streams, Now(), Some(f));
      writing := Some(f);
    }

    /** Replaces a queue by another of the same stream. */
    method SetQueue(id: nat, q: seq<Frame>)
      requires Valid() && id in queues && forall i :: 0 <= i < |q| ==> OnStream(q[i]) && q[i].id == id
      modifies `queues
      ensures Valid() && queues == old(queues)[id := q]
      ensures View() == old(View()).WithQueue(id, q)
    {
      hide TableOk, EntriesOk, BodiesOk, AllUsed, ConnWindowOk, HistoryOk;
      queues := queues[id := q];
    }

    /** Debits the windows of a stream and of the connection; neither may go below zero. */
    method Take(id: nat, n: nat)
      requires Valid() && id in streams && n <= streams[id].window && n <= flow && n <= maxFrameSize
      modifies `flow, `streams, `sent
      ensures Valid() && flow == old(flow) - n && sent == old(sent) + [Sent(id, n, maxFrameSize)]
      ensures streams == old(streams)[id := old(streams)[id].(window := old(streams)[id].window - n)]
      ensures streams.Keys == old(streams.Keys)
      ensures View() == old(View()).With(id, old(streams)[id].(window := old(streams)[id].window - n)).(flow := old(flow) - n)
    {
      hide TableOk, QueuesOk, EntriesOk, BodiesOk, AllUsed, HistoryOk, Used, TotalSent, Granted;
      LiveIsUsed(id);
      DataSent(streams, Now(), id, n, maxFrameSize);
      SentLogged(sent, updates, Sent(id, n, maxFrameSize), maxClientStreamID, maxPushPromiseID);
      streams := streams[id := streams[id].(window := streams[id].window - n)];
      assert streams.Keys == old(streams.Keys);
      flow := flow - n;
      sent := sent + [Sent(id, n, maxFrameSize)];
    }

    /** With no reset waiting or being written, no stream is half closed on this side. */
    lemma NoneHalfClosedLocal(id: nat)
      requires Valid() && control == [] && writing.None? && id in queues
      ensures id in streams && streams[id].state != HalfClosedLocal
      ensures forall i :: 0 <= i < |queues[id]| ==> OnStream(queues[id][i]) && queues[id][i].id == id
    {
      hide TableOk, BodiesOk, AllUsed, ConnWindowOk, HistoryOk, StreamBodyOk, WindowOk;
      EntryAt(id);
    }

    /** Takes what may be sent of the first frame of a stream, up to a limit of the scheduler; it is never on a stream that is closed or half closed here. */
    method PopStream(id: nat, limit: nat) returns (some: bool)
      requires Valid() && writing.None? && control == [] && id in queues && queues[id] != [] && !Failing()
      modifies this
      ensures Valid() && closed == old(closed) && updates == old(updates) && sent == old(sent) + Logged(None, writing, maxFrameSize)
      ensures Popped(old(View()), id, limit, View()) && (!some ==> View() == old(View()))
    {
      hide Valid, Promised, Conn.With, Conn.WithQueue;
      NoneHalfClosedLocal(id);
      if queues[id][0].Data? && queues[id][0].size > 0 {
        some := PopData(id, limit);
        return;
      }
      PopOther(id);
      return true;
    }

    /** Takes a frame that is not subject to flow control. */
    method PopOther(id: nat)
      requires Valid() && writing.None? && id in queues && queues[id] != [] && OnStream(queues[id][0])
      requires forall i :: 0 <= i < |queues[id]| ==> OnStream(queues[id][i]) && queues[id][i].id == id
      requires !(queues[id][0].Data? && queues[id][0].size > 0)
      modifies `queues, `streams, `bodies, `curClientStreams, `curPushedStreams, `maxClientStreamID, `maxPushPromiseID, `writing,
               `inGoAway, `needToSendGoAway, `goAwayCode
      ensures Valid() && Logged(None, writing, maxFrameSize) == []
      ensures var f, c := old(queues)[id][0], old(View()).WithQueue(id, old(queues)[id][1..]);
              View() == if f.PushPromise? then Promised(c, f) else c.(writing := Some(f))
    {
      hide Valid, Promised, Conn.WithQueue;
      var f, rest := queues[id][0], queues[id][1..];
      SetQueue(id, rest);
      if f.PushPromise? {
        AllocatePromisedID(f);
        PromiseIsWritten(old(View()).WithQueue(id, rest), f);
      } else {
        Begin(f);
      }
    }

    /** Takes what may be sent of a DATA frame. */
    method PopData(id: nat, limit: nat) returns (some: bool)
      requires Valid() && writing.None? && id in queues && queues[id] != [] && id in streams
      requires forall i :: 0 <= i < |queues[id]| ==> OnStream(queues[id][i]) && queues[id][i].id == id
      requires queues[id][0].Data? && queues[id][0].size > 0
      modifies `flow, `streams, `sent, `queues, `writing
      ensures Valid()
      ensures var f, rest, n := old(queues)[id][0], old(queues)[id][1..], Sendable(old(View()), id, limit, old(queues)[id][0].size);
              && some == (n > 0)
              && (!some ==> View() == old(View()) && sent == old(sent))
              && (some ==>
                    && sent == old(sent) + [Sent(id, n, maxFrameSize)]
                    && View() == old(View()).With(id, old(streams)[id].(window := old(streams)[id].window - n)).(flow := old(flow) - n)
                                 .WithQueue(id, (if n < f.size then [Data(id, f.size - n, f.endStream)] else []) + rest)
                                 .(writing := Some(Data(id, n, f.endStream && n == f.size))))
    {
      hide Valid, Conn.With, Conn.WithQueue;
      var f, rest := queues[id][0], queues[id][1..];
      var n := Sendable(View(), id, limit, f.size);
      if n <= 0 {
        return false;
      }
      Take(id, n);
      SetQueue(id, (if n < f.size then [Data(id, f.size - n, f.endStream)] else []) + rest);
      Begin(Data(id, n, f.endStream && n == f.size));
      return true;
    }

    /** Opens the promised stream when its PUSH_PROMISE is about to be written, or drops the promise. */
    method AllocatePromisedID(f: Frame)
      requires Valid() && writing.None?
      modifies `streams, `bodies, `curClientStreams, `curPushedStreams, `maxClientStreamID, `maxPushPromiseID, `writing,
               `inGoAway, `needToSendGoAway, `goAwayCode
      ensures Valid() && View() == Promised(old(View()), f)
    {
      hide Valid, Conn.Opened, Conn.Ended, Fresh, Clients, IsClient, Used;
      PushedCounted();
      if !pushEnabled || curPushedStreams + 1 > clientMaxStreams {
        return;
      }
      if maxPushPromiseID + 2 >= 0x8000_0000 {
        GoAway(NO_ERROR);
        return;
      }
      OpenPromised();
      Begin(f);
    }

    lemma PushedCounted()
      requires Valid()
      ensures curPushedStreams == |streams.Keys - Clients(streams.Keys)|
    {
      hide QueuesOk, EntriesOk, BodiesOk, AllUsed, ConnWindowOk, HistoryOk, Clients;
    }

    method OpenPromised()
      requires Valid()
      modifies `streams, `bodies, `curClientStreams, `curPushedStreams, `maxClientStreamID, `maxPushPromiseID
      ensures Valid() && writing == old(writing)
      ensures View() == old(View()).Opened(old(maxPushPromiseID) + 2, Fresh(HalfClosedRemote, old(initialStreamSendWindowSize), 0, false), None)
    {
      hide Valid, Conn.Opened;
      PushIsEven();
      NewStream(maxPushPromiseID + 2, Fresh(HalfClosedRemote, initialStreamSendWindowSize, 0, false), None);
    }

    lemma PushIsEven()
      requires Valid()
      ensures !IsClient(maxPushPromiseID + 2) && !Used(maxPushPromiseID + 2, maxClientStreamID, maxPushPromiseID)
    {
      hide QueuesOk, EntriesOk, BodiesOk, AllUsed, ConnWindowOk, HistoryOk, Clients;
    }

    /**
     * One turn of the scheduling loop; choice is the stream that the scheduler would take next, and limit the number of
     * bytes it would take at most.
     */
    method ScheduleFrameWrite(choice: nat, limit: nat) returns (some: bool)
      requires Valid() && writing.None?
      modifies this
      ensures Valid() && closed == old(closed) && updates == old(updates) && sent == old(sent) + Logged(None, writing, maxFrameSize)
      ensures Scheduled(old(View()), choice, limit, View()) && (!some ==> View() == old(View()))
    {
      hide Valid, Popped;
      if needToSendGoAway || needToSendSettingsAck {
        StartUrgent();
        return true;
      }
      if !Failing() {
        if control != [] {
          PopControl();
          return true;
        }
        if choice in queues && queues[choice] != [] {
          some := PopStream(choice, limit);
          return;
        }
      }
      return false;
    }

    /** GOAWAY and the acknowledgement of SETTINGS come before all queues. */
    method StartUrgent()
      requires Valid() && writing.None? && (needToSendGoAway || needToSendSettingsAck)
      modifies `needToSendGoAway, `needToSendSettingsAck, `writing
      ensures Valid()
      ensures var c := old(View());
              View() == if c.needGoAway then c.(needGoAway := false, writing := Some(GoAwayFrame))
                        else c.(needAck := false, writing := Some(SettingsAck))
    {
      hide TableOk, QueuesOk, EntriesOk, BodiesOk, AllUsed, ConnWindowOk, HistoryOk;
      if needToSendGoAway {
        needToSendGoAway := false;
        Begin(GoAwayFrame);
        return;
      }
      needToSendSettingsAck := false;
      Begin(SettingsAck);
    }

    /** This side is done with a stream that is still open: it also resets it, with no error. */
    method HalfClose(id: nat)
      requires Valid() && id in streams && streams[id].state == Open
      modifies `control, `queuedControlFrames, `streams
      ensures Valid() && View() == old(View()).HalfClosed(id) && streams.Keys == old(streams.Keys)
    {
      hide TableOk, QueuesOk, EntriesOk, BodiesOk, AllUsed, ConnWindowOk, HistoryOk, ResetPending, WindowOk;
      ResetStream(id);
      EntryAt(id);
      SetStream(id, streams[id].(state := HalfClosedLocal));
    }

    /** The frame being written is out: the stream it ends or resets changes state. */
    method WroteFrame()
      requires Valid() && writing.Some?
      modifies this
      ensures Valid() && View() == WriteDone(old(View())) && sent == old(sent) && updates == old(updates)
      ensures closed == old(closed) + (old(streams.Keys) - streams.Keys)
    {
      hide Valid, Conn.HalfClosed, Conn.Without;
      var f := writing.value;
      if f.Reset? {
        if f.id in streams {
          CloseStream(f.id);
        }
        Finish();
        return;
      }
      Finish();
      if EndsStream(f) && f.id in streams {
        if streams[f.id].state == Open {
          HalfClose(f.id);
        } else if streams[f.id].state == HalfClosedRemote {
          CloseStream(f.id);
        }
      }
    }

    method Finish()
      requires Valid() && writing.Some? && (writing.value.Reset? ==> writing.value.id !in streams)
      modifies `writing
      ensures Valid() && View() == old(View()).(writing := None)
    {
      hide TableOk, QueuesOk, EntriesOk, BodiesOk, AllUsed, ConnWindowOk, HistoryOk;
      OtherWritten(streams, Now(), None);
      writing := None;
    }

    // ----- Handlers -----

    /** Server push, asked for by the handler of parent. */
    method StartPush(parent: nat)
      requires Valid()
      modifies `queues, `streams
      ensures Valid() && View() == PushDone(old(View()), parent)
    {
      hide Valid, Used;
      if parent !in streams || streams[parent].state == HalfClosedLocal || !pushEnabled {
        return;
      }
      LiveIsUsed(parent);
      WriteOnStream(PushPromise(parent));
    }

    /** The request that an HTTP/1.1 upgrade turned into stream 1. */
    method UpgradeRequest()
      requires Valid() && maxClientStreamID == 0 && advMaxStreams >= 1
      modifies `streams, `bodies, `curClientStreams, `curPushedStreams, `maxClientStreamID, `maxPushPromiseID
      ensures Valid() && maxClientStreamID == 1 && OnlyNewOpen()
      ensures streams == old(streams)[1 := Fresh(HalfClosedRemote, initialStreamSendWindowSize, 0, false)]
      ensures View() == old(View()).Opened(1, Fresh(HalfClosedRemote, initialStreamSendWindowSize, 0, false), None)
    {
      hide TableOk, QueuesOk, EntriesOk, BodiesOk, AllUsed, ConnWindowOk, HistoryOk;
      NoClients();
      NewStream(1, Fresh(HalfClosedRemote, initialStreamSendWindowSize, 0, false), None);
    }

    lemma NoClients()
      requires Valid() && maxClientStreamID == 0
      ensures curClientStreams == 0
    {
      hide QueuesOk, EntriesOk, BodiesOk, AllUsed, ConnWindowOk, HistoryOk;
      assert Clients(streams.Keys) == {};
    }

    /** PING from the client. */
    method ProcessPing(ack: bool)
      requires Valid()
      modifies `control, `queuedControlFrames
      ensures Valid() && control == if ack || Failing() then old(control) else old(control) + [PingAck]
      ensures View() == if ack || old(Failing()) then old(View()) else old(View()).Queued(PingAck)
    {
      hide TableOk, QueuesOk, EntriesOk, BodiesOk, AllUsed, ConnWindowOk, HistoryOk;
      if !ack && !Failing() {
        WriteControl(PingAck);
      }
    }

    // ----- Whole runs -----

    /** Any event; one that cannot happen in this state does nothing. What is closed or sent stays so. */
    method Handle(e: Event)
      requires Valid()
      modifies this
      ensures Valid() && Next(advMaxStreams, old(View()), e, View())
      ensures closed == old(closed) + (old(streams.Keys) - streams.Keys) && OnlyNewOpen()
      ensures forall id :: id in closed ==> id !in streams
      ensures updates == old(updates)
              || (e.FromPeer? && e.frame.PeerWindowUpdate? && updates == old(updates) + [Update(e.frame.id, e.frame.n)])
      ensures sent == old(sent) + Logged(old(writing), writing, maxFrameSize)
      ensures writing == old(writing) || (e.Schedule? && old(writing).None?) || (e.Wrote? && writing.None?)
      ensures old(Failing()) ==> sent == old(sent)
    {
      hide Valid, Next, Used;
      ViewIsTidy();
      Dispatch(e);
      NextKeeps(advMaxStreams, old(View()), e, View());
      if old(Failing()) {
        FailingSendsNothing(advMaxStreams, old(View()), e, View());
      }
      ClosedNotLive();
    }

    method Dispatch(e: Event)
      requires Valid()
      modifies this
      ensures Valid() && Next(advMaxStreams, old(View()), e, View())
      ensures closed == old(closed) + (old(streams.Keys) - streams.Keys)
      ensures updates == old(updates)
              || (e.FromPeer? && e.frame.PeerWindowUpdate? && updates == old(updates) + [Update(e.frame.id, e.frame.n)])
      ensures sent == old(sent) + Logged(old(writing), writing, maxFrameSize)
    {
      hide Valid, PeerDone, Scheduled, WriteDone, HandlerDone, PushDone, Conn.ResetSent, Conn.Refunded, Conn.Ended, Conn.Opened, Fresh;
      match e {
        case FromPeer(f) => HandlePeer(f);
        case Schedule(choice, limit) => TakeTurn(choice, limit);
        case Wrote => EndWrite();
        case _ => HandleLocal(e);
      }
    }

    method TakeTurn(choice: nat, limit: nat)
      requires Valid()
      modifies this
      ensures Valid() && Scheduled(old(View()), choice, limit, View())
      ensures closed == old(closed) + (old(streams.Keys) - streams.Keys) && updates == old(updates)
      ensures sent == old(sent) + Logged(old(writing), writing, maxFrameSize)
    {
      hide Valid, Popped;
      ViewIsTidy();
      if writing.None? {
        var some := ScheduleFrameWrite(choice, limit);
        ScheduledKeeps(old(View()), choice, limit, View());
      }
    }

    method EndWrite()
      requires Valid()
      modifies this
      ensures Valid() && View() == WriteDone(old(View())) && sent == old(sent) + Logged(old(writing), writing, maxFrameSize)
      ensures updates == old(updates) && closed == old(closed) + (old(streams.Keys) - streams.Keys)
    {
      hide Valid, Conn.HalfClosed, Conn.Without;
      if writing.Some? {
        WroteFrame();
      }
    }

    lemma ViewIsSound()
      requires Valid()
      ensures Sound(View(), advMaxStreams)
    {
      hide QueuesOk, AllUsed, ConnWindowOk, HistoryOk, Clients, StreamBodyOk, WindowOk, ResetPending;
    }

    lemma ViewIsTidy()
      requires Valid()
      ensures Tidy(View())
    {
      hide BodiesOk, AllUsed, ConnWindowOk, HistoryOk, Clients, StreamBodyOk, WindowOk, ResetPending;
    }

    /** What handlers, a shutdown or an upgrade ask for: no stream closes, and nothing is begun. */
    method HandleLocal(e: Event)
      requires Valid() && !e.FromPeer? && !e.Schedule? && !e.Wrote?
      modifies this
      ensures Valid() && Next(advMaxStreams, old(View()), e, View()) && updates == old(updates)
      ensures closed == old(closed) + (old(streams.Keys) - streams.Keys)
      ensures sent == old(sent) + Logged(old(writing), writing, maxFrameSize)
    {
      hide Valid, Next, Tidy, Quiet;
      ViewIsTidy();
      ProcessLocal(e);
      LocalQuiet(advMaxStreams, old(View()), e, View());
      QuietStreams(old(View()), View());
    }

    method ProcessLocal(e: Event)
      requires Valid() && !e.FromPeer? && !e.Schedule? && !e.Wrote?
      modifies this
      ensures Valid() && Next(advMaxStreams, old(View()), e, View())
      ensures updates == old(updates) && closed == old(closed) && sent == old(sent)
    {
      hide Valid, Conn.ResetSent, Conn.Refunded, Conn.Ended, Conn.Opened, Fresh, HandlerDone, PushDone, WriteDone, Scheduled, PeerDone;
      if e.BodyRead? {
        SendWindowUpdate(e.low);
      } else if e.Shutdown? {
        GoAway(NO_ERROR);
      } else if e.Upgrade? {
        ProcessUpgrade();
      } else {
        ProcessHandler(e);
      }
    }

    /** A message from a handler. */
    method ProcessHandler(e: Event)
      requires Valid() && (e.HandlerFrame? || e.HandlerReset? || e.HandlerPush?)
      modifies `queues, `streams, `control, `queuedControlFrames
      ensures Valid() && Next(advMaxStreams, old(View()), e, View())
    {
      hide Valid, Conn.ResetSent, HandlerDone, PushDone;
      match e {
        case HandlerFrame(f) => WriteFrame(f);
        case HandlerReset(id) => ResetStream(id);
        case HandlerPush(parent) => StartPush(parent);
      }
    }

    method ProcessUpgrade()
      requires Valid()
      modifies `streams, `bodies, `curClientStreams, `curPushedStreams, `maxClientStreamID, `maxPushPromiseID
      ensures Valid() && Next(advMaxStreams, old(View()), Upgrade, View())
    {
      hide Valid, Conn.Opened, Fresh;
      if maxClientStreamID == 0 && advMaxStreams >= 1 {
        UpgradeRequest();
      }
    }

    method WriteFrame(f: Frame)
      requires Valid()
      modifies `queues, `streams
      ensures Valid() && View() == HandlerDone(old(View()), f)
    {
      hide Valid, Used;
      if OnStream(f) && Used(f.id, maxClientStreamID, maxPushPromiseID) {
        WriteOnStream(f);
      }
    }

    lemma ClosedNotLive()
      requires Valid()
      ensures forall id :: id in closed ==> id !in streams
    {
      hide QueuesOk, EntriesOk, BodiesOk, AllUsed, ConnWindowOk, HistoryOk, Clients;
    }

    /** GOAWAY from the client: a graceful shutdown, and no more pushes. */
    method ProcessGoAway()
      requires Valid()
      modifies `inGoAway, `needToSendGoAway, `goAwayCode, `pushEnabled
      ensures Valid() && inGoAway && !pushEnabled && goAwayCode == if old(Failing()) then old(goAwayCode) else NO_ERROR
      ensures View() == old(View()).Ended(NO_ERROR).(pushEnabled := false)
    {
      hide TableOk, QueuesOk, EntriesOk, BodiesOk, AllUsed, ConnWindowOk, HistoryOk;
      GoAway(NO_ERROR);
      pushEnabled := false;
    }

    /** Any frame from the peer, as the framer lets it through. */
    method HandlePeer(f: PeerFrame)
      requires Valid()
      modifies this
      ensures Valid() && writing == old(writing) && PeerDone(advMaxStreams, old(View()), f, View())
      ensures sent == old(sent) + Logged(old(writing), writing, maxFrameSize)
      ensures closed == old(closed) + (old(streams.Keys) - streams.Keys)
      ensures updates == old(updates) || (f.PeerWindowUpdate? && updates == old(updates) + [Update(f.id, f.n)])
    {
      hide Valid, PeerDone, Tidy, Quiet;
      ViewIsTidy();
      ProcessFrame(f);
      if f.PeerReset? {
        PeerResetStreams(advMaxStreams, old(View()), f.id, View());
      } else {
        PeerQuiet(advMaxStreams, old(View()), f, View());
        QuietStreams(old(View()), View());
      }
    }

    method ProcessFrame(f: PeerFrame)
      requires Valid()
      modifies this
      ensures Valid() && sent == old(sent) && PeerDone(advMaxStreams, old(View()), f, View())
      ensures closed == if f.PeerReset? && f.id in old(streams) then old(closed) + {f.id} else old(closed)
      ensures updates == old(updates) || (f.PeerWindowUpdate? && updates == old(updates) + [Update(f.id, f.n)])
    {
      hide Valid, HeadersDone, DataDone, UpdateDone, SettingsDone, Conn.Ended, Conn.Without, Conn.Queued, Conn.IsIdle;
      ZeroNotLive();
      match f {
        case PeerHeaders(id, endStream, badTrailers, selfDependent, request) =>
          if id != 0 && (request.Some? ==> request.value >= -1) {
            ProcessHeaders(id, endStream, badTrailers, selfDependent, request);
          }
        case PeerData(id, length, size, endStream, connQuota, streamQuota, low) =>
          if size <= length {
            ProcessData(id, length, size, endStream, connQuota, streamQuota, low);
          }
        case PeerWindowUpdate(id, n) =>
          if 1 <= n <= MAX_WINDOW {
            ProcessWindowUpdate(id, n);
          }
        case PeerReset(id) =>
          if id != 0 {
            ProcessResetStream(id);
          }
        case _ => ProcessConnFrame(f);
      }
    }

    /** A frame that is not about a stream. */
    method ProcessConnFrame(f: PeerFrame)
      requires Valid() && (f.PeerSettings? || f.PeerPing? || f.PeerGoAway? || f.PeerError?)
      modifies this
      ensures Valid() && PeerDone(advMaxStreams, old(View()), f, View())
      ensures sent == old(sent) && closed == old(closed) && updates == old(updates)
    {
      hide Valid, SettingsDone, Conn.Ended, Conn.Queued;
      match f {
        case PeerSettings(ack, settings) => var ok := ProcessSettings(ack, settings);
        case PeerPing(ack) => ProcessPing(ack);
        case PeerGoAway => ProcessGoAway();
        case PeerError(code) => GoAway(code);
      }
    }

    // ----- What holds in every state -----

    /** Windows: what the peer allowed, less what was sent. */
    lemma WindowsAccounted(id: nat)
      requires Valid()
      ensures 0 <= flow == CONN_WINDOW + Granted(updates, 0) - TotalSent(sent)
      ensures id in streams && !spoilt ==>
                streams[id].window == initialStreamSendWindowSize + Granted(updates, id) - SentOn(sent, id)
      ensures forall i :: 0 <= i < |sent| ==> sent[i].n <= sent[i].limit
    {
      hide TableOk, QueuesOk, BodiesOk, AllUsed, ResetPending, StreamBodyOk, Granted, SentOn, TotalSent;
    }

    /** Request bodies: never more than was declared, and end of file only after exactly that. */
    lemma BodiesAccounted(id: nat)
      requires Valid() && id in bodies
      ensures bodies[id].declared >= 0 ==> bodies[id].bytes <= bodies[id].declared
      ensures bodies[id].end == Some(Eof) && bodies[id].declared >= 0 ==> bodies[id].bytes == bodies[id].declared
    {
      hide TableOk, QueuesOk, EntriesOk, AllUsed, ConnWindowOk, HistoryOk;
    }

    /** The stream table: bounds on IDs, exact counters within the limit, and the count of queued control frames. */
    lemma TableAccounted(id: nat)
      requires Valid()
      ensures id in streams ==> id != 0 && id !in closed && id <= (if IsClient(id) then maxClientStreamID else maxPushPromiseID)
      ensures curClientStreams == |Clients(streams.Keys)| <= advMaxStreams
      ensures curPushedStreams == |streams.Keys - Clients(streams.Keys)|
      ensures queuedControlFrames == |control|
    {
      hide EntriesOk, BodiesOk, AllUsed, ConnWindowOk, HistoryOk, Clients;
    }
  }

  // ----- A connection through any events at all -----

  /** The bytes of the DATA frames begun. */
  function Carried(h: seq<Conn>): (n: nat) {
    if |h| <= 1 then 0 else Carried(h[..|h| - 1]) + DataIn(Begun(h[|h| - 2], h[|h| - 1]))
  }

  function DataIn(f: Option<Frame>): (n: nat) {
    if f.Some? && f.value.Data? then f.value.size else 0
  }

  /** What the client has offered to take in all, with the WINDOW_UPDATE frames for the connection. */
  function Offered(events: seq<Event>): (n: nat) {
    if events == [] then 0
    else
      var e := events[|events| - 1];
      Offered(events[..|events| - 1]) +
        if e.FromPeer? && e.frame.PeerWindowUpdate? && e.frame.id == 0 then e.frame.n else 0
  }

  /** At no time were there more bytes in DATA frames than the client had offered to take. */
  ghost predicate WithinOffer(events: seq<Event>, h: seq<Conn>)
    requires |h| <= |events| + 1
  {
    forall i: nat :: i < |h| ==> Carried(h[..i + 1]) <= CONN_WINDOW + Offered(events[..i])
  }

  /** A stream that was live and is not so any more is never live again. */
  ghost predicate NoReturn(h: seq<Conn>) {
    forall i, j, k, id :: 0 <= i < j < k < |h| && id in h[i].streams && id !in h[j].streams ==> id !in h[k].streams
  }

  /** No more streams of the client are live than it was told it may open; bodies match streams and what was declared. */
  ghost predicate Sound(c: Conn, advMaxStreams: nat) {
    |Clients(c.streams.Keys)| <= advMaxStreams && BodiesMatch(c) && BodiesOk(c.bodies)
  }

  ghost predicate AllSound(h: seq<Conn>, advMaxStreams: nat) {
    forall i :: 0 <= i < |h| ==> Sound(h[i], advMaxStreams)
  }

  /** closed holds every stream that was live at some time and not at a later one. */
  ghost predicate GoneAre(h: seq<Conn>, closed: set<nat>) {
    forall i, j, id :: 0 <= i < j < |h| && id in h[i].streams && id !in h[j].streams ==> id in closed
  }

  /** Every stream that was ever live is live or closed now. */
  ghost predicate Known(h: seq<Conn>, live: set<nat>, closed: set<nat>) {
    forall i, id :: 0 <= i < |h| && id in h[i].streams ==> id in live || id in closed
  }

  lemma KnownNext(h: seq<Conn>, c: Conn, live: set<nat>, closed: set<nat>)
    requires NoReturn(h) && GoneAre(h, closed) && Known(h, live, closed)
    requires c.streams.Keys !! closed + (live - c.streams.Keys)
    ensures var closed' := closed + (live - c.streams.Keys);
            NoReturn(h + [c]) && GoneAre(h + [c], closed') && Known(h + [c], c.streams.Keys, closed')
  {
    var h', live' := h + [c], c.streams.Keys;
    var closed' := closed + (live - live');
    forall i, id | 0 <= i < |h'| && id in h'[i].streams ensures id in live' || id in closed' {
    }
  }

  lemma {:induction false} CarriedNext(h: seq<Conn>, c: Conn, sent: seq<Sent>, log: seq<Sent>)
    requires h != [] && Carried(h) == TotalSent(sent)
    requires var n := DataIn(Begun(h[|h| - 1], c));
             if n == 0 then log == [] else |log| == 1 && log[0].n == n
    ensures Carried(h + [c]) == TotalSent(sent + log)
  {
    hide DataIn, Begun;
    assert (h + [c])[..|h|] == h;
    if log == [] {
      assert sent + log == sent;
    } else {
      assert (sent + log)[..|sent|] == sent;
    }
  }

  lemma OfferedNext(before: seq<Event>, e: Event, updates: seq<Update>, updates': seq<Update>)
    requires Granted(updates, 0) <= Offered(before)
    requires updates' == updates
             || (e.FromPeer? && e.frame.PeerWindowUpdate? && updates' == updates + [Update(e.frame.id, e.frame.n)])
    ensures Granted(updates', 0) <= Offered(before + [e])
  {
    assert (before + [e])[..|before|] == before;
    assert |updates'| > |updates| ==> updates'[..|updates|] == updates;
  }

  lemma WithinOfferNext(events: seq<Event>, h: seq<Conn>, c: Conn)
    requires |h| <= |events| && WithinOffer(events, h)
    requires Carried(h + [c]) <= CONN_WINDOW + Offered(events[..|h|])
    ensures WithinOffer(events, h + [c])
  {
    hide Carried, Offered;
    forall i: nat | i < |h + [c]|
      ensures Carried((h + [c])[..i + 1]) <= CONN_WINDOW + Offered(events[..i])
    {
      PrefixOf(h, c, i);
    }
  }

  lemma PrefixOf(h: seq<Conn>, c: Conn, i: nat)
    requires i <= |h|
    ensures (h + [c])[..i + 1] == if i < |h| then h[..i + 1] else h + [c]
  {
  }

  /** One event, and the state after it. */
  method Observe(sc: ServerConn, e: Event) returns (c: Conn)
    requires sc.Valid()
    modifies sc
    ensures sc.Valid() && c == sc.View() && c.streams.Keys !! sc.closed && Sound(c, sc.advMaxStreams)
    ensures Next(sc.advMaxStreams, old(sc.View()), e, c)
    ensures sc.closed == old(sc.closed) + (old(sc.streams.Keys) - c.streams.Keys)
    ensures sc.updates == old(sc.updates)
            || (e.FromPeer? && e.frame.PeerWindowUpdate? && sc.updates == old(sc.updates) + [Update(e.frame.id, e.frame.n)])
    ensures sc.sent == old(sc.sent) + Logged(old(sc.writing), sc.writing, sc.maxFrameSize)
  {
    hide ServerConn.Valid, ServerConn.OnlyNewOpen, Next, Sound;
    sc.Handle(e);
    sc.ViewIsSound();
    c := sc.View();
  }

  lemma FlowLeft(sc: ServerConn)
    requires sc.Valid()
    ensures TotalSent(sc.sent) <= CONN_WINDOW + Granted(sc.updates, 0)
  {
    hide TotalSent, Granted;
    sc.WindowsAccounted(0);
  }

  /** Any run of a new connection, with its states. */
  method Serve(advMaxStreams: nat, events: seq<Event>) returns (h: seq<Conn>, sc: ServerConn)
    requires advMaxStreams >= 1
    ensures sc.Valid() && sc.advMaxStreams == advMaxStreams
    ensures IsRun(advMaxStreams, events, h) && h[|events|] == sc.View()
    ensures NoReturn(h) && AllSound(h, advMaxStreams) && WithinOffer(events, h)
    ensures EndsAreLast(h) && ResetsAreFinal(events, h) && FailuresAreFinal(h) && StreamsAreNewer(h)
  {
    hide ServerConn.Valid, Carried, Offered, TotalSent, Granted, NoReturn, GoneAre, Known, WithinOffer, AllSound, Next, Clients,
         EndsAreLast, ResetsAreFinal, FailuresAreFinal, StreamsAreNewer;
    sc := new ServerConn(advMaxStreams);
    h := [sc.View()];
    NothingYet(events, sc.View(), advMaxStreams);
    for i := 0 to |events|
      invariant sc.Valid() && fresh(sc) && sc.advMaxStreams == advMaxStreams
      invariant IsRun(advMaxStreams, events[..i], h) && h[i] == sc.View()
      invariant NoReturn(h) && GoneAre(h, sc.closed) && Known(h, sc.streams.Keys, sc.closed) && AllSound(h, advMaxStreams)
      invariant Carried(h) == TotalSent(sc.sent) && Granted(sc.updates, 0) <= Offered(events[..i]) && WithinOffer(events, h)
    {
      ghost var live, closed, sent, updates, writing := sc.streams.Keys, sc.closed, sc.sent, sc.updates, sc.writing;
      var c := Observe(sc, events[i]);
      KnownNext(h, c, live, closed);
      CarriedNext(h, c, sent, Logged(writing, sc.writing, sc.maxFrameSize));
      OfferedNext(events[..i], events[i], updates, sc.updates);
      assert events[..i + 1] == events[..i] + [events[i]];
      FlowLeft(sc);
      WithinOfferNext(events, h, c);
      SoundNext(h, c, advMaxStreams);
      RunNext(advMaxStreams, events, i, h, c);
      h := h + [c];
    }
    assert events[..|events|] == events;
    RunsAreSafe(advMaxStreams, events, h);
  }

  lemma SoundNext(h: seq<Conn>, c: Conn, advMaxStreams: nat)
    requires AllSound(h, advMaxStreams) && Sound(c, advMaxStreams)
    ensures AllSound(h + [c], advMaxStreams)
  {
    hide Sound;
  }

  lemma RunNext(advMaxStreams: nat, events: seq<Event>, i: nat, h: seq<Conn>, c: Conn)
    requires i < |events| && IsRun(advMaxStreams, events[..i], h) && Next(advMaxStreams, h[i], events[i], c)
    ensures IsRun(advMaxStreams, events[..i + 1], h + [c])
  {
    hide Next;
    var h', before := h + [c], events[..i + 1];
    forall k | 0 <= k < |before| ensures Next(advMaxStreams, h'[k], before[k], h'[k + 1]) {
      if k < i {
        assert events[..i][k] == before[k];
      }
    }
  }

  lemma NothingYet(events: seq<Event>, c: Conn, advMaxStreams: nat)
    requires c == Start()
    ensures NoReturn([c]) && GoneAre([c], {}) && Known([c], {}, {}) && WithinOffer(events, [c]) && AllSound([c], advMaxStreams)
    ensures Carried([c]) == TotalSent([]) == Granted([], 0) == Offered([]) == 0 && c.streams.Keys == {}
    ensures IsRun(advMaxStreams, [], [c]) && events[..0] == []
  {
    hide Next;
    assert Clients(c.streams.Keys) == {};
    assert [c][..1] == [c];
  }
}
