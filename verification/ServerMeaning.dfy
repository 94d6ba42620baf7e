/** http2/server.go: what each event does to a connection, case by case and field by field. */
module ServerMeaning {
  import opened Common
  import opened ServerState
  import opened ServerSteps
  import opened ServerRuns

  /** Bodies match the streams they belong to. */
  ghost predicate BodiesMatch(c: Conn) {
    forall id :: id in c.streams ==> StreamBodyOk(c.streams[id], id, c.bodies)
  }

  lemma SetTwice<V>(m: map<nat, V>, id: nat, a: V, b: V)
    ensures m[id := a][id := b] == m[id := b]
  {
  }

  function EndOf(declared: int, bytes: nat): (end: BodyEnd) {
    if declared < 0 || declared == bytes then Eof else Bad
  }

  // ----- HEADERS -----

  /** HEADERS are ignored in a shutdown; on an even stream, or on one that is closed, they are an error. */
  lemma HeadersRefused(adv: nat, c: Conn, f: PeerFrame, d: Conn)
    requires f.PeerHeaders? && f.id != 0 && (f.request.Some? ==> f.request.value >= -1) && PeerDone(adv, c, f, d)
    ensures c.inGoAway ==> d == c
    ensures !c.inGoAway && (f.id % 2 == 0 || (f.id !in c.streams && f.id <= c.maxClient)) ==>
              d == c.(inGoAway := true, needGoAway := true, goAwayCode := 1)
  {
  }

  /** HEADERS on a live stream: trailers end its body, at end of file exactly if it is whole; anything else resets it. */
  lemma TrailersMean(adv: nat, c: Conn, f: PeerFrame, d: Conn)
    requires f.PeerHeaders? && f.id % 2 == 1 && (f.request.Some? ==> f.request.value >= -1) && PeerDone(adv, c, f, d)
    requires !c.inGoAway && f.id in c.streams && Tidy(c) && BodiesMatch(c)
    ensures var id, st := f.id, c.streams[f.id];
            if st.resetQueued then d == c
            else if st.state == HalfClosedRemote then
              d == c.(control := c.control + [Reset(id)], streams := c.streams[id := st.(resetQueued := true)])
            else if !f.endStream || f.badTrailers then
              d == c.(control := c.control + [Reset(id)], streams := c.streams[id := st.(resetQueued := true, gotTrailer := true)])
            else
              && st.state == Open && id in c.bodies
              && d == c.(streams := c.streams[id := st.(state := HalfClosedRemote, gotTrailer := true)],
                         bodies := c.bodies[id := c.bodies[id].(end := Some(EndOf(st.declared, st.bodyBytes)))])
  {
    hide Tidy, DataDone, SettingsDone, UpdateDone, BodiesMatch;
    var id, st := f.id, c.streams[f.id];
    LiveMatches(c, id);
    assert TrailersDone(c, id, f.endStream, f.badTrailers, d);
    if !st.resetQueued && st.state == Open {
      SetTwice(c.streams, id, st.(resetQueued := true), st.(resetQueued := true, gotTrailer := true));
      SetTwice(c.streams, id, st.(state := HalfClosedRemote), st.(state := HalfClosedRemote, gotTrailer := true));
    }
  }

  lemma LiveMatches(c: Conn, id: nat)
    requires Tidy(c) && BodiesMatch(c) && id in c.streams
    ensures StreamBodyOk(c.streams[id], id, c.bodies)
    ensures c.streams[id].state == HalfClosedLocal ==> c.streams[id].resetQueued
  {
  }

  /** HEADERS for a new stream of the client: refused if as many are live as may be, else opened; errors reset it. */
  lemma RequestMeans(adv: nat, c: Conn, f: PeerFrame, d: Conn)
    requires f.PeerHeaders? && f.id % 2 == 1 && (f.request.Some? ==> f.request.value >= -1) && PeerDone(adv, c, f, d)
    requires !c.inGoAway && f.id !in c.streams && f.id > c.maxClient
    ensures var id, reset := f.id, f.selfDependent || f.request.None?;
            var declared := if f.request.Some? then f.request.value else 0;
            if |Clients(c.streams.Keys)| >= adv then d == c.(maxClient := id, control := c.control + [Reset(id)])
            else
              d == c.(maxClient := id, control := if reset then c.control + [Reset(id)] else c.control,
                      streams := c.streams[id := Stream(if f.endStream then HalfClosedRemote else Open, c.initial, reset, false, false, declared, 0)],
                      bodies := if reset || f.endStream then c.bodies else c.bodies[id := Body(declared, 0, None)])
  {
    hide Clients;
  }

  // ----- DATA -----

  /** DATA on a stream that receives: too much of it, or beyond the window, resets the stream; else the body takes it. */
  lemma DataMeans(adv: nat, c: Conn, f: PeerFrame, d: Conn)
    requires f.PeerData? && f.size <= f.length && PeerDone(adv, c, f, d) && Tidy(c) && BodiesMatch(c)
    requires c.Receiving(f.id) && !(c.inGoAway && (c.goAwayCode != NO_ERROR || f.id > c.maxClient))
    ensures f.id in c.bodies && c.bodies[f.id].end.None?
    ensures var id, st, b := f.id, c.streams[f.id], c.bodies[f.id];
            if b.declared >= 0 && b.bytes + f.size > b.declared then
              d == c.(control := c.control + (if f.connQuota && f.low then [ConnWindowUpdate] else []) + [Reset(id)],
                      streams := c.streams[id := st.(resetQueued := true)],
                      bodies := if f.connQuota then c.bodies[id := b.(end := Some(Bad))] else c.bodies)
            else if f.length > 0 && !f.streamQuota then
              d == c.(control := c.control + [Reset(id)], streams := c.streams[id := st.(resetQueued := true)])
            else
              d == c.(control := if f.length > f.size then c.control + [ConnWindowUpdate] else c.control,
                      streams := c.streams[id := st.(bodyBytes := b.bytes + f.size, state := if f.endStream then HalfClosedRemote else Open)],
                      bodies := c.bodies[id := b.(bytes := b.bytes + f.size,
                                                  end := if f.endStream then Some(EndOf(b.declared, b.bytes + f.size)) else None)])
  {
    hide Tidy, DataReceived;
    LiveMatches(c, f.id);
    LiveIsNotIdle(c, f.id);
    var id, st, b := f.id, c.streams[f.id], c.bodies[f.id];
    if b.declared >= 0 && b.bytes + f.size > b.declared {
      TooMuch(c, id, f.length, f.size, f.endStream, f.connQuota, f.streamQuota, f.low);
    } else if f.length > 0 && !f.streamQuota {
      NoQuota(c, id, f.length, f.size, f.endStream, f.connQuota, f.streamQuota, f.low);
    } else {
      Taken(c, id, f.length, f.size, f.endStream, f.connQuota, f.streamQuota, f.low);
    }
  }

  /** DATA that no body takes: an error on stream 0 or an idle one; else the stream is reset, unless that is on its way. */
  lemma DataDropped(adv: nat, c: Conn, f: PeerFrame, d: Conn)
    requires f.PeerData? && f.size <= f.length && PeerDone(adv, c, f, d) && !c.Receiving(f.id)
    ensures var id := f.id;
            var refund := if f.connQuota && f.low then [ConnWindowUpdate] else [];
            if c.inGoAway && (c.goAwayCode != 0 || id > c.maxClient) then d == c
            else if id == 0 || (id !in c.streams && id > if id % 2 == 1 then c.maxClient else c.maxPush) then
              d.Failing() && d.goAwayCode == 1 && d.streams == c.streams && d.bodies == c.bodies
            else if id !in c.streams then d == c.(control := c.control + refund + [Reset(id)])
            else if f.connQuota && c.streams[id].resetQueued then d == c.(control := c.control + refund)
            else d == c.(control := c.control + refund + [Reset(id)], streams := c.streams[id := c.streams[id].(resetQueued := true)])
  {
    hide DataReceived, HeadersDone, SettingsDone, UpdateDone, Conn.Ended;
    EndedMeans(c, PROTOCOL_ERROR);
    assert c.control + [] == c.control;
  }

  lemma LiveIsNotIdle(c: Conn, id: nat)
    requires Tidy(c) && id in c.streams
    ensures id != 0 && !c.IsIdle(id)
  {
  }

  lemma TooMuch(c: Conn, id: nat, length: nat, size: nat, endStream: bool, connQuota: bool, streamQuota: bool, low: bool)
    requires c.Receiving(id) && id in c.bodies && StreamBodyOk(c.streams[id], id, c.bodies)
    requires c.bodies[id].declared >= 0 && c.bodies[id].bytes + size > c.bodies[id].declared
    ensures DataReceived(c, id, length, size, endStream, connQuota, streamQuota, low) ==
            c.(control := c.control + (if connQuota && low then [ConnWindowUpdate] else []) + [Reset(id)],
               streams := c.streams[id := c.streams[id].(resetQueued := true)],
               bodies := if connQuota then c.bodies[id := c.bodies[id].(end := Some(Bad))] else c.bodies)
  {
    assert c.control + [] == c.control;
  }

  lemma NoQuota(c: Conn, id: nat, length: nat, size: nat, endStream: bool, connQuota: bool, streamQuota: bool, low: bool)
    requires c.Receiving(id) && id in c.bodies && StreamBodyOk(c.streams[id], id, c.bodies)
    requires !(c.bodies[id].declared >= 0 && c.bodies[id].bytes + size > c.bodies[id].declared) && length > 0 && !streamQuota
    ensures DataReceived(c, id, length, size, endStream, connQuota, streamQuota, low) ==
            c.(control := c.control + [Reset(id)], streams := c.streams[id := c.streams[id].(resetQueued := true)])
  {
  }

  lemma Taken(c: Conn, id: nat, length: nat, size: nat, endStream: bool, connQuota: bool, streamQuota: bool, low: bool)
    requires c.Receiving(id) && id in c.bodies && StreamBodyOk(c.streams[id], id, c.bodies)
    requires !(c.bodies[id].declared >= 0 && c.bodies[id].bytes + size > c.bodies[id].declared) && (length == 0 || streamQuota)
    ensures var st, b := c.streams[id], c.bodies[id];
            DataReceived(c, id, length, size, endStream, connQuota, streamQuota, low) ==
            c.(control := if length > size then c.control + [ConnWindowUpdate] else c.control,
               streams := c.streams[id := st.(bodyBytes := b.bytes + size, state := if endStream then HalfClosedRemote else Open)],
               bodies := c.bodies[id := b.(bytes := b.bytes + size,
                                           end := if endStream then Some(EndOf(b.declared, b.bytes + size)) else None)])
  {
    var st, b := c.streams[id], c.bodies[id];
    var st1, b1 := st.(bodyBytes := st.bodyBytes + size), b.(bytes := b.bytes + size);
    SetTwice(c.streams, id, st1, st1.(state := HalfClosedRemote));
    SetTwice(c.bodies, id, b1, b1.(end := Some(EndOf(b.declared, b.bytes + size))));
  }

  // ----- WINDOW_UPDATE, RST_STREAM, PING, GOAWAY -----

  /** A window takes an update exactly if it stays within 2^31 - 1; else the stream is reset, or the connection ends. */
  lemma UpdateMeans(adv: nat, c: Conn, id: nat, n: nat, d: Conn)
    requires 1 <= n <= 0x7fff_ffff && PeerDone(adv, c, PeerWindowUpdate(id, n), d)
    ensures if id == 0 then
              if c.flow + n <= 0x7fff_ffff then d == c.(flow := c.flow + n)
              else d.Failing() && (c.Failing() || d.goAwayCode == 3) && d.flow == c.flow && d.streams == c.streams
            else if id in c.streams then
              var st := c.streams[id];
              if st.window + n <= 0x7fff_ffff then d == c.(streams := c.streams[id := st.(window := st.window + n)])
              else d == c.(control := c.control + [Reset(id)], streams := c.streams[id := st.(resetQueued := true)])
            else if id > (if id % 2 == 1 then c.maxClient else c.maxPush) then
              d.Failing() && (c.Failing() || d.goAwayCode == 1) && d.flow == c.flow && d.streams == c.streams
            else d == c
  {
    hide HeadersDone, DataDone, SettingsDone, Conn.Ended;
    EndedMeans(c, FLOW_CONTROL_ERROR);
    EndedMeans(c, PROTOCOL_ERROR);
  }

  /** RST_STREAM closes its stream, drops its queue, and tells the reader of its body; on an idle stream it is an error. */
  lemma ResetMeans(adv: nat, c: Conn, id: nat, d: Conn)
    requires id != 0 && PeerDone(adv, c, PeerReset(id), d)
    ensures if id in c.streams then
              d == c.(streams := c.streams - {id}, queues := c.queues - {id},
                      bodies := if id in c.bodies && c.bodies[id].end.None? then c.bodies[id := c.bodies[id].(end := Some(Bad))]
                                else c.bodies)
            else if id > (if id % 2 == 1 then c.maxClient else c.maxPush) then
              d.Failing() && (c.Failing() || d.goAwayCode == 1) && d.streams == c.streams && d.queues == c.queues
            else d == c
  {
    if id in c.bodies {
      assert c.bodies[id := c.bodies[id]] == c.bodies;
    }
  }

  /** PING is answered once, unless the connection is failing; GOAWAY stops pushes and begins a shutdown. */
  lemma PingMeans(adv: nat, c: Conn, f: PeerFrame, d: Conn)
    requires (f.PeerPing? || f.PeerGoAway?) && PeerDone(adv, c, f, d)
    ensures f.PeerPing? ==> d == if f.ack || c.Failing() then c else c.(control := c.control + [PingAck])
    ensures f.PeerGoAway? ==>
              d == c.(inGoAway := true, pushEnabled := false, needGoAway := c.needGoAway || !c.inGoAway,
                      goAwayCode := if c.inGoAway then c.goAwayCode else 0)
  {
  }

  // ----- SETTINGS -----

  lemma {:induction false} Given(settings: seq<Setting>, i: nat, before: nat)
    requires i < |settings| && !HasDuplicates(settings)
    ensures ValueOf(settings, settings[i].id, before) == settings[i].val
  {
    var last, front := |settings| - 1, settings[..|settings| - 1];
    if i < last {
      assert settings[i].id != settings[last].id;
      forall a, b | 0 <= a < b < |front| ensures front[a].id != front[b].id {
        assert settings[a].id != settings[b].id;
      }
      Given(front, i, before);
    }
  }

  /** An acknowledgement of SETTINGS that were not sent is an error. */
  lemma AckMeans(adv: nat, c: Conn, settings: seq<Setting>, d: Conn)
    requires PeerDone(adv, c, PeerSettings(true, settings), d)
    ensures d.unacked == c.unacked - 1 && d.streams == c.streams && d.control == c.control
    ensures if c.unacked >= 1 then d.inGoAway == c.inGoAway && d.goAwayCode == c.goAwayCode
            else d.Failing() && (c.Failing() || d.goAwayCode == 1)
  {
  }

  /** SETTINGS that can all be taken are in force and to be acknowledged; every window moves with the initial size. */
  lemma SettingsMean(adv: nat, c: Conn, settings: seq<Setting>, d: Conn, i: nat)
    requires PeerDone(adv, c, PeerSettings(false, settings), d) && i < |settings|
    requires |settings| <= 100 && !HasDuplicates(settings) && forall x <- settings :: Takable(x, c)
    ensures d.needAck && d.inGoAway == c.inGoAway && d.goAwayCode == c.goAwayCode && d.control == c.control && d.queues == c.queues
    ensures var s := settings[i];
            && (s.id == 2 ==> d.pushEnabled == (s.val == 1))
            && (s.id == 3 ==> d.clientMaxStreams == s.val)
            && (s.id == 4 ==> d.initial == s.val)
            && (s.id == 5 ==> d.maxFrameSize == s.val)
    ensures d.streams.Keys == c.streams.Keys
    ensures forall id :: id in c.streams ==> d.streams[id].window == c.streams[id].window + d.initial - c.initial
  {
    hide ValueOf, HasDuplicates;
    Given(settings, i, c.initial);
    Given(settings, i, c.maxFrameSize);
    Given(settings, i, c.clientMaxStreams);
    Given(settings, i, if c.pushEnabled then 1 else 0);
    assert Takable(settings[i], c);
    forall id | id in c.streams ensures d.streams[id].window == c.streams[id].window + d.initial - c.initial {
      assert MovedBy(c.streams[id], d.streams[id], d.initial - c.initial);
    }
  }

  /** Too many settings, one twice, one out of its range or one too large for a window end the connection with an error. */
  lemma SettingsRefusedMeans(adv: nat, c: Conn, settings: seq<Setting>, d: Conn)
    requires PeerDone(adv, c, PeerSettings(false, settings), d)
    requires |settings| > 100 || HasDuplicates(settings) || exists s <- settings :: !Takable(s, c)
    ensures d.Failing() && d.streams.Keys == c.streams.Keys && d.control == c.control && d.needAck == c.needAck && d.flow == c.flow
  {
    hide HasDuplicates, Takable, ValueOf, SettingsRefused;
    if |settings| <= 100 && !HasDuplicates(settings) {
      var k: nat, c1 :| k < |settings| && SettingsRefused(c, settings, k, c1, d);
      RefusalMeans(c, settings, k, c1, d);
    }
  }

  lemma RefusalMeans(c: Conn, settings: seq<Setting>, k: nat, c1: Conn, d: Conn)
    requires k < |settings| && SettingsRefused(c, settings, k, c1, d)
    ensures d.Failing() && d.streams.Keys == c.streams.Keys && d.control == c.control && d.needAck == c.needAck && d.flow == c.flow
  {
    hide ValueOf, Takable, AllFit, HasDuplicates, Conn.Ended;
    if SettingError(settings[k]).Some? {
      EndedMeans(c1, SettingError(settings[k]).value);
    } else {
      EndedMeans(c1, FLOW_CONTROL_ERROR);
    }
  }

  lemma EndedMeans(c: Conn, code: nat)
    requires code != NO_ERROR
    ensures var d := c.Ended(code);
            && d.Failing() && d.goAwayCode == (if c.Failing() then c.goAwayCode else code)
            && d.control == c.control && d.needAck == c.needAck && d.flow == c.flow
  {
  }

  // ----- Writing -----

  /** What comes first: GOAWAY, the acknowledgement of SETTINGS, control frames, and only then the streams. */
  lemma TurnMeans(adv: nat, c: Conn, choice: nat, limit: nat, d: Conn)
    requires Next(adv, c, Schedule(choice, limit), d)
    ensures if c.writing.Some? then d == c
            else if c.needGoAway then d == c.(needGoAway := false, writing := Some(GoAwayFrame))
            else if c.needAck then d == c.(needAck := false, writing := Some(SettingsAck))
            else if c.inGoAway && c.goAwayCode != 0 then d == c
            else c.control != [] ==> d == c.(control := c.control[1..], writing := Some(c.control[0]))
  {
    hide Popped;
  }

  /** The streams have their turn. */
  predicate StreamsTurn(c: Conn) {
    c.writing.None? && !c.needGoAway && !c.needAck && !c.Failing() && c.control == []
  }

  /** DATA: as much as both windows, the frame size and the scheduler allow; the windows are debited, the rest stays first. */
  lemma DataTurnMeans(adv: nat, c: Conn, choice: nat, limit: nat, d: Conn)
    requires Next(adv, c, Schedule(choice, limit), d) && StreamsTurn(c) && choice in c.queues && c.queues[choice] != []
    requires c.queues[choice][0].Data? && c.queues[choice][0].size > 0
    ensures choice in c.streams && c.streams[choice].state != HalfClosedLocal
    ensures var st, f, rest := c.streams[choice], c.queues[choice][0], c.queues[choice][1..];
            if st.window <= 0 || c.flow <= 0 || c.maxFrameSize == 0 || limit == 0 then d == c
            else
              var n := c.flow - d.flow;
              && 0 < n <= f.size && n <= st.window && n <= c.flow && n <= c.maxFrameSize && n <= limit
              && n in {f.size, st.window as int, c.flow as int, c.maxFrameSize, limit}
              && d == c.(flow := c.flow - n, streams := c.streams[choice := st.(window := st.window - n)],
                         queues := c.queues[choice := if n == f.size then rest else [Data(choice, f.size - n, f.endStream)] + rest],
                         writing := Some(Data(choice, n, f.endStream && n == f.size)))
  {
    assert Popped(c, choice, limit, d);
    var f, rest := c.queues[choice][0], c.queues[choice][1..];
    var n := Sendable(c, choice, limit, f.size);
    if n == f.size {
      assert [] + rest == rest;
    }
  }

  /** Other frames leave their queue and are begun; a promise opens the next stream of the server, if the client still allows it. */
  lemma OtherTurnMeans(adv: nat, c: Conn, choice: nat, limit: nat, d: Conn)
    requires Next(adv, c, Schedule(choice, limit), d) && StreamsTurn(c) && choice in c.queues && c.queues[choice] != []
    requires !(c.queues[choice][0].Data? && c.queues[choice][0].size > 0) && c.maxPush % 2 == 0
    ensures choice in c.streams && c.streams[choice].state != HalfClosedLocal
    ensures var f, id, queues := c.queues[choice][0], c.maxPush + 2, c.queues[choice := c.queues[choice][1..]];
            if !f.PushPromise? then d == c.(queues := queues, writing := Some(f))
            else if !c.pushEnabled || |c.streams.Keys - Clients(c.streams.Keys)| >= c.clientMaxStreams then d == c.(queues := queues)
            else if id >= 0x8000_0000 then
              d == c.(queues := queues, inGoAway := true, needGoAway := !c.inGoAway, goAwayCode := 0)
            else
              d == c.(queues := queues, writing := Some(f), maxPush := id,
                      streams := c.streams[id := Stream(HalfClosedRemote, c.initial, false, false, false, 0, 0)])
  {
    hide Clients;
    assert Popped(c, choice, limit, d);
  }

  /** The end of a write: a stream that it ends is half closed and reset, or closed; a reset closes its stream. */
  lemma WroteMeans(adv: nat, c: Conn, d: Conn)
    requires Next(adv, c, Wrote, d) && c.writing.Some?
    ensures var f := c.writing.value;
            if (EndsStream(f) || f.Reset?) && f.id in c.streams then
              var id, st := f.id, c.streams[f.id];
              if !f.Reset? && st.state == Open then
                d == c.(writing := None, control := c.control + [Reset(id)],
                        streams := c.streams[id := st.(state := HalfClosedLocal, resetQueued := true)])
              else if f.Reset? || st.state == HalfClosedRemote then
                d == c.(writing := None, streams := c.streams - {id}, queues := c.queues - {id},
                        bodies := if id in c.bodies then c.bodies[id := Shut(c.bodies[id], Bad)] else c.bodies)
              else d == c.(writing := None)
            else d == c.(writing := None)
  {
    hide PeerDone, Scheduled, HandlerDone, PushDone, Shut, Conn.HalfClosed;
    assert d == WriteDone(c);
    var f := c.writing.value;
    if !f.Reset? && EndsStream(f) && f.id in c.streams && c.streams[f.id].state == Open {
      HalfClosedMeans(c.(writing := None), f.id);
    }
  }

  lemma HalfClosedMeans(c: Conn, id: nat)
    requires id in c.streams
    ensures c.HalfClosed(id) == c.(control := c.control + [Reset(id)],
                                   streams := c.streams[id := c.streams[id].(state := HalfClosedLocal, resetQueued := true)])
  {
    var st := c.streams[id];
    SetTwice(c.streams, id, st.(resetQueued := true), st.(state := HalfClosedLocal, resetQueued := true));
  }

  // ----- Handlers -----

  /** A frame of a handler waits at the end of its stream's queue; it is dropped if the stream is gone. */
  lemma HandlerMeans(adv: nat, c: Conn, f: Frame, d: Conn)
    requires Next(adv, c, HandlerFrame(f), d) && Tidy(c) && OnStream(f)
    ensures if f.id !in c.streams || (f.Continue? && c.streams[f.id].wroteHeaders) then d == c
            else
              var st, q := c.streams[f.id], if f.id in c.queues then c.queues[f.id] else [];
              d == c.(queues := c.queues[f.id := q + [f]],
                      streams := c.streams[f.id := st.(wroteHeaders := f.Headers? || st.wroteHeaders)])
  {
    if f.id in c.streams {
      var st := c.streams[f.id];
      assert st.(wroteHeaders := st.wroteHeaders) == st;
      assert c.streams[f.id := st] == c.streams;
    }
  }

  /** A handler resets its stream, or asks for a push; a body was read; a shutdown; an upgrade. */
  lemma LocalMeans(adv: nat, c: Conn, e: Event, d: Conn)
    requires Next(adv, c, e, d)
    ensures e.HandlerReset? && e.id in c.streams ==>
              d == c.(control := c.control + [Reset(e.id)], streams := c.streams[e.id := c.streams[e.id].(resetQueued := true)])
    ensures e.HandlerReset? && e.id !in c.streams ==> d == c.(control := c.control + [Reset(e.id)])
    ensures e.HandlerPush? ==>
              var q := (if e.parent in c.queues then c.queues[e.parent] else []) + [PushPromise(e.parent)];
              d == if e.parent in c.streams && c.streams[e.parent].state != HalfClosedLocal && c.pushEnabled
                   then c.(queues := c.queues[e.parent := q]) else c
    ensures e.BodyRead? ==> d == if e.low then c.(control := c.control + [ConnWindowUpdate]) else c
    ensures e.Shutdown? ==>
              d == c.(inGoAway := true, needGoAway := c.needGoAway || !c.inGoAway, goAwayCode := if c.inGoAway then c.goAwayCode else 0)
    ensures e.Upgrade? && adv >= 1 ==>
              d == if c.maxClient != 0 then c
                   else c.(maxClient := 1, streams := c.streams[1 := Stream(HalfClosedRemote, c.initial, false, false, false, 0, 0)])
  {
    hide PeerDone, HandlerDone, Scheduled, WriteDone;
  }
}
