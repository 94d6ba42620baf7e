/** http2/server.go: what every event keeps, and what therefore holds over whole runs of a connection. */
module ServerRuns {
  import opened Common
  import opened ServerState
  import opened ServerSteps

  // ----- What every event keeps -----

  /** Live streams are used, and those this side has ended are being reset. */
  ghost predicate Tidy(c: Conn) {
    && !IsClient(c.maxPush) && AllControl(c.control)
    && forall id :: id in c.streams ==>
         Used(id, c.maxClient, c.maxPush) && (c.streams[id].state == HalfClosedLocal ==> c.streams[id].resetQueued)
  }

  ghost predicate AllControl(control: seq<Frame>) {
    forall i :: 0 <= i < |control| ==> IsControl(control[i])
  }

  predicate EntryKept(st: Stream, st': Stream) {
    && (st.resetQueued ==> st'.resetQueued)
    && (st.state == HalfClosedLocal <==> st'.state == HalfClosedLocal)
  }

  ghost predicate NewStreams(c: Conn, d: Conn) {
    forall id :: id in d.streams && id !in c.streams ==>
      !Used(id, c.maxClient, c.maxPush) && Used(id, d.maxClient, d.maxPush) && d.streams[id].state != HalfClosedLocal
  }

  ghost predicate OldStreams(c: Conn, d: Conn, gone: set<nat>) {
    forall id :: id in c.streams && id !in gone ==> id in d.streams && EntryKept(c.streams[id], d.streams[id])
  }

  /** Streams do not go, except the given ones, and only unused ones come; a failure is not taken back. */
  ghost predicate Keeps(c: Conn, d: Conn, gone: set<nat>) {
    && OldStreams(c, d, gone) && NewStreams(c, d)
    && c.maxClient <= d.maxClient && c.maxPush <= d.maxPush && (IsClient(d.maxPush) ==> IsClient(c.maxPush))
    && (AllControl(c.control) ==> AllControl(d.control))
    && (c.inGoAway ==> d.inGoAway) && (c.Failing() ==> d.Failing() && d.goAwayCode == c.goAwayCode)
  }

  /** Keeps, by an event that neither begins nor ends a write. */
  ghost predicate Quiet(c: Conn, d: Conn) {
    Keeps(c, d, {}) && d.writing == c.writing
  }

  lemma QuietThen(c: Conn, m: Conn, d: Conn)
    requires Quiet(c, m) && Quiet(m, d)
    ensures Quiet(c, d)
  {
    forall id | id in d.streams && id !in c.streams
      ensures !Used(id, c.maxClient, c.maxPush) && Used(id, d.maxClient, d.maxPush) && d.streams[id].state != HalfClosedLocal
    {
      if id in m.streams {
        assert EntryKept(m.streams[id], d.streams[id]);
      }
    }
  }

  lemma EndedQuiet(c: Conn, code: nat)
    ensures Quiet(c, c.Ended(code))
  {
  }

  /** Nothing that matters here has changed. */
  lemma SameQuiet(c: Conn, d: Conn)
    requires d.streams == c.streams && d.maxClient == c.maxClient && d.maxPush == c.maxPush
    requires d.inGoAway == c.inGoAway && d.goAwayCode == c.goAwayCode && d.writing == c.writing
    requires AllControl(c.control) ==> AllControl(d.control)
    ensures Quiet(c, d)
  {
  }

  lemma WithQuiet(c: Conn, id: nat, st: Stream)
    requires id in c.streams && EntryKept(c.streams[id], st)
    ensures Quiet(c, c.With(id, st))
  {
  }

  lemma ResetQuiet(c: Conn, id: nat)
    ensures Quiet(c, c.ResetSent(id))
  {
    hide Quiet;
    SameQuiet(c, c.Queued(Reset(id)));
    if id in c.streams {
      var c1, st := c.Queued(Reset(id)), c.streams[id].(resetQueued := true);
      WithQuiet(c1, id, st);
      QuietThen(c, c1, c1.With(id, st));
    }
  }

  lemma RequestEndedQuiet(c: Conn, id: nat)
    requires id in c.streams && id in c.bodies && c.streams[id].state == Open
    ensures Quiet(c, c.RequestEnded(id))
  {
    hide Quiet;
    var c1 := c.With(id, c.streams[id].(state := HalfClosedRemote));
    WithQuiet(c, id, c.streams[id].(state := HalfClosedRemote));
    SameQuiet(c1, c.RequestEnded(id));
    QuietThen(c, c1, c.RequestEnded(id));
  }

  lemma OpenedQuiet(c: Conn, id: nat, st: Stream, body: Option<Body>)
    requires Tidy(c) && id != 0 && !Used(id, c.maxClient, c.maxPush) && st.state != HalfClosedLocal
    ensures Quiet(c, c.Opened(id, st, body))
  {
    hide WithBody;
  }

  lemma HeadersQuiet(adv: nat, c: Conn, id: nat, endStream: bool, bad: bool, selfDependent: bool, request: Option<int>, d: Conn)
    requires Tidy(c) && id != 0 && HeadersDone(adv, c, id, endStream, bad, selfDependent, request, d)
    ensures Quiet(c, d)
  {
    hide Quiet, Conn.ResetSent, Conn.Ended, Conn.Opened, Clients;
    SameQuiet(c, c);
    EndedQuiet(c, PROTOCOL_ERROR);
    if !c.inGoAway && IsClient(id) {
      if id in c.streams {
        TrailersQuiet(c, id, endStream, bad, d);
      } else if id > c.maxClient && c.ClientStreams() >= adv {
        RefusedQuiet(c, id);
      } else if id > c.maxClient {
        var reset := selfDependent || request.None?;
        var c1 := if reset then c.Queued(Reset(id)) else c;
        SameQuiet(c, c1);
        var st := Fresh(if endStream then HalfClosedRemote else Open, c.initial, if request.Some? then request.value else 0, reset);
        var body := if !reset && !endStream then Some(Body(st.declared, 0, None)) else None;
        OpenedQuiet(c1, id, st, body);
        QuietThen(c, c1, d);
      }
    }
  }

  lemma RefusedQuiet(c: Conn, id: nat)
    requires IsClient(id) && id !in c.streams && id > c.maxClient
    ensures Quiet(c, c.ResetSent(id).(maxClient := id))
  {
  }

  lemma TrailersQuiet(c: Conn, id: nat, endStream: bool, bad: bool, d: Conn)
    requires Tidy(c) && id in c.streams && TrailersDone(c, id, endStream, bad, d)
    ensures Quiet(c, d)
  {
    hide Quiet, Conn.ResetSent, Conn.RequestEnded;
    SameQuiet(c, c);
    ResetQuiet(c, id);
    var st := c.streams[id];
    if !st.resetQueued && st.state != HalfClosedRemote {
      if !endStream || bad {
        TrailerSeenQuiet(c.ResetSent(id), id);
        QuietThen(c, c.ResetSent(id), d);
      } else {
        RequestEndedQuiet(c, id);
        TrailerSeenQuiet(c.RequestEnded(id), id);
        QuietThen(c, c.RequestEnded(id), d);
      }
    }
  }

  lemma TrailerSeenQuiet(c: Conn, id: nat)
    ensures Quiet(c, c.TrailerSeen(id))
  {
    if id in c.streams {
      WithQuiet(c, id, c.streams[id].(gotTrailer := true));
    }
  }

  lemma RefundedQuiet(c: Conn, low: bool)
    ensures Quiet(c, c.Refunded(low))
  {
    SameQuiet(c, c.Refunded(low));
  }

  lemma DataQuiet(c: Conn, id: nat, length: nat, size: nat, endStream: bool, connQuota: bool, streamQuota: bool, low: bool, d: Conn)
    requires DataDone(c, id, length, size, endStream, connQuota, streamQuota, low, d)
    ensures Quiet(c, d)
  {
    hide Quiet, Conn.ResetSent, Conn.Ended, Conn.Refunded, DataReceived;
    SameQuiet(c, c);
    EndedQuiet(c, PROTOCOL_ERROR);
    if c.Receiving(id) {
      if id in c.bodies {
        ReceivedQuiet(c, id, length, size, endStream, connQuota, streamQuota, low);
      }
    } else {
      var c1 := c.Refunded(connQuota && low);
      RefundedQuiet(c, connQuota && low);
      ResetQuiet(c1, id);
      QuietThen(c, c1, c1.ResetSent(id));
    }
  }

  lemma ReceivedQuiet(c: Conn, id: nat, length: nat, size: nat, endStream: bool, connQuota: bool, streamQuota: bool, low: bool)
    requires id in c.bodies && c.Receiving(id)
    ensures Quiet(c, DataReceived(c, id, length, size, endStream, connQuota, streamQuota, low))
  {
    hide Quiet, Conn.ResetSent, Conn.Refunded;
    var st, b := c.streams[id], c.bodies[id];
    ResetQuiet(c, id);
    if st.declared >= 0 && st.bodyBytes + size > st.declared {
      var c1 := c.Refunded(connQuota && low);
      RefundedQuiet(c, connQuota && low);
      ResetQuiet(c1, id);
      QuietThen(c, c1, c1.ResetSent(id));
      var d := c1.ResetSent(id).(bodies := c.bodies[id := Shut(b, Bad)]);
      SameQuiet(c1.ResetSent(id), d);
      QuietThen(c, c1.ResetSent(id), d);
    } else if length == 0 || streamQuota {
      TakenQuiet(c, id, length, size, endStream);
    }
  }

  lemma TakenQuiet(c: Conn, id: nat, length: nat, size: nat, endStream: bool)
    requires id in c.bodies && c.Receiving(id)
    ensures var st, b := c.streams[id], c.bodies[id];
            var c1 := c.With(id, st.(bodyBytes := st.bodyBytes + size)).(bodies := c.bodies[id := b.(bytes := b.bytes + size)]);
            var c2 := c1.Refunded(length > size);
            id in c2.streams && id in c2.bodies && Quiet(c, if endStream then c2.RequestEnded(id) else c2)
  {
    hide Quiet, Conn.RequestEnded;
    var st, b := c.streams[id], c.bodies[id];
    var c0 := c.With(id, st.(bodyBytes := st.bodyBytes + size));
    var c1 := c0.(bodies := c.bodies[id := b.(bytes := b.bytes + size)]);
    var c2 := c1.Refunded(length > size);
    WithQuiet(c, id, st.(bodyBytes := st.bodyBytes + size));
    SameQuiet(c0, c2);
    QuietThen(c, c0, c2);
    if endStream {
      RequestEndedQuiet(c2, id);
      QuietThen(c, c2, c2.RequestEnded(id));
    }
  }

  lemma UpdateQuiet(c: Conn, id: nat, n: nat)
    requires n <= MAX_WINDOW
    ensures Quiet(c, UpdateDone(c, id, n))
  {
    hide Quiet, Conn.Ended, Conn.ResetSent, Conn.With;
    SameQuiet(c, c);
    EndedQuiet(c, FLOW_CONTROL_ERROR);
    EndedQuiet(c, PROTOCOL_ERROR);
    ResetQuiet(c, id);
    if id == 0 {
      if c.flow + n <= MAX_WINDOW {
        SameQuiet(c, c.(flow := c.flow + n));
      }
    } else if id in c.streams && c.streams[id].window + n <= MAX_WINDOW {
      WithQuiet(c, id, c.streams[id].(window := c.streams[id].window + n));
    }
  }

  /** Only windows have changed. */
  lemma WindowsQuiet(c: Conn, d: Conn)
    requires d.streams.Keys == c.streams.Keys
    requires forall id :: id in c.streams ==> d.streams[id] == c.streams[id].(window := d.streams[id].window)
    requires d.maxClient == c.maxClient && d.maxPush == c.maxPush && d.writing == c.writing && d.control == c.control
    requires c.inGoAway ==> d.inGoAway
    requires c.Failing() ==> d.Failing() && d.goAwayCode == c.goAwayCode
    ensures Quiet(c, d)
  {
  }

  lemma AppliedQuiet(c: Conn, settings: seq<Setting>, d: Conn)
    requires SettingsApplied(c, settings, d)
    ensures Quiet(c, d)
  {
    hide ValueOf, Quiet;
    forall id | id in c.streams ensures d.streams[id] == c.streams[id].(window := d.streams[id].window) {
      assert MovedBy(c.streams[id], d.streams[id], d.initial - c.initial);
    }
    WindowsQuiet(c, d);
  }

  lemma SettingsQuiet(c: Conn, ack: bool, settings: seq<Setting>, d: Conn)
    requires SettingsDone(c, ack, settings, d)
    ensures Quiet(c, d)
  {
    hide Quiet, SettingsApplied, Takable, Conn.Ended, HasDuplicates, WindowsSpoilt;
    EndedQuiet(c, PROTOCOL_ERROR);
    if ack {
      var c1 := c.(unacked := c.unacked - 1);
      SameQuiet(c, c1);
      EndedQuiet(c1, PROTOCOL_ERROR);
      QuietThen(c, c1, c1.Ended(PROTOCOL_ERROR));
    } else if |settings| <= 100 && !HasDuplicates(settings) {
      if forall s <- settings :: Takable(s, c) {
        var d1 := d.(needAck := c.needAck);
        AppliedQuiet(c, settings, d1);
        SameQuiet(d1, d);
        QuietThen(c, d1, d);
      } else {
        var k: nat, c1 :| k < |settings| && SettingsRefused(c, settings, k, c1, d);
        RefusalQuiet(c, settings, k, c1, d);
      }
    }
  }

  lemma RefusalQuiet(c: Conn, settings: seq<Setting>, k: nat, c1: Conn, d: Conn)
    requires k < |settings| && SettingsRefused(c, settings, k, c1, d)
    ensures Quiet(c, d)
  {
    hide Quiet, SettingsApplied, Takable, SettingError;
    AppliedQuiet(c, settings[..k], c1);
    if SettingError(settings[k]).Some? {
      EndedQuiet(c1, SettingError(settings[k]).value);
    } else {
      WindowsQuiet(c1, d);
    }
    QuietThen(c, c1, d);
  }

  lemma PeerQuiet(adv: nat, c: Conn, f: PeerFrame, d: Conn)
    requires Tidy(c) && PeerDone(adv, c, f, d) && !f.PeerReset?
    ensures Quiet(c, d)
  {
    hide Quiet, HeadersDone, DataDone, UpdateDone, SettingsDone, Conn.Ended, Conn.Queued;
    SameQuiet(c, c);
    match f {
      case PeerHeaders(id, endStream, bad, selfDependent, request) =>
        if id != 0 && (request.Some? ==> request.value >= -1) {
          HeadersQuiet(adv, c, id, endStream, bad, selfDependent, request, d);
        }
      case PeerData(id, length, size, endStream, connQuota, streamQuota, low) =>
        if size <= length {
          DataQuiet(c, id, length, size, endStream, connQuota, streamQuota, low, d);
        }
      case PeerWindowUpdate(id, n) =>
        if 1 <= n <= MAX_WINDOW {
          UpdateQuiet(c, id, n);
        }
      case PeerSettings(ack, settings) => SettingsQuiet(c, ack, settings, d);
      case PeerPing(ack) => PingQuiet(c);
      case PeerGoAway => GoAwayQuiet(c);
      case PeerError(code) => EndedQuiet(c, code);
    }
  }

  lemma PingQuiet(c: Conn)
    ensures Quiet(c, c.Queued(PingAck))
  {
  }

  lemma GoAwayQuiet(c: Conn)
    ensures Quiet(c, c.Ended(NO_ERROR).(pushEnabled := false))
  {
  }

  lemma HandlerQuiet(c: Conn, f: Frame)
    ensures Quiet(c, HandlerDone(c, f))
  {
    hide Quiet, Used;
    SameQuiet(c, c);
    if OnStream(f) {
      SameQuiet(c, c.Appended(f));
      if f.Headers? && f.id in c.streams {
        var c1 := c.With(f.id, c.streams[f.id].(wroteHeaders := true));
        WithQuiet(c, f.id, c.streams[f.id].(wroteHeaders := true));
        SameQuiet(c1, c1.Appended(f));
        QuietThen(c, c1, c1.Appended(f));
      }
    }
  }

  lemma LocalQuiet(adv: nat, c: Conn, e: Event, d: Conn)
    requires Tidy(c) && Next(adv, c, e, d) && !e.FromPeer? && !e.Schedule? && !e.Wrote?
    ensures Quiet(c, d)
  {
    hide Quiet, HandlerDone, Conn.ResetSent, Conn.Refunded, Conn.Ended, Conn.Opened, Used;
    SameQuiet(c, c);
    match e {
      case HandlerFrame(f) => HandlerQuiet(c, f);
      case HandlerReset(id) => ResetQuiet(c, id);
      case HandlerPush(parent) => SameQuiet(c, d);
      case BodyRead(low) => RefundedQuiet(c, low);
      case Shutdown => EndedQuiet(c, NO_ERROR);
      case Upgrade =>
        if c.maxClient == 0 && adv >= 1 {
          FirstUnused(c);
          OpenedQuiet(c, 1, Fresh(HalfClosedRemote, c.initial, 0, false), None);
        }
    }
  }

  lemma FirstUnused(c: Conn)
    requires c.maxClient == 0
    ensures !Used(1, c.maxClient, c.maxPush)
  {
  }

  // ----- Events that write -----

  /** Nothing that matters here has changed. */
  lemma SameKeeps(c: Conn, d: Conn, gone: set<nat>)
    requires d.streams == c.streams && d.maxClient == c.maxClient && d.maxPush == c.maxPush
    requires d.inGoAway == c.inGoAway && d.goAwayCode == c.goAwayCode && (AllControl(c.control) ==> AllControl(d.control))
    ensures Keeps(c, d, gone)
  {
  }

  lemma OneKeeps(c: Conn, d: Conn, id: nat, st: Stream)
    requires id in c.streams && EntryKept(c.streams[id], st) && d.streams == c.streams[id := st]
    requires d.maxClient == c.maxClient && d.maxPush == c.maxPush
    requires d.inGoAway == c.inGoAway && d.goAwayCode == c.goAwayCode && d.control == c.control
    ensures Keeps(c, d, {})
  {
  }

  lemma PoppedKeeps(c: Conn, id: nat, limit: nat, d: Conn)
    requires Tidy(c) && id in c.queues && c.queues[id] != [] && c.writing.None? && Popped(c, id, limit, d)
    ensures Keeps(c, d, {})
    ensures d.writing.Some? ==> OnStream(d.writing.value) && d.writing.value.id == id
  {
    hide Keeps, Promised, Tidy, AllControl, Sendable, Conn.With;
    var f, rest := c.queues[id][0], c.queues[id][1..];
    if f.Data? && f.size > 0 {
      DataPoppedKeeps(c, id, limit, d);
    } else if f.PushPromise? {
      QueueTidy(c, id, rest);
      PromisedKeeps(c.WithQueue(id, rest), f);
      QueueKeeps(c, id, rest, d);
    } else {
      SameKeeps(c, d, {});
    }
  }

  lemma DataPoppedKeeps(c: Conn, id: nat, limit: nat, d: Conn)
    requires id in c.queues && c.queues[id] != [] && c.writing.None? && Popped(c, id, limit, d)
    requires c.queues[id][0].Data? && c.queues[id][0].size > 0
    ensures Keeps(c, d, {})
    ensures d.writing.Some? ==> d.writing.value.Data? && d.writing.value.id == id
  {
    hide Keeps, Promised, AllControl;
    var n := Sendable(c, id, limit, c.queues[id][0].size);
    if n > 0 {
      OneKeeps(c, d, id, c.streams[id].(window := c.streams[id].window - n));
    } else {
      SameKeeps(c, d, {});
    }
  }

  lemma QueueKeeps(c: Conn, id: nat, q: seq<Frame>, d: Conn)
    requires Keeps(c.WithQueue(id, q), d, {})
    ensures Keeps(c, d, {})
  {
    hide AllControl, Used;
  }

  lemma QueueTidy(c: Conn, id: nat, q: seq<Frame>)
    requires Tidy(c)
    ensures Tidy(c.WithQueue(id, q))
  {
    hide AllControl, Used;
  }

  lemma PromisedKeeps(c: Conn, f: Frame)
    requires Tidy(c) && c.writing.None?
    ensures var d := Promised(c, f); Keeps(c, d, {}) && (d.writing.None? || d.writing == Some(f))
  {
    hide Keeps, Clients, Tidy, AllControl, Conn.Opened, Conn.Ended, Fresh;
    if !c.pushEnabled || |c.streams.Keys - Clients(c.streams.Keys)| >= c.clientMaxStreams {
      SameKeeps(c, c, {});
    } else if c.maxPush + 2 >= 0x8000_0000 {
      EndedQuiet(c, NO_ERROR);
    } else {
      FreshState(HalfClosedRemote, c.initial, 0, false);
      OpeningKeeps(c, c.maxPush + 2, Fresh(HalfClosedRemote, c.initial, 0, false), Some(f));
    }
  }

  lemma FreshState(state: StreamState, window: Int32, declared: int, reset: bool)
    ensures Fresh(state, window, declared, reset).state == state
  {
  }

  lemma OpeningKeeps(c: Conn, id: nat, st: Stream, writing: Option<Frame>)
    requires Tidy(c) && id == c.maxPush + 2 && st.state != HalfClosedLocal
    ensures Keeps(c, c.Opened(id, st, None).(writing := writing), {})
  {
    hide AllControl;
  }

  /** A frame on a stream is begun only while the stream is live and this side has not ended it, and never in a failure. */
  lemma ScheduledKeeps(c: Conn, choice: nat, limit: nat, d: Conn)
    requires Tidy(c) && Scheduled(c, choice, limit, d)
    ensures Keeps(c, d, {}) && (c.writing.Some? ==> d == c)
    ensures c.writing.None? && d.writing.Some? && OnStream(d.writing.value) ==>
              var id := d.writing.value.id;
              !c.Failing() && id in c.streams && c.streams[id].state != HalfClosedLocal
    ensures c.Failing() && c.writing.None? && d.writing.Some? ==> d.writing.value.GoAwayFrame? || d.writing.value.SettingsAck?
  {
    hide Keeps;
    if c.writing.None? && !c.needGoAway && !c.needAck && !c.Failing() && c.control == [] && choice in c.queues && c.queues[choice] != [] {
      PoppedKeeps(c, choice, limit, d);
    } else {
      SameKeeps(c, d, {});
    }
  }

  /** The streams that an event may end, here or altogether. */
  ghost function Gone(c: Conn, e: Event): (ids: set<nat>) {
    if e.FromPeer? && e.frame.PeerReset? then {e.frame.id}
    else if e.Wrote? && c.writing.Some? && (EndsStream(c.writing.value) || c.writing.value.Reset?) then {c.writing.value.id}
    else {}
  }

  /** All but one stream are as they were. */
  lemma AllButKeeps(c: Conn, d: Conn, id: nat)
    requires d.streams.Keys <= c.streams.Keys
    requires forall x :: x in c.streams && x != id ==> x in d.streams && d.streams[x] == c.streams[x]
    requires AllControl(c.control) ==> AllControl(d.control)
    requires d.maxClient == c.maxClient && d.maxPush == c.maxPush && d.inGoAway == c.inGoAway && d.goAwayCode == c.goAwayCode
    ensures Keeps(c, d, {id})
  {
  }

  /** This side has ended the stream, or it is closed. */
  ghost predicate EndedHere(d: Conn, id: nat) {
    id in d.streams ==> d.streams[id].state == HalfClosedLocal && d.streams[id].resetQueued
  }

  lemma HalfClosedKeeps(c: Conn, c1: Conn, id: nat)
    requires c1 == c.(writing := None) && id in c.streams
    ensures Keeps(c, c1.HalfClosed(id), {id}) && EndedHere(c1.HalfClosed(id), id)
  {
    hide Keeps;
    AllButKeeps(c, c1.HalfClosed(id), id);
  }

  lemma WithoutKeeps(c: Conn, c1: Conn, id: nat, writing: Option<Frame>)
    requires c1 == c.(writing := c1.writing)
    ensures Keeps(c, c1.Without(id).(writing := writing), {id}) && EndedHere(c1.Without(id), id)
  {
    hide Keeps;
    AllButKeeps(c, c1.Without(id).(writing := writing), id);
  }

  lemma WroteKeeps(c: Conn)
    requires Tidy(c)
    ensures Keeps(c, WriteDone(c), Gone(c, Wrote)) && WriteDone(c).writing.None?
    ensures forall id :: id in Gone(c, Wrote) ==> EndedHere(WriteDone(c), id)
  {
    hide Keeps, Conn.Without, Conn.HalfClosed;
    if c.writing.Some? {
      var f, c1 := c.writing.value, c.(writing := None);
      if f.Reset? && f.id in c.streams {
        WithoutKeeps(c, c, f.id, None);
      } else if EndsStream(f) && f.id in c.streams && c.streams[f.id].state == Open {
        HalfClosedKeeps(c, c1, f.id);
      } else if EndsStream(f) && f.id in c.streams && c.streams[f.id].state == HalfClosedRemote {
        WithoutKeeps(c, c1, f.id, None);
        assert c1.Without(f.id).(writing := None) == c1.Without(f.id);
      } else {
        SameKeeps(c, c1, Gone(c, Wrote));
      }
    } else {
      SameKeeps(c, c, {});
    }
  }

  // ----- Every event -----

  lemma QuietKeeps(c: Conn, d: Conn)
    requires Quiet(c, d)
    ensures Keeps(c, d, {}) && d.writing == c.writing
  {
  }

  lemma QuietStreams(c: Conn, d: Conn)
    requires Quiet(c, d)
    ensures d.writing == c.writing && c.streams.Keys <= d.streams.Keys
  {
  }

  lemma PeerResetKeeps(adv: nat, c: Conn, id: nat, d: Conn)
    requires Tidy(c) && PeerDone(adv, c, PeerReset(id), d)
    ensures Keeps(c, d, {id}) && EndedHere(d, id) && d.writing == c.writing
    ensures id != 0 ==> id !in d.streams && (Used(id, d.maxClient, d.maxPush) || d.Failing())
  {
    hide Keeps, Conn.Ended;
    EndedQuiet(c, PROTOCOL_ERROR);
    SameKeeps(c, c, {id});
    if id in c.streams && !c.IsIdle(id) {
      assert c.Without(id).(writing := c.writing) == c.Without(id);
      WithoutKeeps(c, c, id, c.writing);
    } else if id != 0 && c.IsIdle(id) {
      KeepsMore(c, d, id);
      EndedFails(c, PROTOCOL_ERROR);
    }
  }

  lemma KeepsMore(c: Conn, d: Conn, id: nat)
    requires Keeps(c, d, {})
    ensures Keeps(c, d, {id})
  {
  }

  lemma EndedFails(c: Conn, code: nat)
    requires code != NO_ERROR
    ensures c.Ended(code).Failing() && c.Ended(code).streams == c.streams
  {
  }

  lemma PeerResetStreams(adv: nat, c: Conn, id: nat, d: Conn)
    requires Tidy(c) && PeerDone(adv, c, PeerReset(id), d)
    ensures c.streams.Keys - d.streams.Keys == {id} * c.streams.Keys && d.writing == c.writing
  {
  }

  /** What any event keeps. */
  lemma NextKeeps(adv: nat, c: Conn, e: Event, d: Conn)
    requires Tidy(c) && Next(adv, c, e, d)
    ensures Keeps(c, d, Gone(c, e)) && (forall id :: id in Gone(c, e) ==> EndedHere(d, id))
    ensures d.writing == c.writing || (e.Schedule? && c.writing.None?) || (e.Wrote? && d.writing.None?)
  {
    hide Keeps, Tidy, EndedHere, PeerDone, WriteDone, Scheduled, HandlerDone, PushDone;
    match e {
      case FromPeer(f) =>
        if f.PeerReset? {
          PeerResetKeeps(adv, c, f.id, d);
        } else {
          PeerQuiet(adv, c, f, d);
          QuietKeeps(c, d);
        }
      case Schedule(choice, limit) => ScheduledKeeps(c, choice, limit, d);
      case Wrote => WroteKeeps(c);
      case _ =>
        LocalQuiet(adv, c, e, d);
        QuietKeeps(c, d);
    }
  }

  lemma NextTidy(adv: nat, c: Conn, e: Event, d: Conn)
    requires Tidy(c) && Next(adv, c, e, d)
    ensures Tidy(d)
  {
    hide Next, AllControl;
    NextKeeps(adv, c, e, d);
  }

  // ----- Whole runs -----

  lemma {:induction false} RunIsTidy(adv: nat, events: seq<Event>, h: seq<Conn>, i: nat)
    requires IsRun(adv, events, h) && i < |h|
    ensures Tidy(h[i])
  {
    hide Next, Tidy;
    if i == 0 {
      StartIsTidy();
    } else {
      RunIsTidy(adv, events, h, i - 1);
      NextTidy(adv, h[i - 1], events[i - 1], h[i]);
    }
  }

  lemma StartIsTidy()
    ensures Tidy(Start())
  {
  }

  /** The frame that an event begins to write. */
  function Begun(c: Conn, d: Conn): (f: Option<Frame>) {
    if c.writing.None? then d.writing else None
  }

  /** A stream on which nothing more is to be written: it is used, and is closed, ended here, or being ended. */
  ghost predicate Over(c: Conn, id: nat) {
    && Used(id, c.maxClient, c.maxPush)
    && (id !in c.streams || c.streams[id].state == HalfClosedLocal
        || (c.writing.Some? && EndsStream(c.writing.value) && c.writing.value.id == id))
  }

  lemma OverNext(adv: nat, c: Conn, e: Event, d: Conn, id: nat)
    requires Tidy(c) && Next(adv, c, e, d) && Over(c, id)
    ensures Over(d, id)
    ensures var f := Begun(c, d); f.Some? && OnStream(f.value) ==> f.value.id != id
  {
    hide Next, Scheduled, AllControl;
    NextKeeps(adv, c, e, d);
    if e.Schedule? {
      NextIsScheduled(adv, c, e, d);
      ScheduledKeeps(c, e.choice, e.limit, d);
    }
  }

  lemma NextIsScheduled(adv: nat, c: Conn, e: Event, d: Conn)
    requires Next(adv, c, e, d) && e.Schedule?
    ensures Scheduled(c, e.choice, e.limit, d)
  {
  }

  lemma {:induction false} OverStays(adv: nat, events: seq<Event>, h: seq<Conn>, i: nat, j: nat, id: nat)
    requires IsRun(adv, events, h) && i <= j < |h| && Over(h[i], id)
    ensures Over(h[j], id)
    decreases j - i
  {
    hide Next, Over;
    if i < j {
      OverStays(adv, events, h, i, j - 1, id);
      RunIsTidy(adv, events, h, j - 1);
      OverNext(adv, h[j - 1], events[j - 1], h[j], id);
    }
  }

  /** Once a frame with END_STREAM is begun, no other frame is ever begun on its stream. */
  lemma EndIsLast(adv: nat, events: seq<Event>, h: seq<Conn>, i: nat, j: nat)
    requires IsRun(adv, events, h) && i < j < |events|
    requires var f := Begun(h[i], h[i + 1]); f.Some? && EndsStream(f.value)
    ensures var f, g := Begun(h[i], h[i + 1]), Begun(h[j], h[j + 1]);
            g.Some? && OnStream(g.value) ==> g.value.id != f.value.id
  {
    hide Next, Tidy;
    var id := h[i + 1].writing.value.id;
    RunIsTidy(adv, events, h, i);
    BegunIsUsed(adv, h[i], events[i], h[i + 1]);
    OverStays(adv, events, h, i + 1, j, id);
    RunIsTidy(adv, events, h, j);
    OverNext(adv, h[j], events[j], h[j + 1], id);
  }

  lemma BegunIsUsed(adv: nat, c: Conn, e: Event, d: Conn)
    requires Tidy(c) && Next(adv, c, e, d) && Begun(c, d).Some? && OnStream(d.writing.value)
    ensures var id := d.writing.value.id;
            && Used(id, c.maxClient, c.maxPush) && Used(id, d.maxClient, d.maxPush)
            && id in c.streams && c.streams[id].state != HalfClosedLocal && !c.Failing()
  {
    hide Next, Scheduled, AllControl;
    NextKeeps(adv, c, e, d);
    if e.Schedule? {
      NextIsScheduled(adv, c, e, d);
      ScheduledKeeps(c, e.choice, e.limit, d);
    }
  }

  lemma {:induction false} FailureStays(adv: nat, events: seq<Event>, h: seq<Conn>, i: nat, j: nat)
    requires IsRun(adv, events, h) && i <= j < |h| && h[i].Failing()
    ensures h[j].Failing() && h[j].goAwayCode == h[i].goAwayCode
    decreases j - i
  {
    hide Next, Tidy;
    if i < j {
      FailureStays(adv, events, h, i, j - 1);
      RunIsTidy(adv, events, h, j - 1);
      NextKeeps(adv, h[j - 1], events[j - 1], h[j]);
    }
  }

  /** After an error nothing is begun but its GOAWAY and the acknowledgement of SETTINGS, and the error stays. */
  lemma FailureIsFinal(adv: nat, events: seq<Event>, h: seq<Conn>, i: nat, j: nat)
    requires IsRun(adv, events, h) && i <= j < |events| && h[i].Failing()
    ensures h[j].Failing() && h[j].goAwayCode == h[i].goAwayCode
    ensures var f := Begun(h[j], h[j + 1]); f.Some? ==> f.value.GoAwayFrame? || f.value.SettingsAck?
  {
    hide Next, Tidy, Scheduled;
    FailureStays(adv, events, h, i, j);
    RunIsTidy(adv, events, h, j);
    FailingSendsNothing(adv, h[j], events[j], h[j + 1]);
  }

  lemma FailingSendsNothing(adv: nat, c: Conn, e: Event, d: Conn)
    requires Tidy(c) && Next(adv, c, e, d) && c.Failing()
    ensures var f := Begun(c, d); f.Some? ==> f.value.GoAwayFrame? || f.value.SettingsAck?
  {
    hide Next, Tidy, Scheduled;
    NextKeeps(adv, c, e, d);
    if e.Schedule? {
      NextIsScheduled(adv, c, e, d);
      ScheduledKeeps(c, e.choice, e.limit, d);
    }
  }

  /** After RST_STREAM from the peer its stream is not live, and no frame is ever begun on it. */
  lemma ResetIsFinal(adv: nat, events: seq<Event>, h: seq<Conn>, i: nat, j: nat, id: nat)
    requires IsRun(adv, events, h) && i < j < |events| && events[i] == FromPeer(PeerReset(id)) && id != 0
    ensures id !in h[i + 1].streams
    ensures var f := Begun(h[j], h[j + 1]); f.Some? && OnStream(f.value) ==> f.value.id != id
  {
    hide PeerDone, Tidy;
    RunIsTidy(adv, events, h, i);
    assert Next(adv, h[i], events[i], h[i + 1]);
    PeerResetKeeps(adv, h[i], id, h[i + 1]);
    if h[i + 1].Failing() {
      FailureIsFinal(adv, events, h, i + 1, j);
    } else {
      OverStays(adv, events, h, i + 1, j, id);
      RunIsTidy(adv, events, h, j);
      OverNext(adv, h[j], events[j], h[j + 1], id);
    }
  }

  lemma {:induction false} UsedStays(adv: nat, events: seq<Event>, h: seq<Conn>, i: nat, j: nat)
    requires IsRun(adv, events, h) && i <= j < |h|
    ensures h[i].maxClient <= h[j].maxClient && h[i].maxPush <= h[j].maxPush
    decreases j - i
  {
    hide Next, Tidy;
    if i < j {
      UsedStays(adv, events, h, i, j - 1);
      RunIsTidy(adv, events, h, j - 1);
      NextKeeps(adv, h[j - 1], events[j - 1], h[j]);
    }
  }

  /** Streams of each side open in the order of their IDs: a stream that opens is newer than all that were ever live. */
  lemma StreamsRise(adv: nat, events: seq<Event>, h: seq<Conn>, i: nat, j: nat, older: nat, newer: nat)
    requires IsRun(adv, events, h) && i <= j < |events| && older in h[i].streams
    requires Opens(h[j], h[j + 1], newer) && IsClient(older) == IsClient(newer)
    ensures older < newer
  {
    hide Next;
    RunIsTidy(adv, events, h, i);
    UsedStays(adv, events, h, i, j);
    RunIsTidy(adv, events, h, j);
    NextKeeps(adv, h[j], events[j], h[j + 1]);
  }

  // ----- The same, of all times of a run at once -----

  /** No frame is begun on a stream after one with END_STREAM. */
  ghost predicate EndsAreLast(h: seq<Conn>) {
    forall i, j :: 0 <= i < j < |h| - 1 ==>
      var f, g := Begun(h[i], h[i + 1]), Begun(h[j], h[j + 1]);
      f.Some? && EndsStream(f.value) && g.Some? && OnStream(g.value) ==> g.value.id != f.value.id
  }

  /** A stream that the peer resets is not live, and no frame is begun on it any more. */
  ghost predicate ResetsAreFinal(events: seq<Event>, h: seq<Conn>)
    requires |h| == |events| + 1
  {
    forall i, id :: 0 <= i < |events| && events[i] == FromPeer(PeerReset(id)) && id != 0 ==>
      && id !in h[i + 1].streams
      && forall j :: i < j < |events| ==> var f := Begun(h[j], h[j + 1]); f.Some? && OnStream(f.value) ==> f.value.id != id
  }

  /** An error stays, and after it only GOAWAY and the acknowledgement of SETTINGS are begun. */
  ghost predicate FailuresAreFinal(h: seq<Conn>) {
    forall i, j :: 0 <= i <= j < |h| - 1 && h[i].Failing() ==>
      && h[j].Failing() && h[j].goAwayCode == h[i].goAwayCode
      && var f := Begun(h[j], h[j + 1]); f.Some? ==> f.value.GoAwayFrame? || f.value.SettingsAck?
  }

  /** A stream that opens is newer than all of its side that were ever live. */
  ghost predicate StreamsAreNewer(h: seq<Conn>) {
    forall i, j, older, newer :: 0 <= i <= j < |h| - 1 && older in h[i].streams && Opens(h[j], h[j + 1], newer) ==>
      IsClient(older) == IsClient(newer) ==> older < newer
  }

  predicate Opens(c: Conn, d: Conn, id: nat) {
    id in d.streams && id !in c.streams
  }

  lemma RunsAreSafe(adv: nat, events: seq<Event>, h: seq<Conn>)
    requires IsRun(adv, events, h)
    ensures EndsAreLast(h) && ResetsAreFinal(events, h) && FailuresAreFinal(h) && StreamsAreNewer(h)
  {
    hide IsRun, Begun, Conn.Failing, IsClient;
    assert |h| == |events| + 1 by {
      RunLength(adv, events, h);
    }
    EndsLast(adv, events, h);
    ResetsFinal(adv, events, h);
    FailuresFinal(adv, events, h);
    StreamsNewer(adv, events, h);
  }

  lemma RunLength(adv: nat, events: seq<Event>, h: seq<Conn>)
    requires IsRun(adv, events, h)
    ensures |h| == |events| + 1
  {
    hide Next;
  }

  lemma EndsLast(adv: nat, events: seq<Event>, h: seq<Conn>)
    requires IsRun(adv, events, h) && |h| == |events| + 1
    ensures EndsAreLast(h)
  {
    hide IsRun;
    forall i, j | 0 <= i < j < |h| - 1 && Begun(h[i], h[i + 1]).Some? && EndsStream(Begun(h[i], h[i + 1]).value)
      ensures var f, g := Begun(h[i], h[i + 1]), Begun(h[j], h[j + 1]);
              g.Some? && OnStream(g.value) ==> g.value.id != f.value.id
    {
      EndIsLast(adv, events, h, i, j);
    }
  }

  lemma ResetsFinal(adv: nat, events: seq<Event>, h: seq<Conn>)
    requires IsRun(adv, events, h) && |h| == |events| + 1
    ensures ResetsAreFinal(events, h)
  {
    hide IsRun;
    forall i, id | 0 <= i < |events| && events[i] == FromPeer(PeerReset(id)) && id != 0
      ensures id !in h[i + 1].streams
      ensures forall j :: i < j < |events| ==> var f := Begun(h[j], h[j + 1]); f.Some? && OnStream(f.value) ==> f.value.id != id
    {
      ResetCloses(adv, events, h, i, id);
      forall j | i < j < |events|
        ensures var f := Begun(h[j], h[j + 1]); f.Some? && OnStream(f.value) ==> f.value.id != id
      {
        ResetIsFinal(adv, events, h, i, j, id);
      }
    }
  }

  lemma ResetCloses(adv: nat, events: seq<Event>, h: seq<Conn>, i: nat, id: nat)
    requires IsRun(adv, events, h) && i < |events| && events[i] == FromPeer(PeerReset(id)) && id != 0
    ensures id !in h[i + 1].streams
  {
    hide PeerDone, Tidy;
    RunIsTidy(adv, events, h, i);
    assert Next(adv, h[i], events[i], h[i + 1]);
    PeerResetKeeps(adv, h[i], id, h[i + 1]);
  }

  lemma FailuresFinal(adv: nat, events: seq<Event>, h: seq<Conn>)
    requires IsRun(adv, events, h) && |h| == |events| + 1
    ensures FailuresAreFinal(h)
  {
    hide IsRun;
    forall i, j | 0 <= i <= j < |h| - 1 && h[i].Failing()
      ensures h[j].Failing() && h[j].goAwayCode == h[i].goAwayCode
      ensures var f := Begun(h[j], h[j + 1]); f.Some? ==> f.value.GoAwayFrame? || f.value.SettingsAck?
    {
      FailureIsFinal(adv, events, h, i, j);
    }
  }

  lemma StreamsNewer(adv: nat, events: seq<Event>, h: seq<Conn>)
    requires IsRun(adv, events, h) && |h| == |events| + 1
    ensures StreamsAreNewer(h)
  {
    hide IsRun, Opens, IsClient;
    forall i, j, older, newer | 0 <= i <= j < |h| - 1 && older in h[i].streams && Opens(h[j], h[j + 1], newer)
                                && IsClient(older) == IsClient(newer)
      ensures older < newer
    {
      StreamsRise(adv, events, h, i, j, older, newer);
    }
  }
}
