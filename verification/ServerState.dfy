/** http2/server.go: what holds of a connection's stream table, queues, request bodies and windows in every state. */
module ServerState {
  import opened Common
  import opened FlowControl

  const MAX_WINDOW := 0x7fff_ffff
  const CONN_WINDOW := 65535
  type Window = n: nat | n <= MAX_WINDOW
  const NO_ERROR := 0

  datatype StreamState = Open | HalfClosedLocal | HalfClosedRemote

  /** An entry of the stream table; idle and closed streams have none. declared is -1 if there is no Content-Length. */
  datatype Stream = Stream(state: StreamState, window: Int32, resetQueued: bool, gotTrailer: bool, wroteHeaders: bool,
                           declared: int, bodyBytes: nat)

  /** How the reader of a request body learns that it is over. */
  datatype BodyEnd = Eof | Bad

  /** A request body, which may outlive its stream: the bytes it has accepted and its closing error. */
  datatype Body = Body(declared: int, bytes: nat, end: Option<BodyEnd>)

  datatype Frame =
    | Settings | PingAck | ConnWindowUpdate | Reset(id: nat)
    | Headers(id: nat, endStream: bool) | Data(id: nat, size: nat, endStream: bool)
    | Continue(id: nat) | WindowUpdate(id: nat) | PushPromise(id: nat)
    | GoAwayFrame | SettingsAck | Flush

  /** Frames that the scheduler keeps without a stream. */
  predicate IsControl(f: Frame) {
    f.Settings? || f.PingAck? || f.ConnWindowUpdate? || f.Reset?
  }

  /** Frames that handlers and the connection write on a stream. */
  predicate OnStream(f: Frame) {
    f.Headers? || f.Data? || f.Continue? || f.WindowUpdate? || f.PushPromise?
  }

  predicate EndsStream(f: Frame) {
    (f.Headers? || f.Data?) && f.endStream
  }

  // ----- The stream table -----

  predicate IsClient(id: nat) {
    id % 2 == 1
  }

  /** The first use of an ID closes the idle streams of the same side below it. */
  predicate Used(id: nat, maxClient: nat, maxPush: nat) {
    id != 0 && id <= if IsClient(id) then maxClient else maxPush
  }

  ghost predicate AllUsed(ids: set<nat>, maxClient: nat, maxPush: nat) {
    forall id :: id in ids ==> Used(id, maxClient, maxPush)
  }

  ghost function Clients(ids: set<nat>): (r: set<nat>) {
    set id | id in ids && IsClient(id)
  }

  ghost predicate TableOk(ids: set<nat>, closed: set<nat>, maxClient: nat, maxPush: nat,
                          clients: nat, pushed: nat, advertised: nat) {
    && (maxClient == 0 || IsClient(maxClient)) && !IsClient(maxPush)
    && (forall id :: id in ids ==> Used(id, maxClient, maxPush) && id !in closed)
    && (forall id :: id in closed ==> Used(id, maxClient, maxPush))
    && clients == |Clients(ids)| && pushed == |ids - Clients(ids)|
    && clients <= advertised
  }

  lemma TableOpened(ids: set<nat>, closed: set<nat>, maxClient: nat, maxPush: nat, clients: nat, pushed: nat,
                    advertised: nat, id: nat)
    requires TableOk(ids, closed, maxClient, maxPush, clients, pushed, advertised)
    requires !Used(id, maxClient, maxPush) && id != 0
    requires IsClient(id) ==> clients < advertised
    ensures id !in ids && id !in closed
    ensures TableOk(ids + {id}, closed, if IsClient(id) then id else maxClient, if IsClient(id) then maxPush else id,
                    if IsClient(id) then clients + 1 else clients, if IsClient(id) then pushed else pushed + 1, advertised)
  {
    CountWith(ids, id);
  }

  lemma CountWith(ids: set<nat>, id: nat)
    requires id !in ids
    ensures |Clients(ids + {id})| == |Clients(ids)| + if IsClient(id) then 1 else 0
    ensures |ids + {id} - Clients(ids + {id})| == |ids - Clients(ids)| + if IsClient(id) then 0 else 1
  {
    hide IsClient;
    if IsClient(id) {
      assert Clients(ids + {id}) == Clients(ids) + {id};
      assert ids + {id} - Clients(ids + {id}) == ids - Clients(ids);
    } else {
      assert Clients(ids + {id}) == Clients(ids);
      assert ids + {id} - Clients(ids + {id}) == ids - Clients(ids) + {id};
    }
  }

  lemma TableClosed(ids: set<nat>, closed: set<nat>, maxClient: nat, maxPush: nat, clients: nat, pushed: nat,
                    advertised: nat, id: nat)
    requires TableOk(ids, closed, maxClient, maxPush, clients, pushed, advertised) && id in ids
    ensures if IsClient(id) then clients > 0 else pushed > 0
    ensures TableOk(ids - {id}, closed + {id}, maxClient, maxPush,
                    if IsClient(id) then clients - 1 else clients, if IsClient(id) then pushed else pushed - 1, advertised)
  {
    hide Used;
    CountWithout(ids, id);
  }

  lemma CountWithout(ids: set<nat>, id: nat)
    requires id in ids
    ensures |Clients(ids - {id})| == |Clients(ids)| - if IsClient(id) then 1 else 0
    ensures |ids - {id} - Clients(ids - {id})| == |ids - Clients(ids)| - if IsClient(id) then 0 else 1
  {
    hide IsClient;
    var clients := Clients(ids);
    var others := ids - clients;
    assert Clients(ids - {id}) == clients - {id};
    assert ids - {id} - (clients - {id}) == others - {id};
    if IsClient(id) {
      assert id in clients && others - {id} == others;
    } else {
      assert id in others && clients - {id} == clients;
    }
  }

  // ----- The queues -----

  ghost predicate QueuesOk(ids: set<nat>, control: seq<Frame>, queues: map<nat, seq<Frame>>, queued: int) {
    && queued == |control|
    && (forall i :: 0 <= i < |control| ==> IsControl(control[i]))
    && (forall id :: id in queues ==> id in ids)
    && (forall id, i :: id in queues && 0 <= i < |queues[id]| ==> OnStream(queues[id][i]) && queues[id][i].id == id)
  }

  /** A RST_STREAM for the stream waits in the control queue or is being written. */
  predicate ResetPending(id: nat, control: seq<Frame>, writing: Option<Frame>) {
    Reset(id) in control || writing == Some(Reset(id))
  }

  // ----- Request bodies -----

  /** No more than was declared, and an end of file only for all of it. */
  predicate BodyOk(b: Body) {
    && (b.declared >= 0 ==> b.bytes <= b.declared)
    && (b.end == Some(Eof) ==> b.declared < 0 || b.bytes == b.declared)
  }

  ghost predicate BodiesOk(bodies: map<nat, Body>) {
    forall id :: id in bodies ==> BodyOk(bodies[id])
  }

  /** A stream that can still receive has a body that can still be written, with the same counts. */
  predicate StreamBodyOk(st: Stream, id: nat, bodies: map<nat, Body>) {
    && (id in bodies ==> bodies[id].declared == st.declared && bodies[id].bytes == st.bodyBytes)
    && (st.state == Open && !st.resetQueued ==> id in bodies && bodies[id].end.None? && !st.gotTrailer)
  }

  // ----- Windows -----

  /** A DATA frame that was sent, with the limit of its time. */
  datatype Sent = Sent(id: nat, n: nat, limit: nat)

  /** A WINDOW_UPDATE that was accepted; the connection's have ID 0. */
  datatype Update = Update(id: nat, n: nat)

  /** What is logged when the frame being written changes: a DATA frame with bytes that is begun. */
  function Logged(before: Option<Frame>, after: Option<Frame>, limit: nat): (log: seq<Sent>) {
    if before.None? && after.Some? && after.value.Data? && after.value.size > 0
    then [Sent(after.value.id, after.value.size, limit)] else []
  }

  function TotalSent(sent: seq<Sent>): (n: nat) {
    if sent == [] then 0 else TotalSent(sent[..|sent| - 1]) + sent[|sent| - 1].n
  }

  function SentOn(sent: seq<Sent>, id: nat): (n: nat) {
    if sent == [] then 0
    else SentOn(sent[..|sent| - 1], id) + if sent[|sent| - 1].id == id then sent[|sent| - 1].n else 0
  }

  function Granted(updates: seq<Update>, id: nat): (n: nat) {
    if updates == [] then 0
    else Granted(updates[..|updates| - 1], id) + if updates[|updates| - 1].id == id then updates[|updates| - 1].n else 0
  }

  lemma {:induction false} NothingSent(sent: seq<Sent>, id: nat)
    requires forall i :: 0 <= i < |sent| ==> sent[i].id != id
    ensures SentOn(sent, id) == 0
  {
    if sent != [] {
      NothingSent(sent[..|sent| - 1], id);
    }
  }

  lemma {:induction false} NothingGranted(updates: seq<Update>, id: nat)
    requires forall i :: 0 <= i < |updates| ==> updates[i].id != id
    ensures Granted(updates, id) == 0
  {
    if updates != [] {
      NothingGranted(updates[..|updates| - 1], id);
    }
  }

  /** The window of a stream is what the peer allows and has not been used; it can be negative, but not by more than it shrank. */
  predicate WindowOk(window: Int32, id: nat, initial: nat, sent: seq<Sent>, updates: seq<Update>) {
    && window == initial + Granted(updates, id) - SentOn(sent, id)
    && window >= initial - MAX_WINDOW
  }

  /** The connection's window, which all streams draw on, is never negative. */
  predicate ConnWindowOk(window: Int32, sent: seq<Sent>, updates: seq<Update>) {
    0 <= window == CONN_WINDOW + Granted(updates, 0) - TotalSent(sent)
  }

  /** No DATA frame was longer than the peer's limit when it was sent, and every entry is of a stream that was used. */
  ghost predicate HistoryOk(sent: seq<Sent>, updates: seq<Update>, maxClient: nat, maxPush: nat) {
    && (forall i :: 0 <= i < |sent| ==> sent[i].n <= sent[i].limit && Used(sent[i].id, maxClient, maxPush))
    && (forall i :: 0 <= i < |updates| ==> updates[i].id == 0 || Used(updates[i].id, maxClient, maxPush))
  }

  // ----- The entries of the table -----

  /** What the entries of the stream table are held against. */
  datatype Context = Context(control: seq<Frame>, writing: Option<Frame>, bodies: map<nat, Body>,
                             initial: nat, sent: seq<Sent>, updates: seq<Update>, spoilt: bool)

  /**
   * A stream marked as being reset has a reset on the way, and every stream that has sent END_STREAM is so marked.
   * Its body and window are right; after a settings change that failed half way, windows are no longer exact, but then
   * the connection ends with an error.
   */
  ghost predicate EntryOk(id: nat, st: Stream, c: Context) {
    && (st.resetQueued ==> ResetPending(id, c.control, c.writing))
    && (st.state == HalfClosedLocal ==> st.resetQueued)
    && StreamBodyOk(st, id, c.bodies)
    && (!c.spoilt ==> WindowOk(st.window, id, c.initial, c.sent, c.updates))
  }

  ghost predicate EntriesOk(streams: map<nat, Stream>, c: Context) {
    forall id :: id in streams ==> EntryOk(id, streams[id], c)
  }

  /** The other entries do not notice a change of one, if the context changes only for it. */
  lemma EntryChanged(streams: map<nat, Stream>, c: Context, id: nat, st: Stream, c': Context)
    requires EntriesOk(streams, c) && EntryOk(id, st, c')
    requires forall other :: other in streams && other != id && EntryOk(other, streams[other], c)
               ==> EntryOk(other, streams[other], c')
    ensures EntriesOk(streams[id := st], c')
  {
  }

  /** More control frames. */
  lemma ControlQueued(streams: map<nat, Stream>, c: Context, f: Frame)
    requires EntriesOk(streams, c)
    ensures EntriesOk(streams, c.(control := c.control + [f]))
  {
    hide StreamBodyOk, WindowOk;
  }

  /** A control frame on its way from the queue to the wire. */
  lemma ControlStarted(streams: map<nat, Stream>, c: Context)
    requires EntriesOk(streams, c) && c.control != [] && c.writing.None?
    ensures EntriesOk(streams, c.(control := c.control[1..], writing := Some(c.control[0])))
  {
    hide StreamBodyOk, WindowOk;
    forall id | id in streams
      ensures EntryOk(id, streams[id], c.(control := c.control[1..], writing := Some(c.control[0])))
    {
      if Reset(id) in c.control {
        assert c.control == [c.control[0]] + c.control[1..];
      }
    }
  }

  /** A frame that is not a reset on its way to the wire, or arrived there. */
  lemma OtherWritten(streams: map<nat, Stream>, c: Context, writing: Option<Frame>)
    requires EntriesOk(streams, c)
    requires c.writing.Some? && c.writing.value.Reset? ==> c.writing.value.id !in streams
    ensures EntriesOk(streams, c.(writing := writing))
  {
    hide StreamBodyOk, WindowOk;
  }

  /** A stream less. */
  lemma EntryRemoved(streams: map<nat, Stream>, c: Context, id: nat)
    requires EntriesOk(streams, c)
    ensures EntriesOk(streams - {id}, c)
  {
  }

  /** Another body for one stream. */
  lemma BodyChanged(streams: map<nat, Stream>, c: Context, id: nat, st: Stream, b: Body)
    requires EntriesOk(streams, c) && EntryOk(id, st, c.(bodies := c.bodies[id := b]))
    ensures EntriesOk(streams[id := st], c.(bodies := c.bodies[id := b]))
  {
    hide WindowOk, ResetPending;
    var c' := c.(bodies := c.bodies[id := b]);
    forall other | other in streams && other != id && EntryOk(other, streams[other], c)
      ensures EntryOk(other, streams[other], c')
    {
    }
    EntryChanged(streams, c, id, st, c');
  }

  /** More DATA sent on one stream. */
  lemma DataSent(streams: map<nat, Stream>, c: Context, id: nat, n: nat, limit: nat)
    requires EntriesOk(streams, c) && id in streams && n <= streams[id].window && c.initial <= MAX_WINDOW
    ensures var st := streams[id].(window := streams[id].window - n);
            EntriesOk(streams[id := st], c.(sent := c.sent + [Sent(id, n, limit)]))
  {
    hide ResetPending;
    var sent' := c.sent + [Sent(id, n, limit)];
    assert sent'[..|sent'| - 1] == c.sent;
    var c' := c.(sent := sent');
    forall other | other in streams && other != id && EntryOk(other, streams[other], c)
      ensures EntryOk(other, streams[other], c')
    {
    }
    EntryChanged(streams, c, id, streams[id].(window := streams[id].window - n), c');
  }

  /** An update accepted on one stream. */
  lemma WindowGranted(streams: map<nat, Stream>, c: Context, id: nat, n: nat)
    requires EntriesOk(streams, c) && id in streams && InInt32(streams[id].window + n)
    ensures var st := streams[id].(window := streams[id].window + n);
            EntriesOk(streams[id := st], c.(updates := c.updates + [Update(id, n)]))
  {
    hide ResetPending;
    var updates' := c.updates + [Update(id, n)];
    assert updates'[..|updates'| - 1] == c.updates;
    var c' := c.(updates := updates');
    forall other | other in streams && other != id && EntryOk(other, streams[other], c)
      ensures EntryOk(other, streams[other], c')
    {
    }
    EntryChanged(streams, c, id, streams[id].(window := streams[id].window + n), c');
  }

  /** An update accepted on the connection. */
  lemma ConnGranted(streams: map<nat, Stream>, c: Context, n: nat)
    requires EntriesOk(streams, c) && 0 !in streams
    ensures EntriesOk(streams, c.(updates := c.updates + [Update(0, n)]))
  {
    hide ResetPending, StreamBodyOk;
    var updates' := c.updates + [Update(0, n)];
    assert updates'[..|updates'| - 1] == c.updates;
  }

  lemma UpdateLogged(sent: seq<Sent>, updates: seq<Update>, u: Update, maxClient: nat, maxPush: nat)
    requires HistoryOk(sent, updates, maxClient, maxPush) && (u.id == 0 || Used(u.id, maxClient, maxPush))
    ensures HistoryOk(sent, updates + [u], maxClient, maxPush)
    ensures Granted(updates + [u], 0) == Granted(updates, 0) + if u.id == 0 then u.n else 0
  {
    hide Used;
    assert (updates + [u])[..|updates + [u]| - 1] == updates;
  }

  lemma SentLogged(sent: seq<Sent>, updates: seq<Update>, s: Sent, maxClient: nat, maxPush: nat)
    requires HistoryOk(sent, updates, maxClient, maxPush) && Used(s.id, maxClient, maxPush) && s.n <= s.limit
    ensures HistoryOk(sent + [s], updates, maxClient, maxPush)
    ensures TotalSent(sent + [s]) == TotalSent(sent) + s.n
  {
    hide Used;
    assert (sent + [s])[..|sent + [s]| - 1] == sent;
  }

  /** The same streams with every window moved. */
  ghost predicate Shifted(streams: map<nat, Stream>, changed: map<nat, Stream>, growth: int) {
    && changed.Keys == streams.Keys
    && forall id :: id in streams ==> MovedBy(streams[id], changed[id], growth)
  }

  predicate MovedBy(st: Stream, st': Stream, d: int) {
    st'.window == st.window + d && st' == st.(window := st'.window)
  }

  ghost predicate AllFit(streams: map<nat, Stream>, growth: int) {
    forall id :: id in streams ==> InInt32(streams[id].window + growth)
  }

  /** No window would exceed 2^31 - 1. */
  ghost predicate NoneExceeds(streams: map<nat, Stream>, growth: int) {
    forall id :: id in streams ==> streams[id].window + growth <= MAX_WINDOW
  }

  /** Moves the windows one by one, in any order; it stops at the first that 32 bits cannot hold. */
  method ShiftWindows(streams: map<nat, Stream>, growth: Int32) returns (changed: map<nat, Stream>, ok: bool)
    ensures changed.Keys == streams.Keys
    ensures forall id :: id in streams ==> changed[id] == streams[id].(window := changed[id].window)
    ensures ok <==> AllFit(streams, growth)
    ensures ok ==> Shifted(streams, changed, growth)
  {
    hide WindowAfter;
    changed := streams;
    var ids := streams.Keys;
    while ids != {}
      invariant ids <= streams.Keys && changed.Keys == streams.Keys
      invariant forall id :: id in streams ==> MovedBy(streams[id], changed[id], if id in ids then 0 else growth)
      decreases |ids|
    {
      var id :| id in ids;
      var r := WindowAfter(changed[id].window, growth);
      if r.None? {
        return changed, false;
      }
      assert MovedBy(streams[id], changed[id].(window := r.value), growth);
      changed := changed[id := changed[id].(window := r.value)];
      ids := ids - {id};
    }
    return changed, true;
  }

  /** All windows moved with the initial size. */
  lemma InitialChanged(streams: map<nat, Stream>, streams': map<nat, Stream>, c: Context, initial: nat)
    requires EntriesOk(streams, c) && Shifted(streams, streams', initial - c.initial)
    ensures EntriesOk(streams', c.(initial := initial))
  {
    hide ResetPending;
  }

  /** Windows that are no longer exact. */
  lemma Spoilt(streams: map<nat, Stream>, streams': map<nat, Stream>, c: Context, initial: nat)
    requires EntriesOk(streams, c) && streams'.Keys == streams.Keys
    requires forall id :: id in streams ==> streams'[id] == streams[id].(window := streams'[id].window)
    ensures EntriesOk(streams', c.(initial := initial, spoilt := true))
  {
    hide ResetPending, WindowOk;
  }

  // ----- Single events -----

  /** Closes a body; only the first error counts. */
  function Shut(b: Body, end: BodyEnd): (r: Body)
    requires end == Eof ==> b.declared < 0 || b.bytes == b.declared
    ensures BodyOk(b) ==> BodyOk(r)
  {
    if b.end.Some? then b else b.(end := Some(end))
  }

  lemma ResetEntry(id: nat, st: Stream, c: Context)
    requires EntryOk(id, st, c) && ResetPending(id, c.control, c.writing)
    ensures EntryOk(id, st.(resetQueued := true), c)
  {
  }

  /** Another body for a stream that is not in the table. */
  lemma OtherBody(streams: map<nat, Stream>, c: Context, id: nat, b: Body)
    requires EntriesOk(streams, c) && id !in streams
    ensures EntriesOk(streams, c.(bodies := c.bodies[id := b]))
  {
    hide WindowOk, ResetPending;
  }

  /** A new stream. */
  function Fresh(state: StreamState, window: Int32, declared: int, reset: bool): (st: Stream) {
    Stream(state, window, reset, false, false, declared, 0)
  }

  /** Nothing was ever granted or sent on a stream that was not used; a new stream comes with its body, if it gets one. */
  lemma FreshEntry(id: nat, st: Stream, body: Option<Body>, c: Context, maxClient: nat, maxPush: nat)
    requires id != 0 && !Used(id, maxClient, maxPush) && c.initial <= MAX_WINDOW
    requires HistoryOk(c.sent, c.updates, maxClient, maxPush) && AllUsed(c.bodies.Keys, maxClient, maxPush)
    requires st == Fresh(st.state, c.initial, st.declared, st.resetQueued) && st.state != HalfClosedLocal
    requires st.resetQueued ==> ResetPending(id, c.control, c.writing)
    requires st.state == Open && !st.resetQueued ==> body.Some?
    requires body.Some? ==> body.value == Body(st.declared, 0, None)
    ensures id !in c.bodies
    ensures EntryOk(id, st, c.(bodies := WithBody(c.bodies, id, body)))
  {
    NothingSent(c.sent, id);
    NothingGranted(c.updates, id);
    assert id in c.bodies ==> id in c.bodies.Keys;
  }

  lemma QueueDropped(ids: set<nat>, control: seq<Frame>, queues: map<nat, seq<Frame>>, queued: int, id: nat)
    requires QueuesOk(ids, control, queues, queued)
    ensures QueuesOk(ids - {id}, control, queues - {id}, queued)
  {
  }

  /** A stream more is used. */
  lemma UsedMore(ids: set<nat>, sent: seq<Sent>, updates: seq<Update>, maxClient: nat, maxPush: nat, id: nat)
    requires AllUsed(ids, maxClient, maxPush) && HistoryOk(sent, updates, maxClient, maxPush)
    requires id != 0 && !Used(id, maxClient, maxPush)
    ensures var maxClient' := if IsClient(id) then id else maxClient;
            var maxPush' := if IsClient(id) then maxPush else id;
            && AllUsed(ids, maxClient', maxPush') && AllUsed(ids + {id}, maxClient', maxPush')
            && HistoryOk(sent, updates, maxClient', maxPush')
  {
  }

  lemma QueueKept(ids: set<nat>, control: seq<Frame>, queues: map<nat, seq<Frame>>, queued: int, id: nat)
    requires QueuesOk(ids, control, queues, queued)
    ensures QueuesOk(ids + {id}, control, queues, queued)
  {
  }

  function WithBody(bodies: map<nat, Body>, id: nat, body: Option<Body>): (r: map<nat, Body>) {
    if body.Some? then bodies[id := body.value] else bodies
  }

  /** A new stream and its body in the table. */
  lemma EntryAdded(streams: map<nat, Stream>, c: Context, id: nat, st: Stream, body: Option<Body>)
    requires EntriesOk(streams, c) && BodiesOk(c.bodies) && (body.Some? ==> BodyOk(body.value))
    requires EntryOk(id, st, c.(bodies := WithBody(c.bodies, id, body)))
    ensures EntriesOk(streams[id := st], c.(bodies := WithBody(c.bodies, id, body)))
    ensures BodiesOk(WithBody(c.bodies, id, body))
  {
    hide EntryOk;
    if body.Some? {
      BodyChanged(streams, c, id, st, body.value);
    } else {
      EntryChanged(streams, c, id, st, c);
    }
  }

  lemma UsedWith(bodies: map<nat, Body>, id: nat, body: Option<Body>, maxClient: nat, maxPush: nat)
    requires AllUsed(bodies.Keys + {id}, maxClient, maxPush)
    ensures AllUsed(WithBody(bodies, id, body).Keys, maxClient, maxPush)
  {
  }

  /** An ID is used up without a stream. */
  lemma MaxRaised(ids: set<nat>, closed: set<nat>, bodies: set<nat>, sent: seq<Sent>, updates: seq<Update>,
                  maxClient: nat, maxPush: nat, clients: nat, pushed: nat, advertised: nat, id: nat)
    requires TableOk(ids, closed, maxClient, maxPush, clients, pushed, advertised)
    requires AllUsed(bodies, maxClient, maxPush) && HistoryOk(sent, updates, maxClient, maxPush)
    requires IsClient(id) && id > maxClient
    ensures TableOk(ids, closed, id, maxPush, clients, pushed, advertised) && id !in ids
    ensures AllUsed(bodies, id, maxPush) && HistoryOk(sent, updates, id, maxPush)
  {
    hide Clients;
  }

  lemma KeysWith(streams: map<nat, Stream>, id: nat, st: Stream)
    ensures streams[id := st].Keys == streams.Keys + {id}
  {
  }
}
