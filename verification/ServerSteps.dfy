/** http2/server.go: the state of a connection as a value, what each event makes of it, and what holds of every run. */
module ServerSteps {
  import opened Common
  import opened ServerState

  datatype FullState = Idle | Live(state: StreamState) | Closed

  const PROTOCOL_ERROR := 1
  const FLOW_CONTROL_ERROR := 3

  datatype Setting = Setting(id: nat, val: nat)

  const ENABLE_PUSH := 2
  const MAX_CONCURRENT_STREAMS := 3
  const INITIAL_WINDOW_SIZE := 4
  const SETTING_MAX_FRAME_SIZE := 5

  /** The error that an illegal value is (section 6.5.2 of RFC 7540). */
  function SettingError(s: Setting): (e: Option<nat>) {
    if s.id == ENABLE_PUSH && s.val > 1 then Some(PROTOCOL_ERROR)
    else if s.id == INITIAL_WINDOW_SIZE && s.val > MAX_WINDOW then Some(FLOW_CONTROL_ERROR)
    else if s.id == SETTING_MAX_FRAME_SIZE && (s.val < 16384 || s.val > 0xff_ffff) then Some(PROTOCOL_ERROR)
    else None
  }

  predicate HasDuplicates(settings: seq<Setting>) {
    exists i, j :: 0 <= i < j < |settings| && settings[i].id == settings[j].id
  }

  /** Frames from the peer, with what the model does not compute of them: see the methods that process them. */
  datatype PeerFrame =
    | PeerHeaders(id: nat, endStream: bool, badTrailers: bool, selfDependent: bool, request: Option<int>)
    | PeerData(id: nat, length: nat, size: nat, endStream: bool, connQuota: bool, streamQuota: bool, low: bool)
    | PeerWindowUpdate(id: nat, n: nat) | PeerReset(id: nat) | PeerSettings(ack: bool, settings: seq<Setting>)
    | PeerPing(ack: bool) | PeerGoAway | PeerError(code: nat)

  datatype Event =
    | FromPeer(frame: PeerFrame) | HandlerFrame(f: Frame) | HandlerReset(id: nat) | HandlerPush(parent: nat)
    | BodyRead(low: bool) | Schedule(choice: nat, limit: nat) | Wrote | Shutdown | Upgrade

  // ----- States -----

  datatype Conn = Conn(flow: Int32, streams: map<nat, Stream>, bodies: map<nat, Body>, control: seq<Frame>,
                       queues: map<nat, seq<Frame>>, writing: Option<Frame>, initial: Window, maxFrameSize: nat,
                       clientMaxStreams: nat, maxClient: nat, maxPush: nat, pushEnabled: bool, unacked: int,
                       needAck: bool, inGoAway: bool, needGoAway: bool, goAwayCode: nat)
  {
    predicate Failing() {
      inGoAway && goAwayCode != NO_ERROR
    }

    predicate IsIdle(id: nat) {
      id !in streams && id > if IsClient(id) then maxClient else maxPush
    }

    predicate Receiving(id: nat) {
      id in streams && streams[id].state == Open && !streams[id].gotTrailer && !streams[id].resetQueued
    }

    ghost function ClientStreams(): (n: nat) {
      |Clients(streams.Keys)|
    }

    /** The connection is to end; an error is not taken back. */
    ghost function Ended(code: nat): (c: Conn)
      ensures c.streams == streams && c.bodies == bodies && c.queues == queues && c.writing == writing && c.flow == flow
    {
      this.(inGoAway := true, needGoAway := needGoAway || !inGoAway, goAwayCode := if Failing() then goAwayCode else code)
    }

    ghost function Queued(f: Frame): (c: Conn)
      ensures c.streams == streams && c.bodies == bodies && c.queues == queues && c.writing == writing && c.flow == flow
    {
      this.(control := control + [f])
    }

    ghost function Refunded(low: bool): (c: Conn)
      ensures c.streams == streams && c.bodies == bodies && c.queues == queues && c.writing == writing && c.flow == flow
    {
      if low then Queued(ConnWindowUpdate) else this
    }

    ghost function With(id: nat, st: Stream): (c: Conn)
      ensures c.writing == writing
    {
      this.(streams := streams[id := st])
    }

    ghost function ResetSent(id: nat): (c: Conn)
      ensures c.writing == writing
    {
      if id in streams then Queued(Reset(id)).With(id, streams[id].(resetQueued := true)) else Queued(Reset(id))
    }

    /** The stream is closed: its frames are dropped, and the reader of its body learns of it. */
    ghost function Without(id: nat): (c: Conn)
      ensures c.writing == writing
    {
      this.(streams := streams - {id}, queues := queues - {id},
            bodies := if id in bodies then bodies[id := Shut(bodies[id], Bad)] else bodies)
    }

    ghost function Opened(id: nat, st: Stream, body: Option<Body>): (c: Conn)
      ensures c.writing == writing
    {
      this.(streams := streams[id := st], bodies := WithBody(bodies, id, body),
            maxClient := if IsClient(id) then id else maxClient, maxPush := if IsClient(id) then maxPush else id)
    }

    ghost function WithQueue(id: nat, q: seq<Frame>): (c: Conn)
      ensures c.writing == writing
    {
      this.(queues := queues[id := q])
    }

    ghost function Appended(f: Frame): (c: Conn)
      requires OnStream(f)
      ensures c.writing == writing
    {
      WithQueue(f.id, (if f.id in queues then queues[f.id] else []) + [f])
    }

    ghost function TrailerSeen(id: nat): (c: Conn)
      ensures c.writing == writing
    {
      if id in streams then With(id, streams[id].(gotTrailer := true)) else this
    }

    /** This side is done with a stream that is still open: it also resets it. */
    ghost function HalfClosed(id: nat): (c: Conn)
      ensures c.writing == writing
    {
      var reset := ResetSent(id);
      if id in streams then reset.With(id, reset.streams[id].(state := HalfClosedLocal)) else reset
    }

    /** The body of the request is over: at end of file if it has the declared length. */
    ghost function RequestEnded(id: nat): (c: Conn)
      requires id in streams && id in bodies
      ensures c.writing == writing
    {
      var b := bodies[id];
      With(id, streams[id].(state := HalfClosedRemote))
      .(bodies := bodies[id := b.(end := Some(if b.declared < 0 || b.bytes == b.declared then Eof else Bad))])
    }
  }

  /** A new connection: its SETTINGS are queued. */
  ghost function Start(): (c: Conn) {
    Conn(65535, map[], map[], [Settings], map[], None, 65535, 16384, 0xffff_ffff, 0, 0, true, 1, false, false, false, NO_ERROR)
  }

  // ----- Frames from the peer -----

  /** HEADERS: ignored in a shutdown, trailers of a live stream, or a request that is opened, refused or reset. */
  ghost predicate HeadersDone(adv: nat, c: Conn, id: nat, endStream: bool, bad: bool, selfDependent: bool,
                              request: Option<int>, d: Conn)
  {
    if c.inGoAway then d == c
    else if !IsClient(id) then d == c.Ended(PROTOCOL_ERROR)
    else if id in c.streams then TrailersDone(c, id, endStream, bad, d)
    else if id <= c.maxClient then d == c.Ended(PROTOCOL_ERROR)
    else if c.ClientStreams() >= adv then d == c.ResetSent(id).(maxClient := id)
    else
      var reset := selfDependent || request.None?;
      var declared := if request.Some? then request.value else 0;
      var c1 := if reset then c.Queued(Reset(id)) else c;
      d == c1.Opened(id, Fresh(if endStream then HalfClosedRemote else Open, c.initial, declared, reset),
                     if !reset && !endStream then Some(Body(declared, 0, None)) else None)
  }

  ghost predicate TrailersDone(c: Conn, id: nat, endStream: bool, bad: bool, d: Conn)
    requires id in c.streams
  {
    var st := c.streams[id];
    if st.resetQueued then d == c
    else if st.state == HalfClosedRemote then d == c.ResetSent(id)
    else if !endStream || bad then d == c.ResetSent(id).TrailerSeen(id)
    else id in c.bodies && d == c.RequestEnded(id).TrailerSeen(id)
  }

  ghost predicate DataDone(c: Conn, id: nat, length: nat, size: nat, endStream: bool, connQuota: bool, streamQuota: bool,
                           low: bool, d: Conn)
  {
    if c.inGoAway && (c.goAwayCode != NO_ERROR || id > c.maxClient) then d == c
    else if id == 0 || c.IsIdle(id) then d == c.Ended(PROTOCOL_ERROR)
    else if c.Receiving(id) then
      id in c.bodies && d == DataReceived(c, id, length, size, endStream, connQuota, streamQuota, low)
    else
      var c1 := c.Refunded(connQuota && low);
      d == if connQuota && id in c.streams && c.streams[id].resetQueued then c1 else c1.ResetSent(id)
  }

  /** DATA on a stream that can receive: too much, beyond the window, or taken. */
  ghost function DataReceived(c: Conn, id: nat, length: nat, size: nat, endStream: bool, connQuota: bool, streamQuota: bool,
                              low: bool): (d: Conn)
    requires id in c.streams && id in c.bodies
  {
    var st, b := c.streams[id], c.bodies[id];
    if st.declared >= 0 && st.bodyBytes + size > st.declared then
      var c1 := c.Refunded(connQuota && low).ResetSent(id);
      if connQuota then c1.(bodies := c.bodies[id := Shut(b, Bad)]) else c1
    else if length > 0 && !streamQuota then c.ResetSent(id)
    else
      var c1 := c.With(id, st.(bodyBytes := st.bodyBytes + size)).(bodies := c.bodies[id := b.(bytes := b.bytes + size)]);
      var c2 := c1.Refunded(length > size);
      if endStream then c2.RequestEnded(id) else c2
  }

  /** WINDOW_UPDATE: a window takes it exactly if it stays within 2^31 - 1. */
  ghost function UpdateDone(c: Conn, id: nat, n: nat): (d: Conn)
    requires n <= MAX_WINDOW
  {
    if id == 0 then
      if c.flow + n <= MAX_WINDOW then c.(flow := c.flow + n) else c.Ended(FLOW_CONTROL_ERROR)
    else if c.IsIdle(id) then c.Ended(PROTOCOL_ERROR)
    else if id !in c.streams then c
    else if c.streams[id].window + n <= MAX_WINDOW then c.With(id, c.streams[id].(window := c.streams[id].window + n))
    else c.ResetSent(id)
  }

  /** The value that the settings give, if they give one. */
  function ValueOf(settings: seq<Setting>, id: nat, before: nat): (v: nat) {
    if settings == [] then before
    else
      var s := settings[|settings| - 1];
      if s.id == id then s.val else ValueOf(settings[..|settings| - 1], id, before)
  }

  /** Legal, and no window would leave 32 bits. */
  ghost predicate Takable(s: Setting, c: Conn) {
    SettingError(s).None? && (s.id == INITIAL_WINDOW_SIZE ==> AllFit(c.streams, s.val - c.initial))
  }

  /** All settings are in force, and the windows of all streams have moved with the initial size. */
  ghost predicate SettingsApplied(c: Conn, settings: seq<Setting>, d: Conn) {
    && Shifted(c.streams, d.streams, d.initial - c.initial)
    && d.initial == ValueOf(settings, INITIAL_WINDOW_SIZE, c.initial)
    && d.maxFrameSize == ValueOf(settings, SETTING_MAX_FRAME_SIZE, c.maxFrameSize)
    && d.clientMaxStreams == ValueOf(settings, MAX_CONCURRENT_STREAMS, c.clientMaxStreams)
    && d.pushEnabled == (ValueOf(settings, ENABLE_PUSH, if c.pushEnabled then 1 else 0) != 0)
    && d == c.(streams := d.streams, initial := d.initial, maxFrameSize := d.maxFrameSize,
               clientMaxStreams := d.clientMaxStreams, pushEnabled := d.pushEnabled)
  }

  /** Windows that moved in part, with a new initial size that does not fit them all: the connection fails. */
  ghost predicate WindowsSpoilt(c: Conn, val: Window, d: Conn) {
    && d.streams.Keys == c.streams.Keys
    && (forall id :: id in c.streams ==> d.streams[id] == c.streams[id].(window := d.streams[id].window))
    && d == c.Ended(FLOW_CONTROL_ERROR).(streams := d.streams, initial := val)
  }

  /** The settings before the k-th, which is the first that cannot be taken, are in force at c1; then the connection fails. */
  ghost predicate SettingsRefused(c: Conn, settings: seq<Setting>, k: nat, c1: Conn, d: Conn)
    requires k < |settings|
  {
    var s := settings[k];
    && (forall j :: 0 <= j < k ==> Takable(settings[j], c)) && !Takable(s, c)
    && SettingsApplied(c, settings[..k], c1)
    && if SettingError(s).Some? then d == c1.Ended(SettingError(s).value) else WindowsSpoilt(c1, s.val, d)
  }

  lemma NotMoved(streams: map<nat, Stream>)
    ensures Shifted(streams, streams, 0)
  {
  }

  lemma NoneApplied(c: Conn)
    ensures SettingsApplied(c, [], c)
  {
    NotMoved(c.streams);
  }

  lemma AppliedKeepsAck(c: Conn, settings: seq<Setting>, d: Conn)
    requires SettingsApplied(c, settings, d)
    ensures d.(needAck := true).(needAck := c.needAck) == d
  {
    hide ValueOf, Shifted;
  }

  lemma OneApplied(c: Conn, s: Setting, d: Conn)
    ensures SettingsApplied(c, [s], d) <==>
            && Shifted(c.streams, d.streams, d.initial - c.initial)
            && d.initial == (if s.id == INITIAL_WINDOW_SIZE then s.val else c.initial)
            && d.maxFrameSize == (if s.id == SETTING_MAX_FRAME_SIZE then s.val else c.maxFrameSize)
            && d.clientMaxStreams == (if s.id == MAX_CONCURRENT_STREAMS then s.val else c.clientMaxStreams)
            && d.pushEnabled == (if s.id == ENABLE_PUSH then s.val != 0 else c.pushEnabled)
            && d == c.(streams := d.streams, initial := d.initial, maxFrameSize := d.maxFrameSize,
                       clientMaxStreams := d.clientMaxStreams, pushEnabled := d.pushEnabled)
  {
    hide Shifted, ValueOf;
    ValueOfOne(s, INITIAL_WINDOW_SIZE, c.initial);
    ValueOfOne(s, SETTING_MAX_FRAME_SIZE, c.maxFrameSize);
    ValueOfOne(s, MAX_CONCURRENT_STREAMS, c.clientMaxStreams);
    ValueOfOne(s, ENABLE_PUSH, if c.pushEnabled then 1 else 0);
  }

  lemma ValueOfOne(s: Setting, id: nat, before: nat)
    ensures ValueOf([s], id, before) == if s.id == id then s.val else before
  {
    assert [s][..0] == [];
  }

  lemma ValueOfNext(settings: seq<Setting>, i: nat, id: nat, before: nat)
    requires i < |settings|
    ensures ValueOf(settings[..i + 1], id, before) ==
            if settings[i].id == id then settings[i].val else ValueOf(settings[..i], id, before)
  {
    assert settings[..i + 1][..i] == settings[..i];
  }

  lemma OneMoreApplied(c: Conn, settings: seq<Setting>, i: nat, c1: Conn, d: Conn)
    requires i < |settings| && SettingsApplied(c, settings[..i], c1) && SettingsApplied(c1, [settings[i]], d)
    ensures SettingsApplied(c, settings[..i + 1], d)
  {
    hide Shifted, ValueOf;
    OneApplied(c1, settings[i], d);
    ValueOfNext(settings, i, INITIAL_WINDOW_SIZE, c.initial);
    ValueOfNext(settings, i, SETTING_MAX_FRAME_SIZE, c.maxFrameSize);
    ValueOfNext(settings, i, MAX_CONCURRENT_STREAMS, c.clientMaxStreams);
    ValueOfNext(settings, i, ENABLE_PUSH, if c.pushEnabled then 1 else 0);
    ShiftedTwice(c.streams, c1.streams, d.streams, c1.initial - c.initial, d.initial - c1.initial);
  }

  lemma ShiftedTwice(a: map<nat, Stream>, b: map<nat, Stream>, c: map<nat, Stream>, m: int, n: int)
    requires Shifted(a, b, m) && Shifted(b, c, n)
    ensures Shifted(a, c, m + n)
  {
    forall id | id in a ensures MovedBy(a[id], c[id], m + n) {
      assert MovedBy(a[id], b[id], m) && MovedBy(b[id], c[id], n);
    }
  }

  lemma {:induction false} NotGiven(settings: seq<Setting>, id: nat, before: nat)
    requires forall s <- settings :: s.id != id
    ensures ValueOf(settings, id, before) == before
  {
    if settings != [] {
      NotGiven(settings[..|settings| - 1], id, before);
    }
  }

  /** No setting comes twice, so those before it do not decide whether one can be taken. */
  lemma TakableStill(c: Conn, settings: seq<Setting>, i: nat, c1: Conn)
    requires i < |settings| && !HasDuplicates(settings) && SettingsApplied(c, settings[..i], c1)
    ensures Takable(settings[i], c1) <==> Takable(settings[i], c)
  {
    if settings[i].id == INITIAL_WINDOW_SIZE {
      NotGiven(settings[..i], INITIAL_WINDOW_SIZE, c.initial);
      forall id | id in c.streams ensures c1.streams[id] == c.streams[id] {
        assert MovedBy(c.streams[id], c1.streams[id], 0);
      }
    }
  }

  ghost predicate SettingsDone(c: Conn, ack: bool, settings: seq<Setting>, d: Conn) {
    if ack then
      var c1 := c.(unacked := c.unacked - 1);
      d == if c1.unacked < 0 then c1.Ended(PROTOCOL_ERROR) else c1
    else if |settings| > 100 || HasDuplicates(settings) then d == c.Ended(PROTOCOL_ERROR)
    else if forall s <- settings :: Takable(s, c) then
      SettingsApplied(c, settings, d.(needAck := c.needAck)) && d.needAck
    else exists k: nat, c1 :: k < |settings| && SettingsRefused(c, settings, k, c1, d)
  }

  ghost predicate PeerDone(adv: nat, c: Conn, f: PeerFrame, d: Conn) {
    match f
    case PeerHeaders(id, endStream, bad, selfDependent, request) =>
      if id != 0 && (request.Some? ==> request.value >= -1)
      then HeadersDone(adv, c, id, endStream, bad, selfDependent, request, d) else d == c
    case PeerData(id, length, size, endStream, connQuota, streamQuota, low) =>
      if size <= length then DataDone(c, id, length, size, endStream, connQuota, streamQuota, low, d) else d == c
    case PeerWindowUpdate(id, n) => d == if 1 <= n <= MAX_WINDOW then UpdateDone(c, id, n) else c
    case PeerReset(id) =>
      d == if id == 0 then c else if c.IsIdle(id) then c.Ended(PROTOCOL_ERROR)
           else if id in c.streams then c.Without(id) else c
    case PeerSettings(ack, settings) => SettingsDone(c, ack, settings, d)
    case PeerPing(ack) => d == if ack || c.Failing() then c else c.Queued(PingAck)
    case PeerGoAway => d == c.Ended(NO_ERROR).(pushEnabled := false)
    case PeerError(code) => d == c.Ended(code)
  }

  lemma EndedOnce(c: Conn, code: nat)
    requires c.Failing()
    ensures c.Ended(code) == c
  {
  }

  // ----- Writing -----

  /** A frame of a handler, unless the stream is closed or a 100-continue comes too late. */
  ghost function HandlerDone(c: Conn, f: Frame): (d: Conn) {
    if !OnStream(f) || !Used(f.id, c.maxClient, c.maxPush) || f.id !in c.streams then c
    else if f.Headers? then c.With(f.id, c.streams[f.id].(wroteHeaders := true)).Appended(f)
    else if f.Continue? && c.streams[f.id].wroteHeaders then c
    else c.Appended(f)
  }

  ghost function PushDone(c: Conn, parent: nat): (d: Conn) {
    if parent in c.streams && c.streams[parent].state != HalfClosedLocal && c.pushEnabled
    then c.Appended(PushPromise(parent)) else c
  }

  /** How much of a DATA frame may be sent now. */
  function Sendable(c: Conn, id: nat, limit: nat, size: nat): (n: int)
    requires id in c.streams
  {
    Min(Min(Min(Min(c.streams[id].window, c.flow), c.maxFrameSize), limit), size)
  }

  /** The first frame of a stream, or what may be sent of it; the stream is live, and this side has not ended it. */
  ghost predicate Popped(c: Conn, id: nat, limit: nat, d: Conn)
    requires id in c.queues && c.queues[id] != []
  {
    var f, rest := c.queues[id][0], c.queues[id][1..];
    && OnStream(f) && f.id == id && id in c.streams && c.streams[id].state != HalfClosedLocal
    && if f.Data? && f.size > 0 then
         var n := Sendable(c, id, limit, f.size);
         if n <= 0 then d == c
         else
           d == c.With(id, c.streams[id].(window := c.streams[id].window - n)).(flow := c.flow - n)
                .WithQueue(id, (if n < f.size then [Data(id, f.size - n, f.endStream)] else []) + rest)
                .(writing := Some(Data(id, n, f.endStream && n == f.size)))
       else if f.PushPromise? then d == Promised(c.WithQueue(id, rest), f)
       else d == c.WithQueue(id, rest).(writing := Some(f))
  }

  /** A promise opens its stream, or is dropped. */
  ghost function Promised(c: Conn, f: Frame): (d: Conn) {
    if !c.pushEnabled || |c.streams.Keys - Clients(c.streams.Keys)| >= c.clientMaxStreams then c
    else if c.maxPush + 2 >= 0x8000_0000 then c.Ended(NO_ERROR)
    else c.Opened(c.maxPush + 2, Fresh(HalfClosedRemote, c.initial, 0, false), None).(writing := Some(f))
  }

  lemma PromiseIsWritten(c: Conn, f: Frame)
    requires c.writing.None? && f.PushPromise?
    ensures var d := Promised(c, f); d.writing.None? || d.writing == Some(f)
  {
  }

  ghost predicate Scheduled(c: Conn, choice: nat, limit: nat, d: Conn) {
    if c.writing.Some? then d == c
    else if c.needGoAway then d == c.(needGoAway := false, writing := Some(GoAwayFrame))
    else if c.needAck then d == c.(needAck := false, writing := Some(SettingsAck))
    else if c.Failing() then d == c
    else if c.control != [] then d == c.(control := c.control[1..], writing := Some(c.control[0]))
    else if choice in c.queues && c.queues[choice] != [] then Popped(c, choice, limit, d)
    else d == c
  }

  /** The frame being written is out. */
  ghost function WriteDone(c: Conn): (d: Conn) {
    if c.writing.None? then c
    else
      var f, c1 := c.writing.value, c.(writing := None);
      if f.Reset? then (if f.id in c.streams then c.Without(f.id).(writing := None) else c1)
      else if !EndsStream(f) || f.id !in c.streams then c1
      else if c.streams[f.id].state == Open then c1.HalfClosed(f.id)
      else if c.streams[f.id].state == HalfClosedRemote then c1.Without(f.id)
      else c1
  }

  // ----- Events and runs -----

  ghost predicate Next(adv: nat, c: Conn, e: Event, d: Conn) {
    match e
    case FromPeer(f) => PeerDone(adv, c, f, d)
    case HandlerFrame(f) => d == HandlerDone(c, f)
    case HandlerReset(id) => d == c.ResetSent(id)
    case HandlerPush(parent) => d == PushDone(c, parent)
    case BodyRead(low) => d == c.Refunded(low)
    case Schedule(choice, limit) => Scheduled(c, choice, limit, d)
    case Wrote => d == WriteDone(c)
    case Shutdown => d == c.Ended(NO_ERROR)
    case Upgrade =>
      d == if c.maxClient == 0 && adv >= 1 then c.Opened(1, Fresh(HalfClosedRemote, c.initial, 0, false), None) else c
  }

  /** The states of a connection from its start, one after each event. */
  ghost predicate IsRun(adv: nat, events: seq<Event>, h: seq<Conn>) {
    && |h| == |events| + 1 && h[0] == Start()
    && forall i :: 0 <= i < |events| ==> Next(adv, h[i], events[i], h[i + 1])
  }
}
