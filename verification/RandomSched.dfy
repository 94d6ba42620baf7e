/** http2/writesched_random.go: the scheduler that ignores priorities. */
module RandomSched {
  import opened Common
  import opened FlowControl
  import opened WriteSched
  import opened SchedRuns

  // ----- Specification: what is queued -----

  /** The queue of the control frames, or that of a stream. */
  datatype Key = Control | Of(id: nat)

  type Queues = map<Key, seq<Request>>

  ghost function At(q: Queues, k: Key): (rs: seq<Request>) {
    if k in q then q[k] else []
  }

  function KeyOf(r: Request): (k: Key) {
    if r.IsControl() then Control else Of(r.StreamID())
  }

  /** A request is queued under its stream and may only touch known windows. */
  ghost predicate Filed(r: Request, k: Key, windows: set<Flow>, conns: set<Conn>) {
    KeyOf(r) == k && r.Valid() && Within(r, windows, conns)
  }

  ghost predicate Sound(q: Queues, windows: set<Flow>, conns: set<Conn>) {
    forall k: Key, i: nat :: i < |At(q, k)| ==> Filed(At(q, k)[i], k, windows, conns)
  }

  ghost function Pushed(q: Queues, r: Request): (q': Queues) {
    q[KeyOf(r) := At(q, KeyOf(r)) + [r]]
  }

  /** r came off the head of its queue, whole or in part, and no other queue changed. */
  ghost predicate Popped(q: Queues, r: Request, q': Queues) {
    && q' == q[KeyOf(r) := At(q', KeyOf(r))] && FromHead(At(q, KeyOf(r)), At(q', KeyOf(r)))
    && AllAtoms(At(q, KeyOf(r))) == Atoms(r) + AllAtoms(At(q', KeyOf(r)))
  }

  lemma PushedIsSound(q: Queues, r: Request, windows: set<Flow>, windows': set<Flow>, conns: set<Conn>, conns': set<Conn>)
    requires Sound(q, windows, conns) && windows <= windows' && conns <= conns' && Filed(r, KeyOf(r), windows', conns')
    ensures Sound(Pushed(q, r), windows', conns')
  {
    var q' := Pushed(q, r);
    forall k: Key, i: nat | i < |At(q', k)|
      ensures Filed(At(q', k)[i], k, windows', conns')
    {
      assert i < |At(q, k)| ==> Filed(At(q, k)[i], k, windows, conns);
    }
  }

  lemma ReplacedIsSound(q: Queues, k: Key, rest: seq<Request>, windows: set<Flow>, conns: set<Conn>)
    requires Sound(q, windows, conns)
    requires forall i: nat :: i < |rest| ==> Filed(rest[i], k, windows, conns)
    ensures Sound(q[k := rest], windows, conns)
  {
    hide Filed;
    var q' := q[k := rest];
    forall x: Key, i: nat | i < |At(q', x)|
      ensures Filed(At(q', x)[i], x, windows, conns)
    {
      if x != k {
        assert At(q', x) == At(q, x);
      }
    }
  }

  // ----- The scheduler -----

  class RandomWriteScheduler {
    /** Control frames: those not tied to a stream, and RST_STREAM. */
    const zero: WriteQueue
    /** The non-empty queues of the streams, by stream id. */
    var sq: map<nat, WriteQueue>
    /** Empty queues kept for reuse. */
    var pool: seq<WriteQueue>

    /** The requests in zero and sq. */
    ghost var queued: Queues
    /** The windows and connections of all streams that ever pushed. */
    ghost var windows: set<Flow>
    ghost var conns: set<Conn>
    /** All queues ever allocated here. */
    ghost var queues: set<WriteQueue>

    constructor ()
      ensures Valid() && fresh(queues)
      ensures queued == map[] && windows == {} && conns == {}
    {
      zero := new WriteQueue();
      sq, pool := map[], [];
      queued, windows, conns := map[], {}, {};
      new;
      queues := {zero};
    }

    /** No queue is shared: not by two streams, nor by a stream and the pool. */
    ghost predicate Unaliased()
      reads this
    {
      && zero in queues && zero !in pool
      && (forall a :: a in sq ==> sq[a] in queues && sq[a] != zero && sq[a] !in pool)
      && (forall a, b :: a in sq && b in sq && a != b ==> sq[a] != sq[b])
      && (forall i :: 0 <= i < |pool| ==> pool[i] in queues)
      && (forall i, j :: 0 <= i < j < |pool| ==> pool[i] != pool[j])
    }

    ghost predicate Core()
      reads this, queues
    {
      && Unaliased()
      && (forall i :: 0 <= i < |pool| ==> pool[i].s == [])
      && At(queued, Control) == zero.s
      && (forall id: nat :: At(queued, Of(id)) == if id in sq then sq[id].s else [])
      && Sound(queued, windows, conns)
    }

    /** Exactly the streams with something queued have a queue. */
    ghost predicate Lean()
      reads this
    {
      forall id: nat :: id in sq <==> At(queued, Of(id)) != []
    }

    ghost predicate Valid()
      reads this, queues
    {
      Core() && Lean()
    }

    /** Takes an emptied queue out of use: it goes to the pool. */
    method Release(id: nat)
      requires Core() && id in sq && sq[id].s == []
      modifies this`sq, this`pool
      ensures Core()
      ensures sq == old(sq) - {id} && pool == old(pool) + [old(sq[id])]
    {
      hide Sound;
      var q := sq[id];
      sq := sq - {id};
      pool := pool + [q];
    }

    /** A queue for a stream that has none: from the pool if possible. */
    method Acquire(id: nat)
      requires Core() && id !in sq
      modifies this`sq, this`pool, this`queues
      ensures Core()
      ensures id in sq && sq == old(sq)[id := sq[id]] && sq[id].s == []
      ensures old(queues) <= queues && fresh(queues - old(queues))
    {
      hide Sound;
      var q;
      if |pool| == 0 {
        q := new WriteQueue();
        queues := queues + {q};
      } else {
        var x := |pool| - 1;
        q := pool[x];
        pool := pool[..x];
      }
      sq := sq[id := q];
    }

    method DropQueued(id: nat)
      requires Core() && id in sq
      modifies this`queued, sq[id]
      ensures Core() && sq[id].s == []
      ensures queued == old(queued)[Of(id) := []]
    {
      hide Sound;
      ReplacedIsSound(queued, Of(id), [], windows, conns);
      sq[id].s := [];
      queued := queued[Of(id) := []];
    }

    /** Discards what is queued for the stream, and nothing else. */
    method CloseStream(streamID: nat)
      requires Valid()
      modifies this`sq, this`pool, this`queued, queues
      ensures Valid()
      ensures forall k: Key :: At(queued, k) == if k == Of(streamID) then [] else old(At(queued, k))
    {
      hide Sound;
      if streamID in sq {
        DropQueued(streamID);
        Release(streamID);
      }
    }

    method PushControl(r: Request)
      requires Valid() && r.Valid() && r.IsControl()
      modifies this`queued, zero
      ensures Valid()
      ensures queued == Pushed(old(queued), r)
    {
      hide Sound;
      PushedIsSound(queued, r, windows, windows, conns, conns);
      zero.Push(r);
      queued := Pushed(queued, r);
    }

    /** Appends to the queue of a stream that has one. */
    method PushStream(r: Request)
      requires Core() && r.Valid() && !r.IsControl() && r.StreamID() in sq
      modifies this`queued, this`windows, this`conns, sq[r.StreamID()]
      ensures Core()
      ensures windows == old(windows) + r.Windows() && conns == old(conns) + {r.stream.sc}
      ensures queued == Pushed(old(queued), r)
    {
      hide Sound;
      PushedIsSound(queued, r, windows, windows + r.Windows(), conns, conns + {r.stream.sc});
      var q := sq[r.StreamID()];
      q.Push(r);
      queued, windows, conns := Pushed(queued, r), windows + r.Windows(), conns + {r.stream.sc};
    }

    method PushToStream(r: Request)
      requires Valid() && r.Valid() && !r.IsControl()
      modifies this, queues
      ensures Valid() && old(queues) <= queues && fresh(queues - old(queues))
      ensures windows == old(windows) + r.Windows() && conns == old(conns) + {r.stream.sc}
      ensures queued == Pushed(old(queued), r)
    {
      hide Sound;
      var id := r.StreamID();
      if id !in sq {
        Acquire(id);
      }
      PushStream(r);
    }

    /** Appends to the queue of the request's stream, or to the control queue. */
    method Push(r: Request)
      requires Valid() && r.Valid()
      modifies this, queues
      ensures Valid() && old(queues) <= queues && fresh(queues - old(queues))
      ensures windows == old(windows) + r.Windows()
      ensures conns == old(conns) + if r.stream == null then {} else {r.stream.sc}
      ensures queued == Pushed(old(queued), r)
    {
      hide Sound, Pushed;
      if r.IsControl() {
        PushControl(r);
      } else {
        PushToStream(r);
      }
    }

    /** Takes the oldest control frame. */
    method PopControl() returns (r: Request)
      requires Valid() && !zero.Empty()
      modifies this`queued, zero
      ensures Valid()
      ensures r == old(zero.s)[0] && r.DataSize() == 0 && Filed(r, Control, windows, conns)
      ensures Popped(old(queued), r, queued)
    {
      hide Sound, Atoms;
      PopsWhole(queued, Control, windows, conns);
      r := zero.Shift();
      queued := queued[Control := zero.s];
    }

    static lemma PopsWhole(q: Queues, k: Key, windows: set<Flow>, conns: set<Conn>)
      requires Sound(q, windows, conns) && At(q, k) != []
      ensures Sound(q[k := At(q, k)[1..]], windows, conns) && Filed(At(q, k)[0], k, windows, conns)
    {
      ReplacedIsSound(q, k, At(q, k)[1..], windows, conns);
    }

    /** Nothing can be written from any queue. */
    ghost predicate AllStuck()
      requires Core()
      reads this, queues, windows, conns
    {
      zero.s == [] && forall id :: id in sq ==> !Ready(id)
    }

    /** Whether the queue of a stream can give anything. */
    ghost predicate Ready(id: nat)
      requires Core() && id in sq
      reads this, queues, windows, conns
    {
      QueueFacts(queued, Of(id), windows, conns);
      var q := sq[id];
      assert q.s == At(queued, Of(id));
      assert q.s != [] ==> q.s[0] in q.s;
      !Stuck(q.s)
    }

    /** Changing one queue along with what is noted of it keeps everything else in order. */
    twostate lemma CoreKept(id: nat)
      requires old(Core()) && id in sq
      requires sq == old(sq) && pool == old(pool) && queues == old(queues)
      requires forall q <- queues :: q == sq[id] || q.s == old(q.s)
      requires Sound(queued, windows, conns)
      requires forall k: Key :: At(queued, k) == if k == Of(id) then sq[id].s else old(At(queued, k))
      ensures Core()
    {
    }

    method ConsumeStream(id: nat) returns (r: Request, ok: bool)
      requires Core() && id in sq
      modifies this`queued, sq[id], windows
      ensures Core()
      ensures ok == old(Ready(id))
      ensures ok ==> Popped(old(queued), r, queued) && Filed(r, Of(id), windows, conns)
      ensures !ok ==> queued == old(queued) && sq[id].s == old(sq[id].s) && r.Windows() == {} && r.DataSize() == 0
      ensures forall f <- windows :: f.n == old(f.n) - Debit(r, f)
      ensures WithinLimits(r)
    {
      hide Sound, Atoms, AllAtoms, Unaliased;
      QueueFacts(queued, Of(id), windows, conns);
      var q := sq[id];
      assert q.s == At(queued, Of(id));
      assert q.Valid() && (q.s != [] ==> q.s[0] in q.s);
      r, ok := q.ConsumeHead(MAX_INT32);
      if ok {
        RestIsFiled(old(queued), id, q.s, windows, conns);
        ReplacedIsSound(queued, Of(id), q.s, windows, conns);
        queued := queued[Of(id) := q.s];
      }
      CoreKept(id);
    }

    /** Consumes from the queue of one stream, and drops the queue once it is empty. */
    method PopStream(id: nat) returns (r: Request, ok: bool)
      requires Valid() && id in sq
      modifies this`queued, this`sq, this`pool, sq[id], windows
      ensures Valid()
      ensures ok == old(Ready(id))
      ensures ok ==> Popped(old(queued), r, queued) && Filed(r, Of(id), windows, conns)
      ensures !ok ==> queued == old(queued) && sq == old(sq) && pool == old(pool) && sq[id].s == old(sq[id].s)
      ensures !ok ==> r.Windows() == {} && r.DataSize() == 0
      ensures forall f <- windows :: f.n == old(f.n) - Debit(r, f)
      ensures WithinLimits(r)
    {
      hide Sound, Atoms, AllAtoms, Unaliased, Ready;
      r, ok := ConsumeStream(id);
      if ok && sq[id].Empty() {
        Release(id);
      }
    }

    /** Tries the streams in any order until one can be consumed from. */
    method PopAnyStream() returns (r: Request, ok: bool)
      requires Valid()
      modifies this`queued, this`sq, this`pool, queues, windows
      ensures Valid()
      ensures ok ==> Popped(old(queued), r, queued) && Filed(r, KeyOf(r), windows, conns)
      ensures !ok ==> queued == old(queued) && sq == old(sq) && r.DataSize() == 0
      ensures !ok ==> forall x :: x in sq ==> !old(Ready(x)) && !Ready(x)
      ensures forall f <- windows :: f.n == old(f.n) - Debit(r, f)
      ensures WithinLimits(r)
    {
      hide Sound, Popped, Unaliased, WithinLimits, Ready, Core;
      r, ok := Request(Other(0), null, None), false;
      NoLimits(r);
      var rest := sq.Keys;
      while rest != {}
        invariant Valid() && rest <= sq.Keys && r.Windows() == {} && r.DataSize() == 0 && WithinLimits(r) && !ok
        invariant sq == old(sq) && pool == old(pool) && queued == old(queued)
        invariant forall x :: x in sq ==> sq[x].s == old(sq[x].s)
        invariant forall f <- windows :: f.n == old(f.n)
        invariant forall x :: x in sq && x !in rest ==> !old(Ready(x))
        decreases rest
      {
        var streamID :| streamID in rest;
        rest := rest - {streamID};
        OwnQueues();
        ReadyKept(streamID);
        r, ok := PopStream(streamID);
        if ok {
          return;
        }
      }
      forall x | x in sq ensures !Ready(x) {
        ReadyKept(x);
      }
    }

    twostate lemma ReadyKept(id: nat)
      requires old(Core()) && Core() && id in sq
      requires sq == old(sq) && queued == old(queued) && windows == old(windows) && conns == old(conns)
      requires sq[id].s == old(sq[id].s)
      requires forall f <- windows :: f.n == old(f.n)
      requires forall c <- conns :: c.maxFrameSize == old(c.maxFrameSize)
      ensures Ready(id) == old(Ready(id))
    {
      hide Sound;
      QueueFacts(queued, Of(id), windows, conns);
      assert sq[id].s == At(queued, Of(id));
      assert sq[id].s != [] ==> sq[id].s[0] in sq[id].s;
    }

    static lemma NoLimits(r: Request)
      requires r.DataSize() == 0
      ensures WithinLimits(r)
    {
    }

    /**
      * The next frame to write: a control frame if there is one, else something
      * from any stream that flow control lets through.
      */
    method Pop() returns (r: Request, ok: bool)
      requires Valid()
      modifies this`queued, this`sq, this`pool, queues, windows
      ensures Valid()
      ensures ok ==> Popped(old(queued), r, queued) && Filed(r, KeyOf(r), windows, conns)
      ensures old(zero.s) != [] ==> ok && r == old(zero.s)[0]
      ensures !ok ==> queued == old(queued) && r.DataSize() == 0 && AllStuck() && old(AllStuck())
      ensures forall f <- windows :: f.n == old(f.n) - Debit(r, f)
      ensures WithinLimits(r)
    {
      hide Sound, Popped, Unaliased, WithinLimits, Ready;
      if !zero.Empty() {
        OwnQueues();
        r := PopControl();
        NoLimits(r);
        return r, true;
      }
      r, ok := PopAnyStream();
    }

    lemma OwnQueues()
      requires Core()
      ensures zero in queues && forall x :: x in sq ==> sq[x] in queues && sq[x] != zero
    {
    }

    static lemma QueueFacts(q: Queues, k: Key, windows: set<Flow>, conns: set<Conn>)
      requires Sound(q, windows, conns)
      ensures forall r <- At(q, k) :: Filed(r, k, windows, conns)
    {
      forall r | r in At(q, k)
        ensures Filed(r, k, windows, conns)
      {
        var i :| 0 <= i < |At(q, k)| && At(q, k)[i] == r;
        assert Filed(At(q, k)[i], k, windows, conns);
      }
    }

    static lemma RestIsFiled(qs: Queues, id: nat, rest: seq<Request>, windows: set<Flow>, conns: set<Conn>)
      requires Sound(qs, windows, conns)
      requires forall r <- rest :: r.Valid()
      requires FromHead(At(qs, Of(id)), rest)
      ensures forall i: nat :: i < |rest| ==> Filed(rest[i], Of(id), windows, conns)
    {
      var q := At(qs, Of(id));
      forall i: nat | i < |rest|
        ensures Filed(rest[i], Of(id), windows, conns)
      {
        assert rest[i] in rest;
        assert Filed(q[0], Of(id), windows, conns);
        if rest == q[1..] {
          assert Filed(q[i + 1], Of(id), windows, conns);
        } else if i > 0 {
          assert rest[i] == rest[1..][i - 1] == q[1..][i - 1];
          assert Filed(q[i], Of(id), windows, conns);
        }
      }
    }
  }

  // ----- Whole runs -----

  datatype Event =
    | PushEvent(r: Request)
    | PopEvent
    | CloseEvent(id: nat)
    | WindowEvent(flow: Flow, k: Int32)
    | FrameSizeEvent(conn: Conn, size: Int32)

  /** The calls a server makes, over the given windows and connections. */
  ghost predicate Allowed(e: Event, flows: set<Flow>, conns: set<Conn>) {
    match e
    case PushEvent(r) => r.Valid() && Within(r, flows, conns)
    case WindowEvent(f, _) => f in flows
    case FrameSizeEvent(c, _) => c in conns
    case _ => true
  }

  /** The step is one the event can take; only a pop and a window change leave a choice. */
  ghost predicate Answers(e: Event, s: Step<Key>) {
    match e
    case PushEvent(r) => s == DidPush(KeyOf(r), r)
    case PopEvent => s.PoppedNothing? || (s.DidPop? && s.k == KeyOf(s.r))
    case CloseEvent(id) => s == DidClose(Of(id))
    case WindowEvent(f, n) => s == DidGrant(f, n) || s == RefusedGrant(f, n)
    case FrameSizeEvent(c, n) => s == DidResize(c, n)
  }

  /** For every queue, all that was pushed since its last close was popped or is queued, in order. */
  ghost predicate Conserved(h: seq<Step<Key>>, q: Queues) {
    forall k: Key :: Conserves(h, k, At(q, k))
  }

  /** At no time had more been popped from a queue than pushed, or in another order. */
  ghost predicate NeverAhead(h: seq<Step<Key>>) {
    forall k: Key :: NeverAheadAt(h, k)
  }

  ghost predicate AllSourced(h: seq<Step<Key>>, q: Queues) {
    forall k: Key :: Sourced(h, k, At(q, k))
  }

  /** A pop found nothing only when every queue was empty or its stream could not write. */
  ghost predicate IdleOnlyStalled(h: seq<Step<Key>>, windows: map<Flow, int>, sizes: map<Conn, int>) {
    forall i: nat, k: Key :: 0 < i <= |h| && h[i - 1].PoppedNothing? ==> Stalled(h[..i], k, windows, sizes)
  }

  /** What a step does to the queues. */
  ghost predicate MovesAll(s: Step<Key>, q: Queues, q': Queues) {
    forall k: Key :: Moves(s, k, At(q, k), At(q', k)) && (s.DidPop? && s.k == k ==> FromHead(At(q, k), At(q', k)))
  }

  lemma ConservedNext(h: seq<Step<Key>>, q: Queues, s: Step<Key>, q': Queues)
    requires Conserved(h, q) && NeverAhead(h) && AllSourced(h, q) && MovesAll(s, q, q')
    ensures Conserved(h + [s], q') && NeverAhead(h + [s]) && AllSourced(h + [s], q')
  {
    hide Conserves, Moves, NeverAheadAt, Sourced, FromHead;
    forall k: Key
      ensures Conserves(h + [s], k, At(q', k)) && NeverAheadAt(h + [s], k) && Sourced(h + [s], k, At(q', k))
    {
      ConservesNext(h, s, k, At(q, k), At(q', k));
      NeverAheadNext(h, s, k, At(q', k));
      SourcedNext(h, s, k, At(q, k), At(q', k));
    }
  }

  lemma IdleNext(h: seq<Step<Key>>, s: Step<Key>, windows: map<Flow, int>, sizes: map<Conn, int>)
    requires IdleOnlyStalled(h, windows, sizes)
    requires s.PoppedNothing? ==> forall k: Key :: Stalled(h + [s], k, windows, sizes)
    ensures IdleOnlyStalled(h + [s], windows, sizes)
  {
    hide Stalled;
    var h' := h + [s];
    forall i: nat, k: Key | 0 < i <= |h'| && h'[i - 1].PoppedNothing?
      ensures Stalled(h'[..i], k, windows, sizes)
    {
      if i <= |h| {
        assert h'[..i] == h[..i] && h'[i - 1] == h[i - 1];
      } else {
        assert h'[..i] == h';
      }
    }
  }

  lemma StuckEverywhere(ws: RandomWriteScheduler, h: seq<Step<Key>>, flows: set<Flow>, conns: set<Conn>,
                        windows: map<Flow, int>, sizes: map<Conn, int>)
    requires ws.Valid() && ws.AllStuck() && ws.windows <= flows && ws.conns <= conns
    requires flows <= windows.Keys && conns <= sizes.Keys && Booked(h, flows, conns, windows, sizes)
    requires Conserved(h, ws.queued) && AllSourced(h, ws.queued)
    ensures forall k: Key :: Stalled(h, k, windows, sizes)
  {
    hide Conserves, Sourced, Stalled, Booked, Sound, RandomWriteScheduler.Unaliased, Stuck;
    forall k: Key
      ensures Stalled(h, k, windows, sizes)
    {
      RandomWriteScheduler.QueueFacts(ws.queued, k, ws.windows, ws.conns);
      StuckAt(ws, k);
      StuckStalled(h, k, At(ws.queued, k), flows, conns, windows, sizes);
    }
  }

  lemma StuckAt(ws: RandomWriteScheduler, k: Key)
    requires ws.Valid() && ws.AllStuck()
    requires forall r <- At(ws.queued, k) :: r.Valid()
    ensures Stuck(At(ws.queued, k))
  {
    hide Sound, RandomWriteScheduler.Unaliased;
    if k.Of? && k.id in ws.sq {
      assert !ws.Ready(k.id);
    }
  }

  /** One event, and what came of it. */
  method Do(ws: RandomWriteScheduler, e: Event, ghost flows: set<Flow>, ghost conns: set<Conn>) returns (s: Step<Key>)
    requires ws.Valid() && Allowed(e, flows, conns) && ws.windows <= flows && ws.conns <= conns
    modifies ws, ws.queues, flows, conns
    ensures ws.Valid() && ws.windows <= flows && ws.conns <= conns
    ensures old(ws.queues) <= ws.queues && fresh(ws.queues - old(ws.queues))
    ensures Answers(e, s) && MovesAll(s, old(ws.queued), ws.queued)
    ensures forall f <- flows :: f.n == old(f.n) + Change(s, f)
    ensures forall c <- conns :: c.maxFrameSize == SizeNext(s, c, old(c.maxFrameSize))
    ensures s.DidPop? ==> WithinLimits(s.r) && Within(s.r, flows, conns)
    ensures s.PoppedNothing? ==> ws.AllStuck()
    ensures s.RefusedGrant? ==> !InInt32(s.flow.n + s.n)
  {
    hide RandomWriteScheduler.Valid, RandomWriteScheduler.Core, RandomWriteScheduler.AllStuck, AllAtoms, Atoms, FromHead, WithinLimits;
    match e
    case PushEvent(r) =>
      ws.Push(r);
      return DidPush(KeyOf(r), r);
    case PopEvent =>
      var r, ok := ws.Pop();
      return if ok then DidPop(KeyOf(r), r) else PoppedNothing;
    case CloseEvent(id) =>
      ws.CloseStream(id);
      return DidClose(Of(id));
    case WindowEvent(f, n) =>
      var ok := f.Add(n);
      return if ok then DidGrant(f, n) else RefusedGrant(f, n);
    case FrameSizeEvent(c, n) =>
      c.maxFrameSize := n;
      return DidResize(c, n);
  }

  /**
    * Any run of a new scheduler, with windows and frame sizes that change in between.
    * The history h holds only the calls and their results.
    */
  method Drive(events: seq<Event>, ghost flows: set<Flow>, ghost conns: set<Conn>)
    returns (h: seq<Step<Key>>, ws: RandomWriteScheduler)
    requires forall e <- events :: Allowed(e, flows, conns)
    modifies flows, conns
    ensures |h| == |events| && forall i :: 0 <= i < |h| ==> Answers(events[i], h[i])
    ensures ws.Valid() && Conserved(h, ws.queued)
    ensures NeverAhead(h)
    ensures AllLawful(h, old(WindowsOf(flows)), old(SizesOf(conns)))
    ensures IdleOnlyStalled(h, old(WindowsOf(flows)), old(SizesOf(conns)))
    ensures Booked(h, flows, conns, old(WindowsOf(flows)), old(SizesOf(conns)))
  {
    hide RandomWriteScheduler.Valid, RandomWriteScheduler.Core, RandomWriteScheduler.AllStuck;
    hide MovesAll, Conserved, NeverAhead, AllSourced, AllLawful, Lawful, IdleOnlyStalled, Stalled, WithinLimits, Within;
    hide Change, SizeNext, Allowed, Balance, SizeAfter;
    ghost var windows, sizes := WindowsOf(flows), SizesOf(conns);
    ws := new RandomWriteScheduler();
    h := [];
    StartsWell(windows, sizes);
    StartsBooked(flows, conns);
    for i := 0 to |events|
      invariant |h| == i && forall x :: 0 <= x < i ==> Answers(events[x], h[x])
      invariant ws.Valid() && fresh(ws) && fresh(ws.queues) && ws.windows <= flows && ws.conns <= conns
      invariant Conserved(h, ws.queued) && NeverAhead(h) && AllSourced(h, ws.queued)
      invariant AllLawful(h, windows, sizes) && IdleOnlyStalled(h, windows, sizes)
      invariant Booked(h, flows, conns, windows, sizes)
    {
      ghost var q := ws.queued;
      var s := Do(ws, events[i], flows, conns);
      ConservedNext(h, q, s, ws.queued);
      BookedNext(h, s, flows, conns, windows, sizes);
      OwnWindow(events[i], s, flows, conns);
      StepLawful(h, s, flows, conns, windows, sizes);
      AllLawfulNext(h, s, windows, sizes);
      if s.PoppedNothing? {
        StuckEverywhere(ws, h + [s], flows, conns, windows, sizes);
      }
      IdleNext(h, s, windows, sizes);
      h := h + [s];
    }
  }

  lemma OwnWindow(e: Event, s: Step<Key>, flows: set<Flow>, conns: set<Conn>)
    requires Allowed(e, flows, conns) && Answers(e, s)
    ensures s.DidGrant? || s.RefusedGrant? ==> s.flow in flows
  {
  }

  lemma StartsWell(windows: map<Flow, int>, sizes: map<Conn, int>)
    ensures Conserved([], map[]) && NeverAhead([]) && AllSourced([], map[])
    ensures AllLawful<Key>([], windows, sizes) && IdleOnlyStalled([], windows, sizes)
  {
  }

  lemma StartsBooked(flows: set<Flow>, conns: set<Conn>)
    ensures Booked<Key>([], flows, conns, WindowsOf(flows), SizesOf(conns))
  {
  }
}
