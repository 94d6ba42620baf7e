/** Whole runs of the scheduler of http2/writesched_priority.go. */
module PriorityRuns {
  import opened Common
  import opened FlowControl
  import opened WriteSched
  import opened SchedRuns
  import opened PriorityTree
  import opened PrioritySched

  datatype Event =
    | OpenEvent(id: nat, pusher: nat)
    | CloseEvent(id: nat)
    | AdjustEvent(id: nat, priority: PriorityParam)
    | PushEvent(r: Request)
    | PopEvent
    | WindowEvent(flow: Flow, n: Int32)
    | FrameSizeEvent(conn: Conn, size: Int32)

  /** The calls a server makes, over the given windows and connections. */
  ghost predicate Allowed(e: Event, flows: set<Flow>, conns: set<Conn>) {
    match e
    case PushEvent(r) => r.Valid() && Within(r, flows, conns)
    case WindowEvent(f, _) => f in flows
    case FrameSizeEvent(c, _) => c in conns
    case _ => true
  }

  /**
    * The step is one the event can take.  A queue is that of a node: the root, or the
    * node of the stream.  A call that panics leaves no trace.
    */
  ghost predicate Answers(e: Event, s: Step<Node>) {
    match e
    case OpenEvent(_, _) => s.DidOther?
    case CloseEvent(id) => s.DidOther? || (s.DidClose? && s.k.id == id != 0)
    case AdjustEvent(_, _) => s.DidOther?
    case PushEvent(r) => (s.DidOther? && r.DataSize() > 0) || (s.DidPush? && s.r == r && OfNode(r, s.k.id))
    case PopEvent => s.PoppedNothing? || (s.DidPop? && OfNode(s.r, s.k.id))
    case WindowEvent(f, n) => s == DidGrant(f, n) || s == RefusedGrant(f, n)
    case FrameSizeEvent(c, n) => s == DidResize(c, n)
  }

  /** The node whose queue the step changes, if any. */
  ghost function Touched(s: Step<Node>): (ns: set<Node>) {
    if s.DidPush? || s.DidPop? || s.DidClose? then {s.k} else {}
  }

  ghost function QueuesOf(nodes: set<Node>): (q: map<Node, seq<Request>>)
    reads nodes`q
    ensures q.Keys == nodes
  {
    map n | n in nodes :: n.q
  }

  /** For every node, all that was pushed there since its stream closed was popped or is queued, in order; never was more popped. */
  ghost predicate Conserved(h: seq<Step<Node>>, q: map<Node, seq<Request>>) {
    forall n <- q :: Conserves(h, n, q[n]) && NeverAheadAt(h, n)
  }

  ghost predicate Inside(h: seq<Step<Node>>, nodes: set<Node>) {
    forall s <- h :: Touched(s) <= nodes
  }

  /** A node that is new has seen nothing. */
  lemma NewNode(h: seq<Step<Node>>, s: Step<Node>, nodes: set<Node>, n: Node)
    requires Inside(h, nodes) && Touched(s) <= nodes && n !in nodes
    ensures Conserves(h + [s], n, []) && NeverAheadAt(h + [s], n)
  {
    hide Conserves, NeverAheadAt;
    forall x | x in h + [s] ensures (x.DidPush? || x.DidPop?) ==> x.k != n {
      if x in h {
        assert Touched(x) <= nodes;
      }
      assert x.DidPush? || x.DidPop? ==> x.k in Touched(x);
    }
    UntouchedNever(h + [s], n);
  }

  /** What a step does to the queues: those of new nodes are empty. */
  ghost predicate MovesAll(s: Step<Node>, q: map<Node, seq<Request>>, q': map<Node, seq<Request>>) {
    && Touched(s) <= q.Keys <= q'.Keys
    && forall n <- q' :: if n in q then Moves(s, n, q[n], q'[n]) else q'[n] == []
  }

  lemma ConservedNext(h: seq<Step<Node>>, s: Step<Node>, q: map<Node, seq<Request>>, q': map<Node, seq<Request>>)
    requires Inside(h, q.Keys) && Conserved(h, q) && MovesAll(s, q, q')
    ensures Inside(h + [s], q'.Keys) && Conserved(h + [s], q')
  {
    hide Conserves, NeverAheadAt, Moves, Touched;
    forall n | n in q'
      ensures Conserves(h + [s], n, q'[n]) && NeverAheadAt(h + [s], n)
    {
      if n in q {
        ConservesNext(h, s, n, q[n], q'[n]);
        NeverAheadNext(h, s, n, q'[n]);
      } else {
        NewNode(h, s, q.Keys, n);
      }
    }
  }

  /** A step that touches no queue. */
  lemma NothingMoves(s: Step<Node>, q: map<Node, seq<Request>>, q': map<Node, seq<Request>>)
    requires Touched(s) == {} && q.Keys <= q'.Keys
    requires forall n <- q' :: q'[n] == if n in q then q[n] else []
    ensures MovesAll(s, q, q')
  {
  }

  lemma PopMoves(at: Node, r: Request, q: map<Node, seq<Request>>, q': map<Node, seq<Request>>)
    requires at in q && q.Keys == q'.Keys && AllAtoms(q[at]) == Atoms(r) + AllAtoms(q'[at])
    requires forall n <- q :: n != at ==> q'[n] == q[n]
    ensures MovesAll(DidPop(at, r), q, q')
  {
    hide AllAtoms, Atoms;
  }

  method DoOpen(ws: PriorityWriteScheduler, id: nat, pusher: nat)
    requires ws.Valid()
    modifies ws`nodes, ws`parents, ws`depth, ws`all, ws`maxID
    modifies ws.all`state, ws.all`parent, ws.all`kids, ws.all`prev, ws.all`next, ws.all`pos
    ensures ws.Valid() && old(ws.all) <= ws.all && fresh(ws.all - old(ws.all))
    ensures MovesAll(DidOther, old(QueuesOf(ws.all)), QueuesOf(ws.all))
  {
    hide PriorityWriteScheduler.Valid, MovesAll;
    var ok := ws.OpenStream(id, pusher);
    NothingMoves(DidOther, old(QueuesOf(ws.all)), QueuesOf(ws.all));
  }

  method DoAdjust(ws: PriorityWriteScheduler, id: nat, priority: PriorityParam)
    requires ws.Valid()
    modifies ws`nodes, ws`parents, ws`depth, ws`all, ws`maxID, ws`idleNodes
    modifies ws.all`weight, ws.all`parent, ws.all`kids, ws.all`prev, ws.all`next, ws.all`pos
    ensures ws.Valid() && old(ws.all) <= ws.all && fresh(ws.all - old(ws.all))
    ensures MovesAll(DidOther, old(QueuesOf(ws.all)), QueuesOf(ws.all))
  {
    hide PriorityWriteScheduler.Valid, MovesAll, PriorityForest.Adjusted, KeptParents, KeptNodes, KeptList;
    hide PriorityWriteScheduler.Placed, PriorityWriteScheduler.NewWeight;
    var ok := ws.AdjustStream(id, priority);
    NothingMoves(DidOther, old(QueuesOf(ws.all)), QueuesOf(ws.all));
  }

  method DoClose(ws: PriorityWriteScheduler, id: nat) returns (s: Step<Node>)
    requires ws.Valid()
    modifies ws`nodes, ws`parents, ws`depth, ws`closedNodes
    modifies ws.all`state, ws.all`q, ws.all`bytes, ws.all`subtreeBytes
    modifies ws.all`parent, ws.all`kids, ws.all`prev, ws.all`next, ws.all`pos
    ensures ws.Valid() && Answers(CloseEvent(id), s)
    ensures MovesAll(s, old(QueuesOf(ws.all)), QueuesOf(ws.all))
    ensures s.DidClose? <==> id != 0 && id in old(ws.nodes) && old(ws.nodes[id].state) == Open
  {
    hide PriorityWriteScheduler.Valid, KeptParents, KeptNodes, KeptList, PriorityForest.Removed;
    ws.Outline();
    var n: Node := if id in ws.nodes then ws.nodes[id] else ws.root;
    var ok := ws.CloseStream(id);
    return if ok then DidClose(n) else DidOther;
  }

  /** Opening, closing and re-prioritising. */
  method DoTree(ws: PriorityWriteScheduler, e: Event) returns (s: Step<Node>)
    requires ws.Valid() && (e.OpenEvent? || e.AdjustEvent? || e.CloseEvent?)
    modifies ws`nodes, ws`parents, ws`depth, ws`all, ws`maxID, ws`idleNodes, ws`closedNodes, ws.all
    ensures ws.Valid() && old(ws.all) <= ws.all && fresh(ws.all - old(ws.all))
    ensures Answers(e, s) && (s.DidOther? || s.DidClose?)
    ensures MovesAll(s, old(QueuesOf(ws.all)), QueuesOf(ws.all))
    ensures e.CloseEvent? ==>
              (s.DidClose? <==> e.id != 0 && e.id in old(ws.nodes) && old(ws.nodes[e.id].state) == Open)
  {
    hide PriorityWriteScheduler.Valid, MovesAll, QueuesOf;
    match e
    case OpenEvent(id, pusher) =>
      DoOpen(ws, id, pusher);
      return DidOther;
    case AdjustEvent(id, priority) =>
      DoAdjust(ws, id, priority);
      return DidOther;
    case CloseEvent(id) =>
      s := DoClose(ws, id);
  }

  method DoPush(ws: PriorityWriteScheduler, r: Request) returns (s: Step<Node>)
    requires ws.Valid() && r.Valid()
    modifies ws`windows, ws`conns, ws.all`q
    ensures ws.Valid() && Answers(PushEvent(r), s)
    ensures ws.windows <= old(ws.windows) + r.Windows()
    ensures ws.conns <= old(ws.conns) + if r.stream != null then {r.stream.sc} else {}
    ensures MovesAll(s, old(QueuesOf(ws.all)), QueuesOf(ws.all))
    ensures s.DidPush? <==> r.DataSize() == 0 || r.StreamID() in ws.nodes
  {
    hide PriorityWriteScheduler.Valid, AllAtoms, Atoms;
    ws.Outline();
    var ok, at := ws.Push(r);
    return if ok then DidPush(at, r) else DidOther;
  }

  // ----- Frames at the root come first -----

  /** DATA was pushed on the queue of n. */
  ghost predicate DataAt(h: seq<Step<Node>>, n: Node) {
    exists s <- h :: s.DidPush? && s.k == n && s.r.DataSize() > 0
  }

  /** A frame is popped elsewhere only when all that was pushed at the root was popped, or it holds DATA. */
  ghost predicate RootFirst(h: seq<Step<Node>>, root: Node) {
    forall i :: 0 <= i < |h| && h[i].DidPop? && h[i].k != root ==>
      PushedSince(h[..i], root) == PoppedSince(h[..i], root) || DataAt(h[..i], root)
  }

  lemma {:induction false} OctetPushed(h: seq<Step<Node>>, n: Node, b: Byte)
    requires Octet(b) in PushedSince(h, n)
    ensures DataAt(h, n)
  {
    if h != [] {
      var before, s := h[..|h| - 1], h[|h| - 1];
      if Octet(b) in PushedSince(before, n) {
        OctetPushed(before, n, b);
        var x :| x in before && x.DidPush? && x.k == n && x.r.DataSize() > 0;
        assert x in h;
      } else {
        assert s.DidPush? && s.k == n && Octet(b) in Atoms(s.r);
        OctetIsData(s.r, b);
      }
    }
  }

  lemma OctetIsData(r: Request, b: Byte)
    requires Octet(b) in Atoms(r)
    ensures r.DataSize() > 0
  {
    hide Octets;
  }

  lemma IdleRoot(h: seq<Step<Node>>, root: Node, q: seq<Request>)
    requires Conserves(h, root, q) && Idle(q)
    ensures PushedSince(h, root) == PoppedSince(h, root) || DataAt(h, root)
  {
    hide PushedSince, PoppedSince, DataAt;
    if q == [] {
      assert PoppedSince(h, root) + [] == PoppedSince(h, root);
    } else {
      var b := q[0].write.p[0];
      assert Atoms(q[0])[0] == Octet(b) && AllAtoms(q)[0] == Octet(b);
      assert AllAtoms(q)[0] in PushedSince(h, root);
      OctetPushed(h, root, b);
    }
  }

  lemma RootFirstNext(h: seq<Step<Node>>, s: Step<Node>, root: Node, q: seq<Request>)
    requires RootFirst(h, root) && Conserves(h, root, q) && (s.DidPop? && s.k != root ==> Idle(q))
    ensures RootFirst(h + [s], root)
  {
    hide PushedSince, PoppedSince, DataAt, Conserves, Idle;
    var h' := h + [s];
    forall i | 0 <= i < |h'| && h'[i].DidPop? && h'[i].k != root
      ensures PushedSince(h'[..i], root) == PoppedSince(h'[..i], root) || DataAt(h'[..i], root)
    {
      if i < |h| {
        assert h'[..i] == h[..i];
      } else {
        assert h'[..i] == h;
        IdleRoot(h, root, q);
      }
    }
  }

  /** Nothing is queued that carries no DATA; such frames are never blocked. */
  ghost predicate Idle(q: seq<Request>) {
    q == [] || q[0].DataSize() > 0
  }

  ghost predicate IsDue(ws: PriorityWriteScheduler, n: Node)
    reads ws, ws.all, ws.windows, ws.conns
  {
    ws.Valid() && n in ws.all && ws.Due(n)
  }

  lemma RootIdle(ws: PriorityWriteScheduler)
    requires ws.Valid()
    ensures ws.root in ws.all && Queueable(ws.root.q, ws.root.id, ws.windows, ws.conns)
    ensures StuckNode(ws.root.q, ws.root.id, ws.windows, ws.conns) ==> Idle(ws.root.q)
  {
    ws.RootFirst();
  }

  method DoPop(ws: PriorityWriteScheduler, ghost flows: set<Flow>, ghost conns: set<Conn>) returns (s: Step<Node>)
    requires ws.Valid() && ws.windows <= flows && ws.conns <= conns
    modifies ws`writeThrottleLimit, ws.all, ws.windows
    ensures ws.Valid() && Answers(PopEvent, s)
    ensures MovesAll(s, old(QueuesOf(ws.all)), QueuesOf(ws.all))
    ensures forall f <- flows :: f.n == old(f.n) + Change(s, f)
    ensures s.DidPop? ==> WithinLimits(s.r) && Within(s.r, flows, conns)
    ensures s.PoppedNothing? ==> ws.Candidates() == {}
    ensures s.DidPop? ==> var n := s.k; n in old(ws.all) && old(IsDue(ws, n))
    ensures s.DidPop? && s.k != ws.root ==> old(Idle(ws.root.q))
  {
    hide PriorityWriteScheduler.Valid, PriorityWriteScheduler.Candidates, PriorityWriteScheduler.OutOfOrder, PriorityWriteScheduler.Due;
    hide StuckNode, Queueable;
    RootIdle(ws);
    hide PriorityWriteScheduler.Throttled, AllAtoms, Atoms, WithinLimits, OfNode, MovesAll;
    var r, ok, at := ws.Pop();
    if !ok {
      NothingMoves(PoppedNothing, old(QueuesOf(ws.all)), QueuesOf(ws.all));
      return PoppedNothing;
    }
    var n: Node := at;
    PopMoves(n, r, old(QueuesOf(ws.all)), QueuesOf(ws.all));
    return DidPop(n, r);
  }

  /** One event, and what came of it. */
  method Do(ws: PriorityWriteScheduler, e: Event, ghost flows: set<Flow>, ghost conns: set<Conn>) returns (s: Step<Node>)
    requires ws.Valid() && Allowed(e, flows, conns) && ws.windows <= flows && ws.conns <= conns
    modifies ws, ws.all, flows, conns
    ensures ws.Valid() && ws.windows <= flows && ws.conns <= conns
    ensures old(ws.all) <= ws.all && fresh(ws.all - old(ws.all))
    ensures Answers(e, s) && MovesAll(s, old(QueuesOf(ws.all)), QueuesOf(ws.all))
    ensures forall f <- flows :: f.n == old(f.n) + Change(s, f)
    ensures forall c <- conns :: c.maxFrameSize == SizeNext(s, c, old(c.maxFrameSize))
    ensures s.DidPop? ==> WithinLimits(s.r) && Within(s.r, flows, conns)
    ensures s.PoppedNothing? ==> ws.Candidates() == {}
    ensures s.DidPop? ==> var n := s.k; n in old(ws.all) && old(IsDue(ws, n))
    ensures s.DidPop? && s.k != ws.root ==> old(Idle(ws.root.q))
    ensures s.RefusedGrant? ==> !InInt32(s.flow.n + s.n)
    ensures e.PushEvent? ==> (s.DidPush? <==> e.r.DataSize() == 0 || e.r.StreamID() in old(ws.nodes))
    ensures e.CloseEvent? ==>
              (s.DidClose? <==> e.id != 0 && e.id in old(ws.nodes) && old(ws.nodes[e.id].state) == Open)
  {
    hide PriorityWriteScheduler.Valid, PriorityWriteScheduler.Candidates;
    hide WithinLimits, OfNode, MovesAll, QueuesOf, Idle, IsDue;
    match e
    case PushEvent(r) =>
      s := DoPush(ws, r);
    case PopEvent =>
      s := DoPop(ws, flows, conns);
    case WindowEvent(f, n) =>
      var ok := f.Add(n);
      s := if ok then DidGrant(f, n) else RefusedGrant(f, n);
      NothingMoves(s, old(QueuesOf(ws.all)), QueuesOf(ws.all));
    case FrameSizeEvent(c, n) =>
      c.maxFrameSize := n;
      s := DidResize(c, n);
      NothingMoves(s, old(QueuesOf(ws.all)), QueuesOf(ws.all));
    case _ =>
      s := DoTree(ws, e);
  }

  /**
    * Any run of a new scheduler, with windows and frame sizes that change in between.
    * The nodes in the history h are the only thing in it that no caller sees.
    */
  method Drive(maxClosed: nat, maxIdle: nat, throttle: bool, events: seq<Event>, ghost flows: set<Flow>, ghost conns: set<Conn>)
    returns (h: seq<Step<Node>>, ws: PriorityWriteScheduler)
    requires forall e <- events :: Allowed(e, flows, conns)
    modifies flows, conns
    ensures |h| == |events| && forall i :: 0 <= i < |h| ==> Answers(events[i], h[i])
    ensures ws.Valid() && Inside(h, ws.all) && Conserved(h, QueuesOf(ws.all))
    ensures AllLawful(h, old(WindowsOf(flows)), old(SizesOf(conns)))
    ensures Booked(h, flows, conns, old(WindowsOf(flows)), old(SizesOf(conns)))
    ensures RootFirst(h, ws.root)
    ensures h != [] && h[|h| - 1].PoppedNothing? ==> ws.Candidates() == {}
  {
    hide PriorityWriteScheduler.Valid, PriorityWriteScheduler.Candidates, Conserved, Inside, AllLawful, Booked, Answers, Allowed, RootFirst;
    ghost var windows, sizes := WindowsOf(flows), SizesOf(conns);
    ws := new PriorityWriteScheduler(maxClosed, maxIdle, throttle);
    h := [];
    StartsWell(QueuesOf(ws.all), ws.root, windows, sizes);
    StartsBooked(flows, conns);
    for i := 0 to |events|
      invariant |h| == i && forall x :: 0 <= x < i ==> Answers(events[x], h[x])
      invariant fresh(ws) && fresh(ws.all) && Right(ws, h, flows, conns, windows, sizes)
      invariant h != [] && h[|h| - 1].PoppedNothing? ==> ws.Candidates() == {}
    {
      var s := Advance(ws, events[i], h, flows, conns, windows, sizes);
      h := h + [s];
    }
  }

  /** What holds of a scheduler after every history. */
  ghost predicate Right(ws: PriorityWriteScheduler, h: seq<Step<Node>>, flows: set<Flow>, conns: set<Conn>,
                        windows: map<Flow, int>, sizes: map<Conn, int>)
    reads ws, ws.all, flows, conns
  {
    && ws.Valid() && ws.windows <= flows <= windows.Keys && ws.conns <= conns <= sizes.Keys
    && Inside(h, ws.all) && Conserved(h, QueuesOf(ws.all)) && AllLawful(h, windows, sizes)
    && Booked(h, flows, conns, windows, sizes) && RootFirst(h, ws.root)
  }

  method Advance(ws: PriorityWriteScheduler, e: Event, ghost h: seq<Step<Node>>, ghost flows: set<Flow>, ghost conns: set<Conn>,
                 ghost windows: map<Flow, int>, ghost sizes: map<Conn, int>)
    returns (s: Step<Node>)
    requires Right(ws, h, flows, conns, windows, sizes) && Allowed(e, flows, conns)
    modifies ws, ws.all, flows, conns
    ensures Right(ws, h + [s], flows, conns, windows, sizes) && Answers(e, s)
    ensures old(ws.all) <= ws.all && fresh(ws.all - old(ws.all))
    ensures s.PoppedNothing? ==> ws.Candidates() == {}
  {
    hide PriorityWriteScheduler.Valid, PriorityWriteScheduler.Candidates, QueuesOf;
    hide Conserved, Conserves, RootFirst, Idle, IsDue, Inside, MovesAll, AllLawful, WithinLimits, Within, Change, SizeNext, Allowed, Balance, SizeAfter, Answers;
    RootConserved(ws, h);
    ghost var q, atRoot := QueuesOf(ws.all), ws.root.q;
    s := Do(ws, e, flows, conns);
    RootFirstNext(h, s, ws.root, atRoot);
    ConservedNext(h, s, q, QueuesOf(ws.all));
    RightNext(h, e, s, flows, conns, windows, sizes);
  }

  lemma RootConserved(ws: PriorityWriteScheduler, h: seq<Step<Node>>)
    requires ws.Valid() && Conserved(h, QueuesOf(ws.all))
    ensures Conserves(h, ws.root, ws.root.q)
  {
    hide Conserves, NeverAheadAt;
    ws.Outline();
    assert ws.root in QueuesOf(ws.all);
  }

  lemma RightNext(h: seq<Step<Node>>, e: Event, s: Step<Node>, flows: set<Flow>, conns: set<Conn>,
                  windows: map<Flow, int>, sizes: map<Conn, int>)
    requires flows <= windows.Keys && conns <= sizes.Keys && Allowed(e, flows, conns) && Answers(e, s)
    requires forall f <- flows :: f.n == windows[f] + Balance(h, f) + Change(s, f)
    requires forall c <- conns :: c.maxFrameSize == SizeNext(s, c, SizeAfter(h, c, sizes[c]))
    requires s.DidPop? ==> WithinLimits(s.r) && Within(s.r, flows, conns)
    requires s.RefusedGrant? ==> !InInt32(s.flow.n + s.n)
    requires AllLawful(h, windows, sizes)
    ensures Booked(h + [s], flows, conns, windows, sizes) && AllLawful(h + [s], windows, sizes)
  {
    hide Balance, SizeAfter, Change, SizeNext, WithinLimits, Within, Lawful, AllLawful, Booked;
    BookedNext(h, s, flows, conns, windows, sizes);
    StepLawful(h, s, flows, conns, windows, sizes);
    AllLawfulNext(h, s, windows, sizes);
  }

  lemma StartsWell(q: map<Node, seq<Request>>, root: Node, windows: map<Flow, int>, sizes: map<Conn, int>)
    requires forall n <- q :: q[n] == []
    ensures Inside([], q.Keys) && Conserved([], q) && AllLawful<Node>([], windows, sizes) && RootFirst([], root)
  {
  }

  lemma StartsBooked(flows: set<Flow>, conns: set<Conn>)
    ensures Booked<Node>([], flows, conns, WindowsOf(flows), SizesOf(conns))
  {
  }
}
