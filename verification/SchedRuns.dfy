/** What is seen of a run of a write scheduler: its calls, their results, and the changes of windows and frame sizes in between. */
module SchedRuns {
  import opened Common
  import opened FlowControl
  import opened WriteSched

  /** A call with what came of it; K tells the queues of the scheduler apart. */
  datatype Step<K> =
    | DidPush(k: K, r: Request)
    | DidPop(k: K, r: Request)
    | PoppedNothing
    | DidClose(k: K)
    | DidGrant(flow: Flow, n: Int32)
    | RefusedGrant(flow: Flow, n: Int32)
    | DidResize(conn: Conn, size: Int32)
    | DidOther

  // ----- What went through a queue -----

  /** All that was pushed on k since k was last closed, in order. */
  ghost function PushedSince<K>(h: seq<Step<K>>, k: K): (a: seq<Atom>) {
    if h == [] then []
    else
      var before, s := PushedSince(h[..|h| - 1], k), h[|h| - 1];
      if s.DidPush? && s.k == k then before + Atoms(s.r)
      else if s.DidClose? && s.k == k then []
      else before
  }

  /** All that was popped from k since k was last closed, in order. */
  ghost function PoppedSince<K>(h: seq<Step<K>>, k: K): (a: seq<Atom>) {
    if h == [] then []
    else
      var before, s := PoppedSince(h[..|h| - 1], k), h[|h| - 1];
      if s.DidPop? && s.k == k then before + Atoms(s.r)
      else if s.DidClose? && s.k == k then []
      else before
  }

  lemma SinceNext<K>(h: seq<Step<K>>, s: Step<K>, k: K)
    ensures PushedSince(h + [s], k) ==
            if s == DidClose(k) then [] else PushedSince(h, k) + if s.DidPush? && s.k == k then Atoms(s.r) else []
    ensures PoppedSince(h + [s], k) ==
            if s == DidClose(k) then [] else PoppedSince(h, k) + if s.DidPop? && s.k == k then Atoms(s.r) else []
  {
    hide Atoms;
    assert (h + [s])[..|h|] == h;
  }

  /** What a step does to the queue k: q before, q' after. */
  ghost predicate Moves<K>(s: Step<K>, k: K, q: seq<Request>, q': seq<Request>) {
    if s.DidPush? && s.k == k then q' == q + [s.r]
    else if s.DidPop? && s.k == k then AllAtoms(q) == Atoms(s.r) + AllAtoms(q')
    else if s.DidClose? && s.k == k then q' == []
    else q' == q
  }

  /** All that was pushed since the last close was popped or is queued, in order. */
  ghost predicate Conserves<K>(h: seq<Step<K>>, k: K, q: seq<Request>) {
    PushedSince(h, k) == PoppedSince(h, k) + AllAtoms(q)
  }

  lemma ConservesNext<K>(h: seq<Step<K>>, s: Step<K>, k: K, q: seq<Request>, q': seq<Request>)
    requires Conserves(h, k, q) && Moves(s, k, q, q')
    ensures Conserves(h + [s], k, q')
  {
    hide Atoms, AllAtoms, PushedSince, PoppedSince;
    SinceNext(h, s, k);
    var done, waiting := PoppedSince(h, k), AllAtoms(q);
    if s.DidPush? && s.k == k {
      AllAtomsAppend(q, s.r);
      assert (done + waiting) + Atoms(s.r) == done + (waiting + Atoms(s.r));
    } else if s.DidPop? && s.k == k {
      assert done + (Atoms(s.r) + AllAtoms(q')) == (done + Atoms(s.r)) + AllAtoms(q');
    } else if s.DidClose? && s.k == k {
      NoAtoms();
    }
  }

  lemma NoAtoms()
    ensures AllAtoms([]) == []
  {
  }

  /** What went through a queue that no step names. */
  lemma {:induction false} Untouched<K>(h: seq<Step<K>>, k: K)
    requires forall s <- h :: (s.DidPush? || s.DidPop?) ==> s.k != k
    ensures PushedSince(h, k) == PoppedSince(h, k) == []
  {
    if h != [] {
      Untouched(h[..|h| - 1], k);
    }
  }

  // ----- Windows and frame sizes -----

  /** What a step adds to a window: what it is granted, less what is written on it. */
  ghost function Change<K>(s: Step<K>, f: Flow): (n: int) {
    if s.DidGrant? && s.flow == f then s.n else if s.DidPop? then 0 - Debit(s.r, f) else 0
  }

  ghost function Balance<K>(h: seq<Step<K>>, f: Flow): (n: int) {
    if h == [] then 0 else Balance(h[..|h| - 1], f) + Change(h[|h| - 1], f)
  }

  ghost function SizeNext<K>(s: Step<K>, c: Conn, n: int): (n': int) {
    if s.DidResize? && s.conn == c then s.size else n
  }

  /** The frame size of a connection: the last one set, or else the one at the start. */
  ghost function SizeAfter<K>(h: seq<Step<K>>, c: Conn, start: int): (n: int) {
    if h == [] then start else SizeNext(h[|h| - 1], c, SizeAfter(h[..|h| - 1], c, start))
  }

  lemma BalanceNext<K>(h: seq<Step<K>>, s: Step<K>, f: Flow)
    ensures Balance(h + [s], f) == Balance(h, f) + Change(s, f)
  {
    assert (h + [s])[..|h|] == h;
  }

  lemma SizeAfterNext<K>(h: seq<Step<K>>, s: Step<K>, c: Conn, start: int)
    ensures SizeAfter(h + [s], c, start) == SizeNext(s, c, SizeAfter(h, c, start))
  {
    assert (h + [s])[..|h|] == h;
  }

  ghost function WindowsOf(flows: set<Flow>): (n: map<Flow, int>)
    reads flows
    ensures n.Keys == flows
  {
    map f | f in flows :: f.n
  }

  ghost function SizesOf(conns: set<Conn>): (n: map<Conn, int>)
    reads conns
    ensures n.Keys == conns
  {
    map c | c in conns :: c.maxFrameSize
  }

  /** The windows and frame sizes are those the history gives. */
  ghost predicate Booked<K>(h: seq<Step<K>>, flows: set<Flow>, conns: set<Conn>, windows: map<Flow, int>, sizes: map<Conn, int>)
    requires flows <= windows.Keys && conns <= sizes.Keys
    reads flows, conns
  {
    && (forall f <- flows :: f.n == windows[f] + Balance(h, f))
    && (forall c <- conns :: c.maxFrameSize == SizeAfter(h, c, sizes[c]))
  }

  lemma BookedNext<K>(h: seq<Step<K>>, s: Step<K>, flows: set<Flow>, conns: set<Conn>, windows: map<Flow, int>, sizes: map<Conn, int>)
    requires flows <= windows.Keys && conns <= sizes.Keys
    requires forall f <- flows :: f.n == windows[f] + Balance(h, f) + Change(s, f)
    requires forall c <- conns :: c.maxFrameSize == SizeNext(s, c, SizeAfter(h, c, sizes[c]))
    ensures Booked(h + [s], flows, conns, windows, sizes)
  {
    hide Balance, SizeAfter, Change, SizeNext;
    forall f | f in flows ensures f.n == windows[f] + Balance(h + [s], f) {
      BalanceNext(h, s, f);
    }
    forall c | c in conns ensures c.maxFrameSize == SizeAfter(h + [s], c, sizes[c]) {
      SizeAfterNext(h, s, c, sizes[c]);
    }
  }

  /** The request uses only these windows and this connection. */
  ghost predicate Within(r: Request, flows: set<Flow>, conns: set<Conn>) {
    r.Windows() <= flows && (r.stream != null ==> r.stream.sc in conns)
  }

  /**
    * What a step after h may be.  DATA that is popped fits the frame size its
    * connection has and the windows it uses; a grant is refused exactly if the sum
    * leaves 32 bits.
    */
  ghost predicate Lawful<K>(h: seq<Step<K>>, s: Step<K>, windows: map<Flow, int>, sizes: map<Conn, int>) {
    match s
    case DidPop(_, r) =>
      r.DataSize() > 0 ==>
        && r.stream != null && r.stream.sc in sizes && r.Windows() <= windows.Keys
        && r.DataSize() <= SizeAfter(h, r.stream.sc, sizes[r.stream.sc])
        && forall f <- r.Windows() :: windows[f] + Balance(h, f) >= r.DataSize()
    case DidGrant(f, n) => f in windows && InInt32(windows[f] + Balance(h, f) + n)
    case RefusedGrant(f, n) => f in windows && !InInt32(windows[f] + Balance(h, f) + n)
    case _ => true
  }

  ghost predicate AllLawful<K>(h: seq<Step<K>>, windows: map<Flow, int>, sizes: map<Conn, int>) {
    forall i: nat :: i < |h| ==> Lawful(h[..i], h[i], windows, sizes)
  }

  lemma AllLawfulNext<K>(h: seq<Step<K>>, s: Step<K>, windows: map<Flow, int>, sizes: map<Conn, int>)
    requires AllLawful(h, windows, sizes) && Lawful(h, s, windows, sizes)
    ensures AllLawful(h + [s], windows, sizes)
  {
    hide Lawful;
    var h' := h + [s];
    forall i: nat | i < |h'|
      ensures Lawful(h'[..i], h'[i], windows, sizes)
    {
      assert h'[..i] == h[..i];
      assert h[..|h|] == h;
    }
  }

  /** A step that kept the limits of the moment was one the history allowed. */
  lemma StepLawful<K>(h: seq<Step<K>>, s: Step<K>, flows: set<Flow>, conns: set<Conn>, windows: map<Flow, int>, sizes: map<Conn, int>)
    requires flows <= windows.Keys && conns <= sizes.Keys
    requires Booked(h + [s], flows, conns, windows, sizes)
    requires s.DidPop? ==> WithinLimits(s.r) && Within(s.r, flows, conns)
    requires s.DidGrant? ==> s.flow in flows
    requires s.RefusedGrant? ==> s.flow in flows && !InInt32(s.flow.n + s.n)
    ensures Lawful(h, s, windows, sizes)
  {
    hide Balance, SizeAfter;
    if s.DidPop? && s.r.DataSize() > 0 {
      SizeAfterNext(h, s, s.r.stream.sc, sizes[s.r.stream.sc]);
      forall f | f in s.r.Windows() ensures windows[f] + Balance(h, f) >= s.r.DataSize() {
        BalanceNext(h, s, f);
      }
    }
    if s.DidGrant? || s.RefusedGrant? {
      BalanceNext(h, s, s.flow);
    }
  }

  /** Some window of the request's stream, or its frame size, lets no byte through. */
  ghost predicate Starved<K>(h: seq<Step<K>>, r: Request, windows: map<Flow, int>, sizes: map<Conn, int>) {
    && r.stream != null && r.stream.sc in sizes && r.Windows() <= windows.Keys
    && (SizeAfter(h, r.stream.sc, sizes[r.stream.sc]) <= 0 || exists f <- r.Windows() :: windows[f] + Balance(h, f) <= 0)
  }

  /** All that was pushed on k was popped, or something pushed there is on a stream that may not write. */
  ghost predicate Stalled<K>(h: seq<Step<K>>, k: K, windows: map<Flow, int>, sizes: map<Conn, int>) {
    || PushedSince(h, k) == PoppedSince(h, k)
    || exists j: nat :: j < |h| && h[j].DidPush? && h[j].k == k && Starved(h, h[j].r, windows, sizes)
  }

  /** Every queued request is on a stream for which something was pushed there. */
  ghost predicate Sourced<K>(h: seq<Step<K>>, k: K, q: seq<Request>) {
    forall i: nat :: i < |q| ==> SourceOf(h, k, q[i])
  }

  ghost predicate SourceOf<K>(h: seq<Step<K>>, k: K, r: Request) {
    exists j: nat :: j < |h| && h[j].DidPush? && h[j].k == k && h[j].r.stream == r.stream
  }

  lemma SourceKept<K>(h: seq<Step<K>>, s: Step<K>, k: K, r: Request)
    requires SourceOf(h, k, r) || (s.DidPush? && s.k == k && s.r.stream == r.stream)
    ensures SourceOf(h + [s], k, r)
  {
    var h' := h + [s];
    if SourceOf(h, k, r) {
      var j: nat :| j < |h| && h[j].DidPush? && h[j].k == k && h[j].r.stream == r.stream;
      assert h'[j] == h[j];
    } else {
      assert h'[|h|] == s;
    }
  }

  lemma SourcedNext<K>(h: seq<Step<K>>, s: Step<K>, k: K, q: seq<Request>, q': seq<Request>)
    requires Sourced(h, k, q) && Moves(s, k, q, q') && (s.DidPop? && s.k == k ==> FromHead(q, q'))
    ensures Sourced(h + [s], k, q')
  {
    hide SourceOf, AllAtoms, Atoms;
    forall i: nat | i < |q'|
      ensures SourceOf(h + [s], k, q'[i])
    {
      if s.DidPush? && s.k == k {
        if i < |q| {
          assert SourceOf(h, k, q[i]);
        }
        SourceKept(h, s, k, q'[i]);
      } else if s.DidPop? && s.k == k {
        HeadSource(h, k, q, q', i);
        SourceKept(h, s, k, q'[i]);
      } else {
        SourceKept(h, s, k, q'[i]);
      }
    }
  }

  lemma HeadSource<K>(h: seq<Step<K>>, k: K, q: seq<Request>, q': seq<Request>, i: nat)
    requires Sourced(h, k, q) && FromHead(q, q') && i < |q'|
    ensures SourceOf(h, k, q'[i])
  {
    if q' == q[1..] {
      assert SourceOf(h, k, q[i + 1]);
    } else if i == 0 {
      assert SourceOf(h, k, q[0]);
    } else {
      assert q'[i] == q'[1..][i - 1] == q[1..][i - 1];
      assert SourceOf(h, k, q[i]);
    }
  }

  /** A queue from which nothing can be written. */
  lemma StuckStalled<K>(h: seq<Step<K>>, k: K, q: seq<Request>, flows: set<Flow>, conns: set<Conn>,
                        windows: map<Flow, int>, sizes: map<Conn, int>)
    requires flows <= windows.Keys && conns <= sizes.Keys && Booked(h, flows, conns, windows, sizes)
    requires Conserves(h, k, q) && Sourced(h, k, q)
    requires forall r <- q :: r.Valid() && Within(r, flows, conns)
    requires Stuck(q)
    ensures Stalled(h, k, windows, sizes)
  {
    hide Balance, SizeAfter, PushedSince, PoppedSince, Atoms;
    if q == [] {
      assert PoppedSince(h, k) + [] == PoppedSince(h, k);
    } else {
      var r := q[0];
      assert r in q && SourceOf(h, k, r);
      var j: nat :| j < |h| && h[j].DidPush? && h[j].k == k && h[j].r.stream == r.stream;
      assert h[j].r.Windows() == r.Windows();
      StarvedBy(h, h[j].r, r, flows, conns, windows, sizes);
    }
  }

  lemma StarvedBy<K>(h: seq<Step<K>>, r: Request, head: Request, flows: set<Flow>, conns: set<Conn>,
                     windows: map<Flow, int>, sizes: map<Conn, int>)
    requires flows <= windows.Keys && conns <= sizes.Keys && Booked(h, flows, conns, windows, sizes)
    requires head.Valid() && Within(head, flows, conns) && head.Blocked(MAX_INT32) && r.stream == head.stream
    ensures Starved(h, r, windows, sizes)
  {
    hide Balance, SizeAfter;
    var flow := head.stream.flow;
    assert flow in r.Windows() && (flow.conn != null ==> flow.conn in r.Windows());
    assert flow.Available() <= 0 || head.stream.sc.maxFrameSize <= 0;
  }

  /** At no time had more been popped from k than pushed, or in another order. */
  ghost predicate NeverAheadAt<K>(h: seq<Step<K>>, k: K) {
    forall i: nat :: i <= |h| ==> PoppedSince(h[..i], k) <= PushedSince(h[..i], k)
  }

  lemma NeverAheadNext<K>(h: seq<Step<K>>, s: Step<K>, k: K, q: seq<Request>)
    requires NeverAheadAt(h, k) && Conserves(h + [s], k, q)
    ensures NeverAheadAt(h + [s], k)
  {
    hide PushedSince, PoppedSince, AllAtoms;
    var h' := h + [s];
    forall i: nat | i <= |h'|
      ensures PoppedSince(h'[..i], k) <= PushedSince(h'[..i], k)
    {
      if i <= |h| {
        assert h'[..i] == h[..i];
      } else {
        assert h'[..i] == h';
      }
    }
  }

  /** A queue that no step names. */
  lemma UntouchedNever<K>(h: seq<Step<K>>, k: K)
    requires forall s <- h :: (s.DidPush? || s.DidPop?) ==> s.k != k
    ensures NeverAheadAt(h, k) && Conserves(h, k, [])
  {
    hide PushedSince, PoppedSince;
    forall i: nat | i <= |h|
      ensures PoppedSince(h[..i], k) <= PushedSince(h[..i], k)
    {
      Untouched(h[..i], k);
    }
    Untouched(h, k);
    NoAtoms();
  }
}
