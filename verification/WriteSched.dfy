/** http2/writesched.go: requests to write a frame, and queues of them. */
module WriteSched {
  import opened Common
  import opened FlowControl

  class Conn {
    /** SETTINGS_MAX_FRAME_SIZE of the peer. */
    var maxFrameSize: Int32

    constructor (maxFrameSize: Int32) {
      this.maxFrameSize := maxFrameSize;
    }
  }

  class Stream {
    const id: nat
    const sc: Conn
    const flow: Flow

    constructor (id: nat, sc: Conn, flow: Flow)
      ensures this.id == id && this.sc == sc && this.flow == flow
    {
      this.id, this.sc, this.flow := id, sc, flow;
    }
  }

  /** What a request writes: DATA, a RST_STREAM, or any other frame. */
  datatype Write = Data(streamID: nat, p: seq<Byte>, endStream: bool) | Reset(errStreamID: nat) | Other(tag: nat)

  datatype Request = Request(write: Write, stream: Stream?, done: Option<nat>) {

    function StreamID(): (id: nat) {
      if stream != null then stream.id else if write.Reset? then write.errStreamID else 0
    }

    predicate IsControl() {
      stream == null
    }

    function DataSize(): (n: nat)
      ensures n > 0 ==> write.Data?
    {
      if write.Data? then |write.p| else 0
    }

    /** A DATA request that carries bytes names the stream whose window it uses. */
    ghost predicate Valid() {
      && (DataSize() > 0 ==> stream != null)
      && (stream != null ==> stream.flow.Valid())
    }

    /** The windows a request may debit. */
    ghost function Windows(): (fs: set<Flow>)
      ensures stream != null ==> stream.flow in fs
    {
      if stream == null then {}
      else if stream.flow.conn == null then {stream.flow}
      else {stream.flow, stream.flow.conn}
    }

    /** How many bytes of a DATA request may be written now, given a limit n of the scheduler. */
    function Allowed(n: Int32): (a: Int32)
      requires stream != null
      reads stream.sc, stream.flow, stream.flow.conn
      ensures a <= n && a <= stream.sc.maxFrameSize && a <= stream.flow.Available()
      ensures a == n || a == stream.sc.maxFrameSize || a == stream.flow.Available()
    {
      Min(Min(stream.flow.Available(), n), stream.sc.maxFrameSize)
    }

    /** Flow control lets no byte of this request through. */
    predicate Blocked(n: Int32)
      requires Valid()
      reads if stream == null then {} else {stream.sc, stream.flow, stream.flow.conn}
    {
      DataSize() > 0 && Allowed(n) <= 0
    }
  }

  /**
    * What reaches the peer and the waiting writer, in order: the bytes of a DATA
    * frame, then its END_STREAM flag and the reply on its done channel, if any.
    */
  datatype Atom = Octet(b: Byte) | Flag | Reply(done: nat) | Whole(write: Write)

  ghost function Octets(p: seq<Byte>): (a: seq<Atom>)
    ensures |a| == |p|
    ensures forall i :: 0 <= i < |p| ==> a[i] == Octet(p[i])
  {
    seq(|p|, i requires 0 <= i < |p| => Octet(p[i]))
  }

  ghost function Closing(r: Request): (a: seq<Atom>) {
    (if r.write.Data? && r.write.endStream then [Flag] else []) +
    (if r.done.Some? then [Reply(r.done.value)] else [])
  }

  ghost function Atoms(r: Request): (a: seq<Atom>) {
    (if r.write.Data? then Octets(r.write.p) else [Whole(r.write)]) + Closing(r)
  }

  ghost function AllAtoms(rs: seq<Request>): (a: seq<Atom>) {
    if rs == [] then [] else Atoms(rs[0]) + AllAtoms(rs[1..])
  }

  lemma AllAtomsHead(rs: seq<Request>)
    requires rs != []
    ensures AllAtoms(rs) == Atoms(rs[0]) + AllAtoms(rs[1..])
  {
  }

  lemma {:induction false} AllAtomsAppend(rs: seq<Request>, r: Request)
    ensures AllAtoms(rs + [r]) == AllAtoms(rs) + Atoms(r)
  {
    if rs == [] {
      assert AllAtoms([r]) == Atoms(r) + AllAtoms([]);
    } else {
      assert (rs + [r])[1..] == rs[1..] + [r];
      AllAtomsAppend(rs[1..], r);
    }
  }

  function Part(r: Request, p: seq<Byte>, last: bool): (f: Request)
    requires r.write.Data?
  {
    Request(Data(r.write.streamID, p, last && r.write.endStream), r.stream, if last then r.done else None)
  }

  /** Cutting a DATA request in two loses, adds and reorders nothing. */
  lemma AtomsSplit(r: Request, k: nat)
    requires r.write.Data? && k <= |r.write.p|
    ensures Atoms(Part(r, r.write.p[..k], false)) + Atoms(Part(r, r.write.p[k..], true)) == Atoms(r)
  {
    var p := r.write.p;
    var front, back := Part(r, p[..k], false), Part(r, p[k..], true);
    OctetsSplit(p, k);
    hide Octets;
    assert Closing(front) == [] && Closing(back) == Closing(r);
    assert Atoms(front) == Octets(p[..k]);
    assert Atoms(back) == Octets(p[k..]) + Closing(r);
    assert Octets(p[..k]) + (Octets(p[k..]) + Closing(r)) == Octets(p) + Closing(r);
  }

  lemma OctetsSplit(p: seq<Byte>, k: nat)
    requires k <= |p|
    ensures Octets(p[..k]) + Octets(p[k..]) == Octets(p)
  {
  }

  /**
    * Consumes as much of a request as the windows, the limit n and the frame size
    * allow: nothing (0), all of it (1), or a leading part, the rest staying (2).
    */
  method Consume(r: Request, n: Int32) returns (consumed: Request, rest: Request, num: nat)
    requires r.Valid()
    modifies r.Windows()
    ensures num == 0 <==> old(r.Blocked(n))
    ensures num <= 2
    ensures num == 0 ==> r.stream.flow.n == old(r.stream.flow.n)
    ensures num == 1 ==> consumed == r
    ensures num == 2 ==>
              && rest.Valid() && rest.stream == consumed.stream == r.stream && rest.DataSize() > 0
              && consumed.DataSize() == old(r.Allowed(n)) < r.DataSize()
              && Atoms(consumed) + Atoms(rest) == Atoms(r)
    ensures num > 0 && r.DataSize() > 0 ==>
              && 0 < consumed.DataSize() <= old(r.Allowed(n)) && consumed.write.Data? && consumed.stream == r.stream
              && r.stream.flow.n == old(r.stream.flow.n) - consumed.DataSize()
    ensures num > 0 && r.DataSize() > 0 && r.stream.flow.conn != null ==>
              r.stream.flow.conn.n == old(r.stream.flow.conn.n) - consumed.DataSize()
    ensures num == 0 || r.DataSize() == 0 ==> forall f <- r.Windows() :: f.n == old(f.n)
  {
    var empty := Request(Other(0), null, None);
    if r.DataSize() == 0 {
      return r, empty, 1;
    }
    var allowed := r.stream.flow.Available();
    if n < allowed {
      allowed := n;
    }
    if r.stream.sc.maxFrameSize < allowed {
      allowed := r.stream.sc.maxFrameSize;
    }
    if allowed <= 0 {
      return empty, empty, 0;
    }
    if |r.write.p| > allowed {
      r.stream.flow.Take(allowed);
      consumed := Request(Data(r.write.streamID, r.write.p[..allowed], false), r.stream, None);
      rest := Request(Data(r.write.streamID, r.write.p[allowed..], r.write.endStream), r.stream, r.done);
      AtomsSplit(r, allowed);
      return consumed, rest, 2;
    }
    r.stream.flow.Take(|r.write.p|);
    return r, empty, 1;
  }

  /** What writing r costs the window f. */
  ghost function Debit(r: Request, f: Flow): (n: nat) {
    if f in r.Windows() then r.DataSize() else 0
  }

  /** A DATA frame fits the peer's frame size and overdraws no window. */
  ghost predicate WithinLimits(r: Request)
    reads if r.stream == null then {} else {r.stream.sc}
    reads r.Windows()
  {
    r.DataSize() > 0 ==>
      && r.stream != null && r.DataSize() <= r.stream.sc.maxFrameSize
      && forall f <- r.Windows() :: f.n >= 0
  }

  /** Nothing can be written from a queue: it is empty or flow control blocks its head. */
  ghost predicate Stuck(q: seq<Request>)
    requires forall r <- q :: r.Valid()
    reads if q == [] || q[0].stream == null then {} else {q[0].stream.sc, q[0].stream.flow, q[0].stream.flow.conn}
  {
    q == [] || (assert q[0] in q; q[0].Blocked(MAX_INT32))
  }

  /** The head of q is gone, or only a part of it on the same stream is left. */
  ghost predicate FromHead(q: seq<Request>, q': seq<Request>) {
    q != [] && (q' == q[1..] || (q' != [] && q'[0].stream == q[0].stream && q'[1..] == q[1..]))
  }

  class WriteQueue {
    var s: seq<Request>

    constructor ()
      ensures s == []
    {
      s := [];
    }

    predicate Empty()
      reads this
    {
      s == []
    }

    ghost predicate Valid()
      reads this
    {
      forall r <- s :: r.Valid()
    }

    method Push(r: Request)
      modifies this
      ensures s == old(s) + [r]
      ensures AllAtoms(s) == AllAtoms(old(s)) + Atoms(r)
    {
      s := s + [r];
      AllAtomsAppend(old(s), r);
    }

    /** Removes the head; an empty queue is a panic. */
    method Shift() returns (r: Request)
      requires !Empty()
      modifies this
      ensures [r] + s == old(s)
      ensures AllAtoms(old(s)) == Atoms(r) + AllAtoms(s)
    {
      r := s[0];
      s := s[1..];
    }

    /** Whether ConsumeHead(n) can remove anything. */
    predicate Ready(n: Int32)
      requires Valid()
      reads this, if s == [] || s[0].stream == null then {} else {s[0].stream.sc, s[0].stream.flow, s[0].stream.flow.conn}
    {
      s != [] && (assert s[0] in s; !s[0].Blocked(n))
    }

    /** Consumes up to n bytes from the head. */
    method ConsumeHead(n: Int32) returns (r: Request, ok: bool)
      requires Valid()
      modifies this, if s == [] then {} else s[0].Windows()
      ensures Valid()
      ensures ok == old(Ready(n))
      ensures !ok ==> s == old(s) && r.stream == null && r.DataSize() == 0
      ensures ok ==>
                && AllAtoms(old(s)) == Atoms(r) + AllAtoms(s)
                && r.stream == old(s)[0].stream && r.DataSize() <= old(s)[0].DataSize() && FromHead(old(s), s)
      ensures ok ==> r.Valid()
      ensures ok && r.DataSize() > 0 ==>
                r.DataSize() <= old(s[0].Allowed(n)) && r.DataSize() <= r.stream.sc.maxFrameSize && forall f <- r.Windows() :: f.n >= 0
      ensures old(s) != [] ==> forall f <- old(s)[0].Windows() :: f.n == old(f.n) - Debit(r, f)
    {
      hide Atoms, AllAtoms, Request.Allowed;
      if s == [] {
        return Request(Other(0), null, None), false;
      }
      assert s[0] in s;
      AllAtomsHead(s);
      var consumed, rest, num := Consume(s[0], n);
      if num == 0 {
        return Request(Other(0), null, None), false;
      }
      if num == 1 {
        var head := Shift();
      } else {
        s := s[0 := rest];
        AllAtomsHead(s);
        assert s[1..] == old(s)[1..];
        assert Atoms(consumed) + (Atoms(rest) + AllAtoms(s[1..])) == (Atoms(consumed) + Atoms(rest)) + AllAtoms(s[1..]);
      }
      return consumed, true;
    }
  }
}
