/** http2/pipe.go: a pipe over a dataBuffer; each operation is one step under the lock. */
module Pipe {
  import opened Common
  import opened DataBuffer

  datatype Error = Eof | Failure(what: string)

  /** The state of a pipe; b is None when done reading. readFn stands for the code to run before the error. */
  datatype State = State(b: Option<seq<Byte>>, unread: nat, err: Option<Error>, breakErr: Option<Error>,
                         readFn: Option<nat>)
  {
    predicate Broken() {
      breakErr.Some?
    }

    /** Closed by either of the two. */
    predicate Done() {
      err.Some? || breakErr.Some?
    }

    function Buffered(): (s: seq<Byte>) {
      if b.Some? then b.value else []
    }

    function Len(): (n: nat) {
      if b.Some? then |b.value| else unread
    }

    /** A Read would not wait. */
    predicate Ready() {
      breakErr.Some? || Buffered() != [] || err.Some?
    }
  }

  // ----- The steps -----

  function BufferSet(s: State): (s': State) {
    if s.Done() then s else s.(b := Some([]))
  }

  /** Writing to an open pipe needs a buffer. */
  predicate CanWrite(s: State) {
    s.Done() || s.b.Some?
  }

  predicate Accepts(s: State) {
    s.err.None?
  }

  function Written(s: State, d: seq<Byte>): (s': State)
    requires CanWrite(s)
  {
    if s.err.Some? then s
    else if s.breakErr.Some? then s.(unread := s.unread + |d|)
    else s.(b := Some(s.b.value + d))
  }

  function DataRead(s: State, k: nat): (data: seq<Byte>) {
    if s.breakErr.Some? then [] else s.Buffered()[..Min(k, |s.Buffered()|)]
  }

  function ReadError(s: State): (e: Option<Error>) {
    if s.breakErr.Some? then s.breakErr else if s.Buffered() != [] then None else s.err
  }

  function AfterRead(s: State, k: nat): (s': State)
    requires s.Ready()
  {
    if s.breakErr.Some? then s
    else if s.Buffered() != [] then s.(b := Some(s.b.value[|DataRead(s, k)|..]))
    else s.(b := None, readFn := None)
  }

  function Closed(s: State, e: Error, fn: Option<nat>): (s': State) {
    if s.err.Some? then s else s.(err := Some(e), readFn := fn)
  }

  function BrokenWith(s: State, e: Error): (s': State) {
    if s.breakErr.Some? then s
    else s.(breakErr := Some(e), readFn := None, b := None, unread := s.unread + |s.Buffered()|)
  }

  // ----- Runs -----

  datatype Op = SetBuffer | Write(d: seq<Byte>) | Read(k: nat) | Close(e: Error, fn: Option<nat>) | Break(e: Error)

  /** A pipe with the bytes its writers had accepted and its readers were given. */
  datatype History = History(s: State, accepted: seq<Byte>, given: seq<Byte>)

  /** What callers see to: a buffer is set once, before writing, and a Read that would wait is not a step. */
  predicate Possible(s: State, op: Op) {
    match op
    case SetBuffer => s.Buffered() == []
    case Write(_) => CanWrite(s)
    case Read(_) => s.Ready()
    case _ => true
  }

  function Apply(h: History, op: Op): (h': History)
    requires Possible(h.s, op)
  {
    match op
    case SetBuffer => h.(s := BufferSet(h.s))
    case Write(d) => History(Written(h.s, d), if Accepts(h.s) then h.accepted + d else h.accepted, h.given)
    case Read(k) => History(AfterRead(h.s, k), h.accepted, h.given + DataRead(h.s, k))
    case Close(e, fn) => h.(s := Closed(h.s, e, fn))
    case Break(e) => h.(s := BrokenWith(h.s, e))
  }

  predicate PossibleRun(h: History, ops: seq<Op>)
    decreases |ops|
  {
    ops == [] || (Possible(h.s, ops[0]) && PossibleRun(Apply(h, ops[0]), ops[1..]))
  }

  function ApplyAll(h: History, ops: seq<Op>): (h': History)
    requires PossibleRun(h, ops)
    decreases |ops|
  {
    if ops == [] then h else ApplyAll(Apply(h, ops[0]), ops[1..])
  }

  /** Nothing is lost, repeated or reordered; what a break discards is counted. */
  predicate Kept(h: History) {
    && h.given <= h.accepted
    && |h.accepted| == |h.given| + h.s.Len()
    && (if h.s.Broken() then h.s.b.None? else h.s.unread == 0 && h.accepted == h.given + h.s.Buffered())
  }

  const NEW := State(None, 0, None, None, None)

  lemma ApplyKeeps(h: History, op: Op)
    requires Kept(h) && Possible(h.s, op)
    ensures Kept(Apply(h, op))
  {
    if op.Read? && !h.s.Broken() {
      var b, data := h.s.Buffered(), DataRead(h.s, op.k);
      assert b == data + b[|data|..];
      assert h.given + b == h.given + data + b[|data|..];
    } else if op.Write? && !h.s.Done() {
      assert h.given + h.s.b.value + op.d == h.given + (h.s.b.value + op.d);
    }
  }

  /** Over every run: bytes given are a prefix of bytes accepted, and Len counts the rest. */
  lemma {:induction false} RunKeeps(h: History, ops: seq<Op>)
    requires Kept(h) && PossibleRun(h, ops)
    ensures Kept(ApplyAll(h, ops))
    decreases |ops|
  {
    if ops != [] {
      ApplyKeeps(h, ops[0]);
      RunKeeps(Apply(h, ops[0]), ops[1..]);
    }
  }

  lemma NewPipeKeeps(ops: seq<Op>)
    requires PossibleRun(History(NEW, [], []), ops)
    ensures Kept(ApplyAll(History(NEW, [], []), ops))
  {
    RunKeeps(History(NEW, [], []), ops);
  }

  /** A Read reports the closing error only after every accepted byte was given. */
  lemma CloseDeliversAll(h: History)
    requires Kept(h) && h.s.Ready() && !h.s.Broken()
    ensures ReadError(h.s).Some? <==> h.given == h.accepted
    ensures ReadError(h.s).Some? ==> ReadError(h.s) == h.s.err
  {
    if h.s.Buffered() != [] {
      assert |h.given + h.s.Buffered()| > |h.given|;
    } else {
      assert h.given + [] == h.given;
    }
  }

  /** After a break every Read reports its error, and nothing more is given, whatever is done next. */
  lemma {:induction false} BreakGivesNothing(h: History, ops: seq<Op>)
    requires h.s.Broken() && PossibleRun(h, ops)
    ensures var h' := ApplyAll(h, ops);
            && h'.given == h.given && h'.s.breakErr == h.s.breakErr
            && h'.s.Ready() && ReadError(h'.s) == h.s.breakErr
    decreases |ops|
  {
    if ops != [] {
      BreakGivesNothing(Apply(h, ops[0]), ops[1..]);
    }
  }

  /** The first closing error stays. */
  lemma {:induction false} FirstErrorStays(h: History, ops: seq<Op>)
    requires h.s.err.Some? && PossibleRun(h, ops)
    ensures var h' := ApplyAll(h, ops); h'.s.err == h.s.err && h'.accepted == h.accepted
    decreases |ops|
  {
    if ops != [] {
      FirstErrorStays(Apply(h, ops[0]), ops[1..]);
    }
  }

  /** Setting a second buffer loses bytes exactly when the pipe is open and holds some. */
  lemma SecondBufferLoses(h: History)
    requires Kept(h)
    ensures Kept(h.(s := BufferSet(h.s))) <==> h.s.Done() || h.s.Buffered() == []
  {
    if !h.s.Done() && h.s.Buffered() != [] {
      assert |h.s.Buffered()| > 0;
    }
  }

  // ----- The object -----

  class Pipe {
    var b: Buffer?
    var unread: nat
    var err: Option<Error>
    var breakErr: Option<Error>
    var readFn: Option<nat>
    const pool: ChunkPool

    ghost predicate Valid()
      reads this, pool, b, if b != null then b.chunks else []
    {
      && pool.Valid()
      && (b != null ==> b.pool == pool && b.Valid())
    }

    ghost function View(): (s: State)
      requires Valid()
      reads this, pool, b, if b != null then b.chunks else []
    {
      State(if b == null then None else Some(b.Contents()), unread, err, breakErr, readFn)
    }

    constructor (pool: ChunkPool)
      requires pool.Valid()
      ensures Valid() && View() == NEW && this.pool == pool
    {
      this.pool, b, unread, err, breakErr, readFn := pool, null, 0, None, None, None;
    }

    method SetBuffer(buffer: Buffer)
      requires Valid() && buffer.pool == pool && buffer.Valid() && buffer.Contents() == []
      modifies this
      ensures Valid() && View() == BufferSet(old(View()))
    {
      if err.Some? || breakErr.Some? {
        return;
      }
      b := buffer;
    }

    method Len() returns (n: nat)
      requires Valid()
      ensures n == View().Len()
    {
      if b == null {
        return unread;
      }
      n := b.Len();
    }

    /** A Read that need not wait; ran is the code it runs before the error. */
    method Read(k: nat) returns (data: seq<Byte>, e: Option<Error>, ran: Option<nat>)
      requires Valid() && View().Ready()
      modifies this, pool, b
      ensures Valid() && View() == AfterRead(old(View()), k)
      ensures data == DataRead(old(View()), k) && e == ReadError(old(View()))
      ensures ran == if e.Some? && !old(View()).Broken() then old(readFn) else None
    {
      if breakErr.Some? {
        return [], breakErr, None;
      }
      var n := 0;
      if b != null {
        n := b.Len();
      }
      if n > 0 {
        var failed;
        data, failed := b.Read(k);
        return data, None, None;
      }
      ran := readFn;
      readFn := None;
      b := null;
      return [], err, ran;
    }

    method Write(d: seq<Byte>) returns (n: nat, refused: bool)
      requires Valid() && CanWrite(View())
      modifies this, pool, b, if b != null then b.chunks else [], pool.free
      ensures Valid() && View() == Written(old(View()), d)
      ensures refused <==> !Accepts(old(View()))
      ensures n == if refused then 0 else |d|
    {
      hide Buffer.Valid, Buffer.Contents;
      if err.Some? {
        return 0, true;
      }
      if breakErr.Some? {
        unread := unread + |d|;
        return |d|, false;
      }
      n := b.Write(d);
      return n, false;
    }

    method CloseWithErrorAndCode(e: Error, fn: Option<nat>)
      requires Valid()
      modifies this
      ensures Valid() && View() == Closed(old(View()), e, fn)
    {
      if err.Some? {
        return;
      }
      readFn := fn;
      err := Some(e);
    }

    method BreakWithError(e: Error)
      requires Valid()
      modifies this
      ensures Valid() && View() == BrokenWith(old(View()), e)
    {
      if breakErr.Some? {
        return;
      }
      readFn := None;
      if b != null {
        var n := b.Len();
        unread := unread + n;
      }
      b := null;
      breakErr := Some(e);
    }

    method Err() returns (e: Option<Error>)
      requires Valid()
      ensures e.Some? <==> View().Done()
      ensures e.Some? ==> e == if View().Broken() then View().breakErr else View().err
    {
      if breakErr.Some? {
        return breakErr;
      }
      return err;
    }
  }
}
