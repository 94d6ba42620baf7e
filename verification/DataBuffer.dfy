/** http2/databuffer.go: a byte queue kept in chunks that come from a pool. */
module DataBuffer {
  import opened Common

  const SIZE_CLASSES: seq<nat> := [1024, 2048, 4096, 8192, 16384]

  ghost predicate IsSizeClass(n: int) {
    n in SIZE_CLASSES
  }

  ghost function Total(chunks: seq<array<Byte>>): (n: nat) {
    if chunks == [] then 0 else chunks[0].Length + Total(chunks[1..])
  }

  lemma {:induction false} TotalLast(chunks: seq<array<Byte>>)
    requires chunks != []
    ensures Total(chunks) >= chunks[|chunks| - 1].Length
  {
    if |chunks| > 1 {
      TotalLast(chunks[1..]);
    }
  }

  /** The bytes of a list of chunks, one after the other. */
  ghost function Flat(chunks: seq<array<Byte>>): (r: seq<Byte>)
    reads chunks
    ensures |r| == Total(chunks)
  {
    if chunks == [] then [] else chunks[0][..] + Flat(chunks[1..])
  }

  lemma {:induction false} FlatAppend(chunks: seq<array<Byte>>, more: seq<array<Byte>>)
    ensures Flat(chunks + more) == Flat(chunks) + Flat(more)
  {
    if chunks == [] {
      assert chunks + more == more;
    } else {
      assert (chunks + more)[1..] == chunks[1..] + more;
      FlatAppend(chunks[1..], more);
    }
  }

  lemma FlatOne(chunk: array<Byte>)
    ensures Flat([chunk]) == chunk[..]
  {
    assert [chunk][1..] == [];
  }

  /** All but the last chunk, then the last. */
  lemma FlatLast(chunks: seq<array<Byte>>)
    requires chunks != []
    ensures Flat(chunks) == Flat(chunks[..|chunks| - 1]) + chunks[|chunks| - 1][..]
  {
    var n := |chunks| - 1;
    assert chunks == chunks[..n] + [chunks[n]];
    FlatAppend(chunks[..n], [chunks[n]]);
    FlatOne(chunks[n]);
  }

  /** Go's copy of p into chunk from index at. */
  method CopyAt(chunk: array<Byte>, at: nat, p: seq<Byte>) returns (n: nat)
    requires at <= chunk.Length
    modifies chunk
    ensures n == Min(chunk.Length - at, |p|)
    ensures chunk[..] == old(chunk[..at]) + p[..n] + old(chunk[at + n..])
  {
    n := Min(chunk.Length - at, |p|);
    forall i | 0 <= i < n {
      chunk[at + i] := p[i];
    }
  }

  /** Writing p at index w of the last chunk puts it behind the live bytes. */
  lemma Filled(front: seq<Byte>, was: seq<Byte>, w: nat, p: seq<Byte>, now: seq<Byte>, r: nat, size: nat)
    requires w + |p| <= |was|
    requires now == was[..w] + p + was[w + |p|..]
    requires r + size == |front| + w
    ensures Live(front + now, r, size + |p|) == Live(front + was, r, size) + p
  {
  }

  ghost function Live(flat: seq<Byte>, r: nat, size: nat): (s: seq<Byte>)
    requires r + size <= |flat|
    ensures |s| == size
  {
    flat[r..r + size]
  }

  lemma Advanced(flat: seq<Byte>, r: nat, size: nat, data: seq<Byte>)
    requires r + size <= |flat|
    requires data <= Live(flat, r, size)
    ensures data + Live(flat, r + |data|, size - |data|) == Live(flat, r, size)
  {
    assert flat[r..r + size][|data|..] == flat[r + |data|..r + size];
  }

  /** The pools together: a chunk is in the pool of the size class that its length is. */
  class ChunkPool {
    var free: set<array<Byte>>

    ghost predicate Valid()
      reads this
    {
      forall c :: c in free ==> IsSizeClass(c.Length)
    }

    constructor ()
      ensures Valid() && free == {}
    {
      free := {};
    }

    /** A chunk of the smallest class that holds size bytes, or of the largest class. */
    method Get(size: int) returns (chunk: array<Byte>)
      requires Valid()
      modifies this
      ensures Valid()
      ensures IsSizeClass(chunk.Length)
      ensures size <= chunk.Length || chunk.Length == 16384
      ensures forall n :: n in SIZE_CLASSES && size <= n ==> chunk.Length <= n
      ensures free == old(free) - {chunk}
      ensures fresh(chunk) || chunk in old(free)
    {
      var i := 0;
      while i < |SIZE_CLASSES| - 1
        invariant 0 <= i < |SIZE_CLASSES|
        invariant forall k :: 0 <= k < i ==> SIZE_CLASSES[k] < size
      {
        if size <= SIZE_CLASSES[i] {
          break;
        }
        i := i + 1;
      }
      if c :| c in free && c.Length == SIZE_CLASSES[i] {
        chunk := c;
        free := free - {c};
      } else {
        chunk := new Byte[SIZE_CLASSES[i]];
      }
    }

    /** Takes a chunk back; false is the panic for a length that is not a size class. */
    method Put(chunk: array<Byte>) returns (ok: bool)
      requires Valid()
      modifies this
      ensures Valid()
      ensures ok <==> IsSizeClass(chunk.Length)
      ensures free == if ok then old(free) + {chunk} else old(free)
    {
      for i := 0 to |SIZE_CLASSES|
        invariant Valid() && free == old(free)
        invariant forall k :: 0 <= k < i ==> SIZE_CLASSES[k] != chunk.Length
      {
        if chunk.Length == SIZE_CLASSES[i] {
          free := free + {chunk};
          return true;
        }
      }
      return false;
    }
  }

  class Buffer {
    var chunks: seq<array<Byte>>
    var r: nat
    var w: nat
    var size: nat
    var expected: int
    const pool: ChunkPool

    /** The chunks are distinct, of a size class, and in use: none is in the pool. */
    ghost predicate Owned()
      reads this`chunks, pool
    {
      && pool.Valid()
      && (forall i :: 0 <= i < |chunks| ==> IsSizeClass(chunks[i].Length) && chunks[i] !in pool.free)
      && (forall i, j :: 0 <= i < j < |chunks| ==> chunks[i] != chunks[j])
    }

    ghost predicate Placed()
      reads this
    {
      if chunks == [] then r == 0 && size == 0
      else
        var last := chunks[|chunks| - 1];
        && w <= last.Length
        && r < chunks[0].Length
        && r + size == Total(chunks) - (last.Length - w)
    }

    ghost predicate Valid()
      reads this, pool, chunks
    {
      Owned() && Placed()
    }

    /** The unread bytes, oldest first. */
    ghost function Contents(): (s: seq<Byte>)
      requires Valid()
      reads this, pool, chunks
      ensures |s| == size
    {
      Live(Flat(chunks), r, size)
    }

    constructor (pool: ChunkPool, expected: int)
      requires pool.Valid()
      ensures Valid() && Contents() == []
      ensures this.pool == pool && this.expected == expected && chunks == []
    {
      this.pool, this.expected, chunks, r, w, size := pool, expected, [], 0, 0, 0;
    }

    method Len() returns (n: nat)
      requires Valid()
      ensures n == |Contents()|
    {
      n := size;
    }

    /** Puts a new chunk behind the last one, which is full. */
    method AppendChunk(chunk: array<Byte>)
      requires Valid() && IsSizeClass(chunk.Length)
      requires chunk !in chunks && chunk !in pool.free
      requires chunks != [] ==> w == chunks[|chunks| - 1].Length
      modifies this`chunks, this`w
      ensures Valid() && Contents() == old(Contents())
      ensures chunks == old(chunks) + [chunk] && w == 0
    {
      hide IsSizeClass;
      FlatAppend(chunks, [chunk]);
      FlatOne(chunk);
      SomeRoom(chunk);
      ghost var was := Flat(chunks);
      chunks := chunks + [chunk];
      w := 0;
      assert Flat(chunks) == was + chunk[..];
      assert Flat(chunks)[r..r + size] == was[r..r + size];
    }

    method LastChunkOrAlloc(want: int) returns (chunk: array<Byte>)
      requires Valid()
      modifies this`chunks, this`w, pool
      ensures Valid() && Contents() == old(Contents())
      ensures chunks != [] && chunk == chunks[|chunks| - 1] && w < chunk.Length
      ensures chunks == old(chunks) || chunks == old(chunks) + [chunk]
      ensures chunk in old(chunks) || chunk in old(pool.free) || fresh(chunk)
      ensures pool.free <= old(pool.free)
    {
      hide IsSizeClass, Flat, Total;
      if chunks != [] && w < chunks[|chunks| - 1].Length {
        return chunks[|chunks| - 1];
      }
      chunk := pool.Get(want);
      SomeRoom(chunk);
      AppendChunk(chunk);
    }

    lemma LastIsApart()
      requires Owned() && chunks != []
      ensures chunks[|chunks| - 1] !in chunks[..|chunks| - 1]
    {
    }

    /** Copies the front of p into the last chunk, which has room. */
    method Fill(p: seq<Byte>) returns (n: nat)
      requires Valid() && chunks != [] && w < chunks[|chunks| - 1].Length && p != []
      modifies this`w, this`size, this`expected, chunks[|chunks| - 1]
      ensures Valid() && 0 < n <= |p|
      ensures Contents() == old(Contents()) + p[..n]
      ensures expected == old(expected) - n
    {
      hide IsSizeClass, Total, Flat, Owned, Live;
      LastIsApart();
      var last := chunks[|chunks| - 1];
      ghost var front, was := chunks[..|chunks| - 1], last[..];
      ghost var bytes := Flat(front);
      FlatLast(chunks);
      n := CopyAt(last, w, p);
      assert Flat(front) == bytes;
      FlatLast(chunks);
      Filled(bytes, was, w, p[..n], last[..], r, size);
      w, size, expected := w + n, size + n, expected - n;
    }

    /** Where the live bytes end: in the only chunk, or past the first one. */
    lemma LiveEnd()
      requires chunks != [] && w <= chunks[|chunks| - 1].Length
      requires r + size == Total(chunks) - (chunks[|chunks| - 1].Length - w)
      ensures |chunks| == 1 ==> r + size == w
      ensures |chunks| > 1 ==> r + size >= chunks[0].Length
    {
      if |chunks| > 1 {
        TotalLast(chunks[1..]);
      }
    }

    /** Gives the first chunk, all read, back to the pool. */
    method DropFirst()
      requires Owned() && chunks != [] && r == chunks[0].Length && w <= chunks[|chunks| - 1].Length
      requires r + size == Total(chunks) - (chunks[|chunks| - 1].Length - w)
      modifies this`chunks, this`r, pool
      ensures Valid() && Contents() == old(Live(Flat(chunks), r, size))
      ensures chunks == old(chunks)[1..] && pool.free == old(pool.free) + {old(chunks)[0]}
    {
      hide IsSizeClass;
      LiveEnd();
      var ok := pool.Put(chunks[0]);
      assert ok;
      SomeRoom(if |chunks| > 1 then chunks[1] else chunks[0]);
      chunks, r := chunks[1..], 0;
    }

    /** The live bytes of the first chunk are the next to read. */
    method BytesFromFirstChunk() returns (s: seq<Byte>)
      requires Valid() && size > 0
      ensures 0 < |s| && r + |s| <= chunks[0].Length
      ensures s <= Contents()
      ensures |s| < size ==> r + |s| == chunks[0].Length
    {
      hide IsSizeClass;
      LiveEnd();
      if |chunks| == 1 {
        s := chunks[0][r..w];
      } else {
        s := chunks[0][r..];
      }
    }

    /** Moves the bytes at the front to the reader. */
    method Read(k: nat) returns (data: seq<Byte>, err: bool)
      requires Valid()
      modifies this, pool
      ensures Valid()
      ensures err <==> old(size) == 0
      ensures data == old(Contents())[..Min(k, old(size))]
      ensures Contents() == old(Contents())[|data|..]
      ensures expected == old(expected)
      ensures forall c :: c in chunks ==> c in old(chunks)
      ensures forall c :: c in pool.free ==> c in old(pool.free) || c in old(chunks)
    {
      hide IsSizeClass, Flat, Total, Owned, Placed, Contents;
      if size == 0 {
        return [], true;
      }
      data, err := [], false;
      while |data| < k && size > 0
        invariant Valid() && |data| <= k && expected == old(expected)
        invariant data + Contents() == old(Contents())
        invariant forall c :: c in chunks ==> c in old(chunks)
        invariant forall c :: c in pool.free ==> c in old(pool.free) || c in old(chunks)
        decreases size
      {
        var moved := ReadChunk(k - |data|);
        data := data + moved;
      }
    }

    /** One turn of the reading loop; it always moves something. */
    method ReadChunk(k: nat) returns (data: seq<Byte>)
      requires Valid() && size > 0 && k > 0
      modifies this`chunks, this`r, this`size, pool
      ensures Valid() && 0 < |data| <= k
      ensures data + Contents() == old(Contents())
      ensures forall c :: c in chunks ==> c in old(chunks)
      ensures forall c :: c in pool.free ==> c in old(pool.free) || c in old(chunks)
    {
      hide IsSizeClass, Flat, Total, Owned, Live;
      var from := BytesFromFirstChunk();
      data := from[..Min(k, |from|)];
      ghost var flat := Flat(chunks);
      Advanced(flat, r, size, data);
      r, size := r + |data|, size - |data|;
      if r == chunks[0].Length {
        DropFirst();
      }
    }

    /** Appends p. */
    method Write(p: seq<Byte>) returns (n: nat)
      requires Valid()
      modifies this, pool, chunks, pool.free
      ensures Valid() && Contents() == old(Contents()) + p
      ensures n == |p| && expected == old(expected) - n
      ensures forall c :: c in chunks ==> c in old(chunks) || c in old(pool.free) || fresh(c)
      ensures pool.free <= old(pool.free)
    {
      hide IsSizeClass, Flat, Total, Owned, Placed, Contents;
      var rest := p;
      while |rest| > 0
        invariant Valid()
        invariant Contents() + rest == old(Contents()) + p
        invariant expected == old(expected) - (|p| - |rest|)
        invariant forall c :: c in chunks ==> c in old(chunks) || c in old(pool.free) || fresh(c)
        invariant pool.free <= old(pool.free)
      {
        var want := |rest|;
        if expected > want {
          want := expected;
        }
        var chunk := LastChunkOrAlloc(want);
        ghost var before := Contents();
        var k := Fill(rest);
        assert before + rest == before + rest[..k] + rest[k..];
        rest := rest[k..];
      }
      return |p|;
    }
  }

  lemma SomeRoom(chunk: array<Byte>)
    requires IsSizeClass(chunk.Length)
    ensures chunk.Length > 0
  {
  }
}
