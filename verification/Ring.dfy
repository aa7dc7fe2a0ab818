// The bounded PCM byte rings of the audio bridge (pw-floss/src/pw-floss.c).
module Ring {
  import opened Arithmetic
  import opened Hci

  // At most 100 ms of stereo 32-bit samples at 96 kHz.
  const QUEUE_SIZE: nat := 76800

  // (pos + i) modulo the ring size.
  function Index(pos: nat, i: nat): (k: nat)
    requires pos < QUEUE_SIZE && i <= QUEUE_SIZE
    ensures k < QUEUE_SIZE && k == (pos + i) % QUEUE_SIZE
  {
    if pos + i < QUEUE_SIZE then pos + i else pos + i - QUEUE_SIZE
  }

  // The n bytes from `pos` on, wrapping at the end of the ring.
  function Window(s: seq<Byte>, pos: nat, n: nat): (r: seq<Byte>)
    requires |s| == QUEUE_SIZE && pos < QUEUE_SIZE && n <= QUEUE_SIZE
    ensures |r| == n
  {
    seq(n, i requires 0 <= i < n => s[Index(pos, i)])
  }

  // a modulo m, one turn at a time.
  function Wrap(a: nat, m: nat): (r: nat)
    requires m > 0
    ensures r < m
    decreases a
  {
    if a < m then a else Wrap(a - m, m)
  }

  lemma {:induction false} WrapIsModulo(a: nat, m: nat)
    requires m > 0
    ensures Wrap(a, m) == a % m
    decreases a
  {
    if a < m {
      ModuloOnce(a, m, 0);
    } else {
      WrapIsModulo(a - m, m);
      ModuloOnce(a - m, m, 1);
    }
  }

  lemma ModuloOnce(a: nat, m: nat, turns: nat)
    requires m > 0 && turns <= 1
    ensures turns == 0 && a < m ==> a % m == a
    ensures turns == 1 ==> (a + m) % m == a % m
  {
    if turns == 0 && a < m {
      assert m * (a / m) == a - a % m;
      SmallMultiple(m, a / m);
    } else {
      var d := (a + m) / m - a / m - 1;
      assert m * d == a % m - (a + m) % m;
      SmallMultiple(m, d);
    }
  }

  lemma {:induction false} WrapStep(a: nat, j: nat, m: nat)
    requires m > 0 && Wrap(a, m) + j <= m
    ensures Wrap(a + j, m) == if Wrap(a, m) + j == m then 0 else Wrap(a, m) + j
    decreases a
  {
    if a >= m {
      WrapStep(a - m, j, m);
    }
  }

  // The same for a source of any size.
  function Wrapped(source: seq<Byte>, offset: nat, n: nat): (r: seq<Byte>)
    requires source != []
    ensures |r| == n
  {
    seq(n, i requires 0 <= i < n => source[Wrap(offset + i, |source|)])
  }

  function Zeros(n: nat): (r: seq<Byte>)
    ensures |r| == n && forall i :: 0 <= i < n ==> r[i] == 0
  {
    seq(n, _ => 0)
  }

  lemma WindowDrop(s: seq<Byte>, pos: nat, n: nat, k: nat)
    requires |s| == QUEUE_SIZE && pos < QUEUE_SIZE && k <= n <= QUEUE_SIZE
    ensures Window(s, Index(pos, k), n - k) == Window(s, pos, n)[k..]
  {
  }

  // What a chunk of a graph buffer holds.
  function Chunk(source: seq<Byte>, offset: nat, size: nat, silent: bool): (r: seq<Byte>)
    requires !silent ==> source != []
    ensures |r| == size
  {
    if silent then Zeros(size) else Wrapped(source, offset, size)
  }

  // Byte k of a chunk is that of the buffer, modulo its size, or zero.
  lemma ChunkByte(source: seq<Byte>, offset: nat, size: nat, silent: bool, k: nat)
    requires k < size && (!silent ==> source != [])
    ensures Chunk(source, offset, size, silent)[k] == if silent then 0 else source[(offset + k) % |source|]
  {
    if !silent {
      WrapIsModulo(offset + k, |source|);
    }
  }

  // Copy between independently wrapping rings: byte k of the span goes to place k of the
  // destination, and nothing else is written.
  method CopyChunk(ring: array<Byte>, start: nat, source: seq<Byte>, offset: nat, size: nat, silent: bool)
    requires ring.Length == QUEUE_SIZE && start < QUEUE_SIZE && size <= QUEUE_SIZE
    requires !silent ==> source != [] && offset < |source|
    modifies ring
    ensures forall k :: 0 <= k < size ==> ring[Index(start, k)] == Chunk(source, offset, size, silent)[k]
    ensures forall k :: size <= k < QUEUE_SIZE ==> ring[Index(start, k)] == old(ring[Index(start, k)])
  {
    var done: nat, writePos: nat, readPos: nat := 0, start, offset;
    ghost var chunk := Chunk(source, offset, size, silent);
    while done < size
      invariant 0 <= done <= size
      invariant writePos == Index(start, done)
      invariant !silent ==> readPos == Wrap(offset + done, |source|)
      invariant forall k :: 0 <= k < done ==> ring[Index(start, k)] == chunk[k]
      invariant forall k :: done <= k < QUEUE_SIZE ==> ring[Index(start, k)] == old(ring[Index(start, k)])
    {
      var count := Min(size - done, QUEUE_SIZE - writePos);
      if !silent {
        count := Min(count, |source| - readPos);
      }
      assert 0 < count <= size - done && writePos + count <= QUEUE_SIZE;
      var span := if silent then Zeros(count) else source[readPos..readPos + count];
      ChunkSpan(source, offset, size, silent, done, count, readPos);
      CopySpan(ring, start, done, span);
      if !silent {
        WrapStep(offset + done, count, |source|);
        readPos := Advance(readPos, count, |source|);
      }
      writePos := (writePos + count) % QUEUE_SIZE;
      done := done + count;
    }
  }

  method Advance(pos: nat, count: nat, size: nat) returns (next: nat)
    requires pos < size && pos + count <= size
    ensures next == if pos + count == size then 0 else pos + count
  {
    WrapIsModulo(pos + count, size);
    next := (pos + count) % size;
  }

  lemma ChunkSpan(source: seq<Byte>, offset: nat, size: nat, silent: bool, done: nat, count: nat, readPos: nat)
    requires !silent ==> source != [] && readPos == Wrap(offset + done, |source|) && readPos + count <= |source|
    requires done + count <= size
    ensures var span := if silent then Zeros(count) else source[readPos..readPos + count];
            forall k :: done <= k < done + count ==> span[k - done] == Chunk(source, offset, size, silent)[k]
  {
    if !silent {
      var span := source[readPos..readPos + count];
      forall k | done <= k < done + count ensures span[k - done] == Wrapped(source, offset, size)[k] {
        WrapStep(offset + done, k - done, |source|);
      }
    }
  }

  function Min(a: nat, b: nat): nat {
    if a < b then a else b
  }

  // One contiguous piece, as a single memory copy.
  method CopySpan(ring: array<Byte>, start: nat, done: nat, span: seq<Byte>)
    requires ring.Length == QUEUE_SIZE && start < QUEUE_SIZE
    requires done + |span| <= QUEUE_SIZE && Index(start, done) + |span| <= QUEUE_SIZE
    modifies ring
    ensures forall k :: done <= k < done + |span| ==> ring[Index(start, k)] == span[k - done]
    ensures forall k :: 0 <= k < QUEUE_SIZE && !(done <= k < done + |span|) ==> ring[Index(start, k)] == old(ring[Index(start, k)])
  {
    var writePos := Index(start, done);
    forall i | 0 <= i < |span| {
      ring[writePos + i] := span[i];
    }
    forall k | done <= k < done + |span| ensures ring[Index(start, k)] == span[k - done] {
      assert Index(start, k) == writePos + (k - done);
    }
    forall k | 0 <= k < QUEUE_SIZE && !(done <= k < done + |span|)
      ensures ring[Index(start, k)] == old(ring[Index(start, k)])
    {
      OutsideSpan(start, done, |span|, k);
    }
  }

  lemma OutsideSpan(start: nat, done: nat, count: nat, k: nat)
    requires start < QUEUE_SIZE && done + count <= QUEUE_SIZE && Index(start, done) + count <= QUEUE_SIZE
    requires k < QUEUE_SIZE && !(done <= k < done + count)
    ensures !(Index(start, done) <= Index(start, k) < Index(start, done) + count)
  {
  }

  // ------------------------------------------------------------------ the queue

  // A FIFO byte queue in a ring.
  class Queue {
    const data: array<Byte>
    var readPos: nat
    var queued: nat

    ghost predicate Valid()
      reads this
    {
      data.Length == QUEUE_SIZE && readPos < QUEUE_SIZE && queued <= QUEUE_SIZE
    }

    ghost function Contents(): (r: seq<Byte>)
      requires Valid()
      reads this, data
      ensures |r| == queued
    {
      Window(data[..], readPos, queued)
    }

    constructor ()
      ensures Valid() && Contents() == [] && readPos == 0 && fresh(data) && data.Length == 76800
    {
      data := new Byte[QUEUE_SIZE](_ => 0);
      readPos, queued := 0, 0;
    }

    method Clear()
      requires Valid()
      modifies this
      ensures Valid() && Contents() == [] && readPos == 0
    {
      readPos, queued := 0, 0;
    }

    // The longest contiguous run that can be handed out, or written, at once.
    function Readable(): nat
      requires Valid()
      reads this
    {
      Min(queued, QUEUE_SIZE - readPos)
    }

    function WritePos(): nat
      reads this
    {
      (readPos + queued) % QUEUE_SIZE
    }

    method Drop(n: nat)
      requires Valid() && n <= queued
      modifies this
      ensures Valid() && Contents() == old(Contents())[n..] && queued == old(queued) - n
      ensures readPos == Index(old(readPos), n)
    {
      WindowDrop(data[..], readPos, queued, n);
      readPos := (readPos + n) % QUEUE_SIZE;
      queued := queued - n;
    }

    // The first n contiguous bytes, as given to a system call.
    method Peek(n: nat) returns (bytes: seq<Byte>)
      requires Valid() && n <= Readable()
      ensures bytes == Contents()[..n]
    {
      bytes := data[readPos..readPos + n];
      assert forall i :: 0 <= i < n ==> Index(readPos, i) == readPos + i;
    }

    // The first n bytes, copied out in at most two pieces.
    method Read(n: nat) returns (bytes: seq<Byte>)
      requires Valid() && n <= queued
      ensures bytes == Contents()[..n]
    {
      var first := Min(n, QUEUE_SIZE - readPos);
      bytes := data[readPos..readPos + first] + data[..n - first];
      forall i | 0 <= i < n ensures bytes[i] == Contents()[i] {
        assert Contents()[i] == data[Index(readPos, i)];
      }
    }

    // The bytes just written behind the contents join them.
    method Publish(n: nat, ghost before: seq<Byte>, ghost added: seq<Byte>)
      requires Valid() && queued + n <= QUEUE_SIZE && |added| == n && |before| == queued
      requires forall k :: 0 <= k < queued ==> data[Index(readPos, k)] == before[k]
      requires forall k :: 0 <= k < n ==> data[Index(readPos, queued + k)] == added[k]
      modifies this`queued
      ensures Valid() && Contents() == before + added && queued == old(queued) + n
    {
      queued := queued + n;
      forall k | 0 <= k < queued ensures Contents()[k] == (before + added)[k] {
        if k >= old(queued) {
          assert data[Index(readPos, old(queued) + (k - old(queued)))] == added[k - old(queued)];
        }
      }
    }

    // Append PCM from two memory copies, or silence when there is no data.
    method Append(bytes: seq<Byte>)
      requires Valid() && queued + |bytes| <= QUEUE_SIZE
      modifies this`queued, data
      ensures Valid() && Contents() == old(Contents()) + bytes && queued == old(queued) + |bytes|
    {
      ghost var before := Contents();
      var first := Min(|bytes|, QUEUE_SIZE - WritePos());
      CopySpan(data, readPos, queued, bytes[..first]);
      CopySpan(data, readPos, queued + first, bytes[first..]);
      forall k | 0 <= k < |bytes| ensures data[Index(readPos, queued + k)] == bytes[k] {
        if k >= first {
          assert bytes[first..][k - first] == bytes[k];
        }
      }
      Publish(|bytes|, before, bytes);
    }

    // Append a chunk of a wrapping graph buffer.
    method AppendChunk(source: seq<Byte>, offset: nat, size: nat, silent: bool)
      requires Valid() && queued + size <= QUEUE_SIZE
      requires !silent ==> source != [] && offset < |source|
      modifies this`queued, data
      ensures Valid() && queued == old(queued) + size
      ensures Contents() == old(Contents()) + Chunk(source, offset, size, silent)
    {
      ghost var before, added := Contents(), Chunk(source, offset, size, silent);
      CopyChunk(data, WritePos(), source, offset, size, silent);
      forall k | 0 <= k < queued ensures data[Index(readPos, k)] == before[k] {
        var back := k + QUEUE_SIZE - queued;
        assert Index(WritePos(), back) == Index(readPos, k);
      }
      forall k | 0 <= k < size ensures data[Index(readPos, queued + k)] == added[k] {
        assert Index(WritePos(), k) == Index(readPos, queued + k);
      }
      Publish(size, before, added);
    }
  }
}
