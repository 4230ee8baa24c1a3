/**
 * The sending half of the file transfer (`MeetService.sendFile`): once the
 * channel is open, the whole file is cut into consecutive slices of at
 * most `MaxSize` bytes, each sent as one binary message, and the text
 * message "EOF" is sent after the last slice.
 */
module FileSender {
  import opened Messages

  function Min(a: nat, b: nat): nat
  {
    if a <= b then a else b
  }

  /**
   * `ArrayBuffer.prototype.slice(begin, end)` for non-negative bounds:
   * both bounds are clamped to the buffer's length, and the copy is empty
   * when the clamped end does not lie after the clamped begin.
   */
  function Slice(buf: seq<byte>, begin: nat, end: nat): (r: seq<byte>)
    ensures |r| == 0 || (begin < end && begin + |r| <= |buf|)
    ensures |r| == 0 || |r| <= end - begin
    ensures begin <= end <= |buf| ==> |r| == end - begin
    ensures begin <= |buf| <= end ==> |r| == |buf| - begin
    ensures forall k :: 0 <= k < |r| ==> r[k] == buf[begin + k]
  {
    var first := Min(begin, |buf|);
    var final := Min(end, |buf|);
    if first <= final then buf[first..final] else []
  }

  /**
   * The slices the sending loop produces once its index has reached `i`:
   * `slice(i, i + size)`, then the slices from `i + size`, until the index
   * is no longer below the buffer's length.
   */
  function ChunksFrom(data: seq<byte>, size: nat, i: nat): seq<seq<byte>>
    requires size > 0
    decreases |data| - i
  {
    if i >= |data| then [] else [Slice(data, i, i + size)] + ChunksFrom(data, size, i + size)
  }

  /** All slices of `data` that a loop starting at offset 0 produces. */
  function Chunks(data: seq<byte>, size: nat): seq<seq<byte>>
    requires size > 0
  {
    ChunksFrom(data, size, 0)
  }

  /** The whole message sequence `sendFile` writes on the channel. */
  function SenderMessages(file: seq<byte>): (ms: seq<Message>)
    ensures |ms| == |Chunks(file, MaxSize)| + 1
    ensures ms[|ms| - 1] == Text(EndOfFile)
    ensures forall k :: 0 <= k < |ms| - 1 ==> ms[k] == Binary(Chunks(file, MaxSize)[k])
  {
    Frames(Chunks(file, MaxSize)) + [Text(EndOfFile)]
  }

  lemma {:induction false} ChunkSizesFrom(data: seq<byte>, size: nat, i: nat)
    requires size > 0
    ensures forall k :: 0 <= k < |ChunksFrom(data, size, i)| ==>
      0 < |ChunksFrom(data, size, i)[k]| <= size
    ensures forall k :: 0 <= k < |ChunksFrom(data, size, i)| - 1 ==>
      |ChunksFrom(data, size, i)[k]| == size
    decreases |data| - i
  {
    if i < |data| {
      ChunkSizesFrom(data, size, i + size);
    }
  }

  /**
   * Every slice holds at least one and at most `size` bytes, and every
   * slice but the last holds exactly `size` bytes.
   */
  lemma ChunkSizes(data: seq<byte>, size: nat)
    requires size > 0
    ensures forall k :: 0 <= k < |Chunks(data, size)| ==> 0 < |Chunks(data, size)[k]| <= size
    ensures forall k :: 0 <= k < |Chunks(data, size)| - 1 ==> |Chunks(data, size)[k]| == size
  {
    ChunkSizesFrom(data, size, 0);
  }

  lemma {:induction false} MulStep(a: nat, b: nat, c: nat)
    ensures a < b ==> a * c + c <= b * c
    decreases b
  {
    if a < b {
      assert b * c == (b - 1) * c + c;
      if a < b - 1 {
        MulStep(a, b - 1, c);
      }
    }
  }

  /** A quotient is determined by the bounds that a multiple of the divisor puts on it. */
  lemma DivUnique(m: nat, size: nat, q: nat)
    requires size > 0
    requires q * size <= m < q * size + size
    ensures m / size == q
  {
    var d := m / size;
    assert m == d * size + m % size;
    MulStep(q, d, size);
    MulStep(d, q, size);
  }

  /** `(n + size - 1) / size` is the least `q` with `n <= q * size`. */
  lemma CeilDiv(n: nat, size: nat, q: nat)
    requires size > 0
    requires n <= q * size
    requires q == 0 || (q - 1) * size < n
    ensures (n + size - 1) / size == q
  {
    if q > 0 {
      assert (q - 1) * size == q * size - size;
    }
    DivUnique(n + size - 1, size, q);
  }

  lemma {:induction false} ChunkCountFrom(data: seq<byte>, size: nat, i: nat)
    requires size > 0
    requires i <= |data|
    ensures |ChunksFrom(data, size, i)| * size >= |data| - i
    ensures |ChunksFrom(data, size, i)| == 0 || (|ChunksFrom(data, size, i)| - 1) * size < |data| - i
    decreases |data| - i
  {
    if i < |data| {
      if i + size <= |data| {
        ChunkCountFrom(data, size, i + size);
        var q := |ChunksFrom(data, size, i + size)|;
        assert |ChunksFrom(data, size, i)| == q + 1;
        assert (q + 1) * size == q * size + size;
      } else {
        assert ChunksFrom(data, size, i + size) == [];
      }
    }
  }

  /**
   * A buffer of N bytes is sent as ceil(N / size) slices; in particular an
   * empty buffer is sent as no slice at all.
   */
  lemma ChunkCount(data: seq<byte>, size: nat)
    requires size > 0
    ensures |Chunks(data, size)| == (|data| + size - 1) / size
    ensures |Chunks(data, size)| == 0 <==> |data| == 0
  {
    ChunkCountFrom(data, size, 0);
    CeilDiv(|data|, size, |Chunks(data, size)|);
  }

  lemma {:induction false} ChunkAtFrom(data: seq<byte>, size: nat, i: nat, k: nat)
    requires size > 0
    requires k < |ChunksFrom(data, size, i)|
    ensures i + k * size < |data|
    ensures ChunksFrom(data, size, i)[k] == data[i + k * size .. Min(i + (k + 1) * size, |data|)]
    decreases k
  {
    if k == 0 {
      assert ChunksFrom(data, size, i)[0] == Slice(data, i, i + size);
    } else {
      ChunkAtFrom(data, size, i + size, k - 1);
      assert i + size + (k - 1) * size == i + k * size;
      assert i + size + k * size == i + (k + 1) * size;
    }
  }

  /**
   * Slice number `k` is the bytes from offset `k * size` up to
   * `(k + 1) * size` or the end of the buffer, so the slices are
   * contiguous, do not overlap and come in increasing offset order.
   */
  lemma ChunkAt(data: seq<byte>, size: nat, k: nat)
    requires size > 0
    requires k < |Chunks(data, size)|
    ensures k * size < |data|
    ensures Chunks(data, size)[k] == data[k * size .. Min((k + 1) * size, |data|)]
  {
    ChunkAtFrom(data, size, 0, k);
  }

  lemma {:induction false} FlattenChunksFrom(data: seq<byte>, size: nat, i: nat)
    requires size > 0
    requires i <= |data|
    ensures Flatten(ChunksFrom(data, size, i)) == data[i..]
    decreases |data| - i
  {
    if i < |data| {
      var head := Slice(data, i, i + size);
      var rest := ChunksFrom(data, size, i + size);
      FlattenCons(head, rest);
      if i + size <= |data| {
        FlattenChunksFrom(data, size, i + size);
        assert head == data[i..i + size];
        assert data[i..] == data[i..i + size] + data[i + size..];
      } else {
        assert rest == [];
        assert head == data[i..];
      }
    }
  }

  /** Laying the slices end to end in the order they were sent gives back the buffer. */
  lemma FlattenChunks(data: seq<byte>, size: nat)
    requires size > 0
    ensures Flatten(Chunks(data, size)) == data
  {
    FlattenChunksFrom(data, size, 0);
  }

  /** A non-empty buffer of at most `size` bytes, one of exactly `size` bytes included, goes out as one slice. */
  lemma SingleChunk(data: seq<byte>, size: nat)
    requires 0 < |data| <= size
    ensures Chunks(data, size) == [data]
  {
    assert Slice(data, 0, size) == data;
    assert ChunksFrom(data, size, size) == [];
  }

  /** A buffer of `size + 1` bytes goes out as a full slice and a one-byte slice. */
  lemma FullChunkAndOneByte(data: seq<byte>, size: nat)
    requires size > 0 && |data| == size + 1
    ensures Chunks(data, size) == [data[..size], data[size..]]
  {
    assert Slice(data, 0, size) == data[..size];
    assert Slice(data, size, size + size) == data[size..];
    assert ChunksFrom(data, size, size + size) == [];
    assert ChunksFrom(data, size, size) == [data[size..]];
  }

  /**
   * The loop of `sendFile`: send `slice(i, i + MAX_SIZE)` for
   * i = 0, MAX_SIZE, 2 * MAX_SIZE, ... while i is below the file's length,
   * then send the sentinel. The channel is the sequence of messages
   * written on it, in order.
   */
  method SendFile(file: seq<byte>) returns (sent: seq<Message>)
    ensures sent == SenderMessages(file)
    ensures |sent| == (|file| + MaxSize - 1) / MaxSize + 1
    ensures forall k :: 0 <= k < |sent| ==> (IsEndOfFile(sent[k]) <==> k == |sent| - 1)
    ensures forall k :: 0 <= k < |sent| - 1 ==> sent[k].Binary? && 0 < |sent[k].bytes| <= MaxSize
  {
    sent := [];
    var i: nat := 0;
    while i < |file|
      invariant sent + Frames(ChunksFrom(file, MaxSize, i)) == Frames(Chunks(file, MaxSize))
      decreases |file| - i
    {
      var chunk := Slice(file, i, i + MaxSize);
      assert Frames(ChunksFrom(file, MaxSize, i)) == [Binary(chunk)] + Frames(ChunksFrom(file, MaxSize, i + MaxSize));
      sent := sent + [Binary(chunk)];
      i := i + MaxSize;
    }
    sent := sent + [Text(EndOfFile)];
    ChunkCount(file, MaxSize);
    ChunkSizes(file, MaxSize);
  }
}
