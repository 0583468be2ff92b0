/** The chunked byte FIFO behind a response body (internal/http2/databuffer.go). */
module DataBuffer {
  import opened MachineInts
  import opened Wrappers

  /** errReadEmpty. */
  const READ_EMPTY := Other(0)

  predicate IsClass(n: int) { n == 1024 || n == 2048 || n == 4096 || n == 8192 || n == 16384 }

  /** The chunk size getDataBufferChunk picks for a wanted size: half of it would be too small. */
  function ChunkSize(want: int): (size: nat)
    ensures 1024 <= size && IsClass(size) && (size > 1024 ==> want > size / 2)
    ensures if want <= 16384 then want <= size else size == 16384
  {
    if want <= 1024 then 1024
    else if want <= 2048 then 2048
    else if want <= 4096 then 4096
    else if want <= 8192 then 8192
    else 16384
  }

  ghost function Flat(chunks: seq<array<byte>>): seq<byte>
    reads chunks
  {
    if chunks == [] then [] else chunks[0][..] + Flat(chunks[1..])
  }

  lemma {:induction false} FlatLast(chunks: seq<array<byte>>)
    requires chunks != []
    ensures Flat(chunks) == Flat(chunks[..|chunks| - 1]) + chunks[|chunks| - 1][..]
  {
    if |chunks| > 1 {
      FlatLast(chunks[1..]);
      assert chunks[1..][..|chunks| - 2] == chunks[..|chunks| - 1][1..];
    }
  }

  lemma {:induction false} FlatPush(chunks: seq<array<byte>>, c: array<byte>)
    ensures Flat(chunks + [c]) == Flat(chunks) + c[..]
  {
    FlatLast(chunks + [c]);
    assert (chunks + [c])[..|chunks|] == chunks;
  }

  /** Writing one chunk leaves the bytes of the others as they were. */
  twostate lemma FlatUnchanged(chunks: seq<array<byte>>)
    requires forall i :: 0 <= i < |chunks| ==> chunks[i][..] == old(chunks[i][..])
    ensures Flat(chunks) == old(Flat(chunks))
  {
    if chunks != [] {
      assert chunks[0][..] == old(chunks[0][..]);
      assert forall i :: 0 <= i < |chunks[1..]| ==> chunks[1..][i] == chunks[i + 1];
      FlatUnchanged(chunks[1..]);
    }
  }

  // Slicing facts, kept away from the heap.

  lemma SliceAfterDrop(first: seq<byte>, rest: seq<byte>, r: nat, end: nat)
    requires r <= |first| <= end <= |first| + |rest|
    ensures rest[..end - |first|] == (first + rest)[r..end][|first| - r..]
  {
  }

  lemma SliceAfterCopy(front: seq<byte>, before: seq<byte>, after: seq<byte>, r: nat, w: nat, data: seq<byte>)
    requires |before| == |after| && w + |data| <= |before| && r <= |front| + w
    requires after[..w] == before[..w] && after[w..w + |data|] == data
    ensures (front + after)[r..|front| + w + |data|] == (front + before)[r..|front| + w] + data
  {
    var x, y := (front + after)[r..|front| + w + |data|], (front + before)[r..|front| + w] + data;
    forall i | 0 <= i < |x|
      ensures x[i] == y[i]
    {
      if |front| <= r + i < |front| + w {
        assert after[..w][r + i - |front|] == before[..w][r + i - |front|];
      } else if |front| + w <= r + i {
        assert after[w..w + |data|][r + i - |front| - w] == data[r + i - |front| - w];
      }
    }
  }

  lemma SlicePrefix(s: seq<byte>, r: nat, end: nat, k: nat)
    requires r <= end <= |s| && k <= end - r
    ensures s[r..r + k] == s[r..end][..k]
  {
  }

  lemma PrefixExtends(had: seq<byte>, p: seq<byte>, i: nat, k: nat)
    requires i + k <= |p|
    ensures had + p[..i] + p[i..][..k] == had + p[..i + k]
  {
  }

  /** Go's copy(dst[at:], data) when data fits. */
  method CopyInto(dst: array<byte>, at: nat, data: seq<byte>)
    requires at + |data| <= dst.Length
    modifies dst
    ensures dst[..at] == old(dst[..at]) && dst[at..at + |data|] == data
    ensures dst[at + |data|..] == old(dst[at + |data|..])
  {
    forall i | 0 <= i < |data| {
      dst[at + i] := data[i];
    }
  }

  class DataBuffer {
    var chunks: seq<array<byte>>
    var r: nat
    var w: nat
    var size: nat
    var expected: int

    ghost predicate Distinct() reads this {
      forall i, j :: 0 <= i < j < |chunks| ==> chunks[i] != chunks[j]
    }

    /** The number of unused bytes at the end of the last chunk. */
    ghost function Slack(): int
      reads this, chunks
    {
      if chunks == [] then 0 else chunks[|chunks| - 1].Length - w
    }

    ghost predicate Valid()
      reads this, chunks
    {
      && Distinct()
      && (forall c <- chunks :: 0 < c.Length)
      && (if chunks == [] then r == 0 else r < chunks[0].Length && w <= chunks[|chunks| - 1].Length)
      && (|chunks| == 1 ==> r <= w)
      && 0 <= r <= |Flat(chunks)| - Slack()
      && size == |Flat(chunks)| - Slack() - r
    }

    /** The unread bytes, oldest first. */
    ghost function Contents(): (s: seq<byte>)
      requires Valid()
      reads this, chunks
      ensures |s| == size
    {
      Flat(chunks)[r..|Flat(chunks)| - Slack()]
    }

    constructor (expectedBytes: int)
      ensures Valid() && Contents() == [] && chunks == [] && expected == expectedBytes
    {
      chunks, r, w, size, expected := [], 0, 0, 0, expectedBytes;
    }

    function Len(): (n: nat)
      reads this, chunks
      requires Valid()
      ensures n == |Contents()|
    {
      size
    }

    /** The slice of the first chunk that bytesFromFirstChunk returns, as bounds. */
    function FirstChunkEnd(): (end: nat)
      requires Valid() && size > 0
      reads this, chunks
      ensures chunks != [] && r < end <= chunks[0].Length && end - r <= size
    {
      FlatBounds();
      if |chunks| == 1 then w else chunks[0].Length
    }

    lemma {:induction false} FirstChunkIsPrefix(end: nat)
      requires Valid() && size > 0 && end == FirstChunkEnd()
      ensures chunks[0][r..end] == Contents()[..end - r]
    {
      FlatBounds();
      assert chunks[0][r..end] == Flat(chunks)[..chunks[0].Length][r..end] == Flat(chunks)[r..end];
    }

    lemma FlatBounds()
      requires Valid() && size > 0
      ensures chunks != []
      ensures |chunks| == 1 ==> Flat(chunks) == chunks[0][..] && r < w && size == w - r
      ensures |chunks| > 1 ==> chunks[0].Length <= |Flat(chunks)| - Slack()
      ensures Flat(chunks)[..chunks[0].Length] == chunks[0][..]
    {
      if |chunks| == 1 {
        assert Flat(chunks[1..]) == [];
        assert Flat(chunks) == chunks[0][..];
      } else if |chunks| > 1 {
        FlatLast(chunks[1..]);
      }
    }

    /** Marks k more bytes of the first chunk as read; a chunk read to its end is given back. */
    method Advance(k: nat)
      requires Valid() && chunks != [] && 0 < k <= size && k <= (if |chunks| == 1 then w else chunks[0].Length) - r
      modifies this
      ensures Valid() && Contents() == old(Contents())[k..]
      ensures chunks == old(chunks) || chunks == old(chunks)[1..]
    {
      FlatBounds();
      r := r + k;
      size := size - k;
      if r == chunks[0].Length {
        DropFirst(old(r), k);
      }
    }

    method DropFirst(ghost was: nat, ghost k: nat)
      requires Distinct() && (forall c <- chunks :: 0 < c.Length)
      requires chunks != [] && was + k == r == chunks[0].Length
      requires w <= chunks[|chunks| - 1].Length && (|chunks| == 1 ==> r <= w)
      requires r <= |Flat(chunks)| - Slack() && size == |Flat(chunks)| - Slack() - r
      modifies this
      ensures Valid() && Contents() == old(Flat(chunks)[was..|Flat(chunks)| - Slack()])[k..]
      ensures chunks == old(chunks)[1..]
    {
      SliceAfterDrop(chunks[0][..], Flat(chunks[1..]), was, |Flat(chunks)| - Slack());
      if |chunks| == 2 {
        assert Flat(chunks[1..][1..]) == [];
        assert Flat(chunks[1..]) == chunks[1][..];
      }
      chunks := chunks[1..];
      r := 0;
    }

    /** One round of Read's loop: copies bytes of the first chunk to p[n..] and marks them read. */
    method ReadFirstChunk(p: array<byte>, n: nat) returns (k: nat)
      requires Valid() && p !in chunks && n < p.Length && size > 0
      modifies this, p
      ensures Valid() && 0 < k <= old(size) && n + k <= p.Length
      ensures p[..n] == old(p[..n]) && p[n..n + k] == old(Contents())[..k] && p[n + k..] == old(p[n + k..])
      ensures Contents() == old(Contents())[k..]
      ensures chunks == old(chunks) || chunks == old(chunks)[1..]
    {
      var end := FirstChunkEnd();
      FirstChunkIsPrefix(end);
      k := Min(p.Length - n, end - r);
      var data := chunks[0][r..r + k];
      ghost var all := Contents();
      assert data == all[..k] by {
        SlicePrefix(chunks[0][..], r, end, k);
        assert all[..end - r][..k] == all[..k];
      }
      CopyInto(p, n, data);
      FlatUnchanged(chunks);
      Advance(k);
    }

    /** Copies unread bytes into p; it stops when p is full or the buffer is empty. */
    method Read(p: array<byte>) returns (n: nat, err: Option<IOError>)
      requires Valid() && p !in chunks
      modifies this, p
      ensures Valid()
      ensures old(size) == 0 ==> n == 0 && err == Some(READ_EMPTY)
      ensures old(size) > 0 ==> err == None && n == Min(p.Length, old(size))
      ensures p[..n] == old(Contents())[..n] && p[n..] == old(p[n..])
      ensures Contents() == old(Contents())[n..]
      ensures forall c <- chunks :: c in old(chunks)
    {
      if size == 0 {
        return 0, Some(READ_EMPTY);
      }
      n := 0;
      ghost var all := Contents();
      while n < p.Length && size > 0
        invariant Valid() && forall c <- chunks :: c in old(chunks)
        invariant n <= p.Length && n + size == |all|
        invariant p[..n] == all[..n] && p[n..] == old(p[n..])
        invariant Contents() == all[n..]
      {
        var k := ReadFirstChunk(p, n);
        assert p[..n + k] == p[..n] + p[n..n + k];
        n := n + k;
      }
      return n, None;
    }

    method LastChunkOrAlloc(want: int) returns (chunk: array<byte>)
      requires Valid()
      modifies this
      ensures Valid() && Contents() == old(Contents()) && size == old(size) && expected == old(expected)
      ensures chunks != [] && chunk == chunks[|chunks| - 1] && w < chunk.Length
      ensures chunks == old(chunks) || (chunks == old(chunks) + [chunk] && fresh(chunk))
    {
      if |chunks| != 0 {
        var last := chunks[|chunks| - 1];
        if w < last.Length {
          return last;
        }
      }
      chunk := new byte[ChunkSize(want)];
      FlatPush(chunks, chunk);
      chunks := chunks + [chunk];
      w := 0;
      if |chunks| == 1 {
        assert Flat(old(chunks)) == [];
      }
    }

    /** One round of Write's loop: as much of rest as fits in the last chunk. */
    method WriteLastChunk(rest: seq<byte>) returns (k: nat)
      requires Valid() && |rest| > 0
      modifies this, chunks
      ensures Valid() && 0 < k <= |rest| && Contents() == old(Contents()) + rest[..k]
      ensures forall i :: 0 <= i < |chunks| ==> chunks[i] in old(chunks) || fresh(chunks[i])
    {
      var want := if expected > |rest| then expected else |rest|;
      var chunk := LastChunkOrAlloc(want);
      k := Min(chunk.Length - w, |rest|);
      CopyIn(chunk, rest[..k]);
    }

    /** Appends the bytes of p. */
    method Write(p: seq<byte>) returns (ntotal: nat)
      requires Valid()
      modifies this, chunks
      ensures Valid() && Contents() == old(Contents()) + p && ntotal == |p|
      ensures forall i :: 0 <= i < |chunks| ==> chunks[i] in old(chunks) || fresh(chunks[i])
    {
      ntotal := 0;
      ghost var had := Contents();
      while ntotal < |p|
        invariant Valid() && ntotal <= |p|
        invariant Contents() == had + p[..ntotal]
        invariant forall i :: 0 <= i < |chunks| ==> chunks[i] in old(chunks) || fresh(chunks[i])
      {
        var k := WriteLastChunk(p[ntotal..]);
        PrefixExtends(had, p, ntotal, k);
        ntotal := ntotal + k;
      }
    }

    method CopyIn(chunk: array<byte>, data: seq<byte>)
      requires Valid() && chunks != [] && chunk == chunks[|chunks| - 1]
      requires |data| <= chunk.Length - w
      modifies this, chunk
      ensures Valid() && Contents() == old(Contents()) + data && chunks == old(chunks)
    {
      FillLast(chunk, data);
      w := w + |data|;
      size := size + |data|;
      expected := expected - |data|;
    }

    lemma ContentsSplit()
      requires Valid() && chunks != []
      ensures var front := Flat(chunks[..|chunks| - 1]); var last := chunks[|chunks| - 1][..];
        |Flat(chunks)| == |front| + |last| && r <= |front| + w && Contents() == (front + last)[r..|front| + w]
    {
      FlatLast(chunks);
    }

    method FillLast(chunk: array<byte>, data: seq<byte>)
      requires Valid() && chunks != [] && chunk == chunks[|chunks| - 1]
      requires |data| <= chunk.Length - w
      modifies chunk
      ensures |Flat(chunks)| == old(|Flat(chunks)|)
      ensures Flat(chunks)[r..|Flat(chunks)| - (Slack() - |data|)] == old(Contents()) + data
    {
      ghost var front := Flat(chunks[..|chunks| - 1]);
      ghost var was := chunk[..];
      ContentsSplit();
      label before:
      CopyInto(chunk, w, data);
      FlatUnchanged@before(chunks[..|chunks| - 1]);
      FlatLast(chunks);
      SliceAfterCopy(front, was, chunk[..], r, w, data);
    }
  }
}
