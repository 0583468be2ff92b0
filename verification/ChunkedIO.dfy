/** chunkedReader and chunkedWriter (internal/chunked.go) over a buffered input and a sink. */
module ChunkedIO {
  import opened MachineInts
  import opened Wrappers
  import opened Chunked
  import opened Sequences
  import opened Sinks

  /** A bufio.Reader, which returns and buffers whatever amounts it likes. */
  class BufReader {
    var rest: seq<byte>        // everything not yet read, up to the error that ends it
    var buffered: nat          // of which this much is in the buffer
    const end: IOError
    const size: nat

    ghost predicate Valid()
      reads this
    {
      buffered <= |rest| && MAX_LINE_LENGTH <= size
    }

    constructor (input: seq<byte>, end: IOError, size: nat)
      requires MAX_LINE_LENGTH <= size
      ensures Valid() && rest == input && this.end == end && this.size == size
    {
      rest, buffered, this.end, this.size := input, 0, end, size;
    }

    /** What the buffer holds after some reading ahead. */
    method ReadAhead()
      requires MAX_LINE_LENGTH <= size
      modifies this`buffered
      ensures Valid()
    {
      var n: nat :| n <= |rest|;
      buffered := n;
    }

    method HasLine() returns (ok: bool)
      requires Valid()
      ensures ok ==> LF in rest
    {
      var peek := rest[..buffered];
      ok := LF in peek;
    }

    /** Reads any positive amount into b[from..], or fails. */
    method Read(b: array<byte>, from: nat, to: nat) returns (n: nat, err: Option<IOError>)
      requires Valid() && from < to <= b.Length
      modifies this`rest, this`buffered, b
      ensures Valid()
      ensures err == if old(rest) == [] then Some(end) else None
      ensures n <= to - from && n <= |old(rest)| && (n > 0 <==> old(rest) != []) && rest == old(rest)[n..]
      ensures b[..from + n] == old(b[..from]) + old(rest)[..n]
    {
      if rest == [] {
        return 0, Some(end);
      }
      n :| 0 < n <= to - from && n <= |rest|;
      var got := rest[..n];
      forall i | 0 <= i < n {
        b[from + i] := got[i];
      }
      assert b[from..from + n] == got;
      rest := rest[n..];
      ReadAhead();
      return n, None;
    }

    /** io.ReadFull of two bytes. */
    method ReadTwo() returns (two: seq<byte>, err: Option<IOError>)
      requires Valid()
      modifies this
      ensures Valid()
      ensures |old(rest)| >= 2 ==> err == None && two == old(rest)[..2] && rest == old(rest)[2..]
      ensures |old(rest)| < 2 ==> err == Some(if old(rest) == [] then end else Unexpected(end)) && rest == []
    {
      if |rest| >= 2 {
        two, rest, err := rest[..2], rest[2..], None;
      } else {
        err := Some(if |rest| == 0 then end else Unexpected(end));
        two, rest := rest, [];
      }
      ReadAhead();
    }

    /** ReadSlice up to a line feed: the line, or the error and whether it was that the buffer is full. */
    method ReadSlice() returns (line: seq<byte>, err: Option<IOError>, full: bool)
      requires Valid()
      modifies this
      ensures Valid()
      ensures var i := IndexOf(old(rest), LF, 0);
        if i >= size then full && err.Some? && rest == old(rest)[size..]
        else if i == |old(rest)| then !full && err == Some(end) && rest == []
        else err == None && line == old(rest)[..i + 1] && rest == old(rest)[i + 1..]
    {
      line, err, full := [], None, false;
      var i := IndexOf(rest, LF, 0);
      if i >= size {
        full, err, rest := true, Some(LINE_TOO_LONG), rest[size..];
      } else if i == |rest| {
        err, rest := Some(end), [];
      } else {
        line, rest := rest[..i + 1], rest[i + 1..];
      }
      ReadAhead();
    }
  }

  method TrimTrailingWhitespace(b: seq<byte>) returns (r: seq<byte>)
    ensures r == Trim(b)
  {
    r := b;
    while |r| > 0 && IsSpace(r[|r| - 1])
      invariant Trim(r) == Trim(b)
    {
      r := r[..|r| - 1];
    }
  }

  method RemoveChunkExtension(p: seq<byte>) returns (r: seq<byte>)
    ensures r == CutExtension(p)
  {
    for i := 0 to |p|
      invariant IndexOf(p, SEMICOLON, 0) == IndexOf(p, SEMICOLON, i)
    {
      if p[i] == SEMICOLON {
        return p[..i];
      }
    }
    return p;
  }

  /** The running value is kept modulo 2^64; with at most sixteen digits nothing is lost. */
  method ParseHexUint(v: seq<byte>) returns (r: Result<nat, IOError>)
    ensures r == ParseHex(v)
  {
    var n := 0;
    for i := 0 to |v|
      invariant i <= 16 && FirstBad(v, 0) == FirstBad(v, i) && AllHex(v[..i]) && n == Value(v[..i])
    {
      var b := v[i];
      if !IsHex(b) {
        return Err(INVALID_BYTE);
      }
      if i == 16 {
        return Err(LENGTH_TOO_LARGE);
      }
      assert v[..i + 1][..i] == v[..i];
      StaysWithin64(v[..i + 1]);
      n := (n * 16 + Digit(b)) % TWO_64;
    }
    assert v[..|v|] == v;
    return Ok(n);
  }

  lemma StaysWithin64(v: seq<byte>)
    requires AllHex(v) && |v| <= 16
    ensures Value(v) < TWO_64
  {
    ValueBound(v);
    Pow16Grows(|v|, 16);
    Pow16Of16();
  }

  method ReadChunkLine(r: BufReader) returns (line: Result<seq<byte>, IOError>)
    requires r.Valid()
    modifies r
    ensures r.Valid() && (line, r.rest) == ReadLine(old(r.rest), r.end, r.size)
  {
    var p, err, full := r.ReadSlice();
    if err.Some? {
      return Err(if full then LINE_TOO_LONG else Unexpected(err.value));
    }
    if |p| >= MAX_LINE_LENGTH {
      return Err(LINE_TOO_LONG);
    }
    p := TrimTrailingWhitespace(p);
    p := RemoveChunkExtension(p);
    return Ok(p);
  }

  class ChunkedReader {
    const r: BufReader
    var n: nat                 // unread bytes in the chunk
    var err: Option<IOError>
    var checkEnd: bool

    ghost predicate Valid()
      reads this, r
    {
      r.Valid() && (checkEnd ==> n == 0)
    }

    /** All that reads will still deliver. */
    ghost function Future(): Stream
      reads this, r
    {
      if err.Some? then Stream([], err.value, r.rest) else Decode(n, checkEnd, r.rest, r.end, r.size)
    }

    constructor (r: BufReader)
      requires r.Valid()
      ensures Valid() && this.r == r && err == None && Future() == Decode(0, false, r.rest, r.end, r.size)
    {
      this.r, n, err, checkEnd := r, 0, None, false;
    }

    method BeginChunk()
      requires Valid() && err == None && n == 0 && !checkEnd
      modifies this, r
      ensures Valid() && Future() == old(Future()) && !checkEnd && (err == None ==> n > 0)
      ensures |r.rest| + (if err == None then 1 else 0) < |old(r.rest)| + 1
    {
      ghost var next := NextChunk(r.rest, r.end, r.size);
      assert Future() == next;
      var line := ReadChunkLine(r);
      if line.Err? {
        err := Some(line.error);
        return;
      }
      var size := ParseHexUint(line.value);
      if size.Err? {
        err := Some(size.error);
        return;
      }
      n := size.value;
      if n == 0 {
        err := Some(EOF);
      }
    }

    /** The line end after a chunk. */
    method EndChunk()
      requires Valid() && err == None && checkEnd
      modifies this, r
      ensures Valid() && Future() == old(Future()) && n == 0
      ensures err == None ==> !checkEnd && |r.rest| < |old(r.rest)|
      ensures |r.rest| <= |old(r.rest)|
    {
      ghost var next := EndOfChunk(r.rest, r.end, r.size);
      assert Future() == next;
      var two, e := r.ReadTwo();
      if e.None? {
        if two != CRLF {
          err := Some(MALFORMED);
          return;
        }
      } else {
        err := Some(Unexpected(e.value));
        return;
      }
      checkEnd := false;
    }

    /** One read from inside a chunk. */
    method ReadInChunk(b: array<byte>, from: nat) returns (n0: nat, ghost got: seq<byte>)
      requires Valid() && err == None && n > 0 && !checkEnd && from < b.Length
      modifies this, r, b
      ensures Valid() && from + n0 <= b.Length
      ensures b[..from + n0] == old(b[..from]) + got
      ensures old(Future()) == Prepend(got, Future())
      ensures |r.rest| + (if err == None then 1 else 0) < |old(r.rest)| + 1
      ensures err == None ==> n0 > 0
    {
      var to := b.Length;
      if to - from > n {
        to := from + n;
      }
      ghost var before := r.rest;
      n0, err := r.Read(b, from, to);
      got := before[..n0];
      if n0 > 0 {
        DecodeSplits(n, n0, before, r.end, r.size);
      }
      n := n - n0;
      if n == 0 && err == None {
        checkEnd := true;
      } else if err == Some(EOF) {
        err := Some(UnexpectedEOF);
      }
    }

    /** What is left to do before the next data, with k bytes returned so far: stop tells that it can wait. */
    method Prepare(k: nat) returns (stop: bool)
      requires Valid() && err == None
      modifies this, r
      ensures Valid() && Future() == old(Future()) && |r.rest| <= |old(r.rest)|
      ensures stop ==> err.Some? || k > 0
      ensures !stop && err == None ==> n > 0 && !checkEnd
    {
      if checkEnd {
        if k > 0 && r.buffered < 2 {
          return true;
        }
        EndChunk();
        if err.Some? {
          return true;
        }
      }
      if n == 0 {
        var available := r.HasLine();
        if k > 0 && !available {
          return true;
        }
        BeginChunk();
      }
      return false;
    }

    /**
     * Read: the bytes it returns are the next ones, the error it returns is the one the stream ends with, and
     * it returns none of them only if it got no room.
     */
    method Read(b: array<byte>) returns (k: nat, e: Option<IOError>)
      requires Valid()
      modifies this, r, b
      ensures Valid() && k <= b.Length && e == err
      ensures old(Future()) == Prepend(b[..k], Future())
      ensures e == None && b.Length > 0 ==> k > 0
      ensures |r.rest| <= |old(r.rest)|
    {
      k := 0;
      ghost var start := Future();
      while err == None
        invariant Valid() && k <= b.Length && start == Prepend(b[..k], Future()) && |r.rest| <= |old(r.rest)|
        decreases |r.rest| + if err == None then 1 else 0
      {
        var stop := Prepare(k);
        if stop {
          break;
        }
        if err.Some? {
          continue;
        }
        if b.Length - k == 0 {
          break;
        }
        ghost var so, got := b[..k], [];
        var n0;
        n0, got := ReadInChunk(b, k);
        PrependTwice(so, got, Future());
        k := k + n0;
      }
      e := err;
    }
  }

  lemma PrependTwice(a: seq<byte>, b: seq<byte>, s: Stream)
    ensures Prepend(a, Prepend(b, s)) == Prepend(a + b, s)
  {
    assert a + (b + s.data) == a + b + s.data;
  }

  /** Main result: reads of any positive sizes deliver exactly the stream, end in its error, and leave its rest. */
  method ReadAll(cr: ChunkedReader, sizes: nat -> nat) returns (data: seq<byte>, e: IOError)
    requires cr.Valid() && forall i :: sizes(i) > 0
    modifies cr, cr.r
    ensures Stream(data, e, cr.r.rest) == old(cr.Future())
  {
    data := [];
    var i: nat := 0;
    ghost var start := cr.Future();
    while cr.err == None
      invariant cr.Valid() && start == Prepend(data, cr.Future())
      decreases |cr.Future().data|, cr.err == None
    {
      var b := new byte[sizes(i)];
      var k, _ := cr.Read(b);
      PrependTwice(data, b[..k], cr.Future());
      data := data + b[..k];
      i := i + 1;
    }
    e := cr.err.value;
  }

  class ChunkedWriter {
    const wire: Sink

    constructor (wire: Sink)
      ensures this.wire == wire
    {
      this.wire := wire;
    }

    method Write(data: seq<byte>) returns (n: nat, err: Option<IOError>)
      modifies wire
      ensures wire.conforms && err == None ==> n == |data| && wire.out == old(wire.out) + Chunk(data)
      ensures err == None ==> n == |data|
      ensures data == [] ==> wire.out == old(wire.out) && err == None
    {
      if |data| == 0 {
        return 0, None;
      }
      ghost var before := wire.out;
      var header := Hex(|data|) + CRLF;
      var h, e := wire.Write(header);
      if e.Some? {
        return 0, e;
      }
      n, err := wire.Write(data);
      if err.Some? {
        return;
      }
      if n != |data| {
        return n, Some(SHORT_WRITE);
      }
      h, err := wire.Write(CRLF);
      if wire.conforms && err == None {
        assert wire.out == before + header + data + CRLF;
        assert before + header + data + CRLF == before + (Hex(|data|) + CRLF + data + CRLF);
      }
    }

    method Close() returns (err: Option<IOError>)
      modifies wire
      ensures wire.conforms && err == None ==> wire.out == old(wire.out) + LAST_CHUNK
    {
      var n;
      n, err := wire.Write(LAST_CHUNK);
    }
  }

  lemma EncodeStep(out: seq<byte>, todo: seq<seq<byte>>)
    requires todo != []
    ensures (out + Chunk(todo[0])) + Encode(todo[1..]) == out + Encode(todo)
  {
    Associates(out, Chunk(todo[0]), Encode(todo[1..]));
  }

  method WriteAll(w: ChunkedWriter, writes: seq<seq<byte>>) returns (err: Option<IOError>)
    requires w.wire.conforms
    modifies w.wire
    ensures err == None ==> w.wire.out == old(w.wire.out) + Encode(writes)
  {
    ghost var todo := writes;
    err := None;
    for i := 0 to |writes|
      invariant w.wire.out + Encode(todo) == old(w.wire.out) + Encode(writes) && todo == writes[i..]
    {
      EncodeStep(w.wire.out, todo);
      var n;
      n, err := w.Write(writes[i]);
      if err.Some? {
        return;
      }
      todo := todo[1..];
    }
    assert w.wire.out + [] == w.wire.out;
    return None;
  }

  method ReadBack(input: seq<byte>, end: IOError, size: nat, sizes: nat -> nat)
      returns (data: seq<byte>, e: IOError, left: seq<byte>)
    requires MAX_LINE_LENGTH <= size && forall i :: sizes(i) > 0
    ensures Stream(data, e, left) == Decode(0, false, input, end, size)
  {
    var r := new BufReader(input, end, size);
    var cr := new ChunkedReader(r);
    data, e := ReadAll(cr, sizes);
    left := r.rest;
  }

  /** Written and closed without an error, then read back with any sizes through any buffering. */
  method WriteThenRead(writes: seq<seq<byte>>, rest: seq<byte>, end: IOError, size: nat, sizes: nat -> nat)
      returns (failed: bool, data: seq<byte>, e: IOError, left: seq<byte>)
    requires MAX_LINE_LENGTH <= size && forall i :: sizes(i) > 0
    requires forall i :: 0 <= i < |writes| ==> |writes[i]| < TWO_64
    ensures !failed ==> Stream(data, e, left) == Stream(Joined(writes), EOF, rest)
  {
    data, e, left := [], EOF, [];
    var sink := new Sink(true);
    var w := new ChunkedWriter(sink);
    var err := WriteAll(w, writes);
    if err.Some? {
      return true, data, e, left;
    }
    assert sink.out == Encode(writes);
    err := w.Close();
    if err.Some? {
      return true, data, e, left;
    }
    RoundTrip(writes, rest, end, size);
    failed := false;
    data, e, left := ReadBack(sink.out + rest, end, size, sizes);
  }
}
