/** Sending a request body as DATA frames (internal/http2/transport.go, writeRequestBody). */
module RequestBody {
  import opened MachineInts
  import opened Wrappers
  import opened SendFlow

  const BODY_TOO_LONG := Other(5)   // errReqBodyTooLong
  const STOP_BODY_WRITE := Other(6) // errStopReqBodyWrite

  /** What one Read of the request body is ready to give. */
  datatype Piece = Piece(data: seq<byte>, err: Option<IOError>)

  /** A body is the pieces it will give, in order; after them it gives io.EOF. */
  type Body = seq<Piece>

  /** Read into a buffer of length max: the bytes, the error, and the body left. */
  function Read(body: Body, max: nat): (seq<byte>, Option<IOError>, Body) {
    if body == [] then ([], Some(EOF), [])
    else if |body[0].data| <= max then (body[0].data, body[0].err, body[1..])
    else (body[0].data[..max], None, [Piece(body[0].data[max..], body[0].err)] + body[1..])
  }

  /** Everything the body yields up to its first error, and that error. */
  function Yield(body: Body): (seq<byte>, IOError) {
    if body == [] then ([], EOF)
    else if body[0].err.Some? then (body[0].data, body[0].err.value)
    else (body[0].data + Yield(body[1..]).0, Yield(body[1..]).1)
  }

  function Weight(body: Body): nat {
    if body == [] then 0 else 1 + |body[0].data| + Weight(body[1..])
  }

  /** The body has yielded `data`, and then either its error or what `rest` still yields. */
  ghost predicate Gave(body: Body, data: seq<byte>, err: Option<IOError>, rest: Body) {
    Yield(body) == if err.Some? then (data, err.value) else (data + Yield(rest).0, Yield(rest).1)
  }

  /** Reading in small pieces yields the same bytes. */
  lemma ReadYields(body: Body, max: nat)
    ensures var (data, err, rest) := Read(body, max);
      Gave(body, data, err, rest) && (err.None? && max > 0 ==> Weight(rest) < Weight(body))
  {
    if body != [] && |body[0].data| > max {
      var (data, err, rest) := Read(body, max);
      assert rest[1..] == body[1..];
      assert data + rest[0].data == body[0].data;
      assert data + (rest[0].data + Yield(rest[1..]).0) == body[0].data + Yield(body[1..]).0;
    }
  }

  lemma GaveMore(body: Body, data: seq<byte>, rest: Body, more: seq<byte>, err: Option<IOError>, rest': Body)
    requires Gave(body, data, None, rest) && Gave(rest, more, err, rest')
    ensures Gave(body, data + more, err, rest')
  {
    assert data + (more + Yield(rest').0) == (data + more) + Yield(rest').0;
  }

  /** A frame as sent: DATA with the frame size limit then in force, or the trailers' header block. */
  datatype Sent = DataFrame(data: seq<byte>, endStream: bool, limit: nat) | Trailers {
    predicate EndsStream() { Trailers? || endStream }
  }

  function Payload(sent: seq<Sent>): seq<byte> {
    if sent == [] then []
    else Payload(sent[..|sent| - 1]) + if sent[|sent| - 1].DataFrame? then sent[|sent| - 1].data else []
  }

  /** Nothing follows a frame that ends the stream, and every DATA frame kept to the limit. */
  predicate WellSent(sent: seq<Sent>) {
    && (forall i :: 0 <= i < |sent| - 1 ==> !sent[i].EndsStream())
    && (forall i :: 0 <= i < |sent| && sent[i].DataFrame? ==> |sent[i].data| <= sent[i].limit)
  }

  predicate Open(sent: seq<Sent>) { forall i :: 0 <= i < |sent| ==> !sent[i].EndsStream() }

  predicate Ended(sent: seq<Sent>) { sent != [] && sent[|sent| - 1].EndsStream() }

  /** One more frame on a stream that has not ended. */
  lemma SendOne(sent: seq<Sent>, f: Sent)
    requires WellSent(sent) && Open(sent) && (f.DataFrame? ==> |f.data| <= f.limit)
    ensures WellSent(sent + [f]) && if f.EndsStream() then Ended(sent + [f]) else Open(sent + [f])
    ensures Payload(sent + [f]) == Payload(sent) + if f.DataFrame? then f.data else []
  {
    assert (sent + [f])[..|sent|] == sent;
  }

  /** frameScratchBufferLen; a content length of -1 is unknown. */
  function ScratchLen(maxFrameSize: nat, contentLength: int): (n: nat)
    ensures 1 <= n <= 524288
    ensures maxFrameSize > 0 ==> n <= maxFrameSize
    ensures 0 <= contentLength ==> n <= contentLength + 1
    ensures n == 1 || n == Min(maxFrameSize, 524288) || n == contentLength + 1
    ensures contentLength == -1 && maxFrameSize > 0 ==> n == Min(maxFrameSize, 524288)
  {
    var n := Min(maxFrameSize, 524288);
    var n1 := if contentLength != -1 && contentLength + 1 < n then contentLength + 1 else n;
    if n1 < 1 then 1 else n1
  }

  /** In a state of the connection that has an open window for the stream, this is what a take yields. */
  predicate Granted(s: Sender, id: nat, want: nat, allowed: nat, limit: nat) {
    Enabled(s, Take(id, want)) && 0 < s.maxFrame == limit && allowed == s.Grant(id, want)
  }

  /**
   * awaitFlowControl as its caller sees it: while it waits the connection may reach any state, and what it takes
   * is the grant of that state; or the stream is dead.
   */
  method AwaitFlowControl(want: nat) returns (allowed: nat, limit: nat, err: Option<IOError>)
    requires want > 0
    ensures err.None? ==> exists s: Sender, id: nat :: Granted(s, id, want, allowed, limit)
    ensures err.None? ==> 1 <= allowed <= Min(want, limit)
    ensures err.Some? ==> err.value == STOP_BODY_WRITE
  {
    var dead: bool := *;
    if dead {
      return 0, 0, Some(STOP_BODY_WRITE);
    }
    var conn: nat :| conn > 0;
    var window: nat :| window > 0;
    limit :| limit > 0;
    allowed := Min(Min(Min(window, conn), want), limit);
    err := None;
    assert Granted(Sender(conn, 0, limit, map[1 := window], {}), 1, want, allowed, limit);
  }

  /** An error of the connection, as against those of the body. */
  predicate IsWriteError(e: IOError) { e.Other? && e.tag > 6 }

  /** A write and flush to the connection, which may fail. */
  method Flush() returns (err: Option<IOError>)
    ensures err.Some? ==> IsWriteError(err.value)
  {
    var tag: nat :| tag > 6;
    var fails: bool := *;
    err := if fails then Some(Other(tag)) else None;
  }

  /** One turn of the inner loop: some of the data goes out, unless the stream is dead. */
  method SendFrame(data: seq<byte>, sent0: seq<Sent>, last: bool)
      returns (n: nat, sent: seq<Sent>, sentEnd: bool, err: Option<IOError>)
    requires WellSent(sent0) && Open(sent0) && data != []
    ensures n <= |data| && WellSent(sent) && Payload(sent) == Payload(sent0) + data[..n]
    ensures sentEnd == (last && n == |data|)
    ensures if sentEnd then Ended(sent) else Open(sent)
    ensures n == 0 ==> err.Some? && sent == sent0
    ensures err.Some? ==> err.value == STOP_BODY_WRITE || IsWriteError(err.value)
    ensures n > 0 ==> exists s: Sender, id: nat, limit: nat ::
      Granted(s, id, |data|, n, limit) && sent == sent0 + [DataFrame(data[..n], sentEnd, limit)]
  {
    var allowed, limit, e := AwaitFlowControl(|data|);
    if e.Some? {
      assert data[..0] == [];
      return 0, sent0, false, e;
    }
    n := allowed;
    sentEnd := last && |data| == n;
    var frame := DataFrame(data[..n], sentEnd, limit);
    SendOne(sent0, frame);
    sent := sent0 + [frame];
    err := Flush();
  }

  /** The inner loop until the piece is out; only its last frame may end the stream. */
  method SendPiece(data: seq<byte>, sent0: seq<Sent>, last: bool)
      returns (sent: seq<Sent>, sentEnd: bool, err: Option<IOError>)
    requires WellSent(sent0) && Open(sent0)
    ensures WellSent(sent) && Payload(sent0) <= Payload(sent) <= Payload(sent0) + data
    ensures err.None? ==> Payload(sent) == Payload(sent0) + data
    ensures err.None? ==> sentEnd == (last && |data| > 0)
    ensures err.Some? ==> err.value == STOP_BODY_WRITE || IsWriteError(err.value)
    ensures err.None? ==> if sentEnd then Ended(sent) else Open(sent)
  {
    sent, sentEnd, err := sent0, false, None;
    var done := 0;
    assert data[..0] == [];
    while done < |data| && err.None?
      invariant done <= |data| && WellSent(sent) && Payload(sent) == Payload(sent0) + data[..done]
      invariant if sentEnd then Ended(sent) else Open(sent)
      invariant sentEnd == (last && |data| > 0 && done == |data|)
      invariant err.Some? ==> err.value == STOP_BODY_WRITE || IsWriteError(err.value)
      decreases |data| - done, err.None?
    {
      var remain := data[done..];
      var n, sent', end, e := SendFrame(remain, sent, last);
      assert data[..done] + remain[..n] == data[..done + n];
      done, sent, sentEnd, err := done + n, sent', end, e;
    }
  }

  /** One Read, and when a declared length has just been reached, one more byte to see whether that is all. */
  method ReadPiece(body: Body, max: nat, known: bool, remainLen: int)
      returns (data: seq<byte>, probe: seq<byte>, err: Option<IOError>, rest: Body, remain: int)
    requires max > 0
    ensures remain == if known then remainLen - |data| - |probe| else remainLen
    ensures probe != [] ==> known && remain < 0
    ensures probe == [] ==> Gave(body, data, err, rest)
    ensures err.None? && probe == [] ==> Weight(rest) < Weight(body)
  {
    ReadYields(body, max);
    var (d, e, r) := Read(body, max);
    data, probe, err, rest, remain := d, [], e, r, remainLen;
    if known {
      remain := remain - |data|;
      if remain == 0 && err.None? {
        ReadYields(rest, 1);
        var (d1, e1, r1) := Read(rest, 1);
        if d1 == [] {
          GaveMore(body, data, rest, d1, e1, r1);
          assert data + [] == data;
        }
        probe, err, rest := d1, e1, r1;
        remain := remain - |probe|;
      }
    }
  }

  /** The body was too long, or ended in this error; or the stream was stopped, or the connection failed. */
  predicate FailsFor(e: IOError, end: IOError, yielded: nat, contentLength: int) {
    || (e == BODY_TOO_LONG && contentLength != -1 && yielded > contentLength)
    || e == end || e == STOP_BODY_WRITE || IsWriteError(e)
  }

  /** As section 8.1.2.6 of RFC 7540 wants it: the payloads sum up to the declared Content-Length. */
  predicate AsDeclared(sent: seq<Sent>, contentLength: int) {
    contentLength == -1 || |Payload(sent)| == contentLength
  }

  /**
   * writeRequestBody: `trailers` is None when the request declares none, and otherwise says whether
   * they encode to anything. Returns the frames sent, the bytes read from the body, and the error.
   */
  method WriteRequestBody(body: Body, contentLength: int, trailers: Option<bool>, maxFrameSize: nat)
      returns (sent: seq<Sent>, yielded: seq<byte>, err: Option<IOError>)
    requires contentLength >= -1
    // In every run:
    ensures WellSent(sent) && Payload(sent) <= yielded
    ensures contentLength != -1 ==> |Payload(sent)| <= contentLength
    ensures contentLength != -1 && |yielded| > contentLength ==> err == Some(BODY_TOO_LONG)
    ensures err.Some? ==> FailsFor(err.value, Yield(body).1, |yielded|, contentLength)
    // On success:
    ensures err.None? ==> Yield(body) == (yielded, EOF) && Payload(sent) == yielded
    ensures err.None? ==> Ended(sent)
    ensures err.None? ==> (AsDeclared(sent, contentLength) <==> contentLength == -1 || |Yield(body).0| == contentLength)
    ensures err.None? && trailers == Some(true) ==> sent[|sent| - 1] == Trailers
  {
    sent, yielded, err := [], [], None;
    var sentEnd, sawEOF := false, false;
    var remainLen := contentLength;
    var scratchLen := ScratchLen(maxFrameSize, contentLength);
    var bufLen: nat :| bufLen >= scratchLen; // a pooled buffer may be longer
    var rest := body;
    assert [] + Yield(body).0 == Yield(body).0;
    while !sawEOF
      invariant WellSent(sent) && Payload(sent) == yielded
      invariant if sentEnd then sawEOF && trailers.None? && Ended(sent) else Open(sent)
      invariant Gave(body, yielded, if sawEOF then Some(EOF) else None, rest)
      invariant contentLength != -1 ==> remainLen == contentLength - |yielded| >= 0
      decreases !sawEOF, Weight(rest)
    {
      var data, probe, e, rest', remain := ReadPiece(rest, bufLen, contentLength != -1, remainLen);
      if contentLength != -1 && remain < 0 {
        return sent, yielded + data + probe, Some(BODY_TOO_LONG);
      }
      GaveMore(body, yielded, rest, data, e, rest');
      yielded, rest, remainLen := yielded + data, rest', remain;
      if e.Some? {
        var bodyClosed: bool := *;
        if bodyClosed {
          return sent, yielded, Some(STOP_BODY_WRITE);
        } else if e == Some(EOF) {
          sawEOF := true;
        } else {
          return sent, yielded, e;
        }
      }
      var e2;
      sent, sentEnd, e2 := SendPiece(data, sent, sawEOF && trailers.None?);
      if e2.Some? {
        return sent, yielded, e2;
      }
    }
    if !sentEnd {
      sent, err := FinishBody(sent, trailers, maxFrameSize);
    }
  }

  /** END_STREAM when no DATA frame carried it: on the trailers, or on an empty DATA frame. */
  method FinishBody(sent0: seq<Sent>, trailers: Option<bool>, maxFrameSize: nat)
      returns (sent: seq<Sent>, err: Option<IOError>)
    requires WellSent(sent0) && Open(sent0)
    ensures WellSent(sent) && Payload(sent) == Payload(sent0)
    ensures err.Some? ==> err.value == STOP_BODY_WRITE || IsWriteError(err.value)
    ensures err.None? ==> Ended(sent) && (trailers == Some(true) ==> sent[|sent| - 1] == Trailers)
  {
    var aborted: bool := *;
    if aborted {
      return sent0, Some(STOP_BODY_WRITE);
    }
    var ending := if trailers == Some(true) then Trailers else DataFrame([], true, maxFrameSize);
    SendOne(sent0, ending);
    sent := sent0 + [ending];
    err := Flush();
  }
}
