/**
 * Header blocks: split over HEADERS and CONTINUATION frames by the writer, kept together by the
 * reader's order check, and reassembled (internal/http2/transport.go writeHeaders;
 * internal/http2/frame.go checkFrameOrder and readMetaFrame; sections 4.3 and 6.10 of RFC 7540).
 */
module HeaderBlocks {
  import opened MachineInts
  import opened Wrappers
  import opened FrameCodec

  // ------------------------------------------------------------ the order check

  /** checkFrameOrder: lastHeaderStream after an acceptable frame. */
  function Order(last: nat, h: FrameHeader): Option<nat> {
    if last != 0 && (h.ftype != CONTINUATION || h.streamID != last) then None
    else if last == 0 && h.ftype == CONTINUATION then None
    else if h.ftype == HEADERS || h.ftype == CONTINUATION then
      Some(if Has(h.flags, END_HEADERS) then 0 else h.streamID)
    else Some(last)
  }

  function OrderAll(last: nat, hs: seq<FrameHeader>): Option<nat>
    decreases |hs|
  {
    if hs == [] then Some(last)
    else
      match Order(last, hs[0])
      case None => None
      case Some(last') => OrderAll(last', hs[1..])
  }

  /** A frame after which the header block goes on. */
  predicate LeavesOpen(h: FrameHeader) {
    (h.ftype == HEADERS || h.ftype == CONTINUATION) && !Has(h.flags, END_HEADERS)
  }

  /** A CONTINUATION stands exactly behind a frame that leaves its block open, and belongs to the same stream. */
  predicate InPlace(hs: seq<FrameHeader>, i: nat)
    requires i < |hs|
  {
    if hs[i].ftype == CONTINUATION then i > 0 && LeavesOpen(hs[i - 1]) && hs[i].streamID == hs[i - 1].streamID
    else i == 0 || !LeavesOpen(hs[i - 1])
  }

  predicate Contiguous(hs: seq<FrameHeader>) {
    forall i :: 0 <= i < |hs| ==> InPlace(hs, i)
  }

  /** The parsers reject such frames on stream 0. */
  predicate OnStreams(hs: seq<FrameHeader>) {
    forall i :: 0 <= i < |hs| && (hs[i].ftype == HEADERS || hs[i].ftype == CONTINUATION) ==> hs[i].streamID != 0
  }

  function OpenStream(hs: seq<FrameHeader>): nat {
    if hs != [] && LeavesOpen(hs[|hs| - 1]) then hs[|hs| - 1].streamID else 0
  }

  lemma {:induction false} OrderAllPush(last: nat, hs: seq<FrameHeader>, h: FrameHeader)
    ensures OrderAll(last, hs + [h]) ==
      match OrderAll(last, hs) case None => None case Some(last') => Order(last', h)
    decreases |hs|
  {
    if hs != [] {
      assert (hs + [h])[1..] == hs[1..] + [h];
      if Order(last, hs[0]).Some? {
        OrderAllPush(Order(last, hs[0]).value, hs[1..], h);
      }
    } else {
      assert OrderAll(last, [h]) == match Order(last, h) case None => None case Some(l) => OrderAll(l, [h][1..]);
    }
  }

  lemma ContiguousPush(front: seq<FrameHeader>, h: FrameHeader)
    ensures Contiguous(front + [h]) <==> Contiguous(front) && InPlace(front + [h], |front|)
  {
    var hs := front + [h];
    assert forall i :: 0 <= i < |front| ==> InPlace(hs, i) == InPlace(front, i);
  }

  /** Main result: the check accepts exactly the sequences in which header blocks are contiguous. */
  lemma {:induction false} AcceptedIffContiguous(hs: seq<FrameHeader>)
    requires OnStreams(hs)
    ensures OrderAll(0, hs).Some? <==> Contiguous(hs)
    ensures OrderAll(0, hs).Some? ==> OrderAll(0, hs).value == OpenStream(hs)
    decreases |hs|
  {
    if hs != [] {
      var front, h := hs[..|hs| - 1], hs[|hs| - 1];
      assert hs == front + [h];
      AcceptedIffContiguous(front);
      OrderAllPush(0, front, h);
      ContiguousPush(front, h);
      if front != [] {
        assert front[|front| - 1] == hs[|front| - 1];
      }
    }
  }

  /** A parsed frame has the type its header says; header-carrying frames are never on stream 0. */
  lemma {:induction false} ParsedAsTyped(h: FrameHeader, p: seq<byte>)
    requires ParsePayload(h, p).Ok?
    ensures var f := ParsePayload(h, p).value;
      f.h == h
      && (f.ContinuationFrame? <==> h.ftype == CONTINUATION) && (f.HeadersFrame? <==> h.ftype == HEADERS)
      && (h.ftype == HEADERS || h.ftype == CONTINUATION ==> h.streamID != 0)
  {
  }

  // ------------------------------------------------------------ splitting

  function Chunk(hdrs: seq<byte>, max: nat): seq<byte> { if |hdrs| > max then hdrs[..max] else hdrs }

  function Continuations(streamID: nat, max: nat, hdrs: seq<byte>): seq<Op>
    requires max > 0
    decreases |hdrs|
  {
    if hdrs == [] then []
    else
      var chunk := Chunk(hdrs, max);
      var rest := hdrs[|chunk|..];
      [WriteContinuation(streamID, rest == [], chunk)] + Continuations(streamID, max, rest)
  }

  /** The Write calls that writeHeaders makes. */
  function Split(streamID: nat, endStream: bool, max: nat, hdrs: seq<byte>, prio: PriorityParam): seq<Op>
    requires max > 0
  {
    if hdrs == [] then []
    else
      var chunk := Chunk(hdrs, max);
      var rest := hdrs[|chunk|..];
      [WriteHeaders(streamID, chunk, endStream, rest == [], 0, prio)] + Continuations(streamID, max, rest)
  }

  function Fragment(op: Op): seq<byte> {
    if op.WriteHeaders? || op.WriteContinuation? then op.fragment else []
  }

  predicate EndsHeaders(op: Op) { (op.WriteHeaders? || op.WriteContinuation?) && op.endHeaders }

  /** The first frame with priority fields must still be within 24 bits of length. */
  predicate FirstFits(max: nat, hdrs: seq<byte>, prio: PriorityParam) {
    |Chunk(hdrs, max)| + (if prio.IsZero() then 0 else 5) <= MAX_FRAME_SIZE
  }

  predicate Whole(ops: seq<Op>, max: nat) {
    && ops != []
    && (forall i :: 0 <= i < |ops| ==> (EndsHeaders(ops[i]) <==> i == |ops| - 1))
    && (forall i :: 0 <= i < |ops| ==> 0 < |Fragment(ops[i])| <= max)
    && (forall i :: 0 <= i < |ops| - 1 ==> |Fragment(ops[i])| == max)
  }

  lemma WholeCons(op: Op, tail: seq<Op>, max: nat)
    requires Whole(tail, max) && !EndsHeaders(op) && |Fragment(op)| == max > 0
    ensures Whole([op] + tail, max)
  {
    var ops := [op] + tail;
    forall i | 0 <= i < |ops|
      ensures (EndsHeaders(ops[i]) <==> i == |ops| - 1) && 0 < |Fragment(ops[i])| <= max
      ensures i < |ops| - 1 ==> |Fragment(ops[i])| == max
    {
      if i > 0 {
        assert ops[i] == tail[i - 1];
      }
    }
  }

  lemma {:induction false} ContinuationsAreWhole(streamID: nat, max: nat, hdrs: seq<byte>)
    requires 0 < max && hdrs != []
    ensures Whole(Continuations(streamID, max, hdrs), max)
    ensures forall i :: 0 <= i < |Continuations(streamID, max, hdrs)| ==>
      var op := Continuations(streamID, max, hdrs)[i]; op.WriteContinuation? && op.streamID == streamID
    decreases |hdrs|
  {
    var chunk := Chunk(hdrs, max);
    var rest := hdrs[|chunk|..];
    if rest != [] {
      ContinuationsAreWhole(streamID, max, rest);
      WholeCons(WriteContinuation(streamID, false, chunk), Continuations(streamID, max, rest), max);
    }
  }

  /**
   * One HEADERS frame and then only CONTINUATION frames of the same stream, END_HEADERS on the last alone,
   * END_STREAM where it was asked for, and fragments of just the limit but for the last.
   */
  lemma SplitIsWhole(streamID: nat, endStream: bool, max: nat, hdrs: seq<byte>, prio: PriorityParam)
    requires 0 < max && hdrs != []
    ensures var ops := Split(streamID, endStream, max, hdrs, prio);
      Whole(ops, max) && ops[0].WriteHeaders? && ops[0].endStream == endStream
      && (forall i :: 0 < i < |ops| ==> ops[i].WriteContinuation?)
      && (forall i :: 0 <= i < |ops| ==> ops[i].streamID == streamID)
  {
    var chunk := Chunk(hdrs, max);
    var rest := hdrs[|chunk|..];
    if rest != [] {
      ContinuationsAreWhole(streamID, max, rest);
      WholeCons(WriteHeaders(streamID, chunk, endStream, false, 0, prio), Continuations(streamID, max, rest), max);
    }
  }

  /** Every call succeeds, unless the first frame is too large. */
  lemma {:induction false} ContinuationsWrite(streamID: nat, max: nat, hdrs: seq<byte>)
    requires 0 < max <= MAX_FRAME_SIZE && ValidStreamID(streamID)
    ensures forall i :: 0 <= i < |Continuations(streamID, max, hdrs)| ==>
      var op := Continuations(streamID, max, hdrs)[i]; Typed(op) && Writes(op) && Readable(op)
    decreases |hdrs|
  {
    if hdrs != [] {
      ContinuationsWrite(streamID, max, hdrs[|Chunk(hdrs, max)|..]);
    }
  }

  // ------------------------------------------------------------ reassembly

  datatype Meta = Meta(endStream: bool, block: seq<byte>, rest: seq<byte>) | Failed(e: FrameError)

  /** The frames readMetaFrame asks for until END_HEADERS, with the order check. */
  function ReadContinuations(input: seq<byte>, last: nat, limit: nat): Result<(seq<byte>, seq<byte>), FrameError>
    decreases |input|
  {
    var (r, rest) := ReadOne(input, limit);
    match r
    case Err(e) => Err(e)
    case Ok(f) =>
      match Order(last, f.h)
      case None => Err(ConnError(CODE_PROTOCOL))
      case Some(last') =>
        if !f.ContinuationFrame? || |rest| >= |input| then Err(ConnError(CODE_PROTOCOL))
        else if last' == 0 then Ok((f.fragment, rest))
        else
          match ReadContinuations(rest, last', limit)
          case Err(e) => Err(e)
          case Ok((more, rest')) => Ok((f.fragment + more, rest'))
  }

  /** ReadFrame when a HEADERS frame comes next: the whole block. */
  function ReadMeta(input: seq<byte>): Meta {
    match ReadOne(input, MAX_FRAME_SIZE)
    case (Err(e), _) => Failed(e)
    case (Ok(f), rest) =>
      if !f.HeadersFrame? || Order(0, f.h).None? then Failed(ConnError(CODE_PROTOCOL))
      else
        var endStream := Has(f.h.flags, END_STREAM);
        if Order(0, f.h) == Some(0) then Meta(endStream, f.fragment, rest)
        else
          match ReadContinuations(rest, f.h.streamID, MAX_FRAME_SIZE)
          case Err(e) => Failed(e)
          case Ok((more, rest')) => Meta(endStream, f.fragment + more, rest')
  }

  lemma ContinuationOrder(op: Op)
    requires op.WriteContinuation? && ValidStreamID(op.streamID)
    ensures var f := FrameOf(op);
      f.ContinuationFrame? && f.fragment == op.fragment
      && Order(op.streamID, f.h) == Some(if op.endHeaders then 0 else op.streamID)
  {
  }

  lemma HeadersOrder(op: Op)
    requires op.WriteHeaders? && ValidStreamID(op.streamID)
    ensures var f := FrameOf(op);
      f.HeadersFrame? && f.fragment == op.fragment && f.h.streamID == op.streamID
      && Order(0, f.h) == Some(if op.endHeaders then 0 else op.streamID)
      && (Has(f.h.flags, END_HEADERS) <==> op.endHeaders) && (Has(f.h.flags, END_STREAM) <==> op.endStream)
  {
  }

  lemma ReadContinuationsStep(input: seq<byte>, last: nat, f: Frame, rest: seq<byte>, next: nat)
    requires ReadOne(input, MAX_FRAME_SIZE) == (Ok(f), rest) && |rest| < |input|
    requires f.ContinuationFrame? && Order(last, f.h) == Some(next)
    ensures next == 0 ==> ReadContinuations(input, last, MAX_FRAME_SIZE) == Ok((f.fragment, rest))
    ensures var more := ReadContinuations(rest, next, MAX_FRAME_SIZE);
      next != 0 && more.Ok? ==>
        ReadContinuations(input, last, MAX_FRAME_SIZE) == Ok((f.fragment + more.value.0, more.value.1))
  {
  }

  lemma ReadMetaStep(input: seq<byte>, f: Frame, rest: seq<byte>, next: nat)
    requires ReadOne(input, MAX_FRAME_SIZE) == (Ok(f), rest) && f.HeadersFrame?
    requires Order(0, f.h) == Some(next) && next == (if Has(f.h.flags, END_HEADERS) then 0 else f.h.streamID)
    ensures next == 0 ==> ReadMeta(input) == Meta(Has(f.h.flags, END_STREAM), f.fragment, rest)
    ensures var more := ReadContinuations(rest, next, MAX_FRAME_SIZE);
      next != 0 && more.Ok? ==>
        ReadMeta(input) == Meta(Has(f.h.flags, END_STREAM), f.fragment + more.value.0, more.value.1)
  {
  }

  lemma FirstRead(ops: seq<Op>, rest: seq<byte>)
    requires ops != [] && Typed(ops[0]) && Writes(ops[0]) && Readable(ops[0])
    ensures var input, tail := WireOfAll(ops) + rest, WireOfAll(ops[1..]) + rest;
      ReadOne(input, MAX_FRAME_SIZE) == (Ok(FrameOf(ops[0])), tail) && |tail| < |input|
  {
    var tail := WireOfAll(ops[1..]) + rest;
    assert WireOfAll(ops) + rest == WireOf(ops[0]) + tail;
    FrameRoundTrip(ops[0], tail);
  }

  lemma {:induction false} ContinuationsReassemble(streamID: nat, max: nat, hdrs: seq<byte>, rest: seq<byte>)
    requires 0 < max <= MAX_FRAME_SIZE && ValidStreamID(streamID) && hdrs != []
    ensures ReadContinuations(WireOfAll(Continuations(streamID, max, hdrs)) + rest, streamID, MAX_FRAME_SIZE)
      == Ok((hdrs, rest))
    decreases |hdrs|
  {
    var ops := Continuations(streamID, max, hdrs);
    var chunk := Chunk(hdrs, max);
    var hdrs' := hdrs[|chunk|..];
    assert ops[1..] == Continuations(streamID, max, hdrs');
    FirstRead(ops, rest);
    ContinuationOrder(ops[0]);
    if hdrs' == [] {
      assert WireOfAll(ops[1..]) + rest == rest;
    } else {
      ContinuationsReassemble(streamID, max, hdrs', rest);
      assert chunk + hdrs' == hdrs;
    }
    ReadContinuationsStep(WireOfAll(ops) + rest, streamID, FrameOf(ops[0]), WireOfAll(ops[1..]) + rest,
                          if hdrs' == [] then 0 else streamID);
  }

  /** Main result: reading back a split header block gives the block, the flag, and everything behind it. */
  lemma SplitReassembles(streamID: nat, endStream: bool, max: nat, hdrs: seq<byte>, prio: PriorityParam,
                         rest: seq<byte>)
    requires 0 < max <= MAX_FRAME_SIZE && ValidStreamID(streamID) && hdrs != [] && prio.streamDep < TWO_31
    requires FirstFits(max, hdrs, prio)
    ensures ReadMeta(WireOfAll(Split(streamID, endStream, max, hdrs, prio)) + rest) == Meta(endStream, hdrs, rest)
  {
    var ops := Split(streamID, endStream, max, hdrs, prio);
    var chunk := Chunk(hdrs, max);
    var hdrs' := hdrs[|chunk|..];
    assert ops[1..] == Continuations(streamID, max, hdrs');
    HeadersPayloadLength(ops[0]);
    FirstRead(ops, rest);
    HeadersOrder(ops[0]);
    if hdrs' == [] {
      assert WireOfAll(ops[1..]) + rest == rest;
    } else {
      ContinuationsReassemble(streamID, max, hdrs', rest);
      assert chunk + hdrs' == hdrs;
    }
    ReadMetaStep(WireOfAll(ops) + rest, FrameOf(ops[0]), WireOfAll(ops[1..]) + rest,
                 if hdrs' == [] then 0 else streamID);
  }

  lemma HeadersPayloadLength(op: Op)
    requires op.WriteHeaders? && op.padLength == 0
    ensures |PayloadOf(op)| == |op.fragment| + if op.priority.IsZero() then 0 else 5
  {
  }

  /** What reaches the wire: writeHeaders does not look at the Write methods' errors. */
  function Written(ops: seq<Op>): seq<byte> {
    if ops == [] then [] else (if Writes(ops[0]) then WireOf(ops[0]) else []) + Written(ops[1..])
  }

  lemma {:induction false} AllWritten(ops: seq<Op>)
    requires forall i :: 0 <= i < |ops| ==> Writes(ops[i])
    ensures Written(ops) == WireOfAll(ops)
  {
    if ops != [] {
      AllWritten(ops[1..]);
    }
  }

  /** The first frame is legal: small enough, and its dependency is a stream ID. */
  predicate FirstIsLegal(max: nat, hdrs: seq<byte>, prio: PriorityParam) {
    FirstFits(max, hdrs, prio) && prio.streamDep < TWO_31
  }

  /**
   * The block survives exactly when its first frame is legal. Otherwise HEADERS is silently dropped, and the
   * peer meets a CONTINUATION without it, or nothing at all.
   */
  lemma BlockSurvivesIff(streamID: nat, endStream: bool, max: nat, hdrs: seq<byte>, prio: PriorityParam)
    requires 0 < max <= MAX_FRAME_SIZE && ValidStreamID(streamID) && hdrs != [] && IsU32(prio.streamDep)
    ensures ReadMeta(Written(Split(streamID, endStream, max, hdrs, prio))) == Meta(endStream, hdrs, [])
      <==> FirstIsLegal(max, hdrs, prio)
  {
    var ops := Split(streamID, endStream, max, hdrs, prio);
    var hdrs' := hdrs[|Chunk(hdrs, max)|..];
    assert ops[1..] == Continuations(streamID, max, hdrs');
    HeadersPayloadLength(ops[0]);
    ContinuationsWrite(streamID, max, hdrs');
    AllWritten(ops[1..]);
    if FirstIsLegal(max, hdrs, prio) {
      assert Written(ops) == WireOfAll(ops);
      assert WireOfAll(ops) + [] == WireOfAll(ops);
      SplitReassembles(streamID, endStream, max, hdrs, prio, []);
    } else {
      assert Written(ops) == WireOfAll(ops[1..]);
      if hdrs' != [] {
        var more := ops[1..];
        ContinuationsAreWhole(streamID, max, hdrs');
        FrameRoundTrip(more[0], WireOfAll(more[1..]));
      }
    }
  }

  /** When the first frame is not legal, a block that needs no CONTINUATION leaves nothing on the wire. */
  lemma NothingWritten(streamID: nat, endStream: bool, max: nat, hdrs: seq<byte>, prio: PriorityParam)
    requires 0 < |hdrs| <= max <= MAX_FRAME_SIZE && ValidStreamID(streamID) && IsU32(prio.streamDep)
    requires !FirstIsLegal(max, hdrs, prio)
    ensures Written(Split(streamID, endStream, max, hdrs, prio)) == []
  {
    var ops := Split(streamID, endStream, max, hdrs, prio);
    HeadersPayloadLength(ops[0]);
    assert hdrs[|Chunk(hdrs, max)|..] == [] && ops[1..] == [];
  }

  /**
   * A peer that allows frames of 2^24-1 bytes, a block of at least that many, and priority bytes: HEADERS is
   * lost, and with a block of just that many nothing is written at all.
   */
  lemma LargeFirstFrameIsLost(streamID: nat, endStream: bool, hdrs: seq<byte>, prio: PriorityParam)
    requires ValidStreamID(streamID) && IsU32(prio.streamDep) && !prio.IsZero() && |hdrs| >= MAX_FRAME_SIZE
    ensures var written := Written(Split(streamID, endStream, MAX_FRAME_SIZE, hdrs, prio));
      ReadMeta(written) != Meta(endStream, hdrs, []) && (|hdrs| == MAX_FRAME_SIZE ==> written == [])
  {
    BlockSurvivesIff(streamID, endStream, MAX_FRAME_SIZE, hdrs, prio);
    if |hdrs| == MAX_FRAME_SIZE {
      NothingWritten(streamID, endStream, MAX_FRAME_SIZE, hdrs, prio);
    }
  }

  /** A configured dependency of 2^31 or more: HEADERS is lost, whatever the block, and a small block leaves nothing. */
  lemma LargeDependencyIsLost(streamID: nat, endStream: bool, max: nat, hdrs: seq<byte>, prio: PriorityParam)
    requires 0 < max <= MAX_FRAME_SIZE && ValidStreamID(streamID) && hdrs != [] && TWO_31 <= prio.streamDep < TWO_32
    ensures var written := Written(Split(streamID, endStream, max, hdrs, prio));
      ReadMeta(written) != Meta(endStream, hdrs, []) && (|hdrs| <= max ==> written == [])
  {
    BlockSurvivesIff(streamID, endStream, max, hdrs, prio);
    if |hdrs| <= max {
      NothingWritten(streamID, endStream, max, hdrs, prio);
    }
  }
}
