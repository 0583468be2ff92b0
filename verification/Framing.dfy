/**
 * The Framer, which builds each frame in a write buffer and reads frames under the order check
 * (internal/http2/frame.go), and the loop of writeHeaders above it (internal/http2/transport.go).
 */
module Framing {
  import opened MachineInts
  import opened Wrappers
  import opened FrameCodec
  import opened HeaderBlocks

  /** What a Write call adds to the connection. */
  function Sent(op: Op): seq<byte> { if Writes(op) then WireOf(op) else [] }

  /** The calls writeHeaders has still to make. */
  function Pieces(first: bool, streamID: nat, endStream: bool, max: nat, hdrs: seq<byte>, prio: PriorityParam): seq<Op>
    requires max > 0
  {
    if first then Split(streamID, endStream, max, hdrs, prio) else Continuations(streamID, max, hdrs)
  }

  lemma PiecesStep(first: bool, streamID: nat, endStream: bool, max: nat, hdrs: seq<byte>, prio: PriorityParam)
    requires max > 0 && hdrs != []
    ensures var todo, chunk := Pieces(first, streamID, endStream, max, hdrs, prio), Chunk(hdrs, max);
      var rest := hdrs[|chunk|..];
      todo != [] && todo[1..] == Pieces(false, streamID, endStream, max, rest, prio)
      && todo[0] == (if first then Op.WriteHeaders(streamID, chunk, endStream, rest == [], 0, prio)
                     else Op.WriteContinuation(streamID, rest == [], chunk))
      && Written(todo) == Sent(todo[0]) + Written(todo[1..])
  {
  }

  function UpTo(ops: seq<Op>, n: nat): seq<Op> { if n < |ops| then ops[..n] else ops }

  lemma UpToStep(ops: seq<Op>, n: nat)
    requires ops != [] && n > 0
    ensures Written(UpTo(ops, n)) == Sent(ops[0]) + Written(UpTo(ops[1..], n - 1))
  {
    assert UpTo(ops, n)[1..] == UpTo(ops[1..], n - 1);
  }

  function HeadersPayload(fragment: seq<byte>, padLength: byte, priority: PriorityParam): seq<byte> {
    PadByte(padLength) + (if priority.IsZero() then [] else PriorityBytes(priority)) + fragment
    + Zeros(padLength as nat)
  }

  lemma HeadersSent(op: Op)
    requires op.WriteHeaders?
    ensures var payload := HeadersPayload(op.fragment, op.padLength, op.priority);
      Sent(op) == if Writes(op) then Wire(HEADERS, FlagsOf(op), op.streamID, payload) else []
    ensures Writes(op) ==
      (ValidStreamID(op.streamID) && op.priority.streamDep < TWO_31
       && |HeadersPayload(op.fragment, op.padLength, op.priority)| <= MAX_FRAME_SIZE)
  {
  }

  lemma {:induction false} SettingBytesPush(ss: seq<Setting>, s: Setting)
    ensures SettingBytes(ss + [s]) == SettingBytes(ss) + (U16(s.id) + U32(s.val))
  {
    if ss == [] {
      assert [s][1..] == [];
      assert SettingBytes([s]) == U16(s.id) + U32(s.val) + SettingBytes([]);
    } else {
      assert (ss + [s])[1..] == ss[1..] + [s];
      SettingBytesPush(ss[1..], s);
      Regroup(U16(ss[0].id) + U32(ss[0].val), SettingBytes(ss[1..]), U16(s.id) + U32(s.val), [], []);
    }
  }

  /** What follows a fragment: the rest of its block and the input behind it. */
  function Pending(ended: bool, input: seq<byte>, id: nat, limit: nat): Result<(seq<byte>, seq<byte>), FrameError> {
    if ended then Ok(([], input)) else ReadContinuations(input, id, limit)
  }

  function Behind(block: seq<byte>, more: Result<(seq<byte>, seq<byte>), FrameError>)
      : Result<(seq<byte>, seq<byte>), FrameError> {
    match more
    case Err(e) => Err(e)
    case Ok((fragment, rest)) => Ok((block + fragment, rest))
  }

  lemma BehindTwice(block: seq<byte>, frag: seq<byte>, more: Result<(seq<byte>, seq<byte>), FrameError>)
    ensures Behind(block, Behind(frag, more)) == Behind(block + frag, more)
  {
    if more.Ok? {
      assert block + (frag + more.value.0) == block + frag + more.value.0;
    }
  }

  lemma Regroup(head: seq<byte>, a: seq<byte>, b: seq<byte>, c: seq<byte>, d: seq<byte>)
    ensures head + a + b + c + d == head + (a + b + c + d)
    ensures head + a + b == head + (a + b)
  {
  }

  class Framer {
    var wbuf: seq<byte>
    var w: seq<byte>            // everything written to the connection
    var r: seq<byte>            // everything still to be read from it
    var lastHeaderStream: nat
    var maxReadSize: nat

    constructor (input: seq<byte>)
      ensures w == [] && r == input && lastHeaderStream == 0 && maxReadSize == MAX_FRAME_SIZE
    {
      wbuf, w, r, lastHeaderStream, maxReadSize := [], [], input, 0, MAX_FRAME_SIZE;
    }

    // ---------------------------------------------------------- writing

    method StartWrite(ftype: byte, flags: byte, streamID: nat)
      modifies this`wbuf
      ensures wbuf == [0, 0, 0, ftype, flags] + U32(streamID)
    {
      wbuf := [0, 0, 0, ftype, flags] + U32(streamID);
    }

    /** Fills in the length and writes the frame out, unless it is too large. */
    method EndWrite(ghost ftype: byte, ghost flags: byte, ghost streamID: nat, ghost payload: seq<byte>)
        returns (ok: bool)
      requires wbuf == [0, 0, 0, ftype, flags] + U32(streamID) + payload
      modifies this`wbuf, this`w
      ensures ok <==> |payload| <= MAX_FRAME_SIZE
      ensures w == old(w) + if ok then Wire(ftype, flags, streamID, payload) else []
    {
      var length := |wbuf| - FRAME_HEADER_LEN;
      if length >= 0x100_0000 {
        return false;
      }
      wbuf := U24(length) + wbuf[3..];
      assert wbuf == Wire(ftype, flags, streamID, payload);
      w := w + wbuf;
      return true;
    }

    /** Padding must be at most 255 bytes, all of them zero. */
    method PadIsLegal(pad: seq<byte>) returns (ok: bool)
      ensures ok <==> |pad| <= 255 && forall i :: 0 <= i < |pad| ==> pad[i] == 0
    {
      if |pad| > 255 {
        return false;
      }
      for i := 0 to |pad|
        invariant forall j :: 0 <= j < i ==> pad[j] == 0
      {
        if pad[i] != 0 {
          return false;
        }
      }
      return true;
    }

    /** startWriteDataPadded, after its checks. */
    method AppendData(flags: byte, streamID: nat, data: seq<byte>, pad: Option<seq<byte>>)
      requires pad.Some? ==> |pad.value| <= 255
      modifies this`wbuf
      ensures wbuf == [0, 0, 0, DATA, flags] + U32(streamID)
        + if pad.Some? then [B(|pad.value|)] + data + pad.value else data
    {
      StartWrite(DATA, flags, streamID);
      if pad.Some? {
        wbuf := wbuf + [B(|pad.value|)];
      }
      wbuf := wbuf + data;
      if pad.Some? {
        wbuf := wbuf + pad.value;
      }
    }

    method EmitData(streamID: nat, endStream: bool, data: seq<byte>, pad: Option<seq<byte>>) returns (ok: bool)
      requires pad.Some? ==> |pad.value| <= 255
      modifies this`wbuf, this`w
      ensures var op := WriteData(streamID, endStream, data, pad);
        (ok <==> |PayloadOf(op)| <= MAX_FRAME_SIZE) && w == old(w) + if ok then WireOf(op) else []
    {
      var flags: byte := 0;
      if endStream {
        flags := flags + END_STREAM as byte;
      }
      if pad.Some? {
        flags := flags + PADDED as byte;
      }
      ghost var op := WriteData(streamID, endStream, data, pad);
      assert flags == FlagsOf(op);
      AppendData(flags, streamID, data, pad);
      ok := EndWrite(DATA, flags, streamID, PayloadOf(op));
    }

    method WriteDataPadded(streamID: nat, endStream: bool, data: seq<byte>, pad: Option<seq<byte>>) returns (ok: bool)
      requires IsU32(streamID)
      modifies this`wbuf, this`w
      ensures var op := WriteData(streamID, endStream, data, pad);
        (ok <==> Writes(op)) && w == old(w) + Sent(op)
    {
      ghost var op := WriteData(streamID, endStream, data, pad);
      if !ValidStreamID(streamID) {
        return false;
      }
      if pad.Some? && |pad.value| > 0 {
        var legal := PadIsLegal(pad.value);
        if !legal {
          return false;
        }
      }
      assert Accepted(op);
      ok := EmitData(streamID, endStream, data, pad);
    }

    /** writePriority's five bytes. */
    method AppendPriority(p: PriorityParam)
      requires p.streamDep < TWO_31
      modifies this`wbuf
      ensures wbuf == old(wbuf) + PriorityBytes(p)
    {
      var v := p.streamDep;
      if p.exclusive {
        v := v + TWO_31;
      }
      wbuf := wbuf + U32(v);
      wbuf := wbuf + [p.weight];
    }

    /** The flags of a HEADERS frame. */
    method HeadersFlags(endStream: bool, endHeaders: bool, padLength: byte, priority: PriorityParam)
        returns (flags: byte)
      ensures forall id, fragment ::
        flags == FlagsOf(Op.WriteHeaders(id, fragment, endStream, endHeaders, padLength, priority))
    {
      flags := 0;
      if padLength != 0 {
        flags := flags + PADDED as byte;
      }
      if endStream {
        flags := flags + END_STREAM as byte;
      }
      if endHeaders {
        flags := flags + END_HEADERS as byte;
      }
      if !priority.IsZero() {
        flags := flags + PRIORITY_FLAG as byte;
      }
    }

    /** The payload of a HEADERS frame, unless the stream dependency is not legal. */
    method AppendHeaders(fragment: seq<byte>, padLength: byte, priority: PriorityParam) returns (ok: bool)
      modifies this`wbuf
      ensures ok <==> priority.streamDep < TWO_31
      ensures ok ==> wbuf == old(wbuf) + HeadersPayload(fragment, padLength, priority)
    {
      ghost var head := wbuf;
      if padLength != 0 {
        wbuf := wbuf + [padLength];
      }
      assert wbuf == head + PadByte(padLength);
      if !priority.IsZero() {
        if priority.streamDep >= TWO_31 {
          return false;
        }
        AppendPriority(priority);
      }
      ghost var prio := if priority.IsZero() then [] else PriorityBytes(priority);
      wbuf := wbuf + fragment;
      wbuf := wbuf + Zeros(padLength as nat);
      Regroup(head, PadByte(padLength), prio, fragment, Zeros(padLength as nat));
      return true;
    }

    method WriteHeaders(streamID: nat, fragment: seq<byte>, endStream: bool, endHeaders: bool, padLength: byte,
                        priority: PriorityParam) returns (ok: bool)
      requires IsU32(streamID) && IsU32(priority.streamDep)
      modifies this`wbuf, this`w
      ensures var op := Op.WriteHeaders(streamID, fragment, endStream, endHeaders, padLength, priority);
        (ok <==> Writes(op)) && w == old(w) + Sent(op)
    {
      if !ValidStreamID(streamID) {
        return false;
      }
      ghost var op := Op.WriteHeaders(streamID, fragment, endStream, endHeaders, padLength, priority);
      HeadersSent(op);
      var flags := HeadersFlags(endStream, endHeaders, padLength, priority);
      StartWrite(HEADERS, flags, streamID);
      var legal := AppendHeaders(fragment, padLength, priority);
      if !legal {
        return false;
      }
      ok := EndWrite(HEADERS, flags, streamID, HeadersPayload(fragment, padLength, priority));
    }

    method WritePriority(streamID: nat, p: PriorityParam) returns (ok: bool)
      requires IsU32(streamID) && IsU32(p.streamDep)
      modifies this`wbuf, this`w
      ensures var op := Op.WritePriority(streamID, p);
        (ok <==> Writes(op)) && w == old(w) + Sent(op)
    {
      if !ValidStreamID(streamID) || p.streamDep >= TWO_31 {
        return false;
      }
      StartWrite(PRIORITY, 0, streamID);
      AppendPriority(p);
      ok := EndWrite(PRIORITY, 0, streamID, PriorityBytes(p));
    }

    method WriteRSTStream(streamID: nat, code: nat) returns (ok: bool)
      requires IsU32(streamID) && IsU32(code)
      modifies this`wbuf, this`w
      ensures var op := Op.WriteRSTStream(streamID, code);
        (ok <==> Writes(op)) && w == old(w) + Sent(op)
    {
      if !ValidStreamID(streamID) {
        return false;
      }
      StartWrite(RST_STREAM, 0, streamID);
      wbuf := wbuf + U32(code);
      ok := EndWrite(RST_STREAM, 0, streamID, U32(code));
    }

    method AppendSetting(s: Setting)
      modifies this`wbuf
      ensures wbuf == old(wbuf) + (U16(s.id) + U32(s.val))
    {
      ghost var before := wbuf;
      wbuf := wbuf + U16(s.id);
      wbuf := wbuf + U32(s.val);
      Regroup(before, U16(s.id), U32(s.val), [], []);
    }

    method WriteSettings(settings: seq<Setting>) returns (ok: bool)
      modifies this`wbuf, this`w
      ensures var op := Op.WriteSettings(settings);
        (ok <==> Writes(op)) && w == old(w) + Sent(op)
    {
      StartWrite(SETTINGS, 0, 0);
      ghost var head := wbuf;
      for i := 0 to |settings|
        invariant wbuf == head + SettingBytes(settings[..i]) && w == old(w)
      {
        AppendSetting(settings[i]);
        SettingBytesPush(settings[..i], settings[i]);
        assert settings[..i + 1] == settings[..i] + [settings[i]];
        Regroup(head, SettingBytes(settings[..i]), U16(settings[i].id) + U32(settings[i].val), [], []);
      }
      assert settings[..|settings|] == settings;
      ok := EndWrite(SETTINGS, 0, 0, SettingBytes(settings));
    }

    method WriteSettingsAck() returns (ok: bool)
      modifies this`wbuf, this`w
      ensures (ok <==> Writes(Op.WriteSettingsAck)) && w == old(w) + Sent(Op.WriteSettingsAck)
    {
      StartWrite(SETTINGS, ACK as byte, 0);
      assert wbuf == wbuf + [];
      ok := EndWrite(SETTINGS, ACK as byte, 0, []);
    }

    method WritePushPromise(streamID: nat, promiseID: nat, fragment: seq<byte>, endHeaders: bool, padLength: byte)
        returns (ok: bool)
      requires IsU32(streamID) && IsU32(promiseID)
      modifies this`wbuf, this`w
      ensures var op := Op.WritePushPromise(streamID, promiseID, fragment, endHeaders, padLength);
        (ok <==> Writes(op)) && w == old(w) + Sent(op)
    {
      if !ValidStreamID(streamID) {
        return false;
      }
      ghost var op := Op.WritePushPromise(streamID, promiseID, fragment, endHeaders, padLength);
      var flags: byte := 0;
      if padLength != 0 {
        flags := flags + PADDED as byte;
      }
      if endHeaders {
        flags := flags + END_HEADERS as byte;
      }
      StartWrite(PUSH_PROMISE, flags, streamID);
      if padLength != 0 {
        wbuf := wbuf + [padLength];
      }
      if !ValidStreamID(promiseID) {
        return false;
      }
      wbuf := wbuf + U32(promiseID);
      wbuf := wbuf + fragment;
      wbuf := wbuf + Zeros(padLength as nat);
      assert wbuf == [0, 0, 0, PUSH_PROMISE, flags] + U32(streamID) + PayloadOf(op);
      ok := EndWrite(PUSH_PROMISE, flags, streamID, PayloadOf(op));
    }

    method WritePing(ack: bool, data: seq<byte>) returns (ok: bool)
      requires |data| == 8
      modifies this`wbuf, this`w
      ensures var op := Op.WritePing(ack, data);
        (ok <==> Writes(op)) && w == old(w) + Sent(op)
    {
      var flags: byte := if ack then ACK as byte else 0;
      StartWrite(PING, flags, 0);
      wbuf := wbuf + data;
      ok := EndWrite(PING, flags, 0, data);
    }

    method WriteGoAway(maxStreamID: nat, code: nat, debug: seq<byte>) returns (ok: bool)
      requires IsU32(maxStreamID) && IsU32(code)
      modifies this`wbuf, this`w
      ensures var op := Op.WriteGoAway(maxStreamID, code, debug);
        (ok <==> Writes(op)) && w == old(w) + Sent(op)
    {
      StartWrite(GOAWAY, 0, 0);
      wbuf := wbuf + U32(Low31(maxStreamID));
      wbuf := wbuf + U32(code);
      wbuf := wbuf + debug;
      ghost var payload := U32(Low31(maxStreamID)) + U32(code) + debug;
      assert wbuf == [0, 0, 0, GOAWAY, 0] + U32(0) + payload;
      ok := EndWrite(GOAWAY, 0, 0, payload);
    }

    method WriteWindowUpdate(streamID: nat, incr: nat) returns (ok: bool)
      requires IsU32(streamID) && IsU32(incr)
      modifies this`wbuf, this`w
      ensures var op := Op.WriteWindowUpdate(streamID, incr);
        (ok <==> Writes(op)) && w == old(w) + Sent(op)
    {
      if incr < 1 || incr > MAX_INT32 {
        return false;
      }
      StartWrite(WINDOW_UPDATE, 0, streamID);
      wbuf := wbuf + U32(incr);
      ok := EndWrite(WINDOW_UPDATE, 0, streamID, U32(incr));
    }

    method WriteContinuation(streamID: nat, endHeaders: bool, fragment: seq<byte>) returns (ok: bool)
      requires IsU32(streamID)
      modifies this`wbuf, this`w
      ensures var op := Op.WriteContinuation(streamID, endHeaders, fragment);
        (ok <==> Writes(op)) && w == old(w) + Sent(op)
    {
      if !ValidStreamID(streamID) {
        return false;
      }
      var flags: byte := 0;
      if endHeaders {
        flags := flags + END_HEADERS as byte;
      }
      StartWrite(CONTINUATION, flags, streamID);
      wbuf := wbuf + fragment;
      ok := EndWrite(CONTINUATION, flags, streamID, fragment);
    }

    /** One round of writeHeaders; the results of the Write methods go unread. */
    method WriteFragment(first: bool, streamID: nat, endStream: bool, endHeaders: bool, chunk: seq<byte>,
                         priority: PriorityParam)
      requires IsU32(streamID) && IsU32(priority.streamDep)
      modifies this`wbuf, this`w
      ensures w == old(w) + Sent(if first then Op.WriteHeaders(streamID, chunk, endStream, endHeaders, 0, priority)
                                 else Op.WriteContinuation(streamID, endHeaders, chunk))
    {
      if first {
        var _ := WriteHeaders(streamID, chunk, endStream, endHeaders, 0, priority);
      } else {
        var _ := WriteContinuation(streamID, endHeaders, chunk);
      }
    }

    /**
     * writeHeaders: the frames of the block, up to the round that finds an earlier write to the connection failed.
     * The writes themselves go to a buffer; healthy is the number of rounds before the failure shows.
     */
    method WriteHeaderBlock(streamID: nat, endStream: bool, maxFrameSize: nat, block: seq<byte>,
                            priority: PriorityParam, healthy: nat)
      requires IsU32(streamID) && IsU32(priority.streamDep) && 0 < maxFrameSize
      modifies this`wbuf, this`w
      ensures w == old(w) + Written(UpTo(Split(streamID, endStream, maxFrameSize, block, priority), healthy))
    {
      var hdrs := block;
      var first, left := true, healthy;
      ghost var all := Split(streamID, endStream, maxFrameSize, block, priority);
      ghost var todo := all;
      while |hdrs| > 0 && left > 0
        invariant w + Written(UpTo(todo, left)) == old(w) + Written(UpTo(all, healthy))
        invariant todo == Pieces(first, streamID, endStream, maxFrameSize, hdrs, priority)
        decreases |hdrs|
      {
        var chunk := hdrs;
        if |chunk| > maxFrameSize {
          chunk := chunk[..maxFrameSize];
        }
        ghost var before, was := w, hdrs;
        hdrs := hdrs[|chunk|..];
        var endHeaders := |hdrs| == 0;
        WriteFragment(first, streamID, endStream, endHeaders, chunk, priority);
        PiecesStep(first, streamID, endStream, maxFrameSize, was, priority);
        UpToStep(todo, left);
        Regroup(before, Sent(todo[0]), Written(UpTo(todo[1..], left - 1)), [], []);
        first, left := false, left - 1;
        todo := todo[1..];
      }
    }

    // ---------------------------------------------------------- reading

    /** ReadFrame, leaving aside readMetaFrame: one frame that parses and comes in order. */
    method ReadFrame() returns (f: Parsed)
      modifies this`r, this`lastHeaderStream
      ensures var (p, rest) := ReadOne(old(r), maxReadSize);
        r == rest
        && match p
           case Err(e) => f == Err(e) && lastHeaderStream == old(lastHeaderStream)
           case Ok(g) =>
             var next := Order(old(lastHeaderStream), g.h);
             f == (if next.Some? then Ok(g) else Err(ConnError(CODE_PROTOCOL)))
             && lastHeaderStream == if next.Some? then next.value else old(lastHeaderStream)
    {
      var (p, rest) := ReadOne(r, maxReadSize);
      r := rest;
      if p.Err? {
        return p;
      }
      var ok := CheckFrameOrder(p.value.h);
      return if ok then p else Err(ConnError(CODE_PROTOCOL));
    }

    method CheckFrameOrder(h: FrameHeader) returns (ok: bool)
      modifies this`lastHeaderStream
      ensures ok <==> Order(old(lastHeaderStream), h).Some?
      ensures lastHeaderStream == if ok then Order(old(lastHeaderStream), h).value else old(lastHeaderStream)
    {
      if lastHeaderStream != 0 {
        if h.ftype != CONTINUATION {
          return false;
        }
        if h.streamID != lastHeaderStream {
          return false;
        }
      } else if h.ftype == CONTINUATION {
        return false;
      }
      if h.ftype == HEADERS || h.ftype == CONTINUATION {
        lastHeaderStream := if Has(h.flags, END_HEADERS) then 0 else h.streamID;
      }
      return true;
    }

    /**
     * The fragment loop of readMetaFrame, after the HEADERS frame has been read: the whole block.
     * Every frame it gets is a CONTINUATION, so the cast never fails.
     */
    method ReadMetaFrame(hf: Frame) returns (res: Result<seq<byte>, FrameError>)
      requires hf.HeadersFrame? && hf.h.ftype == HEADERS && hf.h.streamID != 0
      requires lastHeaderStream == if Has(hf.h.flags, END_HEADERS) then 0 else hf.h.streamID
      modifies this`r, this`lastHeaderStream
      ensures var more := Pending(Has(hf.h.flags, END_HEADERS), old(r), hf.h.streamID, maxReadSize);
        var whole := Behind(hf.fragment, more);
        if whole.Err? then res == Err(whole.error)
        else res == Ok(whole.value.0) && r == whole.value.1 && lastHeaderStream == 0
    {
      var block := hf.fragment;
      var ended := Has(hf.h.flags, END_HEADERS);
      ghost var id := hf.h.streamID;
      ghost var whole := Behind(block, Pending(ended, r, id, maxReadSize));
      while !ended
        invariant lastHeaderStream == if ended then 0 else id
        invariant Behind(block, Pending(ended, r, id, maxReadSize)) == whole
        decreases |r|, !ended
      {
        ReadShrinks(r, maxReadSize);
        ghost var input := r;
        var f := ReadFrame();
        if f.Err? {
          return Err(f.error);
        }
        ParsedInOrderIsContinuation(input, id, maxReadSize);
        assert f.value.ContinuationFrame?;
        var frag := f.value.fragment;
        ended := Has(f.value.h.flags, END_HEADERS);
        assert frag + [] == frag;
        BehindTwice(block, frag, Pending(ended, r, id, maxReadSize));
        block := block + frag;
      }
      assert block + [] == block;
      return Ok(block);
    }
  }

  lemma ReadShrinks(input: seq<byte>, limit: nat)
    ensures ReadOne(input, limit).0.Ok? ==> |ReadOne(input, limit).1| < |input|
  {
  }

  /** In the middle of a header block, whatever frame passes both the parser and the order check is a CONTINUATION. */
  lemma {:induction false} ParsedInOrderIsContinuation(input: seq<byte>, last: nat, limit: nat)
    requires last != 0 && ReadOne(input, limit).0.Ok?
    requires Order(last, ReadOne(input, limit).0.value.h).Some?
    ensures ReadOne(input, limit).0.value.ContinuationFrame?
    ensures ReadOne(input, limit).0.value.h.streamID == last
  {
    var h := ParseHeader(input[..FRAME_HEADER_LEN]);
    ParsedAsTyped(h, input[FRAME_HEADER_LEN..][..h.length]);
  }
}
