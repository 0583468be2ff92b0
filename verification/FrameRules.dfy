/**
 * The rules of sections 6.1 to 6.10 of RFC 7540 in the numbers of the standard: which frames a reader refuses and with
 * which error code, and what frames look like on the wire (internal/http2/frame.go).
 */
module FrameRules {
  import opened MachineInts
  import opened Wrappers
  import opened FrameCodec

  predicate Flag(h: FrameHeader, bit: nat)
    requires bit > 0
  {
    h.flags as nat / bit % 2 == 1
  }

  /** The pad length, if there is one. */
  function Padding(h: FrameHeader, p: seq<byte>): nat { if Flag(h, 8) && p != [] then p[0] as nat else 0 }

  /** What is left of the payload behind the pad length and a number of fields. */
  function Left(h: FrameHeader, p: seq<byte>, fields: nat): int { |p| - (if Flag(h, 8) then 1 else 0) - fields }

  function PriorityLen(h: FrameHeader): nat { if Flag(h, 0x20) then 5 else 0 }

  /** A size that no frame of this type may have. */
  predicate BadSize(h: FrameHeader, p: seq<byte>) {
    || (h.ftype == 2 && |p| != 5) || (h.ftype == 3 && |p| != 4) || (h.ftype == 6 && |p| != 8)
    || (h.ftype == 8 && |p| != 4) || (h.ftype == 7 && |p| < 8)
    || (h.ftype == 4 && (|p| % 6 != 0 || (Flag(h, 1) && h.length > 0)))
  }

  /**
   * DATA, HEADERS, PRIORITY, RST_STREAM, PUSH_PROMISE and CONTINUATION belong to a stream; SETTINGS, PING and GOAWAY
   * to the connection.
   */
  predicate BadStream(h: FrameHeader) {
    if h.ftype == 4 || h.ftype == 6 || h.ftype == 7 then h.streamID != 0
    else h.streamID == 0 && (h.ftype <= 3 || h.ftype == 5 || h.ftype == 9)
  }

  /** Too short for the fields its flags announce. */
  predicate CutShort(h: FrameHeader, p: seq<byte>) {
    || (h.ftype == 0 && Left(h, p, 0) < 0)
    || (h.ftype == 1 && Left(h, p, PriorityLen(h)) < 0)
    || (h.ftype == 5 && Left(h, p, 4) < 0)
  }

  /** More padding than there is room for. */
  predicate Overpadded(h: FrameHeader, p: seq<byte>) {
    || (h.ftype == 0 && Padding(h, p) > Left(h, p, 0))
    || (h.ftype == 1 && Padding(h, p) > Left(h, p, PriorityLen(h)))
    || (h.ftype == 5 && Padding(h, p) > Left(h, p, 4))
  }

  predicate NoIncrement(h: FrameHeader, p: seq<byte>) { h.ftype == 8 && |p| == 4 && Get32(p) % 0x8000_0000 == 0 }

  predicate LargeWindow(h: FrameHeader, p: seq<byte>) {
    h.ftype == 4 && |p| % 6 == 0 && ValueFrom(p, 4, 0).Some? && ValueFrom(p, 4, 0).value > 0x7fff_ffff
  }

  /** Main result on refusals: a frame is refused if and only if it breaks one of these rules. */
  lemma RefusedIff(h: FrameHeader, p: seq<byte>)
    ensures ParsePayload(h, p).Err? <==>
      BadSize(h, p) || BadStream(h) || CutShort(h, p) || Overpadded(h, p) || NoIncrement(h, p) || LargeWindow(h, p)
  {
    ErrorsAre(h, p);
  }

  /** With which error: FRAME_SIZE_ERROR, PROTOCOL_ERROR, FLOW_CONTROL_ERROR, of the stream or of the connection. */
  lemma ErrorsAre(h: FrameHeader, p: seq<byte>)
    ensures !BadStream(h) && BadSize(h, p) ==> ParsePayload(h, p) == Err(ConnError(6))
    ensures !BadSize(h, p) && BadStream(h) ==> ParsePayload(h, p) == Err(ConnError(1))
    ensures BadSize(h, p) && BadStream(h) ==>
      ParsePayload(h, p) == Err(ConnError(1)) || ParsePayload(h, p) == Err(ConnError(6))
    ensures !BadStream(h) && CutShort(h, p) ==> ParsePayload(h, p) == Err(IO(UnexpectedEOF))
    ensures !BadStream(h) && !CutShort(h, p) && Overpadded(h, p) ==>
      ParsePayload(h, p) == Err(if h.ftype == 1 then StreamError(h.streamID, 1) else ConnError(1))
    ensures NoIncrement(h, p) ==>
      ParsePayload(h, p) == Err(if h.streamID == 0 then ConnError(1) else StreamError(h.streamID, 1))
    ensures !BadSize(h, p) && !BadStream(h) && LargeWindow(h, p) ==> ParsePayload(h, p) == Err(ConnError(3))
    ensures !BadSize(h, p) && !BadStream(h) && !CutShort(h, p) && !Overpadded(h, p) ==>
      !NoIncrement(h, p) && !LargeWindow(h, p) ==> ParsePayload(h, p).Ok?
  {
    if h.ftype == 4 {
      assert ParsePayload(h, p) == FrameCodec.ParseSettings(h, p);
    }
  }

  /** A reader takes no frame beyond its limit, and takes one of just that length. */
  lemma TooLargeIff(input: seq<byte>, limit: nat)
    requires |input| >= 9
    ensures ReadOne(input, limit).0 == Err(TooLarge) <==>
      (input[0] as nat * 256 + input[1] as nat) * 256 + input[2] as nat > limit
  {
    var h := ParseHeader(input[..9]);
    assert input[..9][..3] == input[..3];
  }

  predicate LegalArguments(op: Op) {
    match op
    case WriteData(id, _, _, pad) =>
      0 < id <= 0x7fff_ffff
      && (pad.Some? ==> |pad.value| <= 255 && forall i :: 0 <= i < |pad.value| ==> pad.value[i] == 0)
    case WriteHeaders(id, _, _, _, _, prio) => 0 < id <= 0x7fff_ffff && prio.streamDep <= 0x7fff_ffff
    case WritePriority(id, prio) => 0 < id <= 0x7fff_ffff && prio.streamDep <= 0x7fff_ffff
    case WriteRSTStream(id, _) => 0 < id <= 0x7fff_ffff
    case WritePushPromise(id, promise, _, _, _) => 0 < id <= 0x7fff_ffff && 0 < promise <= 0x7fff_ffff
    case WriteWindowUpdate(_, inc) => 0 < inc <= 0x7fff_ffff
    case WriteContinuation(id, _, _) => 0 < id <= 0x7fff_ffff
    case _ => true
  }

  /** A frame is written if and only if its arguments are legal and it fits 24 bits of length. */
  lemma WrittenIff(op: Op)
    ensures Writes(op) <==> LegalArguments(op) && |PayloadOf(op)| <= 0xff_ffff
  {
  }

  // ------------------------------------------------------------ on the wire

  lemma BigEndian()
    ensures U16(0x0102) == [1, 2] && U24(0x01_0203) == [1, 2, 3] && U32(0x0102_0304) == [1, 2, 3, 4]
    ensures U32(0) == [0, 0, 0, 0] && U32(1) == [0, 0, 0, 1] && U32(0x8000_0001) == [128, 0, 0, 1]
    ensures forall n: nat :: n < 256 ==> U24(n) == [0, 0, n as byte] && U32(n) == [0, 0, 0, n as byte]
  {
  }

  lemma OnTheWire(ftype: byte, flags: byte, streamID: nat, payload: seq<byte>)
    requires streamID < 256 && |payload| < 256
    ensures Wire(ftype, flags, streamID, payload)
      == [0, 0, |payload| as byte, ftype, flags, 0, 0, 0, streamID as byte] + payload
  {
    BigEndian();
  }

  /** DATA with END_STREAM, and with padding. */
  lemma DataOnTheWire(data: seq<byte>)
    requires |data| < 200
    ensures WireOf(WriteData(1, true, data, None)) == [0, 0, |data| as byte, 0, 1, 0, 0, 0, 1] + data
    ensures WireOf(WriteData(1, false, data, Some([0, 0])))
      == [0, 0, (|data| + 3) as byte, 0, 8, 0, 0, 0, 1] + ([2] + data + [0, 0])
  {
    OnTheWire(0, 1, 1, data);
    OnTheWire(0, 8, 1, [2] + data + [0, 0]);
  }

  /** PING with ACK. */
  lemma PingOnTheWire(data: seq<byte>)
    requires |data| == 8
    ensures WireOf(WritePing(true, data)) == [0, 0, 8, 6, 1, 0, 0, 0, 0] + data
  {
    OnTheWire(6, 1, 0, data);
  }

  /** SETTINGS with one setting, and their acknowledgement. */
  lemma SettingsOnTheWire()
    ensures WireOf(WriteSettingsAck) == [0, 0, 0, 4, 1, 0, 0, 0, 0] + []
    ensures WireOf(WriteSettings([Setting(4, 0x0102_0304)])) == [0, 0, 6, 4, 0, 0, 0, 0, 0] + [0, 4, 1, 2, 3, 4]
  {
    BigEndian();
    OnTheWire(4, 1, 0, []);
    assert U16(4) == [0, 4];
    assert SettingBytes([Setting(4, 0x0102_0304)]) == [0, 4] + [1, 2, 3, 4] + SettingBytes([]);
    assert SettingBytes([Setting(4, 0x0102_0304)]) == [0, 4, 1, 2, 3, 4];
    OnTheWire(4, 0, 0, [0, 4, 1, 2, 3, 4]);
  }

  /** Frames of four bytes of payload, and GOAWAY. */
  lemma ControlFramesOnTheWire()
    ensures WireOf(WriteRSTStream(3, 8)) == [0, 0, 4, 3, 0, 0, 0, 0, 3] + [0, 0, 0, 8]
    ensures WireOf(WriteWindowUpdate(3, 0x0102_0304)) == [0, 0, 4, 8, 0, 0, 0, 0, 3] + [1, 2, 3, 4]
    ensures WireOf(WriteGoAway(5, 2, [7])) == [0, 0, 9, 7, 0, 0, 0, 0, 0] + [0, 0, 0, 5, 0, 0, 0, 2, 7]
  {
    BigEndian();
    OnTheWire(3, 0, 3, U32(8));
    OnTheWire(8, 0, 3, U32(0x0102_0304));
    assert U32(5) + U32(2) + [7] == [0, 0, 0, 5, 0, 0, 0, 2, 7];
    OnTheWire(7, 0, 0, [0, 0, 0, 5, 0, 0, 0, 2, 7]);
  }

  /** The dependency with its exclusive bit, and the weight. */
  lemma PriorityOnTheWire()
    ensures WireOf(WritePriority(3, PriorityParam(1, true, 15))) == [0, 0, 5, 2, 0, 0, 0, 0, 3] + [128, 0, 0, 1, 15]
  {
    BigEndian();
    assert PriorityBytes(PriorityParam(1, true, 15)) == [128, 0, 0, 1, 15];
    OnTheWire(2, 0, 3, [128, 0, 0, 1, 15]);
  }

  lemma PlainPayload(block: seq<byte>)
    ensures PayloadOf(WriteHeaders(1, block, true, true, 0, PriorityParam(0, false, 0))) == block
  {
    assert [] + [] + block + Zeros(0) == block;
  }

  /** HEADERS with END_STREAM and END_HEADERS. */
  lemma HeadersOnTheWire(block: seq<byte>)
    requires |block| < 200
    ensures WireOf(WriteHeaders(1, block, true, true, 0, PriorityParam(0, false, 0)))
      == [0, 0, |block| as byte, 1, 5, 0, 0, 0, 1] + block
  {
    PlainPayload(block);
    OnTheWire(1, 5, 1, block);
  }

  lemma PaddedPayload(block: seq<byte>)
    ensures PayloadOf(WriteHeaders(1, block, false, true, 2, PriorityParam(1, true, 15)))
      == [2, 128, 0, 0, 1, 15] + block + [0, 0]
  {
    BigEndian();
    var p := PriorityParam(1, true, 15);
    assert PriorityBytes(p) == [128, 0, 0, 1, 15] && Zeros(2) == [0, 0];
    assert [2] + PriorityBytes(p) + block + Zeros(2) == [2, 128, 0, 0, 1, 15] + block + [0, 0];
  }

  /** And with padding and priority. */
  lemma PaddedHeadersOnTheWire(block: seq<byte>)
    requires |block| < 200
    ensures WireOf(WriteHeaders(1, block, false, true, 2, PriorityParam(1, true, 15)))
      == [0, 0, (|block| + 8) as byte, 1, 0x2c, 0, 0, 0, 1] + ([2, 128, 0, 0, 1, 15] + block + [0, 0])
  {
    PaddedPayload(block);
    OnTheWire(1, 0x2c, 1, [2, 128, 0, 0, 1, 15] + block + [0, 0]);
  }

  /** PUSH_PROMISE and CONTINUATION. */
  lemma FragmentsOnTheWire(block: seq<byte>)
    requires |block| < 200
    ensures WireOf(WritePushPromise(1, 2, block, true, 0))
      == [0, 0, (|block| + 4) as byte, 5, 4, 0, 0, 0, 1] + ([0, 0, 0, 2] + block)
    ensures WireOf(WriteContinuation(1, true, block)) == [0, 0, |block| as byte, 9, 4, 0, 0, 0, 1] + block
  {
    BigEndian();
    OnTheWire(9, 4, 1, block);
    assert [] + U32(2) + block + Zeros(0) == [0, 0, 0, 2] + block;
    OnTheWire(5, 4, 1, [0, 0, 0, 2] + block);
  }
}
