/**
 * The HTTP/2 frame formats: what the Framer's Write methods put on the wire and what its parsers
 * take from it (internal/http2/frame.go; sections 4.1 and 6.1 to 6.10 of RFC 7540).
 */
module FrameCodec {
  import opened MachineInts
  import opened Wrappers

  const FRAME_HEADER_LEN := 9
  const MAX_FRAME_SIZE := 0xff_ffff

  // Frame types.
  const DATA: byte := 0
  const HEADERS: byte := 1
  const PRIORITY: byte := 2
  const RST_STREAM: byte := 3
  const SETTINGS: byte := 4
  const PUSH_PROMISE: byte := 5
  const PING: byte := 6
  const GOAWAY: byte := 7
  const WINDOW_UPDATE: byte := 8
  const CONTINUATION: byte := 9

  // Flags.
  const END_STREAM := 0x1
  const ACK := 0x1
  const END_HEADERS := 0x4
  const PADDED := 0x8
  const PRIORITY_FLAG := 0x20

  const CODE_PROTOCOL := 1
  const CODE_FLOW_CONTROL := 3
  const CODE_FRAME_SIZE := 6

  const SETTING_INITIAL_WINDOW_SIZE := 4

  // ------------------------------------------------------------ integers on the wire

  // binary.BigEndian, writing and reading.
  function U16(v: nat): seq<byte> { [B(Shr8(v)), B(v)] }
  function U24(v: nat): seq<byte> { [B(Shr8(Shr8(v)))] + U16(v) }
  function U32(v: nat): seq<byte> { [B(Shr8(Shr8(Shr8(v))))] + U24(v) }

  function Get16(p: seq<byte>): nat
    requires |p| == 2
  {
    p[0] as nat * 256 + p[1] as nat
  }

  function Get24(p: seq<byte>): nat
    requires |p| == 3
  {
    (p[0] as nat * 256 + p[1] as nat) * 256 + p[2] as nat
  }

  function Get32(p: seq<byte>): nat
    requires |p| == 4
  {
    ((p[0] as nat * 256 + p[1] as nat) * 256 + p[2] as nat) * 256 + p[3] as nat
  }

  lemma U16RoundTrip(v: nat)
    requires v < 0x1_0000
    ensures Get16(U16(v)) == v
  {
  }

  lemma {:induction false} U24RoundTrip(v: nat)
    requires v <= MAX_FRAME_SIZE
    ensures Get24(U24(v)) == v
  {
    assert Shr8(Shr8(v)) < 256;
  }

  lemma {:induction false} U32RoundTrip(v: nat)
    requires v < TWO_32
    ensures Get32(U32(v)) == v
  {
    assert Shr8(Shr8(Shr8(v))) < 256;
  }

  /** v & (1<<31 - 1). */
  function Low31(v: nat): nat { v % TWO_31 }

  /** Flags.Has, for a single bit. */
  predicate Has(flags: byte, bit: nat)
    requires bit > 0
  {
    flags as int / bit % 2 == 1
  }

  function Bit(b: bool, bit: nat): nat { if b then bit else 0 }

  // ------------------------------------------------------------ frames

  datatype FrameHeader = FrameHeader(ftype: byte, flags: byte, length: nat, streamID: nat)

  datatype PriorityParam = PriorityParam(streamDep: nat, exclusive: bool, weight: byte) {
    predicate IsZero() { this == PriorityParam(0, false, 0) }
  }

  datatype Setting = Setting(id: nat, val: nat)

  datatype Frame =
    | DataFrame(h: FrameHeader, data: seq<byte>)
    | HeadersFrame(h: FrameHeader, priority: PriorityParam, fragment: seq<byte>)
    | PriorityFrame(h: FrameHeader, priority: PriorityParam)
    | RSTStreamFrame(h: FrameHeader, code: nat)
    | SettingsFrame(h: FrameHeader, p: seq<byte>)
    | PushPromiseFrame(h: FrameHeader, promiseID: nat, fragment: seq<byte>)
    | PingFrame(h: FrameHeader, data: seq<byte>)
    | GoAwayFrame(h: FrameHeader, last: nat, code: nat, debug: seq<byte>)
    | WindowUpdateFrame(h: FrameHeader, increment: nat)
    | ContinuationFrame(h: FrameHeader, fragment: seq<byte>)
    | UnknownFrame(h: FrameHeader, p: seq<byte>)

  datatype FrameError = ConnError(code: nat) | StreamError(streamID: nat, code: nat) | TooLarge | IO(err: IOError)

  type Parsed = Result<Frame, FrameError>

  // ------------------------------------------------------------ parsing

  function NumSettings(p: seq<byte>): nat { |p| / 6 }

  /** SettingsFrame.Setting. */
  function SettingAt(p: seq<byte>, i: nat): Setting
    requires i < NumSettings(p)
  {
    Setting(Get16(p[6 * i..6 * i + 2]), Get32(p[6 * i + 2..6 * i + 6]))
  }

  /** SettingsFrame.Value: the first setting with this ID, looking from index i on. */
  function ValueFrom(p: seq<byte>, id: nat, i: nat): Option<nat>
    requires i <= NumSettings(p)
    decreases NumSettings(p) - i
  {
    if i == NumSettings(p) then None
    else if SettingAt(p, i).id == id then Some(SettingAt(p, i).val)
    else ValueFrom(p, id, i + 1)
  }

  /** The optional pad length byte: the pad length and the payload after it. */
  function ReadPad(h: FrameHeader, p: seq<byte>): Result<(nat, seq<byte>), FrameError> {
    if !Has(h.flags, PADDED) then Ok((0, p))
    else if p == [] then Err(IO(UnexpectedEOF))
    else Ok((p[0] as nat, p[1..]))
  }

  /** Four bytes of dependency with the exclusive bit, and a weight. */
  function ReadPriority(p: seq<byte>): PriorityParam
    requires |p| >= 5
  {
    var v := Get32(p[..4]);
    PriorityParam(Low31(v), v != Low31(v), p[4])
  }

  function ParseData(h: FrameHeader, payload: seq<byte>): Parsed {
    if h.streamID == 0 then Err(ConnError(CODE_PROTOCOL))
    else
      match ReadPad(h, payload)
      case Err(e) => Err(e)
      case Ok((pad, p)) => if pad > |p| then Err(ConnError(CODE_PROTOCOL)) else Ok(DataFrame(h, p[..|p| - pad]))
  }

  function ParseHeaders(h: FrameHeader, payload: seq<byte>): Parsed {
    if h.streamID == 0 then Err(ConnError(CODE_PROTOCOL))
    else
      match ReadPad(h, payload)
      case Err(e) => Err(e)
      case Ok((pad, p)) =>
        var prioritized := Has(h.flags, PRIORITY_FLAG);
        if prioritized && |p| < 5 then Err(IO(UnexpectedEOF))
        else
          var priority := if prioritized then ReadPriority(p) else PriorityParam(0, false, 0);
          var q := if prioritized then p[5..] else p;
          if pad > |q| then Err(StreamError(h.streamID, CODE_PROTOCOL))
          else Ok(HeadersFrame(h, priority, q[..|q| - pad]))
  }

  function ParsePriority(h: FrameHeader, p: seq<byte>): Parsed {
    if h.streamID == 0 then Err(ConnError(CODE_PROTOCOL))
    else if |p| != 5 then Err(ConnError(CODE_FRAME_SIZE))
    else Ok(PriorityFrame(h, ReadPriority(p)))
  }

  function ParseRSTStream(h: FrameHeader, p: seq<byte>): Parsed {
    if |p| != 4 then Err(ConnError(CODE_FRAME_SIZE))
    else if h.streamID == 0 then Err(ConnError(CODE_PROTOCOL))
    else Ok(RSTStreamFrame(h, Get32(p)))
  }

  function ParseSettings(h: FrameHeader, p: seq<byte>): Parsed {
    if Has(h.flags, ACK) && h.length > 0 then Err(ConnError(CODE_FRAME_SIZE))
    else if h.streamID != 0 then Err(ConnError(CODE_PROTOCOL))
    else if |p| % 6 != 0 then Err(ConnError(CODE_FRAME_SIZE))
    else
      var w := ValueFrom(p, SETTING_INITIAL_WINDOW_SIZE, 0);
      if w.Some? && w.value > MAX_INT32 then Err(ConnError(CODE_FLOW_CONTROL)) else Ok(SettingsFrame(h, p))
  }

  function ParsePushPromise(h: FrameHeader, payload: seq<byte>): Parsed {
    if h.streamID == 0 then Err(ConnError(CODE_PROTOCOL))
    else
      match ReadPad(h, payload)
      case Err(e) => Err(e)
      case Ok((pad, p)) =>
        if |p| < 4 then Err(IO(UnexpectedEOF))
        else
          var q := p[4..];
          if pad > |q| then Err(ConnError(CODE_PROTOCOL))
          else Ok(PushPromiseFrame(h, Low31(Get32(p[..4])), q[..|q| - pad]))
  }

  function ParsePing(h: FrameHeader, p: seq<byte>): Parsed {
    if |p| != 8 then Err(ConnError(CODE_FRAME_SIZE))
    else if h.streamID != 0 then Err(ConnError(CODE_PROTOCOL))
    else Ok(PingFrame(h, p))
  }

  function ParseGoAway(h: FrameHeader, p: seq<byte>): Parsed {
    if h.streamID != 0 then Err(ConnError(CODE_PROTOCOL))
    else if |p| < 8 then Err(ConnError(CODE_FRAME_SIZE))
    else Ok(GoAwayFrame(h, Low31(Get32(p[..4])), Get32(p[4..8]), p[8..]))
  }

  function ParseWindowUpdate(h: FrameHeader, p: seq<byte>): Parsed {
    if |p| != 4 then Err(ConnError(CODE_FRAME_SIZE))
    else
      var inc := Low31(Get32(p));
      if inc != 0 then Ok(WindowUpdateFrame(h, inc))
      else if h.streamID == 0 then Err(ConnError(CODE_PROTOCOL))
      else Err(StreamError(h.streamID, CODE_PROTOCOL))
  }

  function ParseContinuation(h: FrameHeader, p: seq<byte>): Parsed {
    if h.streamID == 0 then Err(ConnError(CODE_PROTOCOL)) else Ok(ContinuationFrame(h, p))
  }

  /** typeFrameParser. */
  function ParsePayload(h: FrameHeader, p: seq<byte>): Parsed {
    if h.ftype == DATA then ParseData(h, p)
    else if h.ftype == HEADERS then ParseHeaders(h, p)
    else if h.ftype == PRIORITY then ParsePriority(h, p)
    else if h.ftype == RST_STREAM then ParseRSTStream(h, p)
    else if h.ftype == SETTINGS then ParseSettings(h, p)
    else if h.ftype == PUSH_PROMISE then ParsePushPromise(h, p)
    else if h.ftype == PING then ParsePing(h, p)
    else if h.ftype == GOAWAY then ParseGoAway(h, p)
    else if h.ftype == WINDOW_UPDATE then ParseWindowUpdate(h, p)
    else if h.ftype == CONTINUATION then ParseContinuation(h, p)
    else Ok(UnknownFrame(h, p))
  }

  function ParseHeader(p: seq<byte>): FrameHeader
    requires |p| == FRAME_HEADER_LEN
  {
    FrameHeader(p[3], p[4], Get24(p[..3]), Low31(Get32(p[5..9])))
  }

  /** io.ReadFull(n): what is missing when the input is too short. */
  function Missing(available: nat): FrameError { IO(if available == 0 then EOF else UnexpectedEOF) }

  /** ReadFrame without the order check: the frame and the input after it. */
  function ReadOne(input: seq<byte>, maxReadSize: nat): (Parsed, seq<byte>) {
    if |input| < FRAME_HEADER_LEN then (Err(Missing(|input|)), [])
    else
      var h := ParseHeader(input[..FRAME_HEADER_LEN]);
      var rest := input[FRAME_HEADER_LEN..];
      if h.length > maxReadSize then (Err(TooLarge), rest)
      else if |rest| < h.length then (Err(Missing(|rest|)), [])
      else (ParsePayload(h, rest[..h.length]), rest[h.length..])
  }

  // ------------------------------------------------------------ writing

  /** One call of a Write method. */
  datatype Op =
    | WriteData(streamID: nat, endStream: bool, data: seq<byte>, pad: Option<seq<byte>>)
    | WriteHeaders(streamID: nat, fragment: seq<byte>, endStream: bool, endHeaders: bool, padLength: byte,
                   priority: PriorityParam)
    | WritePriority(streamID: nat, priority: PriorityParam)
    | WriteRSTStream(streamID: nat, code: nat)
    | WriteSettings(settings: seq<Setting>)
    | WriteSettingsAck
    | WritePushPromise(streamID: nat, promiseID: nat, fragment: seq<byte>, endHeaders: bool, padLength: byte)
    | WritePing(ack: bool, data: seq<byte>)
    | WriteGoAway(maxStreamID: nat, code: nat, debug: seq<byte>)
    | WriteWindowUpdate(streamID: nat, increment: nat)
    | WriteContinuation(streamID: nat, endHeaders: bool, fragment: seq<byte>)

  predicate IsU32(v: nat) { v < TWO_32 }

  /** The arguments fit their Go types. */
  predicate Typed(op: Op) {
    match op
    case WriteData(id, _, _, _) => IsU32(id)
    case WriteHeaders(id, _, _, _, _, prio) => IsU32(id) && IsU32(prio.streamDep)
    case WritePriority(id, prio) => IsU32(id) && IsU32(prio.streamDep)
    case WriteRSTStream(id, code) => IsU32(id) && IsU32(code)
    case WriteSettings(ss) => forall i :: 0 <= i < |ss| ==> ss[i].id < 0x1_0000 && IsU32(ss[i].val)
    case WriteSettingsAck => true
    case WritePushPromise(id, promise, _, _, _) => IsU32(id) && IsU32(promise)
    case WritePing(_, data) => |data| == 8
    case WriteGoAway(last, code, _) => IsU32(last) && IsU32(code)
    case WriteWindowUpdate(id, inc) => IsU32(id) && IsU32(inc)
    case WriteContinuation(id, _, _) => IsU32(id)
  }

  predicate ValidStreamID(id: nat) { 0 < id < TWO_31 }

  /** The checks a Write method makes on its arguments. */
  predicate Accepted(op: Op) {
    match op
    case WriteData(id, _, _, pad) =>
      ValidStreamID(id) && (pad.Some? ==> |pad.value| <= 255 && forall i :: 0 <= i < |pad.value| ==> pad.value[i] == 0)
    case WriteHeaders(id, _, _, _, _, prio) => ValidStreamID(id) && prio.streamDep < TWO_31
    case WritePriority(id, prio) => ValidStreamID(id) && prio.streamDep < TWO_31
    case WriteRSTStream(id, _) => ValidStreamID(id)
    case WriteSettings(_) => true
    case WriteSettingsAck => true
    case WritePushPromise(id, promise, _, _, _) => ValidStreamID(id) && ValidStreamID(promise)
    case WritePing(_, _) => true
    case WriteGoAway(_, _, _) => true
    case WriteWindowUpdate(_, inc) => 1 <= inc <= MAX_INT32
    case WriteContinuation(id, _, _) => ValidStreamID(id)
  }

  function TypeOf(op: Op): byte {
    match op
    case WriteData(_, _, _, _) => DATA
    case WriteHeaders(_, _, _, _, _, _) => HEADERS
    case WritePriority(_, _) => PRIORITY
    case WriteRSTStream(_, _) => RST_STREAM
    case WriteSettings(_) => SETTINGS
    case WriteSettingsAck => SETTINGS
    case WritePushPromise(_, _, _, _, _) => PUSH_PROMISE
    case WritePing(_, _) => PING
    case WriteGoAway(_, _, _) => GOAWAY
    case WriteWindowUpdate(_, _) => WINDOW_UPDATE
    case WriteContinuation(_, _, _) => CONTINUATION
  }

  function FlagsOf(op: Op): byte {
    match op
    case WriteData(_, end, _, pad) => (Bit(end, END_STREAM) + Bit(pad.Some?, PADDED)) as byte
    case WriteHeaders(_, _, endStream, endHeaders, padLength, prio) =>
      (Bit(padLength != 0, PADDED) + Bit(endStream, END_STREAM) + Bit(endHeaders, END_HEADERS)
       + Bit(!prio.IsZero(), PRIORITY_FLAG)) as byte
    case WriteSettingsAck => ACK as byte
    case WritePushPromise(_, _, _, endHeaders, padLength) =>
      (Bit(padLength != 0, PADDED) + Bit(endHeaders, END_HEADERS)) as byte
    case WritePing(ack, _) => Bit(ack, ACK) as byte
    case WriteContinuation(_, endHeaders, _) => Bit(endHeaders, END_HEADERS) as byte
    case _ => 0
  }

  function StreamOf(op: Op): nat {
    match op
    case WriteSettings(_) => 0
    case WriteSettingsAck => 0
    case WritePing(_, _) => 0
    case WriteGoAway(_, _, _) => 0
    case _ => op.streamID
  }

  function PriorityBytes(p: PriorityParam): seq<byte> {
    U32(p.streamDep + Bit(p.exclusive, TWO_31)) + [p.weight]
  }

  function SettingBytes(ss: seq<Setting>): seq<byte> {
    if ss == [] then [] else U16(ss[0].id) + U32(ss[0].val) + SettingBytes(ss[1..])
  }

  function PadByte(n: byte): seq<byte> { if n != 0 then [n] else [] }

  function PayloadOf(op: Op): seq<byte> {
    match op
    case WriteData(_, _, data, pad) =>
      if pad.Some? then [B(|pad.value|)] + data + pad.value else data
    case WriteHeaders(_, fragment, _, _, padLength, prio) =>
      PadByte(padLength) + (if prio.IsZero() then [] else PriorityBytes(prio)) + fragment + Zeros(padLength as nat)
    case WritePriority(_, prio) => PriorityBytes(prio)
    case WriteRSTStream(_, code) => U32(code)
    case WriteSettings(ss) => SettingBytes(ss)
    case WriteSettingsAck => []
    case WritePushPromise(_, promise, fragment, _, padLength) =>
      PadByte(padLength) + U32(promise) + fragment + Zeros(padLength as nat)
    case WritePing(_, data) => data
    case WriteGoAway(last, code, debug) => U32(Low31(last)) + U32(code) + debug
    case WriteWindowUpdate(_, inc) => U32(inc)
    case WriteContinuation(_, _, fragment) => fragment
  }

  /** The bytes endWrite hands to the connection. */
  function Wire(ftype: byte, flags: byte, streamID: nat, payload: seq<byte>): seq<byte> {
    U24(|payload|) + [ftype, flags] + U32(streamID) + payload
  }

  function WireOf(op: Op): seq<byte> { Wire(TypeOf(op), FlagsOf(op), StreamOf(op), PayloadOf(op)) }

  /** The call succeeds: its arguments pass and the frame is not too large. */
  predicate Writes(op: Op) { Accepted(op) && |PayloadOf(op)| <= MAX_FRAME_SIZE }

  function FirstValue(ss: seq<Setting>, id: nat): Option<nat> {
    if ss == [] then None else if ss[0].id == id then Some(ss[0].val) else FirstValue(ss[1..], id)
  }

  /** What a reader insists on and a Write method does not: the value range of SETTINGS_INITIAL_WINDOW_SIZE. */
  predicate Readable(op: Op) {
    op.WriteSettings? ==>
      var w := FirstValue(op.settings, SETTING_INITIAL_WINDOW_SIZE); w.Some? ==> w.value <= MAX_INT32
  }

  // ------------------------------------------------------------ round trips

  /** The frame a reader should see. */
  function FrameOf(op: Op): Frame {
    var h := FrameHeader(TypeOf(op), FlagsOf(op), |PayloadOf(op)|, Low31(StreamOf(op)));
    match op
    case WriteData(_, _, data, _) => DataFrame(h, data)
    case WriteHeaders(_, fragment, _, _, _, prio) => HeadersFrame(h, prio, fragment)
    case WritePriority(_, prio) => PriorityFrame(h, prio)
    case WriteRSTStream(_, code) => RSTStreamFrame(h, code)
    case WriteSettings(ss) => SettingsFrame(h, SettingBytes(ss))
    case WriteSettingsAck => SettingsFrame(h, [])
    case WritePushPromise(_, promise, fragment, _, _) => PushPromiseFrame(h, promise, fragment)
    case WritePing(_, data) => PingFrame(h, data)
    case WriteGoAway(last, code, debug) => GoAwayFrame(h, Low31(last), code, debug)
    case WriteWindowUpdate(_, inc) => WindowUpdateFrame(h, inc)
    case WriteContinuation(_, _, fragment) => ContinuationFrame(h, fragment)
  }

  lemma SliceShift(a: seq<byte>, q: seq<byte>, i: nat, j: nat)
    requires i <= j <= |q|
    ensures (a + q)[|a| + i..|a| + j] == q[i..j]
  {
  }

  lemma {:induction false} PriorityRoundTrip(p: PriorityParam, rest: seq<byte>)
    requires p.streamDep < TWO_31
    ensures ReadPriority(PriorityBytes(p) + rest) == p
    ensures (PriorityBytes(p) + rest)[5..] == rest
  {
    var v := p.streamDep + Bit(p.exclusive, TWO_31);
    U32RoundTrip(v);
    assert (PriorityBytes(p) + rest)[..4] == U32(v);
  }

  lemma {:induction false} SettingsRoundTrip(ss: seq<Setting>)
    requires Typed(WriteSettings(ss))
    ensures |SettingBytes(ss)| == 6 * |ss|
    ensures forall i :: 0 <= i < |ss| ==> SettingAt(SettingBytes(ss), i) == ss[i]
  {
    if ss != [] {
      SettingsRoundTrip(ss[1..]);
      var p, q := SettingBytes(ss), SettingBytes(ss[1..]);
      forall i | 0 <= i < |ss|
        ensures SettingAt(p, i) == ss[i]
      {
        if i == 0 {
          U16RoundTrip(ss[0].id);
          U32RoundTrip(ss[0].val);
          assert p[0..2] == U16(ss[0].id) && p[2..6] == U32(ss[0].val);
        } else {
          SliceShift(U16(ss[0].id) + U32(ss[0].val), q, 6 * (i - 1), 6 * (i - 1) + 2);
          SliceShift(U16(ss[0].id) + U32(ss[0].val), q, 6 * (i - 1) + 2, 6 * (i - 1) + 6);
          assert SettingAt(q, i - 1) == ss[1..][i - 1];
        }
      }
    }
  }

  lemma {:induction false} ValueIsFirstValue(ss: seq<Setting>, id: nat, i: nat)
    requires Typed(WriteSettings(ss)) && i <= |ss|
    ensures NumSettings(SettingBytes(ss)) == |ss| && ValueFrom(SettingBytes(ss), id, i) == FirstValue(ss[i..], id)
    decreases |ss| - i
  {
    SettingsRoundTrip(ss);
    if i < |ss| {
      ValueIsFirstValue(ss, id, i + 1);
      assert SettingAt(SettingBytes(ss), i) == ss[i];
      assert ss[i..][1..] == ss[i + 1..];
    }
  }

  /** The header a reader derives from a written frame, and where it finds the payload. */
  lemma HeaderRoundTrip(ftype: byte, flags: byte, streamID: nat, payload: seq<byte>, rest: seq<byte>)
    requires streamID < TWO_32 && |payload| <= MAX_FRAME_SIZE
    ensures var input := Wire(ftype, flags, streamID, payload) + rest;
      |input| >= FRAME_HEADER_LEN + |payload|
      && ParseHeader(input[..FRAME_HEADER_LEN]) == FrameHeader(ftype, flags, |payload|, Low31(streamID))
      && input[FRAME_HEADER_LEN..][..|payload|] == payload
      && input[FRAME_HEADER_LEN..][|payload|..] == rest
  {
    var head := U24(|payload|) + [ftype, flags] + U32(streamID);
    var input := Wire(ftype, flags, streamID, payload) + rest;
    assert input == head + (payload + rest);
    assert input[..FRAME_HEADER_LEN] == head;
    assert head[..3] == U24(|payload|) && head[5..9] == U32(streamID);
    U24RoundTrip(|payload|);
    U32RoundTrip(streamID);
  }

  lemma DataRoundTrip(h: FrameHeader, op: Op)
    requires op.WriteData? && Typed(op) && Accepted(op) && h.flags == FlagsOf(op) && h.streamID == op.streamID
    ensures ParseData(h, PayloadOf(op)) == Ok(DataFrame(h, op.data))
  {
    if op.pad.Some? {
      var p := PayloadOf(op);
      assert p[1..] == op.data + op.pad.value;
      assert (op.data + op.pad.value)[..|op.data|] == op.data;
    } else {
      assert op.data[..|op.data|] == op.data;
    }
    assert Has(h.flags, PADDED) <==> op.pad.Some?;
  }

  lemma PadRoundTrip(h: FrameHeader, n: byte, body: seq<byte>)
    requires Has(h.flags, PADDED) <==> n != 0
    ensures ReadPad(h, PadByte(n) + body) == Ok((n as nat, body))
  {
    if n != 0 {
      assert (PadByte(n) + body)[1..] == body;
    } else {
      assert PadByte(n) + body == body;
    }
  }

  lemma HeadersFlagBits(op: Op)
    requires op.WriteHeaders?
    ensures Has(FlagsOf(op), PADDED) <==> op.padLength != 0
    ensures Has(FlagsOf(op), PRIORITY_FLAG) <==> !op.priority.IsZero()
  {
  }

  lemma HeadersRoundTrip(h: FrameHeader, op: Op)
    requires op.WriteHeaders? && Typed(op) && Accepted(op) && h.flags == FlagsOf(op) && h.streamID == op.streamID
    ensures ParseHeaders(h, PayloadOf(op)) == Ok(HeadersFrame(h, op.priority, op.fragment))
  {
    var prio := if op.priority.IsZero() then [] else PriorityBytes(op.priority);
    var tail := op.fragment + Zeros(op.padLength as nat);
    assert PayloadOf(op) == PadByte(op.padLength) + (prio + tail);
    HeadersFlagBits(op);
    PadRoundTrip(h, op.padLength, prio + tail);
    if !op.priority.IsZero() {
      PriorityRoundTrip(op.priority, tail);
    } else {
      assert prio + tail == tail;
    }
    assert tail[..|op.fragment|] == op.fragment;
  }

  lemma PushPromiseRoundTrip(h: FrameHeader, op: Op)
    requires op.WritePushPromise? && Typed(op) && Accepted(op) && h.flags == FlagsOf(op) && h.streamID == op.streamID
    ensures ParsePushPromise(h, PayloadOf(op)) == Ok(PushPromiseFrame(h, op.promiseID, op.fragment))
  {
    var tail := op.fragment + Zeros(op.padLength as nat);
    var body := U32(op.promiseID) + tail;
    assert PayloadOf(op) == PadByte(op.padLength) + body;
    PadRoundTrip(h, op.padLength, body);
    U32RoundTrip(op.promiseID);
    assert body[..4] == U32(op.promiseID) && body[4..] == tail && tail[..|op.fragment|] == op.fragment;
  }

  lemma GoAwayRoundTrip(h: FrameHeader, op: Op)
    requires op.WriteGoAway? && Typed(op) && h.streamID == 0
    ensures ParseGoAway(h, PayloadOf(op)) == Ok(GoAwayFrame(h, Low31(op.maxStreamID), op.code, op.debug))
  {
    var p := PayloadOf(op);
    U32RoundTrip(Low31(op.maxStreamID));
    U32RoundTrip(op.code);
    assert p[..4] == U32(Low31(op.maxStreamID)) && p[4..8] == U32(op.code) && p[8..] == op.debug;
  }

  lemma SettingsFrameRoundTrip(h: FrameHeader, op: Op)
    requires op.WriteSettings? && Typed(op) && h.flags == 0 && h.streamID == 0
    ensures ParseSettings(h, PayloadOf(op)) == Ok(SettingsFrame(h, PayloadOf(op))) <==> Readable(op)
  {
    SettingsRoundTrip(op.settings);
    ValueIsFirstValue(op.settings, SETTING_INITIAL_WINDOW_SIZE, 0);
    assert op.settings[0..] == op.settings;
  }

  lemma PriorityFrameRoundTrip(h: FrameHeader, op: Op)
    requires op.WritePriority? && Typed(op) && Accepted(op) && h.streamID == op.streamID
    ensures ParsePriority(h, PayloadOf(op)) == Ok(PriorityFrame(h, op.priority))
  {
    PriorityRoundTrip(op.priority, []);
    assert PriorityBytes(op.priority) + [] == PriorityBytes(op.priority);
  }

  lemma {:induction false} NumberRoundTrip(h: FrameHeader, op: Op)
    requires (op.WriteRSTStream? || op.WriteWindowUpdate?) && Typed(op) && Accepted(op)
    requires h.streamID == Low31(op.streamID)
    ensures op.WriteRSTStream? ==> ParseRSTStream(h, PayloadOf(op)) == Ok(RSTStreamFrame(h, op.code))
    ensures op.WriteWindowUpdate? ==> ParseWindowUpdate(h, PayloadOf(op)) == Ok(WindowUpdateFrame(h, op.increment))
  {
    U32RoundTrip(if op.WriteRSTStream? then op.code else op.increment);
  }

  /** Parsing the payload of a written frame gives the written fields, exactly when the frame is readable. */
  lemma PayloadRoundTrip(op: Op)
    requires Typed(op) && Writes(op)
    ensures ParsePayload(FrameOf(op).h, PayloadOf(op)) == Ok(FrameOf(op)) <==> Readable(op)
  {
    var h := FrameOf(op).h;
    if op.WriteData? {
      DataRoundTrip(h, op);
    } else if op.WriteHeaders? {
      HeadersRoundTrip(h, op);
    } else if op.WritePriority? {
      PriorityFrameRoundTrip(h, op);
    } else if op.WriteRSTStream? || op.WriteWindowUpdate? {
      NumberRoundTrip(h, op);
    } else if op.WriteSettings? {
      SettingsFrameRoundTrip(h, op);
    } else if op.WritePushPromise? {
      PushPromiseRoundTrip(h, op);
    } else if op.WriteGoAway? {
      GoAwayRoundTrip(h, op);
    }
  }

  /** A written frame followed by anything reads back as its fields, and the reader stops exactly behind it. */
  lemma FrameRoundTrip(op: Op, rest: seq<byte>)
    requires Typed(op) && Writes(op)
    ensures ReadOne(WireOf(op) + rest, MAX_FRAME_SIZE).1 == rest
    ensures ReadOne(WireOf(op) + rest, MAX_FRAME_SIZE).0 == Ok(FrameOf(op)) <==> Readable(op)
  {
    HeaderRoundTrip(TypeOf(op), FlagsOf(op), StreamOf(op), PayloadOf(op), rest);
    PayloadRoundTrip(op);
  }

  function WireOfAll(ops: seq<Op>): seq<byte> {
    if ops == [] then [] else WireOf(ops[0]) + WireOfAll(ops[1..])
  }

  function FramesOf(ops: seq<Op>): seq<Frame> {
    if ops == [] then [] else [FrameOf(ops[0])] + FramesOf(ops[1..])
  }

  /** Reads count frames, or up to the first error: the frames, the error if any, and the input left. */
  function ReadMany(input: seq<byte>, count: nat): (seq<Frame>, Option<FrameError>, seq<byte>) {
    if count == 0 then ([], None, input)
    else
      match ReadOne(input, MAX_FRAME_SIZE)
      case (Err(e), rest) => ([], Some(e), rest)
      case (Ok(f), rest) =>
        var (fs, e, rest') := ReadMany(rest, count - 1);
        ([f] + fs, e, rest')
  }

  /** Main result: any list of frames reads back as written, and nothing is left over or taken from what follows. */
  lemma {:induction false} StreamRoundTrip(ops: seq<Op>, rest: seq<byte>)
    requires forall i :: 0 <= i < |ops| ==> Typed(ops[i]) && Writes(ops[i]) && Readable(ops[i])
    ensures ReadMany(WireOfAll(ops) + rest, |ops|) == (FramesOf(ops), None, rest)
  {
    if ops == [] {
      assert WireOfAll(ops) + rest == rest;
    } else {
      var tail := WireOfAll(ops[1..]) + rest;
      assert WireOfAll(ops) + rest == WireOf(ops[0]) + tail;
      FrameRoundTrip(ops[0], tail);
      StreamRoundTrip(ops[1..], rest);
    }
  }
}
