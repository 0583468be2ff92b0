/**
 * What a client reads of the rest of an HTTP/3 message behind its header section, frame by frame, wherever the peer's
 * stream ends (internal/http3/http_stream.go, internal/http3/body.go; sections 4.1, 4.1.2 and 7.1 of RFC 9114).
 */
module Http3Message {
  import opened MachineInts
  import opened Wrappers
  import opened Varint
  import opened Http3Frames
  import opened Http3Body

  // ------------------------------------------------------------ frames on the wire

  const DATA := 0
  const HEADERS := 1
  const SETTINGS := 4

  predicate IsReserved(t: nat) { t == 2 || t == 6 || t == 8 || t == 9 }

  predicate IsSkipped(t: nat) { t != DATA && t != HEADERS && t != SETTINGS && !IsReserved(t) }

  /** A frame of any type. Its type and its length may take more bytes than they need. */
  datatype Frame = Frame(ftype: nat, payload: seq<byte>, typeLen: nat, lengthLen: nat) {
    predicate Legal() {
      && LegalLength(typeLen) && ftype <= MaxOf(typeLen)
      && LegalLength(lengthLen) && |payload| <= MaxOf(lengthLen)
    }

    function Header(): (h: seq<byte>)
      requires Legal()
      ensures |h| == typeLen + lengthLen
    {
      Enc(ftype, typeLen) + Enc(|payload|, lengthLen)
    }

    function Wire(): seq<byte>
      requires Legal()
    {
      Header() + payload
    }
  }

  /** A DATA frame as the client writes it. */
  function Data(payload: seq<byte>): (f: Frame)
    requires |payload| <= MAX_8
    ensures f.Legal() && f.ftype == DATA && f.payload == payload
  {
    Frame(DATA, payload, 1, Len(|payload|))
  }

  /** A frame of which only so many bytes arrived. */
  datatype Broken = Broken(frame: Frame, arrived: nat) {
    predicate Legal() { frame.Legal() && 0 < arrived < |frame.Wire()| }

    predicate HasHeader() { arrived >= frame.typeLen + frame.lengthLen }

    function Payload(): seq<byte>
      requires Legal()
    {
      if HasHeader() then frame.payload[..arrived - frame.typeLen - frame.lengthLen] else []
    }
  }

  predicate AllLegal(fs: seq<Frame>) { forall i :: 0 <= i < |fs| ==> fs[i].Legal() }

  predicate LegalCut(cut: Option<Broken>) { cut.Some? ==> cut.value.Legal() }

  /** Whole frames, and perhaps a broken one at the end. */
  function MessageWire(fs: seq<Frame>, cut: Option<Broken>): seq<byte>
    requires AllLegal(fs) && LegalCut(cut)
  {
    if fs != [] then fs[0].Wire() + MessageWire(fs[1..], cut)
    else if cut.Some? then cut.value.frame.Wire()[..cut.value.arrived]
    else []
  }

  // ------------------------------------------------------------ what they mean

  /** A SETTINGS frame is always refused here, but the error may be that of a setting that has no end. */
  function SettingsError(payload: seq<byte>): (e: Http3Error)
    ensures e != TooMuchData
  {
    if |payload| > MAX_SETTINGS then SettingsTooLarge
    else
      match Gather(payload, NOTHING)
      case Err(e) => e
      case Ok(_) => UnexpectedFrame
  }

  /** The error a whole frame raises, before or after trailers. */
  function Refusal(f: Frame, trailer: bool, peer: Peer): (e: Option<Http3Error>)
    ensures e != Some(TooMuchData)
  {
    if f.ftype == DATA then if trailer then Some(DataAfterTrailers) else None
    else if f.ftype == HEADERS then
      if trailer then Some(HeadersAfterTrailers)
      else if |f.payload| > peer.maxHeaderBytes || !peer.decodes(f.payload) then Some(BadTrailers)
      else None
    else if f.ftype == SETTINGS then Some(SettingsError(f.payload))
    else if IsReserved(f.ftype) then Some(ReservedFrame(f.ftype))
    else None
  }

  /** The end of the stream, where it comes. */
  function EndMeaning(cut: Option<Broken>, trailer: bool, peer: Peer): (d: Delivery)
    requires LegalCut(cut)
    ensures d.err != TooMuchData
    ensures d.truncated ==> cut.Some? && cut.value.HasHeader() && cut.value.frame.ftype == DATA
  {
    if cut.None? || !cut.value.HasHeader() then Delivery([], IO(peer.end), false)
    else
      var f, sent := cut.value.frame, cut.value.Payload();
      if f.ftype == DATA then
        if trailer then Delivery([], DataAfterTrailers, false) else Delivery(sent, IO(peer.end), true)
      else if f.ftype == HEADERS then
        if trailer then Delivery([], HeadersAfterTrailers, false)
        else if |f.payload| > peer.maxHeaderBytes then Delivery([], BadTrailers, false)
        else Delivery([], IO(if sent == [] then peer.end else Unexpected(peer.end)), false)
      else if f.ftype == SETTINGS then
        if |f.payload| > MAX_SETTINGS then Delivery([], SettingsTooLarge, false)
        else Delivery([], IO(if peer.end == UnexpectedEOF then EOF else peer.end), false)
      else if IsReserved(f.ftype) then Delivery([], ReservedFrame(f.ftype), false)
      else Delivery([], IO(peer.end), false)
  }

  function Bytes(f: Frame): seq<byte> { if f.ftype == DATA then f.payload else [] }

  /** The DATA payloads in order, up to the end of the stream or the first frame that is refused. */
  function Meaning(fs: seq<Frame>, cut: Option<Broken>, trailer: bool, peer: Peer): (d: Delivery)
    requires LegalCut(cut)
    ensures d.err != TooMuchData
    ensures d.truncated ==> cut.Some? && cut.value.HasHeader() && cut.value.frame.ftype == DATA
    decreases |fs|
  {
    if fs == [] then EndMeaning(cut, trailer, peer)
    else
      match Refusal(fs[0], trailer, peer)
      case Some(e) => Delivery([], e, false)
      case None => Behind(Bytes(fs[0]), Meaning(fs[1..], cut, trailer || fs[0].ftype == HEADERS, peer))
  }

  // ------------------------------------------------------------ reading them back

  lemma HeaderRead(f: Frame, more: seq<byte>, end: IOError)
    requires f.Legal()
    ensures NextFrame(f.Header() + more, end) ==
      if f.ftype == DATA then (Ok(DataFrame(|f.payload|)), more)
      else if f.ftype == HEADERS then (Ok(HeadersFrame(|f.payload|)), more)
      else if f.ftype == SETTINGS then ParseSettings(more, |f.payload|, end)
      else if IsReserved(f.ftype) then (Err(ReservedFrame(f.ftype)), more)
      else if |more| < |f.payload| then (Err(IO(end)), [])
      else NextFrame(more[|f.payload|..], end)
  {
    var l := Enc(|f.payload|, f.lengthLen);
    assert f.Header() + more == Enc(f.ftype, f.typeLen) + (l + more);
    ReadInvertsEnc(f.ftype, f.typeLen, l + more, end);
    ReadInvertsEnc(|f.payload|, f.lengthLen, more, end);
  }

  lemma WholeSettings(payload: seq<byte>, rest: seq<byte>, end: IOError)
    ensures var (r, _) := ParseSettings(payload + rest, |payload|, end);
      (if r.Ok? then UnexpectedFrame else r.error) == SettingsError(payload)
      && (r.Ok? ==> r.value.SettingsFrame?)
  {
    assert (payload + rest)[..|payload|] == payload;
  }

  /** What the stream's reader makes of the result of parsing a frame. */
  lemma DemuxSame(input: seq<byte>, rest: seq<byte>, trailer: bool, peer: Peer)
    requires NextFrame(input, peer.end) == NextFrame(rest, peer.end)
    ensures DemuxFrame(trailer, input, peer) == DemuxFrame(trailer, rest, peer)
  {
  }

  lemma NothingBehind(d: Delivery)
    ensures Behind([], d) == d
  {
  }

  lemma DataDemux(f: Frame, rest: seq<byte>, peer: Peer)
    requires f.Legal() && f.ftype == DATA
    ensures DemuxFrame(false, f.Header() + (f.payload + rest), peer) == Behind(f.payload, DemuxFrame(false, rest, peer))
    ensures DemuxFrame(true, f.Header() + (f.payload + rest), peer) == Delivery([], DataAfterTrailers, false)
  {
    var more := f.payload + rest;
    HeaderRead(f, more, peer.end);
    assert more[..|f.payload|] == f.payload && more[|f.payload|..] == rest;
    NothingBehind(DemuxFrame(false, rest, peer));
  }

  lemma FrameDemux(f: Frame, rest: seq<byte>, trailer: bool, peer: Peer)
    requires f.Legal()
    ensures DemuxFrame(trailer, f.Wire() + rest, peer) ==
      match Refusal(f, trailer, peer)
      case Some(e) => Delivery([], e, false)
      case None => Behind(Bytes(f), DemuxFrame(trailer || f.ftype == HEADERS, rest, peer))
  {
    var more := f.payload + rest;
    assert f.Wire() + rest == f.Header() + more;
    HeaderRead(f, more, peer.end);
    if f.ftype == DATA {
      DataDemux(f, rest, peer);
    } else if f.ftype == HEADERS {
      TrailersRead(f.payload, rest, peer);
      NothingBehind(DemuxFrame(true, rest, peer));
    } else if f.ftype == SETTINGS {
      WholeSettings(f.payload, rest, peer.end);
    } else if !IsReserved(f.ftype) {
      assert more[|f.payload|..] == rest;
      DemuxSame(f.Wire() + rest, rest, trailer, peer);
      NothingBehind(DemuxFrame(trailer, rest, peer));
    }
  }

  lemma BrokenNumber(i: nat, l: nat, n: nat, end: IOError)
    requires LegalLength(l) && i <= MaxOf(l) && n < l
    ensures ReadFrom(Enc(i, l)[..n], end) == (Err(end), [])
  {
    if n > 0 {
      ParseInvertsEnc(i, l, []);
      assert Enc(i, l) + [] == Enc(i, l) && Enc(i, l)[..n][0] == Enc(i, l)[0];
    }
  }

  lemma BrokenHeader(f: Frame, n: nat, end: IOError)
    requires f.Legal() && n < f.typeLen + f.lengthLen
    ensures NextFrame(f.Header()[..n], end) == (Err(IO(end)), [])
  {
    var t, l := Enc(f.ftype, f.typeLen), Enc(|f.payload|, f.lengthLen);
    if n < f.typeLen {
      assert f.Header()[..n] == t[..n];
      BrokenNumber(f.ftype, f.typeLen, n, end);
    } else {
      assert f.Header()[..n] == t + l[..n - f.typeLen];
      ReadInvertsEnc(f.ftype, f.typeLen, l[..n - f.typeLen], end);
      BrokenNumber(|f.payload|, f.lengthLen, n - f.typeLen, end);
    }
  }

  lemma EndDemux(cut: Option<Broken>, trailer: bool, peer: Peer)
    requires LegalCut(cut)
    ensures DemuxFrame(trailer, MessageWire([], cut), peer) == EndMeaning(cut, trailer, peer)
  {
    if cut.None? {
      EmptyDemux(trailer, peer);
    } else if !cut.value.HasHeader() {
      var f, n := cut.value.frame, cut.value.arrived;
      assert f.Wire()[..n] == f.Header()[..n];
      BrokenHeader(f, n, peer.end);
    } else {
      BrokenDemux(cut.value, trailer, peer);
    }
  }

  lemma BrokenDemux(b: Broken, trailer: bool, peer: Peer)
    requires b.Legal() && b.HasHeader()
    ensures DemuxFrame(trailer, b.frame.Wire()[..b.arrived], peer) == EndMeaning(Some(b), trailer, peer)
  {
    var f, sent := b.frame, b.Payload();
    assert f.Wire()[..b.arrived] == f.Header() + sent;
    HeaderRead(f, sent, peer.end);
    if f.ftype == DATA {
      assert Demux(|f.payload|, false, sent, peer) == Delivery(sent, IO(peer.end), true);
    }
  }

  /**
   * Main result: reading back any sequence of frames, whole but for a broken one at the end, delivers what they mean.
   */
  lemma {:induction false} DemuxIsMeaning(fs: seq<Frame>, cut: Option<Broken>, trailer: bool, peer: Peer)
    requires AllLegal(fs) && LegalCut(cut)
    ensures DemuxFrame(trailer, MessageWire(fs, cut), peer) == Meaning(fs, cut, trailer, peer)
    decreases |fs|
  {
    if fs == [] {
      EndDemux(cut, trailer, peer);
    } else {
      FrameDemux(fs[0], MessageWire(fs[1..], cut), trailer, peer);
      DemuxIsMeaning(fs[1..], cut, trailer || fs[0].ftype == HEADERS, peer);
    }
  }

  lemma OneByteNumber(b: byte, more: seq<byte>, end: IOError)
    requires b < 64
    ensures ReadFrom([b] + more, end) == (Ok(b as nat), more)
  {
    NumberOfOne([b]);
    assert [b % 64] + ([b] + more)[1..1] == [b];
    assert ([b] + more)[1..] == more;
  }

  lemma TypeAndLength(t: byte, n: byte, more: seq<byte>, end: IOError)
    requires t < 64 && n < 64
    ensures ReadFrom([t, n] + more, end) == (Ok(t as nat), [n] + more)
    ensures ReadFrom([n] + more, end) == (Ok(n as nat), more)
  {
    assert [t, n] + more == [t] + ([n] + more);
    OneByteNumber(t, [n] + more, end);
    OneByteNumber(n, more, end);
  }

  /** Frames of up to 63 bytes, by the numbers of section 7.2 of RFC 9114. */
  lemma FrameOnTheWire(t: byte, n: byte, more: seq<byte>, end: IOError)
    requires t < 64 && n < 64
    ensures NextFrame([t, n] + more, end) ==
      if t == 0 then (Ok(DataFrame(n as nat)), more)
      else if t == 1 then (Ok(HeadersFrame(n as nat)), more)
      else if t == 4 then ParseSettings(more, n as nat, end)
      else if t == 2 || t == 6 || t == 8 || t == 9 then (Err(ReservedFrame(t as nat)), more)
      else if |more| < n as nat then (Err(IO(end)), [])
      else NextFrame(more[n as nat..], end)
  {
    TypeAndLength(t, n, more, end);
  }

  lemma OneSetting(id: byte, val: byte, more: seq<byte>, g: Gathered)
    requires id < 64 && val < 64
    ensures Gather([id, val] + more, g) ==
      match Apply(g, id as nat, val as nat)
      case Err(e) => Err(e)
      case Ok(g') => Gather(more, g')
  {
    TypeAndLength(id, val, more, EOF);
  }

  /** SETTINGS_H3_DATAGRAM is 0x33 and SETTINGS_ENABLE_CONNECT_PROTOCOL is 8. */
  lemma SettingsOnTheWire()
    ensures Gather([0x33, 1, 8, 1], NOTHING) == Ok(Gathered(Settings(true, true, map[]), true, true))
    ensures Gather([0x33, 0], NOTHING) == Ok(Gathered(Settings(false, false, map[]), true, false))
    ensures Gather([6, 1], NOTHING) == Ok(Gathered(Settings(false, false, map[6 := 1]), false, false))
  {
    assert [0x33, 1] + [8, 1] == [0x33, 1, 8, 1] && [8, 1] + [] == [8, 1];
    OneSetting(0x33, 1, [8, 1], NOTHING);
    OneSetting(8, 1, [], Gathered(Settings(true, false, map[]), true, false));
    assert [0x33, 0] + [] == [0x33, 0] && [6, 1] + [] == [6, 1];
    OneSetting(0x33, 0, [], NOTHING);
    OneSetting(6, 1, [], NOTHING);
  }

  /** Up to 8 KiB of them are read. */
  lemma SettingsTooLargeIff(input: seq<byte>, l: nat, end: IOError)
    ensures ParseSettings(input, l, end).0 == Err(SettingsTooLarge) <==> l > 8192
  {
    GatherIsNotTooLarge(input[..if l <= |input| then l else 0], NOTHING);
  }

  lemma {:induction false} GatherIsNotTooLarge(b: seq<byte>, g: Gathered)
    ensures Gather(b, g) != Err(SettingsTooLarge)
    decreases |b|
  {
    if b != [] {
      var (id, r1) := ReadFrom(b, EOF);
      if id.Ok? {
        var (val, r2) := ReadFrom(r1, EOF);
        if val.Ok? && Apply(g, id.value, val.value).Ok? {
          GatherIsNotTooLarge(r2, Apply(g, id.value, val.value).value);
        }
      }
    }
  }

  /** And as they are written. */
  lemma DataOnTheWire(payload: seq<byte>)
    requires |payload| < 64
    ensures Data(payload).Wire() == [0, |payload| as byte] + payload
  {
    OneByteEncoding(0);
    OneByteEncoding(|payload|);
  }

  lemma OneByteEncoding(n: nat)
    requires n < 64
    ensures Enc(n, 1) == [n as byte]
  {
    assert Varint.Bytes(n, 1) == [B(n)];
  }

  // ------------------------------------------------------------ any bytes are such a message

  /** A number that has no end yet is the beginning of some encoding. */
  lemma CompleteNumber(b: seq<byte>) returns (i: nat, l: nat)
    requires b != [] && Parsed(b).Err?
    ensures LegalLength(l) && i <= MaxOf(l) && |b| < l && Enc(i, l)[..|b|] == b
  {
    l := LengthOf(b[0]);
    var padded := b + MachineInts.Zeros(l - |b|);
    i := Parsed(padded).value.0;
    EncInvertsParse(padded);
    assert padded[..l] == padded;
  }

  lemma TakeNumber(input: seq<byte>) returns (i: nat, l: nat, rest: seq<byte>)
    requires Parsed(input).Ok?
    ensures LegalLength(l) && i <= MaxOf(l) && Parsed(input) == Ok((i, l)) && rest == input[l..]
    ensures input == Enc(i, l) + rest
  {
    i, l := Parsed(input).value.0, Parsed(input).value.1;
    EncInvertsParse(input);
    assert input == input[..l] + input[l..];
    rest := input[l..];
  }

  lemma BreakPayload(t: nat, tl: nat, n: nat, l: nat, sent: seq<byte>) returns (b: Broken)
    requires LegalLength(tl) && t <= MaxOf(tl) && LegalLength(l) && |sent| < n <= MaxOf(l)
    ensures b.Legal() && b.frame.Wire()[..b.arrived] == Enc(t, tl) + (Enc(n, l) + sent)
  {
    var unsent := MachineInts.Zeros(n - |sent|);
    var f := Frame(t, sent + unsent, tl, l);
    b := Broken(f, tl + l + |sent|);
    assert f.Wire() == Enc(t, tl) + (Enc(n, l) + sent) + unsent;
  }

  lemma PrefixOf(a: seq<byte>, b: seq<byte>, c: seq<byte>, n: nat)
    requires n <= |b|
    ensures (a + b + c)[..|a| + n] == a + b[..n]
  {
    assert a + b + c == a + b[..n] + (b[n..] + c);
  }

  lemma BreakLength(t: nat, tl: nat, part: seq<byte>) returns (b: Broken)
    requires LegalLength(tl) && t <= MaxOf(tl) && (part != [] ==> Parsed(part).Err?)
    ensures b.Legal() && b.frame.Wire()[..b.arrived] == Enc(t, tl) + part
  {
    var n, l := 0, 1;
    if part != [] {
      n, l := CompleteNumber(part);
    }
    var f := Frame(t, MachineInts.Zeros(n), tl, l);
    b := Broken(f, tl + |part|);
    PrefixOf(Enc(t, tl), Enc(n, l), f.payload, |part|);
    if part == [] {
      assert Enc(n, l)[..0] == part;
    }
  }

  lemma BreakType(part: seq<byte>) returns (b: Broken)
    requires part != [] && Parsed(part).Err?
    ensures b.Legal() && b.frame.Wire()[..b.arrived] == part
  {
    var t, l := CompleteNumber(part);
    var f := Frame(t, [], l, 1);
    b := Broken(f, |part|);
    PrefixOf([], Enc(t, l), Enc(0, 1), |part|);
    assert f.Wire() == [] + Enc(t, l) + Enc(0, 1);
  }

  /** The next frame of a stream, whole or broken off. */
  lemma NextOf(input: seq<byte>) returns (f: Option<Frame>, rest: seq<byte>, b: Broken)
    requires input != []
    ensures if f.Some? then f.value.Legal() && input == f.value.Wire() + rest && |rest| < |input|
            else b.Legal() && b.frame.Wire()[..b.arrived] == input
  {
    f, rest := None, [];
    if Parsed(input).Err? {
      b := BreakType(input);
    } else {
      var t, tl, r := TakeNumber(input);
      if r == [] || Parsed(r).Err? {
        b := BreakLength(t, tl, r);
      } else {
        var n, l, r' := TakeNumber(r);
        if |r'| < n {
          b := BreakPayload(t, tl, n, l, r');
        } else {
          rest := r'[n..];
          b := Broken(Data([]), 1);
          f := Some(Frame(t, r'[..n], tl, l));
          Regroup(Enc(t, tl), Enc(n, l), r', n);
        }
      }
    }
  }

  lemma Regroup(a: seq<byte>, b: seq<byte>, c: seq<byte>, n: nat)
    requires n <= |c|
    ensures a + (b + c) == a + b + c[..n] + c[n..]
  {
  }

  /** Whatever bytes a peer sends are frames, with perhaps a broken one at the end. */
  lemma {:induction false} EveryStreamIsFrames(input: seq<byte>) returns (fs: seq<Frame>, cut: Option<Broken>)
    ensures AllLegal(fs) && LegalCut(cut) && MessageWire(fs, cut) == input
    decreases |input|
  {
    fs, cut := [], None;
    if input != [] {
      var f, rest, b := NextOf(input);
      if f.Some? {
        var more;
        more, cut := EveryStreamIsFrames(rest);
        fs := [f.value] + more;
        assert fs[1..] == more;
      } else {
        cut := Some(b);
      }
    }
  }

  // ------------------------------------------------------------ messages in order

  function Payloads(fs: seq<Frame>): seq<byte> { if fs == [] then [] else Bytes(fs[0]) + Payloads(fs[1..]) }

  predicate HasTrailers(fs: seq<Frame>) { exists i :: 0 <= i < |fs| && fs[i].ftype == HEADERS }

  /** DATA, a frame to skip, or trailers that decode. */
  predicate Fine(f: Frame, peer: Peer) {
    f.ftype == DATA || IsSkipped(f.ftype)
    || (f.ftype == HEADERS && |f.payload| <= peer.maxHeaderBytes && peer.decodes(f.payload))
  }

  predicate AllSkipped(fs: seq<Frame>) { forall i :: 0 <= i < |fs| ==> IsSkipped(fs[i].ftype) }

  /** Only such frames, and behind trailers only frames to skip. */
  predicate InOrder(fs: seq<Frame>, peer: Peer) {
    && (forall i :: 0 <= i < |fs| ==> Fine(fs[i], peer))
    && (forall i, j :: 0 <= i < j < |fs| && fs[i].ftype == HEADERS ==> IsSkipped(fs[j].ftype))
  }

  /** The same behind what came before, with or without trailers. */
  predicate Follows(fs: seq<Frame>, trailer: bool, peer: Peer) { InOrder(fs, peer) && (trailer ==> AllSkipped(fs)) }

  lemma AllSkippedCons(f: Frame, fs: seq<Frame>)
    ensures AllSkipped([f] + fs) <==> IsSkipped(f.ftype) && AllSkipped(fs)
  {
    var all := [f] + fs;
    assert all[0] == f && forall i :: 0 <= i < |fs| ==> all[i + 1] == fs[i];
  }

  lemma InOrderTail(f: Frame, fs: seq<Frame>, peer: Peer)
    requires InOrder([f] + fs, peer)
    ensures Fine(f, peer) && InOrder(fs, peer) && (f.ftype == HEADERS ==> AllSkipped(fs))
  {
    var all := [f] + fs;
    assert all[0] == f;
    forall j | 0 <= j < |fs|
      ensures Fine(fs[j], peer) && (f.ftype == HEADERS ==> IsSkipped(fs[j].ftype))
      ensures forall i :: 0 <= i < j && fs[i].ftype == HEADERS ==> IsSkipped(fs[j].ftype)
    {
      assert all[j + 1] == fs[j] && forall i :: 0 <= i < j ==> all[i + 1] == fs[i];
    }
  }

  lemma InOrderCons(f: Frame, fs: seq<Frame>, peer: Peer)
    ensures InOrder([f] + fs, peer) <==> Fine(f, peer) && InOrder(fs, peer) && (f.ftype == HEADERS ==> AllSkipped(fs))
  {
    if InOrder([f] + fs, peer) {
      InOrderTail(f, fs, peer);
    }
  }

  lemma FollowsCons(f: Frame, fs: seq<Frame>, trailer: bool, peer: Peer)
    ensures Follows([f] + fs, trailer, peer)
      <==> Refusal(f, trailer, peer).None? && Follows(fs, trailer || f.ftype == HEADERS, peer)
  {
    InOrderCons(f, fs, peer);
    AllSkippedCons(f, fs);
  }

  lemma PayloadsCons(f: Frame, fs: seq<Frame>)
    ensures Payloads([f] + fs) == Bytes(f) + Payloads(fs)
    ensures HasTrailers([f] + fs) <==> f.ftype == HEADERS || HasTrailers(fs)
  {
    var all := [f] + fs;
    assert all[0] == f && all[1..] == fs;
    if HasTrailers(fs) {
      var i :| 0 <= i < |fs| && fs[i].ftype == HEADERS;
      assert all[i + 1].ftype == HEADERS;
    }
  }

  lemma MeaningCons(f: Frame, fs: seq<Frame>, cut: Option<Broken>, trailer: bool, peer: Peer)
    requires LegalCut(cut) && Refusal(f, trailer, peer).None?
    ensures Meaning([f] + fs, cut, trailer, peer)
      == Behind(Bytes(f), Meaning(fs, cut, trailer || f.ftype == HEADERS, peer))
  {
    assert ([f] + fs)[1..] == fs;
  }

  /** Frames in order mean their payloads, and then whatever comes. */
  lemma {:induction false} InOrderMeans(fs: seq<Frame>, more: seq<Frame>, cut: Option<Broken>, trailer: bool,
                                        peer: Peer)
    requires LegalCut(cut) && Follows(fs, trailer, peer)
    ensures Meaning(fs + more, cut, trailer, peer)
      == Behind(Payloads(fs), Meaning(more, cut, trailer || HasTrailers(fs), peer))
    decreases |fs|
  {
    if fs == [] {
      assert fs + more == more;
    } else {
      var f, rest := fs[0], fs[1..];
      assert fs == [f] + rest && fs + more == [f] + (rest + more);
      FollowsCons(f, rest, trailer, peer);
      PayloadsCons(f, rest);
      MeaningCons(f, rest + more, cut, trailer, peer);
      InOrderMeans(rest, more, cut, trailer || f.ftype == HEADERS, peer);
      BehindTwice(Bytes(f), Payloads(rest), Meaning(more, cut, trailer || HasTrailers(fs), peer));
    }
  }

  lemma BehindTwice(a: seq<byte>, b: seq<byte>, d: Delivery)
    ensures Behind(a, Behind(b, d)) == Behind(a + b, d)
  {
    assert a + (b + d.data) == a + b + d.data;
  }

  /** The first frame that is not in order, if there is one. */
  lemma {:induction false} FirstRefused(fs: seq<Frame>, trailer: bool, peer: Peer) returns (k: nat)
    requires !Follows(fs, trailer, peer)
    ensures k < |fs| && Follows(fs[..k], trailer, peer)
    ensures Refusal(fs[k], trailer || HasTrailers(fs[..k]), peer).Some?
    decreases |fs|
  {
    if fs == [] {
      assert false;
    } else {
      var f, rest := fs[0], fs[1..];
      assert [f] + rest == fs;
      FollowsCons(f, rest, trailer, peer);
      if Refusal(f, trailer, peer).Some? {
        k := 0;
      } else {
        k := FirstRefused(rest, trailer || f.ftype == HEADERS, peer);
        assert fs[..k + 1] == [f] + rest[..k];
        FollowsCons(f, rest[..k], trailer, peer);
        PayloadsCons(f, rest[..k]);
        k := k + 1;
      }
    }
  }

  // ------------------------------------------------------------ the body of such a message

  /** What the body delivers, with or without a Content-Length. */
  function BodyOf(fs: seq<Frame>, cut: Option<Broken>, limit: Option<nat>, peer: Peer): Delivery
    requires AllLegal(fs) && LegalCut(cut)
  {
    var all := Demux(0, false, MessageWire(fs, cut), peer);
    if limit.None? then all else Cut(all, limit.value)
  }

  predicate Within(n: nat, limit: Option<nat>) { limit.Some? ==> n <= limit.value }

  /**
   * A prefix of all within the Content-Length: all of it and its error, or errTooMuchData at the limit, if and only if
   * there is more than that. A DATA frame that was broken off has one byte more at least.
   */
  predicate Bounds(data: seq<byte>, err: Http3Error, all: Delivery, limit: Option<nat>) {
    && data <= all.data && Within(|data|, limit)
    && (err == TooMuchData <==> !Within(|all.data| + if all.truncated then 1 else 0, limit))
    && if err == TooMuchData then Some(|data|) == limit else data == all.data && err == all.err
  }

  lemma BodyWithin(fs: seq<Frame>, cut: Option<Broken>, limit: Option<nat>, peer: Peer)
    requires AllLegal(fs) && LegalCut(cut)
    ensures var body := BodyOf(fs, cut, limit, peer);
      Bounds(body.data, body.err, Meaning(fs, cut, false, peer), limit)
  {
    DemuxIsMeaning(fs, cut, false, peer);
  }

  /**
   * Of whole frames, a body delivers a prefix of what they mean that is within the Content-Length; it ends in
   * errTooMuchData if and only if they mean more, and otherwise delivers all of it and its error.
   */
  lemma BodyIsBounded(fs: seq<Frame>, limit: Option<nat>, peer: Peer)
    requires AllLegal(fs)
    ensures var all, body := Meaning(fs, None, false, peer), BodyOf(fs, None, limit, peer);
      body.data <= all.data && Within(|body.data|, limit)
      && (body.err == TooMuchData <==> !Within(|all.data|, limit))
      && (Within(|all.data|, limit) ==> body.data == all.data && body.err == all.err)
  {
    DemuxIsMeaning(fs, None, false, peer);
  }

  /** A peer that sends more, in whatever frame the excess is, never gets a clean end. */
  lemma ExcessIsRefused(limit: nat, fs: seq<Frame>, cut: Option<Broken>, peer: Peer)
    requires AllLegal(fs) && LegalCut(cut) && |Meaning(fs, cut, false, peer).data| > limit
    ensures BodyOf(fs, cut, Some(limit), peer)
      == Delivery(Meaning(fs, cut, false, peer).data[..limit], TooMuchData, false)
  {
    DemuxIsMeaning(fs, cut, false, peer);
  }

  // ------------------------------------------------------------ clean ends

  /** A DATA frame is broken off behind its header. */
  predicate CutsData(cut: Option<Broken>) { cut.Some? && cut.value.HasHeader() && cut.value.frame.ftype == DATA }

  function CutBytes(cut: Option<Broken>): seq<byte>
    requires LegalCut(cut)
  {
    if CutsData(cut) then cut.value.Payload() else []
  }

  /** The stream ends in io.EOF, and what it breaks off raises no other error. */
  predicate QuietEnd(cut: Option<Broken>, trailer: bool, peer: Peer)
    requires LegalCut(cut)
  {
    if cut.None? || !cut.value.HasHeader() || IsSkipped(cut.value.frame.ftype) then peer.end == EOF
    else
      var f := cut.value.frame;
      if f.ftype == DATA then peer.end == EOF && !trailer
      else if f.ftype == HEADERS then
        peer.end == EOF && !trailer && |f.payload| <= peer.maxHeaderBytes && cut.value.Payload() == []
      else f.ftype == SETTINGS && |f.payload| <= MAX_SETTINGS && (peer.end == EOF || peer.end == UnexpectedEOF)
  }

  /** A SETTINGS payload that ends inside a setting, with no error before. */
  predicate EndsInSetting(payload: seq<byte>) {
    |payload| <= MAX_SETTINGS && Gather(payload, NOTHING) == Err(IO(EOF))
  }

  /** The first k frames are in order, and then io.EOF comes: from the stream, or out of a SETTINGS frame. */
  predicate CleanAt(fs: seq<Frame>, k: nat, cut: Option<Broken>, peer: Peer)
    requires LegalCut(cut)
  {
    && k <= |fs| && InOrder(fs[..k], peer)
    && if k == |fs| then QuietEnd(cut, HasTrailers(fs[..k]), peer)
       else fs[k].ftype == SETTINGS && EndsInSetting(fs[k].payload)
  }

  function CutAt(fs: seq<Frame>, k: nat, cut: Option<Broken>): Option<Broken> { if k == |fs| then cut else None }

  lemma CleanAtMeans(fs: seq<Frame>, k: nat, cut: Option<Broken>, peer: Peer)
    requires LegalCut(cut) && CleanAt(fs, k, cut, peer)
    ensures var at := CutAt(fs, k, cut);
      Meaning(fs, cut, false, peer) == Delivery(Payloads(fs[..k]) + CutBytes(at), IO(EOF), CutsData(at))
  {
    assert fs == fs[..k] + fs[k..];
    InOrderMeans(fs[..k], fs[k..], cut, false, peer);
    if k < |fs| {
      assert Meaning(fs[k..], cut, HasTrailers(fs[..k]), peer) == Delivery([], IO(EOF), false);
    }
  }

  lemma CleanAtEnd(fs: seq<Frame>, cut: Option<Broken>, peer: Peer)
    requires LegalCut(cut) && InOrder(fs, peer) && Meaning(fs, cut, false, peer).err == IO(EOF)
    ensures CleanAt(fs, |fs|, cut, peer)
  {
    assert fs[..|fs|] == fs && fs + [] == fs;
    InOrderMeans(fs, [], cut, false, peer);
  }

  lemma CleanAtRefusal(fs: seq<Frame>, cut: Option<Broken>, peer: Peer) returns (k: nat)
    requires LegalCut(cut) && !InOrder(fs, peer) && Meaning(fs, cut, false, peer).err == IO(EOF)
    ensures CleanAt(fs, k, cut, peer)
  {
    k := FirstRefused(fs, false, peer);
    var front, back := fs[..k], fs[k..];
    assert fs == front + back && back[0] == fs[k];
    InOrderMeans(front, back, cut, false, peer);
    assert Meaning(back, cut, HasTrailers(front), peer).err == IO(EOF);
    RefusedAsEOF(fs[k], HasTrailers(front), peer);
  }

  lemma RefusedAsEOF(f: Frame, trailer: bool, peer: Peer)
    requires Refusal(f, trailer, peer) == Some(IO(EOF))
    ensures f.ftype == SETTINGS && EndsInSetting(f.payload)
  {
  }

  lemma FindClean(fs: seq<Frame>, cut: Option<Broken>, peer: Peer) returns (k: nat)
    requires LegalCut(cut) && Meaning(fs, cut, false, peer).err == IO(EOF)
    ensures CleanAt(fs, k, cut, peer)
  {
    if InOrder(fs, peer) {
      CleanAtEnd(fs, cut, peer);
      k := |fs|;
    } else {
      k := CleanAtRefusal(fs, cut, peer);
    }
  }

  /** The Content-Length leaves room for what comes up to there; a DATA frame broken off needs one byte more. */
  predicate Fits(fs: seq<Frame>, k: nat, cut: Option<Broken>, limit: Option<nat>)
    requires LegalCut(cut) && k <= |fs|
  {
    var at := CutAt(fs, k, cut);
    Within(|Payloads(fs[..k])| + |CutBytes(at)| + if CutsData(at) then 1 else 0, limit)
  }

  lemma CleanBody(fs: seq<Frame>, k: nat, cut: Option<Broken>, limit: Option<nat>, peer: Peer)
    requires AllLegal(fs) && LegalCut(cut) && CleanAt(fs, k, cut, peer)
    ensures var body := BodyOf(fs, cut, limit, peer);
      (body.err == IO(EOF) <==> Fits(fs, k, cut, limit))
      && (body.err == IO(EOF) ==> body.data == Payloads(fs[..k]) + CutBytes(CutAt(fs, k, cut)))
  {
    CleanAtMeans(fs, k, cut, peer);
    DemuxIsMeaning(fs, cut, false, peer);
  }

  /**
   * Main result on clean ends, with or without a Content-Length and wherever the stream breaks off: the body ends in
   * io.EOF if and only if, behind frames in order, the stream ends quietly or a SETTINGS frame ends inside a setting,
   * and the DATA payloads up to there are within the Content-Length.
   */
  lemma CleanEndIff(fs: seq<Frame>, cut: Option<Broken>, limit: Option<nat>, peer: Peer)
    requires AllLegal(fs) && LegalCut(cut)
    ensures BodyOf(fs, cut, limit, peer).err == IO(EOF)
      <==> exists k :: CleanAt(fs, k, cut, peer) && Fits(fs, k, cut, limit)
  {
    if BodyOf(fs, cut, limit, peer).err == IO(EOF) {
      DemuxIsMeaning(fs, cut, false, peer);
      var k := FindClean(fs, cut, peer);
      CleanBody(fs, k, cut, limit, peer);
    }
    if k :| CleanAt(fs, k, cut, peer) && Fits(fs, k, cut, limit) {
      CleanBody(fs, k, cut, limit, peer);
    }
  }

  // ------------------------------------------------------------ clean ends that hide something

  /** A message as sections 4.1, 4.1.2 and 7.1 of RFC 9114 want it: whole, in order, and as long as it says. */
  predicate Complete(fs: seq<Frame>, cut: Option<Broken>, limit: Option<nat>, peer: Peer) {
    peer.end == EOF && cut.None? && InOrder(fs, peer) && (limit.Some? ==> |Payloads(fs)| == limit.value)
  }

  predicate BreaksOff(fs: seq<Frame>, cut: Option<Broken>, limit: Option<nat>, peer: Peer)
    requires LegalCut(cut)
  {
    cut.Some? && CleanAt(fs, |fs|, cut, peer) && Fits(fs, |fs|, cut, limit)
  }

  predicate FallsShort(fs: seq<Frame>, cut: Option<Broken>, limit: Option<nat>, peer: Peer) {
    peer.end == EOF && cut.None? && InOrder(fs, peer) && limit.Some? && |Payloads(fs)| < limit.value
  }

  predicate HasEndlessSetting(fs: seq<Frame>, cut: Option<Broken>, limit: Option<nat>, peer: Peer)
    requires LegalCut(cut)
  {
    exists k :: 0 <= k < |fs| && CleanAt(fs, k, cut, peer) && Fits(fs, k, cut, limit)
  }

  /**
   * Main result on what the body vouches for: a complete message ends cleanly with all its payloads; and a clean end
   * is that of an incomplete one if and only if the stream breaks off unnoticed, or falls short of its
   * Content-Length, or holds a SETTINGS frame that ends inside a setting.
   */
  lemma CleanEndIsCompleteIff(fs: seq<Frame>, cut: Option<Broken>, limit: Option<nat>, peer: Peer)
    requires AllLegal(fs) && LegalCut(cut)
    ensures var body := BodyOf(fs, cut, limit, peer);
      (Complete(fs, cut, limit, peer) ==> body.err == IO(EOF) && body.data == Payloads(fs))
      && (body.err == IO(EOF) && !Complete(fs, cut, limit, peer)
          <==> BreaksOff(fs, cut, limit, peer) || FallsShort(fs, cut, limit, peer)
               || HasEndlessSetting(fs, cut, limit, peer))
  {
    assert fs[..|fs|] == fs;
    CleanEndIff(fs, cut, limit, peer);
    if CleanAt(fs, |fs|, cut, peer) {
      CleanBody(fs, |fs|, cut, limit, peer);
    }
    if HasEndlessSetting(fs, cut, limit, peer) {
      var k :| 0 <= k < |fs| && CleanAt(fs, k, cut, peer) && Fits(fs, k, cut, limit);
      assert !InOrder(fs, peer);
    }
  }

  /** Without a Content-Length, a DATA frame broken off anywhere. */
  lemma CutDataWithoutLength(fs: seq<Frame>, b: Broken, peer: Peer)
    requires AllLegal(fs) && b.Legal() && peer.end == EOF && InOrder(fs, peer)
    requires CutsData(Some(b)) && !HasTrailers(fs)
    ensures BodyOf(fs, Some(b), None, peer).err == IO(EOF) && BreaksOff(fs, Some(b), None, peer)
    ensures BodyOf(fs, Some(b), None, peer).data == Payloads(fs) + b.Payload()
  {
    assert fs[..|fs|] == fs;
    CleanBody(fs, |fs|, Some(b), None, peer);
  }

  /** A whole message that is too short for its Content-Length. */
  lemma ShortMessage(fs: seq<Frame>, limit: nat, peer: Peer)
    requires AllLegal(fs) && peer.end == EOF && InOrder(fs, peer) && |Payloads(fs)| < limit
    ensures BodyOf(fs, None, Some(limit), peer).err == IO(EOF) && FallsShort(fs, None, Some(limit), peer)
  {
    assert fs[..|fs|] == fs;
    CleanBody(fs, |fs|, None, Some(limit), peer);
  }

  /** With a Content-Length, a DATA frame broken off below it. */
  lemma CutDataBelowLength(fs: seq<Frame>, b: Broken, limit: nat, peer: Peer)
    requires AllLegal(fs) && b.Legal() && peer.end == EOF && InOrder(fs, peer)
    requires CutsData(Some(b)) && !HasTrailers(fs) && |Payloads(fs)| + |b.Payload()| < limit
    ensures BodyOf(fs, Some(b), Some(limit), peer).err == IO(EOF) && BreaksOff(fs, Some(b), Some(limit), peer)
  {
    assert fs[..|fs|] == fs;
    CleanBody(fs, |fs|, Some(b), Some(limit), peer);
  }

  /** Behind exactly Content-Length bytes, or any number without one: a frame broken off inside its header. */
  lemma CutHeader(fs: seq<Frame>, b: Broken, limit: Option<nat>, peer: Peer)
    requires AllLegal(fs) && b.Legal() && peer.end == EOF && InOrder(fs, peer) && Within(|Payloads(fs)|, limit)
    requires !b.HasHeader()
    ensures BodyOf(fs, Some(b), limit, peer).err == IO(EOF) && BreaksOff(fs, Some(b), limit, peer)
  {
    assert fs[..|fs|] == fs;
    CleanBody(fs, |fs|, Some(b), limit, peer);
  }

  /** Likewise a frame to skip, broken off anywhere. */
  lemma CutSkipped(fs: seq<Frame>, b: Broken, limit: Option<nat>, peer: Peer)
    requires AllLegal(fs) && b.Legal() && peer.end == EOF && InOrder(fs, peer) && Within(|Payloads(fs)|, limit)
    requires IsSkipped(b.frame.ftype)
    ensures BodyOf(fs, Some(b), limit, peer).err == IO(EOF) && BreaksOff(fs, Some(b), limit, peer)
  {
    assert fs[..|fs|] == fs;
    CleanBody(fs, |fs|, Some(b), limit, peer);
  }

  /** Likewise trailers that are announced and do not come; but io.ErrUnexpectedEOF if some of them do. */
  lemma CutTrailers(fs: seq<Frame>, b: Broken, limit: Option<nat>, peer: Peer)
    requires AllLegal(fs) && b.Legal() && peer.end == EOF && InOrder(fs, peer) && Within(|Payloads(fs)|, limit)
    requires b.HasHeader() && b.frame.ftype == HEADERS && !HasTrailers(fs) && |b.frame.payload| <= peer.maxHeaderBytes
    ensures BodyOf(fs, Some(b), limit, peer).err == IO(if b.Payload() == [] then EOF else UnexpectedEOF)
    ensures BreaksOff(fs, Some(b), limit, peer) <==> b.Payload() == []
  {
    assert fs[..|fs|] == fs && fs + [] == fs;
    InOrderMeans(fs, [], Some(b), false, peer);
    DemuxIsMeaning(fs, Some(b), false, peer);
  }

  /** Likewise a SETTINGS frame that is broken off, though a whole one is refused. */
  lemma CutSettings(fs: seq<Frame>, b: Broken, limit: Option<nat>, peer: Peer)
    requires AllLegal(fs) && b.Legal() && peer.end == EOF && InOrder(fs, peer) && Within(|Payloads(fs)|, limit)
    requires b.frame.ftype == SETTINGS && |b.frame.payload| <= MAX_SETTINGS
    ensures BodyOf(fs, Some(b), limit, peer).err == IO(EOF) && BreaksOff(fs, Some(b), limit, peer)
  {
    assert fs[..|fs|] == fs;
    CleanBody(fs, |fs|, Some(b), limit, peer);
  }

  /** A whole SETTINGS frame of one byte: the reader takes it for the end, and drops what follows. */
  lemma ShortSetting(fs: seq<Frame>, id: byte, more: seq<Frame>, limit: Option<nat>, peer: Peer)
    requires AllLegal(fs) && AllLegal(more) && InOrder(fs, peer) && Within(|Payloads(fs)|, limit)
    ensures var f := Frame(SETTINGS, [id], 1, 1);
      f.Legal() && AllLegal(fs + [f] + more) && HasEndlessSetting(fs + [f] + more, None, limit, peer)
      && BodyOf(fs + [f] + more, None, limit, peer).err == IO(EOF)
      && BodyOf(fs + [f] + more, None, limit, peer).data == Payloads(fs)
  {
    var f := Frame(SETTINGS, [id], 1, 1);
    var all := fs + [f] + more;
    assert all[..|fs|] == fs && all[|fs|] == f;
    OneByteSetting(id);
    assert CleanAt(all, |fs|, None, peer) && Fits(all, |fs|, None, limit);
    CleanBody(all, |fs|, None, limit, peer);
  }

  lemma OneByteSetting(id: byte)
    ensures EndsInSetting([id])
  {
    assert Parsed([]) == Err(EOF);
  }
}
