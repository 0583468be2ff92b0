/**
 * The parser, the stream and the body of an HTTP/3 message as the code has them (internal/http3/frames.go,
 * internal/http3/http_stream.go, internal/http3/body.go).
 */
module Http3Stream {
  import opened MachineInts
  import opened Wrappers
  import opened Sequences
  import opened Sinks
  import opened Varint
  import opened Http3Frames
  import opened Http3Body
  import opened Http3Message

  // ------------------------------------------------------------ parsing

  /** io.ReadFull. */
  method ReadFull(r: ByteReader, l: nat) returns (buf: seq<byte>, err: Option<IOError>)
    modifies r
    ensures |old(r.rest)| >= l ==> err == None && buf == old(r.rest)[..l] && r.rest == old(r.rest)[l..]
    ensures |old(r.rest)| < l ==> err == Some(if old(r.rest) == [] then r.end else Unexpected(r.end)) && r.rest == []
  {
    if |r.rest| >= l {
      buf, err := r.rest[..l], None;
      r.rest := r.rest[l..];
    } else {
      buf, err := r.rest, Some(if |r.rest| == 0 then r.end else Unexpected(r.end));
      r.rest := [];
    }
  }

  /** io.CopyN to io.Discard. */
  method Discard(r: ByteReader, l: nat) returns (err: Option<IOError>)
    modifies r
    ensures |old(r.rest)| >= l ==> err == None && r.rest == old(r.rest)[l..]
    ensures |old(r.rest)| < l ==> err == Some(r.end) && r.rest == []
  {
    if |r.rest| >= l {
      r.rest := r.rest[l..];
      return None;
    }
    r.rest := [];
    return Some(r.end);
  }

  /** The loop of parseSettingsFrame over the payload. */
  method GatherSettings(buf: seq<byte>) returns (f: Result<Settings, Http3Error>)
    ensures f == match Gather(buf, NOTHING) case Err(e) => Err(e) case Ok(g) => Ok(g.settings)
  {
    var b := new ByteReader(buf, EOF);
    var frame := Settings(false, false, map[]);
    var readDatagram, readExtendedConnect := false, false;
    while |b.rest| > 0
      invariant b.end == EOF
      invariant Gather(buf, NOTHING) == Gather(b.rest, Gathered(frame, readDatagram, readExtendedConnect))
      decreases |b.rest|
    {
      var id := b.Read();
      if id.Err? {
        return Err(IO(id.error));
      }
      var val := b.Read();
      if val.Err? {
        return Err(IO(val.error));
      }
      if id.value == SETTING_EXTENDED_CONNECT {
        if readExtendedConnect {
          return Err(DuplicateSetting(id.value));
        }
        readExtendedConnect := true;
        if val.value != 0 && val.value != 1 {
          return Err(InvalidSetting(id.value));
        }
        frame := frame.(extendedConnect := val.value == 1);
      } else if id.value == SETTING_DATAGRAM {
        if readDatagram {
          return Err(DuplicateSetting(id.value));
        }
        readDatagram := true;
        if val.value != 0 && val.value != 1 {
          return Err(InvalidSetting(id.value));
        }
        frame := frame.(datagram := val.value == 1);
      } else {
        if id.value in frame.other {
          return Err(DuplicateSetting(id.value));
        }
        frame := frame.(other := frame.other[id.value := val.value]);
      }
    }
    return Ok(frame);
  }

  method ParseSettingsFrame(r: ByteReader, l: nat) returns (f: Result<H3Frame, Http3Error>)
    modifies r
    ensures (f, r.rest) == ParseSettings(old(r.rest), l, r.end)
  {
    if l > MAX_SETTINGS {
      return Err(SettingsTooLarge);
    }
    ghost var input := r.rest;
    var buf, err := ReadFull(r, l);
    if err.Some? {
      return Err(IO(if err.value == UnexpectedEOF then EOF else err.value));
    }
    var settings := GatherSettings(buf);
    if settings.Err? {
      return Err(settings.error);
    }
    return Ok(SettingsFrame(settings.value));
  }

  method ParseNext(r: ByteReader) returns (f: Result<H3Frame, Http3Error>)
    modifies r
    ensures (f, r.rest) == NextFrame(old(r.rest), r.end)
  {
    while true
      invariant NextFrame(r.rest, r.end) == NextFrame(old(r.rest), r.end)
      decreases |r.rest|
    {
      var t := r.Read();
      if t.Err? {
        return Err(IO(t.error));
      }
      var l := r.Read();
      if l.Err? {
        return Err(IO(l.error));
      }
      if t.value == 0 {
        return Ok(DataFrame(l.value));
      } else if t.value == 1 {
        return Ok(HeadersFrame(l.value));
      } else if t.value == 4 {
        f := ParseSettingsFrame(r, l.value);
        return;
      } else if t.value == 2 || t.value == 6 || t.value == 8 || t.value == 9 {
        return Err(ReservedFrame(t.value));
      }
      var err := Discard(r, l.value);
      if err.Some? {
        return Err(IO(err.value));
      }
    }
  }

  // ------------------------------------------------------------ writing settings

  /** The first range over the map: the length of its pairs. */
  method SumLengths(f: Settings) returns (l: nat, ghost order: seq<nat>)
    requires Sendable(f)
    ensures IsOrder(order, f.other) && l == Weight(order, f.other)
  {
    l, order := 0, [];
    var todo := f.other.Keys;
    while todo != {}
      invariant Distinct(order) && (forall i :: 0 <= i < |order| ==> order[i] in f.other && order[i] !in todo)
      invariant todo <= f.other.Keys && forall id :: id in f.other ==> id in todo || id in order
      invariant l == Weight(order, f.other)
      decreases |todo|
    {
      var id :| id in todo;
      l := l + Len(id) + Len(f.other[id]);
      WeightPush(order, id, f.other);
      order := order + [id];
      todo := todo - {id};
    }
  }

  lemma {:induction false} WeightPush(order: seq<nat>, id: nat, m: map<nat, nat>)
    requires forall i :: 0 <= i < |order| ==> order[i] in m && order[i] <= MAX_8 && m[order[i]] <= MAX_8
    requires id in m && id <= MAX_8 && m[id] <= MAX_8
    ensures Weight(order + [id], m) == Weight(order, m) + Len(id) + Len(m[id])
  {
    if order == [] {
      assert [id][1..] == [];
    } else {
      assert (order + [id])[1..] == order[1..] + [id];
      WeightPush(order[1..], id, m);
    }
  }

  lemma {:induction false} PayloadPush(pairs: seq<(nat, nat)>, id: nat, val: nat)
    requires Fit(pairs) && id <= MAX_8 && val <= MAX_8
    ensures Fit(pairs + [(id, val)]) && Payload(pairs + [(id, val)]) == Payload(pairs) + (Var(id) + Var(val))
  {
    var p: (nat, nat) := (id, val);
    if pairs == [] {
      assert [p][1..] == [];
      assert Payload([p]) == Var(id) + Var(val) + Payload([p][1..]);
    } else {
      assert (pairs + [p])[1..] == pairs[1..] + [p];
      PayloadPush(pairs[1..], id, val);
    }
  }

  method AppendPair(b: seq<byte>, id: nat, val: nat) returns (r: seq<byte>)
    requires id <= MAX_8 && val <= MAX_8
    ensures r == b + (Var(id) + Var(val))
  {
    r := Append(b, id);
    r := Append(r, val);
  }

  lemma OthersPush(order: seq<nat>, id: nat, f: Settings)
    requires Sendable(f) && id in f.other && forall i :: 0 <= i < |order| ==> order[i] in f.other
    ensures Fit(PairsOf(order, f.other)) && Fit(PairsOf(order + [id], f.other))
    ensures Payload(PairsOf(order + [id], f.other)) == Payload(PairsOf(order, f.other)) + (Var(id) + Var(f.other[id]))
  {
    PayloadPush(PairsOf(order, f.other), id, f.other[id]);
    assert PairsOf(order + [id], f.other) == PairsOf(order, f.other) + [(id, f.other[id])];
  }

  /** The second range over the map. */
  method AppendOthers(b: seq<byte>, f: Settings) returns (r: seq<byte>, ghost order: seq<nat>)
    requires Sendable(f)
    ensures IsOrder(order, f.other) && Fit(PairsOf(order, f.other)) && r == b + Payload(PairsOf(order, f.other))
  {
    r, order := b, [];
    ghost var written: seq<byte> := [];
    var todo := f.other.Keys;
    while todo != {}
      invariant Distinct(order) && (forall i :: 0 <= i < |order| ==> order[i] in f.other && order[i] !in todo)
      invariant todo <= f.other.Keys && forall id :: id in f.other ==> id in todo || id in order
      invariant Fit(PairsOf(order, f.other)) && written == Payload(PairsOf(order, f.other)) && r == b + written
      decreases |todo|
    {
      var id :| id in todo;
      OthersPush(order, id, f);
      ghost var pair := Var(id) + Var(f.other[id]);
      Associates(b, written, pair);
      r := AppendPair(r, id, f.other[id]);
      written := written + pair;
      order := order + [id];
      todo := todo - {id};
    }
  }

  method SettingsLength(f: Settings) returns (l: nat, ghost order: seq<nat>)
    requires Sendable(f)
    ensures IsOrder(order, f.other) && l == |Payload(Pairs(f, order))|
  {
    l, order := SumLengths(f);
    if f.datagram {
      l := l + Len(SETTING_DATAGRAM) + Len(1);
    }
    if f.extendedConnect {
      l := l + Len(SETTING_EXTENDED_CONNECT) + Len(1);
    }
    LengthIs(f, order);
  }

  method AppendKnown(b: seq<byte>, f: Settings) returns (r: seq<byte>)
    ensures r == b + Payload(Known(f))
  {
    r := b;
    if f.datagram {
      r := AppendPair(r, SETTING_DATAGRAM, 1);
    }
    if f.extendedConnect {
      r := AppendPair(r, SETTING_EXTENDED_CONNECT, 1);
    }
    KnownPayload(f);
  }

  lemma AnyOrderSameLength(f: Settings, a: seq<nat>, c: seq<nat>)
    requires Sendable(f) && IsOrder(a, f.other) && IsOrder(c, f.other)
    ensures |Payload(Pairs(f, a))| == |Payload(Pairs(f, c))|
  {
    LengthIs(f, a);
    LengthIs(f, c);
    WeightOfAnyOrder(a, c, f.other);
  }

  /** settingsFrame.Append: the length it announces is the length it writes. */
  method AppendSettings(b: seq<byte>, f: Settings) returns (r: seq<byte>)
    requires Sendable(f) && forall o :: IsOrder(o, f.other) ==> |Payload(Pairs(f, o))| <= MAX_8
    ensures exists order ::
      IsOrder(order, f.other) && |Payload(Pairs(f, order))| <= MAX_8 && r == b + SettingsWire(f, order)
  {
    var l;
    ghost var first, order;
    l, first := SettingsLength(f);
    r := Append(b, 4);
    r := Append(r, l);
    r := AppendKnown(r, f);
    r, order := AppendOthers(r, f);
    AnyOrderSameLength(f, first, order);
    LengthIs(f, order);
    Associates(b + Var(4) + Var(l), Payload(Known(f)), Payload(PairsOf(order, f.other)));
    Associates(b + Var(4), Var(l), Payload(Pairs(f, order)));
    Associates(b, Var(4), Var(l) + Payload(Pairs(f, order)));
    Associates(Var(4), Var(l), Payload(Pairs(f, order)));
  }

  lemma {:induction false} PayloadAppend(a: seq<(nat, nat)>, c: seq<(nat, nat)>)
    requires Fit(a) && Fit(c)
    ensures Fit(a + c) && Payload(a + c) == Payload(a) + Payload(c)
    decreases |a|
  {
    if a == [] {
      assert a + c == c;
    } else {
      var head := Var(a[0].0) + Var(a[0].1);
      assert (a + c)[1..] == a[1..] + c;
      PayloadAppend(a[1..], c);
      Associates(head, Payload(a[1..]), Payload(c));
    }
  }

  lemma KnownPayload(f: Settings)
    ensures Fit(Known(f))
    ensures Payload(Known(f)) == (if f.datagram then Var(SETTING_DATAGRAM) + Var(1) else [])
      + (if f.extendedConnect then Var(SETTING_EXTENDED_CONNECT) + Var(1) else [])
  {
    var none: seq<(nat, nat)> := [];
    assert none + [(SETTING_DATAGRAM, 1)] == [(SETTING_DATAGRAM, 1)];
    PayloadPush(none, SETTING_DATAGRAM, 1);
    PayloadPush(none, SETTING_EXTENDED_CONNECT, 1);
    assert none + [(SETTING_EXTENDED_CONNECT, 1)] == [(SETTING_EXTENDED_CONNECT, 1)];
    PayloadPush([(SETTING_DATAGRAM, 1)], SETTING_EXTENDED_CONNECT, 1);
  }

  lemma LengthIs(f: Settings, order: seq<nat>)
    requires Sendable(f) && IsOrder(order, f.other)
    ensures Payload(Pairs(f, order)) == Payload(Known(f)) + Payload(PairsOf(order, f.other))
    ensures |Payload(Pairs(f, order))| == Weight(order, f.other)
      + (if f.datagram then Len(SETTING_DATAGRAM) + Len(1) else 0)
      + (if f.extendedConnect then Len(SETTING_EXTENDED_CONNECT) + Len(1) else 0)
  {
    PayloadAppend(Known(f), PairsOf(order, f.other));
    KnownPayload(f);
    WeightIsLength(order, f.other);
  }

  // ------------------------------------------------------------ the stream

  /** Read of the QUIC stream into b[..m]: any positive amount, perhaps together with the error at its end. */
  method QuicRead(r: ByteReader, b: array<byte>, m: nat) returns (n: nat, err: Option<IOError>)
    requires m <= b.Length
    modifies r, b
    ensures n <= m && n <= |old(r.rest)| && r.rest == old(r.rest)[n..] && b[..n] == old(r.rest)[..n]
    ensures err.Some? ==> err.value == r.end && r.rest == []
    ensures err.None? && m > 0 ==> n > 0
  {
    n := 0;
    if m > 0 && |r.rest| > 0 {
      n :| 0 < n <= m && n <= |r.rest|;
      var got := r.rest[..n];
      forall i | 0 <= i < n {
        b[i] := got[i];
      }
      r.rest := r.rest[n..];
    }
    var early: bool := *;
    err := if |r.rest| == 0 && (early || (m > 0 && n == 0)) then Some(r.end) else None;
  }

  /** A read that returned these bytes, with this error or the rest still to come, and more left in the frame or not. */
  predicate Delivers(before: Delivery, got: seq<byte>, after: Delivery, err: Option<Http3Error>, more: bool) {
    if err.Some? then before == Delivery(got, err.value, more) else before == Behind(got, after)
  }

  lemma DemuxSplitsOrStays(left: nat, n: nat, trailer: bool, input: seq<byte>, peer: Peer)
    requires n <= left && n <= |input|
    ensures Demux(left, trailer, input, peer) == Behind(input[..n], Demux(left - n, trailer, input[n..], peer))
  {
    if n > 0 {
      DemuxSplits(left, n, trailer, input, peer);
    } else {
      assert input[n..] == input && Behind([], Demux(left, trailer, input, peer)) == Demux(left, trailer, input, peer);
    }
  }

  /** After n bytes of the frame have been read. */
  lemma FrameDataRead(left: nat, n: nat, trailer: bool, input: seq<byte>, peer: Peer, e: Option<IOError>)
    requires n <= left && n <= |input| && (e.Some? ==> e.value == peer.end && input[n..] == [])
    ensures Delivers(Demux(left, trailer, input, peer), input[..n], Demux(left - n, trailer, input[n..], peer),
                     if e.Some? then Some(IO(e.value)) else None, left - n > 0)
  {
    DemuxSplitsOrStays(left, n, trailer, input, peer);
    if e.Some? {
      EmptyDemux(trailer, peer);
      assert Demux(left - n, trailer, [], peer) == Delivery([], IO(peer.end), left - n > 0);
      assert input[..n] + [] == input[..n];
    }
  }

  /** dataFrame.Append. */
  method DataHeader(length: nat) returns (buf: seq<byte>)
    requires length <= MAX_8
    ensures buf == Var(0) + Var(length)
  {
    buf := Append([], 0);
    buf := Append(buf, length);
  }

  class Stream {
    const r: ByteReader
    const peer: Peer
    const w: Sink
    var bytesRemainingInFrame: nat
    var parsedTrailer: bool

    ghost predicate Valid()
      reads this
    {
      peer.end == r.end && (parsedTrailer ==> bytesRemainingInFrame == 0)
    }

    ghost function Future(): Delivery
      reads this, r
    {
      Demux(bytesRemainingInFrame, parsedTrailer, r.rest, peer)
    }

    constructor (r: ByteReader, peer: Peer, w: Sink)
      requires peer.end == r.end
      ensures Valid() && this.r == r && this.w == w && this.peer == peer && bytesRemainingInFrame == 0 && !parsedTrailer
    {
      this.r, this.peer, this.w, bytesRemainingInFrame, parsedTrailer := r, peer, w, 0, false;
    }

    method ParseTrailer(l: nat) returns (err: Option<Http3Error>)
      requires Valid()
      modifies r
      ensures (err, r.rest) == ReadTrailers(old(r.rest), l, peer)
    {
      if l > peer.maxHeaderBytes {
        return Some(BadTrailers);
      }
      var b, e := ReadFull(r, l);
      if e.Some? {
        return Some(IO(e.value));
      }
      return if peer.decodes(b) then None else Some(BadTrailers);
    }

    /** Parses the next frame header: into a DATA frame, over trailers (done), or to an error. */
    method NextHeader() returns (done: bool, err: Option<Http3Error>)
      requires Valid() && bytesRemainingInFrame == 0
      modifies this, r
      ensures Valid() && |r.rest| <= |old(r.rest)|
      ensures err == None ==> old(Future()) == Future() && |r.rest| < |old(r.rest)|
      ensures err.Some? ==> old(Future()) == Delivery([], err.value, false) && bytesRemainingInFrame == 0
      ensures done ==> bytesRemainingInFrame == 0
      ensures !done ==> err == None
    {
      done := false;
      ghost var all := DemuxFrame(parsedTrailer, r.rest, peer);
      assert Future() == all;
      var f := ParseNext(r);
      if f.Err? {
        return true, Some(f.error);
      }
      match f.value {
        case DataFrame(l) =>
          if parsedTrailer {
            return true, Some(DataAfterTrailers);
          }
          bytesRemainingInFrame := l;
          return false, None;
        case HeadersFrame(l) =>
          if parsedTrailer {
            return true, Some(HeadersAfterTrailers);
          }
          parsedTrailer := true;
          err := ParseTrailer(l);
          return true, err;
        case SettingsFrame(_) =>
          return true, Some(UnexpectedFrame);
      }
    }

    /** Read into b[..m]. */
    method Read(b: array<byte>, m: nat) returns (n: nat, err: Option<Http3Error>)
      requires Valid() && m <= b.Length
      modifies this, r, b
      ensures Valid() && n <= m
      ensures Delivers(old(Future()), b[..n], Future(), err, bytesRemainingInFrame > 0)
      ensures err == None && (m > 0 || old(bytesRemainingInFrame) == 0) ==> |r.rest| < |old(r.rest)|
      ensures |r.rest| <= |old(r.rest)|
    {
      if bytesRemainingInFrame == 0 {
        var done, e := NextHeader();
        if done {
          assert e == None ==> old(Future()) == Behind([], Future());
          return 0, e;
        }
      }
      n, err := ReadFrameData(b, m);
    }

    method ReadFrameData(b: array<byte>, m: nat) returns (n: nat, err: Option<Http3Error>)
      requires Valid() && m <= b.Length
      modifies this`bytesRemainingInFrame, r, b
      ensures Valid() && n <= m
      ensures Delivers(old(Future()), b[..n], Future(), err, bytesRemainingInFrame > 0)
      ensures err == None && m > 0 && old(bytesRemainingInFrame) > 0 ==> |r.rest| < |old(r.rest)|
      ensures |r.rest| <= |old(r.rest)|
    {
      ghost var input, left := r.rest, bytesRemainingInFrame;
      var limit := if bytesRemainingInFrame < m then bytesRemainingInFrame else m;
      var e;
      n, e := QuicRead(r, b, limit);
      bytesRemainingInFrame := bytesRemainingInFrame - n;
      err := if e.Some? then Some(IO(e.value)) else None;
      assert b[..n] == input[..n] && r.rest == input[n..];
      FrameDataRead(left, n, parsedTrailer, input, peer, e);
    }

    method Write(b: seq<byte>) returns (n: nat, err: Option<IOError>)
      requires |b| <= MAX_8
      modifies w
      ensures w.conforms && err == None ==> n == |b| && w.out == old(w.out) + Data(b).Wire()
    {
      var buf := DataHeader(|b|);
      n, err := w.Write(buf);
      if err.Some? {
        return 0, err;
      }
      n, err := w.Write(b);
      if w.conforms && err == None {
        assert Data(b).Wire() == buf + b;
        Associates(old(w.out), buf, b);
      }
    }
  }

  // ------------------------------------------------------------ the body

  class Body {
    const str: Stream
    var remainingContentLength: int
    var violatedContentLength: bool
    const hasContentLength: bool

    ghost predicate Valid()
      reads this, str
    {
      str.Valid() && (hasContentLength ==> remainingContentLength >= 0)
    }

    /** All that the body still delivers. */
    ghost function Future(): Delivery
      requires Valid()
      reads this, str, str.r
    {
      if hasContentLength then Cut(str.Future(), remainingContentLength) else str.Future()
    }

    constructor (str: Stream, contentLength: int)
      requires str.Valid()
      ensures Valid() && this.str == str && hasContentLength == (contentLength >= 0)
      ensures hasContentLength ==> remainingContentLength == contentLength
    {
      this.str, violatedContentLength := str, false;
      hasContentLength := contentLength >= 0;
      remainingContentLength := if contentLength >= 0 then contentLength else 0;
    }

    method CheckContentLengthViolation() returns (violated: bool)
      requires Valid()
      modifies this`violatedContentLength
      ensures Valid()
      ensures violated <==> hasContentLength && remainingContentLength == 0 && str.bytesRemainingInFrame > 0
    {
      if !hasContentLength {
        return false;
      }
      if remainingContentLength < 0 || (remainingContentLength == 0 && str.bytesRemainingInFrame > 0) {
        violatedContentLength := true;
        return true;
      }
      return false;
    }

    /** Read: what it returns comes next, and the error it returns is the one the body ends with. */
    method Read(b: array<byte>) returns (n: nat, err: Option<Http3Error>)
      requires Valid()
      modifies this, str, str.r, b
      ensures Valid() && n <= b.Length
      ensures err == None ==> old(Future()) == Behind(b[..n], Future())
      ensures err.Some? ==> old(Future()).data == b[..n] && old(Future()).err == err.value
      ensures err == None && b.Length > 0 ==> |str.r.rest| < |old(str.r.rest)|
    {
      var violated := CheckContentLengthViolation();
      if violated {
        AlreadyTooMuch(str.Future());
        return 0, Some(TooMuchData);
      }
      var m := b.Length;
      if hasContentLength && remainingContentLength < m {
        m := remainingContentLength;
      }
      ghost var before, limit := str.Future(), remainingContentLength;
      n, err := str.Read(b, m);
      remainingContentLength := remainingContentLength - n;
      if hasContentLength {
        CutAfter(before, b[..n], str.Future(), limit, err, str.bytesRemainingInFrame > 0);
      }
      violated := CheckContentLengthViolation();
      if violated {
        return n, Some(TooMuchData);
      }
    }
  }

  lemma AlreadyTooMuch(d: Delivery)
    requires d.data != [] || d.truncated
    ensures Cut(d, 0) == Delivery([], TooMuchData, false)
  {
  }

  /** What the check after a read concludes is what the body was going to deliver. */
  lemma CutAfter(before: Delivery, got: seq<byte>, after: Delivery, limit: nat, err: Option<Http3Error>, more: bool)
    requires |got| <= limit
    requires err == None ==> before == Behind(got, after) && (more ==> after.data != [] || after.truncated)
    requires err.Some? ==> before == Delivery(got, err.value, more)
    ensures more && |got| == limit ==> Cut(before, limit) == Delivery(got, TooMuchData, false)
    ensures !(more && |got| == limit) && err.Some? ==> Cut(before, limit) == before
    ensures !(more && |got| == limit) && err == None ==> Cut(before, limit) == Behind(got, Cut(after, limit - |got|))
  {
  }

  /** Reads of any positive sizes, up to the first error, deliver exactly what the body has to. */
  method ReadBody(body: Body, sizes: nat -> nat) returns (data: seq<byte>, err: Http3Error)
    requires body.Valid() && forall i :: sizes(i) > 0
    modifies body, body.str, body.str.r
    ensures data == old(body.Future()).data && err == old(body.Future()).err
  {
    data := [];
    var i: nat := 0;
    ghost var all := body.Future();
    while true
      invariant body.Valid() && all == Behind(data, body.Future())
      decreases |body.str.r.rest|
    {
      var b := new byte[sizes(i)];
      ghost var next := body.Future();
      var n, e := body.Read(b);
      if e.Some? {
        data := data + b[..n];
        return data, e.value;
      }
      Associates(data, b[..n], body.Future().data);
      data := data + b[..n];
      i := i + 1;
    }
  }

  /**
   * Main result: reading any message, broken off or not, with reads of any positive sizes. The bytes are a prefix of
   * what it means, within the Content-Length if there is one; errTooMuchData ends them if and only if the peer
   * exceeded that; and otherwise they are all there, with the end the message means.
   */
  method ReadMessage(fs: seq<Frame>, cut: Option<Broken>, limit: Option<nat>, peer: Peer, sizes: nat -> nat)
      returns (data: seq<byte>, err: Http3Error)
    requires AllLegal(fs) && LegalCut(cut) && forall i :: sizes(i) > 0
    ensures data == BodyOf(fs, cut, limit, peer).data && err == BodyOf(fs, cut, limit, peer).err
    ensures Bounds(data, err, Meaning(fs, cut, false, peer), limit)
  {
    var r := new ByteReader(MessageWire(fs, cut), peer.end);
    var w := new Sink(true);
    var str := new Stream(r, peer, w);
    var body := new Body(str, if limit.Some? then limit.value else -1);
    assert body.Future() == BodyOf(fs, cut, limit, peer);
    BodyWithin(fs, cut, limit, peer);
    data, err := ReadBody(body, sizes);
  }

  /** The payloads of whole frames come back exactly when they are within the Content-Length. */
  method ReadWholeMessage(fs: seq<Frame>, limit: Option<nat>, peer: Peer, sizes: nat -> nat)
      returns (data: seq<byte>, err: Http3Error)
    requires AllLegal(fs) && forall i :: sizes(i) > 0
    ensures var all := Meaning(fs, None, false, peer);
      data <= all.data && Within(|data|, limit) && (err == TooMuchData <==> !Within(|all.data|, limit))
      && (Within(|all.data|, limit) ==> data == all.data && err == all.err)
  {
    data, err := ReadMessage(fs, None, limit, peer, sizes);
  }
}
