/**
 * Which bytes a response body returns (internal/http2/transport.go): its story, told by the events of the connection
 * and the results of its reads alone, and the proof that every read returns what the story says.
 */
module ReceiveBytes {
  import opened MachineInts
  import opened Wrappers
  import opened Flow
  import opened Pipe
  import opened ReceiveFlow

  /** Of one stream: what came, what was returned, and what ended it. */
  datatype Story = Story(
    received: seq<byte>,         // the payloads of its DATA frames, as long as it was open
    returned: seq<byte>,         // what its reads have returned
    declared: Option<nat>,       // its Content-Length
    closed: Option<IOError>,     // the first end: END_STREAM, or an abort with its error
    broken: bool,                // its reader has closed it
    failed: Option<IOError>)     // a read has found it too long or too short
  {
    function Unread(): seq<byte> { if |returned| <= |received| then received[|returned|..] else [] }

    predicate Open() { closed.None? && !broken }

    /** What the Content-Length leaves of n bytes. */
    function Room(n: nat): nat {
      if declared.None? || |returned| + n <= declared.value then n
      else if |returned| <= declared.value then declared.value - |returned|
      else 0
    }

    /** It ended before its Content-Length. */
    predicate TooShort() { closed == Some(EOF) && declared.Some? && |returned| < declared.value }

    /** What a read of at most max bytes returns. */
    function Answer(max: nat): (seq<byte>, Option<IOError>) {
      var n := Min(max, |Unread()|);
      if failed.Some? then ([], failed)
      else if broken then ([], Some(CLOSED_BODY))
      else if Unread() == [] then ([], if TooShort() then Some(UnexpectedEOF) else closed)
      else (Unread()[..Room(n)], if Room(n) < n then Some(OVERRUN) else None)
    }

    /** After a read that returned these; an error about the length stays. */
    function Returned(bytes: seq<byte>, err: Option<IOError>): Story {
      var stays := failed.None? && !broken && err.Some? && (Unread() != [] || TooShort());
      this.(returned := returned + bytes, failed := if stays then err else failed)
    }

    function Closed(err: IOError): Story { if closed.None? then this.(closed := Some(err)) else this }
  }

  const UNTOLD := Story([], [], Some(0), None, false, None)

  /** A stream that DATA may still be for. */
  predicate Answering(r: Receiver, id: nat) { r.Finds(id) && !r.bodies[id].readClosed && r.bodies[id].pastHeaders }

  /** END_STREAM on a DATA frame that may have it. */
  predicate EndsWith(r: Receiver, id: nat, length: nat, data: seq<byte>, ended: bool) {
    ended && Answering(r, id) && !(length > 0 && r.bodies[id].isHead && |data| > 0)
  }

  predicate Concerns(e: Event, id: nat) { !e.AddStream? && e.id == id }

  /** The story goes on; a read is told by what it returned. */
  function Told(r: Receiver, t: Story, id: nat, e: Event): Story
    requires Enabled(r, e)
  {
    if !Concerns(e, id) then t
    else
      match e
      case Headers(_, contentLength, ended) =>
        if ended then t.Closed(EOF) else if r.bodies[id].isHead then t else t.(declared := contentLength)
      case Data(_, length, data, ended) =>
        var t1 := if Charged(r, id, length, data) && t.Open() then t.(received := t.received + data) else t;
        if EndsWith(r, id, length, data, ended) then t1.Closed(EOF) else t1
      case EndStream(_) => t.Closed(EOF)
      case ClosePipe(_, err) => t.Closed(err)
      case BreakBody(_) => t.(broken := true)
      case ReadTake(_, max) =>
        var (_, bytes, err) := r.bodies[id].ReadTake(max);
        t.Returned(bytes, err)
      case _ => t
  }

  // ------------------------------------------------------------ whole runs

  datatype Traced = Traced(r: Receiver, t: Story)

  /** A run, as far as it goes: an event that cannot happen, or that ends the connection, ends it. */
  function Trace(s: Traced, id: nat, es: seq<Event>): Traced
    decreases |es|
  {
    if es == [] || !Enabled(s.r, es[0]) || !Do(s.r, es[0]).Next? then s
    else Trace(Traced(Do(s.r, es[0]).r, Told(s.r, s.t, id, es[0])), id, es[1..])
  }

  /** A connection without streams. */
  predicate Blank(r: Receiver) { r.conn.Ok() && r.bodies == map[] && r.live == {} }

  function Buffered(b: Body): seq<byte> { if b.pipe.buf.Some? then b.pipe.buf.value else [] }

  /** The body is as the story has it. */
  ghost predicate Tells(b: Body, t: Story) {
    && (t.broken <==> b.pipe.breakErr.Some?) && (t.broken ==> b.pipe.breakErr == Some(CLOSED_BODY))
    && (!t.broken ==> t.closed == b.pipe.err) && t.failed == b.readErr && t.failed != Some(EOF)
    && t.returned <= t.received
    && (t.failed.None? && !t.broken ==> t.received == t.returned + Buffered(b))
    && (t.declared.None? <==> b.bytesRemain.None?)
    && (t.failed.None? && t.declared.Some? ==> |t.returned| + b.bytesRemain.value == t.declared.value)
    && (!b.pastHeaders ==> t.returned == [] && t.failed.None? && t.declared == Some(0))
    && (b.readClosed ==> b.pipe.err.Some?)
    && (b.pastHeaders && !b.isHead && !b.readClosed && !b.pipe.Closed() ==> b.pipe.buf.Some?)
  }

  ghost predicate TellsOf(r: Receiver, id: nat, t: Story) {
    Consistent(r) && if id in r.bodies then Tells(r.bodies[id], t) else t == UNTOLD
  }

  lemma UnreadIsBuffered(b: Body, t: Story)
    requires Tells(b, t) && t.failed.None? && !t.broken
    ensures t.Unread() == Buffered(b)
    ensures forall n: nat ::
      t.Room(n) == if b.bytesRemain.Some? && n > b.bytesRemain.value then b.bytesRemain.value else n
  {
  }

  /** A read of what is buffered. */
  lemma BufferedRead(b: Body, max: nat)
    requires b.CanRead() && b.readErr.None? && b.pipe.breakErr.None? && Buffered(b) != []
    ensures var n := Min(max, |Buffered(b)|);
      var room := if b.bytesRemain.Some? && n > b.bytesRemain.value then b.bytesRemain.value else n;
      var (b', bytes, err) := b.ReadTake(max);
      bytes == Buffered(b)[..room] && err == (if room < n then Some(OVERRUN) else None) && b'.readErr == err
      && b' == b.(pipe := b.pipe.(buf := Some(Buffered(b)[n..])), readErr := err, bytesRemain := b'.bytesRemain,
                  inHand := b'.inHand)
      && b'.bytesRemain == (if b.bytesRemain.None? || room < n then b.bytesRemain else Some(b.bytesRemain.value - n))
  {
    var n := Min(max, |Buffered(b)|);
    if b.bytesRemain.Some? && n > b.bytesRemain.value {
      assert Buffered(b)[..n][..b.bytesRemain.value] == Buffered(b)[..b.bytesRemain.value];
    }
  }

  /** A read when nothing is buffered. */
  lemma DrainedRead(b: Body, max: nat)
    requires b.CanRead() && b.readErr.None? && b.pipe.breakErr.None? && Buffered(b) == []
    ensures var short := b.pipe.err == Some(EOF) && b.bytesRemain.Some? && b.bytesRemain.value > 0;
      var (b', bytes, err) := b.ReadTake(max);
      bytes == [] && err == (if short then Some(UnexpectedEOF) else b.pipe.err)
      && b' == b.(pipe := b.pipe.(buf := None, readFn := false), readErr := if short then err else None, inHand := 0)
      && b.pipe.err.Some?
  {
  }

  lemma AnswerIsRead(b: Body, t: Story, max: nat)
    requires BodyOk(b) && Tells(b, t) && b.CanRead()
    ensures t.Answer(max) == (b.ReadTake(max).1, b.ReadTake(max).2)
  {
    if t.failed.None? && !t.broken {
      UnreadIsBuffered(b, t);
      if Buffered(b) != [] {
        BufferedRead(b, max);
      } else {
        DrainedRead(b, max);
      }
    }
  }

  lemma BufferedIsTold(b: Body, t: Story, max: nat)
    requires BodyOk(b) && Tells(b, t) && b.CanRead() && t.failed.None? && !t.broken && Buffered(b) != []
    ensures var (b', bytes, err) := b.ReadTake(max); Tells(b', t.Returned(bytes, err))
  {
    UnreadIsBuffered(b, t);
    BufferedRead(b, max);
    var (b', bytes, err) := b.ReadTake(max);
    assert t.received == t.returned + Buffered(b) && bytes <= Buffered(b);
    assert t.returned + bytes <= t.received;
    if err.None? {
      assert Buffered(b) == bytes + Buffered(b');
      assert t.returned + bytes + Buffered(b') == t.received;
    }
  }

  lemma DrainedIsTold(b: Body, t: Story, max: nat)
    requires BodyOk(b) && Tells(b, t) && b.CanRead() && t.failed.None? && !t.broken && Buffered(b) == []
    ensures var (b', bytes, err) := b.ReadTake(max); Tells(b', t.Returned(bytes, err))
  {
    UnreadIsBuffered(b, t);
    DrainedRead(b, max);
    assert t.returned + [] == t.returned;
  }

  lemma ReadIsTold(b: Body, t: Story, max: nat)
    requires BodyOk(b) && Tells(b, t) && b.CanRead()
    ensures var (b', bytes, err) := b.ReadTake(max); Tells(b', t.Returned(bytes, err))
  {
    if t.failed.Some? || t.broken {
      assert t.returned + [] == t.returned;
    } else if Buffered(b) != [] {
      BufferedIsTold(b, t, max);
    } else {
      DrainedIsTold(b, t, max);
    }
  }

  /** DATA that is not charged leaves the bytes alone. */
  lemma UnchargedIsTold(conn: Window, b: Body, t: Story, length: nat, data: seq<byte>, ended: bool)
    requires BodyOk(b) && Tells(b, t) && |data| <= length
    requires b.readClosed || !b.pastHeaders || (length > 0 && b.isHead && |data| > 0) || length == 0
    ensures var e := ProcessFound(conn, b, length, data, ended);
      var ends := ended && !b.readClosed && b.pastHeaders && !(length > 0 && b.isHead && |data| > 0);
      e.Effect? && Tells(e.b, if ends then t.Closed(EOF) else t)
  {
  }

  /** DATA that is charged goes behind what is buffered, if the stream is open. */
  lemma ChargedIsTold(conn: Window, b: Body, t: Story, length: nat, data: seq<byte>, ended: bool)
    requires BodyOk(b) && Tells(b, t) && |data| <= length && Deliver(conn, b, length, data, ended).Effect?
    requires !b.readClosed && b.pastHeaders && length > 0 && !(b.isHead && |data| > 0)
    ensures var t1 := if t.Open() then t.(received := t.received + data) else t;
      Tells(Deliver(conn, b, length, data, ended).b, if ended then t1.Closed(EOF) else t1)
  {
    var t1 := if t.Open() then t.(received := t.received + data) else t;
    var b' := Deliver(conn, b, length, data, ended).b;
    if t.Open() {
      assert t.returned + Buffered(b) + data == t.returned + (Buffered(b) + data);
      if data == [] {
        assert t.received + data == t.received;
      } else {
        assert Buffered(b') == Buffered(b) + data;
      }
    }
  }

  lemma DataIsTold(r: Receiver, t: Story, e: Event)
    requires e.Data? && Enabled(r, e) && Do(r, e).Next? && Consistent(r) && e.id in r.bodies && Tells(r.bodies[e.id], t)
    ensures e.id in Do(r, e).r.bodies && Tells(Do(r, e).r.bodies[e.id], Told(r, t, e.id, e))
  {
    var b := r.bodies[e.id];
    assert BodyOk(b);
    if r.Finds(e.id) {
      if Charged(r, e.id, e.length, e.data) {
        ChargedIsTold(r.conn, b, t, e.length, e.data, e.ended);
      } else {
        UnchargedIsTold(r.conn, b, t, e.length, e.data, e.ended);
      }
    }
  }

  lemma AnswerIsTold(b: Body, t: Story, contentLength: Option<nat>, ended: bool)
    requires BodyOk(b) && Tells(b, t) && !b.readClosed && !b.pastHeaders
    ensures Tells(Answered(b, contentLength, ended),
                  if ended then t.Closed(EOF) else if b.isHead then t else t.(declared := contentLength))
  {
  }

  lemma EndIsTold(b: Body, t: Story, err: IOError, fn: bool)
    requires BodyOk(b) && Tells(b, t)
    ensures Tells(Ended(b), t.Closed(EOF)) && Tells(b.(pipe := b.pipe.Close(err, fn)), t.Closed(err))
  {
  }

  lemma BreakIsTold(b: Body, t: Story)
    requires BodyOk(b) && Tells(b, t)
    ensures Tells(Broken(b), t.(broken := true))
  {
  }

  /** A step about one body that does not touch its bytes. */
  lemma CreditIsTold(r: Receiver, t: Story, e: Event)
    requires Enabled(r, e) && Do(r, e).Next? && Consistent(r)
    requires e.AbortRead? || e.Forget? || e.ReadCredit? || e.CloseCredit?
    requires e.id in r.bodies && Tells(r.bodies[e.id], t)
    ensures e.id in Do(r, e).r.bodies && Tells(Do(r, e).r.bodies[e.id], t)
  {
  }

  lemma QuietIsTold(r: Receiver, t: Story, e: Event)
    requires Enabled(r, e) && Do(r, e).Next? && Consistent(r) && !e.AddStream? && !e.Data? && !e.ReadTake?
    requires e.id in r.bodies && Tells(r.bodies[e.id], t)
    ensures e.id in Do(r, e).r.bodies && Tells(Do(r, e).r.bodies[e.id], Told(r, t, e.id, e))
  {
    assert BodyOk(r.bodies[e.id]);
    match e {
      case Headers(id, contentLength, ended) => AnswerIsTold(r.bodies[id], t, contentLength, ended);
      case EndStream(id) => EndIsTold(r.bodies[id], t, EOF, true);
      case ClosePipe(id, err) => EndIsTold(r.bodies[id], t, err, false);
      case BreakBody(id) => BreakIsTold(r.bodies[id], t);
      case _ => CreditIsTold(r, t, e);
    }
  }

  lemma OthersStay(r: Receiver, id: nat, e: Event)
    requires Consistent(r) && Enabled(r, e) && Do(r, e).Next? && id in r.bodies && !Concerns(e, id)
    ensures var r' := Do(r, e).r; id in r'.bodies && r'.bodies[id] == r.bodies[id]
  {
  }

  lemma StepIsTold(r: Receiver, t: Story, id: nat, e: Event)
    requires TellsOf(r, id, t) && Enabled(r, e) && Do(r, e).Next?
    ensures TellsOf(Do(r, e).r, id, Told(r, t, id, e))
  {
    StepKeepsConsistent(r, e);
    if id in r.bodies {
      if !Concerns(e, id) {
        OthersStay(r, id, e);
      } else if e.Data? {
        DataIsTold(r, t, e);
      } else if e.ReadTake? {
        ReadIsTold(r.bodies[id], t, e.max);
      } else {
        QuietIsTold(r, t, e);
      }
    } else {
      NewIsUntold(r, id, e);
    }
  }

  lemma NewIsUntold(r: Receiver, id: nat, e: Event)
    requires Consistent(r) && Enabled(r, e) && Do(r, e).Next? && id !in r.bodies
    ensures Told(r, UNTOLD, id, e) == UNTOLD
    ensures id in Do(r, e).r.bodies ==> Tells(Do(r, e).r.bodies[id], UNTOLD)
  {
  }

  lemma {:induction false} RunIsTold(s: Traced, id: nat, es: seq<Event>)
    requires TellsOf(s.r, id, s.t)
    ensures var s' := Trace(s, id, es); TellsOf(s'.r, id, s'.t)
    decreases |es|
  {
    if es != [] && Enabled(s.r, es[0]) && Do(s.r, es[0]).Next? {
      StepIsTold(s.r, s.t, id, es[0]);
      RunIsTold(Traced(Do(s.r, es[0]).r, Told(s.r, s.t, id, es[0])), id, es[1..]);
    }
  }

  /**
   * Main result on response bodies: in every run, every read returns what the story of its stream says, and so the
   * payloads of its DATA frames, in order.
   */
  lemma ReadsReturnTheStory(r: Receiver, id: nat, es: seq<Event>, max: nat)
    requires Blank(r) && Enabled(Trace(Traced(r, UNTOLD), id, es).r, Event.ReadTake(id, max))
    ensures var s := Trace(Traced(r, UNTOLD), id, es);
      var (_, bytes, err) := s.r.bodies[id].ReadTake(max);
      (bytes, err) == s.t.Answer(max)
  {
    RunIsTold(Traced(r, UNTOLD), id, es);
    var s := Trace(Traced(r, UNTOLD), id, es);
    AnswerIsRead(s.r.bodies[id], s.t, max);
  }

  /** In every run what was returned is a prefix of what was received, and the rest is what is buffered. */
  lemma NothingIsLost(r: Receiver, id: nat, es: seq<Event>)
    requires Blank(r)
    ensures var s := Trace(Traced(r, UNTOLD), id, es);
      s.t.returned <= s.t.received
      && (s.t.failed.None? && !s.t.broken && id in s.r.bodies ==>
            s.t.received == s.t.returned + Buffered(s.r.bodies[id]))
      && (s.t.failed.None? && s.t.declared.Some? ==> |s.t.returned| <= s.t.declared.value)
  {
    RunIsTold(Traced(r, UNTOLD), id, es);
  }

  /** A reader that sees io.EOF has been given everything, and exactly as much as was declared. */
  lemma EOFMeansAll(r: Receiver, id: nat, es: seq<Event>, max: nat)
    requires Blank(r) && Enabled(Trace(Traced(r, UNTOLD), id, es).r, Event.ReadTake(id, max))
    requires Trace(Traced(r, UNTOLD), id, es).r.bodies[id].ReadTake(max).2 == Some(EOF)
    ensures var s := Trace(Traced(r, UNTOLD), id, es);
      s.t.closed == Some(EOF) && s.t.returned == s.t.received
      && (s.t.declared.Some? ==> |s.t.received| == s.t.declared.value)
  {
    RunIsTold(Traced(r, UNTOLD), id, es);
    ReadsReturnTheStory(r, id, es, max);
  }

  // ------------------------------------------------------------ what DATA is refused

  /** DATA with a body that its stream cannot have, or that comes too late or too early. */
  predicate OutOfPlace(r: Receiver, id: nat, length: nat, data: seq<byte>) {
    !Answering(r, id) || (length > 0 && r.bodies[id].isHead && |data| > 0)
  }

  /** DATA ends the connection if and only if its stream was never opened, or it exceeds a window that it counts for. */
  lemma DataErrorIff(r: Receiver, id: nat, length: nat, data: seq<byte>, ended: bool)
    requires |data| <= length < TWO_32
    ensures var o := Do(r, Data(id, length, data, ended));
      (o == ProtocolError <==> !r.Finds(id) && id >= r.nextStreamID)
      && (r.Finds(id) && o == FlowControlError <==>
            r.Finds(id) && !OutOfPlace(r, id, length, data) && length > 0
            && (length > r.conn.avail || length > r.bodies[id].win.avail))
      && (!r.Finds(id) && o == FlowControlError ==> id < r.nextStreamID && 0 < length && length > r.conn.avail)
  {
  }

  /** It ends the reading of its stream if and only if it is out of place, or the stream's pipe takes no more. */
  lemma DataAbortsIff(r: Receiver, id: nat, length: nat, data: seq<byte>, ended: bool)
    requires Consistent(r) && |data| <= length < TWO_32 && r.Finds(id)
    requires Do(r, Data(id, length, data, ended)).Next?
    ensures !Do(r, Data(id, length, data, ended)).r.Finds(id) <==>
      OutOfPlace(r, id, length, data) || (|data| > 0 && !r.bodies[id].pipe.Write(data).1.Ok?)
  {
    assert BodyOk(r.bodies[id]);
  }

  /** The table has the streams that were added and not forgotten, under odd or even IDs in order. */
  function TableAfter(es: seq<Event>, live: set<nat>, next: nat): (set<nat>, nat)
    decreases |es|
  {
    if es == [] then (live, next)
    else
      match es[0]
      case AddStream(_) => TableAfter(es[1..], live + {next}, next + 2)
      case Forget(id) => TableAfter(es[1..], live - {id}, next)
      case _ => TableAfter(es[1..], live, next)
  }

  /** All of these events happen. */
  predicate Happens(r: Receiver, es: seq<Event>)
    decreases |es|
  {
    es == [] || (Enabled(r, es[0]) && Do(r, es[0]).Next? && Happens(Do(r, es[0]).r, es[1..]))
  }

  lemma {:induction false} TableFollows(s: Traced, id: nat, es: seq<Event>)
    requires Happens(s.r, es)
    ensures var r := Trace(s, id, es).r; (r.live, r.nextStreamID) == TableAfter(es, s.r.live, s.r.nextStreamID)
    decreases |es|
  {
    if es != [] {
      TableStep(s.r, es[0]);
      TableFollows(Traced(Do(s.r, es[0]).r, Told(s.r, s.t, id, es[0])), id, es[1..]);
    }
  }

  lemma TableStep(r: Receiver, e: Event)
    requires Enabled(r, e) && Do(r, e).Next?
    ensures (Do(r, e).r.live, Do(r, e).r.nextStreamID) == TableAfter([e], r.live, r.nextStreamID)
  {
    assert [e][1..] == [];
  }

  // ------------------------------------------------------------ the window of a stream

  /** As long as nothing went wrong, the window has what it began with, but for the bytes the stream still has. */
  ghost predicate Repaid(b: Body) {
    !b.readAborted && b.pipe.breakErr.None? && b.readErr.None? ==>
      b.win.Total() + b.inHand + |Buffered(b)| == DEFAULT_STREAM_FLOW
  }

  ghost predicate AllRepaid(r: Receiver) { forall id <- r.bodies :: Repaid(r.bodies[id]) }

  lemma DataIsRepaid(conn: Window, b: Body, length: nat, data: seq<byte>, ended: bool)
    requires BodyOk(b) && Repaid(b) && |data| <= length && ProcessFound(conn, b, length, data, ended).Effect?
    ensures Repaid(ProcessFound(conn, b, length, data, ended).b)
  {
  }

  lemma ReadIsRepaid(b: Body, max: nat)
    requires BodyOk(b) && Repaid(b) && b.CanRead()
    ensures Repaid(b.ReadTake(max).0)
  {
    if b.readErr.None? && b.pipe.breakErr.None? {
      if Buffered(b) != [] {
        BufferedRead(b, max);
      } else {
        DrainedRead(b, max);
      }
    }
  }

  lemma QuietIsRepaid(r: Receiver, e: Event)
    requires Enabled(r, e) && Do(r, e).Next? && !e.AddStream? && !e.Data? && !e.ReadTake?
    requires e.id in r.bodies && BodyOk(r.bodies[e.id]) && Repaid(r.bodies[e.id])
    ensures e.id in Do(r, e).r.bodies && Repaid(Do(r, e).r.bodies[e.id])
  {
  }

  lemma BodyIsRepaid(r: Receiver, id: nat, e: Event)
    requires Consistent(r) && id in r.bodies && Repaid(r.bodies[id]) && Enabled(r, e) && Do(r, e).Next?
    ensures id in Do(r, e).r.bodies && Repaid(Do(r, e).r.bodies[id])
  {
    var b := r.bodies[id];
    assert BodyOk(b);
    if !Concerns(e, id) {
      OthersStay(r, id, e);
    } else if e.Data? {
      if r.Finds(id) {
        DataIsRepaid(r.conn, b, e.length, e.data, e.ended);
      }
    } else if e.ReadTake? {
      ReadIsRepaid(b, e.max);
    } else {
      QuietIsRepaid(r, e);
    }
  }

  lemma StepIsRepaid(r: Receiver, e: Event)
    requires Consistent(r) && AllRepaid(r) && Enabled(r, e) && Do(r, e).Next?
    ensures AllRepaid(Do(r, e).r)
  {
    var r' := Do(r, e).r;
    forall id | id in r'.bodies
      ensures Repaid(r'.bodies[id])
    {
      if id in r.bodies {
        BodyIsRepaid(r, id, e);
      }
    }
  }

  /** Every stream's window is conserved in every run, whatever is read, credited or padded. */
  lemma {:induction false} StreamCreditIsConserved(s: Traced, id: nat, es: seq<Event>)
    requires Consistent(s.r) && AllRepaid(s.r)
    ensures var r := Trace(s, id, es).r; Consistent(r) && AllRepaid(r)
    decreases |es|
  {
    if es != [] && Enabled(s.r, es[0]) && Do(s.r, es[0]).Next? {
      StepKeepsConsistent(s.r, es[0]);
      StepIsRepaid(s.r, es[0]);
      StreamCreditIsConserved(Traced(Do(s.r, es[0]).r, Told(s.r, s.t, id, es[0])), id, es[1..]);
    }
  }
}
