/**
 * Receive-side flow control of an HTTP/2 client connection, and its agreement with the peer
 * (internal/http2/transport.go; sections 6.9 and 6.9.1 of RFC 7540).
 *
 * A step is what one lock-held region of the source does; a Read or Close of a response body is
 * two steps, because other goroutines may run between its two regions.
 */
module ReceiveFlow {
  import opened MachineInts
  import opened Wrappers
  import opened Flow
  import opened Pipe

  const DEFAULT_STREAM_FLOW := 0x40_0000
  const SPEC_INITIAL_WINDOW := 65535

  const OVERRUN := Other(3)
  const CLOSED_BODY := Other(4)

  /** One stream and its response body. It outlives the stream's entry in the connection's table. */
  datatype Body = Body(
    win: Window, pipe: PipeState,
    pastHeaders: bool, readClosed: bool, readAborted: bool, isHead: bool,
    bytesRemain: Option<nat>, readErr: Option<IOError>,
    inHand: nat,     // taken by a Read that has not credited it yet
    closing: nat,    // Close calls between their two regions
    credited: bool)  // some Close has credited the unread bytes
  {
    /** Bytes the connection window is still owed for this body. */
    function Owed(): nat {
      inHand + if pipe.buf.Some? then |pipe.buf.value| else if credited then 0 else pipe.unread
    }

    /** transportResponseBody.Read asked the pipe for max bytes and got more than Content-Length allows. */
    predicate Overruns(max: nat)
      requires pipe.Readable()
    {
      readErr.None? && bytesRemain.Some? && |pipe.Read(max).1| > bytesRemain.value
    }

    predicate CanRead() { inHand == 0 && (readErr.Some? || pipe.Readable()) }

    /** The first region of Read: the state after, the bytes handed out, and the error. */
    function ReadTake(max: nat): (Body, seq<byte>, Option<IOError>)
      requires CanRead()
    {
      if readErr.Some? then (this, [], readErr)
      else
        var (p, bytes, err, _) := pipe.Read(max);
        if bytesRemain.Some? && |bytes| > bytesRemain.value then
          var e := if err.None? then Some(OVERRUN) else err;
          (this.(pipe := p, readErr := e), bytes[..bytesRemain.value], e)
        else
          var remain := if bytesRemain.None? then None else Some(bytesRemain.value - |bytes|);
          if remain.Some? && remain.value > 0 && err == Some(EOF) then
            (this.(pipe := p, bytesRemain := remain, readErr := Some(UnexpectedEOF)), bytes, Some(UnexpectedEOF))
          else
            (this.(pipe := p, bytesRemain := remain, inHand := |bytes|), bytes, err)
    }
  }

  function NewBody(isHead: bool): Body {
    Body(Window(DEFAULT_STREAM_FLOW, 0), NEW_PIPE, false, false, false, isHead, Some(0), None, 0, 0, false)
  }

  datatype Receiver = Receiver(conn: Window, bodies: map<nat, Body>, live: set<nat>, nextStreamID: nat) {

    /** streamByID. */
    predicate Finds(id: nat) {
      id in live && id in bodies && !bodies[id].readAborted
    }

    function With(id: nat, b: Body): Receiver { this.(bodies := bodies[id := b]) }
  }

  datatype Event =
    | AddStream(isHead: bool)
    | Headers(id: nat, contentLength: Option<nat>, ended: bool)
    | EndStream(id: nat)
    | AbortRead(id: nat)
    | ClosePipe(id: nat, err: IOError)
    | Forget(id: nat)
    | Data(id: nat, length: nat, data: seq<byte>, ended: bool)
    | ReadTake(id: nat, max: nat)
    | ReadCredit(id: nat)
    | BreakBody(id: nat)
    | CloseCredit(id: nat)

  /** The state after a step with the increments it announces (0 for none), or how the step ends the connection. */
  datatype Outcome =
    | Next(r: Receiver, connInc: int, streamInc: int)
    | FlowControlError
    | ProtocolError
    | Panic

  /** What a step does to the connection window and the one body it is about. */
  datatype Effect =
    | Effect(conn: Window, b: Body, connInc: int, streamInc: int)
    | Exceeded
    | Panics

  datatype Refund = Refunded(conn: Window, connInc: int) | RefundExceeds | RefundPanics

  function Lift(r: Receiver, id: nat, e: Effect): Outcome {
    match e
    case Effect(conn, b, connInc, streamInc) => Next(r.(conn := conn).With(id, b), connInc, streamInc)
    case Exceeded => FlowControlError
    case Panics => Panic
  }

  // ------------------------------------------------------------ one step

  /** Which steps can happen: the guards of the source's callers. */
  predicate Enabled(r: Receiver, e: Event) {
    match e
    case AddStream(_) => true
    case Headers(id, _, _) =>
      r.Finds(id) && !r.bodies[id].readClosed && !r.bodies[id].pastHeaders
    case EndStream(id) => r.Finds(id)
    case AbortRead(id) => r.Finds(id)
    case ClosePipe(id, _) => id in r.bodies
    case Forget(id) => id in r.live
    case Data(id, length, data, _) => |data| <= length < TWO_32
    case ReadTake(id, _) => id in r.bodies && r.bodies[id].CanRead()
    case ReadCredit(id) => id in r.bodies && r.bodies[id].inHand > 0
    case BreakBody(id) => id in r.bodies
    case CloseCredit(id) => id in r.bodies && r.bodies[id].closing > 0
  }

  /** endStream: the first END_STREAM closes the pipe with io.EOF. */
  function Ended(b: Body): Body {
    if b.readClosed then b else b.(readClosed := true, pipe := b.pipe.Close(EOF, true))
  }

  function Do(r: Receiver, e: Event): Outcome
    requires Enabled(r, e)
  {
    match e
    case AddStream(isHead) => Next(DoAddStream(r, isHead), 0, 0)
    case Headers(id, contentLength, ended) => Next(r.With(id, Answered(r.bodies[id], contentLength, ended)), 0, 0)
    case EndStream(id) => Next(r.With(id, Ended(r.bodies[id])), 0, 0)
    case AbortRead(id) => Next(r.With(id, r.bodies[id].(readAborted := true)), 0, 0)
    case ClosePipe(id, err) => Next(r.With(id, r.bodies[id].(pipe := r.bodies[id].pipe.Close(err, false))), 0, 0)
    case Forget(id) => Next(r.(live := r.live - {id}), 0, 0)
    case Data(id, length, data, ended) => ProcessData(r, id, length, data, ended)
    case ReadTake(id, max) => Next(r.With(id, r.bodies[id].ReadTake(max).0), 0, 0)
    case ReadCredit(id) => Lift(r, id, CreditRead(r.conn, r.bodies[id]))
    case BreakBody(id) => Next(r.With(id, Broken(r.bodies[id])), 0, 0)
    case CloseCredit(id) => Lift(r, id, CreditClose(r.conn, r.bodies[id]))
  }

  /** addStreamLocked. */
  function DoAddStream(r: Receiver, isHead: bool): Receiver {
    Receiver(r.conn, r.bodies[r.nextStreamID := NewBody(isHead)], r.live + {r.nextStreamID}, r.nextStreamID + 2)
  }

  /** The first final response headers; END_STREAM on them leaves the body without a buffer. */
  function Answered(b: Body, contentLength: Option<nat>, ended: bool): Body {
    var b1 := b.(pastHeaders := true);
    if ended then Ended(b1)
    else if b.isHead then b1
    else b1.(pipe := b.pipe.SetBuffer(), bytesRemain := contentLength)
  }

  function Broken(b: Body): Body {
    b.(pipe := b.pipe.Break(CLOSED_BODY), closing := b.closing + 1)
  }

  /** The second region of Read: both windows get back what the first region took. */
  function CreditRead(conn: Window, b: Body): Effect {
    if !conn.CanCredit(b.inHand) || !b.win.CanCredit(b.inHand) then Panics
    else
      var (conn', connInc) := conn.Credit(b.inHand);
      var (win, streamInc) := b.win.Credit(b.inHand);
      Effect(conn', b.(win := win, inHand := 0), connInc, streamInc)
  }

  /** The second region of Close: the connection window gets back what was never read. */
  function CreditClose(conn: Window, b: Body): Effect
    requires b.closing > 0
  {
    var unread := b.pipe.Len();
    var b' := b.(closing := b.closing - 1, credited := true);
    if unread == 0 then Effect(conn, b', 0, 0)
    else if !conn.CanCredit(unread) then Panics
    else
      var (conn', connInc) := conn.Credit(unread);
      Effect(conn', b', connInc, 0)
  }

  /** processData. */
  function ProcessData(r: Receiver, id: nat, length: nat, data: seq<byte>, ended: bool): Outcome
    requires |data| <= length
  {
    if !r.Finds(id) then
      if id >= r.nextStreamID then ProtocolError
      else
        match RefundUnwanted(r.conn, length)
        case Refunded(conn, connInc) => Next(r.(conn := conn), connInc, 0)
        case RefundExceeds => FlowControlError
        case RefundPanics => Panic
    else
      Lift(r, id, ProcessFound(r.conn, r.bodies[id], length, data, ended))
  }

  /** processData for a stream it has found. */
  function ProcessFound(conn: Window, b: Body, length: nat, data: seq<byte>, ended: bool): Effect
    requires |data| <= length
  {
    if b.readClosed || !b.pastHeaders || (length > 0 && b.isHead && |data| > 0) then
      Effect(conn, b.(readAborted := true), 0, 0)
    else if length == 0 then Effect(conn, if ended then Ended(b) else b, 0, 0)
    else Deliver(conn, b, length, data, ended)
  }

  /** DATA for a stream the client gave up: its bytes go straight back to the connection window. */
  function RefundUnwanted(conn: Window, length: nat): Refund {
    if length == 0 then Refunded(conn, 0)
    else
      var ok := length <= conn.avail;
      var taken := if ok then conn.Debit(length) else conn;
      if !taken.CanCredit(length) then RefundPanics
      else
        var (conn', connInc) := taken.Credit(length);
        if ok then Refunded(conn', connInc) else RefundExceeds
  }

  /** The payload goes into the pipe: the pipe after, whether it refused, and what is to be returned at once. */
  function Pour(pipe: PipeState, length: nat, data: seq<byte>): (PipeState, bool, nat)
    requires |data| <= length
  {
    if |data| == 0 then (pipe, false, length)
    else
      var (pipe', result) := pipe.Write(data);
      if result.Err? then (pipe', true, length) else (pipe', false, length - |data|)
  }

  /** DATA for a live stream: both windows pay, the pipe gets the bytes, padding and refused bytes come back. */
  function Deliver(conn: Window, b: Body, length: nat, data: seq<byte>, ended: bool): Effect
    requires |data| <= length
  {
    if length > conn.avail || length > b.win.avail then Exceeded
    else
      var (pipe, refused, refund) := Pour(b.pipe, length, data);
      var conn0, win0 := conn.Debit(length), b.win.Debit(length);
      if !conn0.CanCredit(refund) || !win0.CanCredit(refund) then Panics
      else
        var (conn1, connInc) := conn0.Credit(refund);
        var (win1, streamInc) := if refused then (win0, 0) else win0.Credit(refund);
        var b1 := b.(pipe := pipe, win := win1, readAborted := b.readAborted || refused);
        Effect(conn1, if ended && !refused then Ended(b1) else b1, connInc, streamInc)
  }

  // ------------------------------------------------------------ conservation of receive credit

  function Owing(bodies: map<nat, Body>, bound: nat): nat {
    if bound == 0 then 0
    else Owing(bodies, bound - 1) + if bound - 1 in bodies then bodies[bound - 1].Owed() else 0
  }

  /** Announced window, unannounced credit, and bytes still owed: what receiving and consuming only moves around. */
  function Balance(r: Receiver): int {
    r.conn.Total() + Owing(r.bodies, r.nextStreamID)
  }

  lemma {:induction false} OwingUpdate(bodies: map<nat, Body>, bound: nat, id: nat, b: Body)
    requires id in bodies && id < bound
    ensures Owing(bodies[id := b], bound) == Owing(bodies, bound) - bodies[id].Owed() + b.Owed()
  {
    if id < bound - 1 {
      OwingUpdate(bodies, bound - 1, id, b);
    } else {
      OwingOutside(bodies, bound - 1, id, b);
    }
  }

  lemma {:induction false} OwingOutside(bodies: map<nat, Body>, bound: nat, id: nat, b: Body)
    requires bound <= id
    ensures Owing(bodies[id := b], bound) == Owing(bodies, bound)
  {
    if bound > 0 {
      OwingOutside(bodies, bound - 1, id, b);
    }
  }

  lemma {:induction false} OwingAtLeast(bodies: map<nat, Body>, bound: nat, id: nat)
    requires id in bodies && id < bound
    ensures bodies[id].Owed() <= Owing(bodies, bound)
  {
    if id < bound - 1 {
      OwingAtLeast(bodies, bound - 1, id);
    }
  }

  ghost predicate BodyOk(b: Body) {
    && b.win.Ok()
    && b.win.Total() + b.inHand + (if b.pipe.buf.Some? then |b.pipe.buf.value| else 0) <= DEFAULT_STREAM_FLOW
    && (b.pipe.breakErr.Some? ==> b.pipe.buf.None?)
    && (b.pipe.breakErr.None? ==> b.pipe.unread == 0 && b.closing == 0 && !b.credited)
    && (b.pipe.buf.Some? ==> b.pastHeaders && b.pipe.unread == 0)
  }

  /** What every step keeps, whatever the peer does. */
  ghost predicate Consistent(r: Receiver) {
    && r.conn.Ok()
    && (forall id <- r.bodies :: id < r.nextStreamID && BodyOk(r.bodies[id]))
    && r.live <= r.bodies.Keys
  }

  lemma {:induction false} DeliverKeepsBody(conn: Window, b: Body, length: nat, data: seq<byte>, ended: bool)
    requires conn.Ok() && BodyOk(b) && b.pastHeaders && |data| <= length
    requires Deliver(conn, b, length, data, ended).Effect?
    ensures var e := Deliver(conn, b, length, data, ended);
      BodyOk(e.b) && e.conn.Ok() && e.conn.Total() + e.b.Owed() == conn.Total() + b.Owed()
    ensures var e := Deliver(conn, b, length, data, ended);
      0 <= e.connInc && 0 <= e.streamInc
      && e.conn.avail == conn.avail + e.connInc - length && e.b.win.avail == b.win.avail + e.streamInc - length
  {
  }

  lemma {:induction false} ReadKeepsBody(b: Body, max: nat)
    requires BodyOk(b) && b.CanRead()
    ensures BodyOk(b.ReadTake(max).0)
    ensures b.ReadTake(max).0.Owed() == b.Owed() <==> !(b.readErr.None? && b.Overruns(max))
  {
  }

  lemma {:induction false} CreditReadKeepsBody(conn: Window, b: Body)
    requires conn.Ok() && BodyOk(b) && CreditRead(conn, b).Effect?
    ensures var e := CreditRead(conn, b);
      BodyOk(e.b) && e.conn.Ok() && e.conn.Total() + e.b.Owed() == conn.Total() + b.Owed()
    ensures var e := CreditRead(conn, b);
      0 <= e.connInc && 0 <= e.streamInc
      && e.conn.avail == conn.avail + e.connInc && e.b.win.avail == b.win.avail + e.streamInc
  {
  }

  lemma {:induction false} CreditCloseKeepsBody(conn: Window, b: Body)
    requires conn.Ok() && BodyOk(b) && b.closing > 0 && CreditClose(conn, b).Effect?
    ensures var e := CreditClose(conn, b);
      BodyOk(e.b) && e.conn.Ok() && 0 <= e.connInc && e.conn.avail == conn.avail + e.connInc
      && e.b.win == b.win && e.streamInc == 0
    ensures var e := CreditClose(conn, b);
      e.conn.Total() + e.b.Owed() == conn.Total() + b.Owed() <==> !(b.credited && b.pipe.unread > 0)
  {
  }

  lemma QuietKeepsBody(r: Receiver, e: Event)
    requires Consistent(r) && Enabled(r, e)
    requires e.Headers? || e.EndStream? || e.AbortRead? || e.ClosePipe? || e.BreakBody?
    ensures var o := Do(r, e); o.Next? && BodyOk(o.r.bodies[e.id]) && o.r.conn == r.conn
    ensures Do(r, e).r.bodies[e.id].Owed() == r.bodies[e.id].Owed()
  {
  }

  /** Whether a DATA frame reaches the windows of a live stream. */
  predicate Charged(r: Receiver, id: nat, length: nat, data: seq<byte>) {
    r.Finds(id) && !r.bodies[id].readClosed && r.bodies[id].pastHeaders && length > 0
    && !(r.bodies[id].isHead && |data| > 0)
  }

  /** Every step but Data, AddStream and Forget changes the one body it names. */
  lemma {:induction false} OneBodyChanges(r: Receiver, e: Event)
    requires Consistent(r) && Enabled(r, e) && Do(r, e).Next?
    requires !e.AddStream? && !e.Forget? && (e.Data? ==> r.Finds(e.id))
    ensures var r' := Do(r, e).r; e.id in r.bodies && r'.bodies == r.bodies[e.id := r'.bodies[e.id]]
    ensures Do(r, e).r.nextStreamID == r.nextStreamID && Do(r, e).r.live == r.live
  {
  }

  /** What the named body owes afterwards, together with the connection window. */
  lemma OneBodyOwes(r: Receiver, e: Event)
    requires Consistent(r) && Enabled(r, e) && Do(r, e).Next?
    requires !e.AddStream? && !e.Forget? && (e.Data? ==> r.Finds(e.id))
    ensures var r' := Do(r, e).r; BodyOk(r'.bodies[e.id]) && r'.conn.Ok()
    ensures var r' := Do(r, e).r;
      r'.conn.Total() + r'.bodies[e.id].Owed() == r.conn.Total() + r.bodies[e.id].Owed() <==> !Unbalancing(r, e)
  {
    match e {
      case Data(id, length, data, ended) =>
        if Charged(r, id, length, data) {
          DeliverKeepsBody(r.conn, r.bodies[id], length, data, ended);
        }
      case ReadTake(id, max) => ReadKeepsBody(r.bodies[id], max);
      case ReadCredit(id) => CreditReadKeepsBody(r.conn, r.bodies[id]);
      case CloseCredit(id) => CreditCloseKeepsBody(r.conn, r.bodies[id]);
      case _ => QuietKeepsBody(r, e);
    }
  }

  lemma StepKeepsConsistent(r: Receiver, e: Event)
    requires Consistent(r) && Enabled(r, e) && Do(r, e).Next?
    ensures Consistent(Do(r, e).r)
  {
    if !e.AddStream? && !e.Forget? && (e.Data? ==> r.Finds(e.id)) {
      OneBodyChanges(r, e);
      OneBodyOwes(r, e);
    }
  }

  /** The two ways the source breaks conservation: an over-length read, and a repeated Close of a body left unread. */
  predicate Unbalancing(r: Receiver, e: Event)
    requires Enabled(r, e)
  {
    match e
    case ReadTake(id, max) => r.bodies[id].readErr.None? && r.bodies[id].Overruns(max)
    case CloseCredit(id) => r.bodies[id].credited && r.bodies[id].pipe.unread > 0
    case _ => false
  }

  /** A step conserves the balance exactly when it is neither of the two. */
  lemma StepConservesIff(r: Receiver, e: Event)
    requires Consistent(r) && Enabled(r, e) && Do(r, e).Next?
    ensures Balance(Do(r, e).r) == Balance(r) <==> !Unbalancing(r, e)
  {
    var r' := Do(r, e).r;
    if e.AddStream? {
      OwingOutside(r.bodies, r.nextStreamID, r.nextStreamID, NewBody(e.isHead));
      assert Owing(r'.bodies, r.nextStreamID + 1) == Owing(r'.bodies, r.nextStreamID) + NewBody(e.isHead).Owed();
    } else if !e.Forget? && (e.Data? ==> r.Finds(e.id)) {
      OneBodyChanges(r, e);
      OneBodyOwes(r, e);
      OwingUpdate(r.bodies, r.nextStreamID, e.id, r'.bodies[e.id]);
    }
  }
}
