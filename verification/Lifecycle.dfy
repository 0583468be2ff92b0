/**
 * The life of a stream on an HTTP/2 client connection: stream IDs, the concurrency limit, GOAWAY,
 * resets, and which failed requests may be sent again (internal/http2/transport.go; sections 5.1.1,
 * 5.1.2 and 6.8 of RFC 7540).
 */
module Lifecycle {
  import opened MachineInts
  import opened Wrappers

  const NO_ERROR := 0
  const CODE_PROTOCOL := 1
  const CODE_REFUSED_STREAM := 7

  /** Why a request failed. `fromPeer` is a StreamError whose Cause is errFromPeer. */
  datatype Failure = Unusable | GotGoAway | StreamError(code: nat, fromPeer: bool) | OtherFailure(tag: nat)

  function CanRetryError(f: Failure): bool {
    match f
    case Unusable => true
    case GotGoAway => true
    case StreamError(code, fromPeer) => (code == CODE_PROTOCOL && fromPeer) || code == CODE_REFUSED_STREAM
    case OtherFailure(_) => false
  }

  datatype Phase = Pending | Waiting | Running | Done

  /** One RoundTrip on the connection; id is 0 until it has a stream. */
  datatype Request = Request(id: nat, phase: Phase, sentHeaders: bool, failure: Option<Failure>) {
    /** abortStreamLocked: the first reason stays. */
    function Abort(f: Failure): Request { if failure.Some? then this else this.(failure := Some(f)) }
  }

  datatype GoAway = GoAway(last: nat, code: nat)

  /** Transport and connection options that bear on reuse. */
  datatype Config = Config(singleUse: bool, strict: bool, disableKeepAlives: bool)

  /** What keeps new requests away from a connection. */
  datatype Marks = Marks(goAway: Option<GoAway>, closed: bool, closing: bool, doNotReuse: bool) {
    predicate Clear() { goAway.None? && !closed && !closing && !doNotReuse }

    /** Marks are never taken back. */
    predicate Within(later: Marks) {
      && (goAway.Some? ==> later.goAway.Some?) && (closed ==> later.closed)
      && (closing ==> later.closing) && (doNotReuse ==> later.doNotReuse)
    }
  }

  /** Every GOAWAY and RST_STREAM received so far. */
  datatype Heard = Heard(goAways: set<GoAway>, resets: set<(nat, nat)>)

  datatype Counters = Counters(pending: nat, reserved: nat)

  datatype Conn = Conn(
    config: Config, marks: Marks, counters: Counters, heard: Heard,
    nextStreamID: nat, maxConcurrent: nat, seenSettings: bool,
    streams: map<nat, nat>,          // stream ID to request
    requests: map<nat, Request>)
  {
    /** idleStateLocked; `tooIdle` is the clock's verdict. */
    predicate CanTake(tooIdle: bool) {
      && !(config.singleUse && nextStreamID > 1)
      && marks.Clear()
      && (config.strict || |streams| + counters.reserved + 1 <= maxConcurrent)
      && nextStreamID + 2 * counters.pending < MAX_INT32
      && !tooIdle
    }

    /** newClientConn has just returned. */
    predicate IsNew() { nextStreamID > 0 && this == Start(config, nextStreamID) }

    /** closeOnIdle in forgetStreamID. */
    predicate ClosesOnIdle() { config.singleUse || marks.doNotReuse || config.disableKeepAlives || marks.goAway.Some? }
  }

  datatype Event =
    | NewRequest(r: nat)
    | Open(r: nat, tooIdle: bool)            // one turn of awaitOpenSlotForStreamLocked, with addStreamLocked
    | GiveUp(r: nat, tag: nat)               // cancelled before it asked for a slot
    | SendHeaders(r: nat)
    | Finish(r: nat, failure: Option<Failure>) // writeRequest has returned; cleanupWriteRequest
    | Cancel(r: nat, tag: nat)
    | RecvGoAway(last: nat, code: nat)
    | RecvReset(id: nat, code: nat)
    | LocalStreamError(id: nat, code: nat)   // endStreamError with an error of the client's own
    | RecvSettings(limit: Option<nat>)
    | Reserve(tooIdle: bool)
    | Shutdown                               // sendGoAway
    | SetDoNotReuse
    | CloseIfIdle
    | Close

  predicate Enabled(c: Conn, e: Event) {
    match e
    case NewRequest(r) => r !in c.requests
    case Open(r, _) => r in c.requests && (c.requests[r].phase.Pending? || c.requests[r].phase.Waiting?)
    case GiveUp(r, _) => r in c.requests && c.requests[r].phase.Pending?
    case SendHeaders(r) =>
      r in c.requests && c.requests[r].phase.Running? && !c.requests[r].sentHeaders && c.requests[r].failure.None?
    case Finish(r, failure) =>
      r in c.requests && c.requests[r].phase.Running? && (failure.Some? ==> failure.value.OtherFailure?)
    case Cancel(r, _) => r in c.requests
    case RecvGoAway(last, _) => true
    case RecvReset(id, _) => id in c.streams && c.streams[id] in c.requests
    case LocalStreamError(id, code) => id in c.streams && c.streams[id] in c.requests && code != CODE_REFUSED_STREAM
    case RecvSettings(_) => true
    case Reserve(tooIdle) => c.CanTake(tooIdle)
    case Shutdown => true
    case SetDoNotReuse => true
    case CloseIfIdle => |c.streams| == 0 && c.counters.reserved == 0
    case Close => true
  }

  function Minus1(n: nat): nat { if n > 0 then n - 1 else 0 }

  function With(c: Conn, r: nat, q: Request): Conn { c.(requests := c.requests[r := q]) }

  datatype Turn = Leaves | Refused | Enters | Waits

  /** awaitOpenSlotForStreamLocked after its bookkeeping: what this turn of the loop comes to. */
  function Decide(c: Conn, q: Request, tooIdle: bool): Turn {
    if q.phase.Waiting? && q.failure.Some? then Leaves
    else if c.marks.closed || !c.CanTake(tooIdle) then Refused
    else if |c.streams| < c.maxConcurrent then Enters
    else Waits
  }

  /** A woken waiter is no longer pending; a newcomer uses up its reservation. */
  function Arrived(c: Conn, q: Request): Conn {
    var n := c.counters;
    c.(counters := if q.phase.Waiting? then n.(pending := Minus1(n.pending)) else n.(reserved := Minus1(n.reserved)))
  }

  /** One turn of the wait for a slot: give up, take the next stream ID, or wait (again). */
  function DoOpen(c: Conn, r: nat, tooIdle: bool): Conn
    requires r in c.requests
  {
    var q := c.requests[r];
    var c1 := Arrived(c, q);
    match Decide(c1, q, tooIdle)
    case Leaves => GaveUp(c1, r, q)
    case Refused => GaveUp(c1, r, q.Abort(Unusable))
    case Enters => AddStreamLocked(c1, r, q)
    case Waits => With(c1.(counters := c1.counters.(pending := c1.counters.pending + 1)), r, q.(phase := Waiting))
  }

  /** A request without a stream ends; cleanupWriteRequest returns its reservation. */
  function GaveUp(c: Conn, r: nat, q: Request): Conn {
    With(c.(counters := c.counters.(reserved := Minus1(c.counters.reserved))), r, q.(phase := Done))
  }

  function AddStreamLocked(c: Conn, r: nat, q: Request): Conn {
    With(c.(nextStreamID := c.nextStreamID + 2, streams := c.streams[c.nextStreamID := r]), r,
         q.(id := c.nextStreamID, phase := Running))
  }

  /** setGoAway's verdict on one stream. */
  function GoAwayFailure(id: nat, code: nat): Failure {
    if id == 1 && code != NO_ERROR then OtherFailure(0) else GotGoAway
  }

  function MergedGoAway(before: Option<GoAway>, last: nat, code: nat): GoAway {
    GoAway(last, if before.Some? && before.value.code != NO_ERROR then before.value.code else code)
  }

  function AfterGoAway(c: Conn, last: nat, code: nat): map<nat, Request> {
    map r | r in c.requests ::
      var q := c.requests[r];
      if q.id in c.streams && c.streams[q.id] == r && q.id > last then q.Abort(GoAwayFailure(q.id, code)) else q
  }

  function AbortAll(c: Conn, f: Failure): map<nat, Request> {
    map r | r in c.requests ::
      if c.requests[r].id in c.streams && c.streams[c.requests[r].id] == r then c.requests[r].Abort(f)
      else c.requests[r]
  }

  /** cleanupWriteRequest and forgetStreamID for a request that has a stream. */
  function DoFinish(c: Conn, r: nat, failure: Option<Failure>): Conn
    requires r in c.requests
  {
    var q := c.requests[r];
    var q1 := (if failure.Some? then q.Abort(failure.value) else q).(phase := Done);
    var c1 := With(c.(streams := c.streams - {q.id}), r, q1);
    if c1.ClosesOnIdle() && c1.counters.reserved == 0 && |c1.streams| == 0 then c1.(marks := c1.marks.(closed := true))
    else c1
  }

  function Do(c: Conn, e: Event): Conn
    requires Enabled(c, e)
  {
    match e
    case NewRequest(r) => With(c, r, Request(0, Pending, false, None))
    case Open(r, tooIdle) => DoOpen(c, r, tooIdle)
    case GiveUp(r, tag) =>
      GaveUp(c, r, c.requests[r].Abort(OtherFailure(tag)))
    case SendHeaders(r) => With(c, r, c.requests[r].(sentHeaders := true))
    case Finish(r, failure) => DoFinish(c, r, failure)
    case Cancel(r, tag) => With(c, r, c.requests[r].Abort(OtherFailure(tag)))
    case RecvGoAway(last, code) =>
      var g := MergedGoAway(c.marks.goAway, last, code);
      c.(marks := c.marks.(goAway := Some(g)), requests := AfterGoAway(c, last, g.code),
         heard := c.heard.(goAways := c.heard.goAways + {GoAway(last, code)}))
    case RecvReset(id, code) =>
      var c1 := With(c, c.streams[id], c.requests[c.streams[id]].Abort(StreamError(code, true)));
      c1.(heard := c.heard.(resets := c.heard.resets + {(id, code)}),
          marks := c.marks.(doNotReuse := c.marks.doNotReuse || code == CODE_PROTOCOL))
    case LocalStreamError(id, code) => With(c, c.streams[id], c.requests[c.streams[id]].Abort(StreamError(code, false)))
    case RecvSettings(limit) =>
      c.(maxConcurrent := if limit.Some? then limit.value else if c.seenSettings then c.maxConcurrent else 1000,
         seenSettings := true)
    case Reserve(_) => c.(counters := c.counters.(reserved := c.counters.reserved + 1))
    case Shutdown => c.(marks := c.marks.(closing := true))
    case SetDoNotReuse => c.(marks := c.marks.(doNotReuse := true))
    case CloseIfIdle => c.(marks := c.marks.(closed := true))
    case Close => c.(marks := c.marks.(closed := true), requests := AbortAll(c, OtherFailure(1)))
  }

  /** newClientConn: firstID is 1, or past the streams named by priority frames. */
  function Start(config: Config, firstID: nat): Conn {
    Conn(config, Marks(None, false, false, false), Counters(0, 0), Heard({}, {}), firstID, 100, false, map[], map[])
  }

  function Run(c: Conn, es: seq<Event>): Conn
    decreases |es|
  {
    if es == [] then c
    else if Enabled(c, es[0]) then Run(Do(c, es[0]), es[1..])
    else Run(c, es[1..])
  }

  // ------------------------------------------------------------ invariants

  /** Why a request's recorded failure is what it is. */
  ghost predicate Explained(c: Conn, q: Request) {
    q.failure.Some? ==>
      match q.failure.value
      case Unusable => q.id == 0 && q.phase.Done? && !q.sentHeaders
      case GotGoAway => q.id != 0 && exists g <- c.heard.goAways :: q.id > g.last
      case StreamError(code, fromPeer) =>
        q.id != 0 && if fromPeer then (q.id, code) in c.heard.resets else code != CODE_REFUSED_STREAM
      case OtherFailure(_) => true
  }

  ghost predicate RequestInv(c: Conn, r: nat, q: Request) {
    && q.id < c.nextStreamID
    && (q.phase.Pending? || q.phase.Waiting? ==> q.id == 0)
    && (q.sentHeaders ==> q.id != 0)
    && (q.phase.Running? ==> q.id in c.streams && c.streams[q.id] == r)
    && Explained(c, q)
  }

  /** The table's entry for a stream points to a running request that has this stream. */
  ghost predicate EntryInv(c: Conn, id: nat)
    requires id in c.streams
  {
    && 0 < id < c.nextStreamID && id < MAX_INT32
    && c.streams[id] in c.requests && c.requests[c.streams[id]].id == id && c.requests[c.streams[id]].phase.Running?
  }

  ghost predicate Inv(c: Conn) {
    && 0 < c.nextStreamID
    && (forall id <- c.streams :: EntryInv(c, id))
    && (forall r <- c.requests :: RequestInv(c, r, c.requests[r]))
  }

  /** The requests other than r keep what is known of them when r changes. */
  lemma OthersUnaffected(c: Conn, d: Conn, r: nat, q: Request)
    requires Inv(c) && d.requests == c.requests[r := q] && RequestInv(d, r, q)
    requires c.nextStreamID <= d.nextStreamID && d.heard == c.heard
    requires forall id <- c.streams :: c.streams[id] != r ==> id in d.streams && d.streams[id] == c.streams[id]
    ensures forall k <- d.requests :: RequestInv(d, k, d.requests[k])
  {
    forall k | k in d.requests
      ensures RequestInv(d, k, d.requests[k])
    {
      if k != r {
        assert RequestInv(c, k, c.requests[k]);
      }
    }
  }

  /** r gains the stream nextStreamID. */
  lemma GainKeepsInv(c: Conn, d: Conn, r: nat)
    requires Inv(c) && r in c.requests && c.requests[r].id == 0 && !c.requests[r].phase.Done?
    requires c.nextStreamID < MAX_INT32 && d.nextStreamID == c.nextStreamID + 2
    requires d.streams == c.streams[c.nextStreamID := r] && d.heard == c.heard
    requires d.requests == c.requests[r := c.requests[r].(id := c.nextStreamID, phase := Running)]
    ensures Inv(d)
  {
    assert RequestInv(c, r, c.requests[r]);
    assert forall id <- c.streams :: EntryInv(c, id);
    OthersUnaffected(c, d, r, d.requests[r]);
  }

  /** r gives up its stream. */
  lemma LossKeepsInv(c: Conn, d: Conn, r: nat, q: Request)
    requires Inv(c) && r in c.requests && c.requests[r].phase.Running? && q.id == c.requests[r].id
    requires d.nextStreamID == c.nextStreamID && d.heard == c.heard
    requires d.streams == c.streams - {q.id} && d.requests == c.requests[r := q] && q.phase.Done?
    requires (q.sentHeaders ==> q.id != 0) && Explained(d, q)
    ensures Inv(d)
  {
    assert RequestInv(c, r, c.requests[r]);
    assert forall id <- c.streams :: EntryInv(c, id);
    OthersUnaffected(c, d, r, q);
  }

  /** A request that has no stream changes. */
  lemma StreamlessKeepsInv(c: Conn, d: Conn, r: nat, q: Request)
    requires Inv(c) && (r in c.requests ==> !c.requests[r].phase.Running?) && !q.phase.Running?
    requires d.nextStreamID == c.nextStreamID && d.streams == c.streams && d.heard == c.heard
    requires d.requests == c.requests[r := q] && RequestInv(d, r, q)
    ensures Inv(d)
  {
    assert forall id <- c.streams :: EntryInv(c, id);
    OthersUnaffected(c, d, r, q);
  }

  lemma GaveUpKeepsInv(c: Conn, r: nat, q: Request)
    requires Inv(c) && r in c.requests && !c.requests[r].phase.Running? && RequestInv(c, r, q.(phase := Done))
    ensures Inv(GaveUp(c, r, q))
  {
    StreamlessKeepsInv(c, GaveUp(c, r, q), r, q.(phase := Done));
  }

  lemma AddStreamKeepsInv(c: Conn, r: nat)
    requires Inv(c) && r in c.requests && (c.requests[r].phase.Pending? || c.requests[r].phase.Waiting?)
    requires c.nextStreamID < MAX_INT32
    ensures Inv(AddStreamLocked(c, r, c.requests[r]))
  {
    assert RequestInv(c, r, c.requests[r]);
    GainKeepsInv(c, AddStreamLocked(c, r, c.requests[r]), r);
  }

  /** Inv does not look at the counters. */
  lemma CountersAside(c: Conn, n: Counters)
    requires Inv(c)
    ensures Inv(c.(counters := n))
  {
    FailuresKeepInv(c, c.(counters := n));
  }

  lemma OpenKeepsInv(c: Conn, r: nat, tooIdle: bool)
    requires Inv(c) && Enabled(c, Open(r, tooIdle))
    ensures Inv(DoOpen(c, r, tooIdle))
  {
    var q := c.requests[r];
    var c1 := Arrived(c, q);
    CountersAside(c, c1.counters);
    assert RequestInv(c1, r, q);
    match Decide(c1, q, tooIdle) {
      case Leaves => GaveUpKeepsInv(c1, r, q);
      case Refused => GaveUpKeepsInv(c1, r, q.Abort(Unusable));
      case Enters => AddStreamKeepsInv(c1, r);
      case Waits => StreamlessKeepsInv(c1, DoOpen(c, r, tooIdle), r, q.(phase := Waiting));
    }
  }

  lemma FinishKeepsInv(c: Conn, r: nat, failure: Option<Failure>)
    requires Inv(c) && Enabled(c, Finish(r, failure))
    ensures Inv(DoFinish(c, r, failure))
  {
    var d := DoFinish(c, r, failure);
    assert RequestInv(c, r, c.requests[r]);
    LossKeepsInv(c, d, r, d.requests[r]);
  }

  lemma QuietKeepsInv(c: Conn, e: Event)
    requires Inv(c) && Enabled(c, e) && (e.NewRequest? || e.GiveUp? || e.SendHeaders?)
    ensures Inv(Do(c, e))
  {
    var d := Do(c, e);
    assert e.r in c.requests ==> RequestInv(c, e.r, c.requests[e.r]);
    if e.SendHeaders? {
      assert forall id <- c.streams :: EntryInv(c, id);
      OthersUnaffected(c, d, e.r, d.requests[e.r]);
    } else {
      StreamlessKeepsInv(c, d, e.r, d.requests[e.r]);
    }
  }

  /** Requests keep their streams and phases; failures are added for a reason the connection has recorded. */
  ghost predicate OnlyFailuresAdded(c: Conn, d: Conn) {
    && d.streams == c.streams && d.nextStreamID == c.nextStreamID && d.requests.Keys == c.requests.Keys
    && c.heard.goAways <= d.heard.goAways && c.heard.resets <= d.heard.resets
    && forall r <- c.requests :: var q, q' := c.requests[r], d.requests[r];
         q' == q || (q' == q.(failure := q'.failure) && Explained(d, q'))
  }

  lemma FailuresKeepInv(c: Conn, d: Conn)
    requires Inv(c) && OnlyFailuresAdded(c, d)
    ensures Inv(d)
  {
    forall r | r in d.requests
      ensures RequestInv(d, r, d.requests[r])
    {
      assert RequestInv(c, r, c.requests[r]);
    }
    assert forall id <- c.streams :: EntryInv(c, id);
  }

  lemma GoAwayAddsFailures(c: Conn, last: nat, code: nat)
    requires Inv(c)
    ensures OnlyFailuresAdded(c, Do(c, RecvGoAway(last, code)))
  {
    var d := Do(c, RecvGoAway(last, code));
    assert GoAway(last, code) in d.heard.goAways;
    forall r | r in c.requests && d.requests[r] != c.requests[r]
      ensures Explained(d, d.requests[r])
    {
      assert RequestInv(c, r, c.requests[r]);
    }
  }

  lemma ResetAddsFailure(c: Conn, e: Event)
    requires Inv(c) && Enabled(c, e)
    requires e.RecvReset? || e.LocalStreamError? || e.Cancel? || e.Close?
    ensures OnlyFailuresAdded(c, Do(c, e))
  {
    var d := Do(c, e);
    assert !e.Cancel? && !e.Close? ==> EntryInv(c, e.id);
    forall r | r in c.requests && d.requests[r] != c.requests[r]
      ensures Explained(d, d.requests[r])
    {
      assert RequestInv(c, r, c.requests[r]);
    }
  }

  lemma StepKeepsInv(c: Conn, e: Event)
    requires Inv(c) && Enabled(c, e)
    ensures Inv(Do(c, e))
  {
    match e {
      case Open(r, tooIdle) => OpenKeepsInv(c, r, tooIdle);
      case RecvGoAway(last, code) =>
        GoAwayAddsFailures(c, last, code);
        FailuresKeepInv(c, Do(c, e));
      case NewRequest(_) => QuietKeepsInv(c, e);
      case GiveUp(_, _) => QuietKeepsInv(c, e);
      case SendHeaders(_) => QuietKeepsInv(c, e);
      case Finish(r, failure) => FinishKeepsInv(c, r, failure);
      case RecvSettings(_) => FailuresKeepInv(c, Do(c, e));
      case Reserve(_) => FailuresKeepInv(c, Do(c, e));
      case Shutdown => FailuresKeepInv(c, Do(c, e));
      case SetDoNotReuse => FailuresKeepInv(c, Do(c, e));
      case CloseIfIdle => FailuresKeepInv(c, Do(c, e));
      case _ =>
        ResetAddsFailure(c, e);
        FailuresKeepInv(c, Do(c, e));
    }
  }

  lemma {:induction false} RunKeepsInv(c: Conn, es: seq<Event>)
    requires Inv(c)
    ensures Inv(Run(c, es))
    decreases |es|
  {
    if es != [] {
      if Enabled(c, es[0]) {
        StepKeepsInv(c, es[0]);
        RunKeepsInv(Do(c, es[0]), es[1..]);
      } else {
        RunKeepsInv(c, es[1..]);
      }
    }
  }

  // ------------------------------------------------------------ what holds over every run

  /** The table after a step has an entry it did not have before. */
  predicate AddsStream(c: Conn, e: Event)
    requires Enabled(c, e)
  {
    !(Do(c, e).streams.Keys <= c.streams.Keys)
  }

  /** Only a successful wait for a slot adds a stream. */
  lemma OnlyOpenAdds(c: Conn, e: Event)
    requires Enabled(c, e)
    ensures !e.Open? ==> Do(c, e).streams.Keys <= c.streams.Keys && Do(c, e).nextStreamID == c.nextStreamID
  {
    match e {
      case Finish(r, failure) => assert Do(c, e).streams == c.streams - {c.requests[r].id};
      case _ =>
    }
  }

  lemma {:induction false} OpenAddsWhenAllowed(c: Conn, r: nat, tooIdle: bool)
    requires Enabled(c, Open(r, tooIdle)) && c.nextStreamID > 0
    ensures var d := DoOpen(c, r, tooIdle);
      (d.streams == c.streams && d.nextStreamID == c.nextStreamID)
      || (c.marks.Clear() && |c.streams| < c.maxConcurrent
          && d.streams == c.streams[c.nextStreamID := r]
          && c.nextStreamID < MAX_INT32 && d.nextStreamID == c.nextStreamID + 2)
  {
    var c1 := Arrived(c, c.requests[r]);
    match Decide(c1, c.requests[r], tooIdle) {
      case Enters =>
        var d := AddStreamLocked(c1, r, c.requests[r]);
        assert d.streams == c.streams[c.nextStreamID := r];
      case _ =>
    }
  }

  /** The marks that end a connection stay. */
  lemma MarksStay(c: Conn, e: Event)
    requires Enabled(c, e)
    ensures c.marks.Within(Do(c, e).marks)
  {
    match e {
      case Open(r, tooIdle) => OpenKeepsMarks(c, r, tooIdle);
      case Finish(r, failure) => assert DoFinish(c, r, failure).marks.goAway == c.marks.goAway;
      case _ =>
    }
  }

  lemma OpenKeepsMarks(c: Conn, r: nat, tooIdle: bool)
    requires r in c.requests
    ensures DoOpen(c, r, tooIdle).marks == c.marks
  {
    var c1 := Arrived(c, c.requests[r]);
    assert c1.marks == c.marks;
    match Decide(c1, c.requests[r], tooIdle) {
      case Leaves =>
      case Refused =>
      case Enters =>
      case Waits =>
    }
  }

  /**
   * A stream is added only on an open connection that has seen no GOAWAY and below the limit then in force; it
   * gets the next ID, which is larger than every ID before it, fits 31 bits, and is not 0.
   */
  lemma AddedOnlyWhenAllowed(start: Conn, es: seq<Event>, e: Event)
    requires start.IsNew()
    requires var c := Run(start, es); Enabled(c, e) && AddsStream(c, e)
    ensures var c := Run(start, es); var d := Do(c, e);
      && c.marks.Clear()
      && |c.streams| < c.maxConcurrent
      && d.streams.Keys == c.streams.Keys + {c.nextStreamID}
      && 0 < c.nextStreamID < MAX_INT32 && d.nextStreamID == c.nextStreamID + 2
      && (forall r <- c.requests :: c.requests[r].id < c.nextStreamID)
  {
    RunKeepsInv(start, es);
    var c := Run(start, es);
    OnlyOpenAdds(c, e);
    OpenAddsWhenAllowed(c, e.r, e.tooIdle);
    forall r | r in c.requests
      ensures c.requests[r].id < c.nextStreamID
    {
      assert RequestInv(c, r, c.requests[r]);
    }
  }

  /** After GOAWAY, close, graceful shutdown or a do-not-reuse mark, no run adds another stream. */
  lemma {:induction false} NoneAddedAfterTheEnd(c: Conn, es: seq<Event>)
    requires !c.marks.Clear() && c.nextStreamID > 0
    ensures Run(c, es).nextStreamID == c.nextStreamID
    ensures Run(c, es).streams.Keys <= c.streams.Keys
    decreases |es|
  {
    if es != [] {
      if Enabled(c, es[0]) {
        OnlyOpenAdds(c, es[0]);
        MarksStay(c, es[0]);
        if es[0].Open? {
          OpenAddsWhenAllowed(c, es[0].r, es[0].tooIdle);
        }
        NoneAddedAfterTheEnd(Do(c, es[0]), es[1..]);
      } else {
        NoneAddedAfterTheEnd(c, es[1..]);
      }
    }
  }

  /** forgetStreamID always finds its stream: the panic "forgetting unknown stream id" is unreachable. */
  lemma ForgetFindsItsStream(start: Conn, es: seq<Event>, r: nat, f: Option<Failure>)
    requires start.IsNew()
    requires Enabled(Run(start, es), Finish(r, f))
    ensures var c := Run(start, es);
      c.requests[r].id in c.streams && |Do(c, Finish(r, f)).streams| == |c.streams| - 1
  {
    RunKeepsInv(start, es);
    var c := Run(start, es);
    assert RequestInv(c, r, c.requests[r]);
    assert (c.streams - {c.requests[r].id}).Keys == c.streams.Keys - {c.requests[r].id};
  }

  /**
   * The server cannot have acted on the request, or has said that it has not, or has reset it with PROTOCOL_ERROR,
   * which says neither but which the code retries as well.
   */
  ghost predicate SafeToResend(c: Conn, q: Request) {
    || (q.id == 0 && !q.sentHeaders)
    || (exists g <- c.heard.goAways :: q.id > g.last)
    || (q.id, CODE_REFUSED_STREAM) in c.heard.resets
    || (q.id, CODE_PROTOCOL) in c.heard.resets
  }

  /** A retryable failure always has such a reason, whatever happened on the connection. */
  lemma RetryableIsSafe(start: Conn, es: seq<Event>, r: nat)
    requires start.IsNew()
    requires var c := Run(start, es);
      r in c.requests && c.requests[r].failure.Some? && CanRetryError(c.requests[r].failure.value)
    ensures var c := Run(start, es); SafeToResend(c, c.requests[r])
  {
    RunKeepsInv(start, es);
    var c := Run(start, es);
    assert RequestInv(c, r, c.requests[r]);
  }

  // ------------------------------------------------------------ RoundTripOpt

  /** The request body: none, replayable through GetBody (which may fail), or not replayable. */
  datatype ReqBody = NoBody | Replayable(getBodyFails: bool) | OneShot

  /** shouldRetryRequest. */
  predicate ShouldRetry(body: ReqBody, f: Failure) {
    CanRetryError(f) &&
    match body
    case NoBody => true
    case Replayable(fails) => !fails
    case OneShot => f.Unusable?
  }

  /** What is returned when GetClientConn fails. */
  const NO_CONN := OtherFailure(3)

  /** The error of the request's context. */
  const CONTEXT_DONE := OtherFailure(2)

  /**
   * One attempt: the connection it ran on, everything that happened there, and which request it was; or no
   * connection at all.
   */
  datatype Attempt = NoConn | Attempt(start: Conn, es: seq<Event>, r: nat) {
    function Conn(): Conn
      requires Attempt?
    {
      Run(start, es)
    }

    ghost predicate Genuine() { Attempt? ==> start.IsNew() && r in Conn().requests }

    function Failure(): Option<Failure> {
      if NoConn? then Some(NO_CONN) else if r in Conn().requests then Conn().requests[r].failure else None
    }

    /** RoundTripOpt sends the request again after this attempt. */
    predicate Resent(body: ReqBody) { Failure().Some? && ShouldRetry(body, Failure().value) }

    ghost predicate RightlyResent(body: ReqBody) {
      Attempt? && r in Conn().requests && Resent(body) && SafeToResend(Conn(), Conn().requests[r])
    }
  }

  lemma GenuineRetryIsSafe(a: Attempt)
    requires a.Genuine() && a.Failure().Some? && CanRetryError(a.Failure().value)
    ensures a.Attempt? && SafeToResend(a.Conn(), a.Conn().requests[a.r])
  {
    RetryableIsSafe(a.start, a.es, a.r);
  }

  /**
   * RoundTripOpt: attempts[i] is what happens on the i-th try. Returns how many tries were made, the last one's
   * failure, and whether the request's context ended while it waited for another.
   */
  method RoundTripOpt(attempts: seq<Attempt>, body: ReqBody)
      returns (tries: nat, failure: Option<Failure>, contextDone: bool)
    requires |attempts| >= 8 && forall i :: 0 <= i < |attempts| ==> attempts[i].Genuine()
    ensures 1 <= tries <= 8
    ensures forall i :: 0 <= i < tries - 1 ==> attempts[i].RightlyResent(body)
    ensures failure == if contextDone then Some(CONTEXT_DONE) else attempts[tries - 1].Failure()
    ensures attempts[tries - 1].Attempt? && attempts[tries - 1].Resent(body) ==> tries == 8 || contextDone
    ensures contextDone ==> 2 <= tries < 8 && attempts[tries - 1].Attempt? && attempts[tries - 1].Resent(body)
  {
    var retry := 0;
    contextDone := false;
    while true
      invariant 0 <= retry <= 7 && !contextDone
      invariant forall i :: 0 <= i < retry ==> attempts[i].RightlyResent(body)
      decreases 7 - retry
    {
      failure := attempts[retry].Failure();
      if attempts[retry].NoConn? {
        return retry + 1, failure, false;
      }
      if failure.Some? && retry <= 6 && ShouldRetry(body, failure.value) {
        GenuineRetryIsSafe(attempts[retry]);
        var ended: bool := *;
        if retry == 0 || !ended {
          retry := retry + 1;
          continue;
        }
        return retry + 1, Some(CONTEXT_DONE), true;
      }
      return retry + 1, failure, false;
    }
  }
}
