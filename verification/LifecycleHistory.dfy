/**
 * What the events on a connection make of it (internal/http2/transport.go): the state of Lifecycle in terms of what
 * was received, asked for and answered.
 */
module LifecycleHistory {
  import opened MachineInts
  import opened Wrappers
  import opened Lifecycle

  // ------------------------------------------------------------ what the server said

  /**
   * SETTINGS_MAX_CONCURRENT_STREAMS as the server last named it. Until it does, 100, and 1000 once its first SETTINGS
   * have come.
   */
  function LimitAfter(es: seq<Event>, limit: nat, seen: bool): nat {
    if es == [] then limit
    else if !es[0].RecvSettings? then LimitAfter(es[1..], limit, seen)
    else LimitAfter(es[1..], if es[0].limit.Some? then es[0].limit.value else if seen then limit else 1000, true)
  }

  lemma {:induction false} LimitIsTheServers(c: Conn, es: seq<Event>)
    ensures Run(c, es).maxConcurrent == LimitAfter(es, c.maxConcurrent, c.seenSettings)
    decreases |es|
  {
    if es != [] {
      if Enabled(c, es[0]) {
        if !es[0].RecvSettings? {
          OnlySettingsLimit(c, es[0]);
        }
        LimitIsTheServers(Do(c, es[0]), es[1..]);
      } else {
        LimitIsTheServers(c, es[1..]);
      }
    }
  }

  lemma OnlySettingsLimit(c: Conn, e: Event)
    requires Enabled(c, e) && !e.RecvSettings?
    ensures Do(c, e).maxConcurrent == c.maxConcurrent && Do(c, e).seenSettings == c.seenSettings
    ensures Do(c, e).config == c.config
  {
    match e {
      case Open(r, tooIdle) => OpenKeepsLimit(c, r, tooIdle);
      case _ =>
    }
  }

  lemma OpenKeepsLimit(c: Conn, r: nat, tooIdle: bool)
    requires r in c.requests
    ensures var d := DoOpen(c, r, tooIdle);
      d.maxConcurrent == c.maxConcurrent && d.seenSettings == c.seenSettings && d.config == c.config
  {
    var c1 := Arrived(c, c.requests[r]);
    match Decide(c1, c.requests[r], tooIdle) {
      case Leaves =>
      case Refused =>
      case Enters =>
      case Waits =>
    }
  }

  /** Main result: in every run a stream is added only below the limit that the server has named last. */
  lemma AddedBelowTheServersLimit(start: Conn, es: seq<Event>, e: Event)
    requires start.IsNew()
    requires var c := Run(start, es); Enabled(c, e) && AddsStream(c, e)
    ensures |Run(start, es).streams| < LimitAfter(es, 100, false)
    ensures |Do(Run(start, es), e).streams| <= LimitAfter(es + [e], 100, false)
  {
    AddedOnlyWhenAllowed(start, es, e);
    LimitIsTheServers(start, es);
    OnlyOpenAdds(Run(start, es), e);
    OpenAddsWhenAllowed(Run(start, es), e.r, e.tooIdle);
    LimitStays(es, e, 100, false);
  }

  lemma {:induction false} LimitStays(es: seq<Event>, e: Event, limit: nat, seen: bool)
    requires !e.RecvSettings?
    ensures LimitAfter(es + [e], limit, seen) == LimitAfter(es, limit, seen)
    decreases |es|
  {
    if es == [] {
      assert (es + [e])[1..] == [];
    } else {
      assert (es + [e])[1..] == es[1..] + [e] && (es + [e])[0] == es[0];
      LimitStays(es[1..], e, if es[0].RecvSettings? && es[0].limit.Some? then es[0].limit.value
                             else if es[0].RecvSettings? && !seen then 1000 else limit, seen || es[0].RecvSettings?);
    }
  }

  /** The error code of the GOAWAY frames so far: the first that is not NO_ERROR, or else that of the last. */
  function GoAwayCode(es: seq<Event>, code: nat): nat {
    if es == [] then code
    else GoAwayCode(es[1..], if es[0].RecvGoAway? && code == 0 then es[0].code else code)
  }

  function CodeOf(c: Conn): nat { if c.marks.goAway.Some? then c.marks.goAway.value.code else 0 }

  lemma {:induction false} GoAwayCodeIsTheFirst(c: Conn, es: seq<Event>)
    ensures CodeOf(Run(c, es)) == GoAwayCode(es, CodeOf(c))
    decreases |es|
  {
    if es != [] {
      if Enabled(c, es[0]) {
        if !es[0].RecvGoAway? {
          OnlyGoAwayMarks(c, es[0]);
        }
        GoAwayCodeIsTheFirst(Do(c, es[0]), es[1..]);
      } else {
        GoAwayCodeIsTheFirst(c, es[1..]);
      }
    }
  }

  lemma OnlyGoAwayMarks(c: Conn, e: Event)
    requires Enabled(c, e) && !e.RecvGoAway?
    ensures Do(c, e).marks.goAway == c.marks.goAway
  {
    match e {
      case Open(r, tooIdle) => OpenKeepsMarks(c, r, tooIdle);
      case _ =>
    }
  }

  // ------------------------------------------------------------ who fails, and how

  /** The failure that a GOAWAY gives a stream it excludes; the first stream is not to be retried after an error. */
  function Excluded(c: Conn, id: nat, code: nat): Failure {
    if id == 1 && (if CodeOf(c) != 0 then CodeOf(c) else code) != 0 then OtherFailure(0) else GotGoAway
  }

  predicate HasStream(c: Conn, r: nat) {
    r in c.requests && c.requests[r].id in c.streams && c.streams[c.requests[r].id] == r
  }

  /** The reason this event gives request r to fail, if it had none before. */
  function Reason(c: Conn, e: Event, r: nat): Option<Failure>
    requires r in c.requests && Enabled(c, e)
  {
    var q := c.requests[r];
    match e
    case RecvGoAway(last, code) => if HasStream(c, r) && q.id > last then Some(Excluded(c, q.id, code)) else None
    case RecvReset(id, code) => if HasStream(c, r) && q.id == id then Some(StreamError(code, true)) else None
    case LocalStreamError(id, code) => if HasStream(c, r) && q.id == id then Some(StreamError(code, false)) else None
    case Close => if HasStream(c, r) then Some(OtherFailure(1)) else None
    case Cancel(k, tag) => if k == r then Some(OtherFailure(tag)) else None
    case GiveUp(k, tag) => if k == r then Some(OtherFailure(tag)) else None
    case Finish(k, failure) => if k == r then failure else None
    case Open(k, tooIdle) => if k == r && !Admits(c, q, tooIdle) then Some(Unusable) else None
    case _ => None
  }

  /** The connection can take request q now, which gives up its place among the waiting or its reservation. */
  predicate Admits(c: Conn, q: Request, tooIdle: bool) {
    var pending := if q.phase.Waiting? then Minus1(c.counters.pending) else c.counters.pending;
    var reserved := if q.phase.Waiting? then c.counters.reserved else Minus1(c.counters.reserved);
    && c.marks.Clear() && !tooIdle && !(c.config.singleUse && c.nextStreamID > 1)
    && c.nextStreamID + 2 * pending < 0x7fff_ffff
    && (c.config.strict || |c.streams| + reserved < c.maxConcurrent)
  }

  /**
   * Main result on failures: a request fails at a step if and only if the step gives it a reason, with that reason, and
   * a request that has failed keeps its first one.
   */
  lemma FailsForTheFirstReason(c: Conn, e: Event, r: nat)
    requires Inv(c) && Enabled(c, e) && r in c.requests
    ensures r in Do(c, e).requests
    ensures Do(c, e).requests[r].failure
      == if c.requests[r].failure.Some? then c.requests[r].failure else Reason(c, e, r)
  {
    match e {
      case RecvGoAway(last, code) =>
      case RecvReset(id, code) => ResetFails(c, e, id, r);
      case LocalStreamError(id, code) => ResetFails(c, e, id, r);
      case Open(k, tooIdle) => OpenFails(c, k, tooIdle, r);
      case Close =>
      case _ => OtherFails(c, e, r);
    }
  }

  lemma ResetFails(c: Conn, e: Event, id: nat, r: nat)
    requires Inv(c) && Enabled(c, e) && r in c.requests && (e.RecvReset? || e.LocalStreamError?) && e.id == id
    ensures r in Do(c, e).requests
    ensures Do(c, e).requests[r].failure
      == if c.requests[r].failure.Some? then c.requests[r].failure else Reason(c, e, r)
  {
    assert EntryInv(c, id);
  }

  lemma OtherFails(c: Conn, e: Event, r: nat)
    requires Enabled(c, e) && r in c.requests
    requires !e.RecvGoAway? && !e.RecvReset? && !e.LocalStreamError? && !e.Open? && !e.Close?
    ensures r in Do(c, e).requests
    ensures Do(c, e).requests[r].failure
      == if c.requests[r].failure.Some? then c.requests[r].failure else Reason(c, e, r)
  {
    match e {
      case Finish(k, failure) => FinishFails(c, k, failure, r);
      case Cancel(_, _) =>
      case GiveUp(_, _) =>
      case NewRequest(_) =>
      case SendHeaders(_) =>
      case _ =>
    }
  }

  lemma FinishFails(c: Conn, k: nat, failure: Option<Failure>, r: nat)
    requires Enabled(c, Finish(k, failure)) && r in c.requests
    ensures r in DoFinish(c, k, failure).requests
    ensures DoFinish(c, k, failure).requests[r].failure
      == if c.requests[r].failure.None? && k == r then failure else c.requests[r].failure
  {
  }

  lemma OpenFails(c: Conn, k: nat, tooIdle: bool, r: nat)
    requires Inv(c) && Enabled(c, Open(k, tooIdle)) && r in c.requests
    ensures r in DoOpen(c, k, tooIdle).requests
    ensures DoOpen(c, k, tooIdle).requests[r].failure
      == if c.requests[r].failure.Some? then c.requests[r].failure else Reason(c, Open(k, tooIdle), r)
  {
    var q := c.requests[k];
    var c1 := Arrived(c, q);
    AdmitsIsCanTake(c, q, tooIdle);
    match Decide(c1, q, tooIdle) {
      case Leaves =>
      case Refused =>
      case Enters =>
      case Waits =>
    }
  }

  lemma AdmitsIsCanTake(c: Conn, q: Request, tooIdle: bool)
    ensures Admits(c, q, tooIdle) <==> Arrived(c, q).CanTake(tooIdle)
  {
  }

  /** GOAWAY aborts exactly the streams above its last ID, and leaves the others alone. */
  lemma GoAwayAborts(c: Conn, last: nat, code: nat, id: nat)
    requires Inv(c) && id in c.streams
    ensures c.streams[id] in c.requests && c.streams[id] in Do(c, RecvGoAway(last, code)).requests
    ensures var q, q' := c.requests[c.streams[id]], Do(c, RecvGoAway(last, code)).requests[c.streams[id]];
      q' == if id <= last || q.failure.Some? then q else q.(failure := Some(Excluded(c, id, code)))
  {
    assert EntryInv(c, id);
    FailsForTheFirstReason(c, RecvGoAway(last, code), c.streams[id]);
  }

  /** What fails at a step may be sent again in exactly these cases. */
  lemma RetryableIff(c: Conn, e: Event, r: nat)
    requires Inv(c) && Enabled(c, e) && r in c.requests && c.requests[r].failure.None?
    requires r in Do(c, e).requests && Do(c, e).requests[r].failure.Some?
    ensures CanRetryError(Do(c, e).requests[r].failure.value) <==>
      match e
      case RecvGoAway(_, code) => c.requests[r].id != 1 || (CodeOf(c) == 0 && code == 0)
      case RecvReset(_, code) => code == 1 || code == 7
      case Open(_, _) => true
      case _ => false
  {
    FailsForTheFirstReason(c, e, r);
  }

  // ------------------------------------------------------------ when a connection takes requests

  /** Something was received or asked for that keeps new requests away. */
  predicate TurnedAway(c: Conn, es: seq<Event>)
    decreases |es|
  {
    es != [] &&
    if !Enabled(c, es[0]) then TurnedAway(c, es[1..])
    else
      || es[0].RecvGoAway? || es[0].Shutdown? || es[0].SetDoNotReuse? || (es[0].RecvReset? && es[0].code == 1)
      || TurnedAway(Do(c, es[0]), es[1..])
  }

  /** It was closed, or has closed itself: idle, and not to be used again. */
  predicate WasClosed(c: Conn, es: seq<Event>)
    decreases |es|
  {
    es != [] &&
    if !Enabled(c, es[0]) then WasClosed(c, es[1..])
    else
      || es[0].Close? || es[0].CloseIfIdle? || EndsUnusable(c, es[0])
      || WasClosed(Do(c, es[0]), es[1..])
  }

  /** The last stream ends on a connection that nothing is reserved on and that takes no more requests anyway. */
  predicate EndsUnusable(c: Conn, e: Event)
    requires Enabled(c, e)
  {
    e.Finish? && c.streams.Keys <= {c.requests[e.r].id} && c.counters.reserved == 0
    && (c.config.singleUse || c.config.disableKeepAlives || c.marks.doNotReuse || c.marks.goAway.Some?)
  }

  predicate Quiet(m: Marks) { m.goAway.None? && !m.closing && !m.doNotReuse }

  lemma {:induction false} MarksTell(c: Conn, es: seq<Event>)
    ensures Quiet(Run(c, es).marks) <==> Quiet(c.marks) && !TurnedAway(c, es)
    ensures Run(c, es).marks.closed <==> c.marks.closed || WasClosed(c, es)
    ensures Run(c, es).config == c.config
    decreases |es|
  {
    if es != [] {
      if Enabled(c, es[0]) {
        StepMarks(c, es[0]);
        MarksTell(Do(c, es[0]), es[1..]);
      } else {
        MarksTell(c, es[1..]);
      }
    }
  }

  lemma StepMarks(c: Conn, e: Event)
    requires Enabled(c, e)
    ensures Quiet(Do(c, e).marks) <==>
      Quiet(c.marks) && !(e.RecvGoAway? || e.Shutdown? || e.SetDoNotReuse? || (e.RecvReset? && e.code == 1))
    ensures Do(c, e).marks.closed <==> c.marks.closed || e.Close? || e.CloseIfIdle? || EndsUnusable(c, e)
    ensures Do(c, e).config == c.config
  {
    match e {
      case Open(r, tooIdle) =>
        OpenKeepsMarks(c, r, tooIdle);
        OpenKeepsLimit(c, r, tooIdle);
      case Finish(r, failure) => FinishMarks(c, r, failure);
      case _ =>
    }
  }

  lemma FinishMarks(c: Conn, r: nat, failure: Option<Failure>)
    requires Enabled(c, Finish(r, failure))
    ensures DoFinish(c, r, failure).marks
      == c.marks.(closed := c.marks.closed || EndsUnusable(c, Finish(r, failure)))
  {
    var id := c.requests[r].id;
    assert (c.streams - {id}).Keys == c.streams.Keys - {id};
    assert |c.streams - {id}| == 0 <==> c.streams.Keys <= {id};
  }

  /**
   * Main result on reuse: a connection can take a request if and only if nothing has turned requests away or closed it,
   * it has room under the server's limit, its IDs are not used up, and it has not idled too long.
   */
  lemma CanTakeIff(start: Conn, es: seq<Event>, tooIdle: bool)
    requires start.IsNew()
    ensures var c := Run(start, es);
      c.CanTake(tooIdle) <==>
        && !TurnedAway(start, es) && !WasClosed(start, es) && !tooIdle
        && !(start.config.singleUse && c.nextStreamID > 1) && c.nextStreamID + 2 * c.counters.pending < 0x7fff_ffff
        && (start.config.strict || |c.streams| + c.counters.reserved < LimitAfter(es, 100, false))
  {
    MarksTell(start, es);
    LimitIsTheServers(start, es);
  }

  /** A turn of the wait adds a stream if and only if the request still wants one, is admitted, and there is room. */
  lemma OpensIff(c: Conn, r: nat, tooIdle: bool)
    requires Inv(c) && Enabled(c, Open(r, tooIdle))
    ensures AddsStream(c, Open(r, tooIdle)) <==>
      !(c.requests[r].phase.Waiting? && c.requests[r].failure.Some?)
      && Admits(c, c.requests[r], tooIdle) && |c.streams| < c.maxConcurrent
  {
    var q := c.requests[r];
    var c1 := Arrived(c, q);
    AdmitsIsCanTake(c, q, tooIdle);
    assert c.nextStreamID !in c.streams by {
      assert forall id <- c.streams :: EntryInv(c, id);
    }
    match Decide(c1, q, tooIdle) {
      case Leaves =>
      case Refused =>
      case Enters => assert c.nextStreamID in DoOpen(c, r, tooIdle).streams;
      case Waits =>
    }
  }

  // ------------------------------------------------------------ who waits

  function WaitingFor(c: Conn): set<nat> { set r | r in c.requests && c.requests[r].phase.Waiting? }

  lemma AbortsDoNotWait(c: Conn, e: Event)
    requires Enabled(c, e) && (e.RecvGoAway? || e.Close?)
    ensures WaitingFor(Do(c, e)) == WaitingFor(c)
  {
    var d := Do(c, e);
    assert forall r :: r in d.requests ==> r in c.requests && d.requests[r].phase == c.requests[r].phase;
    assert forall r :: r in c.requests ==> r in d.requests && d.requests[r].phase == c.requests[r].phase;
  }

  lemma OneDoesNotWait(c: Conn, d: Conn, r: nat)
    requires r in d.requests && d.requests == c.requests[r := d.requests[r]]
    requires d.requests[r].phase.Waiting? <==> r in c.requests && c.requests[r].phase.Waiting?
    ensures WaitingFor(d) == WaitingFor(c)
  {
    assert forall k :: k in d.requests && k != r ==> k in c.requests && d.requests[k] == c.requests[k];
    assert forall k :: k in c.requests && k != r ==> k in d.requests && d.requests[k] == c.requests[k];
  }

  lemma PendingStays(c: Conn, e: Event)
    requires Enabled(c, e) && !e.Open?
    ensures Do(c, e).counters.pending == c.counters.pending
  {
  }

  lemma RequestsStay(c: Conn, e: Event)
    requires Enabled(c, e)
    requires e.RecvSettings? || e.Reserve? || e.Shutdown? || e.SetDoNotReuse? || e.CloseIfIdle?
    ensures Do(c, e).requests == c.requests
  {
  }

  lemma FinishDoesNotWait(c: Conn, r: nat, failure: Option<Failure>)
    requires Enabled(c, Finish(r, failure))
    ensures WaitingFor(DoFinish(c, r, failure)) == WaitingFor(c)
  {
    OneDoesNotWait(c, DoFinish(c, r, failure), r);
  }

  lemma ResetDoesNotWait(c: Conn, e: Event)
    requires Enabled(c, e) && (e.RecvReset? || e.LocalStreamError?)
    ensures WaitingFor(Do(c, e)) == WaitingFor(c)
  {
    OneDoesNotWait(c, Do(c, e), c.streams[e.id]);
  }

  lemma RequestDoesNotWait(c: Conn, e: Event)
    requires Enabled(c, e) && (e.NewRequest? || e.GiveUp? || e.SendHeaders? || e.Cancel?)
    ensures WaitingFor(Do(c, e)) == WaitingFor(c)
  {
    OneDoesNotWait(c, Do(c, e), e.r);
  }

  lemma OthersDoNotWait(c: Conn, e: Event)
    requires Enabled(c, e) && !e.Open?
    ensures WaitingFor(Do(c, e)) == WaitingFor(c)
  {
    if e.RecvGoAway? || e.Close? {
      AbortsDoNotWait(c, e);
    } else if e.RecvReset? || e.LocalStreamError? {
      ResetDoesNotWait(c, e);
    } else if e.Finish? {
      FinishDoesNotWait(c, e.r, e.failure);
    } else if e.NewRequest? || e.GiveUp? || e.SendHeaders? || e.Cancel? {
      RequestDoesNotWait(c, e);
    } else {
      RequestsStay(c, e);
    }
  }

  lemma OneWaitsOrNot(c: Conn, d: Conn, r: nat, q: Request)
    requires d.requests == c.requests[r := q]
    ensures WaitingFor(d) == (WaitingFor(c) - {r}) + if q.phase.Waiting? then {r} else {}
  {
  }

  /** A turn changes one request, and counts it exactly when it waits afterwards. */
  lemma TurnCounts(c: Conn, r: nat, tooIdle: bool) returns (q': Request)
    requires r in c.requests
    ensures var d := DoOpen(c, r, tooIdle);
      d.requests == c.requests[r := q']
      && d.counters.pending == Arrived(c, c.requests[r]).counters.pending + if q'.phase.Waiting? then 1 else 0
  {
    var c1 := Arrived(c, c.requests[r]);
    q' := DoOpen(c, r, tooIdle).requests[r];
    match Decide(c1, c.requests[r], tooIdle) {
      case Leaves =>
      case Refused =>
      case Enters =>
      case Waits =>
    }
  }

  lemma OpenCountsWaiting(c: Conn, r: nat, tooIdle: bool)
    requires Inv(c) && Enabled(c, Open(r, tooIdle)) && c.counters.pending == |WaitingFor(c)|
    ensures DoOpen(c, r, tooIdle).counters.pending == |WaitingFor(DoOpen(c, r, tooIdle))|
  {
    var q := c.requests[r];
    var rest := WaitingFor(c) - {r};
    var q' := TurnCounts(c, r, tooIdle);
    OneWaitsOrNot(c, DoOpen(c, r, tooIdle), r, q');
    OneWaitsOrNot(c, c, r, q) by {
      assert c.requests == c.requests[r := q];
    }
  }

  /** In every run pendingRequests is the number of requests that wait for a slot. */
  lemma {:induction false} PendingIsWaiting(c: Conn, es: seq<Event>)
    requires Inv(c) && c.counters.pending == |WaitingFor(c)|
    ensures Run(c, es).counters.pending == |WaitingFor(Run(c, es))|
    decreases |es|
  {
    if es != [] {
      if Enabled(c, es[0]) {
        StepKeepsInv(c, es[0]);
        if es[0].Open? {
          OpenCountsWaiting(c, es[0].r, es[0].tooIdle);
        } else {
          OthersDoNotWait(c, es[0]);
          PendingStays(c, es[0]);
        }
        PendingIsWaiting(Do(c, es[0]), es[1..]);
      } else {
        PendingIsWaiting(c, es[1..]);
      }
    }
  }
}
