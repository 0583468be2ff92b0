/**
 * The half of ClientConn that decides over the life of streams (internal/http2/transport.go). Every method
 * does to the fields what Lifecycle.Do does to the state.
 */
module LifecycleConn {
  import opened MachineInts
  import opened Wrappers
  import opened Lifecycle

  class ClientConn {
    const config: Config
    var goAway: Option<GoAway>
    var closed: bool
    var closing: bool
    var doNotReuse: bool
    var pendingRequests: nat
    var streamsReserved: nat
    var nextStreamID: nat
    var maxConcurrentStreams: nat
    var seenSettings: bool
    var streams: map<nat, nat>
    var requests: map<nat, Request>
    ghost var heard: Heard

    ghost function MarksNow(): Marks
      reads this
    {
      Marks(goAway, closed, closing, doNotReuse)
    }

    ghost function View(): Conn
      reads this
    {
      Conn(config, MarksNow(), Counters(pendingRequests, streamsReserved), heard, nextStreamID, maxConcurrentStreams,
           seenSettings, streams, requests)
    }

    constructor (config: Config, firstID: nat)
      ensures View() == Start(config, firstID)
    {
      this.config := config;
      goAway, closed, closing, doNotReuse, pendingRequests, streamsReserved := None, false, false, false, 0, 0;
      nextStreamID, maxConcurrentStreams, seenSettings, streams, requests := firstID, 100, false, map[], map[];
      heard := Heard({}, {});
    }

    method IdleStateLocked(tooIdle: bool) returns (canTakeNewRequest: bool)
      ensures canTakeNewRequest == View().CanTake(tooIdle)
    {
      if config.singleUse && nextStreamID > 1 {
        return false;
      }
      var maxConcurrentOkay: bool;
      if config.strict {
        maxConcurrentOkay := true;
      } else {
        maxConcurrentOkay := |streams| + streamsReserved + 1 <= maxConcurrentStreams;
      }
      return goAway == None && !closed && !closing && maxConcurrentOkay && !doNotReuse
             && nextStreamID + 2 * pendingRequests < MAX_INT32 && !tooIdle;
    }

    method ReserveNewRequest(tooIdle: bool) returns (ok: bool)
      modifies this
      ensures ok == old(View().CanTake(tooIdle))
      ensures View() == if ok then Do(old(View()), Reserve(tooIdle)) else old(View())
    {
      ok := IdleStateLocked(tooIdle);
      if ok {
        streamsReserved := streamsReserved + 1;
      }
    }

    method DecrStreamReservations()
      modifies this`streamsReserved
      ensures streamsReserved == Minus1(old(streamsReserved))
    {
      if streamsReserved > 0 {
        streamsReserved := streamsReserved - 1;
      }
    }

    /** From the end of a wait, or from the start of the request, up to the decision of this turn. */
    method TakeTurn(r: nat, tooIdle: bool) returns (turn: Turn)
      requires r in requests
      modifies this`pendingRequests, this`streamsReserved
      ensures View() == Arrived(old(View()), requests[r]) && turn == Decide(View(), requests[r], tooIdle)
    {
      if requests[r].phase.Waiting? {
        if pendingRequests > 0 {
          pendingRequests := pendingRequests - 1;
        }
        if requests[r].failure.Some? {
          return Leaves;
        }
      } else {
        DecrStreamReservations();
      }
      var usable := IdleStateLocked(tooIdle);
      if closed || !usable {
        return Refused;
      }
      return if |streams| < maxConcurrentStreams then Enters else Waits;
    }

    /** One turn of awaitOpenSlotForStreamLocked, and what writeRequest does with its outcome. */
    method AwaitOpenSlot(r: nat, tooIdle: bool)
      requires r in requests && (requests[r].phase.Pending? || requests[r].phase.Waiting?)
      modifies this
      ensures View() == Do(old(View()), Open(r, tooIdle))
    {
      var turn := TakeTurn(r, tooIdle);
      match turn {
        case Leaves => GiveUpRequest(r, requests[r]);
        case Refused => GiveUpRequest(r, requests[r].Abort(Unusable));
        case Enters => AddStreamLocked(r);
        case Waits =>
          pendingRequests := pendingRequests + 1;
          requests := requests[r := requests[r].(phase := Waiting)];
      }
    }

    method GiveUpRequest(r: nat, q: Request)
      modifies this`streamsReserved, this`requests
      ensures View() == GaveUp(old(View()), r, q)
    {
      DecrStreamReservations();
      requests := requests[r := q.(phase := Done)];
    }

    method AddStreamLocked(r: nat)
      requires r in requests
      modifies this`nextStreamID, this`streams, this`requests
      ensures View() == Lifecycle.AddStreamLocked(old(View()), r, old(requests[r]))
    {
      var id := nextStreamID;
      requests := requests[r := requests[r].(id := id, phase := Running)];
      nextStreamID := nextStreamID + 2;
      streams := streams[id := r];
    }

    /** cleanupWriteRequest with forgetStreamID, whose panic is behind the precondition. */
    method ForgetStreamID(r: nat, failure: Option<Failure>)
      requires Enabled(View(), Finish(r, failure)) && requests[r].id in streams
      modifies this
      ensures View() == Do(old(View()), Finish(r, failure))
    {
      var q := requests[r];
      if failure.Some? {
        q := q.Abort(failure.value);
      }
      requests := requests[r := q.(phase := Done)];
      ghost var slen := |streams|;
      ghost var was := streams;
      streams := streams - {q.id};
      assert streams.Keys == was.Keys - {q.id} && |streams| == slen - 1;
      var closeOnIdle := config.singleUse || doNotReuse || config.disableKeepAlives || goAway.Some?;
      if closeOnIdle && streamsReserved == 0 && |streams| == 0 {
        closed := true;
      }
    }

    /** The loop of setGoAway over the streams. */
    method AbortUnprocessed(last: nat, code: nat)
      requires forall id <- streams :: EntryInv(View(), id)
      modifies this`requests
      ensures requests == AfterGoAway(old(View()), last, code)
    {
      ghost var before := requests;
      var todo := streams.Keys;
      while todo != {}
        invariant todo <= streams.Keys && requests.Keys == before.Keys
        invariant forall k <- before :: requests[k] == AfterSome(before[k], k, todo, last, code)
        decreases |todo|
      {
        var id :| id in todo;
        assert EntryInv(old(View()), id);
        todo := todo - {id};
        if id > last {
          var cs := streams[id];
          requests := requests[cs := requests[cs].Abort(GoAwayFailure(id, code))];
        }
      }
    }

    /** Request k, once all streams but those in todo have been visited. */
    ghost function AfterSome(q: Request, k: nat, todo: set<nat>, last: nat, code: nat): Request
      reads this`streams
    {
      if q.id in streams && streams[q.id] == k && q.id > last && q.id !in todo then q.Abort(GoAwayFailure(q.id, code))
      else q
    }

    /** setGoAway. */
    method SetGoAway(last: nat, code: nat)
      requires forall id <- streams :: EntryInv(View(), id)
      modifies this
      ensures View() == Do(old(View()), RecvGoAway(last, code))
    {
      var g := GoAway(last, code);
      if goAway.Some? && goAway.value.code != NO_ERROR {
        g := GoAway(last, goAway.value.code);
      }
      AbortUnprocessed(last, g.code);
      goAway := Some(g);
      heard := heard.(goAways := heard.goAways + {GoAway(last, code)});
    }

    /** processResetStream for a stream that is still in the table. */
    method ProcessResetStream(id: nat, code: nat)
      requires Enabled(View(), RecvReset(id, code))
      modifies this
      ensures View() == Do(old(View()), RecvReset(id, code))
    {
      if code == CODE_PROTOCOL {
        doNotReuse := true;
      }
      var cs := streams[id];
      requests := requests[cs := requests[cs].Abort(StreamError(code, true))];
      heard := heard.(resets := heard.resets + {(id, code)});
    }

    /** The limit from SETTINGS; the first frame without one raises the initial limit. */
    method ProcessSettings(limit: Option<nat>)
      modifies this
      ensures View() == Do(old(View()), RecvSettings(limit))
    {
      if limit.Some? {
        maxConcurrentStreams := limit.value;
      }
      if !seenSettings {
        if limit.None? {
          maxConcurrentStreams := 1000;
        }
        seenSettings := true;
      }
    }
  }
}
