/**
 * The receive half of ClientConn and clientStream as the objects the source updates in place
 * (internal/http2/transport.go). Every method is one lock-held region, proved to be the step
 * of ReceiveFlow that bears its name.
 */
module ReceiveConn {
  import opened MachineInts
  import opened Wrappers
  import opened Flow
  import opened Pipe
  import opened ReceiveFlow

  datatype ConnectionError = PROTOCOL_ERROR | FLOW_CONTROL_ERROR

  class ClientStream {
    const ID: nat
    const isHead: bool
    const inflow: Inflow
    var pipe: PipeState
    var pastHeaders: bool
    var readClosed: bool
    var readAborted: bool
    var bytesRemain: Option<nat>
    var readErr: Option<IOError>
    // Where the goroutines using the body are.
    ghost var inHand: nat
    ghost var closing: nat
    ghost var credited: bool

    constructor (id: nat, head: bool)
      ensures ID == id && View() == NewBody(head) && fresh(inflow)
    {
      ID, isHead := id, head;
      inflow := new Inflow();
      pipe, pastHeaders, readClosed, readAborted := NEW_PIPE, false, false, false;
      bytesRemain, readErr := Some(0), None;
      inHand, closing, credited := 0, 0, false;
      new;
      inflow.Init(DEFAULT_STREAM_FLOW as int32);
    }

    ghost function View(): Body
      reads this, inflow
    {
      Body(inflow.View(), pipe, pastHeaders, readClosed, readAborted, isHead, bytesRemain, readErr,
           inHand, closing, credited)
    }

    method EndStream()
      modifies this
      ensures View() == Ended(old(View()))
    {
      if !readClosed {
        readClosed := true;
        pipe := pipe.Close(EOF, true);
      }
    }
  }

  class ClientConn {
    const inflow: Inflow
    var streams: map<nat, ClientStream>
    var nextStreamID: nat
    ghost var bodies: map<nat, ClientStream>  // every stream ever added: response bodies outlive the table entry
    ghost var owner: map<Inflow, nat>         // whose window an inflow is

    ghost function Objects(): set<object>
      reads this
    {
      {inflow} + (set id <- bodies :: bodies[id]) + (set id <- bodies :: bodies[id].inflow)
    }

    /** The streams are distinct objects filed under their own IDs. */
    ghost predicate Valid()
      reads this
    {
      && inflow !in owner
      && (forall id <- bodies :: bodies[id].ID == id && bodies[id].inflow in owner && owner[bodies[id].inflow] == id)
      && (forall id <- streams :: id in bodies && streams[id] == bodies[id])
    }

    ghost function View(): Receiver
      reads this, Objects()
    {
      Receiver(inflow.View(), map id | id in bodies :: bodies[id].View(), streams.Keys, nextStreamID)
    }

    /** Only one stream, and perhaps the connection window, has changed. */
    twostate lemma OneChanged(cs: ClientStream)
      requires old(Valid()) && unchanged(this) && cs.ID in bodies && bodies[cs.ID] == cs
      requires forall id <- bodies :: id != cs.ID ==> unchanged(bodies[id]) && unchanged(bodies[id].inflow)
      ensures View() == old(View()).(conn := inflow.View()).With(cs.ID, cs.View())
      ensures old(View()).bodies[cs.ID] == old(cs.View())
    {
    }

    twostate lemma WindowChanged()
      requires old(Valid()) && unchanged(this)
      requires forall id <- bodies :: unchanged(bodies[id]) && unchanged(bodies[id].inflow)
      ensures View() == old(View()).(conn := inflow.View())
    {
    }

    ghost function Views(): map<nat, Body>
      reads this, Objects()
    {
      map id | id in bodies :: bodies[id].View()
    }

    twostate lemma AddedViews(new cs: ClientStream)
      requires old(Valid()) && bodies == old(bodies)[cs.ID := cs] && cs.ID !in old(bodies)
      requires forall id <- old(bodies) :: unchanged(old(bodies)[id]) && unchanged(old(bodies)[id].inflow)
      ensures Views() == old(Views())[cs.ID := cs.View()]
    {
      assert forall id <- old(bodies) :: bodies[id].View() == old(bodies[id].View());
    }

    twostate lemma Added(new cs: ClientStream)
      requires old(Valid()) && bodies == old(bodies)[cs.ID := cs] && cs.ID == old(nextStreamID) && unchanged(inflow)
      requires cs.ID !in old(bodies)
      requires forall id <- old(bodies) :: unchanged(old(bodies)[id]) && unchanged(old(bodies)[id].inflow)
      requires streams.Keys == old(streams).Keys + {cs.ID} && nextStreamID == cs.ID + 2
      ensures View() == old(View()).(bodies := old(View()).bodies[cs.ID := cs.View()], live := streams.Keys,
                                     nextStreamID := nextStreamID)
    {
      AddedViews(cs);
      assert View().bodies == Views() && old(View()).bodies == old(Views());
    }

    constructor (connFlow: nat, firstID: nat)
      requires connFlow <= MAX_WINDOW - SPEC_INITIAL_WINDOW
      ensures Valid()
      ensures View() == Receiver(Window(connFlow + SPEC_INITIAL_WINDOW, 0), map[], {}, firstID)
    {
      inflow := new Inflow();
      streams, bodies, owner, nextStreamID := map[], map[], map[], firstID;
      new;
      inflow.Init((connFlow + SPEC_INITIAL_WINDOW) as int32);
    }

    /** addStreamLocked. */
    method AddStreamLocked(isHead: bool) returns (cs: ClientStream)
      requires Valid() && nextStreamID !in bodies
      modifies this
      ensures Valid() && View() == DoAddStream(old(View()), isHead)
      ensures cs.ID == old(nextStreamID) && cs.ID in bodies && bodies[cs.ID] == cs
    {
      cs := new ClientStream(nextStreamID, isHead);
      nextStreamID := nextStreamID + 2;
      streams := streams[cs.ID := cs];
      bodies := bodies[cs.ID := cs];
      owner := owner[cs.inflow := cs.ID];
      Added(cs);
    }

    method StreamByID(id: nat) returns (cs: ClientStream?)
      requires Valid()
      ensures cs != null <==> View().Finds(id)
      ensures cs != null ==> id in bodies && cs == bodies[id] && cs.ID == id
    {
      if id in streams && !streams[id].readAborted {
        return streams[id];
      }
      return null;
    }

    /** The response headers: installs the body's buffer, and ends the stream if they carried END_STREAM. */
    method ProcessHeaders(cs: ClientStream, contentLength: Option<nat>, ended: bool)
      requires Valid() && cs.ID in bodies && bodies[cs.ID] == cs
      modifies cs
      ensures Valid() && View() == old(View()).With(cs.ID, Answered(old(cs.View()), contentLength, ended))
    {
      cs.pastHeaders := true;
      if !cs.isHead && !ended {
        cs.pipe := cs.pipe.SetBuffer();
        cs.bytesRemain := contentLength;
      }
      if ended {
        cs.EndStream();
      }
      OneChanged(cs);
    }

    /** processData: the increments to announce for the connection and for the stream, or a connection error. */
    method ProcessData(id: nat, length: nat, data: seq<byte>, ended: bool)
        returns (err: Option<ConnectionError>, connInc: int, streamInc: int)
      requires Valid() && |data| <= length < TWO_32
      requires inflow.View().Ok() && (id in bodies ==> bodies[id].inflow.View().Ok())
      requires ReceiveFlow.ProcessData(View(), id, length, data, ended) != Panic
      modifies inflow, if id in bodies then {bodies[id], bodies[id].inflow} else {}
      ensures ReceiveFlow.ProcessData(old(View()), id, length, data, ended) ==
        match err
        case None => Next(View(), connInc, streamInc)
        case Some(PROTOCOL_ERROR) => ProtocolError
        case Some(FLOW_CONTROL_ERROR) => FlowControlError
    {
      ghost var before := View();
      var cs := StreamByID(id);
      if cs == null {
        if id >= nextStreamID {
          return Some(PROTOCOL_ERROR), 0, 0;
        }
        var refunded := RefundUnwantedData(length);
        if refunded.None? {
          return Some(FLOW_CONTROL_ERROR), 0, 0;
        }
        WindowChanged();
        return None, refunded.value, 0;
      }
      assert before.bodies[id] == cs.View();
      var incs := ProcessFoundData(cs, length, data, ended);
      if incs.None? {
        return Some(FLOW_CONTROL_ERROR), 0, 0;
      }
      OneChanged(cs);
      return None, incs.value.0, incs.value.1;
    }

    /** DATA for an unknown stream: at least return its flow control. */
    method RefundUnwantedData(length: nat) returns (inc: Option<int>)
      requires inflow.View().Ok() && length < TWO_32 && !RefundUnwanted(inflow.View(), length).RefundPanics?
      modifies inflow
      ensures RefundUnwanted(old(inflow.View()), length) ==
        if inc.None? then RefundExceeds else Refunded(inflow.View(), inc.value)
    {
      if length > 0 {
        var ok := inflow.Take(length);
        var connAdd := inflow.Add(length);
        return if ok then Some(connAdd as int) else None;
      }
      return Some(0);
    }

    /** processData once streamByID has found the stream; None is a flow-control error. */
    method ProcessFoundData(cs: ClientStream, length: nat, data: seq<byte>, ended: bool)
        returns (incs: Option<(int, int)>)
      requires cs.inflow != inflow && inflow.View().Ok() && cs.inflow.View().Ok()
      requires |data| <= length < TWO_32
      requires !ProcessFound(inflow.View(), cs.View(), length, data, ended).Panics?
      modifies cs, cs.inflow, inflow
      ensures ProcessFound(old(inflow.View()), old(cs.View()), length, data, ended) ==
        if incs.None? then Exceeded else Effect(inflow.View(), cs.View(), incs.value.0, incs.value.1)
    {
      if cs.readClosed || !cs.pastHeaders || (length > 0 && cs.isHead && |data| > 0) {
        cs.readAborted := true;
      } else if length > 0 {
        incs := DeliverData(cs, length, data, ended);
        return;
      } else if ended {
        cs.EndStream();
      }
      return Some((0, 0));
    }

    /** The part of processData from the check of both windows on; None is a flow-control error. */
    method DeliverData(cs: ClientStream, length: nat, data: seq<byte>, ended: bool) returns (incs: Option<(int, int)>)
      requires cs.inflow != inflow && inflow.View().Ok() && cs.inflow.View().Ok()
      requires |data| <= length && 0 < length < TWO_32
      requires !Deliver(inflow.View(), cs.View(), length, data, ended).Panics?
      modifies cs, cs.inflow, inflow
      ensures Deliver(old(inflow.View()), old(cs.View()), length, data, ended) ==
        if incs.None? then Exceeded else Effect(inflow.View(), cs.View(), incs.value.0, incs.value.1)
    {
      ghost var conn, b := inflow.View(), cs.View();
      var ok := TakeInflows(inflow, cs.inflow, length);
      if !ok {
        return None;
      }
      var refund, didReset := PourData(cs, length, data);
      var sendConn := inflow.Add(refund);
      var sendStream: int32 := 0;
      if !didReset {
        sendStream := cs.inflow.Add(refund);
      }
      FinishData(cs, didReset, ended);
      return Some((sendConn as int, sendStream as int));
    }

    /** The end of processData: a refused write resets the stream, END_STREAM ends it. */
    method FinishData(cs: ClientStream, didReset: bool, ended: bool)
      modifies cs
      ensures cs.View() == var b := old(cs.View()).(readAborted := old(cs.readAborted) || didReset);
        if ended && !didReset then Ended(b) else b
    {
      if didReset {
        cs.readAborted := true;
      } else if ended {
        cs.EndStream();
      }
    }

    method PourData(cs: ClientStream, length: nat, data: seq<byte>) returns (refund: nat, didReset: bool)
      requires |data| <= length
      modifies cs`pipe
      ensures (cs.pipe, didReset, refund) == Pour(old(cs.pipe), length, data)
    {
      refund := 0;
      var pad := length - |data|;
      if pad > 0 {
        refund := refund + pad;
      }
      didReset := false;
      if |data| > 0 {
        var (pipe, result) := cs.pipe.Write(data);
        cs.pipe := pipe;
        if result.Err? {
          didReset := true;
          refund := refund + |data|;
        }
      }
    }

    /** transportResponseBody.Read up to the point where it takes cc.mu. */
    method BodyReadTake(cs: ClientStream, max: nat) returns (data: seq<byte>, err: Option<IOError>)
      requires Valid() && cs.ID in bodies && bodies[cs.ID] == cs && cs.View().CanRead()
      modifies cs
      ensures Valid() && View() == old(View()).With(cs.ID, cs.View())
      ensures (cs.View(), data, err) == old(cs.View()).ReadTake(max)
    {
      if cs.readErr.Some? {
        data, err := [], cs.readErr;
      } else {
        var r := cs.pipe.Read(max);
        cs.pipe, data, err := r.0, r.1, r.2;
        if cs.bytesRemain.Some? && |data| > cs.bytesRemain.value {
          data := data[..cs.bytesRemain.value];
          if err.None? {
            err := Some(OVERRUN);
          }
          cs.readErr := err;
        } else {
          if cs.bytesRemain.Some? {
            cs.bytesRemain := Some(cs.bytesRemain.value - |data|);
          }
          if cs.bytesRemain.Some? && cs.bytesRemain.value > 0 && err == Some(EOF) {
            err := Some(UnexpectedEOF);
            cs.readErr := err;
          } else {
            cs.inHand := |data|;
          }
        }
      }
      OneChanged(cs);
    }

    /** The rest of transportResponseBody.Read: credits the n bytes it took. */
    method BodyReadCredit(cs: ClientStream, n: nat) returns (connAdd: int, streamAdd: int)
      requires Valid() && cs.ID in bodies && bodies[cs.ID] == cs && n == cs.inHand > 0
      requires inflow.View().Ok() && cs.inflow.View().Ok() && !CreditRead(inflow.View(), cs.View()).Panics?
      modifies cs, cs.inflow, inflow
      ensures Valid() && View() == old(View()).(conn := inflow.View()).With(cs.ID, cs.View())
      ensures CreditRead(old(inflow.View()), old(cs.View())) == Effect(inflow.View(), cs.View(), connAdd, streamAdd)
    {
      var c := inflow.Add(n);
      var s := cs.inflow.Add(n);
      cs.inHand := 0;
      OneChanged(cs);
      connAdd, streamAdd := c as int, s as int;
    }

    /** transportResponseBody.Close: breaks the pipe. */
    method BodyCloseBreak(cs: ClientStream)
      requires Valid() && cs.ID in bodies && bodies[cs.ID] == cs
      modifies cs
      ensures Valid() && View() == old(View()).With(cs.ID, Broken(old(cs.View())))
    {
      cs.pipe := cs.pipe.Break(CLOSED_BODY);
      cs.closing := cs.closing + 1;
      OneChanged(cs);
    }

    /** The rest of transportResponseBody.Close: returns the connection's share of what was never read. */
    method BodyCloseCredit(cs: ClientStream) returns (connAdd: int)
      requires Valid() && cs.ID in bodies && bodies[cs.ID] == cs && cs.closing > 0
      requires inflow.View().Ok() && !CreditClose(inflow.View(), cs.View()).Panics?
      modifies cs, inflow
      ensures Valid() && View() == old(View()).(conn := inflow.View()).With(cs.ID, cs.View())
      ensures CreditClose(old(inflow.View()), old(cs.View())) == Effect(inflow.View(), cs.View(), connAdd, 0)
    {
      connAdd := 0;
      var unread := cs.pipe.Len();
      if unread > 0 {
        var c := inflow.Add(unread);
        connAdd := c as int;
      }
      cs.closing := cs.closing - 1;
      cs.credited := true;
      OneChanged(cs);
    }

    /** The part of forgetStreamID that touches the table; the body stays usable. */
    method ForgetStreamID(id: nat)
      requires Valid() && id in streams
      modifies this
      ensures Valid() && View() == old(View()).(live := old(View()).live - {id}) && bodies == old(bodies)
    {
      streams := streams - {id};
    }
  }
}
