/** The send half of ClientConn: one Outflow per stream above a shared one (internal/http2/transport.go). */
module SendConn {
  import opened MachineInts
  import opened Wrappers
  import opened Flow
  import opened SendFlow

  class ClientConn {
    const flow: Outflow
    var streams: map<nat, Outflow>   // cc.streams, as far as cs.flow is concerned
    var initialWindowSize: int32
    var maxFrameSize: int32
    var readAborted: set<nat>        // the streams of the table with cs.readAborted
    ghost var owner: map<Outflow, nat>

    ghost predicate Valid()
      reads this, flow, streams.Values
    {
      && flow !in owner && flow.conn == null
      && (forall id <- streams :: streams[id] in owner && owner[streams[id]] == id && streams[id].conn == flow)
      && 0 <= initialWindowSize
    }

    ghost function View(): Sender
      reads this, flow, streams.Values
    {
      Sender(flow.n as int, initialWindowSize as int, maxFrameSize as int,
             map id | id in streams :: streams[id].n as int,
             readAborted)
    }

    constructor ()
      ensures Valid() && View() == START.s
    {
      flow := new Outflow();
      streams, owner, readAborted := map[], map[], {};
      initialWindowSize, maxFrameSize := SPEC_INITIAL_WINDOW as int32, 16384;
      new;
      var _ := flow.Add(SPEC_INITIAL_WINDOW as int32);
    }

    /** Only the windows of one stream and of the connection have changed. */
    twostate lemma OneChanged(id: nat)
      requires old(Valid()) && unchanged(this) && id in streams
      requires forall k <- streams :: k != id ==> unchanged(streams[k])
      ensures View() == old(View()).(conn := flow.n as int, streams := old(View()).streams[id := streams[id].n as int])
    {
    }

    /** The part of addStreamLocked about the send window. */
    method AddStreamLocked(id: nat)
      requires Valid() && Enabled(View(), Event.Add(id))
      modifies this
      ensures Valid() && Do(old(View()), Event.Add(id)) == Next(View())
    {
      ghost var before := View();
      var f := new Outflow();
      var _ := f.Add(initialWindowSize);
      f.SetConnFlow(flow);
      assert forall k <- streams :: streams[k] != f && streams[k].n as int == before.streams[k];
      streams := streams[id := f];
      owner := owner[f := id];
    }

    /**
     * One turn of awaitFlowControl: an error if the stream is dead, else between 1 and min(maxBytes, maxFrameSize)
     * tokens, else another wait. `dead` is the first of the conditions it looks at that holds.
     */
    method AwaitFlowControl(id: nat, maxBytes: nat, dead: Option<IOError>)
        returns (taken: int32, err: Option<IOError>, waits: bool)
      requires Valid() && id in streams && 0 < maxBytes && 0 < maxFrameSize
      modifies flow, streams.Values
      ensures Valid() && err == dead
      ensures waits <==> dead.None? && old(View()).Available(id) <= 0
      ensures if dead.Some? || waits then View() == old(View()) && taken == 0
        else Do(old(View()), Event.Take(id, maxBytes)) == Next(View())
             && taken as int == old(View()).Grant(id, maxBytes) && 0 < taken
    {
      if dead.Some? {
        return 0, dead, false;
      }
      var f := streams[id];
      taken := f.Available();
      if taken <= 0 {
        return 0, None, true;
      }
      if taken as int > maxBytes {
        taken := maxBytes as int32;
      }
      if taken > maxFrameSize {
        taken := maxFrameSize;
      }
      f.Take(taken);
      OneChanged(id);
      return taken, None, false;
    }

    /** The SETTINGS_INITIAL_WINDOW_SIZE case of processSettingsNoWrite: false is FLOW_CONTROL_ERROR. */
    method ProcessInitialWindow(v: nat) returns (ok: bool)
      requires Valid() && v < TWO_32
      modifies this`initialWindowSize, streams.Values
      ensures Valid()
      ensures Do(old(View()), InitialWindow(v)) == if ok then Next(View()) else ConnFlowError
    {
      if v > MAX_INT32 {
        return false;
      }
      var delta := Wrap32(v - initialWindowSize as int);
      assert delta as int == v - initialWindowSize as int;
      ghost var before := View();
      AddDeltaToAll(delta, before.streams);
      initialWindowSize := v as int32;
      assert View().streams == Moved(before.streams, v - before.initial);
      return true;
    }

    method AddDeltaToAll(delta: int32, ghost was: map<nat, int>)
      requires Valid() && was.Keys == streams.Keys && forall id <- streams :: streams[id].n as int == was[id]
      modifies streams.Values
      ensures Valid() && flow.n == old(flow.n)
      ensures forall id <- streams :: streams[id].n as int == AddTo(was[id], delta as int)
    {
      var todo := streams.Keys;
      while todo != {}
        invariant todo <= streams.Keys && Valid() && flow.n == old(flow.n)
        invariant forall id <- streams :: id in todo ==> streams[id].n as int == was[id]
        invariant forall id <- streams :: id !in todo ==> streams[id].n as int == AddTo(was[id], delta as int)
        decreases todo
      {
        var id :| id in todo;
        AddDelta(id, delta);
        todo := todo - {id};
      }
    }

    method AddDelta(id: nat, delta: int32)
      requires Valid() && id in streams
      modifies streams[id]
      ensures Valid() && streams[id].n as int == AddTo(old(streams[id].n) as int, delta as int)
      ensures forall k <- streams :: k != id ==> streams[k].n == old(streams[k].n)
      ensures flow.n == old(flow.n)
    {
      var _ := streams[id].Add(delta);
    }

    /** endStreamError, as far as streamByID sees it. */
    method AbortRead(id: nat)
      requires Valid() && View().Finds(id)
      modifies this`readAborted
      ensures Valid() && Do(old(View()), Event.AbortRead(id)) == Next(View())
    {
      readAborted := readAborted + {id};
    }

    /** processWindowUpdate. */
    method ProcessWindowUpdate(id: nat, inc: int32) returns (o: Option<bool>)
      requires Valid() && 1 <= inc
      modifies flow, streams.Values, this`readAborted
      ensures Valid()
      ensures Do(old(View()), Update(id, inc as nat)) ==
        match o
        case None => Next(View())
        case Some(stream) => if stream then StreamFlowError(View()) else ConnFlowError
    {
      if id != 0 && (id !in streams || id in readAborted) {
        return None;
      }
      if id == 0 {
        ghost var before := View();
        var ok := flow.Add(inc);
        assert View() == before.(conn := flow.n as int);
        return if ok then None else Some(false);
      }
      var ok := streams[id].Add(inc);
      OneChanged(id);
      if ok {
        return None;
      }
      readAborted := readAborted + {id};
      return Some(true);
    }

    method ForgetStreamID(id: nat)
      requires Valid() && id in streams
      modifies this
      ensures Valid() && Do(old(View()), Forget(id)) == Next(View())
    {
      streams := streams - {id};
      readAborted := readAborted - {id};
    }
  }
}
