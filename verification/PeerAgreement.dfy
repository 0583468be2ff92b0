/**
 * The receive side of a connection together with a server that keeps to the windows announced to it:
 * two FIFO channels between them, every interleaving of steps.
 */
module PeerAgreement {
  import opened MachineInts
  import opened Wrappers
  import opened Flow
  import opened ReceiveFlow

  /** What the client tells the server about windows and streams. */
  datatype Message = Settings(initialWindow: nat) | Update(id: nat, increment: nat) | Open(id: nat)

  datatype DataFrame = DataFrame(id: nat, length: nat, data: seq<byte>, ended: bool)

  /**
   * The server's window of a stream is peerInit, which SETTINGS change for all streams at once, moved by what
   * peerStreams says. `skipped` counts the bytes of DATA frames the client dropped without charging any window.
   */
  datatype System = System(
    r: Receiver, toServer: seq<Message>, toClient: seq<DataFrame>,
    peerInit: nat, peerConn: int, peerStreams: map<nat, int>, skipped: nat)
  {
    function Held(id: nat): int
      requires id in peerStreams
    {
      peerInit + peerStreams[id]
    }
  }

  datatype Action =
    | ClientSteps(e: Event)
    | ClientReceives
    | ServerReceives
    | ServerSends(f: DataFrame)

  datatype Status = Running(s: System) | Stopped(how: Outcome)

  // ------------------------------------------------------------ steps of the pair

  predicate CanAct(s: System, a: Action) {
    match a
    case ClientSteps(e) => !e.Data? && Enabled(s.r, e)
    case ClientReceives => s.toClient != [] && Enabled(s.r, Arrival(s.toClient[0]))
    case ServerReceives => s.toServer != []
    case ServerSends(f) =>
      f.id in s.peerStreams && |f.data| <= f.length < TWO_31
      && f.length <= s.peerConn && f.length <= s.Held(f.id)
  }

  function Arrival(f: DataFrame): Event { Data(f.id, f.length, f.data, f.ended) }

  function Announced(id: nat, o: Outcome): seq<Message>
    requires o.Next?
  {
    (if o.connInc > 0 then [Update(0, o.connInc)] else [])
    + (if o.streamInc > 0 then [Update(id, o.streamInc)] else [])
  }

  function ClientStep(s: System, e: Event): Status
    requires Enabled(s.r, e)
  {
    var o := Do(s.r, e);
    if !o.Next? then Stopped(o)
    else if e.AddStream? then Running(s.(r := o.r, toServer := s.toServer + [Open(s.r.nextStreamID)]))
    else
      Running(s.(r := o.r, toServer := s.toServer + Announced(e.id, o),
                 skipped := s.skipped + if e.Data? && Dropped(s.r, e) then e.length else 0))
  }

  /** DATA that processData answers with a stream error before it looks at any window. */
  predicate Dropped(r: Receiver, e: Event)
    requires e.Data?
  {
    r.Finds(e.id) && var b := r.bodies[e.id];
    b.readClosed || !b.pastHeaders || (e.length > 0 && b.isHead && |e.data| > 0)
  }

  function ServerStep(s: System): System
    requires s.toServer != []
  {
    var rest := s.(toServer := s.toServer[1..]);
    match s.toServer[0]
    case Settings(w) =>
      rest.(peerInit := w)
    case Open(id) => rest.(peerStreams := s.peerStreams[id := 0])
    case Update(id, inc) =>
      if id == 0 then rest.(peerConn := s.peerConn + inc)
      else if id in s.peerStreams then rest.(peerStreams := s.peerStreams[id := s.peerStreams[id] + inc])
      else rest
  }

  function Act(s: System, a: Action): Status
    requires CanAct(s, a)
  {
    match a
    case ClientSteps(e) => ClientStep(s, e)
    case ClientReceives => ClientStep(s.(toClient := s.toClient[1..]), Arrival(s.toClient[0]))
    case ServerReceives => Running(ServerStep(s))
    case ServerSends(f) =>
      Running(s.(toClient := s.toClient + [f], peerConn := s.peerConn - f.length,
                 peerStreams := s.peerStreams[f.id := s.peerStreams[f.id] - f.length]))
  }

  /** Right after newClientConn wrote the preface, with the default settings. */
  function Start(connFlow: nat, firstID: nat): System {
    System(Receiver(Window(connFlow + SPEC_INITIAL_WINDOW, 0), map[], {}, firstID),
           [Settings(DEFAULT_STREAM_FLOW), Update(0, connFlow)], [],
           SPEC_INITIAL_WINDOW, SPEC_INITIAL_WINDOW, map[], 0)
  }

  /** Runs the actions in order, leaving out those that cannot happen, until the client gives up. */
  function Run(s: System, acts: seq<Action>): Status
    decreases |acts|
  {
    if acts == [] then Running(s)
    else if !CanAct(s, acts[0]) then Run(s, acts[1..])
    else
      match Act(s, acts[0])
      case Running(s') => Run(s', acts[1..])
      case Stopped(o) => Stopped(o)
  }

  // ------------------------------------------------------------ what is in flight

  function ConnBytes(fs: seq<DataFrame>): nat {
    if fs == [] then 0 else fs[0].length + ConnBytes(fs[1..])
  }

  function StreamBytes(fs: seq<DataFrame>, id: nat): nat {
    if fs == [] then 0 else (if fs[0].id == id then fs[0].length else 0) + StreamBytes(fs[1..], id)
  }

  /** The increments on their way for one stream, or for the connection (0). */
  function Increments(ms: seq<Message>, id: nat): nat {
    if ms == [] then 0
    else (if ms[0].Update? && ms[0].id == id then ms[0].increment else 0) + Increments(ms[1..], id)
  }

  lemma {:induction false} ConnBytesPush(fs: seq<DataFrame>, f: DataFrame)
    ensures ConnBytes(fs + [f]) == ConnBytes(fs) + f.length
  {
    if fs != [] {
      assert (fs + [f])[1..] == fs[1..] + [f];
      ConnBytesPush(fs[1..], f);
    }
  }

  lemma {:induction false} StreamBytesPush(fs: seq<DataFrame>, f: DataFrame, id: nat)
    ensures StreamBytes(fs + [f], id) == StreamBytes(fs, id) + if f.id == id then f.length else 0
  {
    if fs != [] {
      assert (fs + [f])[1..] == fs[1..] + [f];
      StreamBytesPush(fs[1..], f, id);
    }
  }

  lemma {:induction false} IncrementsPush(ms: seq<Message>, more: seq<Message>, id: nat)
    ensures Increments(ms + more, id) == Increments(ms, id) + Increments(more, id)
  {
    if ms != [] {
      assert (ms + more)[1..] == ms[1..] + more;
      IncrementsPush(ms[1..], more, id);
    } else {
      assert ms + more == more;
    }
  }

  lemma {:induction false} NoBytesForUnknown(fs: seq<DataFrame>, id: nat)
    requires forall f <- fs :: f.id != id
    ensures StreamBytes(fs, id) == 0
  {
    if fs != [] {
      assert fs[0] in fs;
      NoBytesForUnknown(fs[1..], id);
    }
  }

  /** The channel to the server: SETTINGS first, and a stream is opened before its window is raised. */
  predicate Orderly(ms: seq<Message>, settled: bool, known: set<nat>) {
    ms == [] ||
    match ms[0]
    case Settings(w) => !settled && w == DEFAULT_STREAM_FLOW && Orderly(ms[1..], true, known)
    case Open(id) => settled && id !in known && Orderly(ms[1..], settled, known + {id})
    case Update(id, _) => (id == 0 || id in known) && Orderly(ms[1..], settled, known)
  }

  function SettledAfter(ms: seq<Message>, settled: bool): bool {
    if ms == [] then settled else SettledAfter(ms[1..], settled || ms[0].Settings?)
  }

  function KnownAfter(ms: seq<Message>, known: set<nat>): set<nat> {
    if ms == [] then known else KnownAfter(ms[1..], if ms[0].Open? then known + {ms[0].id} else known)
  }

  lemma {:induction false} OrderlyPush(ms: seq<Message>, more: seq<Message>, settled: bool, known: set<nat>)
    requires Orderly(ms, settled, known)
    requires Orderly(more, SettledAfter(ms, settled), KnownAfter(ms, known))
    ensures Orderly(ms + more, settled, known)
    ensures SettledAfter(ms + more, settled) == SettledAfter(more, SettledAfter(ms, settled))
    ensures KnownAfter(ms + more, known) == KnownAfter(more, KnownAfter(ms, known))
  {
    if ms != [] {
      assert (ms + more)[1..] == ms[1..] + more;
      OrderlyPush(ms[1..], more, settled || ms[0].Settings?, if ms[0].Open? then known + {ms[0].id} else known);
    } else {
      assert ms + more == more;
    }
  }

  lemma {:induction false} KnownGrows(ms: seq<Message>, known: set<nat>)
    ensures known <= KnownAfter(ms, known)
  {
    if ms != [] {
      KnownGrows(ms[1..], if ms[0].Open? then known + {ms[0].id} else known);
    }
  }

  /** No updates wait for a stream that is not announced yet. */
  lemma {:induction false} NoUpdateBeforeOpen(ms: seq<Message>, settled: bool, known: set<nat>, id: nat)
    requires Orderly(ms, settled, known) && id != 0 && id !in KnownAfter(ms, known)
    ensures Increments(ms, id) == 0
  {
    if ms != [] {
      var known' := if ms[0].Open? then known + {ms[0].id} else known;
      KnownGrows(ms[1..], known');
      NoUpdateBeforeOpen(ms[1..], settled || ms[0].Settings?, known', id);
    }
  }

  // ------------------------------------------------------------ the agreement

  function PeerWindow(s: System, id: nat): int {
    if id in s.peerStreams then s.Held(id) else DEFAULT_STREAM_FLOW
  }

  ghost predicate ConnAgrees(s: System) {
    && s.peerConn >= 0
    && s.r.conn.avail == s.peerConn + ConnBytes(s.toClient) + Increments(s.toServer, 0) + s.skipped
  }

  ghost predicate StreamAgrees(s: System, id: nat)
    requires id in s.r.bodies
  {
    s.r.bodies[id].win.avail >= PeerWindow(s, id) + StreamBytes(s.toClient, id) + Increments(s.toServer, id)
  }

  ghost predicate ChannelOk(s: System) {
    && var settled := s.peerInit == DEFAULT_STREAM_FLOW;
    && Orderly(s.toServer, settled, s.peerStreams.Keys)
    && SettledAfter(s.toServer, settled)
    && KnownAfter(s.toServer, s.peerStreams.Keys) == s.r.bodies.Keys
    && (!settled ==> s.peerStreams.Keys == {})
  }

  ghost predicate ServerOk(s: System) {
    && (forall id <- s.peerStreams :: s.Held(id) >= 0)
    && (forall f <- s.toClient :: f.id in s.peerStreams && |f.data| <= f.length < TWO_31)
  }

  ghost predicate Agree(s: System) {
    && Consistent(s.r) && s.r.nextStreamID > 0 && 0 !in s.r.bodies
    && ConnAgrees(s) && ChannelOk(s) && ServerOk(s)
    && forall id <- s.r.bodies :: StreamAgrees(s, id)
  }

  /** A stream begins with 4 MiB, and the connection with what is configured on top of the 65535 of the standard. */
  lemma WindowsInNumbers(connFlow: nat, firstID: nat, isHead: bool)
    ensures NewBody(isHead).win == Window(4194304, 0)
    ensures Start(connFlow, firstID).r.conn == Window(connFlow + 65535, 0)
  {
  }

  lemma StartAgrees(connFlow: nat, firstID: nat)
    requires 0 < connFlow <= MAX_WINDOW - SPEC_INITIAL_WINDOW && firstID > 0
    ensures Agree(Start(connFlow, firstID))
  {
    var u := [Update(0, connFlow)];
    var m := [Settings(DEFAULT_STREAM_FLOW), Update(0, connFlow)];
    assert m[1..] == u && u[1..] == [];
    assert Start(connFlow, firstID).peerStreams.Keys == {};
    assert KnownAfter(u, {}) == {};
    assert KnownAfter(m, {}) == {};
    assert Increments(u, 0) == connFlow;
    assert Increments(m, 0) == connFlow;
    assert Orderly(u, true, {});
  }

  lemma ServerSendsAgrees(s: System, f: DataFrame)
    requires Agree(s) && CanAct(s, ServerSends(f))
    ensures Agree(Act(s, ServerSends(f)).s)
  {
    var s' := Act(s, ServerSends(f)).s;
    KnownGrows(s.toServer, s.peerStreams.Keys);
    assert s'.peerStreams.Keys == s.peerStreams.Keys;
    ConnBytesPush(s.toClient, f);
    forall id | id in s.r.bodies
      ensures StreamAgrees(s', id)
    {
      StreamBytesPush(s.toClient, f, id);
      assert StreamAgrees(s, id);
    }
  }

  lemma {:induction false} ServerReceivesAgrees(s: System)
    requires Agree(s) && s.toServer != []
    ensures Agree(ServerStep(s))
  {
    var s' := ServerStep(s);
    KnownGrows(s.toServer, s.peerStreams.Keys);
    match s.toServer[0] {
      case Settings(w) =>
      case Open(who) =>
        assert s'.peerStreams.Keys == s.peerStreams.Keys + {who};
        KnownGrows(s'.toServer, s'.peerStreams.Keys);
      case Update(raised, _) =>
        assert s'.peerStreams.Keys == s.peerStreams.Keys;
    }
    forall id | id in s.r.bodies
      ensures StreamAgrees(s', id)
    {
      assert StreamAgrees(s, id);
    }
  }

  // ------------------------------------------------------------ the client's steps keep the agreement

  /** What a step does to the windows, and what it announces. */
  ghost predicate WindowsMove(r: Receiver, e: Event, o: Outcome)
    requires o.Next? && !e.AddStream?
  {
    && 0 <= o.connInc && 0 <= o.streamInc
    && o.r.conn.avail == r.conn.avail + o.connInc - (if e.Data? && !Dropped(r, e) then e.length else 0)
    && if e.id in r.bodies && e.id in o.r.bodies then
         o.r.bodies[e.id].win.avail >= r.bodies[e.id].win.avail + o.streamInc - (if e.Data? then e.length else 0)
       else o.streamInc == 0
  }

  lemma DataWindows(r: Receiver, e: Event)
    requires Consistent(r) && Enabled(r, e) && e.Data? && Do(r, e).Next?
    ensures WindowsMove(r, e, Do(r, e))
  {
    if Charged(r, e.id, e.length, e.data) {
      DeliverKeepsBody(r.conn, r.bodies[e.id], e.length, e.data, e.ended);
    }
  }

  lemma CreditWindows(r: Receiver, e: Event)
    requires Consistent(r) && Enabled(r, e) && (e.ReadCredit? || e.CloseCredit?) && Do(r, e).Next?
    ensures WindowsMove(r, e, Do(r, e))
  {
    if e.ReadCredit? {
      CreditReadKeepsBody(r.conn, r.bodies[e.id]);
    } else {
      CreditCloseKeepsBody(r.conn, r.bodies[e.id]);
    }
  }

  lemma TakeWindows(r: Receiver, e: Event)
    requires Enabled(r, e) && (e.ReadTake? || e.Forget?) && Do(r, e).Next?
    ensures WindowsMove(r, e, Do(r, e))
  {
    if e.ReadTake? {
      assert r.bodies[e.id].ReadTake(e.max).0.win == r.bodies[e.id].win;
    }
  }

  lemma StepWindows(r: Receiver, e: Event)
    requires Consistent(r) && Enabled(r, e) && Do(r, e).Next? && !e.AddStream?
    ensures WindowsMove(r, e, Do(r, e))
  {
    if e.Data? {
      DataWindows(r, e);
    } else if e.ReadCredit? || e.CloseCredit? {
      CreditWindows(r, e);
    } else if e.ReadTake? || e.Forget? {
      TakeWindows(r, e);
    } else {
      QuietKeepsWindow(r, e);
    }
  }

  lemma QuietKeepsWindow(r: Receiver, e: Event)
    requires Enabled(r, e) && (e.Headers? || e.EndStream? || e.AbortRead? || e.ClosePipe? || e.BreakBody?)
    ensures var o := Do(r, e);
      o.Next? && o.r.conn == r.conn && o.connInc == o.streamInc == 0 && o.r.bodies[e.id].win == r.bodies[e.id].win
  {
  }

  lemma OtherWindowsStay(r: Receiver, e: Event)
    requires Consistent(r) && Enabled(r, e) && Do(r, e).Next? && !e.AddStream?
    ensures Do(r, e).r.bodies.Keys == r.bodies.Keys && Do(r, e).r.nextStreamID == r.nextStreamID
    ensures forall id <- r.bodies :: id != e.id ==> Do(r, e).r.bodies[id] == r.bodies[id]
  {
    if !e.Forget? && (e.Data? ==> r.Finds(e.id)) {
      OneBodyChanges(r, e);
    }
  }

  lemma AnnouncedIncrements(id: nat, o: Outcome, of: nat)
    requires o.Next? && o.connInc >= 0 && o.streamInc >= 0 && id != 0
    ensures Increments(Announced(id, o), of) ==
      (if of == 0 then o.connInc else 0) + (if of == id then o.streamInc else 0)
  {
    var a := if o.connInc > 0 then [Update(0, o.connInc)] else [];
    var b := if o.streamInc > 0 then [Update(id, o.streamInc)] else [];
    IncrementsPush(a, b, of);
  }

  lemma AnnouncedOrderly(id: nat, o: Outcome, settled: bool, known: set<nat>)
    requires o.Next? && (o.streamInc > 0 ==> id in known)
    ensures Orderly(Announced(id, o), settled, known) && KnownAfter(Announced(id, o), known) == known
    ensures SettledAfter(Announced(id, o), settled) == settled
  {
    var m := Announced(id, o);
    if |m| == 2 {
      var last := m[1..];
      assert last == [Update(id, o.streamInc)] && last[1..] == [];
      assert KnownAfter(last, known) == known && SettledAfter(last, settled) == settled;
    } else if |m| == 1 {
      assert m[1..] == [];
    }
  }

  ghost predicate Raised(s: System, e: Event, k: nat)
    requires Enabled(s.r, e) && !e.AddStream? && ClientStep(s, e).Running?
  {
    Increments(ClientStep(s, e).s.toServer, k) ==
      Increments(s.toServer, k) + (if k == 0 then Do(s.r, e).connInc else 0)
      + (if k == e.id then Do(s.r, e).streamInc else 0)
  }

  /** The message queue after a client step. */
  lemma QueueAfterClientStep(s: System, e: Event)
    requires Consistent(s.r) && 0 !in s.r.bodies && Enabled(s.r, e) && !e.AddStream? && ClientStep(s, e).Running?
    requires ChannelOk(s) && (e.Data? ==> e.id in s.r.bodies)
    ensures ChannelOk(ClientStep(s, e).s)
    ensures forall k: nat :: Raised(s, e, k)
  {
    var o := Do(s.r, e);
    StepKeepsConsistent(s.r, e);
    StepWindows(s.r, e);
    OtherWindowsStay(s.r, e);
    AnnouncedOrderly(e.id, o, true, s.r.bodies.Keys);
    OrderlyPush(s.toServer, Announced(e.id, o), s.peerInit == DEFAULT_STREAM_FLOW, s.peerStreams.Keys);
    forall k: nat
      ensures Raised(s, e, k)
    {
      IncrementsPush(s.toServer, Announced(e.id, o), k);
      AnnouncedIncrements(e.id, o, k);
    }
  }

  lemma AddStreamAgrees(s: System, isHead: bool)
    requires Agree(s)
    ensures ClientStep(s, AddStream(isHead)).Running? && Agree(ClientStep(s, AddStream(isHead)).s)
  {
    var id := s.r.nextStreamID;
    var s' := ClientStep(s, AddStream(isHead)).s;
    OrderlyPush(s.toServer, [Open(id)], s.peerInit == DEFAULT_STREAM_FLOW, s.peerStreams.Keys);
    assert [Open(id)][1..] == [];
    assert KnownAfter([Open(id)], s.r.bodies.Keys) == s.r.bodies.Keys + {id};
    KnownGrows(s.toServer, s.peerStreams.Keys);
    assert id !in s.r.bodies && id !in s.peerStreams;
    IncrementsPush(s.toServer, [Open(id)], 0);
    NoBytesForUnknown(s.toClient, id);
    NoUpdateBeforeOpen(s.toServer, s.peerInit == DEFAULT_STREAM_FLOW, s.peerStreams.Keys, id);
    forall k | k in s'.r.bodies
      ensures StreamAgrees(s', k)
    {
      IncrementsPush(s.toServer, [Open(id)], k);
      if k != id {
        assert StreamAgrees(s, k);
      }
    }
  }

  /** A step by the client's own goroutines, or on the frame that has just left the channel. */
  lemma ClientStepAgrees(s: System, e: Event, before: seq<DataFrame>)
    requires Agree(s.(toClient := before)) && Enabled(s.r, e) && !e.AddStream?
    requires if e.Data? then before != [] && s.toClient == before[1..] && e == Arrival(before[0])
             else s.toClient == before
    requires e.Data? ==> e.id in s.r.bodies
    requires ClientStep(s, e).Running?
    ensures Agree(ClientStep(s, e).s)
  {
    var s' := ClientStep(s, e).s;
    StepKeepsConsistent(s.r, e);
    StepWindows(s.r, e);
    OtherWindowsStay(s.r, e);
    QueueAfterClientStep(s, e);
    assert Raised(s, e, 0);
    forall k | k in s'.r.bodies
      ensures StreamAgrees(s', k)
    {
      assert StreamAgrees(s.(toClient := before), k) && Raised(s, e, k);
    }
  }

  /**
   * While the pair agrees, DATA in flight fits both windows: the client raises neither FLOW_CONTROL_ERROR
   * nor the PROTOCOL_ERROR for unsolicited DATA.
   */
  lemma NoErrorWhileAgreed(s: System, a: Action)
    requires Agree(s) && CanAct(s, a)
    ensures Act(s, a).Running? || Act(s, a).how == Panic
    ensures Act(s, a).Running? ==> Agree(Act(s, a).s)
  {
    match a {
      case ClientSteps(e) =>
        if e.AddStream? {
          AddStreamAgrees(s, e.isHead);
        } else if ClientStep(s, e).Running? {
          ClientStepAgrees(s, e, s.toClient);
        }
      case ClientReceives =>
        var f := s.toClient[0];
        var s0 := s.(toClient := s.toClient[1..]);
        assert f in s.toClient && f.id in s.peerStreams;
        KnownGrows(s.toServer, s.peerStreams.Keys);
        assert f.id in s.r.bodies && StreamAgrees(s, f.id);
        if ClientStep(s0, Arrival(f)).Running? {
          ClientStepAgrees(s0, Arrival(f), s.toClient);
        }
      case ServerReceives => ServerReceivesAgrees(s);
      case ServerSends(f) => ServerSendsAgrees(s, f);
    }
  }

  /** Main result: against such a server, no run ends in a flow-control or protocol error over DATA. */
  lemma {:induction false} PeerWithinWindowsIsNeverRefused(s: System, acts: seq<Action>)
    requires Agree(s)
    ensures Run(s, acts).Stopped? ==> Run(s, acts).how == Panic
    ensures Run(s, acts).Running? ==> Agree(Run(s, acts).s)
    decreases |acts|
  {
    if acts != [] {
      if CanAct(s, acts[0]) {
        NoErrorWhileAgreed(s, acts[0]);
        if Act(s, acts[0]).Running? {
          PeerWithinWindowsIsNeverRefused(Act(s, acts[0]).s, acts[1..]);
        }
      } else {
        PeerWithinWindowsIsNeverRefused(s, acts[1..]);
      }
    }
  }

  // ------------------------------------------------------------ conservation over whole runs

  /** With nothing owed, the announced window is more than half of the full one. */
  predicate HalfOpen(w: Window, full: int) {
    w.Total() == full ==> 2 * w.avail > full
  }

  ghost predicate Conserved(r: Receiver, full: int) {
    0 < full <= MAX_WINDOW && Balance(r) == full && HalfOpen(r.conn, full)
  }

  /** A caller keeps away from over-length bodies and from closing a body twice. */
  predicate Careful(s: System, a: Action)
    requires CanAct(s, a)
  {
    a.ClientSteps? ==> !Unbalancing(s.r, a.e)
  }

  predicate CarefulRun(s: System, acts: seq<Action>)
    decreases |acts|
  {
    acts == [] ||
    if !CanAct(s, acts[0]) then CarefulRun(s, acts[1..])
    else Careful(s, acts[0]) && (Act(s, acts[0]).Running? ==> CarefulRun(Act(s, acts[0]).s, acts[1..]))
  }

  /** inflow.add never panics: what it adds was owed. */
  lemma CarefulNeverPanics(s: System, e: Event, full: int)
    requires Consistent(s.r) && Conserved(s.r, full) && Enabled(s.r, e) && !Unbalancing(s.r, e)
    requires e.Data? ==> e.length <= s.r.conn.avail
    ensures Do(s.r, e) != Panic
  {
    match e {
      case ReadCredit(id) => OwingAtLeast(s.r.bodies, s.r.nextStreamID, id);
      case CloseCredit(id) => OwingAtLeast(s.r.bodies, s.r.nextStreamID, id);
      case _ =>
    }
  }

  lemma StepKeepsConserved(r: Receiver, e: Event, full: int)
    requires Consistent(r) && Conserved(r, full) && Enabled(r, e) && !Unbalancing(r, e) && Do(r, e).Next?
    ensures Conserved(Do(r, e).r, full)
  {
    StepConservesIff(r, e);
  }

  lemma ActKeepsConserved(s: System, a: Action, full: int)
    requires Agree(s) && Conserved(s.r, full) && CanAct(s, a) && Careful(s, a)
    ensures Act(s, a).Running? && Agree(Act(s, a).s) && Conserved(Act(s, a).s.r, full)
  {
    NoErrorWhileAgreed(s, a);
    if a.ClientSteps? {
      CarefulNeverPanics(s, a.e, full);
      StepKeepsConserved(s.r, a.e, full);
    } else if a.ClientReceives? {
      var s0 := s.(toClient := s.toClient[1..]);
      CarefulNeverPanics(s0, Arrival(s.toClient[0]), full);
      StepKeepsConserved(s0.r, Arrival(s.toClient[0]), full);
    }
  }

  /** Main result: over every careful run the credit is conserved, and the client never panics or gives up. */
  lemma {:induction false} CreditIsConserved(s: System, acts: seq<Action>, full: int)
    requires Agree(s) && Conserved(s.r, full) && CarefulRun(s, acts)
    ensures Run(s, acts).Running? && Agree(Run(s, acts).s) && Conserved(Run(s, acts).s.r, full)
    decreases |acts|
  {
    if acts != [] {
      if CanAct(s, acts[0]) {
        ActKeepsConserved(s, acts[0], full);
        CreditIsConserved(Act(s, acts[0]).s, acts[1..], full);
      } else {
        CreditIsConserved(s, acts[1..], full);
      }
    }
  }

  /** A DATA frame with bytes that the client drops without returning them to any window. */
  predicate SkipsBytes(s: System, a: Action)
    requires CanAct(s, a)
  {
    a.ClientReceives? && Dropped(s.r, Arrival(s.toClient[0])) && s.toClient[0].length > 0
  }

  /** No such frame arrives. */
  predicate KeepsBytes(s: System, acts: seq<Action>)
    decreases |acts|
  {
    acts == [] ||
    if !CanAct(s, acts[0]) then KeepsBytes(s, acts[1..])
    else !SkipsBytes(s, acts[0]) && (Act(s, acts[0]).Running? ==> KeepsBytes(Act(s, acts[0]).s, acts[1..]))
  }

  lemma ActSkips(s: System, a: Action)
    requires CanAct(s, a) && Act(s, a).Running?
    ensures s.skipped <= Act(s, a).s.skipped
    ensures Act(s, a).s.skipped == s.skipped <==> !SkipsBytes(s, a)
  {
    if a.ClientReceives? {
      var s0 := s.(toClient := s.toClient[1..]);
      assert Act(s, a) == ClientStep(s0, Arrival(s.toClient[0]));
    }
  }

  lemma {:induction false} SkippedIff(s: System, acts: seq<Action>)
    requires Run(s, acts).Running?
    ensures s.skipped <= Run(s, acts).s.skipped
    ensures Run(s, acts).s.skipped == s.skipped <==> KeepsBytes(s, acts)
    decreases |acts|
  {
    if acts != [] {
      if CanAct(s, acts[0]) {
        ActSkips(s, acts[0]);
        SkippedIff(Act(s, acts[0]).s, acts[1..]);
      } else {
        SkippedIff(s, acts[1..]);
      }
    }
  }

  /**
   * The server's connection window, with what is in flight, is the client's, if and only if the client never
   * dropped DATA bytes of a stream without accounting for them.
   */
  lemma ServerMissesNothingIff(connFlow: nat, firstID: nat, acts: seq<Action>)
    requires 0 < connFlow <= MAX_WINDOW - SPEC_INITIAL_WINDOW && firstID > 0
    requires CarefulRun(Start(connFlow, firstID), acts)
    ensures Run(Start(connFlow, firstID), acts).Running?
    ensures var s := Run(Start(connFlow, firstID), acts).s;
      s.peerConn + ConnBytes(s.toClient) + Increments(s.toServer, 0) == s.r.conn.avail
      <==> KeepsBytes(Start(connFlow, firstID), acts)
  {
    var s := Start(connFlow, firstID);
    StartAgrees(connFlow, firstID);
    NothingOwed(map[], firstID);
    CreditIsConserved(s, acts, connFlow + SPEC_INITIAL_WINDOW);
    SkippedIff(s, acts);
  }

  /** Quiet: nothing is in flight and nothing is owed, because everything received has been consumed. */
  predicate Quiet(s: System) {
    s.toServer == [] && s.toClient == [] && Owing(s.r.bodies, s.r.nextStreamID) == 0
  }

  /** In a quiet state the server holds more than half of the window, but for the bytes the client dropped. */
  lemma QuietServerHoldsHalf(connFlow: nat, firstID: nat, acts: seq<Action>)
    requires 0 < connFlow <= MAX_WINDOW - SPEC_INITIAL_WINDOW && firstID > 0
    requires CarefulRun(Start(connFlow, firstID), acts)
    ensures Run(Start(connFlow, firstID), acts).Running?
    ensures var s := Run(Start(connFlow, firstID), acts).s;
      Quiet(s) ==> 2 * (s.peerConn + s.skipped) > connFlow + SPEC_INITIAL_WINDOW
    ensures var s := Run(Start(connFlow, firstID), acts).s;
      Quiet(s) && KeepsBytes(Start(connFlow, firstID), acts) ==> 2 * s.peerConn > connFlow + SPEC_INITIAL_WINDOW
  {
    var s := Start(connFlow, firstID);
    StartAgrees(connFlow, firstID);
    NothingOwed(map[], firstID);
    CreditIsConserved(s, acts, connFlow + SPEC_INITIAL_WINDOW);
    SkippedIff(s, acts);
  }

  // ------------------------------------------------------------ why the care is needed

  /** Closing a body twice credits its unread bytes twice; with the largest window the second time panics. */
  lemma ClosingTwicePanics(five: seq<byte>)
    requires |five| == 5
    ensures var r0 := Receiver(Window(MAX_WINDOW, 0), map[], {}, 1);
      var r1 := Do(r0, AddStream(false)).r;
      var r2 := Do(r1, Headers(1, None, false)).r;
      Do(r2, Data(1, 5, five, false)).Next?
      && var r3 := Do(r2, Data(1, 5, five, false)).r;
      var r4 := Do(r3, BreakBody(1)).r;
      Do(r4, CloseCredit(1)).Next?
      && var r5 := Do(r4, CloseCredit(1)).r;
      var r6 := Do(r5, BreakBody(1)).r;
      Balance(r3) == MAX_WINDOW && Do(r6, CloseCredit(1)) == Panic
  {
    var r0 := Receiver(Window(MAX_WINDOW, 0), map[], {}, 1);
    var r1 := Do(r0, AddStream(false)).r;
    var r2 := Do(r1, Headers(1, None, false)).r;
    assert r2.bodies[1].pipe.buf == Some([]) && [] + five == five;
    var r3 := Do(r2, Data(1, 5, five, false)).r;
    assert r3.bodies[1].pipe.buf == Some(five) && r3.conn == Window(MAX_WINDOW - 5, 0);
    assert Owing(r3.bodies, 1) == 0;
    assert Owing(r3.bodies, 2) == 5;
    assert Owing(r3.bodies, 3) == 5;
  }

  /** A body longer than its Content-Length: the bytes of the read that notices are never credited. */
  lemma {:induction false} OverrunLosesCredit(five: seq<byte>)
    requires |five| == 5
    ensures var r0 := Receiver(Window(65535, 0), map[], {}, 1);
      var r1 := Do(r0, AddStream(false)).r;
      var r2 := Do(r1, Headers(1, Some(3), false)).r;
      Do(r2, Data(1, 5, five, false)).Next?
      && var r3 := Do(r2, Data(1, 5, five, false)).r;
      Enabled(r3, ReadTake(1, 5))
      && var r4 := Do(r3, ReadTake(1, 5)).r;
      r4.conn == Window(65530, 0) && r4.bodies[1].Owed() == 0
  {
    var r0 := Receiver(Window(65535, 0), map[], {}, 1);
    var r1 := Do(r0, AddStream(false)).r;
    var r2 := Do(r1, Headers(1, Some(3), false)).r;
    assert r2.bodies[1].pipe.buf == Some([]) && [] + five == five;
    var r3 := Do(r2, Data(1, 5, five, false)).r;
    assert r3.bodies[1].pipe.buf == Some(five);
  }

  /** Once the server knows of a new stream, it sends so many bytes on it before it has answered. */
  function EarlyData(firstID: nat, length: nat): seq<Action> {
    [ClientSteps(AddStream(false)), ServerReceives, ServerReceives, ServerReceives,
     ServerSends(DataFrame(firstID, length, [], false)), ClientReceives]
  }

  /**
   * Then everything is quiet, and these bytes never come back to the server. From half of the window on it
   * holds no more than the other half: with a ConnectionFlow of 1, 40000 bytes leave it 25536 of 65536.
   */
  lemma EarlyDataIsNotReturned(connFlow: nat, firstID: nat, length: nat)
    requires 0 < connFlow <= MAX_WINDOW - SPEC_INITIAL_WINDOW && firstID > 0
    requires 0 < length <= connFlow + SPEC_INITIAL_WINDOW && length <= DEFAULT_STREAM_FLOW
    ensures var acts := EarlyData(firstID, length);
      CarefulRun(Start(connFlow, firstID), acts) && Run(Start(connFlow, firstID), acts).Running?
      && var s := Run(Start(connFlow, firstID), acts).s;
      Quiet(s) && s.peerConn == connFlow + SPEC_INITIAL_WINDOW - length && s.skipped == length
  {
    var acts := EarlyData(firstID, length);
    var s0 := Start(connFlow, firstID);
    var s1 := Act(s0, acts[0]).s;
    Opened(connFlow, firstID, s1);
    var s4 := ServerStep(ServerStep(ServerStep(s1)));
    var s5 := Act(s4, acts[4]).s;
    Sent(s4, firstID, length);
    Dropping(s5, firstID, length);
    var s6 := Act(s5, ClientReceives).s;
    RunsThrough(s0, acts, s1);
    RunsThrough(s1, acts[1..], ServerStep(s1));
    RunsThrough(ServerStep(s1), acts[2..], ServerStep(ServerStep(s1)));
    RunsThrough(ServerStep(ServerStep(s1)), acts[3..], s4);
    RunsThrough(s4, acts[4..], s5);
    RunsThrough(s5, acts[5..], s6);
    assert acts[6..] == [];
  }

  /** The server has caught up with the preface and the new stream. */
  ghost predicate Fresh(s: System, id: nat) {
    s.toServer == [] && s.toClient == [] && s.peerStreams.Keys == {id} && s.Held(id) == DEFAULT_STREAM_FLOW
    && s.r.bodies == map[id := NewBody(false)] && s.r.live == {id} && s.r.nextStreamID == id + 2 && s.skipped == 0
  }

  lemma Opened(connFlow: nat, id: nat, s1: System)
    requires id > 0 && s1 == Act(Start(connFlow, id), ClientSteps(AddStream(false))).s
    ensures s1.toServer != [] && ServerStep(s1).toServer != [] && ServerStep(ServerStep(s1)).toServer != []
    ensures var s4 := ServerStep(ServerStep(ServerStep(s1)));
      Fresh(s4, id) && s4.peerConn == connFlow + SPEC_INITIAL_WINDOW
  {
    var u := [Settings(DEFAULT_STREAM_FLOW), Update(0, connFlow), Open(id)];
    assert s1.toServer == u;
    assert u[1..] == [Update(0, connFlow), Open(id)] && u[1..][1..] == [Open(id)] && u[1..][1..][1..] == [];
    assert s1.r.bodies == map[id := NewBody(false)];
  }

  lemma Sent(s: System, id: nat, length: nat)
    requires Fresh(s, id) && 0 < length <= DEFAULT_STREAM_FLOW && length <= s.peerConn
    ensures CanAct(s, ServerSends(DataFrame(id, length, [], false)))
    ensures var s' := Act(s, ServerSends(DataFrame(id, length, [], false))).s;
      s'.toClient == [DataFrame(id, length, [], false)] && s'.toServer == [] && s'.r == s.r
      && s'.peerConn == s.peerConn - length && s'.skipped == 0
  {
  }

  lemma Dropping(s: System, id: nat, length: nat)
    requires s.toClient == [DataFrame(id, length, [], false)] && s.toServer == [] && 0 < length < TWO_32
    requires s.r.bodies == map[id := NewBody(false)] && s.r.live == {id} && s.r.nextStreamID == id + 2
    ensures CanAct(s, ClientReceives) && Act(s, ClientReceives).Running?
    ensures var s' := Act(s, ClientReceives).s;
      Quiet(s') && s'.peerConn == s.peerConn && s'.skipped == s.skipped + length
  {
    var s' := Act(s, ClientReceives).s;
    assert s.toClient[1..] == [];
    assert s'.r.bodies.Keys == {id} && s'.r.bodies[id].Owed() == 0;
    NothingOwed(s'.r.bodies, id + 2);
  }

  lemma {:induction false} NothingOwed(bodies: map<nat, Body>, bound: nat)
    requires forall id <- bodies :: bodies[id].Owed() == 0
    ensures Owing(bodies, bound) == 0
  {
    if bound > 0 {
      NothingOwed(bodies, bound - 1);
    }
  }

  lemma RunsThrough(s: System, acts: seq<Action>, s': System)
    requires acts != [] && CanAct(s, acts[0]) && Careful(s, acts[0]) && Act(s, acts[0]) == Running(s')
    ensures Run(s, acts) == Run(s', acts[1..]) && (CarefulRun(s, acts) <==> CarefulRun(s', acts[1..]))
  {
  }
}
