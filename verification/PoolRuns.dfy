/** Runs of the connection pool: any interleaving of the steps of any number of goroutines. */
module PoolRuns {
  import opened Wrappers
  import opened ConnPool
  import opened PoolSafety
  import opened PoolOwnership

  datatype Event =
    | GetConn(w: nat, k: Key, aged: set<nat>)   // a new waiter looks for an idle connection
    | WantDial(w: nat)                          // and, finding none, asks to dial
    | SeesDone(w: nat)                          // its dial goroutine finds it served or cancelled
    | DialFails(w: nat)
    | DialReturns(w: nat)                       // the dial goroutine gives its place back
    | DialConnects(w: nat, c: nat)
    | DialDelivers(c: nat)
    | Receives(w: nat)
    | Cancels(w: nat)
    | Checks(c: nat)                            // tryPutIdleConn, before its lock
    | Puts(c: nat)                              // and under it
    | Closes(c: nat)                            // by whoever has it, or because the server hung up
    | Removes(c: nat)                           // the read loop, after closing it
    | Sweeps(c: nat)                            // its timer, or queueForIdleConn finding it too old
    | CloseAllIdle

  predicate HasConn(p: Pool, c: nat, place: Place) { c in p.conns && p.conns[c].place == place }

  predicate HasPhase(p: Pool, w: nat, phase: Phase) { w in p.wants && p.wants[w].phase == phase }

  predicate Enabled(p: Pool, e: Event) {
    match e
    case GetConn(w, _, _) => w !in p.wants
    case WantDial(w) => HasPhase(p, w, New)
    case SeesDone(w) => HasPhase(p, w, Dialing) && p.wants[w].done
    case DialFails(w) => HasPhase(p, w, Dialing)
    case DialReturns(w) => HasPhase(p, w, Failing)
    case DialConnects(w, c) => HasPhase(p, w, Dialing) && c !in p.conns
    case DialDelivers(c) => c in p.conns && p.conns[c].place.Dialed?
    case Receives(w) => w in p.wants && p.wants[w].ch.buffered.Some?
    case Cancels(w) => w in p.wants
    case Checks(c) => HasConn(p, c, Out)
    case Puts(c) => HasConn(p, c, Returning)
    case Closes(c) => c in p.conns
    case Removes(c) => c in p.conns && p.conns[c].closed
    case Sweeps(c) => c in p.conns
    case CloseAllIdle => true
  }

  ghost predicate Inv(p: Pool) { DialInv(p) && IdleInv(p) && Bounded(p, 0) }

  ghost predicate Known(p: Pool) { (forall k :: ListKnown(p, k)) && LRUKnown(p) && ResultsKnown(p) }

  predicate ResultsKnown(p: Pool) {
    forall w :: w in p.wants && HoldsConn(p, w) ==> p.wants[w].ch.buffered.value.c in p.conns
  }

  lemma InvKnown(p: Pool)
    requires IdleInv(p)
    ensures Known(p)
  {
    forall k
      ensures ListKnown(p, k)
    {
      assert ListIs(p, k);
    }
  }

  function Try(p: Pool, w: nat, o: Outcome): Pool
    requires o.Got? ==> o.c in p.conns
  {
    if Waiting(p.wants, w) then Deliver(p, w, o) else if o.Got? then Put(p, o.c, Out) else p
  }

  ghost function Step(p: Pool, e: Event): Pool
    requires Enabled(p, e) && Known(p)
  {
    match e
    case GetConn(w, k, aged) =>
      assert ListKnown(AddWant(p, w, k), k) by { assert ListKnown(p, k); }
      QueueForIdle(AddWant(p, w, k), w, aged)
    case WantDial(w) => QueueForDial(p, w)
    case SeesDone(w) => WithPhase(p, w, Failing)
    case DialFails(w) => Try(WithPhase(p, w, Failing), w, Failed)
    case DialReturns(w) => Dec(WithPhase(p, w, Ended), p.wants[w].key)
    case DialConnects(w, c) => Connect(p, w, c)
    case DialDelivers(c) => Try(p, p.conns[c].place.w, Got(c))
    case Receives(w) => Receive(p, w)
    case Cancels(w) => Cancel(p, w)
    case Checks(c) => if p.cfg.KeepsNothing() || p.conns[c].closed then p else Put(p, c, Returning)
    case Puts(c) => TryPut(p, c)
    case Closes(c) => Close(p, c)
    case Removes(c) => RemoveIdle(p, c)
    case Sweeps(c) => Sweep(p, c)
    case CloseAllIdle => CloseIdle(p)
  }

  // ------------------------------------------------------------ each step keeps the idle side

  lemma GetConnKeepsIdle(p: Pool, w: nat, k: Key, aged: set<nat>)
    requires IdleInv(p) && Bounded(p, 0) && Known(p) && w !in p.wants
    ensures ListKnown(AddWant(p, w, k), k)
    ensures IdleInv(QueueForIdle(AddWant(p, w, k), w, aged)) && Bounded(QueueForIdle(AddWant(p, w, k), w, aged), 0)
  {
    var q := AddWant(p, w, k);
    IdleSideKept(p, q);
    assert ListKnown(p, k);
    QueueForIdleKeeps(q, w, aged);
  }

  lemma TryKeepsIdle(p: Pool, w: nat, o: Outcome)
    requires IdleInv(p) && (o.Got? ==> o.c in p.conns && Detached(p.conns[o.c].place))
    ensures IdleInv(Try(p, w, o)) && Try(p, w, o).idle == p.idle && Try(p, w, o).cfg == p.cfg
  {
    if Waiting(p.wants, w) {
      DeliverKeeps(p, w, o);
    } else if o.Got? {
      DetachedMoves(p, o.c, Out);
    }
  }

  lemma RemoveBound(p: Pool, c: nat)
    requires IdleInv(p) && Bounded(p, 0) && c in p.conns
    ensures Bounded(RemoveIdle(p, c), 0) && Bounded(Sweep(p, c), 0)
  {
    WithoutDistinct(p.idle.lru, c);
    CloseIsElsewhere(RemoveIdle(p, c), c);
  }

  lemma QueueForDialIsElsewhere(p: Pool, w: nat)
    requires w in p.wants
    ensures SameIdleSide(p, QueueForDial(p, w))
  {
  }

  lemma DialReturnsKeepsIdle(p: Pool, w: nat)
    requires IdleInv(p) && w in p.wants
    ensures IdleInv(Dec(WithPhase(p, w, Ended), p.wants[w].key))
    ensures Dec(WithPhase(p, w, Ended), p.wants[w].key).idle == p.idle
  {
    var q := WithPhase(p, w, Ended);
    IdleSideKept(p, q);
    DecIsElsewhere(q, p.wants[w].key);
    IdleSideKept(q, Dec(q, p.wants[w].key));
  }

  lemma DialFailsKeepsIdle(p: Pool, w: nat)
    requires IdleInv(p) && w in p.wants
    ensures var q := Try(WithPhase(p, w, Failing), w, Failed); IdleInv(q) && q.idle == p.idle && q.cfg == p.cfg
  {
    IdleSideKept(p, WithPhase(p, w, Failing));
    TryKeepsIdle(WithPhase(p, w, Failing), w, Failed);
  }

  /** The other steps that concern dials. */
  lemma DialStepKeepsIdle(p: Pool, e: Event)
    requires IdleInv(p) && Known(p) && Enabled(p, e)
    requires e.WantDial? || e.SeesDone? || e.DialConnects? || e.Closes?
    ensures IdleInv(Step(p, e)) && Step(p, e).idle == p.idle && Step(p, e).cfg == p.cfg
  {
    match e {
      case WantDial(w) => QueueForDialIsElsewhere(p, w);
      case SeesDone(w) =>
      case DialConnects(w, c) =>
      case Closes(c) => CloseIsElsewhere(p, c);
    }
    IdleSideKept(p, Step(p, e));
  }

  lemma StepKeepsIdle(p: Pool, e: Event)
    requires IdleInv(p) && Bounded(p, 0) && Known(p) && Enabled(p, e)
    ensures IdleInv(Step(p, e)) && Bounded(Step(p, e), 0)
  {
    match e {
      case GetConn(w, k, aged) => GetConnKeepsIdle(p, w, k, aged);
      case DialDelivers(c) => TryKeepsIdle(p, p.conns[c].place.w, Got(c));
      case Receives(w) => ReceiveKeeps(p, w);
      case Cancels(w) => CancelKeeps(p, w);
      case Checks(c) => DetachedMoves(p, c, Returning);
      case Puts(c) => TryPutKeeps(p, c);
      case Removes(c) => RemoveKeeps(p, c); RemoveBound(p, c);
      case Sweeps(c) => SweepKeeps(p, c); RemoveBound(p, c);
      case CloseAllIdle => CloseIdleKeeps(p);
      case DialFails(w) => DialFailsKeepsIdle(p, w);
      case DialReturns(w) => DialReturnsKeepsIdle(p, w);
      case _ => DialStepKeepsIdle(p, e);
    }
  }

  // ------------------------------------------------------------ each step keeps the dial side

  lemma DeliverSide(p: Pool, w: nat, o: Outcome)
    requires o.Got? ==> o.c in p.conns
    ensures SameDialSide(p, Try(p, w, o))
  {
  }

  lemma TakeSide(p: Pool, w: nat)
    requires Waiting(p.wants, w) && p.wants[w].phase.New? && ListKnown(p, p.wants[w].key)
    ensures SameDialSide(p, Register(p, w))
    ensures Get(p.idle.lists, p.wants[w].key) != [] ==> SameDialSide(p, WithPhase(TakeIdle(p, w), w, Ended))
  {
  }

  lemma GetConnKeepsDials(p: Pool, w: nat, k: Key, aged: set<nat>)
    requires DialInv(p) && w !in p.wants && ListKnown(AddWant(p, w, k), k)
    ensures DialInv(QueueForIdle(AddWant(p, w, k), w, aged))
  {
    var q := AddWant(p, w, k);
    DialSideKept(p, q);
    if !p.cfg.disableKeepAlives {
      var r := q.(idle := q.idle.(closing := false));
      DialSideKept(q, r);
      DropStaleFrame(r, k, aged);
      var s := DropStale(r, k, aged);
      DialSideKept(r, s);
      TakeSide(s, w);
      DialSideKept(s, QueueForIdle(q, w, aged));
    }
  }

  lemma SweepKeepsDials(p: Pool, c: nat)
    requires DialInv(p) && c in p.conns
    ensures DialInv(RemoveIdle(p, c)) && DialInv(Sweep(p, c))
  {
    DialSideKept(p, RemoveIdle(p, c));
    CloseKeepsDials(RemoveIdle(p, c), c);
  }

  lemma TryPutKeepsDials(p: Pool, c: nat)
    requires DialInv(p) && IdleInv(p) && c in p.conns && p.conns[c].place.Returning? && LRUKnown(p)
    ensures DialInv(TryPut(p, c))
  {
    var k := p.conns[c].key;
    var q := DropDone(Get(p.idle.wait, k), p.wants);
    var p' := p.(idle := p.idle.(wait := Set(p.idle.wait, k, if q == [] then [] else q[1..])));
    DialSideKept(p, p');
    if q != [] {
      DialSideKept(p', Deliver(p', q[0], Got(c)));
    } else {
      DialSideKept(p', Put(p', c, Out));
      var line := Get(p.idle.wait, k);
      assert line[|line|..] == [];
      ServeQueueKeeps(p, k, |line|);
      if |Get(p.idle.lists, k)| < p.cfg.PerHost() {
        PutOnKeepsDials(p', c);
      }
    }
  }

  lemma PutOnKeepsDials(p: Pool, c: nat)
    requires DialInv(p) && IdleInv(p) && c in p.conns && p.conns[c].place.Returning?
    requires Get(p.idle.wait, p.conns[c].key) == [] && |Get(p.idle.lists, p.conns[c].key)| < p.cfg.PerHost()
    ensures LRUKnown(p) && DialInv(PutOn(p, c))
  {
    AddIdleKeeps(p, c);
    var added := AddIdle(p, c);
    DialSideKept(p, added);
    EvictIsSweep(added);
    SweepKeepsDials(added, added.idle.lru[|added.idle.lru| - 1]);
  }

  lemma TryStepKeepsDials(p: Pool, w: nat, o: Outcome)
    requires DialInv(p) && (o.Got? ==> o.c in p.conns)
    ensures DialInv(Try(p, w, o))
  {
    DeliverSide(p, w, o);
    DialSideKept(p, Try(p, w, o));
  }

  /** Steps that only move a connection or a result. */
  lemma QuietSide(p: Pool, e: Event)
    requires Known(p) && Enabled(p, e) && (e.Receives? || e.Cancels? || e.Checks? || e.CloseAllIdle?)
    ensures SameDialSide(p, Step(p, e))
  {
  }

  lemma StepKeepsDials(p: Pool, e: Event)
    requires DialInv(p) && IdleInv(p) && Known(p) && Enabled(p, e)
    ensures DialInv(Step(p, e))
  {
    match e {
      case GetConn(w, k, aged) =>
        assert ListKnown(p, k);
        assert ListKnown(AddWant(p, w, k), k);
        GetConnKeepsDials(p, w, k, aged);
      case WantDial(w) => QueueForDialKeepsDials(p, w);
      case SeesDone(w) => SeesDoneKeepsDials(p, w);
      case DialFails(w) =>
        SeesDoneKeepsDials(p, w);
        TryStepKeepsDials(WithPhase(p, w, Failing), w, Failed);
      case DialReturns(w) => DialReturnsKeepsDials(p, w);
      case DialConnects(w, c) => ConnectKeepsDials(p, w, c);
      case DialDelivers(c) => TryStepKeepsDials(p, p.conns[c].place.w, Got(c));
      case Puts(c) => TryPutKeepsDials(p, c);
      case Closes(c) => CloseKeepsDials(p, c);
      case Removes(c) => SweepKeepsDials(p, c);
      case Sweeps(c) => SweepKeepsDials(p, c);
      case _ =>
        QuietSide(p, e);
        DialSideKept(p, Step(p, e));
    }
  }

  // ------------------------------------------------------------ runs

  /** One step of a run. Known is no restriction: RunKeepsInv shows it of every state. */
  ghost predicate Steps(p: Pool, e: Event, q: Pool) { Enabled(p, e) && (Known(p) ==> q == Step(p, e)) }

  ghost predicate IsRun(states: seq<Pool>, events: seq<Event>) {
    |states| == |events| + 1 && forall i :: 0 <= i < |events| ==> Steps(states[i], events[i], states[i + 1])
  }

  lemma InitInv(cfg: Config)
    ensures Inv(Init(cfg))
  {
    var p := Init(cfg);
    forall k
      ensures ListIs(p, k) && WaitIs(p, k) && QueueIs(p, k) && (cfg.maxConnsPerHost > 0 ==> CountedAt(p, k, 0))
    {
      assert Dials(p.wants, k) == {} && Open(p.conns, k) == {};
    }
  }

  /** Main result: every state of every run is consistent, and no step panics. */
  lemma {:induction false} RunKeepsInv(cfg: Config, states: seq<Pool>, events: seq<Event>, i: nat)
    requires IsRun(states, events) && states[0] == Init(cfg) && i <= |events|
    ensures Inv(states[i]) && Known(states[i])
  {
    if i == 0 {
      InitInv(cfg);
    } else {
      RunKeepsInv(cfg, states, events, i - 1);
      assert Steps(states[i - 1], events[i - 1], states[i]);
      StepKeepsIdle(states[i - 1], events[i - 1]);
      StepKeepsDials(states[i - 1], events[i - 1]);
    }
    InvKnown(states[i]);
  }

  // ------------------------------------------------------------ what it means

  /**
   * With a limit, what counts against it is exactly the dials in progress and the open connections, never more
   * than the limit; and a waiter that is still queued to dial is queued because the limit is reached.
   */
  lemma LimitHolds(p: Pool, k: Key, w: nat)
    requires Inv(p) && p.cfg.maxConnsPerHost > 0
    ensures Count(p, k) == |Dials(p.wants, k)| + |Open(p.conns, k)| <= p.cfg.maxConnsPerHost
    ensures QueuedAt(p, k, w) && Waiting(p.wants, w) ==> Count(p, k) == p.cfg.maxConnsPerHost
  {
    assert CountedAt(p, k, 0);
  }

  /** A connection has one owner: one slot of one list, or one channel, or neither. */
  lemma OneOwner(p: Pool, k: Key, i: nat, j: Key, n: nat, w: nat, v: nat)
    requires Inv(p) && i < |Get(p.idle.lists, k)| && n < |Get(p.idle.lists, j)| && w in p.wants && v in p.wants
    ensures Get(p.idle.lists, k)[i] == Get(p.idle.lists, j)[n] ==> k == j && i == n
    ensures p.wants[w].ch.buffered != Some(Got(Get(p.idle.lists, k)[i]))
    ensures HoldsConn(p, w) && p.wants[v].ch.buffered == p.wants[w].ch.buffered ==> v == w
  {
    assert ListIs(p, k) && ListIs(p, j);
    InvKnown(p);
  }

  /** Who waits for an idle connection has none to take. */
  lemma NoWaiterBesideIdle(p: Pool, k: Key, w: nat)
    requires Inv(p) && w in Get(p.idle.wait, k) && Waiting(p.wants, w)
    ensures Get(p.idle.lists, k) == [] && forall c :: c in p.conns && p.conns[c].key == k ==> !p.conns[c].place.Idle?
  {
    assert WaitIs(p, k);
  }

  ghost function IdleSet(p: Pool): set<nat> { set c | c in p.conns && p.conns[c].place.Idle? }

  function Elements(s: seq<nat>): set<nat> { set x | x in s }

  lemma {:induction false} ElementsSize(s: seq<nat>)
    ensures |Elements(s)| <= |s|
    decreases |s|
  {
    if s != [] {
      ElementsSize(s[1..]);
      assert Elements(s) == Elements(s[1..]) + {s[0]};
    }
  }

  /**
   * Both limits on idle connections hold, each list is part of the index, and what else is in the index is on its
   * way out.
   */
  lemma IdleLimitsHold(p: Pool, k: Key, c: nat)
    requires Inv(p)
    ensures |Get(p.idle.lists, k)| <= Cap(p.cfg.PerHost())
    ensures p.cfg.maxIdle > 0 ==> |IdleSet(p)| <= p.cfg.maxIdle
    ensures c in Get(p.idle.lists, k) ==> c in p.idle.lru
    ensures c in p.idle.lru && c in p.conns && c !in Get(p.idle.lists, p.conns[c].key) ==>
      p.conns[c].place.Dropped? && (p.conns[c].closed || p.conns[c].place.aged)
  {
    assert ListIs(p, k);
    ElementsSize(p.idle.lru);
    assert IdleSet(p) <= Elements(p.idle.lru);
    SubsetSize(IdleSet(p), Elements(p.idle.lru));
  }

  lemma {:induction false} SubsetSize(a: set<nat>, b: set<nat>)
    requires a <= b
    ensures |a| <= |b|
    decreases |a|
  {
    if a != {} {
      var x :| x in a;
      SubsetSize(a - {x}, b - {x});
    }
  }

  /** A waiter that gives up hands back what it was given; it can then be put again. */
  lemma {:induction false} CancelHandsBack(p: Pool, w: nat, c: nat)
    requires Inv(p) && w in p.wants && p.wants[w].ch.buffered == Some(Got(c)) && Known(p)
    ensures var q := Step(p, Cancels(w));
      q.wants[w].done && q.wants[w].ch.buffered == None && Enabled(q, Checks(c))
  {
  }

  /** The i-th of the line is the first that still waits. */
  predicate FirstWaiting(line: seq<nat>, wants: map<nat, Want>, i: nat) {
    i < |line| && Waiting(wants, line[i]) && forall j :: 0 <= j < i ==> !Waiting(wants, line[j])
  }

  lemma LeadingIsFirst(line: seq<nat>, wants: map<nat, Want>, i: nat)
    requires FirstWaiting(line, wants, i)
    ensures LeadingDone(line, wants, 0) == i && DropDone(line, wants) == line[i..]
  {
  }

  /** A connection put back goes to the first waiter of its key that still waits, and no other waiter is passed over. */
  lemma PutServesFirst(p: Pool, c: nat, i: nat)
    requires Inv(p) && HasConn(p, c, Returning) && Known(p)
    requires FirstWaiting(Get(p.idle.wait, p.conns[c].key), p.wants, i)
    ensures var q, line := Step(p, Puts(c)), Get(p.idle.wait, p.conns[c].key);
      q.conns[c].place == InResult(line[i]) && q.wants[line[i]].ch.buffered == Some(Got(c))
      && Get(q.idle.wait, p.conns[c].key) == line[i + 1..] && q.idle.lists == p.idle.lists
  {
    var line := Get(p.idle.wait, p.conns[c].key);
    LeadingIsFirst(line, p.wants, i);
    assert line[i..][1..] == line[i + 1..];
  }

  predicate Listed(p: Pool, c: nat)
    requires c in p.conns
  {
    !p.idle.closing && |Get(p.idle.lists, p.conns[c].key)| < p.cfg.PerHost()
  }

  /**
   * When nobody waits, it becomes idle, unless its list is full or connections are being closed. A negative
   * MaxIdleConns keeps none: what is listed is closed at once.
   */
  lemma PutEnds(p: Pool, c: nat)
    requires Inv(p) && HasConn(p, c, Returning) && Known(p)
    requires forall w :: w in Get(p.idle.wait, p.conns[c].key) ==> !Waiting(p.wants, w)
    ensures var q := Step(p, Puts(c));
      c in q.conns && q.conns[c].place == (if Listed(p, c) && p.cfg.maxIdle >= 0 then Idle else Out)
      && (q.conns[c].closed <==> p.conns[c].closed || (Listed(p, c) && p.cfg.maxIdle < 0))
  {
    var k := p.conns[c].key;
    var line := Get(p.idle.wait, k);
    var n := LeadingDone(line, p.wants, 0);
    if n < |line| {
      assert false;
    }
    assert DropDone(line, p.wants) == [] && line[|line|..] == [];
    ServeQueueKeeps(p, k, |line|);
    if |Get(p.idle.lists, k)| < p.cfg.PerHost() {
      PutOnPlaces(p.(idle := p.idle.(wait := Set(p.idle.wait, k, []))), c);
    }
  }

  /** Two connections are kept for a key unless MaxIdleConnsPerHost says otherwise; none when it is negative. */
  lemma ListedIff(p: Pool, c: nat)
    requires c in p.conns
    ensures var max := if p.cfg.maxIdlePerHost == 0 then 2 else p.cfg.maxIdlePerHost;
      Listed(p, c) <==> (!p.idle.closing && |Get(p.idle.lists, p.conns[c].key)| < max)
  {
  }

  /** A place given back goes to the first that still waits to dial. */
  lemma PlaceServesFirst(p: Pool, k: Key, i: nat)
    requires p.cfg.maxConnsPerHost > 0 && Count(p, k) > 0 && FirstWaiting(Get(p.dial.wait, k), p.wants, i)
    ensures var q, line := Dec(p, k), Get(p.dial.wait, k);
      q.wants == p.wants[line[i] := p.wants[line[i]].(phase := Dialing)] && q.dial.count == p.dial.count
      && Get(q.dial.wait, k) == line[i + 1..]
  {
    var line := Get(p.dial.wait, k);
    LeadingIsFirst(line, p.wants, i);
    assert line[i..][1..] == line[i + 1..];
  }

  /** The i-th of the list is its newest connection that is open and not too old. */
  predicate NewestUsable(p: Pool, list: seq<nat>, aged: set<nat>, i: nat) {
    i < |list| && !Stale(p, list[i], aged) && forall j :: i < j < |list| ==> Stale(p, list[j], aged)
  }

  lemma {:induction false} DropStaleLeaves(p: Pool, k: Key, aged: set<nat>, i: nat)
    requires ListIs(p, k) && NewestUsable(p, Get(p.idle.lists, k), aged, i)
    ensures ListKnown(p, k) && Get(DropStale(p, k, aged).idle.lists, k) == Get(p.idle.lists, k)[..i + 1]
    decreases |Get(p.idle.lists, k)|
  {
    var list := Get(p.idle.lists, k);
    var last := list[|list| - 1];
    if i < |list| - 1 {
      assert Stale(p, last, aged);
      UnlistIs(p, k, last in aged);
      DropStaleLeaves(Unlist(p, k, Dropped(last in aged)), k, aged, i);
      assert list[..|list| - 1][..i + 1] == list[..i + 1];
    } else {
      assert list[..i + 1] == list;
    }
  }

  lemma QueueTakesNewest(p: Pool, w: nat, aged: set<nat>, i: nat)
    requires Waiting(p.wants, w) && !p.cfg.disableKeepAlives && ListIs(p, p.wants[w].key)
    requires NewestUsable(p, Get(p.idle.lists, p.wants[w].key), aged, i)
    ensures var k := p.wants[w].key;
      var list := Get(p.idle.lists, k);
      ListKnown(p, k) && QueueForIdle(p, w, aged).wants[w].ch.buffered == Some(Got(list[i]))
      && Get(QueueForIdle(p, w, aged).idle.lists, k) == list[..i]
  {
    var k := p.wants[w].key;
    var r := p.(idle := p.idle.(closing := false));
    assert ListIs(r, k);
    DropStaleLeaves(r, k, aged, i);
    assert Get(p.idle.lists, k)[..i + 1][..i] == Get(p.idle.lists, k)[..i];
    TakesLast(DropStale(r, k, aged), w);
  }

  /** A request gets the newest usable idle connection of its key. */
  lemma RequestGetsNewest(p: Pool, w: nat, k: Key, aged: set<nat>, i: nat)
    requires Inv(p) && Known(p) && w !in p.wants && !p.cfg.disableKeepAlives
    requires NewestUsable(p, Get(p.idle.lists, k), aged, i)
    ensures var q, list := Step(p, GetConn(w, k, aged)), Get(p.idle.lists, k);
      q.wants[w].ch.buffered == Some(Got(list[i])) && Get(q.idle.lists, k) == list[..i]
  {
    assert ListIs(p, k);
    QueueTakesNewest(AddWant(p, w, k), w, aged, i);
  }

  lemma TakesLast(p: Pool, w: nat)
    requires Waiting(p.wants, w) && Get(p.idle.lists, p.wants[w].key) != [] && ListKnown(p, p.wants[w].key)
    ensures var list, q := Get(p.idle.lists, p.wants[w].key), TakeIdle(p, w);
      q.wants[w].ch.buffered == Some(Got(list[|list| - 1])) && Get(q.idle.lists, p.wants[w].key) == list[..|list| - 1]
  {
  }

  lemma DecKeepsConns(p: Pool, k: Key)
    ensures Dec(p, k).conns == p.conns
  {
  }

  lemma SweepPlaces(p: Pool, oldest: nat, c: nat)
    requires IndexIs(p) && oldest in p.idle.lru && oldest in p.conns && c in p.conns && p.conns[c].place.Idle?
    ensures c in Sweep(p, oldest).conns
    ensures Sweep(p, oldest).conns[c]
      == if c == oldest then p.conns[c].(place := Out, closed := true) else p.conns[c]
  {
    var q := RemoveIdle(p, oldest);
    if !q.conns[oldest].closed {
      DecKeepsConns(q.(conns := q.conns[oldest := q.conns[oldest].(closed := true)]), q.conns[oldest].key);
    }
  }

  lemma PutOnPlaces(p: Pool, c: nat)
    requires IdleInv(p) && Bounded(p, 0) && c in p.conns && p.conns[c].place.Returning?
    requires Get(p.idle.wait, p.conns[c].key) == [] && |Get(p.idle.lists, p.conns[c].key)| < p.cfg.PerHost()
    ensures LRUKnown(p) && c in PutOn(p, c).conns
    ensures PutOn(p, c).conns[c].place == if p.cfg.maxIdle >= 0 then Idle else Out
    ensures PutOn(p, c).conns[c].closed <==> p.conns[c].closed || p.cfg.maxIdle < 0
  {
    AddIdleKeeps(p, c);
    var added := AddIdle(p, c);
    assert IndexIs(added) && added.idle.lru[0] == c;
    assert ListIs(p, p.conns[c].key);
    assert added.conns[c] == p.conns[c].(place := Idle);
    if p.cfg.maxIdle != 0 && |added.idle.lru| > p.cfg.maxIdle {
      EvictIsSweep(added);
      SweepPlaces(added, added.idle.lru[|added.idle.lru| - 1], c);
    }
  }

  /** A request that found no idle connection dials at once if and only if there is no limit or it is not reached. */
  lemma DialsIff(p: Pool, w: nat)
    requires Known(p) && HasPhase(p, w, New)
    ensures w in Step(p, WantDial(w)).wants
    ensures Step(p, WantDial(w)).wants[w].phase.Dialing? <==>
      p.cfg.maxConnsPerHost <= 0 || Count(p, p.wants[w].key) < p.cfg.maxConnsPerHost
  {
  }

  /** A connection is put back if and only if connections are kept at all and it is still open. */
  lemma ReturnsIff(p: Pool, c: nat)
    requires Known(p) && HasConn(p, c, Out)
    ensures c in Step(p, Checks(c)).conns
    ensures Step(p, Checks(c)).conns[c].place.Returning? <==>
      !p.cfg.disableKeepAlives && p.cfg.maxIdlePerHost >= 0 && !p.conns[c].closed
  {
  }

  // ------------------------------------------------------------ connections nobody has

  /** One goroutine has it: it dialed it, uses it, or is returning or closing it. */
  predicate WithGoroutine(p: Pool, c: nat)
    requires c in p.conns
  {
    p.conns[c].place.Dialed? || p.conns[c].place.Out? || p.conns[c].place.Returning?
  }

  /** An open connection that is in no idle list, not in the index, in no channel, and that no goroutine has. */
  ghost predicate Abandoned(p: Pool, c: nat)
    requires c in p.conns
  {
    && !p.conns[c].closed && c !in p.idle.lru && (forall k :: c !in Get(p.idle.lists, k))
    && (forall w <- p.wants :: p.wants[w].ch.buffered != Some(Got(c))) && !WithGoroutine(p, c)
  }

  /**
   * CloseIdleConnections abandons a connection if and only if it was open and in the index, but no longer in the idle
   * list of its key: dropped as too old, and not swept yet.
   */
  lemma LostIff(p: Pool, c: nat)
    requires Inv(p) && c in p.conns && !Abandoned(p, c)
    ensures Abandoned(CloseIdle(p), c) <==>
      c in p.idle.lru && !p.conns[c].closed && c !in Get(p.idle.lists, p.conns[c].key)
  {
    var q := CloseIdle(p);
    var place := p.conns[c].place;
    forall k
      ensures c in Get(p.idle.lists, k) ==> place.Idle? && p.conns[c].key == k
    {
      assert ListIs(p, k);
    }
    if place.InResult? {
      assert q.wants[place.w].ch.buffered == Some(Got(c));
    }
  }

  /** Once abandoned, a connection is not swept: it stays open, and counted, until its server hangs up. */
  lemma LostIsNotSwept(p: Pool, c: nat)
    requires c in p.conns && Abandoned(p, c)
    ensures Sweep(p, c) == p && c in Open(p.conns, p.conns[c].key)
  {
  }

  /** To be abandoned is to be open and nowhere. */
  lemma AbandonedIsLost(p: Pool, c: nat)
    requires IdleInv(p) && c in p.conns
    ensures Abandoned(p, c) <==> !p.conns[c].closed && p.conns[c].place.Lost?
  {
    var place := p.conns[c].place;
    assert IndexIs(p) && ListsComplete(p) && ResultsMatch(p);
    if place.Lost? {
      forall k
        ensures c !in Get(p.idle.lists, k)
      {
        assert ListIs(p, k);
      }
    }
  }

  /** What is not lost before is not lost afterwards, and what is closed stays so. */
  ghost predicate LosesNone(p: Pool, q: Pool) {
    forall c :: c in q.conns && q.conns[c].place.Lost? ==>
      c in p.conns && p.conns[c].place.Lost? && (p.conns[c].closed ==> q.conns[c].closed)
  }

  lemma {:induction false} DropStaleLosesNone(p: Pool, k: Key, aged: set<nat>)
    requires ListKnown(p, k)
    ensures LosesNone(p, DropStale(p, k, aged))
    decreases |Get(p.idle.lists, k)|
  {
    var list := Get(p.idle.lists, k);
    if list != [] && Stale(p, list[|list| - 1], aged) {
      DropStaleLosesNone(Unlist(p, k, Dropped(list[|list| - 1] in aged)), k, aged);
    }
  }

  lemma CloseLosesNone(p: Pool, c: nat)
    requires c in p.conns
    ensures LosesNone(p, Close(p, c)) && LosesNone(p, RemoveIdle(p, c))
  {
    CloseIsElsewhere(p, c);
  }

  lemma SweepLosesNone(p: Pool, c: nat)
    requires c in p.conns
    ensures LosesNone(p, Sweep(p, c))
  {
    CloseLosesNone(p, c);
    CloseLosesNone(RemoveIdle(p, c), c);
  }

  lemma QueueLosesNone(p: Pool, w: nat, aged: set<nat>)
    requires Waiting(p.wants, w) && ListKnown(p, p.wants[w].key)
    ensures LosesNone(p, QueueForIdle(p, w, aged))
  {
    if !p.cfg.disableKeepAlives {
      DropStaleLosesNone(p.(idle := p.idle.(closing := false)), p.wants[w].key, aged);
    }
  }

  lemma AddLosesNone(p: Pool, c: nat)
    requires HasConn(p, c, Returning)
    ensures LosesNone(p, AddIdle(p, c))
  {
  }

  lemma PutOnLosesNone(p: Pool, c: nat)
    requires IdleInv(p) && HasConn(p, c, Returning) && LRUKnown(p)
    requires Get(p.idle.wait, p.conns[c].key) == [] && |Get(p.idle.lists, p.conns[c].key)| < p.cfg.PerHost()
    ensures LosesNone(p, PutOn(p, c))
  {
    AddLosesNone(p, c);
    AddIdleKeeps(p, c);
    var added := AddIdle(p, c);
    if p.cfg.maxIdle != 0 && |added.idle.lru| > p.cfg.maxIdle {
      assert IndexIs(added);
      EvictIsSweep(added);
      SweepLosesNone(added, added.idle.lru[|added.idle.lru| - 1]);
    }
  }

  lemma PutLosesNone(p: Pool, c: nat)
    requires IdleInv(p) && HasConn(p, c, Returning) && LRUKnown(p)
    ensures LosesNone(p, TryPut(p, c))
  {
    var k := p.conns[c].key;
    var line := Get(p.idle.wait, k);
    var n := LeadingDone(line, p.wants, 0);
    if n == |line| && Listed(p, c) {
      ServeQueueKeeps(p, k, n);
      assert line[n..] == [];
      PutUnserved(p, c);
      PutOnLosesNone(p.(idle := p.idle.(wait := Set(p.idle.wait, k, []))), c);
    }
  }

  /**
   * Main result on connections: no step but that of CloseIdleConnections abandons a connection, neither one that is
   * there nor one that it dials.
   */
  lemma OnlyCloseIdleAbandons(p: Pool, e: Event, c: nat)
    requires Inv(p) && Known(p) && Enabled(p, e) && !e.CloseAllIdle? && c in Step(p, e).conns
    ensures Abandoned(Step(p, e), c) ==> c in p.conns && Abandoned(p, c)
  {
    StepKeepsIdle(p, e);
    AbandonedIsLost(Step(p, e), c);
    StepLosesNone(p, e);
    if c in p.conns {
      AbandonedIsLost(p, c);
    }
  }

  lemma StepLosesNone(p: Pool, e: Event)
    requires Inv(p) && Known(p) && Enabled(p, e) && !e.CloseAllIdle?
    ensures LosesNone(p, Step(p, e))
  {
    match e {
      case GetConn(w, k, aged) =>
        assert ListKnown(p, k);
        assert ListKnown(AddWant(p, w, k), k);
        QueueLosesNone(AddWant(p, w, k), w, aged);
      case Puts(c) => PutLosesNone(p, c);
      case Closes(c) => CloseLosesNone(p, c);
      case Removes(c) => CloseLosesNone(p, c);
      case Sweeps(c) => SweepLosesNone(p, c);
      case DialReturns(w) => DecIsElsewhere(WithPhase(p, w, Ended), p.wants[w].key);
      case _ =>
    }
  }

  ghost predicate IsAged(p: Pool, c: nat) { HasConn(p, c, Dropped(true)) && !p.conns[c].closed }

  lemma UnlistIs(p: Pool, k: Key, aged: bool)
    requires ListIs(p, k) && Get(p.idle.lists, k) != []
    ensures ListKnown(p, k) && ListIs(Unlist(p, k, Dropped(aged)), k)
  {
  }

  lemma {:induction false} StillAged(p: Pool, k: Key, aged: set<nat>, c: nat)
    requires ListIs(p, k) && IsAged(p, c)
    ensures ListKnown(p, k) && IsAged(DropStale(p, k, aged), c) && ListIs(DropStale(p, k, aged), k)
    decreases |Get(p.idle.lists, k)|
  {
    var list := Get(p.idle.lists, k);
    if list != [] && Stale(p, list[|list| - 1], aged) {
      UnlistIs(p, k, list[|list| - 1] in aged);
      StillAged(Unlist(p, k, Dropped(list[|list| - 1] in aged)), k, aged, c);
    }
  }

  lemma AgedNotTaken(p: Pool, w: nat, c: nat)
    requires Waiting(p.wants, w) && ListIs(p, p.wants[w].key) && IsAged(p, c)
    ensures Get(p.idle.lists, p.wants[w].key) == [] ==> IsAged(Register(p, w), c)
    ensures Get(p.idle.lists, p.wants[w].key) != [] ==>
      ListKnown(p, p.wants[w].key) && IsAged(WithPhase(TakeIdle(p, w), w, Ended), c)
  {
  }

  /** A request that finds the newest idle connection too old takes it off its list, still open. */
  lemma AgedIsDropped(p: Pool, w: nat, k: Key, aged: set<nat>)
    requires Inv(p) && Known(p) && w !in p.wants && !p.cfg.disableKeepAlives
    requires var list := Get(p.idle.lists, k);
      list != [] && list[|list| - 1] in aged && list[|list| - 1] in p.conns && !p.conns[list[|list| - 1]].closed
    ensures IsAged(Step(p, GetConn(w, k, aged)), Get(p.idle.lists, k)[|Get(p.idle.lists, k)| - 1])
  {
    var c := Get(p.idle.lists, k)[|Get(p.idle.lists, k)| - 1];
    assert ListIs(p, k) && ListKnown(p, k);
    var q := AddWant(p, w, k);
    var r := q.(idle := q.idle.(closing := false));
    assert ListIs(r, k);
    UnlistIs(r, k, true);
    StillAged(Unlist(r, k, Dropped(true)), k, aged, c);
    AgedNotTaken(DropStale(r, k, aged), w, c);
  }

  /** If CloseIdleConnections comes before the sweep, the sweep does nothing: the connection stays open with nobody. */
  lemma {:induction false} AgedIsLost(p: Pool, c: nat)
    requires Inv(p) && IsAged(p, c)
    ensures var q := Sweep(CloseIdle(p), c);
      HasConn(q, c, Lost) && Abandoned(q, c)
    ensures Sweep(p, c).conns[c].closed
  {
    RemoveKeeps(p, c);
    CloseIsElsewhere(RemoveIdle(p, c), c);
  }

  // ------------------------------------------------------------ a run that loses one

  /** The state after these events, from an empty pool. */
  ghost predicate Reached(cfg: Config, events: seq<Event>, p: Pool) {
    exists states: seq<Pool> :: IsRun(states, events) && states[0] == Init(cfg) && states[|events|] == p
  }

  lemma ReachedIsConsistent(cfg: Config, events: seq<Event>, p: Pool)
    requires Reached(cfg, events, p)
    ensures Inv(p) && Known(p)
  {
    var states: seq<Pool> :| IsRun(states, events) && states[0] == Init(cfg) && states[|events|] == p;
    RunKeepsInv(cfg, states, events, |events|);
  }

  lemma InitIsReached(cfg: Config)
    ensures Reached(cfg, [], Init(cfg))
  {
    assert IsRun([Init(cfg)], []);
  }

  lemma StepIsReached(cfg: Config, events: seq<Event>, p: Pool, e: Event)
    requires Reached(cfg, events, p) && Enabled(p, e)
    ensures Inv(p) && Known(p) && Reached(cfg, events + [e], Step(p, e))
  {
    ReachedIsConsistent(cfg, events, p);
    var states: seq<Pool> :| IsRun(states, events) && states[0] == Init(cfg) && states[|events|] == p;
    var more := states + [Step(p, e)];
    forall i | 0 <= i < |events| + 1
      ensures Steps(more[i], (events + [e])[i], more[i + 1])
    {
      if i < |events| {
        assert Steps(states[i], events[i], states[i + 1]);
      }
    }
    assert IsRun(more, events + [e]) && more[0] == Init(cfg) && more[|events| + 1] == Step(p, e);
  }

  /** A request w of this key that waits and has not dialed; nothing else is there but its place in the queue. */
  predicate Asking(p: Pool, k: Key, w: nat) {
    && p.wants == map[w := Want(k, false, Chan(None, 0, 0), New)] && p.conns == map[]
    && Get(p.idle.wait, k) == [w] && !p.idle.closing && p.dial == DialPart(map[], map[])
  }

  lemma FirstRequestAsks(cfg: Config, k: Key, w: nat)
    requires !cfg.disableKeepAlives && Known(Init(cfg))
    ensures var p := Step(Init(cfg), GetConn(w, k, {})); p.cfg == cfg && Asking(p, k, w)
  {
    var p := AddWant(Init(cfg), w, k);
    assert DropStale(p.(idle := p.idle.(closing := false)), k, {}) == p.(idle := p.idle.(closing := false));
    assert LeadingDone([], p.wants, 0) == 0;
  }

  /** The connection c that was dialed for w, where it is, and what w has. */
  predicate Using(p: Pool, k: Key, w: nat, c: nat, place: Place, buffered: Option<Outcome>) {
    && p.conns == map[c := Conn(k, false, place)] && w in p.wants && p.wants.Keys == {w}
    && p.wants[w].key == k && p.wants[w].ch.buffered == buffered && (p.wants[w].done <==> place != Dialed(w))
    && Get(p.idle.wait, k) == [w] && !p.idle.closing
  }

  lemma DialConnected(p: Pool, k: Key, w: nat, c: nat)
    requires Asking(p, k, w) && Known(p)
    ensures var q := Step(p, WantDial(w));
      HasPhase(q, w, Dialing) && c !in q.conns && q.cfg == p.cfg
      && (Known(q) ==> Using(Step(q, DialConnects(w, c)), k, w, c, Dialed(w), None)
                       && Step(q, DialConnects(w, c)).cfg == p.cfg)
  {
  }

  lemma Delivered(p: Pool, k: Key, w: nat, c: nat)
    requires Using(p, k, w, c, Dialed(w), None) && Known(p)
    ensures var q := Step(p, DialDelivers(c)); Using(q, k, w, c, InResult(w), Some(Got(c))) && q.cfg == p.cfg
  {
  }

  lemma Received(p: Pool, k: Key, w: nat, c: nat)
    requires Using(p, k, w, c, InResult(w), Some(Got(c))) && Known(p)
    ensures var q := Step(p, Receives(w)); Using(q, k, w, c, Out, None) && q.cfg == p.cfg
  {
  }

  lemma Checked(p: Pool, k: Key, w: nat, c: nat)
    requires Using(p, k, w, c, Out, None) && Known(p) && !p.cfg.KeepsNothing()
    ensures var q := Step(p, Checks(c)); Using(q, k, w, c, Returning, None) && q.cfg == p.cfg
  {
  }

  lemma ListedIsIdle(p: Pool, k: Key)
    requires ListIs(p, k)
    ensures Get(p.idle.lists, k) != [] ==> exists c :: c in p.conns && p.conns[c].place.Idle?
  {
    var list := Get(p.idle.lists, k);
    if list != [] {
      assert list[0] in p.conns && p.conns[list[0]].place.Idle?;
    }
  }

  /** Back from use, it is the one idle connection of its key, whose request is done. */
  lemma PutBack(p: Pool, k: Key, w: nat, c: nat)
    requires Using(p, k, w, c, Returning, None) && Inv(p) && Known(p)
    requires p.cfg.maxIdlePerHost >= 0 && p.cfg.maxIdle >= 0
    ensures var q := Step(p, Puts(c)); HasConn(q, c, Idle) && !q.conns[c].closed
  {
    assert ListIs(p, k);
    ListedIsIdle(p, k);
    PutEnds(p, c);
  }

  /** The same requests and connections of the same keys. */
  ghost predicate SameFrame(p: Pool, q: Pool) {
    && q.cfg == p.cfg && q.wants.Keys == p.wants.Keys && q.conns.Keys == p.conns.Keys
    && forall c :: c in p.conns ==> q.conns[c].key == p.conns[c].key
  }

  lemma CloseFrame(p: Pool, c: nat)
    requires c in p.conns
    ensures SameFrame(p, Close(p, c))
  {
    if !p.conns[c].closed {
      DecKeepsConns(p.(conns := p.conns[c := p.conns[c].(closed := true)]), p.conns[c].key);
    }
  }

  lemma EvictFrame(p: Pool)
    requires p.idle.lru != [] && p.idle.lru[|p.idle.lru| - 1] in p.conns
    ensures SameFrame(p, Evict(p))
  {
    var n := |p.idle.lru| - 1;
    CloseFrame(p.(idle := p.idle.(lru := p.idle.lru[..n])), p.idle.lru[n]);
  }

  lemma AddFrame(p: Pool, c: nat)
    requires c in p.conns && LRUKnown(p)
    ensures SameFrame(p, AddIdle(p, c)) && LRUKnown(AddIdle(p, c))
  {
  }

  lemma PutOnFrame(p: Pool, c: nat)
    requires c in p.conns && LRUKnown(p)
    ensures SameFrame(p, PutOn(p, c))
  {
    var added := AddIdle(p, c);
    AddFrame(p, c);
    if added.idle.lru != [] {
      EvictFrame(added);
    }
  }

  lemma PutUnserved(p: Pool, c: nat)
    requires c in p.conns && LRUKnown(p)
    requires DropDone(Get(p.idle.wait, p.conns[c].key), p.wants) == []
    ensures var q := p.(idle := p.idle.(wait := Set(p.idle.wait, p.conns[c].key, [])));
      TryPut(p, c) == if Listed(p, c) then PutOn(q, c) else Put(q, c, Out)
  {
  }

  lemma PutFrame(p: Pool, c: nat)
    requires c in p.conns && LRUKnown(p)
    requires DropDone(Get(p.idle.wait, p.conns[c].key), p.wants) == []
    ensures SameFrame(p, TryPut(p, c))
  {
    var q := p.(idle := p.idle.(wait := Set(p.idle.wait, p.conns[c].key, [])));
    PutUnserved(p, c);
    PutOnFrame(q, c);
  }

  lemma AskedOnce(cfg: Config, k: Key, w: nat) returns (p: Pool)
    requires !cfg.disableKeepAlives
    ensures Reached(cfg, [GetConn(w, k, {})], p) && Asking(p, k, w) && p.cfg == cfg
  {
    InitIsReached(cfg);
    StepIsReached(cfg, [], Init(cfg), GetConn(w, k, {}));
    FirstRequestAsks(cfg, k, w);
    assert [] + [GetConn(w, k, {})] == [GetConn(w, k, {})];
    p := Step(Init(cfg), GetConn(w, k, {}));
  }

  lemma DialedOnce(cfg: Config, k: Key, w: nat, c: nat, before: seq<Event>, p: Pool) returns (r: Pool)
    requires Reached(cfg, before, p) && Asking(p, k, w) && p.cfg == cfg
    ensures Reached(cfg, before + [WantDial(w)] + [DialConnects(w, c)], r)
    ensures Using(r, k, w, c, Dialed(w), None) && r.cfg == cfg
  {
    StepIsReached(cfg, before, p, WantDial(w));
    DialConnected(p, k, w, c);
    var q := Step(p, WantDial(w));
    StepIsReached(cfg, before + [WantDial(w)], q, DialConnects(w, c));
    r := Step(q, DialConnects(w, c));
  }

  lemma UsedOnce(cfg: Config, k: Key, w: nat, c: nat, before: seq<Event>, p: Pool) returns (r: Pool)
    requires Reached(cfg, before, p) && Using(p, k, w, c, Dialed(w), None) && p.cfg == cfg && !cfg.KeepsNothing()
    ensures Reached(cfg, before + [DialDelivers(c)] + [Receives(w)] + [Checks(c)], r)
    ensures Using(r, k, w, c, Returning, None) && r.cfg == cfg
  {
    StepIsReached(cfg, before, p, DialDelivers(c));
    Delivered(p, k, w, c);
    var q := Step(p, DialDelivers(c));
    var es := before + [DialDelivers(c)];
    StepIsReached(cfg, es, q, Receives(w));
    Received(q, k, w, c);
    var q' := Step(q, Receives(w));
    StepIsReached(cfg, es + [Receives(w)], q', Checks(c));
    Checked(q', k, w, c);
    r := Step(q', Checks(c));
  }

  lemma PutOnce(cfg: Config, k: Key, w: nat, c: nat, before: seq<Event>, p: Pool) returns (r: Pool)
    requires Reached(cfg, before, p) && Using(p, k, w, c, Returning, None) && p.cfg == cfg
    requires cfg.maxIdlePerHost >= 0 && cfg.maxIdle >= 0
    ensures Reached(cfg, before + [Puts(c)], r) && SameFrame(p, r) && HasConn(r, c, Idle) && !r.conns[c].closed
  {
    StepIsReached(cfg, before, p, Puts(c));
    PutBack(p, k, w, c);
    assert LeadingDone([w], p.wants, 0) == 1;
    PutFrame(p, c);
    r := Step(p, Puts(c));
  }

  lemma OnlyIdle(p: Pool, k: Key, c: nat)
    requires Inv(p) && HasConn(p, c, Idle) && p.conns[c].key == k && p.conns.Keys == {c}
    ensures Get(p.idle.lists, k) != [] && Get(p.idle.lists, k)[|Get(p.idle.lists, k)| - 1] == c
  {
    var list := Get(p.idle.lists, k);
    assert ListIs(p, k) && ListsComplete(p);
    assert c in list;
    assert list[|list| - 1] in p.conns;
  }

  lemma DroppedThenLost(cfg: Config, k: Key, w: nat, c: nat, before: seq<Event>, p: Pool) returns (r: Pool)
    requires Reached(cfg, before, p) && HasConn(p, c, Idle) && !p.conns[c].closed && p.conns[c].key == k
    requires p.conns.Keys == {c} && w !in p.wants && !p.cfg.disableKeepAlives
    ensures Reached(cfg, before + [GetConn(w, k, {c})] + [CloseAllIdle], r) && c in r.conns && Abandoned(r, c)
  {
    StepIsReached(cfg, before, p, GetConn(w, k, {c}));
    OnlyIdle(p, k, c);
    AgedIsDropped(p, w, k, {c});
    var q := Step(p, GetConn(w, k, {c}));
    StepIsReached(cfg, before + [GetConn(w, k, {c})], q, CloseAllIdle);
    r := Step(q, CloseAllIdle);
    LostIff(q, c);
    AgedIsUnlisted(q, c);
  }

  lemma AgedIsUnlisted(p: Pool, c: nat)
    requires Inv(p) && IsAged(p, c)
    ensures c in p.idle.lru && c !in Get(p.idle.lists, p.conns[c].key) && !Abandoned(p, c)
  {
    assert ListIs(p, p.conns[c].key) && IndexIs(p);
  }

  /**
   * A run that loses a connection: one request, its connection put back, a second request that finds it too old, and
   * CloseIdleConnections. It stays open with nobody to close it.
   */
  lemma ConnectionIsLost(cfg: Config, k: Key, w1: nat, w2: nat, c: nat) returns (r: Pool)
    requires !cfg.disableKeepAlives && cfg.maxIdlePerHost >= 0 && cfg.maxIdle >= 0 && w1 != w2
    ensures Reached(cfg, [GetConn(w1, k, {}), WantDial(w1), DialConnects(w1, c), DialDelivers(c), Receives(w1),
                          Checks(c), Puts(c), GetConn(w2, k, {c}), CloseAllIdle], r)
    ensures c in r.conns && Abandoned(r, c)
  {
    var asked := [GetConn(w1, k, {})];
    var dialed := asked + [WantDial(w1)] + [DialConnects(w1, c)];
    var used := dialed + [DialDelivers(c)] + [Receives(w1)] + [Checks(c)];
    var p := AskedOnce(cfg, k, w1);
    p := DialedOnce(cfg, k, w1, c, asked, p);
    p := UsedOnce(cfg, k, w1, c, dialed, p);
    var q := PutOnce(cfg, k, w1, c, used, p);
    r := DroppedThenLost(cfg, k, w2, c, used + [Puts(c)], q);
    assert used + [Puts(c)] + [GetConn(w2, k, {c})] + [CloseAllIdle]
      == [GetConn(w1, k, {}), WantDial(w1), DialConnects(w1, c), DialDelivers(c), Receives(w1),
          Checks(c), Puts(c), GetConn(w2, k, {c}), CloseAllIdle];
  }
}
