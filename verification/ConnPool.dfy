/**
 * The pool of HTTP/1 connections (transport.go) as a step system. A step is one region of code that holds a
 * lock; the steps of different goroutines interleave freely. Connections and waiters are numbered.
 */
module ConnPool {
  import opened Wrappers

  type Key = nat

  datatype Config = Config(maxConnsPerHost: int, maxIdle: int, maxIdlePerHost: int, disableKeepAlives: bool) {
    function PerHost(): int { if maxIdlePerHost != 0 then maxIdlePerHost else 2 }
    predicate KeepsNothing() { disableKeepAlives || maxIdlePerHost < 0 }
  }

  /** Who has a connection. */
  datatype Place =
    | Dialed(w: nat)       // the goroutine that dialed it for w
    | InResult(w: nat)     // the result channel of w
    | Out                  // one round trip, or one goroutine that will return or close it
    | Returning            // tryPutIdleConn, between its check and its lock
    | Idle                 // an idle list
    | Dropped(aged: bool)  // only the LRU index: taken off its list because it was too old, or else broken
    | Lost                 // nobody

  datatype Conn = Conn(key: Key, closed: bool, place: Place)

  datatype Outcome = Got(c: nat) | Failed

  /** wantConn.result, with the number of values sent on it and of times it was closed. */
  datatype Chan = Chan(buffered: Option<Outcome>, sent: nat, closes: nat)

  /** Where the dial for a waiter stands. */
  datatype Phase = New | Queued | Dialing | Failing | Ended

  datatype Want = Want(key: Key, done: bool, ch: Chan, phase: Phase)

  datatype IdlePart = IdlePart(lists: map<Key, seq<nat>>, wait: map<Key, seq<nat>>, lru: seq<nat>, closing: bool)

  datatype DialPart = DialPart(count: map<Key, int>, wait: map<Key, seq<nat>>)

  datatype Pool =
    Pool(cfg: Config, idle: IdlePart, dial: DialPart, conns: map<nat, Conn>, wants: map<nat, Want>, panicked: bool)

  function Init(cfg: Config): Pool {
    Pool(cfg, IdlePart(map[], map[], [], false), DialPart(map[], map[]), map[], map[], false)
  }

  // Go maps of slices and queues: a missing key reads as empty, and empty entries are deleted.
  function Get(m: map<Key, seq<nat>>, k: Key): seq<nat> { if k in m then m[k] else [] }
  function Set(m: map<Key, seq<nat>>, k: Key, s: seq<nat>): map<Key, seq<nat>> {
    if s == [] then m - {k} else m[k := s]
  }

  function Count(p: Pool, k: Key): int { if k in p.dial.count then p.dial.count[k] else 0 }
  function WithCount(m: map<Key, int>, k: Key, n: int): map<Key, int> { if n == 0 then m - {k} else m[k := n] }

  predicate Waiting(wants: map<nat, Want>, w: nat) { w in wants && !wants[w].done }

  /** How many waiters at the front of the queue no longer wait, from index i on. */
  function LeadingDone(q: seq<nat>, wants: map<nat, Want>, i: nat): (n: nat)
    requires i <= |q|
    ensures i <= n <= |q|
    ensures forall j :: i <= j < n ==> !Waiting(wants, q[j])
    ensures n < |q| ==> Waiting(wants, q[n])
    decreases |q| - i
  {
    if i == |q| || Waiting(wants, q[i]) then i else LeadingDone(q, wants, i + 1)
  }

  /** The queue without them. */
  function DropDone(q: seq<nat>, wants: map<nat, Want>): seq<nat> { q[LeadingDone(q, wants, 0)..] }

  function Without(s: seq<nat>, x: nat): seq<nat>
    decreases |s|
  {
    if s == [] then [] else if s[0] == x then s[1..] else [s[0]] + Without(s[1..], x)
  }

  // ------------------------------------------------------------ operations

  function Put(p: Pool, c: nat, place: Place): Pool
    requires c in p.conns
  {
    p.(conns := p.conns[c := p.conns[c].(place := place)])
  }

  function WithPhase(p: Pool, w: nat, phase: Phase): Pool
    requires w in p.wants
  {
    p.(wants := p.wants[w := p.wants[w].(phase := phase)])
  }

  /** wantConn.tryDeliver to a waiter that still waits. */
  function Deliver(p: Pool, w: nat, o: Outcome): Pool
    requires Waiting(p.wants, w) && (o.Got? ==> o.c in p.conns)
  {
    var want := p.wants[w];
    var ch := Chan(Some(o), want.ch.sent + 1, want.ch.closes + 1);
    var q := p.(wants := p.wants[w := want.(done := true, ch := ch)]);
    if o.Got? then Put(q, o.c, InResult(w)) else q
  }

  /** wantConn.cancel, up to handing back what had been delivered. */
  function Cancel(p: Pool, w: nat): Pool
    requires w in p.wants
    requires HoldsConn(p, w) ==> p.wants[w].ch.buffered.value.c in p.conns
  {
    var want := p.wants[w];
    var closes := if want.done then want.ch.closes else want.ch.closes + 1;
    var q := p.(wants := p.wants[w := want.(done := true, ch := Chan(None, want.ch.sent, closes))]);
    if HoldsConn(p, w) then Put(q, want.ch.buffered.value.c, Out) else q
  }

  predicate HoldsConn(p: Pool, w: nat)
    requires w in p.wants
  {
    p.wants[w].ch.buffered.Some? && p.wants[w].ch.buffered.value.Got?
  }

  /** getConn receives from the channel. */
  function Receive(p: Pool, w: nat): Pool
    requires w in p.wants
    requires HoldsConn(p, w) ==> p.wants[w].ch.buffered.value.c in p.conns
  {
    var want := p.wants[w];
    var q := p.(wants := p.wants[w := want.(ch := want.ch.(buffered := None))]);
    if HoldsConn(p, w) then Put(q, want.ch.buffered.value.c, Out) else q
  }

  function StartDial(p: Pool, w: nat): Pool
    requires w in p.wants
  {
    WithPhase(p, w, Dialing)
  }

  function QueueForDial(p: Pool, w: nat): Pool
    requires w in p.wants
  {
    var k := p.wants[w].key;
    if p.cfg.maxConnsPerHost <= 0 then StartDial(p, w)
    else if Count(p, k) < p.cfg.maxConnsPerHost then
      StartDial(p.(dial := p.dial.(count := p.dial.count[k := Count(p, k) + 1])), w)
    else
      WithPhase(p.(dial := p.dial.(wait := p.dial.wait[k := DropDone(Get(p.dial.wait, k), p.wants) + [w]])), w, Queued)
  }

  /** dialConn has made connection c for w. */
  function Connect(p: Pool, w: nat, c: nat): Pool
    requires w in p.wants
  {
    WithPhase(p.(conns := p.conns[c := Conn(p.wants[w].key, false, Dialed(w))]), w, Ended)
  }

  /** decConnsPerHost: the place goes to the first waiter that still waits, or is free again. */
  function Dec(p: Pool, k: Key): Pool {
    if p.cfg.maxConnsPerHost <= 0 then p
    else if Count(p, k) == 0 then p.(panicked := true)
    else
      var q := DropDone(Get(p.dial.wait, k), p.wants);
      if q != [] then StartDial(p.(dial := p.dial.(wait := Set(p.dial.wait, k, q[1..]))), q[0])
      else p.(dial := DialPart(WithCount(p.dial.count, k, Count(p, k) - 1), Set(p.dial.wait, k, [])))
  }

  /** persistConn.close. */
  function Close(p: Pool, c: nat): Pool
    requires c in p.conns
  {
    if p.conns[c].closed then p
    else Dec(p.(conns := p.conns[c := p.conns[c].(closed := true)]), p.conns[c].key)
  }

  /** removeIdleConnLocked. */
  function RemoveIdle(p: Pool, c: nat): Pool
    requires c in p.conns
  {
    var k := p.conns[c].key;
    var lists := Set(p.idle.lists, k, Without(Get(p.idle.lists, k), c));
    var place := if p.conns[c].place.Idle? || p.conns[c].place.Dropped? then Out else p.conns[c].place;
    Put(p.(idle := p.idle.(lists := lists, lru := Without(p.idle.lru, c))), c, place)
  }

  /** closeConnIfStillIdle. */
  function Sweep(p: Pool, c: nat): Pool
    requires c in p.conns
  {
    if c !in p.idle.lru then p else Close(RemoveIdle(p, c), c)
  }

  /** The LRU index has outgrown its limit: its oldest connection goes. */
  function Evict(p: Pool): Pool
    requires p.idle.lru != [] && p.idle.lru[|p.idle.lru| - 1] in p.conns
  {
    var n := |p.idle.lru| - 1;
    var q := Close(p.(idle := p.idle.(lru := p.idle.lru[..n])), p.idle.lru[n]);
    assert p.idle.lru[n] in q.conns;
    RemoveIdle(q, p.idle.lru[n])
  }

  predicate LRUKnown(p: Pool) { forall i :: 0 <= i < |p.idle.lru| ==> p.idle.lru[i] in p.conns }

  function AddIdle(p: Pool, c: nat): Pool
    requires c in p.conns
  {
    var k := p.conns[c].key;
    if c in Get(p.idle.lists, k) || c in p.idle.lru then p.(panicked := true)
    else
      Put(p.(idle := p.idle.(lists := p.idle.lists[k := Get(p.idle.lists, k) + [c]], lru := [c] + p.idle.lru)), c, Idle)
  }

  /** Onto the idle list, and the oldest connection off it when there are too many. */
  function PutOn(p: Pool, c: nat): Pool
    requires c in p.conns && LRUKnown(p)
  {
    var added := AddIdle(p, c);
    if p.cfg.maxIdle != 0 && |added.idle.lru| > p.cfg.maxIdle && added.idle.lru != [] then Evict(added) else added
  }

  /** tryPutIdleConn, from taking the lock. */
  function TryPut(p: Pool, c: nat): Pool
    requires c in p.conns && LRUKnown(p)
  {
    var k := p.conns[c].key;
    var q := DropDone(Get(p.idle.wait, k), p.wants);
    var p' := p.(idle := p.idle.(wait := Set(p.idle.wait, k, if q == [] then [] else q[1..])));
    if q != [] then Deliver(p', q[0], Got(c))
    else if p.idle.closing || |Get(p.idle.lists, k)| >= p.cfg.PerHost() then Put(p', c, Out)
    else PutOn(p', c)
  }

  predicate Stale(p: Pool, c: nat, aged: set<nat>) { c in p.conns && (p.conns[c].closed || c in aged) }

  predicate ListKnown(p: Pool, k: Key) {
    forall i :: 0 <= i < |Get(p.idle.lists, k)| ==> Get(p.idle.lists, k)[i] in p.conns
  }

  /** queueForIdleConn drops closed and too old connections off the end of the list. */
  function DropStale(p: Pool, k: Key, aged: set<nat>): (r: Pool)
    requires ListKnown(p, k)
    ensures r.wants == p.wants && ListKnown(r, k)
    decreases |Get(p.idle.lists, k)|
  {
    var list := Get(p.idle.lists, k);
    if list == [] || !Stale(p, list[|list| - 1], aged) then p
    else
      var c := list[|list| - 1];
      var q := p.(idle := p.idle.(lists := Set(p.idle.lists, k, list[..|list| - 1])));
      DropStale(Put(q, c, Dropped(c in aged)), k, aged)
  }

  /** The most recently used idle connection goes to w. */
  function TakeIdle(p: Pool, w: nat): Pool
    requires Waiting(p.wants, w)
    requires var list := Get(p.idle.lists, p.wants[w].key); list != [] && list[|list| - 1] in p.conns
  {
    var k := p.wants[w].key;
    var list := Get(p.idle.lists, k);
    var c := list[|list| - 1];
    var idle := p.idle.(lists := Set(p.idle.lists, k, list[..|list| - 1]), lru := Without(p.idle.lru, c));
    Deliver(p.(idle := idle), w, Got(c))
  }

  function Register(p: Pool, w: nat): Pool
    requires w in p.wants
  {
    var k := p.wants[w].key;
    p.(idle := p.idle.(wait := p.idle.wait[k := DropDone(Get(p.idle.wait, k), p.wants) + [w]]))
  }

  function AddWant(p: Pool, w: nat, k: Key): Pool {
    p.(wants := p.wants[w := Want(k, false, Chan(None, 0, 0), New)])
  }

  /** queueForIdleConn; aged are the connections that have idled too long. */
  function QueueForIdle(p: Pool, w: nat, aged: set<nat>): Pool
    requires Waiting(p.wants, w) && ListKnown(p, p.wants[w].key)
  {
    if p.cfg.disableKeepAlives then p
    else
      var k := p.wants[w].key;
      var q := DropStale(p.(idle := p.idle.(closing := false)), k, aged);
      if Get(q.idle.lists, k) == [] then Register(q, w) else WithPhase(TakeIdle(q, w), w, Ended)
  }

  /** CloseIdleConnections, up to closing what it took off the lists. */
  function CloseIdle(p: Pool): Pool {
    p.(idle := p.idle.(lists := map[], lru := [], closing := true),
       conns := map c | c in p.conns :: p.conns[c].(place := Forgotten(p.conns[c])))
  }

  function Forgotten(c: Conn): Place {
    if c.place.Idle? then Out else if c.place.Dropped? then if c.closed then Out else Lost else c.place
  }
}
