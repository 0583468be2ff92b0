/** Who has a connection, who waits for one, and how many may be idle: what each operation of the pool keeps. */
module PoolOwnership {
  import opened Wrappers
  import opened ConnPool
  import opened PoolSafety
  import opened Sequences

  function Cap(n: int): int { if n < 0 then 0 else n }

  /** An idle list holds, once each, idle connections of its key, and not too many. */
  ghost predicate ListIs(p: Pool, k: Key) {
    var list := Get(p.idle.lists, k);
    Distinct(list) && |list| <= Cap(p.cfg.PerHost())
    && forall i :: 0 <= i < |list| ==> list[i] in p.conns && p.conns[list[i]].place.Idle? && p.conns[list[i]].key == k
  }

  predicate InIndex(c: Conn) { c.place.Idle? || c.place.Dropped? }

  /** The LRU index holds, once each, the idle connections and the dropped ones. */
  ghost predicate IndexIs(p: Pool) {
    && Distinct(p.idle.lru)
    && (forall i :: 0 <= i < |p.idle.lru| ==> p.idle.lru[i] in p.conns && InIndex(p.conns[p.idle.lru[i]]))
    && (forall c :: c in p.conns && InIndex(p.conns[c]) ==> c in p.idle.lru)
  }

  ghost predicate ListsComplete(p: Pool) {
    forall c :: c in p.conns && p.conns[c].place.Idle? ==> c in Get(p.idle.lists, p.conns[c].key)
  }

  /** A connection that was not too old is dropped only after it was closed. */
  ghost predicate DroppedForCause(p: Pool) {
    forall c :: c in p.conns && p.conns[c].place == Dropped(false) ==> p.conns[c].closed
  }

  /** At most one outcome, on a channel closed exactly once, namely when the waiter stops waiting. */
  predicate ChanIs(w: Want) {
    w.ch.closes == (if w.done then 1 else 0) && w.ch.sent <= w.ch.closes && (w.ch.buffered.Some? ==> w.ch.sent == 1)
  }

  /** A connection is in the channel of w exactly when its place says so. */
  ghost predicate ResultsMatch(p: Pool) {
    && (forall w :: w in p.wants && HoldsConn(p, w) ==>
          p.wants[w].ch.buffered.value.c in p.conns && p.conns[p.wants[w].ch.buffered.value.c].place == InResult(w))
    && (forall c :: c in p.conns && p.conns[c].place.InResult? ==>
          p.conns[c].place.w in p.wants && p.wants[p.conns[c].place.w].ch.buffered == Some(Got(c)))
  }

  ghost predicate ChansAre(p: Pool) { forall w :: w in p.wants ==> ChanIs(p.wants[w]) }

  /** Nobody waits for an idle connection beside one that is there. */
  ghost predicate WaitIs(p: Pool, k: Key) {
    var q := Get(p.idle.wait, k);
    forall i :: 0 <= i < |q| ==>
      q[i] in p.wants && p.wants[q[i]].key == k && (!p.wants[q[i]].done ==> Get(p.idle.lists, k) == [])
  }

  predicate Bounded(p: Pool, slack: nat) { p.cfg.maxIdle != 0 ==> |p.idle.lru| <= Cap(p.cfg.maxIdle) + slack }

  ghost predicate IdleInv(p: Pool) {
    && (forall k :: ListIs(p, k)) && (forall k :: WaitIs(p, k))
    && IndexIs(p) && ListsComplete(p) && DroppedForCause(p) && ResultsMatch(p) && ChansAre(p)
  }

  // ------------------------------------------------------------ steps that leave the idle side alone

  ghost predicate SameConns(p: Pool, q: Pool) {
    && (forall c :: c in p.conns ==> c in q.conns && q.conns[c].key == p.conns[c].key
                                     && q.conns[c].place == p.conns[c].place
                                     && (p.conns[c].closed ==> q.conns[c].closed))
    && (forall c :: c in q.conns && c !in p.conns ==> q.conns[c].place.Dialed?)
  }

  ghost predicate SameWants(p: Pool, q: Pool) {
    && (forall w :: w in p.wants ==> w in q.wants && q.wants[w].key == p.wants[w].key
                                      && q.wants[w].done == p.wants[w].done
                                     && q.wants[w].ch == p.wants[w].ch)
    && (forall w :: w in q.wants && w !in p.wants ==> q.wants[w].ch == Chan(None, 0, 0) && !q.wants[w].done)
  }

  ghost predicate SameIdleSide(p: Pool, q: Pool) {
    q.cfg == p.cfg && q.idle == p.idle && SameConns(p, q) && SameWants(p, q)
  }

  lemma ListsKept(p: Pool, q: Pool, k: Key)
    requires SameIdleSide(p, q) && ListIs(p, k) && WaitIs(p, k)
    ensures ListIs(q, k) && WaitIs(q, k)
  {
  }

  lemma IdleSideKept(p: Pool, q: Pool)
    requires IdleInv(p) && SameIdleSide(p, q)
    ensures IdleInv(q)
  {
    forall k
      ensures ListIs(q, k) && WaitIs(q, k)
    {
      assert ListIs(p, k) && WaitIs(p, k);
      ListsKept(p, q, k);
    }
    ResultsKept(p, q);
    forall c | c in q.conns && InIndex(q.conns[c])
      ensures c in q.idle.lru
    {
      assert c in p.conns && InIndex(p.conns[c]);
    }
  }

  lemma ResultsKept(p: Pool, q: Pool)
    requires ResultsMatch(p) && SameConns(p, q) && SameWants(p, q)
    ensures ResultsMatch(q)
  {
  }

  lemma DecIsElsewhere(p: Pool, k: Key)
    ensures SameIdleSide(p, Dec(p, k))
  {
  }

  lemma CloseIsElsewhere(p: Pool, c: nat)
    requires c in p.conns
    ensures SameIdleSide(p, Close(p, c))
  {
    if !p.conns[c].closed {
      DecIsElsewhere(p.(conns := p.conns[c := p.conns[c].(closed := true)]), p.conns[c].key);
    }
  }

  // ------------------------------------------------------------ moving one connection

  /** Places that no list, index or channel refers to. */
  predicate Detached(place: Place) { place.Dialed? || place.Out? || place.Returning? || place.Lost? }

  lemma DetachedMoves(p: Pool, c: nat, place: Place)
    requires IdleInv(p) && c in p.conns && Detached(p.conns[c].place) && Detached(place)
    ensures IdleInv(Put(p, c, place))
  {
    var q := Put(p, c, place);
    forall k
      ensures ListIs(q, k) && WaitIs(q, k)
    {
      assert ListIs(p, k) && WaitIs(p, k);
    }
    assert ResultsMatch(q);
  }

  lemma DeliverKeeps(p: Pool, w: nat, o: Outcome)
    requires IdleInv(p) && Waiting(p.wants, w) && (o.Got? ==> o.c in p.conns && Detached(p.conns[o.c].place))
    ensures IdleInv(Deliver(p, w, o))
  {
    var q := Deliver(p, w, o);
    forall k
      ensures ListIs(q, k) && WaitIs(q, k)
    {
      assert ListIs(p, k) && WaitIs(p, k);
    }
    assert ChanIs(p.wants[w]);
    assert ResultsMatch(q);
  }

  lemma CancelKeeps(p: Pool, w: nat)
    requires IdleInv(p) && w in p.wants
    requires HoldsConn(p, w) ==> p.wants[w].ch.buffered.value.c in p.conns
    ensures IdleInv(Cancel(p, w))
  {
    var q := Cancel(p, w);
    forall k
      ensures ListIs(q, k) && WaitIs(q, k)
    {
      assert ListIs(p, k) && WaitIs(p, k);
    }
    assert ChanIs(p.wants[w]);
    assert ResultsMatch(q);
  }

  lemma ReceiveKeeps(p: Pool, w: nat)
    requires IdleInv(p) && w in p.wants
    requires HoldsConn(p, w) ==> p.wants[w].ch.buffered.value.c in p.conns
    ensures IdleInv(Receive(p, w))
  {
    var q := Receive(p, w);
    forall k
      ensures ListIs(q, k) && WaitIs(q, k)
    {
      assert ListIs(p, k) && WaitIs(p, k);
    }
    assert ChanIs(p.wants[w]);
    assert ResultsMatch(q);
  }

  // ------------------------------------------------------------ removing

  lemma DistinctCons(x: nat, s: seq<nat>)
    requires Distinct(s) && x !in s
    ensures Distinct([x] + s)
  {
  }

  lemma {:induction false} WithoutDistinct(s: seq<nat>, x: nat)
    requires Distinct(s)
    ensures Distinct(Without(s, x)) && |Without(s, x)| <= |s|
    ensures forall y :: y in Without(s, x) <==> y in s && y != x
    ensures x in s ==> |Without(s, x)| == |s| - 1
    decreases |s|
  {
    if s != [] {
      assert s == [s[0]] + s[1..];
      WithoutDistinct(s[1..], x);
      if s[0] != x {
        DistinctCons(s[0], Without(s[1..], x));
      }
    }
  }

  lemma {:induction false} WithoutLast(s: seq<nat>)
    requires Distinct(s) && s != []
    ensures Without(s, s[|s| - 1]) == s[..|s| - 1]
    decreases |s|
  {
    if |s| > 1 {
      WithoutLast(s[1..]);
      assert s[1..][..|s| - 2] == s[..|s| - 1][1..];
    }
  }

  lemma {:induction false} WithoutAbsent(s: seq<nat>, x: nat)
    requires x !in s
    ensures Without(s, x) == s
    decreases |s|
  {
    if s != [] {
      WithoutAbsent(s[1..], x);
    }
  }

  lemma RemoveLists(p: Pool, c: nat, k: Key)
    requires c in p.conns && ListIs(p, p.conns[c].key) && ListIs(p, k) && WaitIs(p, k)
    ensures ListIs(RemoveIdle(p, c), k) && WaitIs(RemoveIdle(p, c), k)
  {
    var list := Get(p.idle.lists, p.conns[c].key);
    WithoutDistinct(list, c);
    if k == p.conns[c].key {
      var after := Without(list, c);
      forall i | 0 <= i < |after|
        ensures after[i] in p.conns && after[i] != c && p.conns[after[i]].place.Idle? && p.conns[after[i]].key == k
      {
        assert after[i] in after;
      }
    }
  }

  lemma RemoveIndex(p: Pool, c: nat)
    requires c in p.conns && IndexIs(p)
    ensures IndexIs(RemoveIdle(p, c))
  {
    WithoutDistinct(p.idle.lru, c);
    var q := RemoveIdle(p, c);
    forall i | 0 <= i < |q.idle.lru|
      ensures q.idle.lru[i] in q.conns && InIndex(q.conns[q.idle.lru[i]])
    {
      assert q.idle.lru[i] in q.idle.lru;
    }
  }

  lemma RemoveComplete(p: Pool, c: nat)
    requires c in p.conns && ListsComplete(p) && ListIs(p, p.conns[c].key)
    ensures ListsComplete(RemoveIdle(p, c))
  {
    var q := RemoveIdle(p, c);
    WithoutDistinct(Get(p.idle.lists, p.conns[c].key), c);
    forall d | d in q.conns && q.conns[d].place.Idle?
      ensures d in Get(q.idle.lists, q.conns[d].key)
    {
      assert d != c && d in Get(p.idle.lists, p.conns[d].key);
    }
  }

  lemma RemoveResults(p: Pool, c: nat)
    requires c in p.conns && ResultsMatch(p) && DroppedForCause(p)
    ensures ResultsMatch(RemoveIdle(p, c)) && DroppedForCause(RemoveIdle(p, c))
  {
    var q := RemoveIdle(p, c);
    assert q.wants == p.wants;
    assert forall d :: d in p.conns && p.conns[d].place.InResult? ==> q.conns[d] == p.conns[d];
  }

  lemma RemoveKeeps(p: Pool, c: nat)
    requires IdleInv(p) && c in p.conns
    ensures IdleInv(RemoveIdle(p, c))
    ensures !InIndex(RemoveIdle(p, c).conns[c])
  {
    var q := RemoveIdle(p, c);
    assert ListIs(p, p.conns[c].key);
    forall k
      ensures ListIs(q, k) && WaitIs(q, k)
    {
      assert ListIs(p, k) && WaitIs(p, k);
      RemoveLists(p, c, k);
    }
    RemoveIndex(p, c);
    RemoveComplete(p, c);
    RemoveResults(p, c);
  }

  lemma SweepKeeps(p: Pool, c: nat)
    requires IdleInv(p) && c in p.conns
    ensures IdleInv(Sweep(p, c))
  {
    if c in p.idle.lru {
      RemoveKeeps(p, c);
      CloseIsElsewhere(RemoveIdle(p, c), c);
      IdleSideKept(RemoveIdle(p, c), Close(RemoveIdle(p, c), c));
    }
  }

  // ------------------------------------------------------------ evicting and adding

  lemma DecCommutes(p: Pool, idle: IdlePart, conns: map<nat, Conn>, k: Key)
    ensures Dec(p.(idle := idle, conns := conns), k) == Dec(p, k).(idle := idle, conns := conns)
    ensures Dec(p, k).idle == p.idle && Dec(p, k).conns == p.conns && Dec(p, k).cfg == p.cfg
  {
  }

  /** Evicting is sweeping the oldest connection: closing it first and unlinking it afterwards makes no difference. */
  lemma EvictIsSweep(p: Pool)
    requires IndexIs(p) && p.idle.lru != []
    ensures Evict(p) == Sweep(p, p.idle.lru[|p.idle.lru| - 1])
  {
    var n := |p.idle.lru| - 1;
    var c := p.idle.lru[n];
    var k := p.conns[c].key;
    var p1 := p.(idle := p.idle.(lru := p.idle.lru[..n]));
    WithoutLast(p.idle.lru);
    WithoutAbsent(p.idle.lru[..n], c);
    var gone := p.(conns := p.conns[c := p.conns[c].(closed := true)]);
    var r := RemoveIdle(p, c);
    if p.conns[c].closed {
      assert Evict(p) == RemoveIdle(p1, c);
    } else {
      DecCommutes(p, p1.idle, gone.conns, k);
      DecCommutes(p, r.idle, r.conns[c := r.conns[c].(closed := true)], k);
      var d := Dec(p, k);
      assert Close(p1, c) == d.(idle := p1.idle, conns := gone.conns);
      assert Close(r, c) == d.(idle := r.idle, conns := r.conns[c := r.conns[c].(closed := true)]);
      assert RemoveIdle(d.(idle := p1.idle, conns := gone.conns), c).conns == r.conns[c := r.conns[c].(closed := true)];
    }
  }

  lemma SweepShrinks(p: Pool, c: nat)
    requires IdleInv(p) && c in p.idle.lru && c in p.conns
    ensures Sweep(p, c).cfg == p.cfg && |Sweep(p, c).idle.lru| == |p.idle.lru| - 1
  {
    CloseIsElsewhere(RemoveIdle(p, c), c);
    WithoutDistinct(p.idle.lru, c);
  }

  lemma ServeQueueKeeps(p: Pool, k: Key, n: nat)
    requires IdleInv(p) && n <= |Get(p.idle.wait, k)|
    ensures IdleInv(p.(idle := p.idle.(wait := Set(p.idle.wait, k, Get(p.idle.wait, k)[n..]))))
  {
    var q := p.(idle := p.idle.(wait := Set(p.idle.wait, k, Get(p.idle.wait, k)[n..])));
    forall j
      ensures ListIs(q, j) && WaitIs(q, j)
    {
      assert ListIs(p, j) && WaitIs(p, j);
    }
    assert ResultsMatch(q);
  }

  lemma AddIdleKeeps(p: Pool, c: nat)
    requires IdleInv(p) && c in p.conns && p.conns[c].place.Returning?
    requires Get(p.idle.wait, p.conns[c].key) == [] && |Get(p.idle.lists, p.conns[c].key)| < p.cfg.PerHost()
    ensures IdleInv(AddIdle(p, c)) && AddIdle(p, c).panicked == p.panicked
    ensures AddIdle(p, c).idle.lru == [c] + p.idle.lru && AddIdle(p, c).cfg == p.cfg
  {
    var k := p.conns[c].key;
    assert ListIs(p, k);
    assert c !in Get(p.idle.lists, k) && c !in p.idle.lru;
    var q := AddIdle(p, c);
    forall j
      ensures ListIs(q, j) && WaitIs(q, j)
    {
      assert ListIs(p, j) && WaitIs(p, j);
    }
    DistinctCons(c, p.idle.lru);
    AddIdleIndexed(p, c);
    assert ResultsMatch(q);
  }

  lemma AddIdleIndexed(p: Pool, c: nat)
    requires IndexIs(p) && ListsComplete(p)
    requires c in p.conns && c !in p.idle.lru && c !in Get(p.idle.lists, p.conns[c].key)
    ensures IndexIs(AddIdle(p, c)) && ListsComplete(AddIdle(p, c))
  {
    DistinctCons(c, p.idle.lru);
    var q := AddIdle(p, c);
    forall d | d in q.conns && InIndex(q.conns[d])
      ensures d in q.idle.lru
    {
      assert d == c || d in p.idle.lru;
    }
    forall d | d in q.conns && q.conns[d].place.Idle?
      ensures d in Get(q.idle.lists, q.conns[d].key)
    {
      var list := Get(q.idle.lists, p.conns[c].key);
      assert list[|list| - 1] == c;
    }
  }

  /** Whatever tryPutIdleConn does with a connection, the invariant and the limit on idle connections hold. */
  lemma TryPutKeeps(p: Pool, c: nat)
    requires IdleInv(p) && Bounded(p, 0) && c in p.conns && p.conns[c].place.Returning?
    ensures IdleInv(TryPut(p, c)) && Bounded(TryPut(p, c), 0)
  {
    var k := p.conns[c].key;
    var line := Get(p.idle.wait, k);
    var n := LeadingDone(line, p.wants, 0);
    var q := DropDone(line, p.wants);
    if q != [] {
      assert line[n + 1..] == q[1..];
      ServeQueueKeeps(p, k, n + 1);
      DeliverKeeps(p.(idle := p.idle.(wait := Set(p.idle.wait, k, q[1..]))), q[0], Got(c));
    } else {
      assert line[|line|..] == [];
      ServeQueueKeeps(p, k, |line|);
      var p' := p.(idle := p.idle.(wait := Set(p.idle.wait, k, [])));
      DetachedMoves(p', c, Out);
      if |Get(p.idle.lists, k)| < p.cfg.PerHost() {
        PutOnKeeps(p', c);
      }
    }
  }

  lemma EvictKeeps(p: Pool)
    requires IdleInv(p) && p.idle.lru != []
    ensures IdleInv(Evict(p)) && Evict(p).cfg == p.cfg && |Evict(p).idle.lru| == |p.idle.lru| - 1
  {
    var oldest := p.idle.lru[|p.idle.lru| - 1];
    EvictIsSweep(p);
    SweepKeeps(p, oldest);
    SweepShrinks(p, oldest);
  }

  lemma PutOnKeeps(p: Pool, c: nat)
    requires IdleInv(p) && Bounded(p, 0)
    requires c in p.conns && p.conns[c].place.Returning? && Get(p.idle.wait, p.conns[c].key) == []
    requires |Get(p.idle.lists, p.conns[c].key)| < p.cfg.PerHost()
    ensures IdleInv(PutOn(p, c)) && Bounded(PutOn(p, c), 0)
  {
    AddIdleKeeps(p, c);
    var added := AddIdle(p, c);
    assert IndexIs(added);
    if p.cfg.maxIdle != 0 && |added.idle.lru| > p.cfg.maxIdle {
      EvictKeeps(added);
    }
  }

  // ------------------------------------------------------------ taking an idle connection

  /** The connection at the end of the list for k leaves it. */
  function Unlist(p: Pool, k: Key, place: Place): Pool
    requires Get(p.idle.lists, k) != [] && ListKnown(p, k)
  {
    var list := Get(p.idle.lists, k);
    Put(p.(idle := p.idle.(lists := Set(p.idle.lists, k, list[..|list| - 1]))), list[|list| - 1], place)
  }

  lemma UnlistLists(p: Pool, k: Key, aged: bool, j: Key)
    requires ListIs(p, k) && ListIs(p, j) && WaitIs(p, j) && Get(p.idle.lists, k) != []
    ensures ListIs(Unlist(p, k, Dropped(aged)), j) && WaitIs(Unlist(p, k, Dropped(aged)), j)
  {
  }

  lemma DropKeeps(p: Pool, k: Key, aged: bool)
    requires IdleInv(p) && Get(p.idle.lists, k) != []
    requires ListKnown(p, k) && (aged || p.conns[Get(p.idle.lists, k)[|Get(p.idle.lists, k)| - 1]].closed)
    ensures IdleInv(Unlist(p, k, Dropped(aged)))
  {
    var q := Unlist(p, k, Dropped(aged));
    var list := Get(p.idle.lists, k);
    var c := list[|list| - 1];
    assert ListIs(p, k);
    forall j
      ensures ListIs(q, j) && WaitIs(q, j)
    {
      assert ListIs(p, j) && WaitIs(p, j);
      UnlistLists(p, k, aged, j);
    }
    forall d | d in q.conns && q.conns[d].place.Idle?
      ensures d in Get(q.idle.lists, q.conns[d].key)
    {
      assert d in Get(p.idle.lists, p.conns[d].key);
    }
    assert ResultsMatch(q);
  }

  lemma {:induction false} DropStaleKeeps(p: Pool, k: Key, aged: set<nat>)
    requires IdleInv(p) && ListKnown(p, k)
    ensures IdleInv(DropStale(p, k, aged))
    decreases |Get(p.idle.lists, k)|
  {
    var list := Get(p.idle.lists, k);
    if list != [] && Stale(p, list[|list| - 1], aged) {
      var place := Dropped(list[|list| - 1] in aged);
      DropKeeps(p, k, place.aged);
      DropStaleKeeps(Unlist(p, k, place), k, aged);
    }
  }

  /** What DropStale leaves alone, and what it leaves at the end of the list. */
  lemma {:induction false} DropStaleFrame(p: Pool, k: Key, aged: set<nat>)
    requires ListKnown(p, k)
    ensures var q := DropStale(p, k, aged);
      q.cfg == p.cfg && q.idle.lru == p.idle.lru && q.idle.wait == p.idle.wait && SameDialSide(p, q)
      && (Get(q.idle.lists, k) == [] || !Stale(q, Get(q.idle.lists, k)[|Get(q.idle.lists, k)| - 1], aged))
    decreases |Get(p.idle.lists, k)|
  {
    var list := Get(p.idle.lists, k);
    if list != [] && Stale(p, list[|list| - 1], aged) {
      DropStaleFrame(Unlist(p, k, Dropped(list[|list| - 1] in aged)), k, aged);
    }
  }

  lemma TakeIsRemoveAndDeliver(p: Pool, w: nat)
    requires Waiting(p.wants, w) && Get(p.idle.lists, p.wants[w].key) != []
    requires ListIs(p, p.wants[w].key)
    ensures var list := Get(p.idle.lists, p.wants[w].key);
      TakeIdle(p, w) == Deliver(RemoveIdle(p, list[|list| - 1]), w, Got(list[|list| - 1]))
  {
    var list := Get(p.idle.lists, p.wants[w].key);
    var c := list[|list| - 1];
    WithoutLast(list);
    assert p.conns[c].key == p.wants[w].key;
    var place := InResult(w);
    assert RemoveIdle(p, c).conns[c := RemoveIdle(p, c).conns[c].(place := place)]
      == p.conns[c := p.conns[c].(place := place)];
  }

  /** The last idle connection of the list and of the index goes to a waiter. */
  lemma TakeKeeps(p: Pool, w: nat)
    requires IdleInv(p) && Waiting(p.wants, w)
    requires Get(p.idle.lists, p.wants[w].key) != [] && ListKnown(p, p.wants[w].key)
    ensures IdleInv(TakeIdle(p, w)) && |TakeIdle(p, w).idle.lru| <= |p.idle.lru| && TakeIdle(p, w).cfg == p.cfg
  {
    var list := Get(p.idle.lists, p.wants[w].key);
    var c := list[|list| - 1];
    assert ListIs(p, p.wants[w].key);
    RemoveKeeps(p, c);
    TakeIsRemoveAndDeliver(p, w);
    DeliverKeeps(RemoveIdle(p, c), w, Got(c));
    WithoutDistinct(p.idle.lru, c);
  }

  lemma RegisterKeeps(p: Pool, w: nat)
    requires IdleInv(p) && w in p.wants && Get(p.idle.lists, p.wants[w].key) == []
    ensures IdleInv(Register(p, w))
  {
    var q := Register(p, w);
    var k := p.wants[w].key;
    var n := LeadingDone(Get(p.idle.wait, k), p.wants, 0);
    forall j
      ensures ListIs(q, j) && WaitIs(q, j)
    {
      assert ListIs(p, j) && WaitIs(p, j);
      if j == k {
        assert Get(q.idle.wait, k) == Get(p.idle.wait, k)[n..] + [w];
      }
    }
    assert ResultsMatch(q);
  }

  lemma ResumeKeeps(p: Pool)
    requires IdleInv(p)
    ensures IdleInv(p.(idle := p.idle.(closing := false)))
  {
    var q := p.(idle := p.idle.(closing := false));
    forall j
      ensures ListIs(q, j) && WaitIs(q, j)
    {
      assert ListIs(p, j) && WaitIs(p, j);
    }
    assert ResultsMatch(q);
  }

  lemma TakeAndEndKeeps(p: Pool, w: nat)
    requires IdleInv(p) && Bounded(p, 0) && Waiting(p.wants, w)
    requires Get(p.idle.lists, p.wants[w].key) != [] && ListKnown(p, p.wants[w].key)
    ensures var q := WithPhase(TakeIdle(p, w), w, Ended); IdleInv(q) && Bounded(q, 0)
  {
    TakeKeeps(p, w);
    IdleSideKept(TakeIdle(p, w), WithPhase(TakeIdle(p, w), w, Ended));
  }

  lemma DropFirst(p: Pool, k: Key, aged: set<nat>)
    requires IdleInv(p) && Bounded(p, 0) && ListKnown(p, k)
    ensures var q := DropStale(p.(idle := p.idle.(closing := false)), k, aged);
      IdleInv(q) && Bounded(q, 0) && q.wants == p.wants && ListKnown(q, k)
  {
    ResumeKeeps(p);
    var r := p.(idle := p.idle.(closing := false));
    DropStaleKeeps(r, k, aged);
    DropStaleFrame(r, k, aged);
  }

  lemma QueueForIdleKeeps(p: Pool, w: nat, aged: set<nat>)
    requires IdleInv(p) && Bounded(p, 0) && Waiting(p.wants, w) && ListKnown(p, p.wants[w].key)
    ensures IdleInv(QueueForIdle(p, w, aged)) && Bounded(QueueForIdle(p, w, aged), 0)
  {
    if !p.cfg.disableKeepAlives {
      var k := p.wants[w].key;
      DropFirst(p, k, aged);
      var q := DropStale(p.(idle := p.idle.(closing := false)), k, aged);
      if Get(q.idle.lists, k) == [] {
        RegisterKeeps(q, w);
      } else {
        TakeAndEndKeeps(q, w);
      }
    }
  }

  lemma CloseIdleKeeps(p: Pool)
    requires IdleInv(p)
    ensures IdleInv(CloseIdle(p))
  {
    var q := CloseIdle(p);
    forall j
      ensures ListIs(q, j) && WaitIs(q, j)
    {
      assert ListIs(p, j) && WaitIs(p, j);
    }
    assert ResultsMatch(q);
  }
}
