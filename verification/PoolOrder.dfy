/**
 * In which order idle connections are used and dropped (transport.go): by when they were put back, as the events of a
 * run tell it.
 */
module PoolOrder {
  import opened Wrappers
  import opened Sequences
  import opened ConnPool
  import opened PoolOwnership
  import opened PoolRuns

  /** When c was last put back: the index of that event, or -1. */
  function LastPut(es: seq<Event>, c: nat): (i: int)
    ensures -1 <= i < |es|
    decreases |es|
  {
    if es == [] then -1
    else if es[|es| - 1] == Puts(c) then |es| - 1
    else LastPut(es[..|es| - 1], c)
  }

  lemma LastPutNext(es: seq<Event>, e: Event, c: nat)
    ensures LastPut(es + [e], c) == if e == Puts(c) then |es| else LastPut(es, c)
  {
    assert (es + [e])[..|es|] == es;
  }

  predicate Before(es: seq<Event>, c: nat, d: nat) { LastPut(es, c) < LastPut(es, d) }

  predicate WasPut(es: seq<Event>, c: nat) { LastPut(es, c) >= 0 }

  predicate Ascends(s: seq<nat>, es: seq<Event>) {
    (forall i :: 0 <= i < |s| ==> WasPut(es, s[i])) && forall i, j :: 0 <= i < j < |s| ==> Before(es, s[i], s[j])
  }

  predicate Descends(s: seq<nat>, es: seq<Event>) {
    (forall i :: 0 <= i < |s| ==> WasPut(es, s[i])) && forall i, j :: 0 <= i < j < |s| ==> Before(es, s[j], s[i])
  }

  /** Each idle list is in the order of putting back, and the index in the opposite one. */
  ghost predicate InPutOrder(idle: IdlePart, es: seq<Event>) {
    (forall k :: Ascends(Get(idle.lists, k), es)) && Descends(idle.lru, es)
  }

  // ------------------------------------------------------------ taking away keeps the order

  lemma {:induction false} WithoutIsIn(s: seq<nat>, x: nat)
    ensures forall y :: y in Without(s, x) ==> y in s
    decreases |s|
  {
    if s != [] && s[0] != x {
      WithoutIsIn(s[1..], x);
    }
  }

  lemma AscendsTail(c: nat, s: seq<nat>, es: seq<Event>)
    requires Ascends([c] + s, es)
    ensures WasPut(es, c) && Ascends(s, es) && forall i :: 0 <= i < |s| ==> Before(es, c, s[i])
  {
    var all := [c] + s;
    assert all[0] == c;
    forall i | 0 <= i < |s|
      ensures WasPut(es, s[i]) && Before(es, c, s[i]) && forall j :: i < j < |s| ==> Before(es, s[i], s[j])
    {
      assert all[i + 1] == s[i] && forall j :: i < j < |s| ==> all[j + 1] == s[j];
    }
  }

  lemma DescendsTail(c: nat, s: seq<nat>, es: seq<Event>)
    requires Descends([c] + s, es)
    ensures WasPut(es, c) && Descends(s, es) && forall i :: 0 <= i < |s| ==> Before(es, s[i], c)
  {
    var all := [c] + s;
    assert all[0] == c;
    forall i | 0 <= i < |s|
      ensures WasPut(es, s[i]) && Before(es, s[i], c) && forall j :: i < j < |s| ==> Before(es, s[j], s[i])
    {
      assert all[i + 1] == s[i] && forall j :: i < j < |s| ==> all[j + 1] == s[j];
    }
  }

  lemma {:induction false} WithoutAscends(s: seq<nat>, x: nat, es: seq<Event>)
    requires Ascends(s, es)
    ensures Ascends(Without(s, x), es)
    decreases |s|
  {
    if s != [] {
      var c, tail := s[0], s[1..];
      assert s == [c] + tail;
      AscendsTail(c, tail, es);
      if c != x {
        var rest := Without(tail, x);
        WithoutAscends(tail, x, es);
        WithoutIsIn(tail, x);
        assert forall i :: 0 <= i < |rest| ==> rest[i] in tail;
      }
    }
  }

  lemma {:induction false} WithoutDescends(s: seq<nat>, x: nat, es: seq<Event>)
    requires Descends(s, es)
    ensures Descends(Without(s, x), es)
    decreases |s|
  {
    if s != [] {
      var c, tail := s[0], s[1..];
      assert s == [c] + tail;
      DescendsTail(c, tail, es);
      if c != x {
        var rest := Without(tail, x);
        WithoutDescends(tail, x, es);
        WithoutIsIn(tail, x);
        assert forall i :: 0 <= i < |rest| ==> rest[i] in tail;
      }
    }
  }

  lemma RemoveInOrder(p: Pool, c: nat, es: seq<Event>)
    requires c in p.conns && InPutOrder(p.idle, es)
    ensures InPutOrder(RemoveIdle(p, c).idle, es)
  {
    var k := p.conns[c].key;
    var q := RemoveIdle(p, c);
    WithoutAscends(Get(p.idle.lists, k), c, es);
    WithoutDescends(p.idle.lru, c, es);
    forall j
      ensures Ascends(Get(q.idle.lists, j), es)
    {
      assert Ascends(Get(p.idle.lists, j), es);
    }
  }

  lemma SweepInOrder(p: Pool, c: nat, es: seq<Event>)
    requires c in p.conns && InPutOrder(p.idle, es)
    ensures InPutOrder(Sweep(p, c).idle, es)
  {
    RemoveInOrder(p, c, es);
    CloseIsElsewhere(RemoveIdle(p, c), c);
  }

  lemma PrefixInOrder(idle: IdlePart, k: Key, n: nat, lru: seq<nat>, es: seq<Event>)
    requires InPutOrder(idle, es) && n <= |Get(idle.lists, k)| && Descends(lru, es)
    ensures InPutOrder(idle.(lists := Set(idle.lists, k, Get(idle.lists, k)[..n]), lru := lru), es)
  {
    var lists := Set(idle.lists, k, Get(idle.lists, k)[..n]);
    forall j
      ensures Ascends(Get(lists, j), es)
    {
      assert Ascends(Get(idle.lists, j), es);
    }
  }

  lemma {:induction false} DropStaleInOrder(p: Pool, k: Key, aged: set<nat>, es: seq<Event>)
    requires ListKnown(p, k) && InPutOrder(p.idle, es)
    ensures InPutOrder(DropStale(p, k, aged).idle, es)
    decreases |Get(p.idle.lists, k)|
  {
    var list := Get(p.idle.lists, k);
    if list != [] && Stale(p, list[|list| - 1], aged) {
      PrefixInOrder(p.idle, k, |list| - 1, p.idle.lru, es);
      DropStaleInOrder(Unlist(p, k, Dropped(list[|list| - 1] in aged)), k, aged, es);
    }
  }

  lemma TakeInOrder(p: Pool, w: nat, es: seq<Event>)
    requires Waiting(p.wants, w) && Get(p.idle.lists, p.wants[w].key) != [] && ListKnown(p, p.wants[w].key)
    requires InPutOrder(p.idle, es)
    ensures InPutOrder(TakeIdle(p, w).idle, es)
  {
    var k := p.wants[w].key;
    var n := |Get(p.idle.lists, k)| - 1;
    WithoutDescends(p.idle.lru, Get(p.idle.lists, k)[n], es);
    PrefixInOrder(p.idle, k, n, Without(p.idle.lru, Get(p.idle.lists, k)[n]), es);
  }

  lemma SameListsInOrder(a: IdlePart, b: IdlePart, es: seq<Event>)
    requires InPutOrder(a, es) && b.lists == a.lists && b.lru == a.lru
    ensures InPutOrder(b, es)
  {
    forall k
      ensures Ascends(Get(b.lists, k), es)
    {
      assert Ascends(Get(a.lists, k), es);
    }
  }

  lemma QueueInOrder(p: Pool, w: nat, aged: set<nat>, es: seq<Event>)
    requires Waiting(p.wants, w) && ListKnown(p, p.wants[w].key) && InPutOrder(p.idle, es)
    ensures InPutOrder(QueueForIdle(p, w, aged).idle, es)
  {
    if !p.cfg.disableKeepAlives {
      var k := p.wants[w].key;
      var r := p.(idle := p.idle.(closing := false));
      SameListsInOrder(p.idle, r.idle, es);
      DropStaleInOrder(r, k, aged, es);
      var q := DropStale(r, k, aged);
      if Get(q.idle.lists, k) == [] {
        SameListsInOrder(q.idle, Register(q, w).idle, es);
      } else {
        TakeInOrder(q, w, es);
      }
    }
  }

  /** Every event but Puts only takes away. */
  lemma OthersInOrder(p: Pool, e: Event, es: seq<Event>)
    requires IdleInv(p) && Known(p) && Enabled(p, e) && !e.Puts? && InPutOrder(p.idle, es)
    ensures InPutOrder(Step(p, e).idle, es)
  {
    match e {
      case GetConn(w, k, aged) =>
        assert ListKnown(p, k);
        assert ListKnown(AddWant(p, w, k), k);
        QueueInOrder(AddWant(p, w, k), w, aged, es);
      case DialFails(w) => DialFailsKeepsIdle(p, w);
      case DialReturns(w) => DialReturnsKeepsIdle(p, w);
      case DialDelivers(c) => TryKeepsIdle(p, p.conns[c].place.w, Got(c));
      case Removes(c) => RemoveInOrder(p, c, es);
      case Sweeps(c) => SweepInOrder(p, c, es);
      case WantDial(w) => DialStepKeepsIdle(p, e);
      case SeesDone(w) => DialStepKeepsIdle(p, e);
      case DialConnects(w, c) => DialStepKeepsIdle(p, e);
      case Closes(c) => DialStepKeepsIdle(p, e);
      case _ =>
    }
  }

  // ------------------------------------------------------------ putting back

  lemma LaterInOrder(idle: IdlePart, es: seq<Event>, e: Event)
    requires InPutOrder(idle, es)
    requires e.Puts? ==> e.c !in idle.lru && forall k :: e.c !in Get(idle.lists, k)
    ensures InPutOrder(idle, es + [e])
  {
    forall c
      ensures e != Puts(c) ==> LastPut(es + [e], c) == LastPut(es, c)
    {
      LastPutNext(es, e, c);
    }
    forall k
      ensures Ascends(Get(idle.lists, k), es + [e])
    {
      var s := Get(idle.lists, k);
      assert Ascends(s, es);
      assert forall i :: 0 <= i < |s| ==> e != Puts(s[i]);
    }
    assert forall i :: 0 <= i < |idle.lru| ==> e != Puts(idle.lru[i]);
  }

  /** A connection that was just put back comes last in its list and first in the index. */
  lemma AddInOrder(p: Pool, c: nat, es: seq<Event>)
    requires c in p.conns && c !in p.idle.lru && forall k :: c !in Get(p.idle.lists, k)
    requires InPutOrder(p.idle, es)
    ensures InPutOrder(AddIdle(p, c).idle, es + [Puts(c)])
  {
    var es' := es + [Puts(c)];
    LaterInOrder(p.idle, es, Puts(c));
    forall d
      ensures d != c && WasPut(es', d) ==> Before(es', d, c)
    {
      LastPutNext(es, Puts(c), d);
    }
    LastPutNext(es, Puts(c), c);
    var q := AddIdle(p, c);
    forall k
      ensures Ascends(Get(q.idle.lists, k), es')
    {
      assert Ascends(Get(p.idle.lists, k), es');
    }
  }

  lemma ReturningIsUnlisted(p: Pool, c: nat)
    requires IdleInv(p) && HasConn(p, c, Returning)
    ensures c !in p.idle.lru && forall k :: c !in Get(p.idle.lists, k)
  {
    forall k
      ensures c !in Get(p.idle.lists, k)
    {
      assert ListIs(p, k);
    }
    assert IndexIs(p);
  }

  lemma PutOnInOrder(p: Pool, c: nat, es: seq<Event>)
    requires IdleInv(p) && HasConn(p, c, Returning) && LRUKnown(p) && InPutOrder(p.idle, es)
    requires Get(p.idle.wait, p.conns[c].key) == [] && |Get(p.idle.lists, p.conns[c].key)| < p.cfg.PerHost()
    ensures InPutOrder(PutOn(p, c).idle, es + [Puts(c)])
  {
    ReturningIsUnlisted(p, c);
    AddInOrder(p, c, es);
    AddIdleKeeps(p, c);
    var added := AddIdle(p, c);
    if p.cfg.maxIdle != 0 && |added.idle.lru| > p.cfg.maxIdle {
      assert IndexIs(added);
      EvictIsSweep(added);
      SweepInOrder(added, added.idle.lru[|added.idle.lru| - 1], es + [Puts(c)]);
    }
  }

  lemma PutUnservedInOrder(p: Pool, c: nat, es: seq<Event>)
    requires IdleInv(p) && HasConn(p, c, Returning) && LRUKnown(p) && InPutOrder(p.idle, es)
    requires LeadingDone(Get(p.idle.wait, p.conns[c].key), p.wants, 0) == |Get(p.idle.wait, p.conns[c].key)|
    ensures InPutOrder(TryPut(p, c).idle, es + [Puts(c)])
  {
    var k := p.conns[c].key;
    var line := Get(p.idle.wait, k);
    var q := p.(idle := p.idle.(wait := Set(p.idle.wait, k, [])));
    ServeQueueKeeps(p, k, |line|);
    assert line[|line|..] == [];
    ReturningIsUnlisted(p, c);
    LaterInOrder(p.idle, es, Puts(c));
    SameListsInOrder(p.idle, q.idle, es);
    SameListsInOrder(p.idle, q.idle, es + [Puts(c)]);
    PutUnserved(p, c);
    if Listed(p, c) {
      PutOnInOrder(q, c, es);
    }
  }

  lemma PutInOrder(p: Pool, c: nat, es: seq<Event>)
    requires IdleInv(p) && HasConn(p, c, Returning) && Known(p) && InPutOrder(p.idle, es)
    ensures InPutOrder(Step(p, Puts(c)).idle, es + [Puts(c)])
  {
    var line := Get(p.idle.wait, p.conns[c].key);
    PutSteps(p, Puts(c));
    if LeadingDone(line, p.wants, 0) == |line| {
      PutUnservedInOrder(p, c, es);
    } else {
      ReturningIsUnlisted(p, c);
      LaterInOrder(p.idle, es, Puts(c));
      SameListsInOrder(p.idle, TryPut(p, c).idle, es + [Puts(c)]);
    }
  }

  lemma StepInOrder(p: Pool, e: Event, es: seq<Event>)
    requires IdleInv(p) && Known(p) && Enabled(p, e) && InPutOrder(p.idle, es)
    ensures InPutOrder(Step(p, e).idle, es + [e])
  {
    if e.Puts? {
      PutInOrder(p, e.c, es);
    } else {
      OthersInOrder(p, e, es);
      LaterInOrder(Step(p, e).idle, es, e);
    }
  }

  /** In every run the idle lists and the index are in the order in which their connections were put back. */
  lemma {:induction false} RunInOrder(cfg: Config, states: seq<Pool>, events: seq<Event>, i: nat)
    requires IsRun(states, events) && states[0] == Init(cfg) && i <= |events|
    ensures InPutOrder(states[i].idle, events[..i])
  {
    RunKeepsInv(cfg, states, events, i);
    if i > 0 {
      RunInOrder(cfg, states, events, i - 1);
      RunKeepsInv(cfg, states, events, i - 1);
      assert Steps(states[i - 1], events[i - 1], states[i]);
      StepInOrder(states[i - 1], events[i - 1], events[..i - 1]);
      assert events[..i - 1] + [events[i - 1]] == events[..i];
    }
  }

  lemma ReachedInOrder(cfg: Config, es: seq<Event>, p: Pool)
    requires Reached(cfg, es, p)
    ensures Inv(p) && Known(p) && InPutOrder(p.idle, es)
  {
    ReachedIsConsistent(cfg, es, p);
    var states: seq<Pool> :| IsRun(states, es) && states[0] == Init(cfg) && states[|es|] == p;
    RunInOrder(cfg, states, es, |es|);
    assert es[..|es|] == es;
  }

  // ------------------------------------------------------------ who is served, and who goes

  /** An idle connection that a request for the key could use. */
  predicate Usable(p: Pool, k: Key, c: nat, aged: set<nat>) {
    HasConn(p, c, Idle) && p.conns[c].key == k && !p.conns[c].closed && c !in aged
  }

  lemma {:induction false} LastUsable(p: Pool, list: seq<nat>, aged: set<nat>, n: nat) returns (i: nat)
    requires n <= |list| && exists j :: 0 <= j < n && !Stale(p, list[j], aged)
    requires forall j :: n <= j < |list| ==> Stale(p, list[j], aged)
    ensures NewestUsable(p, list, aged, i)
  {
    if !Stale(p, list[n - 1], aged) {
      i := n - 1;
    } else {
      i := LastUsable(p, list, aged, n - 1);
    }
  }

  /**
   * Main result on reuse: in every run, a request for a key with a usable idle connection gets one at once, and of
   * the usable ones that which was put back last.
   */
  lemma LatestPutIsServed(cfg: Config, es: seq<Event>, p: Pool, w: nat, k: Key, aged: set<nat>, d: nat)
    returns (c: nat)
    requires Reached(cfg, es, p) && w !in p.wants && !p.cfg.disableKeepAlives && Usable(p, k, d, aged)
    ensures Known(p) && Usable(p, k, c, aged)
    ensures Step(p, GetConn(w, k, aged)).wants[w].ch.buffered == Some(Got(c))
    ensures forall x :: Usable(p, k, x, aged) && x != c ==> Before(es, x, c)
  {
    ReachedInOrder(cfg, es, p);
    var list := Get(p.idle.lists, k);
    assert ListIs(p, k) && ListsComplete(p) && Ascends(list, es);
    var j :| 0 <= j < |list| && list[j] == d;
    assert !Stale(p, list[j], aged);
    var i := LastUsable(p, list, aged, |list|);
    c := list[i];
    RequestGetsNewest(p, w, k, aged, i);
    forall x | Usable(p, k, x, aged) && x != c
      ensures Before(es, x, c)
    {
      var m :| 0 <= m < |list| && list[m] == x;
      assert !Stale(p, list[m], aged);
    }
  }

  /**
   * Main result on eviction: in every run, a connection that leaves the index because another is put back was put back
   * before all that stay, and is closed.
   */
  lemma EarliestPutIsEvicted(cfg: Config, es: seq<Event>, p: Pool, c: nat, d: nat)
    requires Reached(cfg, es, p) && HasConn(p, c, Returning)
    requires d in p.conns && InIndex(p.conns[d])
    ensures Known(p) && d in Step(p, Puts(c)).conns
    ensures var q := Step(p, Puts(c)); !InIndex(q.conns[d]) ==>
      q.conns[d].closed && forall x :: x in q.conns && InIndex(q.conns[x]) ==> Before(es + [Puts(c)], d, x)
  {
    ReachedInOrder(cfg, es, p);
    var k := p.conns[c].key;
    var line := Get(p.idle.wait, k);
    var n := LeadingDone(line, p.wants, 0);
    if n == |line| && Listed(p, c) {
      ServeQueueKeeps(p, k, |line|);
      assert line[|line|..] == [];
      PutUnserved(p, c);
      EvictedOnPut(p.(idle := p.idle.(wait := Set(p.idle.wait, k, []))), c, d, es);
    }
  }

  /** Evicting takes the last of the index, which was put back first. */
  lemma EvictedFirst(p: Pool, d: nat, es: seq<Event>)
    requires IndexIs(p) && p.idle.lru != [] && Descends(p.idle.lru, es) && d in p.conns && InIndex(p.conns[d])
    ensures var q := Evict(p); d in q.conns && (!InIndex(q.conns[d]) ==>
      q.conns[d].closed && forall x :: x in q.conns && InIndex(q.conns[x]) ==> Before(es, d, x))
  {
    var lru := p.idle.lru;
    var oldest := lru[|lru| - 1];
    EvictIsSweep(p);
    SweptAlone(p, oldest);
    var q := Evict(p);
    if d == oldest {
      forall x | x in q.conns && InIndex(q.conns[x])
        ensures Before(es, d, x)
      {
        assert x != oldest && x in lru;
      }
    }
  }

  lemma EvictedOnPut(p: Pool, c: nat, d: nat, es: seq<Event>)
    requires IdleInv(p) && HasConn(p, c, Returning) && LRUKnown(p) && InPutOrder(p.idle, es)
    requires Get(p.idle.wait, p.conns[c].key) == [] && |Get(p.idle.lists, p.conns[c].key)| < p.cfg.PerHost()
    requires d in p.conns && InIndex(p.conns[d])
    ensures d in PutOn(p, c).conns
    ensures var q := PutOn(p, c); !InIndex(q.conns[d]) ==>
      q.conns[d].closed && forall x :: x in q.conns && InIndex(q.conns[x]) ==> Before(es + [Puts(c)], d, x)
  {
    ReturningIsUnlisted(p, c);
    AddInOrder(p, c, es);
    AddIdleKeeps(p, c);
    var added := AddIdle(p, c);
    assert IndexIs(added) && added.conns[d] == p.conns[d];
    if p.cfg.maxIdle != 0 && |added.idle.lru| > p.cfg.maxIdle {
      EvictedFirst(added, d, es + [Puts(c)]);
    }
  }

  /** Sweeping changes the one connection, which leaves the index closed. */
  lemma SweptAlone(p: Pool, c: nat)
    requires c in p.idle.lru && c in p.conns
    ensures var q := Sweep(p, c);
      q.conns.Keys == p.conns.Keys && !InIndex(q.conns[c]) && q.conns[c].closed
      && forall x :: x in p.conns && x != c ==> q.conns[x] == p.conns[x]
  {
    var q := RemoveIdle(p, c);
    if !q.conns[c].closed {
      DecKeepsConns(q.(conns := q.conns[c := q.conns[c].(closed := true)]), q.conns[c].key);
    }
  }

  lemma NoneWaits(line: seq<nat>, wants: map<nat, Want>)
    requires forall w :: w in line ==> !Waiting(wants, w)
    ensures DropDone(line, wants) == []
  {
    var n := LeadingDone(line, wants, 0);
    if n < |line| {
      assert false;
    }
  }

  lemma PutSteps(p: Pool, e: Event)
    requires e.Puts? && Enabled(p, e) && Known(p)
    ensures Step(p, e) == TryPut(p, e.c)
  {
  }

  lemma PutIsUsable(p: Pool, c: nat)
    requires Inv(p) && HasConn(p, c, Returning) && Known(p) && Listed(p, c) && p.cfg.maxIdle >= 0 && !p.conns[c].closed
    requires forall w :: w in Get(p.idle.wait, p.conns[c].key) ==> !Waiting(p.wants, w)
    ensures var q := Step(p, Puts(c));
      Usable(q, p.conns[c].key, c, {}) && q.cfg == p.cfg && q.wants.Keys == p.wants.Keys
  {
    var line := Get(p.idle.wait, p.conns[c].key);
    PutEnds(p, c);
    PutSteps(p, Puts(c));
    assert SameFrame(p, TryPut(p, c)) by {
      NoneWaits(line, p.wants);
      PutFrame(p, c);
    }
  }

  /** A connection that is put back open, when nobody waits and its list has room, is the next to be used. */
  lemma PutThenGet(cfg: Config, es: seq<Event>, p: Pool, c: nat, w: nat)
    requires Reached(cfg, es, p) && HasConn(p, c, Returning) && !p.conns[c].closed && Listed(p, c)
    requires p.cfg.maxIdle >= 0 && !p.cfg.disableKeepAlives && w !in p.wants
    requires forall v :: v in Get(p.idle.wait, p.conns[c].key) ==> !Waiting(p.wants, v)
    ensures Known(p) && Known(Step(p, Puts(c))) && w !in Step(p, Puts(c)).wants
    ensures Step(Step(p, Puts(c)), GetConn(w, p.conns[c].key, {})).wants[w].ch.buffered == Some(Got(c))
  {
    var k := p.conns[c].key;
    ReachedIsConsistent(cfg, es, p);
    PutIsUsable(p, c);
    StepIsReached(cfg, es, p, Puts(c));
    var q := Step(p, Puts(c));
    ServedNext(cfg, es, q, k, c, w);
  }

  lemma ServedNext(cfg: Config, es: seq<Event>, q: Pool, k: Key, c: nat, w: nat)
    requires Reached(cfg, es + [Puts(c)], q) && Usable(q, k, c, {}) && w !in q.wants && !q.cfg.disableKeepAlives
    ensures Known(q) && Step(q, GetConn(w, k, {})).wants[w].ch.buffered == Some(Got(c))
  {
    var d := LatestPutIsServed(cfg, es + [Puts(c)], q, w, k, {}, c);
    LastPutNext(es, Puts(c), c);
    LastPutNext(es, Puts(c), d);
  }
}
