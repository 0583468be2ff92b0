/**
 * The Transport's pool (transport.go): the methods that hold idleMu or connsPerHostMu, each proved to do what
 * the step system in ConnPool says. The place of a connection is bookkeeping of the model.
 */
module Http1Transport {
  import opened Wrappers
  import opened ConnPool
  import opened PoolOwnership
  import opened ConnQueue

  predicate Stored(m: map<Key, seq<nat>>) { forall k :: k in m ==> m[k] != [] }

  lemma SetSame(m: map<Key, seq<nat>>, k: Key)
    requires Stored(m)
    ensures Set(m, k, Get(m, k)) == m
  {
  }

  lemma SetSet(m: map<Key, seq<nat>>, k: Key, a: seq<nat>, b: seq<nat>)
    ensures Set(Set(m, k, a), k, b) == Set(m, k, b)
  {
  }

  class Transport {
    const cfg: Config
    var idleConn: map<Key, seq<nat>>
    var idleConnWait: map<Key, seq<nat>>
    var idleLRU: seq<nat>
    var closeIdle: bool
    var connsPerHost: map<Key, int>
    var connsPerHostWait: map<Key, seq<nat>>
    var conns: map<nat, Conn>
    var wants: map<nat, Want>
    var panicked: bool

    ghost function Idle(): IdlePart
      reads this
    {
      IdlePart(idleConn, idleConnWait, idleLRU, closeIdle)
    }

    ghost function Dial(): DialPart
      reads this
    {
      DialPart(connsPerHost, connsPerHostWait)
    }

    ghost function View(): Pool
      reads this
    {
      Pool(cfg, Idle(), Dial(), conns, wants, panicked)
    }

    ghost predicate Valid()
      reads this
    {
      Stored(idleConn) && Stored(idleConnWait) && Stored(connsPerHostWait)
    }

    constructor (cfg: Config)
      ensures Valid() && View() == Init(cfg)
    {
      this.cfg := cfg;
      idleConn, idleConnWait, idleLRU, closeIdle := map[], map[], [], false;
      connsPerHost, connsPerHostWait := map[], map[];
      conns, wants, panicked := map[], map[], false;
    }

    // ------------------------------------------------------------ waiters

    method TryDeliver(w: nat, o: Outcome) returns (ok: bool)
      requires w in wants && (o.Got? ==> o.c in conns)
      modifies this`wants, this`conns
      ensures ok <==> old(Waiting(wants, w))
      ensures View() == if ok then Deliver(old(View()), w, o) else old(View())
    {
      var want := wants[w];
      if want.done {
        return false;
      }
      wants := wants[w := want.(done := true, ch := Chan(Some(o), want.ch.sent + 1, want.ch.closes + 1))];
      if o.Got? {
        conns := conns[o.c := conns[o.c].(place := InResult(w))];
      }
      return true;
    }

    method CancelWant(w: nat) returns (pc: Option<nat>)
      requires w in wants && (HoldsConn(View(), w) ==> wants[w].ch.buffered.value.c in conns)
      requires wants[w].ch.buffered.Some? ==> wants[w].done
      modifies this`wants, this`conns
      ensures View() == Cancel(old(View()), w)
      ensures pc == if old(HoldsConn(View(), w)) then Some(old(wants[w].ch.buffered.value.c)) else None
    {
      var want := wants[w];
      pc := None;
      if want.done {
        if want.ch.buffered.Some? && want.ch.buffered.value.Got? {
          pc := Some(want.ch.buffered.value.c);
          conns := conns[pc.value := conns[pc.value].(place := Out)];
        }
        want := want.(ch := want.ch.(buffered := None));
      } else {
        want := want.(ch := want.ch.(closes := want.ch.closes + 1));
      }
      wants := wants[w := want.(done := true)];
    }

    // ------------------------------------------------------------ dialing

    method StartDialConnForLocked(w: nat)
      requires w in wants
      modifies this`wants
      ensures View() == StartDial(old(View()), w)
    {
      wants := wants[w := wants[w].(phase := Dialing)];
    }

    method QueueForDialLocked(w: nat)
      requires Valid() && w in wants
      modifies this
      ensures Valid() && View() == QueueForDial(old(View()), w)
    {
      var key := wants[w].key;
      if cfg.maxConnsPerHost <= 0 {
        StartDialConnForLocked(w);
        return;
      }
      var n := if key in connsPerHost then connsPerHost[key] else 0;
      if n < cfg.maxConnsPerHost {
        connsPerHost := connsPerHost[key := n + 1];
        StartDialConnForLocked(w);
        return;
      }
      WaitToDial(w);
      wants := wants[w := wants[w].(phase := Queued)];
    }

    method WaitToDial(w: nat)
      requires Valid() && w in wants
      modifies this`connsPerHostWait
      ensures Valid()
      ensures var key := wants[w].key;
        connsPerHostWait == old(connsPerHostWait)[key := DropDone(Get(old(connsPerHostWait), key), wants) + [w]]
    {
      var key := wants[w].key;
      var q := new WantConnQueue(Get(connsPerHostWait, key));
      var _ := q.CleanFrontNotWaiting(wants);
      q.PushBack(w);
      var line := q.All();
      connsPerHostWait := connsPerHostWait[key := line];
    }

    /** Pops waiters until one still waits. */
    method NextWaiting(q: WantConnQueue) returns (w: Option<nat>)
      requires q.Valid()
      modifies q
      ensures q.Valid()
      ensures var rest := DropDone(old(q.Contents()), wants);
        if rest == [] then w == None && q.Contents() == []
        else w == Some(rest[0]) && q.Contents() == rest[1..]
    {
      w := None;
      var n := q.Len();
      while n > 0
        invariant q.Valid() && n == |q.Contents()|
        invariant DropDone(q.Contents(), wants) == DropDone(old(q.Contents()), wants)
        decreases n
      {
        ghost var before := q.Contents();
        w := q.PopFront();
        if Waiting(wants, w.value) {
          return;
        }
        DropDoneStep(before, wants);
        n := q.Len();
      }
      return None;
    }

    method DecConnsPerHost(key: Key)
      requires Valid()
      modifies this
      ensures Valid() && View() == Dec(old(View()), key)
    {
      if cfg.maxConnsPerHost <= 0 {
        return;
      }
      var n := if key in connsPerHost then connsPerHost[key] else 0;
      if n == 0 {
        panicked := true;
        return;
      }
      var q := new WantConnQueue(Get(connsPerHostWait, key));
      var w := NextWaiting(q);
      var left := q.All();
      connsPerHostWait := Set(connsPerHostWait, key, left);
      if w.Some? {
        StartDialConnForLocked(w.value);
        return;
      }
      n := n - 1;
      if n == 0 {
        connsPerHost := connsPerHost - {key};
      } else {
        connsPerHost := connsPerHost[key := n];
      }
    }

    method CloseConn(c: nat)
      requires Valid() && c in conns
      modifies this
      ensures Valid() && View() == Close(old(View()), c)
    {
      if !conns[c].closed {
        conns := conns[c := conns[c].(closed := true)];
        DecConnsPerHost(conns[c].key);
      }
    }

    // ------------------------------------------------------------ idle connections

    /** Slides the connections behind the first c down. */
    method Remove(list: seq<nat>, c: nat) returns (r: seq<nat>)
      ensures r == Without(list, c)
    {
      for i := 0 to |list|
        invariant Without(list, c) == list[..i] + Without(list[i..], c)
      {
        if list[i] == c {
          return list[..i] + list[i + 1..];
        }
        assert list[i..][1..] == list[i + 1..];
        assert list[..i + 1] == list[..i] + [list[i]];
      }
      return list;
    }

    method RemoveIdleConnLocked(c: nat) returns (removed: bool)
      requires Valid() && c in conns
      modifies this
      ensures Valid() && View() == RemoveIdle(old(View()), c)
      ensures removed <==> c in old(Get(idleConn, conns[c].key))
    {
      idleLRU := Remove(idleLRU, c);
      var key := conns[c].key;
      var pconns := Get(idleConn, key);
      WithoutPresent(pconns, c);
      removed := c in pconns;
      var left := Remove(pconns, c);
      if removed {
        idleConn := Set(idleConn, key, left);
      }
      if conns[c].place.Idle? || conns[c].place.Dropped? {
        conns := conns[c := conns[c].(place := Out)];
      }
    }

    method CloseConnIfStillIdle(c: nat)
      requires Valid() && c in conns
      modifies this
      ensures Valid() && View() == Sweep(old(View()), c)
    {
      if c !in idleLRU {
        return;
      }
      var _ := RemoveIdleConnLocked(c);
      CloseConn(c);
    }

    method EvictOldest()
      requires Valid() && idleLRU != [] && idleLRU[|idleLRU| - 1] in conns
      modifies this
      ensures Valid() && View() == Evict(old(View()))
    {
      var oldest := idleLRU[|idleLRU| - 1];
      idleLRU := idleLRU[..|idleLRU| - 1];
      CloseConn(oldest);
      var _ := RemoveIdleConnLocked(oldest);
    }

    /** The end of tryPutIdleConn. */
    method AddIdleConn(c: nat)
      requires Valid() && c in conns && LRUKnown(View())
      modifies this
      ensures Valid() && View() == PutOn(old(View()), c)
    {
      var key := conns[c].key;
      var idles := Get(idleConn, key);
      if c in idles || c in idleLRU {
        panicked := true;
      } else {
        idleConn := idleConn[key := idles + [c]];
        idleLRU := [c] + idleLRU;
        conns := conns[c := conns[c].(place := ConnPool.Idle)];
      }
      assert View() == AddIdle(old(View()), c);
      if cfg.maxIdle != 0 && |idleLRU| > cfg.maxIdle && idleLRU != [] {
        EvictOldest();
      }
    }

    /** tryPutIdleConn, before it takes the lock. */
    method CheckReusable(c: nat) returns (ok: bool)
      requires c in conns
      modifies this`conns
      ensures ok <==> !cfg.KeepsNothing() && !old(conns[c].closed)
      ensures View() == if ok then Put(old(View()), c, Returning) else old(View())
    {
      if cfg.disableKeepAlives || cfg.maxIdlePerHost < 0 {
        return false;
      }
      if conns[c].closed {
        return false;
      }
      conns := conns[c := conns[c].(place := Returning)];
      return true;
    }

    method TryPutIdleConnLocked(c: nat) returns (ok: bool)
      requires Valid() && c in conns && LRUKnown(View())
      modifies this
      ensures Valid() && View() == TryPut(old(View()), c)
      ensures ok ==
        (DropDone(old(Get(idleConnWait, conns[c].key)), old(wants)) != []
         || (!old(closeIdle) && |old(Get(idleConn, conns[c].key))| < cfg.PerHost()))
    {
      var key := conns[c].key;
      var q := new WantConnQueue(Get(idleConnWait, key));
      var w := NextWaiting(q);
      var left := q.All();
      idleConnWait := Set(idleConnWait, key, left);
      if w.Some? {
        ok := TryDeliver(w.value, Got(c));
        return;
      }
      if closeIdle || |Get(idleConn, key)| >= cfg.PerHost() {
        conns := conns[c := conns[c].(place := Out)];
        return false;
      }
      AddIdleConn(c);
      return true;
    }

    /** The loop of queueForIdleConn over the list for its key, newest first: what is left of the list. */
    method SkipStale(key: Key, aged: set<nat>) returns (list: seq<nat>)
      requires Valid() && ListKnown(View(), key)
      modifies this`conns
      ensures var p := DropStale(old(View()), key, aged);
        list == Get(p.idle.lists, key) && conns == p.conns && p == old(View()).(idle := p.idle, conns := p.conns)
        && p.idle == old(Idle()).(lists := Set(old(idleConn), key, list))
    {
      list := Get(idleConn, key);
      ghost var start := View();
      SetSame(idleConn, key);
      while |list| > 0
        invariant forall i :: 0 <= i < |list| ==> list[i] in conns
        invariant var p := View().(idle := Idle().(lists := Set(idleConn, key, list)));
          Get(p.idle.lists, key) == list && ListKnown(p, key) && DropStale(p, key, aged) == DropStale(start, key, aged)
        decreases |list|
      {
        var pconn := list[|list| - 1];
        if !conns[pconn].closed && pconn !in aged {
          return;
        }
        SetSet(idleConn, key, list, list[..|list| - 1]);
        list := list[..|list| - 1];
        conns := conns[pconn := conns[pconn].(place := Dropped(pconn in aged))];
      }
    }

    method DropStaleConns(key: Key, aged: set<nat>)
      requires Valid() && ListKnown(View(), key)
      modifies this
      ensures Valid() && View() == DropStale(old(View()), key, aged)
    {
      var list := SkipStale(key, aged);
      idleConn := Set(idleConn, key, list);
    }

    method RegisterWaiter(w: nat)
      requires Valid() && w in wants
      modifies this
      ensures Valid() && View() == Register(old(View()), w)
    {
      var key := wants[w].key;
      var q := new WantConnQueue(Get(idleConnWait, key));
      var _ := q.CleanFrontNotWaiting(wants);
      q.PushBack(w);
      var line := q.All();
      idleConnWait := idleConnWait[key := line];
    }

    method QueueForIdleConn(w: nat, aged: set<nat>) returns (delivered: bool)
      requires Valid() && Waiting(wants, w) && ListKnown(View(), wants[w].key)
      modifies this
      ensures Valid() && View() == QueueForIdle(old(View()), w, aged)
      ensures delivered <==> wants[w].done
    {
      if cfg.disableKeepAlives {
        return false;
      }
      closeIdle := false;
      DropStaleConns(wants[w].key, aged);
      delivered := wants[w].key in idleConn;
      if delivered {
        TakeNewest(w);
        wants := wants[w := wants[w].(phase := Ended)];
      } else {
        RegisterWaiter(w);
      }
    }

    method TakeNewest(w: nat)
      requires Valid() && Waiting(wants, w) && Get(idleConn, wants[w].key) != [] && ListKnown(View(), wants[w].key)
      modifies this
      ensures Valid() && View() == TakeIdle(old(View()), w)
    {
      var key := wants[w].key;
      var list := idleConn[key];
      var pconn := list[|list| - 1];
      var delivered := TryDeliver(w, Got(pconn));
      idleLRU := Remove(idleLRU, pconn);
      idleConn := Set(idleConn, key, list[..|list| - 1]);
    }

    method CloseIdleConnectionsLocked() returns (m: map<Key, seq<nat>>)
      requires Valid()
      modifies this
      ensures Valid() && View() == CloseIdle(old(View())) && m == old(idleConn)
    {
      m := idleConn;
      idleConn, idleLRU, closeIdle := map[], [], true;
      conns := map c | c in conns :: conns[c].(place := Forgotten(conns[c]));
    }
  }

  lemma {:induction false} WithoutPresent(s: seq<nat>, x: nat)
    ensures x !in s ==> Without(s, x) == s
  {
    if x !in s {
      WithoutAbsent(s, x);
    }
  }
}
