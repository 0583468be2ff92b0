/**
 * In which order waiters are served (transport.go): by when they asked, as the events of a run tell it; and when
 * connections are kept again after CloseIdleConnections.
 */
module PoolQueues {
  import opened Wrappers
  import opened Sequences
  import opened ConnPool
  import opened PoolSafety
  import opened PoolOwnership
  import opened PoolRuns

  /** The event in which w asked: for any connection, or for a place to dial. */
  predicate Asks(e: Event, w: nat, dial: bool) {
    if dial then e == WantDial(w) else e.GetConn? && e.w == w
  }

  /** When w asked last: the index of that event, or -1. It asks once for each. */
  function AskedAt(es: seq<Event>, w: nat, dial: bool): (i: int)
    ensures -1 <= i < |es|
    decreases |es|
  {
    if es == [] then -1
    else if Asks(es[|es| - 1], w, dial) then |es| - 1
    else AskedAt(es[..|es| - 1], w, dial)
  }

  lemma AskedNext(es: seq<Event>, e: Event, w: nat, dial: bool)
    ensures AskedAt(es + [e], w, dial) == if Asks(e, w, dial) then |es| else AskedAt(es, w, dial)
  {
    assert (es + [e])[..|es|] == es;
  }

  predicate AskedBefore(es: seq<Event>, v: nat, w: nat, dial: bool) { AskedAt(es, v, dial) < AskedAt(es, w, dial) }

  predicate InLine(line: seq<nat>, es: seq<Event>, dial: bool) {
    forall i, j :: 0 <= i < j < |line| ==> AskedBefore(es, line[i], line[j], dial)
  }

  /** Every queue is in the order of asking. */
  ghost predicate QueuesInOrder(p: Pool, es: seq<Event>) {
    forall k :: InLine(Get(p.idle.wait, k), es, false) && InLine(Get(p.dial.wait, k), es, true)
  }

  // ------------------------------------------------------------ queues lose their heads

  predicate IsSuffix(s: seq<nat>, t: seq<nat>) { |s| <= |t| && t[|t| - |s|..] == s }

  ghost predicate Shortened(m: map<Key, seq<nat>>, n: map<Key, seq<nat>>) {
    forall k :: IsSuffix(Get(n, k), Get(m, k))
  }

  lemma SetShortens(m: map<Key, seq<nat>>, k: Key, n: nat)
    requires n <= |Get(m, k)|
    ensures Shortened(m, Set(m, k, Get(m, k)[n..]))
  {
    var m' := Set(m, k, Get(m, k)[n..]);
    forall j
      ensures IsSuffix(Get(m', j), Get(m, j))
    {
    }
  }

  lemma DecShortens(p: Pool, k: Key)
    ensures Shortened(p.dial.wait, Dec(p, k).dial.wait)
  {
    var line := Get(p.dial.wait, k);
    var n := LeadingDone(line, p.wants, 0);
    if p.cfg.maxConnsPerHost > 0 && Count(p, k) != 0 {
      if n < |line| {
        assert DropDone(line, p.wants)[1..] == line[n + 1..];
        SetShortens(p.dial.wait, k, n + 1);
      } else {
        assert line[|line|..] == [];
        SetShortens(p.dial.wait, k, |line|);
      }
    }
  }

  lemma CloseShortens(p: Pool, c: nat)
    requires c in p.conns
    ensures Shortened(p.dial.wait, Close(p, c).dial.wait)
  {
    if !p.conns[c].closed {
      DecShortens(p.(conns := p.conns[c := p.conns[c].(closed := true)]), p.conns[c].key);
    }
  }

  lemma SweepShortens(p: Pool, c: nat)
    requires c in p.conns
    ensures Shortened(p.dial.wait, Sweep(p, c).dial.wait) && Sweep(p, c).idle.wait == p.idle.wait
  {
    CloseShortens(RemoveIdle(p, c), c);
    CloseIsElsewhere(RemoveIdle(p, c), c);
  }

  lemma PutOnShortens(p: Pool, c: nat)
    requires IdleInv(p) && HasConn(p, c, Returning) && LRUKnown(p)
    requires Get(p.idle.wait, p.conns[c].key) == [] && |Get(p.idle.lists, p.conns[c].key)| < p.cfg.PerHost()
    ensures Shortened(p.dial.wait, PutOn(p, c).dial.wait) && PutOn(p, c).idle.wait == p.idle.wait
  {
    AddIdleKeeps(p, c);
    var added := AddIdle(p, c);
    if p.cfg.maxIdle != 0 && |added.idle.lru| > p.cfg.maxIdle {
      assert IndexIs(added);
      EvictIsSweep(added);
      SweepShortens(added, added.idle.lru[|added.idle.lru| - 1]);
    }
  }

  lemma PutShortens(p: Pool, c: nat)
    requires IdleInv(p) && HasConn(p, c, Returning) && LRUKnown(p)
    ensures Shortened(p.dial.wait, TryPut(p, c).dial.wait) && Shortened(p.idle.wait, TryPut(p, c).idle.wait)
  {
    var k := p.conns[c].key;
    var line := Get(p.idle.wait, k);
    var n := LeadingDone(line, p.wants, 0);
    if n < |line| {
      assert DropDone(line, p.wants)[1..] == line[n + 1..];
      SetShortens(p.idle.wait, k, n + 1);
    } else {
      assert line[|line|..] == [];
      SetShortens(p.idle.wait, k, |line|);
      ServeQueueKeeps(p, k, |line|);
      PutUnserved(p, c);
      if Listed(p, c) {
        PutOnShortens(p.(idle := p.idle.(wait := Set(p.idle.wait, k, []))), c);
      }
    }
  }

  // ------------------------------------------------------------ and grow at their ends

  lemma SuffixInLine(s: seq<nat>, t: seq<nat>, es: seq<Event>, dial: bool)
    requires IsSuffix(s, t) && InLine(t, es, dial)
    ensures InLine(s, es, dial)
  {
    var d := |t| - |s|;
    assert forall i :: 0 <= i < |s| ==> s[i] == t[d + i];
  }

  lemma LaterInLine(line: seq<nat>, es: seq<Event>, e: Event, dial: bool)
    requires InLine(line, es, dial) && forall i :: 0 <= i < |line| ==> !Asks(e, line[i], dial)
    ensures InLine(line, es + [e], dial)
  {
    forall i | 0 <= i < |line|
      ensures AskedAt(es + [e], line[i], dial) == AskedAt(es, line[i], dial)
    {
      AskedNext(es, e, line[i], dial);
    }
  }

  lemma AppendInLine(line: seq<nat>, w: nat, es: seq<Event>, e: Event, dial: bool)
    requires InLine(line, es, dial) && Asks(e, w, dial) && w !in line
    ensures InLine(line + [w], es + [e], dial)
  {
    assert forall i :: 0 <= i < |line| ==> line[i] != w;
    LaterInLine(line, es, e, dial);
    AskedNext(es, e, w, dial);
    forall i | 0 <= i < |line|
      ensures AskedBefore(es + [e], line[i], w, dial)
    {
      AskedNext(es, e, line[i], dial);
    }
  }

  /** The queues of both kinds after a step: shorter, or with the one who asks at the end. */
  ghost predicate Follows(line: seq<nat>, after: seq<nat>, e: Event, dial: bool) {
    IsSuffix(after, line)
    || (after != [] && Asks(e, after[|after| - 1], dial) && IsSuffix(after[..|after| - 1], line))
  }

  lemma FollowsInLine(line: seq<nat>, after: seq<nat>, es: seq<Event>, e: Event, dial: bool)
    requires Follows(line, after, e, dial) && InLine(line, es, dial)
    requires forall i :: 0 <= i < |line| ==> !Asks(e, line[i], dial)
    ensures InLine(after, es + [e], dial)
  {
    if IsSuffix(after, line) {
      SuffixInLine(after, line, es, dial);
      assert forall i :: 0 <= i < |after| ==> after[i] == line[|line| - |after| + i];
      LaterInLine(after, es, e, dial);
    } else {
      var front, w := after[..|after| - 1], after[|after| - 1];
      SuffixInLine(front, line, es, dial);
      assert forall i :: 0 <= i < |front| ==> front[i] == line[|line| - |front| + i];
      assert w !in front;
      AppendInLine(front, w, es, e, dial);
      assert front + [w] == after;
    }
  }

  ghost predicate QueuesFollow(p: Pool, q: Pool, e: Event) {
    forall k :: Follows(Get(p.idle.wait, k), Get(q.idle.wait, k), e, false)
                && Follows(Get(p.dial.wait, k), Get(q.dial.wait, k), e, true)
  }

  lemma ShortenedFollow(p: Pool, q: Pool, e: Event)
    requires Shortened(p.idle.wait, q.idle.wait) && Shortened(p.dial.wait, q.dial.wait)
    ensures QueuesFollow(p, q, e)
  {
  }

  /** w comes to the end of a queue that has lost its head. */
  lemma JoinsAtTheEnd(m: map<Key, seq<nat>>, k: Key, n: nat, w: nat, e: Event, dial: bool)
    requires n <= |Get(m, k)| && Asks(e, w, dial)
    ensures forall j :: Follows(Get(m, j), Get(m[k := Get(m, k)[n..] + [w]], j), e, dial)
  {
    var after := Get(m, k)[n..] + [w];
    assert after[..|after| - 1] == Get(m, k)[n..];
  }

  lemma RegisterFollows(p: Pool, q: Pool, w: nat, e: Event)
    requires w in q.wants && q.idle.wait == p.idle.wait && q.dial == p.dial && Asks(e, w, false)
    ensures QueuesFollow(p, Register(q, w), e)
  {
    var k := q.wants[w].key;
    JoinsAtTheEnd(p.idle.wait, k, LeadingDone(Get(p.idle.wait, k), q.wants, 0), w, e, false);
  }

  lemma GetConnFollows(p: Pool, w: nat, k: Key, aged: set<nat>)
    requires w !in p.wants && ListKnown(AddWant(p, w, k), k)
    ensures QueuesFollow(p, QueueForIdle(AddWant(p, w, k), w, aged), GetConn(w, k, aged))
  {
    var q := AddWant(p, w, k);
    if !p.cfg.disableKeepAlives {
      var r := q.(idle := q.idle.(closing := false));
      DropStaleFrame(r, k, aged);
      var s := DropStale(r, k, aged);
      if Get(s.idle.lists, k) == [] {
        RegisterFollows(p, s, w, GetConn(w, k, aged));
      }
    }
  }

  lemma WantDialFollows(p: Pool, w: nat)
    requires w in p.wants
    ensures QueuesFollow(p, QueueForDial(p, w), WantDial(w))
  {
    var k := p.wants[w].key;
    if p.cfg.maxConnsPerHost > 0 && Count(p, k) >= p.cfg.maxConnsPerHost {
      JoinsAtTheEnd(p.dial.wait, k, LeadingDone(Get(p.dial.wait, k), p.wants, 0), w, WantDial(w), true);
    }
  }

  lemma StepFollows(p: Pool, e: Event)
    requires Inv(p) && Known(p) && Enabled(p, e)
    ensures QueuesFollow(p, Step(p, e), e)
  {
    match e {
      case GetConn(w, k, aged) =>
        assert ListKnown(p, k);
        assert ListKnown(AddWant(p, w, k), k);
        GetConnFollows(p, w, k, aged);
      case WantDial(w) => WantDialFollows(p, w);
      case Puts(c) =>
        PutShortens(p, c);
        ShortenedFollow(p, TryPut(p, c), e);
      case Closes(c) =>
        CloseShortens(p, c);
        CloseIsElsewhere(p, c);
        ShortenedFollow(p, Close(p, c), e);
      case Sweeps(c) =>
        SweepShortens(p, c);
        ShortenedFollow(p, Sweep(p, c), e);
      case DialReturns(w) =>
        var q := WithPhase(p, w, Ended);
        DecShortens(q, p.wants[w].key);
        DecIsElsewhere(q, p.wants[w].key);
        ShortenedFollow(p, Dec(q, p.wants[w].key), e);
      case _ => ShortenedFollow(p, Step(p, e), e);
    }
  }

  /** Who asks is not in a queue yet. */
  lemma NewToTheQueue(p: Pool, e: Event, k: Key)
    requires Inv(p) && Enabled(p, e)
    ensures forall i :: 0 <= i < |Get(p.idle.wait, k)| ==> !Asks(e, Get(p.idle.wait, k)[i], false)
    ensures forall i :: 0 <= i < |Get(p.dial.wait, k)| ==> !Asks(e, Get(p.dial.wait, k)[i], true)
  {
    assert WaitIs(p, k) && QueueIs(p, k);
  }

  lemma StepInLine(p: Pool, e: Event, es: seq<Event>)
    requires Inv(p) && Known(p) && Enabled(p, e) && QueuesInOrder(p, es)
    ensures QueuesInOrder(Step(p, e), es + [e])
  {
    var q := Step(p, e);
    StepFollows(p, e);
    forall k
      ensures InLine(Get(q.idle.wait, k), es + [e], false) && InLine(Get(q.dial.wait, k), es + [e], true)
    {
      NewToTheQueue(p, e, k);
      FollowsInLine(Get(p.idle.wait, k), Get(q.idle.wait, k), es, e, false);
      FollowsInLine(Get(p.dial.wait, k), Get(q.dial.wait, k), es, e, true);
    }
  }

  /** In every run both kinds of queues are in the order of asking. */
  lemma {:induction false} RunInLine(cfg: Config, states: seq<Pool>, events: seq<Event>, i: nat)
    requires IsRun(states, events) && states[0] == Init(cfg) && i <= |events|
    ensures QueuesInOrder(states[i], events[..i])
  {
    if i > 0 {
      RunInLine(cfg, states, events, i - 1);
      RunKeepsInv(cfg, states, events, i - 1);
      assert Steps(states[i - 1], events[i - 1], states[i]);
      StepInLine(states[i - 1], events[i - 1], events[..i - 1]);
      assert events[..i - 1] + [events[i - 1]] == events[..i];
    }
  }

  // ------------------------------------------------------------ nobody is forgotten

  /** Every request that still waits is in the queue of its key. */
  ghost predicate AllRegistered(p: Pool) {
    !p.cfg.disableKeepAlives ==>
      forall w :: w in p.wants && Waiting(p.wants, w) ==> w in Get(p.idle.wait, p.wants[w].key)
  }

  /** Nobody starts to wait, and the queues are those of before. */
  ghost predicate NobodyNew(p: Pool, q: Pool) {
    && q.cfg == p.cfg && q.idle.wait == p.idle.wait
    && forall w :: w in q.wants && Waiting(q.wants, w) ==>
         w in p.wants && Waiting(p.wants, w) && q.wants[w].key == p.wants[w].key
  }

  lemma {:induction false} DropKeepsWaiting(line: seq<nat>, wants: map<nat, Want>, w: nat)
    requires w in line && Waiting(wants, w)
    ensures w in DropDone(line, wants)
  {
    var n := LeadingDone(line, wants, 0);
    var i :| 0 <= i < |line| && line[i] == w;
    assert i >= n;
    assert line[n..][i - n] == w;
  }

  lemma RegisterRegisters(p: Pool, w: nat)
    requires w in p.wants && forall v :: v in p.wants && v != w && Waiting(p.wants, v) ==>
      v in Get(p.idle.wait, p.wants[v].key)
    ensures AllRegistered(Register(p, w))
  {
    var k := p.wants[w].key;
    var q := Register(p, w);
    assert Get(q.idle.wait, k) == DropDone(Get(p.idle.wait, k), p.wants) + [w];
    forall v | v in q.wants && Waiting(q.wants, v)
      ensures v in Get(q.idle.wait, q.wants[v].key)
    {
      if v != w && q.wants[v].key == k {
        DropKeepsWaiting(Get(p.idle.wait, k), p.wants, v);
      }
    }
  }

  lemma TakeNobodyNew(p: Pool, w: nat)
    requires Waiting(p.wants, w) && Get(p.idle.lists, p.wants[w].key) != [] && ListKnown(p, p.wants[w].key)
    ensures NobodyNew(p, WithPhase(TakeIdle(p, w), w, Ended)) && TakeIdle(p, w).wants[w].done
  {
  }

  lemma GetConnRegisters(p: Pool, w: nat, k: Key, aged: set<nat>)
    requires AllRegistered(p) && w !in p.wants && ListKnown(AddWant(p, w, k), k)
    ensures AllRegistered(QueueForIdle(AddWant(p, w, k), w, aged))
  {
    var q := AddWant(p, w, k);
    if !p.cfg.disableKeepAlives {
      var r := q.(idle := q.idle.(closing := false));
      DropStaleFrame(r, k, aged);
      var s := DropStale(r, k, aged);
      if Get(s.idle.lists, k) == [] {
        RegisterRegisters(s, w);
      } else {
        TakeNobodyNew(s, w);
      }
    }
  }

  /** A connection that is put back goes to the first that waits, who waits no longer; the others keep waiting. */
  lemma PutRegisters(p: Pool, c: nat)
    requires IdleInv(p) && AllRegistered(p) && HasConn(p, c, Returning) && LRUKnown(p)
    ensures AllRegistered(TryPut(p, c))
  {
    var k := p.conns[c].key;
    var line := Get(p.idle.wait, k);
    var n := LeadingDone(line, p.wants, 0);
    var q := TryPut(p, c);
    if n < |line| {
      var rest := DropDone(line, p.wants)[1..];
      assert Get(q.idle.wait, k) == rest && q.wants[line[n]].done;
      forall v | v in q.wants && Waiting(q.wants, v) && !p.cfg.disableKeepAlives
        ensures v in Get(q.idle.wait, q.wants[v].key)
      {
        if q.wants[v].key == k {
          DropKeepsWaiting(line, p.wants, v);
          assert DropDone(line, p.wants) == [line[n]] + rest;
        }
      }
    } else {
      PutFrameWaits(p, c);
      forall v | v in q.wants && Waiting(q.wants, v) && !p.cfg.disableKeepAlives
        ensures v in Get(q.idle.wait, q.wants[v].key)
      {
        if q.wants[v].key == k {
          DropKeepsWaiting(line, p.wants, v);
        }
      }
    }
  }

  lemma DecNobodyNew(p: Pool, k: Key)
    ensures NobodyNew(p, Dec(p, k))
  {
    DecIsElsewhere(p, k);
  }

  lemma SweepNobodyNew(p: Pool, c: nat)
    requires c in p.conns
    ensures NobodyNew(p, Sweep(p, c))
  {
    CloseIsElsewhere(RemoveIdle(p, c), c);
    SweepShortens(p, c);
    if c in p.idle.lru {
      CloseWaits(RemoveIdle(p, c), c);
    }
  }

  lemma CloseWaits(p: Pool, c: nat)
    requires c in p.conns
    ensures NobodyNew(p, Close(p, c))
  {
    if !p.conns[c].closed {
      DecNobodyNew(p.(conns := p.conns[c := p.conns[c].(closed := true)]), p.conns[c].key);
    }
  }

  lemma PutOnNobodyNew(p: Pool, c: nat)
    requires IdleInv(p) && HasConn(p, c, Returning) && LRUKnown(p)
    requires Get(p.idle.wait, p.conns[c].key) == [] && |Get(p.idle.lists, p.conns[c].key)| < p.cfg.PerHost()
    ensures NobodyNew(p, PutOn(p, c))
  {
    AddIdleKeeps(p, c);
    var added := AddIdle(p, c);
    if p.cfg.maxIdle != 0 && |added.idle.lru| > p.cfg.maxIdle {
      assert IndexIs(added);
      EvictIsSweep(added);
      SweepNobodyNew(added, added.idle.lru[|added.idle.lru| - 1]);
    }
  }

  lemma UnservedNobodyNew(p: Pool, c: nat, listed: bool)
    requires IdleInv(p) && HasConn(p, c, Returning) && LRUKnown(p) && Get(p.idle.wait, p.conns[c].key) == []
    requires listed ==> |Get(p.idle.lists, p.conns[c].key)| < p.cfg.PerHost()
    ensures NobodyNew(p, if listed then PutOn(p, c) else Put(p, c, Out))
  {
    if listed {
      PutOnNobodyNew(p, c);
    }
  }

  lemma NobodyQueues(p: Pool, k: Key)
    requires IdleInv(p)
    ensures IdleInv(p.(idle := p.idle.(wait := Set(p.idle.wait, k, []))))
  {
    var line := Get(p.idle.wait, k);
    ServeQueueKeeps(p, k, |line|);
    assert line[|line|..] == [];
  }

  lemma PutFrameWaits(p: Pool, c: nat)
    requires IdleInv(p) && HasConn(p, c, Returning) && LRUKnown(p)
    requires DropDone(Get(p.idle.wait, p.conns[c].key), p.wants) == []
    ensures NobodyNew(p.(idle := p.idle.(wait := Set(p.idle.wait, p.conns[c].key, []))), TryPut(p, c))
  {
    var q := p.(idle := p.idle.(wait := Set(p.idle.wait, p.conns[c].key, [])));
    NobodyQueues(p, p.conns[c].key);
    UnservedNobodyNew(q, c, Listed(p, c));
    PutUnserved(p, c);
  }

  lemma StepRegisters(p: Pool, e: Event)
    requires Inv(p) && Known(p) && Enabled(p, e) && AllRegistered(p)
    ensures AllRegistered(Step(p, e))
  {
    match e {
      case GetConn(w, k, aged) =>
        assert ListKnown(p, k);
        assert ListKnown(AddWant(p, w, k), k);
        GetConnRegisters(p, w, k, aged);
      case Puts(c) => PutRegisters(p, c);
      case Closes(c) => CloseWaits(p, c);
      case Sweeps(c) => SweepNobodyNew(p, c);
      case DialReturns(w) => DecNobodyNew(WithPhase(p, w, Ended), p.wants[w].key);
      case _ =>
    }
  }

  lemma {:induction false} RunRegisters(cfg: Config, states: seq<Pool>, events: seq<Event>, i: nat)
    requires IsRun(states, events) && states[0] == Init(cfg) && i <= |events|
    ensures AllRegistered(states[i])
  {
    if i > 0 {
      RunRegisters(cfg, states, events, i - 1);
      RunKeepsInv(cfg, states, events, i - 1);
      assert Steps(states[i - 1], events[i - 1], states[i]);
      StepRegisters(states[i - 1], events[i - 1]);
    }
  }

  // ------------------------------------------------------------ who is served

  lemma ReachedQueues(cfg: Config, es: seq<Event>, p: Pool)
    requires Reached(cfg, es, p)
    ensures Inv(p) && Known(p) && QueuesInOrder(p, es) && AllRegistered(p)
  {
    ReachedIsConsistent(cfg, es, p);
    var states: seq<Pool> :| IsRun(states, es) && states[0] == Init(cfg) && states[|es|] == p;
    RunInLine(cfg, states, es, |es|);
    RunRegisters(cfg, states, es, |es|);
    assert es[..|es|] == es;
  }

  /** The first in line that waits has asked before every other that does. */
  lemma FirstInLine(line: seq<nat>, wants: map<nat, Want>, es: seq<Event>, dial: bool, v: nat) returns (i: nat)
    requires InLine(line, es, dial) && v in line && Waiting(wants, v)
    ensures FirstWaiting(line, wants, i)
    ensures forall x :: x in line && Waiting(wants, x) && x != line[i] ==> AskedBefore(es, line[i], x, dial)
  {
    i := LeadingDone(line, wants, 0);
    var j :| 0 <= j < |line| && line[j] == v;
    assert i <= j;
    forall x | x in line && Waiting(wants, x) && x != line[i]
      ensures AskedBefore(es, line[i], x, dial)
    {
      var m :| 0 <= m < |line| && line[m] == x;
      assert i < m;
    }
  }

  /**
   * Main result on waiting: in every run, a connection that is put back while a request for its key waits goes to the
   * one that has waited longest.
   */
  lemma LongestWaitingIsServed(cfg: Config, es: seq<Event>, p: Pool, c: nat, v: nat) returns (w: nat)
    requires Reached(cfg, es, p) && HasConn(p, c, Returning) && !p.cfg.disableKeepAlives
    requires Waiting(p.wants, v) && p.wants[v].key == p.conns[c].key
    ensures Known(p) && Waiting(p.wants, w) && p.wants[w].key == p.conns[c].key
    ensures c in Step(p, Puts(c)).conns && Step(p, Puts(c)).conns[c].place == InResult(w)
    ensures forall x :: Waiting(p.wants, x) && p.wants[x].key == p.conns[c].key && x != w ==>
      AskedBefore(es, w, x, false)
  {
    ReachedQueues(cfg, es, p);
    var k := p.conns[c].key;
    var line := Get(p.idle.wait, k);
    assert InLine(line, es, false) && WaitIs(p, k);
    var i := FirstInLine(line, p.wants, es, false, v);
    w := line[i];
    PutServesFirst(p, c, i);
  }

  /**
   * Main result on dialing: in every run, the place of a connection that closes while a request for its key is queued
   * to dial and still waits goes to the one that was queued first.
   */
  lemma LongestQueuedDials(cfg: Config, es: seq<Event>, p: Pool, c: nat, v: nat) returns (w: nat)
    requires Reached(cfg, es, p) && c in p.conns && !p.conns[c].closed && p.cfg.maxConnsPerHost > 0
    requires QueuedAt(p, p.conns[c].key, v) && Waiting(p.wants, v)
    ensures Known(p) && QueuedAt(p, p.conns[c].key, w) && Waiting(p.wants, w)
    ensures Step(p, Closes(c)).wants == p.wants[w := p.wants[w].(phase := Dialing)]
    ensures forall x :: QueuedAt(p, p.conns[c].key, x) && Waiting(p.wants, x) && x != w ==> AskedBefore(es, w, x, true)
  {
    ReachedQueues(cfg, es, p);
    var k := p.conns[c].key;
    var line := Get(p.dial.wait, k);
    assert InLine(line, es, true) && QueueIs(p, k) && NoneLost(p);
    var i := FirstInLine(line, p.wants, es, true, v);
    w := line[i];
    CountIsPositive(p, c);
    var q := p.(conns := p.conns[c := p.conns[c].(closed := true)]);
    PlaceServesFirst(q, k, i);
  }

  lemma CountIsPositive(p: Pool, c: nat)
    requires Inv(p) && c in p.conns && !p.conns[c].closed && p.cfg.maxConnsPerHost > 0
    ensures Count(p, p.conns[c].key) > 0
  {
    var k := p.conns[c].key;
    LimitHolds(p, k, 0);
    assert c in Open(p.conns, k);
    assert |Open(p.conns, k)| > 0;
  }

  // ------------------------------------------------------------ keeping connections

  /** CloseIdleConnections came last, and no request after it. */
  function ClosedSince(es: seq<Event>, closing: bool): bool {
    if es == [] then closing
    else ClosedSince(es[1..], es[0].CloseAllIdle? || (closing && !es[0].GetConn?))
  }

  lemma {:induction false} ClosedSinceNext(es: seq<Event>, e: Event, closing: bool)
    ensures ClosedSince(es + [e], closing) == (e.CloseAllIdle? || (ClosedSince(es, closing) && !e.GetConn?))
    decreases |es|
  {
    if es == [] {
      assert (es + [e])[1..] == [];
    } else {
      assert (es + [e])[1..] == es[1..] + [e] && (es + [e])[0] == es[0];
      ClosedSinceNext(es[1..], e, es[0].CloseAllIdle? || (closing && !es[0].GetConn?));
    }
  }

  lemma StepCloses(p: Pool, e: Event)
    requires Inv(p) && Known(p) && Enabled(p, e) && !p.cfg.disableKeepAlives
    ensures Step(p, e).idle.closing == (e.CloseAllIdle? || (p.idle.closing && !e.GetConn?))
    ensures Step(p, e).cfg == p.cfg
  {
    match e {
      case GetConn(w, k, aged) =>
        assert ListKnown(p, k);
        assert ListKnown(AddWant(p, w, k), k);
        GetConnOpens(AddWant(p, w, k), w, aged);
      case Puts(c) => PutKeepsClosing(p, c);
      case Sweeps(c) => CloseIsElsewhere(RemoveIdle(p, c), c);
      case Closes(c) => CloseIsElsewhere(p, c);
      case DialReturns(w) => DecIsElsewhere(WithPhase(p, w, Ended), p.wants[w].key);
      case _ =>
    }
  }

  lemma {:induction false} DropStaleKeepsClosing(p: Pool, k: Key, aged: set<nat>)
    requires ListKnown(p, k)
    ensures DropStale(p, k, aged).idle.closing == p.idle.closing && DropStale(p, k, aged).cfg == p.cfg
    decreases |Get(p.idle.lists, k)|
  {
    var list := Get(p.idle.lists, k);
    if list != [] && Stale(p, list[|list| - 1], aged) {
      DropStaleKeepsClosing(Unlist(p, k, Dropped(list[|list| - 1] in aged)), k, aged);
    }
  }

  lemma GetConnOpens(p: Pool, w: nat, aged: set<nat>)
    requires Waiting(p.wants, w) && ListKnown(p, p.wants[w].key) && !p.cfg.disableKeepAlives
    ensures !QueueForIdle(p, w, aged).idle.closing && QueueForIdle(p, w, aged).cfg == p.cfg
  {
    DropStaleKeepsClosing(p.(idle := p.idle.(closing := false)), p.wants[w].key, aged);
  }

  lemma PutKeepsClosing(p: Pool, c: nat)
    requires IdleInv(p) && HasConn(p, c, Returning) && LRUKnown(p)
    ensures TryPut(p, c).idle.closing == p.idle.closing && TryPut(p, c).cfg == p.cfg
  {
    var k := p.conns[c].key;
    var line := Get(p.idle.wait, k);
    var n := LeadingDone(line, p.wants, 0);
    if n == |line| && Listed(p, c) {
      var q := p.(idle := p.idle.(wait := Set(p.idle.wait, k, [])));
      ServeQueueKeeps(p, k, |line|);
      assert line[|line|..] == [];
      PutUnserved(p, c);
      AddIdleKeeps(q, c);
      var added := AddIdle(q, c);
      if p.cfg.maxIdle != 0 && |added.idle.lru| > p.cfg.maxIdle {
        assert IndexIs(added);
        EvictIsSweep(added);
        CloseIsElsewhere(RemoveIdle(added, added.idle.lru[|added.idle.lru| - 1]), added.idle.lru[|added.idle.lru| - 1]);
      }
    }
  }

  /** Connections are refused after CloseIdleConnections, and kept again from the next request on. */
  lemma {:induction false} ClosingIff(cfg: Config, states: seq<Pool>, events: seq<Event>, i: nat)
    requires IsRun(states, events) && states[0] == Init(cfg) && i <= |events| && !cfg.disableKeepAlives
    ensures states[i].idle.closing == ClosedSince(events[..i], false) && states[i].cfg == cfg
  {
    if i > 0 {
      ClosingIff(cfg, states, events, i - 1);
      RunKeepsInv(cfg, states, events, i - 1);
      assert Steps(states[i - 1], events[i - 1], states[i]);
      StepCloses(states[i - 1], events[i - 1]);
      ClosedSinceNext(events[..i - 1], events[i - 1], false);
      assert events[..i - 1] + [events[i - 1]] == events[..i];
    }
  }
}
