/** What every run of the connection pool keeps: counts, ownership, waiters and limits. */
module PoolSafety {
  import opened ConnPool
  import opened Sequences

  // ------------------------------------------------------------ counting connections

  ghost function Dials(wants: map<nat, Want>, k: Key): set<nat> {
    set w | w in wants && wants[w].key == k && (wants[w].phase.Dialing? || wants[w].phase.Failing?)
  }

  ghost function Open(conns: map<nat, Conn>, k: Key): set<nat> {
    set c | c in conns && conns[c].key == k && !conns[c].closed
  }

  /** What counts against the limit: dials in progress and connections not yet closed. */
  ghost function Busy(p: Pool, k: Key): nat { |Dials(p.wants, k)| + |Open(p.conns, k)| }

  /** The count is exact up to extra places that are just being given back. */
  ghost predicate CountedAt(p: Pool, k: Key, extra: nat) {
    Count(p, k) == Busy(p, k) + extra && Count(p, k) <= p.cfg.maxConnsPerHost
    && (Get(p.dial.wait, k) != [] ==> Count(p, k) == p.cfg.maxConnsPerHost)
  }

  ghost predicate CountedBut(p: Pool, k: Key) {
    p.cfg.maxConnsPerHost > 0 ==> forall j :: j != k ==> CountedAt(p, j, 0)
  }

  ghost predicate Counted(p: Pool) { p.cfg.maxConnsPerHost > 0 ==> forall j :: CountedAt(p, j, 0) }

  predicate QueuedAt(p: Pool, k: Key, w: nat) { w in p.wants && p.wants[w].key == k && p.wants[w].phase.Queued? }

  ghost predicate QueueIs(p: Pool, k: Key) {
    var q := Get(p.dial.wait, k);
    Distinct(q) && forall i :: 0 <= i < |q| ==> QueuedAt(p, k, q[i])
  }

  /** No waiter is lost: one that is queued and still waits is in its queue. */
  ghost predicate NoneLost(p: Pool) {
    forall w :: w in p.wants && p.wants[w].phase.Queued? && !p.wants[w].done ==> w in Get(p.dial.wait, p.wants[w].key)
  }

  ghost predicate DialQueues(p: Pool) { (forall k :: QueueIs(p, k)) && NoneLost(p) }

  ghost predicate DialInv(p: Pool) { Counted(p) && DialQueues(p) && !p.panicked }

  /** The fields DialInv looks at; waiters may stop waiting, and waiters that have not dialed may appear or finish. */
  ghost predicate SameDialSide(p: Pool, q: Pool) {
    && q.cfg == p.cfg && q.dial == p.dial && q.panicked == p.panicked
    && q.conns.Keys == p.conns.Keys
    && (forall c :: c in p.conns ==> q.conns[c].key == p.conns[c].key && q.conns[c].closed == p.conns[c].closed)
    && (forall w :: w in p.wants ==> w in q.wants && SameDial(p.wants[w], q.wants[w]))
    && (forall w :: w in q.wants && w !in p.wants ==> q.wants[w].phase.New?)
  }

  predicate SameDial(a: Want, b: Want) {
    b.key == a.key && (a.done ==> b.done) && (b.phase == a.phase || (a.phase.New? && b.phase.Ended?))
  }

  lemma DialSideKept(p: Pool, q: Pool)
    requires DialInv(p) && SameDialSide(p, q)
    ensures DialInv(q)
  {
    forall k
      ensures Dials(q.wants, k) == Dials(p.wants, k) && Open(q.conns, k) == Open(p.conns, k)
    {
    }
    forall k
      ensures QueueIs(q, k) && (p.cfg.maxConnsPerHost > 0 ==> CountedAt(q, k, 0))
    {
      assert QueueIs(p, k);
      assert p.cfg.maxConnsPerHost > 0 ==> CountedAt(p, k, 0);
    }
  }

  // ------------------------------------------------------------ dials

  lemma DialStarts(wants: map<nat, Want>, w: nat, phase: Phase)
    requires w in wants && phase.Dialing? && !wants[w].phase.Dialing? && !wants[w].phase.Failing?
    ensures var after := wants[w := wants[w].(phase := phase)];
      |Dials(after, wants[w].key)| == |Dials(wants, wants[w].key)| + 1
      && forall k :: k != wants[w].key ==> Dials(after, k) == Dials(wants, k)
  {
    var after := wants[w := wants[w].(phase := phase)];
    assert Dials(after, wants[w].key) == Dials(wants, wants[w].key) + {w};
  }

  lemma DialEnds(wants: map<nat, Want>, w: nat)
    requires w in wants && (wants[w].phase.Dialing? || wants[w].phase.Failing?)
    ensures var after := wants[w := wants[w].(phase := Ended)];
      |Dials(after, wants[w].key)| == |Dials(wants, wants[w].key)| - 1
      && forall k :: k != wants[w].key ==> Dials(after, k) == Dials(wants, k)
  {
    var after := wants[w := wants[w].(phase := Ended)];
    assert Dials(after, wants[w].key) == Dials(wants, wants[w].key) - {w};
  }

  lemma ConnCloses(conns: map<nat, Conn>, c: nat)
    requires c in conns && !conns[c].closed
    ensures var after := conns[c := conns[c].(closed := true)];
      |Open(after, conns[c].key)| == |Open(conns, conns[c].key)| - 1
      && forall k :: k != conns[c].key ==> Open(after, k) == Open(conns, k)
  {
    var after := conns[c := conns[c].(closed := true)];
    assert Open(after, conns[c].key) == Open(conns, conns[c].key) - {c};
  }

  lemma ConnOpens(conns: map<nat, Conn>, c: nat, conn: Conn)
    requires c !in conns && !conn.closed
    ensures |Open(conns[c := conn], conn.key)| == |Open(conns, conn.key)| + 1
      && forall k :: k != conn.key ==> Open(conns[c := conn], k) == Open(conns, k)
  {
    assert Open(conns[c := conn], conn.key) == Open(conns, conn.key) + {c};
  }

  lemma DropDoneKeepsWaiting(q: seq<nat>, wants: map<nat, Want>, w: nat)
    requires w in q && Waiting(wants, w)
    ensures w in DropDone(q, wants)
  {
    var i :| 0 <= i < |q| && q[i] == w;
    var n := LeadingDone(q, wants, 0);
    assert q[n..][i - n] == w;
  }

  lemma DecCounts(p: Pool, k: Key, j: Key)
    requires p.cfg.maxConnsPerHost > 0 && QueueIs(p, k)
    requires CountedAt(p, k, 1) && CountedAt(p, j, if j == k then 1 else 0)
    ensures CountedAt(Dec(p, k), j, 0)
  {
    var was := Get(p.dial.wait, k);
    var q := DropDone(was, p.wants);
    if q != [] {
      assert was[LeadingDone(was, p.wants, 0)] == q[0];
      assert QueuedAt(p, k, q[0]);
      DialStarts(p.wants, q[0], Dialing);
    }
  }

  /** The waiters behind the one that is served are all still queued. */
  lemma ServedQueue(p: Pool, k: Key)
    requires QueueIs(p, k) && DropDone(Get(p.dial.wait, k), p.wants) != []
    ensures var q := DropDone(Get(p.dial.wait, k), p.wants);
      QueuedAt(p, k, q[0]) && Distinct(q[1..])
      && forall i :: 0 <= i < |q| - 1 ==> QueuedAt(p, k, q[1..][i]) && q[1..][i] != q[0]
  {
    var was := Get(p.dial.wait, k);
    var n := LeadingDone(was, p.wants, 0);
    assert was[n..][0] == was[n] && was[n..][1..] == was[n + 1..];
  }

  lemma DecQueues(p: Pool, k: Key, j: Key)
    requires QueueIs(p, k) && QueueIs(p, j)
    ensures QueueIs(Dec(p, k), j)
  {
    var q := DropDone(Get(p.dial.wait, k), p.wants);
    if p.cfg.maxConnsPerHost > 0 && Count(p, k) != 0 && q != [] {
      ServedQueue(p, k);
      if j == k {
        assert Get(Dec(p, k).dial.wait, k) == q[1..];
      } else {
        assert Get(Dec(p, k).dial.wait, j) == Get(p.dial.wait, j);
      }
    }
  }

  lemma DecLosesNone(p: Pool, k: Key)
    requires QueueIs(p, k) && NoneLost(p)
    ensures NoneLost(Dec(p, k))
  {
    var was := Get(p.dial.wait, k);
    var q := DropDone(was, p.wants);
    var r := Dec(p, k);
    forall v | v in r.wants && r.wants[v].phase.Queued? && !r.wants[v].done
      ensures v in Get(r.dial.wait, r.wants[v].key)
    {
      assert v in Get(p.dial.wait, p.wants[v].key);
      if p.wants[v].key == k {
        DropDoneKeepsWaiting(was, p.wants, v);
      }
    }
  }

  /** Giving a place back never underflows, and hands it to a waiter whenever one waits. */
  lemma DecKeeps(p: Pool, k: Key)
    requires CountedBut(p, k) && DialQueues(p) && !p.panicked
    requires p.cfg.maxConnsPerHost > 0 ==> CountedAt(p, k, 1)
    ensures DialInv(Dec(p, k))
  {
    assert QueueIs(p, k);
    DecLosesNone(p, k);
    forall j
      ensures QueueIs(Dec(p, k), j)
      ensures p.cfg.maxConnsPerHost > 0 ==> CountedAt(Dec(p, k), j, 0)
    {
      assert QueueIs(p, j);
      DecQueues(p, k, j);
      if p.cfg.maxConnsPerHost > 0 {
        DecCounts(p, k, j);
      }
    }
  }

  lemma CloseKeepsDials(p: Pool, c: nat)
    requires DialInv(p) && c in p.conns
    ensures DialInv(Close(p, c))
  {
    if !p.conns[c].closed {
      var k := p.conns[c].key;
      var q := p.(conns := p.conns[c := p.conns[c].(closed := true)]);
      ConnCloses(p.conns, c);
      forall j
        ensures QueueIs(q, j)
        ensures p.cfg.maxConnsPerHost > 0 ==> (j != k ==> CountedAt(q, j, 0)) && (j == k ==> CountedAt(q, j, 1))
      {
        assert QueueIs(p, j);
        assert p.cfg.maxConnsPerHost > 0 ==> CountedAt(p, j, 0);
      }
      assert NoneLost(q);
      DecKeeps(q, k);
    }
  }

  /** A dial that failed or was not needed gives its place back. */
  lemma DialReturnsKeepsDials(p: Pool, w: nat)
    requires DialInv(p) && w in p.wants && p.wants[w].phase.Failing?
    ensures DialInv(Dec(WithPhase(p, w, Ended), p.wants[w].key))
  {
    var k := p.wants[w].key;
    var q := WithPhase(p, w, Ended);
    DialEnds(p.wants, w);
    forall j
      ensures QueueIs(q, j)
      ensures p.cfg.maxConnsPerHost > 0 ==> (j != k ==> CountedAt(q, j, 0)) && (j == k ==> CountedAt(q, j, 1))
    {
      assert QueueIs(p, j);
      assert p.cfg.maxConnsPerHost > 0 ==> CountedAt(p, j, 0);
    }
    assert NoneLost(q);
    DecKeeps(q, k);
  }

  lemma SeesDoneKeepsDials(p: Pool, w: nat)
    requires DialInv(p) && w in p.wants && p.wants[w].phase.Dialing?
    ensures DialInv(WithPhase(p, w, Failing))
  {
    var q := WithPhase(p, w, Failing);
    forall j
      ensures QueueIs(q, j) && (p.cfg.maxConnsPerHost > 0 ==> CountedAt(q, j, 0))
    {
      assert QueueIs(p, j);
      assert p.cfg.maxConnsPerHost > 0 ==> CountedAt(p, j, 0);
      assert Dials(q.wants, j) == Dials(p.wants, j);
    }
  }

  /** A dial that succeeds turns its place into the place of the new connection. */
  lemma ConnectKeepsDials(p: Pool, w: nat, c: nat)
    requires DialInv(p) && w in p.wants && p.wants[w].phase.Dialing? && c !in p.conns
    ensures DialInv(Connect(p, w, c))
  {
    var q := Connect(p, w, c);
    DialEnds(p.wants, w);
    ConnOpens(p.conns, c, Conn(p.wants[w].key, false, Dialed(w)));
    forall j
      ensures QueueIs(q, j) && (p.cfg.maxConnsPerHost > 0 ==> CountedAt(q, j, 0))
    {
      assert QueueIs(p, j);
      assert p.cfg.maxConnsPerHost > 0 ==> CountedAt(p, j, 0);
    }
  }

  lemma EnqueueQueueIs(p: Pool, w: nat)
    requires w in p.wants && QueueIs(p, p.wants[w].key) && p.wants[w].phase.New?
    ensures var k := p.wants[w].key;
      var q := DropDone(Get(p.dial.wait, k), p.wants) + [w];
      Distinct(q) && forall i :: 0 <= i < |q| - 1 ==> QueuedAt(p, k, q[i])
  {
    var k := p.wants[w].key;
    var was := Get(p.dial.wait, k);
    var n := LeadingDone(was, p.wants, 0);
    assert forall i :: n <= i < |was| ==> QueuedAt(p, k, was[i]);
  }

  lemma EnqueueKeepsDials(p: Pool, w: nat)
    requires DialInv(p) && w in p.wants && p.wants[w].phase.New?
    requires p.cfg.maxConnsPerHost > 0 && Count(p, p.wants[w].key) >= p.cfg.maxConnsPerHost
    ensures DialInv(QueueForDial(p, w))
  {
    var k := p.wants[w].key;
    var q := QueueForDial(p, w);
    assert QueueIs(p, k);
    EnqueueQueueIs(p, w);
    forall j
      ensures QueueIs(q, j) && CountedAt(q, j, 0)
    {
      assert QueueIs(p, j) && CountedAt(p, j, 0);
      assert Dials(q.wants, j) == Dials(p.wants, j);
    }
    forall v | v in q.wants && q.wants[v].phase.Queued? && !q.wants[v].done
      ensures v in Get(q.dial.wait, q.wants[v].key)
    {
      if v != w && p.wants[v].key == k {
        DropDoneKeepsWaiting(Get(p.dial.wait, k), p.wants, v);
      } else if v == w {
        var line := Get(q.dial.wait, k);
        assert line[|line| - 1] == w;
      }
    }
  }

  lemma QueueForDialKeepsDials(p: Pool, w: nat)
    requires DialInv(p) && w in p.wants && p.wants[w].phase.New?
    ensures DialInv(QueueForDial(p, w))
  {
    var k := p.wants[w].key;
    if p.cfg.maxConnsPerHost > 0 && Count(p, k) >= p.cfg.maxConnsPerHost {
      EnqueueKeepsDials(p, w);
    } else {
      var q := QueueForDial(p, w);
      DialStarts(p.wants, w, Dialing);
      forall j
        ensures QueueIs(q, j) && (p.cfg.maxConnsPerHost > 0 ==> CountedAt(q, j, 0))
      {
        assert QueueIs(p, j);
        assert p.cfg.maxConnsPerHost > 0 ==> CountedAt(p, j, 0);
      }
    }
  }
}
