/** HTTP/2 flow-control windows (internal/http2/flow.go). */
module Flow {
  import opened MachineInts

  const INFLOW_MIN_REFRESH := 4096
  const MAX_WINDOW := MAX_INT32

  /** The value of an inflow: the window last announced to the peer, and credit not yet announced. */
  datatype Window = Window(avail: int, unsent: int) {
    function Total(): int { avail + unsent }

    predicate Ok() { 0 <= avail && 0 <= unsent && Total() <= MAX_WINDOW }

    /** What inflow.add asks of its caller: it panics otherwise. */
    predicate CanCredit(n: int) { 0 <= n && Total() + n <= MAX_WINDOW }

    /** Credit is held back while it is both small and smaller than the announced window. */
    predicate HoldsBack() { unsent < INFLOW_MIN_REFRESH && unsent < avail }

    /** inflow.add: the window after crediting n bytes, and the WINDOW_UPDATE increment to send (0 for none). */
    function Credit(n: int): (Window, int) {
      var w := Window(avail, unsent + n);
      if w.HoldsBack() then (w, 0) else (Window(w.Total(), 0), w.unsent)
    }

    /** inflow.take, once the n bytes are known to fit. */
    function Debit(n: int): Window { Window(avail - n, unsent) }
  }

  /** A WINDOW_UPDATE carries at least 4096 bytes, or as many as the peer has left; until then credit waits. */
  lemma CreditIsBatched(w: Window, n: nat)
    requires w.Ok() && w.CanCredit(n)
    ensures var (w', inc) := w.Credit(n);
      w'.Total() == w.Total() + n && w'.avail == w.avail + inc
      && if inc == 0 then w'.unsent < 4096 && w'.unsent <= w'.avail
         else w'.unsent == 0 && (inc >= 4096 || inc >= w.avail)
  {
  }

  class Inflow {
    var avail: int32
    var unsent: int32

    ghost function View(): Window
      reads this
    {
      Window(avail as int, unsent as int)
    }

    constructor ()
      ensures View() == Window(0, 0)
    {
      avail, unsent := 0, 0;
    }

    method Init(n: int32)
      modifies this
      ensures View() == Window(n as int, old(unsent) as int)
    {
      avail := n;
    }

    method Add(n: int) returns (connAdd: int32)
      requires View().Ok() && View().CanCredit(n)
      modifies this
      ensures (View(), connAdd as int) == old(View()).Credit(n)
      ensures View().Ok() && 0 <= connAdd
    {
      unsent := (unsent as int + n) as int32;
      if unsent as int < INFLOW_MIN_REFRESH && unsent < avail {
        return 0;
      }
      connAdd := unsent;
      avail := Wrap32(avail as int + unsent as int);
      unsent := 0;
    }

    method Take(n: nat) returns (ok: bool)
      requires View().Ok() && n < TWO_32
      modifies this
      ensures ok <==> n <= old(View()).avail
      ensures View() == if ok then old(View()).Debit(n) else old(View())
      ensures View().Ok()
    {
      if n > AsUint32(avail) {
        return false;
      }
      avail := Wrap32(avail as int - n);
      return true;
    }
  }

  method TakeInflows(f1: Inflow, f2: Inflow, n: nat) returns (ok: bool)
    requires f1 != f2 && f1.View().Ok() && f2.View().Ok() && n < TWO_32
    modifies f1, f2
    ensures ok <==> n <= old(f1.View()).avail && n <= old(f2.View()).avail
    ensures f1.View() == if ok then old(f1.View()).Debit(n) else old(f1.View())
    ensures f2.View() == if ok then old(f2.View()).Debit(n) else old(f2.View())
    ensures f1.View().Ok() && f2.View().Ok()
  {
    if n > AsUint32(f1.avail) || n > AsUint32(f2.avail) {
      return false;
    }
    f1.avail := Wrap32(f1.avail as int - n);
    f2.avail := Wrap32(f2.avail as int - n);
    return true;
  }

  /** The test outflow.add makes on the wrapped sum. */
  predicate SumLooksRight(window: int32, n: int32) {
    var sum := Wrap32(window as int + n as int);
    (sum > n) == (window > 0)
  }

  /** That test accepts exactly the sums that fit an int32, and then the wrapped sum is the true one. */
  lemma {:induction false} SumLooksRightIffFits(window: int32, n: int32)
    ensures SumLooksRight(window, n) <==> -TWO_31 <= window as int + n as int <= MAX_INT32
    ensures SumLooksRight(window, n) ==> Wrap32(window as int + n as int) as int == window as int + n as int
  {
    var s := window as int + n as int;
    assert s > MAX_INT32 ==> (s + TWO_31) % TWO_32 == s + TWO_31 - TWO_32;
    assert s < -TWO_31 ==> (s + TWO_31) % TWO_32 == s + TWO_31 + TWO_32;
  }

  class Outflow {
    var n: int32
    var conn: Outflow?

    constructor ()
      ensures n == 0 && conn == null
    {
      n, conn := 0, null;
    }

    method SetConnFlow(cf: Outflow)
      modifies this
      ensures conn == cf && n == old(n)
    {
      conn := cf;
    }

    function Available(): (a: int32)
      reads this, conn
      ensures a <= n && (conn != null ==> a <= conn.n)
      ensures a == n || (conn != null && a == conn.n)
    {
      if conn != null && conn.n < n then conn.n else n
    }

    method Take(k: int32)
      requires conn != this
      requires k <= Available() && 0 <= k
      modifies this, conn
      ensures n as int == old(n) as int - k as int && conn == old(conn)
      ensures conn != null ==> conn.n as int == old(conn.n) as int - k as int && conn.conn == old(conn.conn)
    {
      n := Wrap32(n as int - k as int);
      if conn != null {
        conn.n := Wrap32(conn.n as int - k as int);
      }
    }

    method Add(k: int32) returns (ok: bool)
      modifies this
      ensures ok <==> -TWO_31 <= old(n) as int + k as int <= MAX_INT32
      ensures n as int == if ok then old(n) as int + k as int else old(n) as int
      ensures conn == old(conn)
    {
      SumLooksRightIffFits(n, k);
      var sum := Wrap32(n as int + k as int);
      if (sum > k) == (n > 0) {
        n := sum;
        return true;
      }
      return false;
    }
  }
}
