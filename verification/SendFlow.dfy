/**
 * Send-side flow control of an HTTP/2 client connection (internal/http2/transport.go;
 * sections 6.9.1 and 6.9.2 of RFC 7540): the stream windows, the connection window above them,
 * and the peer's WINDOW_UPDATE and SETTINGS_INITIAL_WINDOW_SIZE.
 */
module SendFlow {
  import opened MachineInts

  const SPEC_INITIAL_WINDOW := 65535

  /** `aborted` are the streams of the table whose reading was aborted: streamByID does not find them. */
  datatype Sender = Sender(conn: int, initial: int, maxFrame: int, streams: map<nat, int>, aborted: set<nat>) {
    /** streamByID. */
    predicate Finds(id: nat) { id in streams && id !in aborted }

    function Available(id: nat): int
      requires id in streams
    {
      Min(streams[id], conn)
    }

    /** What awaitFlowControl takes once some window is open. */
    function Grant(id: nat, maxBytes: nat): int
      requires id in streams
    {
      Min(Min(Available(id), maxBytes), maxFrame)
    }
  }

  predicate Fits(n: int) { -TWO_31 <= n <= MAX_INT32 }

  /** outflow.add: a sum that does not fit leaves the window alone. */
  function AddTo(n: int, k: int): int { if Fits(n + k) then n + k else n }

  /** Every window moved by delta, as far as the sums fit. */
  function Moved(streams: map<nat, int>, delta: int): (r: map<nat, int>)
    ensures r.Keys == streams.Keys && forall id <- streams :: r[id] == AddTo(streams[id], delta)
  {
    map id | id in streams :: if id in streams then AddTo(streams[id], delta) else 0
  }

  datatype Event =
    | Add(id: nat)
    | Take(id: nat, maxBytes: nat)
    | InitialWindow(v: nat)
    | MaxFrameSize(v: nat)
    | Update(id: nat, inc: nat)
    | AbortRead(id: nat)
    | Forget(id: nat)

  /** A stream error ends the reading of its stream, and no more. */
  datatype Outcome = Next(s: Sender) | StreamFlowError(s: Sender) | ConnFlowError

  /**
   * The guards of the source's callers; increments come from the parser, maxFrameSize from a peer within
   * section 6.5.2.
   */
  predicate Enabled(s: Sender, e: Event) {
    match e
    case Add(id) => id != 0 && id !in s.streams
    case Take(id, maxBytes) => id in s.streams && maxBytes > 0 && s.Available(id) > 0
    case InitialWindow(v) => v < TWO_32
    case MaxFrameSize(v) => 0 < v <= 0xff_ffff
    case Update(_, inc) => 1 <= inc <= MAX_INT32
    case AbortRead(id) => s.Finds(id)
    case Forget(id) => id in s.streams
  }

  function Do(s: Sender, e: Event): Outcome
    requires Enabled(s, e)
  {
    match e
    case Add(id) => Next(s.(streams := s.streams[id := AddTo(0, s.initial)]))
    case Take(id, maxBytes) =>
      var k := s.Grant(id, maxBytes);
      Next(s.(conn := s.conn - k, streams := s.streams[id := s.streams[id] - k]))
    case InitialWindow(v) =>
      if v > MAX_INT32 then ConnFlowError
      else Next(s.(initial := v, streams := Moved(s.streams, v - s.initial)))
    case MaxFrameSize(v) => Next(s.(maxFrame := v))
    case Update(id, inc) =>
      if id == 0 then if Fits(s.conn + inc) then Next(s.(conn := s.conn + inc)) else ConnFlowError
      else if !s.Finds(id) then Next(s)
      else if Fits(s.streams[id] + inc) then Next(s.(streams := s.streams[id := s.streams[id] + inc]))
      else StreamFlowError(s.(aborted := s.aborted + {id}))
    case AbortRead(id) => Next(s.(aborted := s.aborted + {id}))
    case Forget(id) => Next(s.(streams := s.streams - {id}, aborted := s.aborted - {id}))
  }

  // ------------------------------------------------------------ accounts

  /** Per stream: increments accepted, bytes taken, and window changes refused as too large. */
  datatype Ledger = Ledger(granted: nat, taken: nat, refused: nat)

  const EMPTY_LEDGER := Ledger(0, 0, 0)

  datatype Account = Account(s: Sender, connGranted: nat, connTaken: nat, books: map<nat, Ledger>)

  /** newClientConn. */
  const START := Account(Sender(SPEC_INITIAL_WINDOW, SPEC_INITIAL_WINDOW, 16384, map[], {}), 0, 0, map[])

  /** What SETTINGS would have added to each stream but could not. */
  function Refused(books: map<nat, Ledger>, streams: map<nat, int>, delta: int): (r: map<nat, Ledger>)
    requires books.Keys == streams.Keys
    ensures r.Keys == books.Keys
    ensures forall id <- books :: r[id] == books[id].(refused := books[id].refused + Missed(streams[id], delta))
  {
    map id | id in books ::
      if id in books then books[id].(refused := books[id].refused + Missed(streams[id], delta)) else EMPTY_LEDGER
  }

  function Missed(n: int, delta: int): nat {
    var missed := n + delta - AddTo(n, delta);
    if missed > 0 then missed else 0
  }

  function Book(a: Account, e: Event): Account
    requires Enabled(a.s, e) && a.books.Keys == a.s.streams.Keys
    ensures Book(a, e).books.Keys == Book(a, e).s.streams.Keys
  {
    match Do(a.s, e)
    case ConnFlowError => a
    case StreamFlowError(s') => a.(s := s')
    case Next(s') =>
      match e
      case Add(id) => a.(s := s', books := a.books[id := EMPTY_LEDGER])
      case Take(id, maxBytes) =>
        var k := a.s.Grant(id, maxBytes);
        var paid := if k > 0 then k else 0;
        a.(s := s', connTaken := a.connTaken + paid,
           books := a.books[id := a.books[id].(taken := a.books[id].taken + paid)])
      case InitialWindow(v) =>
        a.(s := s', books := Refused(a.books, a.s.streams, v - a.s.initial))
      case MaxFrameSize(_) => a.(s := s')
      case Update(id, inc) =>
        if id == 0 then a.(s := s', connGranted := a.connGranted + inc)
        else if a.s.Finds(id) then
          a.(s := s', books := a.books[id := a.books[id].(granted := a.books[id].granted + inc)])
        else a
      case AbortRead(_) => a.(s := s')
      case Forget(id) => a.(s := s', books := a.books - {id})
  }

  ghost predicate StreamInv(s: Sender, n: int, l: Ledger) {
    && n == s.initial + l.granted - l.taken - l.refused
    && s.initial - MAX_INT32 <= n <= MAX_INT32
  }

  ghost predicate Inv(a: Account) {
    && a.books.Keys == a.s.streams.Keys
    && 0 <= a.s.initial <= MAX_INT32 && 0 < a.s.maxFrame
    && a.s.conn == SPEC_INITIAL_WINDOW + a.connGranted - a.connTaken && 0 <= a.s.conn <= MAX_INT32
    && forall id <- a.s.streams :: StreamInv(a.s, a.s.streams[id], a.books[id])
  }

  function Run(a: Account, es: seq<Event>): (b: Account)
    requires a.books.Keys == a.s.streams.Keys
    ensures b.books.Keys == b.s.streams.Keys
    decreases |es|
  {
    if es == [] then a
    else if Enabled(a.s, es[0]) then Run(Book(a, es[0]), es[1..])
    else Run(a, es[1..])
  }

  lemma {:induction false} StepKeepsInv(a: Account, e: Event)
    requires Inv(a) && Enabled(a.s, e)
    ensures Inv(Book(a, e))
  {
    var b := Book(a, e);
    forall id | id in b.s.streams
      ensures StreamInv(b.s, b.s.streams[id], b.books[id])
    {
      if !e.Add? || id != e.id {
        assert StreamInv(a.s, a.s.streams[id], a.books[id]);
      }
    }
  }

  /**
   * The exact books, after any interleaving: a stream window is its initial size plus what was granted, minus
   * what was sent, minus the SETTINGS raises that did not fit; and it never falls to where a SETTINGS
   * change could underflow it.
   */
  lemma {:induction false} BooksBalance(a: Account, es: seq<Event>)
    requires Inv(a)
    ensures Inv(Run(a, es))
    decreases |es|
  {
    if es != [] {
      if Enabled(a.s, es[0]) {
        StepKeepsInv(a, es[0]);
        BooksBalance(Book(a, es[0]), es[1..]);
      } else {
        BooksBalance(a, es[1..]);
      }
    }
  }

  /** DATA never exceeds what the peer granted, on the stream and on the connection; and every take makes progress. */
  lemma TakesStayWithinGrants(es: seq<Event>, id: nat, maxBytes: nat)
    requires Enabled(Run(START, es).s, Take(id, maxBytes))
    ensures var a := Run(START, es); var b := Book(a, Take(id, maxBytes));
      && 0 < a.s.Grant(id, maxBytes) <= Min(maxBytes, a.s.maxFrame)
      && b.books[id].taken == a.books[id].taken + a.s.Grant(id, maxBytes)
      && b.books[id].taken + b.books[id].refused <= b.s.initial + b.books[id].granted
      && b.connTaken <= SPEC_INITIAL_WINDOW + b.connGranted
  {
    BooksBalance(START, es);
    var a := Run(START, es);
    assert StreamInv(a.s, a.s.streams[id], a.books[id]);
    StepKeepsInv(a, Take(id, maxBytes));
  }

  /** A SETTINGS change can be refused only for being too large, and reductions never are. */
  lemma SettingsNeverUnderflow(es: seq<Event>, id: nat, v: nat)
    requires var s := Run(START, es).s; id in s.streams && v <= MAX_INT32
    ensures var s := Run(START, es).s; s.streams[id] + v - s.initial >= -TWO_31
    ensures var s := Run(START, es).s;
      Fits(s.streams[id] + v - s.initial) <==> s.streams[id] + v - s.initial <= MAX_INT32
    ensures var s := Run(START, es).s; v <= s.initial ==>
      Do(s, InitialWindow(v)).Next? && Do(s, InitialWindow(v)).s.streams[id] == s.streams[id] + v - s.initial
  {
    BooksBalance(START, es);
    var a := Run(START, es);
    assert StreamInv(a.s, a.s.streams[id], a.books[id]);
  }

  /** The change of SETTINGS_INITIAL_WINDOW_SIZE reaches every stream. */
  predicate MovesAll(s: Sender, v: nat)
    requires v <= MAX_INT32
  {
    var o := Do(s, InitialWindow(v));
    o.Next? && forall id <- s.streams :: o.s.streams[id] == s.streams[id] + v - s.initial
  }

  /**
   * Main result on SETTINGS: every stream window moves by exactly the difference, as section 6.9.2 of RFC 7540
   * asks, if and only if no window would exceed 2^31-1; the code reports no error in the other case.
   */
  lemma SettingsMoveAllIff(es: seq<Event>, v: nat)
    requires v <= MAX_INT32
    ensures var s := Run(START, es).s;
      MovesAll(s, v) <==> forall id <- s.streams :: s.streams[id] + v - s.initial <= MAX_INT32
    ensures Do(Run(START, es).s, InitialWindow(v)).Next?
  {
    BooksBalance(START, es);
    var a := Run(START, es);
    assert forall id <- a.s.streams :: StreamInv(a.s, a.s.streams[id], a.books[id]);
    var o := Do(a.s, InitialWindow(v));
    assert forall id <- a.s.streams :: o.s.streams[id] == AddTo(a.s.streams[id], v - a.s.initial);
  }

  /** WINDOW_UPDATE is accepted exactly when the new window fits 31 bits; otherwise it is an error of the right kind. */
  lemma UpdateAcceptedIffFits(es: seq<Event>, id: nat, inc: nat)
    requires 1 <= inc <= MAX_INT32
    ensures var s := Run(START, es).s; var o := Do(s, Update(id, inc));
      if id == 0 then if s.conn + inc <= MAX_INT32 then o == Next(s.(conn := s.conn + inc)) else o == ConnFlowError
      else if !s.Finds(id) then o == Next(s)
      else if s.streams[id] + inc <= MAX_INT32 then o == Next(s.(streams := s.streams[id := s.streams[id] + inc]))
      else o.StreamFlowError? && o.s == s.(aborted := s.aborted + {id})
  {
    BooksBalance(START, es);
    var a := Run(START, es);
    if id in a.s.streams {
      assert StreamInv(a.s, a.s.streams[id], a.books[id]);
    }
  }

  /**
   * A run that shows the other case: a stream is granted all it can hold, and then SETTINGS raise the initial
   * size by k. Its window stays, where section 6.9.2 asks for an error.
   */
  lemma OverflowingSettingsAreIgnored(id: nat, k: nat)
    requires id != 0 && 0 < k <= MAX_INT32 - SPEC_INITIAL_WINDOW
    ensures var s := Run(START, [Add(id), Update(id, MAX_INT32 - SPEC_INITIAL_WINDOW)]).s;
      var o := Do(s, InitialWindow(SPEC_INITIAL_WINDOW + k));
      s.streams.Keys == {id} && s.streams[id] == MAX_INT32
      && o.Next? && o.s.streams[id] == MAX_INT32 && !MovesAll(s, SPEC_INITIAL_WINDOW + k)
  {
    var es := [Add(id), Update(id, MAX_INT32 - SPEC_INITIAL_WINDOW)];
    assert es[1..] == [Update(id, MAX_INT32 - SPEC_INITIAL_WINDOW)] && es[1..][1..] == [];
    var a1 := Book(START, es[0]);
    var a2 := Book(a1, es[1]);
    assert Run(a1, es[1..]) == Run(a2, es[1..][1..]) == a2;
    assert Run(START, es) == a2;
  }

  // ------------------------------------------------------------ what the server said

  /** SETTINGS_INITIAL_WINDOW_SIZE and SETTINGS_MAX_FRAME_SIZE as the server last named them. */
  function LastInitial(es: seq<Event>, v: int): int {
    if es == [] then v
    else LastInitial(es[1..], if es[0].InitialWindow? && es[0].v <= 0x7fff_ffff then es[0].v else v)
  }

  function LastMaxFrame(es: seq<Event>, v: int): int {
    if es == [] then v
    else LastMaxFrame(es[1..], if es[0].MaxFrameSize? && 0 < es[0].v <= 0xff_ffff then es[0].v else v)
  }

  /** In every run the sizes in force are those the server named last, and it starts with those of the standard. */
  lemma {:induction false} SizesAreTheServers(a: Account, es: seq<Event>)
    requires a.books.Keys == a.s.streams.Keys
    requires forall i :: 0 <= i < |es| ==> es[i].InitialWindow? ==> es[i].v < TWO_32
    ensures Run(a, es).s.initial == LastInitial(es, a.s.initial)
    ensures Run(a, es).s.maxFrame == LastMaxFrame(es, a.s.maxFrame)
    ensures START.s.initial == START.s.conn == 65535 && START.s.maxFrame == 16384
    decreases |es|
  {
    if es != [] {
      if Enabled(a.s, es[0]) {
        SizesAreTheServers(Book(a, es[0]), es[1..]);
      } else {
        SizesAreTheServers(a, es[1..]);
      }
    }
  }

  /** A size that no window can have is an error. */
  lemma LargeInitialWindowIsRefused(s: Sender, v: nat)
    requires v < TWO_32
    ensures Do(s, InitialWindow(v)) == ConnFlowError <==> v > 0x7fff_ffff
  {
  }

  /** A take is as large as it may be: one byte more exceeds what was asked for, a window, or the frame size. */
  lemma GrantIsLargest(s: Sender, id: nat, maxBytes: nat)
    requires Enabled(s, Take(id, maxBytes))
    ensures var k := s.Grant(id, maxBytes);
      k <= maxBytes && k <= s.streams[id] && k <= s.conn && k <= s.maxFrame
      && (k + 1 > maxBytes || k + 1 > s.streams[id] || k + 1 > s.conn || k + 1 > s.maxFrame)
  {
  }

  /** Each step leaves the streams it does not name, and only adding and forgetting change which there are. */
  lemma TableFollows(s: Sender, e: Event)
    requires Enabled(s, e) && Do(s, e).Next?
    ensures var s' := Do(s, e).s;
      s'.streams.Keys == (if e.Add? then s.streams.Keys + {e.id} else if e.Forget? then s.streams.Keys - {e.id}
                          else s.streams.Keys)
      && s'.aborted == (if e.AbortRead? then s.aborted + {e.id} else if e.Forget? then s.aborted - {e.id}
                        else s.aborted)
      && forall id :: id in s.streams && id in s'.streams && !e.InitialWindow? ==>
           s'.streams[id] == s.streams[id] || ((e.Take? || e.Update?) && id == e.id)
  {
    if e.Forget? {
      assert (s.streams - {e.id}).Keys == s.streams.Keys - {e.id};
    }
  }
}
