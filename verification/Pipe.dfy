/** The response-body pipe: a byte queue with two ways to close it (internal/http2/pipe.go). */
module Pipe {
  import opened MachineInts
  import opened Wrappers
  import opened DataBuffer

  const CLOSED_PIPE_WRITE := Other(1)
  const UNINITIALIZED_PIPE_WRITE := Other(2)

  /** The value of a pipe. `unread` is what was still buffered when the pipe was broken. */
  datatype PipeState =
    PipeState(buf: Option<seq<byte>>, unread: nat, err: Option<IOError>, breakErr: Option<IOError>, readFn: bool)
  {

    predicate Closed() { err.Some? || breakErr.Some? }

    function Len(): nat {
      if buf.Some? then |buf.value| else unread
    }

    function SetBuffer(): PipeState {
      if Closed() then this else this.(buf := Some([]))
    }

    function Write(d: seq<byte>): (PipeState, Result<nat, IOError>) {
      if Closed() then (this, Err(CLOSED_PIPE_WRITE))
      else if buf.None? then (this, Err(UNINITIALIZED_PIPE_WRITE))
      else (this.(buf := Some(buf.value + d)), Ok(|d|))
    }

    /** Whether Read returns at once; otherwise it waits for a writer or a closer. */
    predicate Readable() { Closed() || (buf.Some? && buf.value != []) }

    /** Read into a slice of length max: the state after, the bytes, the error, and whether readFn ran. */
    function Read(max: nat): (PipeState, seq<byte>, Option<IOError>, bool)
      requires Readable()
    {
      if breakErr.Some? then (this, [], breakErr, false)
      else if buf.Some? && buf.value != [] then
        var n := Min(max, |buf.value|);
        (this.(buf := Some(buf.value[n..])), buf.value[..n], None, false)
      else (this.(buf := None, readFn := false), [], err, readFn)
    }

    /** CloseWithError and closeWithErrorAndCode. */
    function Close(e: IOError, fn: bool): PipeState {
      if err.Some? then this else this.(err := Some(e), readFn := fn)
    }

    /** BreakWithError. */
    function Break(e: IOError): PipeState {
      if breakErr.Some? then this
      else if buf.Some? then PipeState(None, unread + |buf.value|, err, Some(e), false)
      else this.(breakErr := Some(e), readFn := false)
    }
  }

  const NEW_PIPE := PipeState(None, 0, None, None, false)

  class Pipe {
    var b: DataBuffer?
    var unread: nat
    var err: Option<IOError>
    var breakErr: Option<IOError>
    var readFn: bool

    ghost function Chunks(): set<array<byte>>
      reads this, b
    {
      if b == null then {} else set c <- b.chunks
    }

    ghost predicate Valid()
      reads this, b, Chunks()
    {
      b != null ==> b.Valid()
    }

    ghost function View(): PipeState
      requires Valid()
      reads this, b, Chunks()
    {
      PipeState(if b == null then None else Some(b.Contents()), unread, err, breakErr, readFn)
    }

    constructor ()
      ensures Valid() && View() == NEW_PIPE
    {
      b, unread, err, breakErr, readFn := null, 0, None, None, false;
    }

    method SetBuffer(buffer: DataBuffer)
      requires Valid() && buffer.Valid() && buffer.Contents() == []
      modifies this
      ensures Valid() && View() == old(View()).SetBuffer()
    {
      if err.Some? || breakErr.Some? {
        return;
      }
      b := buffer;
    }

    method Len() returns (n: nat)
      requires Valid()
      ensures n == View().Len()
    {
      if b == null {
        return unread;
      }
      return b.Len();
    }

    method Read(d: array<byte>) returns (n: nat, e: Option<IOError>, ran: bool)
      requires Valid() && View().Readable() && d !in Chunks()
      modifies this, b, d
      ensures Valid() && n <= d.Length && d[n..] == old(d[n..])
      ensures (View(), d[..n], e, ran) == old(View()).Read(d.Length)
    {
      if breakErr.Some? {
        return 0, breakErr, false;
      }
      if b != null && b.Len() > 0 {
        n, e := b.Read(d);
        return n, e, false;
      }
      ran := readFn;
      readFn := false;
      b := null;
      return 0, err, ran;
    }

    method Write(d: seq<byte>) returns (r: Result<nat, IOError>)
      requires Valid()
      modifies this, b, Chunks()
      ensures Valid() && (View(), r) == old(View()).Write(d)
    {
      if err.Some? || breakErr.Some? {
        return Err(CLOSED_PIPE_WRITE);
      }
      if b == null {
        return Err(UNINITIALIZED_PIPE_WRITE);
      }
      var n := b.Write(d);
      return Ok(n);
    }

    method CloseWithErrorAndCode(e: IOError, fn: bool)
      requires Valid()
      modifies this
      ensures Valid() && View() == old(View()).Close(e, fn)
    {
      if err.Some? {
        return;
      }
      readFn := fn;
      err := Some(e);
    }

    method BreakWithError(e: IOError)
      requires Valid()
      modifies this
      ensures Valid() && View() == old(View()).Break(e)
    {
      if breakErr.Some? {
        return;
      }
      readFn := false;
      if b != null {
        var len := b.Len();
        unread := unread + len;
      }
      b := null;
      breakErr := Some(e);
    }
  }

  // ------------------------------------------------------------ whole runs

  datatype PipeOp =
    | SetBuffer
    | Write(d: seq<byte>)
    | Read(max: nat)
    | Close(e: IOError, fn: bool)
    | Break(e: IOError)

  /** A pipe together with every byte it has accepted and delivered, and how often its readFn ran. */
  datatype Run = Run(p: PipeState, accepted: seq<byte>, delivered: seq<byte>, fnRuns: nat)

  const START := Run(NEW_PIPE, [], [], 0)

  /** One operation; a Read that would wait does not happen. */
  function Step(s: Run, op: PipeOp): Run {
    match op
    case SetBuffer => s.(p := s.p.SetBuffer())
    case Write(d) =>
      var (p', r) := s.p.Write(d);
      if r.Ok? then s.(p := p', accepted := s.accepted + d) else s.(p := p')
    case Read(max) =>
      if !s.p.Readable() then s
      else
        var (p', bytes, _, ran) := s.p.Read(max);
        s.(p := p', delivered := s.delivered + bytes, fnRuns := s.fnRuns + if ran then 1 else 0)
    case Close(e, fn) => s.(p := s.p.Close(e, fn))
    case Break(e) => s.(p := s.p.Break(e))
  }

  function Exec(s: Run, ops: seq<PipeOp>): Run
    decreases |ops|
  {
    if ops == [] then s else Exec(Step(s, ops[0]), ops[1..])
  }

  /** The transport installs the buffer once: replacing a buffer would drop what it holds. */
  predicate InstallsOnce(ops: seq<PipeOp>) {
    forall i, j :: 0 <= i < j < |ops| ==> !(ops[i].SetBuffer? && ops[j].SetBuffer?)
  }

  ghost predicate Inv(s: Run) {
    && |s.accepted| - |s.delivered| == s.p.Len()
    && s.delivered <= s.accepted
    && (s.p.buf.Some? ==> s.accepted == s.delivered + s.p.buf.value)
    && (s.p.buf.None? && s.p.breakErr.None? ==> s.p.unread == 0)
    && (s.p.breakErr.Some? ==> s.p.buf.None?)
    && (s.p.buf.Some? ==> s.p.unread == 0)
    && (s.p.readFn ==> s.p.err.Some? && s.fnRuns == 0)
    && (s.p.err.None? ==> s.fnRuns == 0)
    && s.fnRuns <= 1
  }

  /** Until its buffer is installed, an open pipe has accepted nothing. */
  ghost predicate Fresh(s: Run) {
    s.p.buf.None? && s.accepted == []
  }

  lemma {:induction false} StepKeepsInv(s: Run, op: PipeOp)
    requires Inv(s) && (op.SetBuffer? ==> Fresh(s) || s.p.Closed())
    ensures Inv(Step(s, op))
    ensures !op.SetBuffer? && Fresh(s) ==> Fresh(Step(s, op))
    ensures s.p.Closed() ==> Step(s, op).p.Closed()
    ensures s.p.buf.Some? || s.p.Closed() ==> Step(s, op).p.buf.Some? || Step(s, op).p.Closed()
  {
  }

  /** Delivered bytes are a prefix of the accepted ones and Len is the difference, after any operations. */
  lemma {:induction false} DeliveredIsPrefix(s: Run, ops: seq<PipeOp>)
    requires Inv(s) && InstallsOnce(ops) && (Fresh(s) || forall i :: 0 <= i < |ops| ==> !ops[i].SetBuffer?)
    ensures Inv(Exec(s, ops))
    ensures Exec(s, ops).delivered <= Exec(s, ops).accepted
    ensures Exec(s, ops).p.Len() == |Exec(s, ops).accepted| - |Exec(s, ops).delivered|
    decreases |ops|
  {
    if ops != [] {
      StepKeepsInv(s, ops[0]);
      assert ops[0].SetBuffer? ==> forall i :: 0 < i < |ops| ==> !ops[i].SetBuffer?;
      DeliveredIsPrefix(Step(s, ops[0]), ops[1..]);
    }
  }

  /** CloseWithError: a reader that sees the error has been given every accepted byte first. */
  lemma CloseDeliversEverythingFirst(ops: seq<PipeOp>, max: nat)
    requires InstallsOnce(ops)
    requires var s := Exec(START, ops); s.p.Readable() && s.p.breakErr.None? && s.p.Read(max).2.Some?
    ensures var s := Exec(START, ops); s.p.Read(max).2 == s.p.err && s.delivered == s.accepted
  {
    DeliveredIsPrefix(START, ops);
  }

  /** Closed for writing: nothing more is accepted, so the byte stream the reader sees is final. */
  lemma {:induction false} ClosedAcceptsNothing(s: Run, ops: seq<PipeOp>)
    requires s.p.Closed()
    ensures Exec(s, ops).accepted == s.accepted && Exec(s, ops).p.Closed()
    ensures s.p.err.Some? ==> Exec(s, ops).p.err == s.p.err
    decreases |ops|
  {
    if ops != [] {
      ClosedAcceptsNothing(Step(s, ops[0]), ops[1..]);
    }
  }

  /** BreakWithError: from then on no byte is delivered, whatever was buffered, and Len stays what it was. */
  lemma {:induction false} BreakDeliversNothing(s: Run, ops: seq<PipeOp>)
    requires Inv(s) && s.p.breakErr.Some?
    ensures Exec(s, ops).delivered == s.delivered && Exec(s, ops).accepted == s.accepted
    ensures Exec(s, ops).p.breakErr == s.p.breakErr && Exec(s, ops).p.Len() == s.p.Len()
    decreases |ops|
  {
    if ops != [] {
      StepKeepsInv(s, ops[0]);
      BreakDeliversNothing(Step(s, ops[0]), ops[1..]);
    }
  }

  /** Draining: after CloseWithError, enough reads of at least one byte reach the error. */
  lemma {:induction false} ReadsDrain(s: Run, drain: seq<PipeOp>)
    requires Inv(s) && s.p.err.Some? && s.p.breakErr.None?
    requires |drain| >= s.p.Len() && forall i :: 0 <= i < |drain| ==> drain[i].Read? && drain[i].max > 0
    ensures Exec(s, drain).delivered == s.accepted
    decreases |drain|
  {
    if s.p.Len() == 0 {
      assert s.delivered == s.accepted;
      ClosedAcceptsNothing(s, drain);
      assert InstallsOnce(drain);
      DeliveredIsPrefix(s, drain);
      DeliveredOnlyGrows(s, drain);
    } else {
      StepKeepsInv(s, drain[0]);
      assert Step(s, drain[0]).p.Len() < s.p.Len();
      ReadsDrain(Step(s, drain[0]), drain[1..]);
    }
  }

  lemma {:induction false} DeliveredOnlyGrows(s: Run, ops: seq<PipeOp>)
    ensures s.delivered <= Exec(s, ops).delivered
    decreases |ops|
  {
    if ops != [] {
      DeliveredOnlyGrows(Step(s, ops[0]), ops[1..]);
    }
  }
}
