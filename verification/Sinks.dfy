/** Where the modelled writers write to. */
module Sinks {
  import opened MachineInts
  import opened Wrappers

  /** An io.Writer. One that conforms to its contract reports every write it cuts short. */
  class Sink {
    var out: seq<byte>
    const conforms: bool

    constructor (conforms: bool)
      ensures out == [] && this.conforms == conforms
    {
      out, this.conforms := [], conforms;
    }

    method Write(p: seq<byte>) returns (n: nat, err: Option<IOError>)
      modifies this
      ensures n <= |p| && out == old(out) + p[..n]
      ensures conforms && n < |p| ==> err.Some?
    {
      n :| 0 <= n <= |p|;
      out := out + p[..n];
      var failed: bool := *;
      err := if failed || (conforms && n < |p|) then Some(Other(0)) else None;
    }
  }
}
