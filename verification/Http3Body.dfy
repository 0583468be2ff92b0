/**
 * What the body of an HTTP/3 message delivers (internal/http3/http_stream.go, internal/http3/body.go;
 * sections 4.1 and 4.1.2 of RFC 9114), on the client's side.
 */
module Http3Body {
  import opened MachineInts
  import opened Wrappers
  import opened Varint
  import opened Http3Frames

  /** How the peer's stream ends, and what the decoder of trailers accepts. */
  datatype Peer = Peer(end: IOError, maxHeaderBytes: nat, decodes: seq<byte> -> bool)

  /** The DATA payloads, the error after them, and whether that error cut a DATA frame short. */
  datatype Delivery = Delivery(data: seq<byte>, err: Http3Error, truncated: bool)

  function Behind(data: seq<byte>, d: Delivery): Delivery { d.(data := data + d.data) }

  /** decodeTrailers: the error, if any, and the input after the block. */
  function ReadTrailers(input: seq<byte>, l: nat, peer: Peer): (r: (Option<Http3Error>, seq<byte>))
    ensures |r.1| <= |input| && r.0 != Some(TooMuchData)
  {
    if l > peer.maxHeaderBytes then (Some(BadTrailers), input)
    else if |input| < l then (Some(IO(if input == [] then peer.end else Unexpected(peer.end))), [])
    else (if peer.decodes(input[..l]) then None else Some(BadTrailers), input[l..])
  }

  /** All that a stream has to deliver, with n bytes to go in its current DATA frame. */
  function Demux(n: nat, trailer: bool, input: seq<byte>, peer: Peer): (d: Delivery)
    ensures d.err != TooMuchData
    decreases |input|, 1
  {
    if n == 0 then DemuxFrame(trailer, input, peer)
    else if |input| < n then Delivery(input, IO(peer.end), true)
    else Behind(input[..n], DemuxFrame(trailer, input[n..], peer))
  }

  /** And from between two frames. */
  function DemuxFrame(trailer: bool, input: seq<byte>, peer: Peer): (d: Delivery)
    ensures d.err != TooMuchData
    decreases |input|, 0
  {
    match NextFrame(input, peer.end)
    case (Err(e), _) => Delivery([], e, false)
    case (Ok(DataFrame(l)), rest) =>
      if trailer then Delivery([], DataAfterTrailers, false) else Demux(l, false, rest, peer)
    case (Ok(HeadersFrame(l)), rest) =>
      if trailer then Delivery([], HeadersAfterTrailers, false)
      else
        (match ReadTrailers(rest, l, peer)
         case (Some(e), _) => Delivery([], e, false)
         case (None, rest') => DemuxFrame(true, rest', peer))
    case (Ok(SettingsFrame(_)), rest) => Delivery([], UnexpectedFrame, false)
  }

  lemma Pieces(n: nat, m: nat, input: seq<byte>, d: Delivery)
    requires m <= n <= |input|
    ensures Behind(input[..n], d) == Behind(input[..m], Behind(input[m..][..n - m], d))
    ensures input[m..][n - m..] == input[n..]
  {
    assert input[..n] + d.data == input[..m] + (input[m..][..n - m] + d.data);
  }

  /** Reading the frame in two pieces delivers the same. */
  lemma {:induction false} DemuxSplits(n: nat, m: nat, trailer: bool, input: seq<byte>, peer: Peer)
    requires 0 < m <= n && m <= |input|
    ensures Demux(n, trailer, input, peer) == Behind(input[..m], Demux(n - m, trailer, input[m..], peer))
  {
    if |input| < n {
      assert input == input[..m] + input[m..];
    } else if m < n {
      Pieces(n, m, input, DemuxFrame(trailer, input[n..], peer));
    }
  }

  lemma EmptyDemux(trailer: bool, peer: Peer)
    ensures DemuxFrame(trailer, [], peer) == Delivery([], IO(peer.end), false)
  {
    assert ReadFrom([], peer.end) == (Err(peer.end), []);
  }

  lemma TrailersRead(block: seq<byte>, rest: seq<byte>, peer: Peer)
    ensures var (e, left) := ReadTrailers(block + rest, |block|, peer);
      if |block| > peer.maxHeaderBytes || !peer.decodes(block) then e == Some(BadTrailers)
      else e == None && left == rest
  {
    assert (block + rest)[..|block|] == block && (block + rest)[|block|..] == rest;
  }

  // ------------------------------------------------------------ the Content-Length bound

  predicate Exceeds(d: Delivery, limit: nat) { |d.data| > limit || (|d.data| == limit && d.truncated) }

  /** What the body delivers when that much is still expected. */
  function Cut(d: Delivery, limit: nat): Delivery {
    if Exceeds(d, limit) then Delivery(d.data[..limit], TooMuchData, false) else d
  }
}
