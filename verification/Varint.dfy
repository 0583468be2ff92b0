/** Variable-length integers (internal/quic-go/quicvarint/varint.go; section 16 of RFC 9000). */
module Varint {
  import opened MachineInts
  import opened Wrappers

  const MAX_1 := 63
  const MAX_2 := 16383
  const MAX_4 := 1073741823
  const MAX_8 := 4611686018427387903

  function Pow256(n: nat): nat { if n == 0 then 1 else 256 * Pow256(n - 1) }

  /** The big-endian number. */
  function Number(b: seq<byte>): nat {
    if b == [] then 0 else Number(b[..|b| - 1]) * 256 + b[|b| - 1] as nat
  }

  /** The low n bytes of v, most significant first. */
  function Bytes(v: nat, n: nat): (b: seq<byte>)
    ensures |b| == n
  {
    if n == 0 then [] else Bytes(Shr8(v), n - 1) + [B(v)]
  }

  lemma {:induction false} NumberOfBytes(v: nat, n: nat)
    requires v < Pow256(n)
    ensures Number(Bytes(v, n)) == v
  {
    if n > 0 {
      NumberOfBytes(Shr8(v), n - 1);
      assert Bytes(v, n)[..n - 1] == Bytes(Shr8(v), n - 1);
    }
  }

  predicate LegalLength(l: nat) { l == 1 || l == 2 || l == 4 || l == 8 }

  /** The two top bits of the first byte. */
  function Tag(l: nat): nat
    requires LegalLength(l)
  {
    if l == 1 then 0 else if l == 2 then 1 else if l == 4 then 2 else 3
  }

  function LengthOf(first: byte): (l: nat)
    ensures LegalLength(l)
  {
    var t := first as nat / 64;
    if t == 0 then 1 else if t == 1 then 2 else if t == 2 then 4 else 8
  }

  function MaxOf(l: nat): nat
    requires LegalLength(l)
  {
    if l == 1 then MAX_1 else if l == 2 then MAX_2 else if l == 4 then MAX_4 else MAX_8
  }

  function Len(i: nat): (l: nat)
    requires i <= MAX_8
    ensures LegalLength(l) && i <= MaxOf(l) && (forall k :: LegalLength(k) && i <= MaxOf(k) ==> l <= k)
  {
    if i <= MAX_1 then 1 else if i <= MAX_2 then 2 else if i <= MAX_4 then 4 else 8
  }

  /** The first byte of the l low bytes of i is below 64. */
  lemma TopBitsFree(i: nat, l: nat)
    requires LegalLength(l) && i <= MaxOf(l)
    ensures i < Pow256(l) && Bytes(i, l)[0] < 64
  {
    var i1 := Shr8(i);
    var i2 := Shr8(i1);
    var i3 := Shr8(i2);
    var i4 := Shr8(i3);
    var i5 := Shr8(i4);
    var i6 := Shr8(i5);
    var i7 := Shr8(i6);
    if l == 1 {
      assert Bytes(i, 1) == [B(i)];
      assert Pow256(1) == 256;
    } else if l == 2 {
      assert Bytes(i, 2) == [B(i1), B(i)];
      assert Pow256(2) == 0x1_0000;
    } else if l == 4 {
      assert Bytes(i2, 2) == [B(i3), B(i2)];
      assert Bytes(i, 4) == Bytes(i2, 2) + [B(i1), B(i)];
      assert Pow256(2) == 0x1_0000;
      assert Pow256(4) == 0x1_0000_0000;
    } else {
      assert Bytes(i6, 2) == [B(i7), B(i6)];
      assert Bytes(i4, 4) == Bytes(i6, 2) + [B(i5), B(i4)];
      assert Bytes(i2, 6) == Bytes(i4, 4) + [B(i3), B(i2)];
      assert Bytes(i, 8) == Bytes(i2, 6) + [B(i1), B(i)];
      assert Pow256(2) == 0x1_0000;
      assert Pow256(4) == 0x1_0000_0000;
      assert Pow256(6) == 0x1_0000_0000_0000;
      assert Pow256(8) == 0x1_0000_0000_0000_0000;
    }
  }

  /** The encoding of i in l bytes. */
  function Enc(i: nat, l: nat): (b: seq<byte>)
    requires LegalLength(l) && i <= MaxOf(l)
    ensures |b| == l
  {
    TopBitsFree(i, l);
    Tagged(Bytes(i, l), l)
  }

  function Tagged(b: seq<byte>, l: nat): seq<byte>
    requires b != [] && b[0] < 64 && LegalLength(l)
  {
    [b[0] + (64 * Tag(l)) as byte] + b[1..]
  }

  /** Parse: the value and how many bytes it took. */
  function Parsed(b: seq<byte>): Result<(nat, nat), IOError> {
    if b == [] then Err(EOF)
    else
      var l := LengthOf(b[0]);
      if |b| < l then Err(UnexpectedEOF) else Ok((Number([b[0] % 64] + b[1..l]), l))
  }

  /** Main result: any legal encoding followed by anything parses back, and takes exactly its own bytes. */
  lemma ParseInvertsEnc(i: nat, l: nat, rest: seq<byte>)
    requires LegalLength(l) && i <= MaxOf(l)
    ensures Parsed(Enc(i, l) + rest) == Ok((i, l))
  {
    TopBitsFree(i, l);
    var b, e := Bytes(i, l), Enc(i, l);
    var input := e + rest;
    assert input[0] == e[0] && LengthOf(e[0]) == l && e[0] % 64 == b[0];
    assert [input[0] % 64] + input[1..l] == b;
    NumberOfBytes(i, l);
  }

  lemma {:induction false} BytesOfNumber(b: seq<byte>)
    ensures Bytes(Number(b), |b|) == b
  {
    if b != [] {
      var n := |b| - 1;
      BytesOfNumber(b[..n]);
      assert Shr8(Number(b)) == Number(b[..n]) && B(Number(b)) == b[n];
    }
  }

  lemma {:induction false} NumberBelow(b: seq<byte>)
    requires b != [] && b[0] < 64
    ensures Number(b) < 64 * Pow256(|b| - 1)
    decreases |b|
  {
    if |b| > 1 {
      NumberBelow(b[..|b| - 1]);
    } else {
      assert Number(b) == Number([]) * 256 + b[0] as nat;
    }
  }

  /** What parses is the encoding, in as many bytes, of the number it parses to. */
  lemma EncInvertsParse(b: seq<byte>)
    requires Parsed(b).Ok?
    ensures var (i, l) := Parsed(b).value;
      l == LengthOf(b[0]) <= |b| && LegalLength(l) && i <= MaxOf(l) && Enc(i, l) == b[..l]
  {
    var (i, l) := Parsed(b).value;
    var plain := [b[0] % 64] + b[1..l];
    NumberBelow(plain);
    BytesOfNumber(plain);
    assert Pow256(1) == 256 && Pow256(3) == 0x100_0000 && Pow256(7) == 0x100_0000_0000_0000;
    assert b[0] % 64 + (64 * Tag(l)) as byte == b[0];
    assert Bytes(i, l) == plain && Enc(i, l) == [b[0]] + b[1..l];
  }

  // ------------------------------------------------------------ the code

  method Append(b: seq<byte>, i: nat) returns (r: seq<byte>)
    requires i <= MAX_8
    ensures r == b + Enc(i, Len(i))
  {
    TopBitsFree(i, Len(i));
    var i1 := Shr8(i);
    if i <= MAX_1 {
      return b + [B(i)];
    }
    if i <= MAX_2 {
      assert Bytes(i, 2) == [B(i1), B(i)];
      return b + [B(i1) + 0x40, B(i)];
    }
    var i2 := Shr8(i1);
    var i3 := Shr8(i2);
    assert Bytes(i2, 2) == [B(i3), B(i2)];
    if i <= MAX_4 {
      assert Bytes(i, 4) == [B(i3), B(i2), B(i1), B(i)];
      return b + [B(i3) + 0x80, B(i2), B(i1), B(i)];
    }
    r := AppendEight(b, i);
  }

  method AppendEight(b: seq<byte>, i: nat) returns (r: seq<byte>)
    requires i <= MAX_8
    ensures r == b + Enc(i, 8)
  {
    TopBitsFree(i, 8);
    var i1 := Shr8(i);
    var i2 := Shr8(i1);
    var i3 := Shr8(i2);
    var i4 := Shr8(i3);
    var i5 := Shr8(i4);
    var i6 := Shr8(i5);
    var i7 := Shr8(i6);
    assert Bytes(i6, 2) == [B(i7), B(i6)];
    assert Bytes(i4, 4) == Bytes(i6, 2) + [B(i5), B(i4)];
    assert Bytes(i2, 6) == Bytes(i4, 4) + [B(i3), B(i2)];
    assert Bytes(i, 8) == Bytes(i2, 6) + [B(i1), B(i)];
    return b + [B(i7) + 0xc0, B(i6), B(i5), B(i4), B(i3), B(i2), B(i1), B(i)];
  }

  /** i >> (8 * n). */
  function Shr(i: nat, n: nat): nat { if n == 0 then i else Shr(Shr8(i), n - 1) }

  lemma {:induction false} LeadingZeros(i: nat, l: nat, n: nat)
    requires l <= n && i < Pow256(l)
    ensures Bytes(i, n) == Zeros(n - l) + Bytes(i, l)
  {
    if l == n {
    } else if l == 0 {
      LeadingZeros(0, 0, n - 1);
    } else {
      LeadingZeros(Shr8(i), l - 1, n - 1);
    }
  }

  /** The bytes from the left: each one is the number shifted right. */
  lemma {:induction false} BytesFromLeft(i: nat, l: nat, j: nat)
    requires j < l
    ensures Bytes(i, l)[j] == B(Shr(i, l - 1 - j))
  {
    if j < l - 1 {
      BytesFromLeft(Shr8(i), l - 1, j);
    }
  }

  lemma EncWithLeadingZeros(i: nat, l: nat, length: nat)
    requires LegalLength(l) && LegalLength(length) && l < length && i <= MaxOf(l)
    ensures i <= MaxOf(length)
    ensures Enc(i, length) == [(64 * Tag(length)) as byte] + Zeros(length - l - 1) + Bytes(i, l)
  {
    TopBitsFree(i, l);
    LeadingZeros(i, l, length);
    TaggedZeros(length - l, Bytes(i, l), length);
  }

  lemma TaggedZeros(n: nat, s: seq<byte>, l: nat)
    requires n > 0 && LegalLength(l)
    ensures (Zeros(n) + s)[0] == 0 && Tagged(Zeros(n) + s, l) == [(64 * Tag(l)) as byte] + Zeros(n - 1) + s
  {
    assert (Zeros(n) + s)[1..] == Zeros(n - 1) + s;
  }

  /** The i-bytes of AppendWithLen's last loop. */
  method AppendBytes(b: seq<byte>, i: nat, l: nat) returns (r: seq<byte>)
    ensures r == b + Bytes(i, l)
  {
    r := b;
    for j := 0 to l
      invariant r == b + Bytes(i, l)[..j]
    {
      BytesFromLeft(i, l, j);
      r := r + [B(Shr(i, l - 1 - j))];
    }
  }

  method AppendWithLen(b: seq<byte>, i: nat, length: nat) returns (r: seq<byte>)
    requires LegalLength(length) && i <= MaxOf(length)
    ensures r == b + Enc(i, length)
  {
    var l := Len(i);
    if l == length {
      r := Append(b, i);
      return;
    }
    EncWithLeadingZeros(i, l, length);
    var tag: byte := if length == 2 then 0x40 else if length == 4 then 0x80 else 0xc0;
    var head := [tag];
    for j := 1 to length - l
      invariant head == [tag] + Zeros(j - 1)
    {
      head := head + [0];
    }
    r := AppendBytes(b + head, i, l);
    assert b + head + Bytes(i, l) == b + (head + Bytes(i, l));
  }

  lemma NumberOfOne(b: seq<byte>)
    requires |b| == 1
    ensures Number(b) == b[0] as nat
  {
    assert b[..0] == [];
  }

  lemma NumberOfTwo(b: seq<byte>)
    requires |b| == 2
    ensures Number(b) == b[1] as nat + b[0] as nat * 256
  {
    assert b[..1][..0] == [];
    assert Number(b[..1]) == b[0] as nat;
  }

  lemma NumberOfFour(b: seq<byte>)
    requires |b| == 4
    ensures Number(b) == b[3] as nat + b[2] as nat * 0x100 + b[1] as nat * 0x1_0000 + b[0] as nat * 0x100_0000
  {
    NumberOfTwo(b[..2]);
    assert b[..3][..2] == b[..2];
    assert Number(b[..3]) == Number(b[..2]) * 256 + b[2] as nat;
  }

  lemma NumberOfEight(b: seq<byte>)
    requires |b| == 8
    ensures Number(b) == b[7] as nat + b[6] as nat * 0x100 + b[5] as nat * 0x1_0000 + b[4] as nat * 0x100_0000
      + b[3] as nat * 0x1_0000_0000 + b[2] as nat * 0x100_0000_0000 + b[1] as nat * 0x1_0000_0000_0000
      + b[0] as nat * 0x100_0000_0000_0000
  {
    NumberOfFour(b[..4]);
    assert b[..5][..4] == b[..4] && b[..6][..5] == b[..5] && b[..7][..6] == b[..6];
    assert Number(b[..5]) == Number(b[..4]) * 256 + b[4] as nat;
    assert Number(b[..6]) == Number(b[..5]) * 256 + b[5] as nat;
    assert Number(b[..7]) == Number(b[..6]) * 256 + b[6] as nat;
  }

  method Parse(b: seq<byte>) returns (r: Result<(nat, nat), IOError>)
    ensures r == Parsed(b)
  {
    if |b| == 0 {
      return Err(EOF);
    }
    var l := LengthOf(b[0]);
    if |b| < l {
      return Err(UnexpectedEOF);
    }
    var b0 := b[0] % 64;
    ghost var bytes := [b0] + b[1..l];
    if l == 1 {
      assert bytes[..0] == [];
      return Ok((b0 as nat, 1));
    }
    if l == 2 {
      NumberOfTwo(bytes);
      return Ok((b[1] as nat + b0 as nat * 256, 2));
    }
    if l == 4 {
      NumberOfFour(bytes);
      return Ok((b[3] as nat + b[2] as nat * 0x100 + b[1] as nat * 0x1_0000 + b0 as nat * 0x100_0000, 4));
    }
    NumberOfEight(bytes);
    return Ok((b[7] as nat + b[6] as nat * 0x100 + b[5] as nat * 0x1_0000 + b[4] as nat * 0x100_0000
               + b[3] as nat * 0x1_0000_0000 + b[2] as nat * 0x100_0000_0000 + b[1] as nat * 0x1_0000_0000_0000
               + b0 as nat * 0x100_0000_0000_0000, 8));
  }

  /** Read from an input that ends with error end: the value, and the input after it. */
  function ReadFrom(input: seq<byte>, end: IOError): (r: (Result<nat, IOError>, seq<byte>))
    ensures |r.1| <= |input| && (r.0.Ok? ==> |r.1| < |input|)
  {
    match Parsed(input)
    case Ok((v, l)) => (Ok(v), input[l..])
    case Err(_) => (Err(end), [])
  }

  lemma ReadInvertsEnc(i: nat, l: nat, rest: seq<byte>, end: IOError)
    requires LegalLength(l) && i <= MaxOf(l)
    ensures ReadFrom(Enc(i, l) + rest, end) == (Ok(i), rest)
  {
    ParseInvertsEnc(i, l, rest);
    assert (Enc(i, l) + rest)[l..] == rest;
  }

  /** The examples of appendix A.1 of RFC 9000. */
  lemma SampleDecodings()
    ensures Parsed([0xc2, 0x19, 0x7c, 0x5e, 0xff, 0x14, 0xe8, 0x8c]) == Ok((151288809941952652, 8))
    ensures Parsed([0x9d, 0x7f, 0x3e, 0x7d]) == Ok((494878333, 4))
    ensures Parsed([0x7b, 0xbd]) == Ok((15293, 2))
    ensures Parsed([0x25]) == Ok((37, 1)) && Parsed([0x40, 0x25]) == Ok((37, 2))
  {
    NumberOfEight([0x02, 0x19, 0x7c, 0x5e, 0xff, 0x14, 0xe8, 0x8c]);
    NumberOfFour([0x1d, 0x7f, 0x3e, 0x7d]);
    NumberOfTwo([0x3b, 0xbd]);
    NumberOfTwo([0x00, 0x25]);
    NumberOfOne([0x25]);
    var eight: seq<byte> := [0xc2, 0x19, 0x7c, 0x5e, 0xff, 0x14, 0xe8, 0x8c];
    assert [0x02] + eight[1..8] == [0x02, 0x19, 0x7c, 0x5e, 0xff, 0x14, 0xe8, 0x8c];
    var four: seq<byte> := [0x9d, 0x7f, 0x3e, 0x7d];
    assert [0x1d] + four[1..4] == [0x1d, 0x7f, 0x3e, 0x7d];
    var two: seq<byte> := [0x7b, 0xbd];
    assert [0x3b] + two[1..2] == [0x3b, 0xbd];
    var long: seq<byte> := [0x40, 0x25];
    assert [0x00] + long[1..2] == [0x00, 0x25];
    var one: seq<byte> := [0x25];
    assert [0x25] + one[1..1] == [0x25];
  }

  class ByteReader {
    var rest: seq<byte>
    const end: IOError

    constructor (input: seq<byte>, end: IOError)
      ensures rest == input && this.end == end
    {
      rest, this.end := input, end;
    }

    method ReadByte() returns (b: Result<byte, IOError>)
      modifies this
      ensures if old(rest) == [] then b == Err(end) && rest == [] else b == Ok(old(rest)[0]) && rest == old(rest)[1..]
    {
      if |rest| == 0 {
        return Err(end);
      }
      b := Ok(rest[0]);
      rest := rest[1..];
    }

    /** The next two bytes. */
    method ReadTwo() returns (a: byte, b: byte, err: Option<IOError>)
      modifies this
      ensures if |old(rest)| < 2 then err == Some(end) && rest == []
        else err == None && a == old(rest)[0] && b == old(rest)[1] && rest == old(rest)[2..]
    {
      a, b, err := 0, 0, None;
      var x := ReadByte();
      if x.Err? {
        err := Some(x.error);
        return;
      }
      var y := ReadByte();
      if y.Err? {
        err := Some(y.error);
        return;
      }
      a, b := x.value, y.value;
    }

    /** Read: the first byte says how many more there are. */
    method Read() returns (v: Result<nat, IOError>)
      modifies this
      ensures (v, rest) == ReadFrom(old(rest), end)
    {
      ghost var input := rest;
      var first := ReadByte();
      if first.Err? {
        return Err(first.error);
      }
      var l := LengthOf(first.value);
      var b1 := first.value % 64;
      if l == 1 {
        NumberOfOne([b1] + input[1..1]);
        return Ok(b1 as nat);
      }
      var second := ReadByte();
      if second.Err? {
        return Err(second.error);
      }
      var b2 := second.value;
      if l == 2 {
        NumberOfTwo([b1] + input[1..2]);
        return Ok(b2 as nat + b1 as nat * 256);
      }
      assert rest == input[2..];
      var b3, b4, e := ReadTwo();
      if e.Some? {
        return Err(e.value);
      }
      assert rest == input[4..];
      if l == 4 {
        NumberOfFour([b1] + input[1..4]);
        return Ok(b4 as nat + b3 as nat * 0x100 + b2 as nat * 0x1_0000 + b1 as nat * 0x100_0000);
      }
      v := ReadLastFour(b1, b2, b3, b4, input);
    }

    method ReadLastFour(b1: byte, b2: byte, b3: byte, b4: byte, ghost input: seq<byte>)
        returns (v: Result<nat, IOError>)
      requires |input| >= 4 && rest == input[4..] && LengthOf(input[0]) == 8
      requires b1 == input[0] % 64 && b2 == input[1] && b3 == input[2] && b4 == input[3]
      modifies this
      ensures (v, rest) == ReadFrom(input, end)
    {
      var b5, b6, e := ReadTwo();
      if e.Some? {
        return Err(e.value);
      }
      assert rest == input[6..];
      var b7, b8, e' := ReadTwo();
      if e'.Some? {
        return Err(e'.value);
      }
      NumberOfEight([b1] + input[1..8]);
      return Ok(b8 as nat + b7 as nat * 0x100 + b6 as nat * 0x1_0000 + b5 as nat * 0x100_0000
                + b4 as nat * 0x1_0000_0000 + b3 as nat * 0x100_0000_0000 + b2 as nat * 0x1_0000_0000_0000
                + b1 as nat * 0x100_0000_0000_0000);
    }
  }
}
