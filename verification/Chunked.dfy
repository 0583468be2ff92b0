/**
 * The chunked transfer coding (internal/chunked.go; section 7.1 of RFC 9112): what a reader must deliver for an
 * input, whatever its reads and its buffer look like, and the round trip with the writer.
 */
module Chunked {
  import opened MachineInts
  import opened Wrappers

  const CR: byte := 13
  const LF: byte := 10
  const SEMICOLON: byte := 59
  const CRLF: seq<byte> := [CR, LF]
  const MAX_LINE_LENGTH := 4096

  const MALFORMED := Other(1)
  const INVALID_BYTE := Other(2)
  const LENGTH_TOO_LARGE := Other(3)
  const LINE_TOO_LONG := Other(4)
  const SHORT_WRITE := Other(5)

  // ------------------------------------------------------------ hexadecimal

  predicate IsHex(b: byte) { 48 <= b <= 57 || 97 <= b <= 102 || 65 <= b <= 70 }

  function Digit(b: byte): nat
    requires IsHex(b)
  {
    if b <= 57 then b as nat - 48 else if b >= 97 then b as nat - 87 else b as nat - 55
  }

  predicate AllHex(v: seq<byte>) { forall i :: 0 <= i < |v| ==> IsHex(v[i]) }

  /** The number the digits stand for. */
  function Value(v: seq<byte>): nat
    requires AllHex(v)
  {
    if v == [] then 0 else Value(v[..|v| - 1]) * 16 + Digit(v[|v| - 1])
  }

  /** The position of the first byte that is no digit. */
  function FirstBad(v: seq<byte>, i: nat): (k: nat)
    requires i <= |v|
    ensures i <= k <= |v| && (forall j :: i <= j < k ==> IsHex(v[j])) && (k < |v| ==> !IsHex(v[k]))
    decreases |v| - i
  {
    if i == |v| || !IsHex(v[i]) then i else FirstBad(v, i + 1)
  }

  /** parseHexUint: up to sixteen digits, and none at all counts as 0. */
  function ParseHex(v: seq<byte>): Result<nat, IOError> {
    var k := FirstBad(v, 0);
    if k < |v| && k <= 16 then Err(INVALID_BYTE) else if |v| > 16 then Err(LENGTH_TOO_LARGE) else Ok(Value(v))
  }

  function Pow16(n: nat): nat { if n == 0 then 1 else 16 * Pow16(n - 1) }

  lemma {:induction false} ValueBound(v: seq<byte>)
    requires AllHex(v)
    ensures Value(v) < Pow16(|v|)
  {
    if v != [] {
      ValueBound(v[..|v| - 1]);
    }
  }

  lemma Pow16Of16()
    ensures Pow16(16) == TWO_64
  {
    assert Pow16(4) == 0x1_0000;
    assert Pow16(8) == 0x1_0000_0000;
    assert Pow16(12) == 0x1_0000_0000_0000;
  }

  lemma {:induction false} Pow16Grows(a: nat, b: nat)
    requires a <= b
    ensures Pow16(a) <= Pow16(b)
    decreases b
  {
    if a < b {
      Pow16Grows(a, b - 1);
    }
  }

  /** "%x". */
  function Hex(n: nat): (v: seq<byte>)
    ensures AllHex(v) && v != [] && Value(v) == n
  {
    if n < 16 then
      assert Value([HexDigit(n)]) == Value([HexDigit(n)][..0]) * 16 + n;
      [HexDigit(n)]
    else
      assert (Hex(n / 16) + [HexDigit(n % 16)])[..|Hex(n / 16)|] == Hex(n / 16);
      Hex(n / 16) + [HexDigit(n % 16)]
  }

  function HexDigit(d: nat): (b: byte)
    requires d < 16
    ensures IsHex(b) && Digit(b) == d
  {
    if d < 10 then (48 + d) as byte else (87 + d) as byte
  }

  lemma {:induction false} HexLength(n: nat, k: nat)
    requires 0 < k && n < Pow16(k)
    ensures |Hex(n)| <= k
    decreases n
  {
    if n >= 16 {
      HexLength(n / 16, k - 1);
    }
  }

  /** The digits, in both cases: the bytes of 0 to 9, a to f and A to F, and no others. */
  lemma DigitsAreHexadecimal(b: byte)
    ensures IsHex(b) <==> exists d: nat :: d < 16 && IsDigitOf(b, d)
    ensures forall d: nat :: d < 16 && IsDigitOf(b, d) ==> IsHex(b) && Digit(b) == d
  {
    if IsHex(b) {
      assert IsDigitOf(b, Digit(b));
    }
  }

  predicate IsDigitOf(b: byte, d: nat) {
    if d < 10 then b as nat == 0x30 + d else b as nat == 0x61 + d - 10 || b as nat == 0x41 + d - 10
  }

  /** "1af" and "1AF" are 431, most significant digit first; and 431 is written as "1af". */
  lemma SizesInHexadecimal()
    ensures ParseHex([0x31, 0x61, 0x66]) == Ok(431) && ParseHex([0x31, 0x41, 0x46]) == Ok(431)
    ensures Hex(431) == [0x31, 0x61, 0x66]
  {
    ThreeDigits(0x31, 0x61, 0x66);
    ThreeDigits(0x31, 0x41, 0x46);
    assert Hex(1) == [0x31] && Hex(26) == [0x31] + [0x61];
  }

  lemma ValueOfNext(v: seq<byte>, b: byte)
    requires AllHex(v) && IsHex(b)
    ensures AllHex(v + [b]) && Value(v + [b]) == Value(v) * 16 + Digit(b)
  {
    assert (v + [b])[..|v|] == v;
  }

  lemma ThreeDigits(a: byte, b: byte, c: byte)
    requires IsHex(a) && IsHex(b) && IsHex(c)
    ensures ParseHex([a, b, c]) == Ok((Digit(a) * 16 + Digit(b)) * 16 + Digit(c))
  {
    ValueOfNext([], a);
    ValueOfNext([a], b);
    ValueOfNext([a, b], c);
    assert [] + [a] == [a] && [a] + [b] == [a, b] && [a, b] + [c] == [a, b, c];
  }

  /** Main result on lengths: parsing inverts printing for every 64-bit value. */
  lemma ParseInvertsHex(n: nat)
    requires n < TWO_64
    ensures ParseHex(Hex(n)) == Ok(n) && |Hex(n)| <= 16
  {
    Pow16Of16();
    HexLength(n, 16);
  }

  // ------------------------------------------------------------ chunk lines

  predicate IsSpace(b: byte) { b == 32 || b == 9 || b == LF || b == CR }

  function Trim(s: seq<byte>): seq<byte>
  {
    if s != [] && IsSpace(s[|s| - 1]) then Trim(s[..|s| - 1]) else s
  }

  /** The position of the first b, or the length. */
  function IndexOf(s: seq<byte>, b: byte, i: nat): (k: nat)
    requires i <= |s|
    ensures i <= k <= |s| && (forall j :: i <= j < k ==> s[j] != b) && (k < |s| ==> s[k] == b)
    decreases |s| - i
  {
    if i == |s| || s[i] == b then i else IndexOf(s, b, i + 1)
  }

  function CutExtension(s: seq<byte>): seq<byte> { s[..IndexOf(s, SEMICOLON, 0)] }

  /**
   * readChunkLine on an input that ends with error end, through a buffer of the given size: the line without
   * its end and its extension, and the input after it.
   */
  function ReadLine(input: seq<byte>, end: IOError, size: nat): (r: (Result<seq<byte>, IOError>, seq<byte>))
    ensures r.0.Ok? ==> |r.1| < |input|
  {
    var i := IndexOf(input, LF, 0);
    if i >= size then (Err(LINE_TOO_LONG), input[size..])
    else if i == |input| then (Err(Unexpected(end)), [])
    else if i + 1 >= MAX_LINE_LENGTH then (Err(LINE_TOO_LONG), input[i + 1..])
    else (Ok(CutExtension(Trim(input[..i + 1]))), input[i + 1..])
  }

  // ------------------------------------------------------------ what the reader delivers

  /** All the data, then the error, with this much of the input unread. Only io.EOF is a success. */
  datatype Stream = Stream(data: seq<byte>, err: IOError, rest: seq<byte>)

  function Prepend(data: seq<byte>, s: Stream): Stream { Stream(data + s.data, s.err, s.rest) }

  /** From the middle of a chunk with n bytes to go, or with its line end still to check. */
  function Decode(n: nat, checkEnd: bool, input: seq<byte>, end: IOError, size: nat): Stream
    decreases |input|, 2
  {
    if checkEnd then EndOfChunk(input, end, size)
    else if n == 0 then NextChunk(input, end, size)
    else if |input| < n then Stream(input, Unexpected(end), [])
    else Prepend(input[..n], EndOfChunk(input[n..], end, size))
  }

  function EndOfChunk(input: seq<byte>, end: IOError, size: nat): Stream
    decreases |input|, 1
  {
    if |input| < 2 then Stream([], Unexpected(end), [])
    else if input[..2] != CRLF then Stream([], MALFORMED, input[2..])
    else NextChunk(input[2..], end, size)
  }

  function NextChunk(input: seq<byte>, end: IOError, size: nat): Stream
    decreases |input|, 0
  {
    match ReadLine(input, end, size)
    case (Err(e), rest) => Stream([], e, rest)
    case (Ok(line), rest) =>
      match ParseHex(line)
      case Err(e) => Stream([], e, rest)
      case Ok(k) => if k == 0 then Stream([], EOF, rest) else Decode(k, false, rest, end, size)
  }

  lemma Pieces(n: nat, m: nat, input: seq<byte>, s: Stream)
    requires m <= n <= |input|
    ensures Prepend(input[..n], s) == Prepend(input[..m], Prepend(input[m..][..n - m], s))
    ensures input[m..][n - m..] == input[n..]
  {
    assert input[..n] + s.data == input[..m] + (input[m..][..n - m] + s.data);
  }

  /** Reading a chunk in two pieces delivers the same. */
  lemma {:induction false} DecodeSplits(n: nat, m: nat, input: seq<byte>, end: IOError, size: nat)
    requires 0 < m <= n && m <= |input|
    ensures Decode(n, false, input, end, size) == Prepend(input[..m], Decode(n - m, m == n, input[m..], end, size))
  {
    if |input| < n {
      assert input == input[..m] + input[m..];
    } else if m < n {
      Pieces(n, m, input, EndOfChunk(input[n..], end, size));
    }
  }

  // ------------------------------------------------------------ the round trip

  /** One Write of the chunked writer. An empty write sends nothing, because it would look like the end. */
  function Chunk(data: seq<byte>): seq<byte> { if data == [] then [] else Hex(|data|) + CRLF + data + CRLF }

  function Encode(writes: seq<seq<byte>>): seq<byte> {
    if writes == [] then [] else Chunk(writes[0]) + Encode(writes[1..])
  }

  /** Five bytes as a chunk: "5", CRLF, the bytes, CRLF. */
  lemma ChunkOnTheWire(data: seq<byte>)
    requires |data| == 5
    ensures Chunk(data) == [0x35, 0x0d, 0x0a] + data + [0x0d, 0x0a]
  {
    assert Hex(5) == [0x35];
  }

  const LAST_CHUNK: seq<byte> := [48, CR, LF]

  function Joined(writes: seq<seq<byte>>): seq<byte> {
    if writes == [] then [] else writes[0] + Joined(writes[1..])
  }

  lemma TrimLine(line: seq<byte>)
    requires AllHex(line) && line != []
    ensures Trim(line + CRLF) == line && CutExtension(line) == line
  {
    var whole := line + CRLF;
    assert whole[..|whole| - 1] == line + [CR];
    assert (line + [CR])[..|line|] == line;
    assert Trim(line + [CR]) == Trim(line) == line;
    assert line[..|line|] == line;
  }

  lemma HexLineReads(line: seq<byte>, rest: seq<byte>, end: IOError, size: nat)
    requires AllHex(line) && 0 < |line| <= 16 && MAX_LINE_LENGTH <= size
    ensures ReadLine(line + CRLF + rest, end, size) == (Ok(line), rest)
  {
    var input := line + CRLF + rest;
    var i := IndexOf(input, LF, 0);
    assert forall j :: 0 <= j < |line| ==> input[j] == line[j];
    assert input[|line|] == CR && input[|line| + 1] == LF;
    assert i == |line| + 1;
    assert input[..i + 1] == line + CRLF;
    TrimLine(line);
    assert input[i + 1..] == rest;
  }

  lemma DecodeBody(data: seq<byte>, rest: seq<byte>, end: IOError, size: nat)
    requires data != []
    ensures Decode(|data|, false, data + CRLF + rest, end, size) == Prepend(data, Decode(0, false, rest, end, size))
  {
    var after := data + CRLF + rest;
    var tail := CRLF + rest;
    assert after[..|data|] == data && after[|data|..] == tail;
    assert tail[..2] == CRLF && tail[2..] == rest;
    assert Decode(0, true, tail, end, size) == Decode(0, false, rest, end, size);
  }

  lemma DecodeChunk(data: seq<byte>, rest: seq<byte>, end: IOError, size: nat)
    requires 0 < |data| < TWO_64 && MAX_LINE_LENGTH <= size
    ensures Decode(0, false, Chunk(data) + rest, end, size) == Prepend(data, Decode(0, false, rest, end, size))
  {
    var line := Hex(|data|);
    ParseInvertsHex(|data|);
    var after := data + CRLF + rest;
    assert Chunk(data) + rest == line + CRLF + after;
    HexLineReads(line, after, end, size);
    DecodeBody(data, rest, end, size);
  }

  lemma LastChunkEnds(rest: seq<byte>, end: IOError, size: nat)
    requires MAX_LINE_LENGTH <= size
    ensures Decode(0, false, LAST_CHUNK + rest, end, size) == Stream([], EOF, rest)
  {
    var zero: seq<byte> := [48];
    assert LAST_CHUNK + rest == zero + CRLF + rest;
    HexLineReads(zero, rest, end, size);
    assert Hex(0) == zero;
    ParseInvertsHex(0);
  }

  lemma EncodeCons(writes: seq<seq<byte>>, rest: seq<byte>)
    requires writes != []
    ensures Encode(writes) + LAST_CHUNK + rest == Chunk(writes[0]) + (Encode(writes[1..]) + LAST_CHUNK + rest)
  {
    var c, e := Chunk(writes[0]), Encode(writes[1..]);
    assert c + e + LAST_CHUNK + rest == c + (e + LAST_CHUNK + rest);
  }

  /** Main result: what was written is delivered, then io.EOF, and exactly what follows the last chunk line is left. */
  lemma {:induction false} RoundTrip(writes: seq<seq<byte>>, rest: seq<byte>, end: IOError, size: nat)
    requires MAX_LINE_LENGTH <= size
    requires forall i :: 0 <= i < |writes| ==> |writes[i]| < TWO_64
    ensures Decode(0, false, Encode(writes) + LAST_CHUNK + rest, end, size) == Stream(Joined(writes), EOF, rest)
  {
    if writes == [] {
      assert Encode(writes) + LAST_CHUNK == LAST_CHUNK;
      LastChunkEnds(rest, end, size);
    } else {
      RoundTrip(writes[1..], rest, end, size);
      var tail := Encode(writes[1..]) + LAST_CHUNK + rest;
      EncodeCons(writes, rest);
      if writes[0] == [] {
        assert Chunk(writes[0]) + tail == tail;
        assert Joined(writes) == Joined(writes[1..]);
      } else {
        DecodeChunk(writes[0], tail, end, size);
      }
    }
  }

  // ------------------------------------------------------------ what ends a body

  /** At most sixteen zeros, and perhaps none. */
  predicate IsZeros(line: seq<byte>) { |line| <= 16 && forall i :: 0 <= i < |line| ==> line[i] == 48 }

  lemma {:induction false} ValueIsZeroIff(v: seq<byte>)
    requires AllHex(v)
    ensures Value(v) == 0 <==> forall i :: 0 <= i < |v| ==> v[i] == 48
  {
    if v != [] {
      var n := |v| - 1;
      ValueIsZeroIff(v[..n]);
      assert Digit(v[n]) == 0 <==> v[n] == 48;
      assert forall i :: 0 <= i < n ==> v[..n][i] == v[i];
    }
  }

  lemma ParsesToZeroIff(line: seq<byte>)
    ensures ParseHex(line) == Ok(0) <==> IsZeros(line)
  {
    var k := FirstBad(line, 0);
    if k == |line| {
      ValueIsZeroIff(line);
    } else {
      assert !IsHex(line[k]) && line[k] != 48;
    }
  }

  lemma ChunksDoNotEnd(k: nat, input: seq<byte>, end: IOError, size: nat)
    requires k > 0
    ensures var s := Decode(k, false, input, end, size); s.data != [] || s.err != EOF
  {
  }

  /**
   * The body ends at a line that was read if and only if the line, without its extension and the white space at
   * its end, consists of at most sixteen zeros.
   */
  lemma LineEndsBodyIff(input: seq<byte>, end: IOError, size: nat)
    requires ReadLine(input, end, size).0.Ok?
    ensures var (line, rest) := ReadLine(input, end, size);
      NextChunk(input, end, size) == Stream([], EOF, rest) <==> IsZeros(line.value)
  {
    var (line, rest) := ReadLine(input, end, size);
    ParsesToZeroIff(line.value);
    var k := ParseHex(line.value);
    if k.Ok? && k.value > 0 {
      ChunksDoNotEnd(k.value, rest, end, size);
    }
  }

  /** What the reader looks at in a line of this text. */
  function SizeOf(text: seq<byte>): seq<byte> { CutExtension(Trim(text + [LF])) }

  lemma LineIsRead(text: seq<byte>, rest: seq<byte>, end: IOError, size: nat)
    requires LF !in text && |text| + 1 < MAX_LINE_LENGTH <= size
    ensures ReadLine(text + [LF] + rest, end, size) == (Ok(SizeOf(text)), rest)
  {
    var input := text + [LF] + rest;
    assert forall j :: 0 <= j < |text| ==> input[j] == text[j] && input[j] in text;
    assert input[|text|] == LF;
    assert IndexOf(input, LF, 0) == |text|;
    assert input[..|text| + 1] == text + [LF] && input[|text| + 1..] == rest;
  }

  /** last-chunk of section 7.1 of RFC 9112: zeros, and at least one of them. */
  predicate IsLastChunk(digits: seq<byte>) { digits != [] && forall i :: 0 <= i < |digits| ==> digits[i] == 48 }

  /**
   * For any text of a line: it ends the body where the standard has a last chunk of up to sixteen digits, and
   * besides exactly where there is no digit at all.
   */
  lemma TextEndsBodyIff(text: seq<byte>, rest: seq<byte>, end: IOError, size: nat)
    requires LF !in text && |text| + 1 < MAX_LINE_LENGTH <= size
    ensures NextChunk(text + [LF] + rest, end, size) == Stream([], EOF, rest)
      <==> (IsLastChunk(SizeOf(text)) && |SizeOf(text)| <= 16) || SizeOf(text) == []
  {
    LineIsRead(text, rest, end, size);
    LineEndsBodyIff(text + [LF] + rest, end, size);
  }

  /** White space and an extension make such a line without a digit, and it ends the body. */
  lemma EmptySizeLineIsTheEnd(blanks: seq<byte>, extension: seq<byte>, rest: seq<byte>, end: IOError, size: nat)
    requires forall i :: 0 <= i < |blanks| ==> IsSpace(blanks[i]) && blanks[i] != LF
    requires extension == [] || extension[0] == SEMICOLON
    requires LF !in extension && |blanks + extension| + 1 < MAX_LINE_LENGTH <= size
    requires blanks == [] || extension == []
    ensures SizeOf(blanks + extension) == []
    ensures NextChunk(blanks + extension + [LF] + rest, end, size) == Stream([], EOF, rest)
  {
    var text := blanks + extension;
    if extension == [] {
      assert text + [LF] == blanks + [LF];
      TrimBlanks(blanks + [LF]);
    } else {
      assert text == extension;
      TrimKeepsFirst(extension + [LF]);
    }
    TextEndsBodyIff(text, rest, end, size);
  }

  lemma {:induction false} TrimBlanks(s: seq<byte>)
    requires forall i :: 0 <= i < |s| ==> IsSpace(s[i])
    ensures Trim(s) == []
  {
    if s != [] {
      TrimBlanks(s[..|s| - 1]);
    }
  }

  lemma {:induction false} TrimKeepsFirst(s: seq<byte>)
    requires s != [] && !IsSpace(s[0])
    ensures Trim(s) != [] && Trim(s)[0] == s[0]
  {
    if IsSpace(s[|s| - 1]) {
      TrimKeepsFirst(s[..|s| - 1]);
    }
  }
}
