/**
 * What the chunked reader of internal/chunked.go accepts, against the grammar of section 7.1 of RFC 9112: a chunk is a
 * line whose text begins with its size, the data, and CRLF.
 */
module ChunkedGrammar {
  import opened MachineInts
  import opened Wrappers
  import opened Chunked

  /** The text of the size line, without its LF, and the data. */
  datatype Part = Part(text: seq<byte>, data: seq<byte>)

  /** A line that fits, and whose text is a size with an extension or white space behind it. */
  predicate IsLine(text: seq<byte>, n: nat) {
    LF !in text && |text| + 1 < MAX_LINE_LENGTH && ParseHex(SizeOf(text)) == Ok(n)
  }

  predicate LegalPart(p: Part) { p.data != [] && IsLine(p.text, |p.data|) }

  predicate AllLegal(ps: seq<Part>) { forall i :: 0 <= i < |ps| ==> LegalPart(ps[i]) }

  function PartWire(p: Part): seq<byte> { p.text + [LF] + p.data + CRLF }

  function Wire(ps: seq<Part>): seq<byte> { if ps == [] then [] else PartWire(ps[0]) + Wire(ps[1..]) }

  function AllData(ps: seq<Part>): seq<byte> { if ps == [] then [] else ps[0].data + AllData(ps[1..]) }

  // ------------------------------------------------------------ whatever is written so is read

  lemma LineStarts(text: seq<byte>, n: nat, rest: seq<byte>, end: IOError, size: nat)
    requires IsLine(text, n) && MAX_LINE_LENGTH <= size
    ensures NextChunk(text + [LF] + rest, end, size)
      == if n == 0 then Stream([], EOF, rest) else Decode(n, false, rest, end, size)
  {
    LineIsRead(text, rest, end, size);
  }

  lemma PartDecodes(p: Part, rest: seq<byte>, end: IOError, size: nat)
    requires LegalPart(p) && MAX_LINE_LENGTH <= size
    ensures NextChunk(PartWire(p) + rest, end, size) == Prepend(p.data, NextChunk(rest, end, size))
  {
    var more := p.data + (CRLF + rest);
    assert PartWire(p) + rest == p.text + [LF] + more;
    LineStarts(p.text, |p.data|, more, end, size);
    assert more[..|p.data|] == p.data && more[|p.data|..] == CRLF + rest;
    assert (CRLF + rest)[..2] == CRLF && (CRLF + rest)[2..] == rest;
  }

  lemma Regroup(a: seq<byte>, b: seq<byte>, c: seq<byte>)
    ensures a + b + c == a + (b + c)
  {
  }

  lemma {:induction false} PartsDecode(ps: seq<Part>, rest: seq<byte>, end: IOError, size: nat)
    requires AllLegal(ps) && MAX_LINE_LENGTH <= size
    ensures NextChunk(Wire(ps) + rest, end, size) == Prepend(AllData(ps), NextChunk(rest, end, size))
    decreases |ps|
  {
    if ps == [] {
      assert Wire(ps) + rest == rest;
      assert [] + NextChunk(rest, end, size).data == NextChunk(rest, end, size).data;
    } else {
      var p, more := ps[0], ps[1..];
      Regroup(PartWire(p), Wire(more), rest);
      PartDecodes(p, Wire(more) + rest, end, size);
      PartsDecode(more, rest, end, size);
      Regroup(p.data, AllData(more), NextChunk(rest, end, size).data);
    }
  }

  // ------------------------------------------------------------ whatever is read was written so

  /** The line that was read is the text before the first LF. */
  lemma LineWas(input: seq<byte>, end: IOError, size: nat) returns (text: seq<byte>)
    requires ReadLine(input, end, size).0.Ok?
    ensures LF !in text && |text| + 1 < MAX_LINE_LENGTH
    ensures var (line, rest) := ReadLine(input, end, size); input == text + [LF] + rest && line.value == SizeOf(text)
  {
    var i := IndexOf(input, LF, 0);
    text := input[..i];
    assert input[..i + 1] == text + [LF];
    assert input == text + [LF] + input[i + 1..];
  }

  lemma EndsRight(input: seq<byte>, end: IOError, size: nat)
    requires EndOfChunk(input, end, size).err == EOF
    ensures |input| >= 2 && input[..2] == CRLF && EndOfChunk(input, end, size) == NextChunk(input[2..], end, size)
  {
  }

  predicate EndsAtOnce(input: seq<byte>, end: IOError, size: nat) {
    ReadLine(input, end, size).0.Ok? && ParseHex(ReadLine(input, end, size).0.value) == Ok(0)
  }

  /** What one chunk comes to when it does not end the body. */
  lemma ChunkUnfolds(input: seq<byte>, line: seq<byte>, rest: seq<byte>, n: nat, end: IOError, size: nat)
    requires ReadLine(input, end, size) == (Ok(line), rest) && ParseHex(line) == Ok(n) && n > 0
    ensures NextChunk(input, end, size)
      == if |rest| < n then Stream(rest, Unexpected(end), [])
         else Prepend(rest[..n], EndOfChunk(rest[n..], end, size))
  {
  }

  lemma PartJoins(text: seq<byte>, data: seq<byte>, more: seq<byte>, input: seq<byte>, rest: seq<byte>)
    requires input == text + [LF] + rest && rest == data + (CRLF + more)
    ensures input == PartWire(Part(text, data)) + more
  {
  }

  lemma SplitRest(rest: seq<byte>, n: nat)
    requires |rest| >= n + 2 && rest[n..][..2] == CRLF
    ensures rest == rest[..n] + (CRLF + rest[n..][2..])
  {
    assert rest[n..] == rest[n..][..2] + rest[n..][2..];
  }

  /** Behind the size line. */
  lemma DataAndEnd(rest: seq<byte>, n: nat, end: IOError, size: nat) returns (data: seq<byte>, more: seq<byte>)
    requires |rest| >= n && EndOfChunk(rest[n..], end, size).err == EOF
    ensures data == rest[..n] && |data| == n && rest == data + (CRLF + more) && |more| < |rest|
    ensures EndOfChunk(rest[n..], end, size) == NextChunk(more, end, size)
  {
    EndsRight(rest[n..], end, size);
    data, more := rest[..n], rest[n..][2..];
    SplitRest(rest, n);
  }

  lemma FirstPart(input: seq<byte>, end: IOError, size: nat) returns (p: Part, more: seq<byte>)
    requires NextChunk(input, end, size).err == EOF && !EndsAtOnce(input, end, size)
    ensures LegalPart(p) && input == PartWire(p) + more && |more| < |input|
    ensures NextChunk(input, end, size) == Prepend(p.data, NextChunk(more, end, size))
  {
    var line, rest := ReadLine(input, end, size).0.value, ReadLine(input, end, size).1;
    var text := LineWas(input, end, size);
    var n := ParseHex(line).value;
    ChunkUnfolds(input, line, rest, n, end, size);
    assert |rest| >= n by {
      assert Unexpected(end) != EOF;
    }
    var data;
    data, more := DataAndEnd(rest, n, end, size);
    p := Part(text, data);
    PartJoins(text, data, more, input, rest);
  }

  /** The input is these chunks, a line with the size zero, and the rest. */
  predicate Shape(input: seq<byte>, data: seq<byte>, rest: seq<byte>, ps: seq<Part>, last: seq<byte>) {
    AllLegal(ps) && IsLine(last, 0) && input == Wire(ps) + (last + [LF] + rest) && data == AllData(ps)
  }

  lemma ShapeCons(p: Part, more: seq<byte>, data: seq<byte>, rest: seq<byte>, ps: seq<Part>, last: seq<byte>)
    requires LegalPart(p) && Shape(more, data, rest, ps, last)
    ensures Shape(PartWire(p) + more, p.data + data, rest, [p] + ps, last)
  {
    assert ([p] + ps)[1..] == ps;
    Regroup(PartWire(p), Wire(ps), last + [LF] + rest);
  }

  lemma LastShape(input: seq<byte>, end: IOError, size: nat) returns (last: seq<byte>)
    requires EndsAtOnce(input, end, size)
    ensures Shape(input, [], ReadLine(input, end, size).1, [], last)
    ensures NextChunk(input, end, size) == Stream([], EOF, ReadLine(input, end, size).1)
  {
    last := LineWas(input, end, size);
    assert input == [] + (last + [LF] + ReadLine(input, end, size).1);
  }

  /** Only a line with a size of zero ends in io.EOF. */
  lemma {:induction false} Parse(input: seq<byte>, end: IOError, size: nat) returns (ps: seq<Part>, last: seq<byte>)
    requires NextChunk(input, end, size).err == EOF
    ensures Shape(input, NextChunk(input, end, size).data, NextChunk(input, end, size).rest, ps, last)
    decreases |input|
  {
    if EndsAtOnce(input, end, size) {
      last := LastShape(input, end, size);
      ps := [];
    } else {
      var p, more := FirstPart(input, end, size);
      var s := NextChunk(more, end, size);
      ps, last := Parse(more, end, size);
      ShapeCons(p, more, s.data, s.rest, ps, last);
      ps := [p] + ps;
    }
  }

  ghost predicate IsBody(input: seq<byte>, data: seq<byte>, rest: seq<byte>) {
    exists ps: seq<Part>, last: seq<byte> :: Shape(input, data, rest, ps, last)
  }

  /**
   * Main result on what is accepted: the reader delivers these bytes and then io.EOF, leaving this rest, if and only if
   * the input is chunks with just these bytes, a line with the size zero, and the rest.
   */
  lemma AcceptedIff(input: seq<byte>, data: seq<byte>, rest: seq<byte>, end: IOError, size: nat)
    requires MAX_LINE_LENGTH <= size
    ensures NextChunk(input, end, size) == Stream(data, EOF, rest) <==> IsBody(input, data, rest)
  {
    if NextChunk(input, end, size) == Stream(data, EOF, rest) {
      var ps, last := Parse(input, end, size);
    }
    if IsBody(input, data, rest) {
      var ps: seq<Part>, last: seq<byte> :| Shape(input, data, rest, ps, last);
      PartsDecode(ps, last + [LF] + rest, end, size);
      LineStarts(last, 0, rest, end, size);
      assert AllData(ps) + [] == AllData(ps);
    }
  }

  // ------------------------------------------------------------ the size in a line

  lemma {:induction false} TrimTo(text: seq<byte>, blanks: seq<byte>)
    requires text != [] ==> !IsSpace(text[|text| - 1])
    requires forall i :: 0 <= i < |blanks| ==> IsSpace(blanks[i])
    ensures Trim(text + blanks) == text
    decreases |blanks|
  {
    if blanks == [] {
      assert text + blanks == text;
    } else {
      var n := |blanks| - 1;
      assert (text + blanks)[..|text| + n] == text + blanks[..n];
      TrimTo(text, blanks[..n]);
    }
  }

  lemma CutAt(digits: seq<byte>, rest: seq<byte>)
    requires AllHex(digits) && (rest != [] ==> rest[0] == 0x3b)
    ensures CutExtension(digits + rest) == digits
  {
    var all := digits + rest;
    assert forall j :: 0 <= j < |digits| ==> all[j] == digits[j] && IsHex(all[j]) && all[j] != 0x3b;
    assert rest != [] ==> all[|digits|] == 0x3b;
    assert IndexOf(all, 0x3b, 0) == |digits|;
  }

  /** Spaces, tabs and a CR behind the digits do not matter, and nothing does behind a semicolon. */
  lemma SizeIsTheDigits(digits: seq<byte>, blanks: seq<byte>, extension: seq<byte>)
    requires AllHex(digits)
    requires forall i :: 0 <= i < |blanks| ==> blanks[i] == 0x20 || blanks[i] == 0x09 || blanks[i] == 0x0d
    ensures SizeOf(digits + blanks) == digits && SizeOf(digits + [0x3b] + extension) == digits
  {
    assert digits + blanks + [LF] == digits + (blanks + [LF]);
    TrimTo(digits, blanks + [LF]);
    CutAt(digits, []);
    assert digits + [] == digits;
    var line := digits + [0x3b] + extension + [LF];
    TrimKeepsFront(digits + [0x3b], extension + [LF]);
    assert line == digits + [0x3b] + (extension + [LF]);
    var trimmed := Trim(line);
    assert trimmed == digits + trimmed[|digits|..];
    CutAt(digits, trimmed[|digits|..]);
  }

  lemma {:induction false} TrimKeepsFront(front: seq<byte>, rest: seq<byte>)
    requires front != [] && !IsSpace(front[|front| - 1])
    ensures front <= Trim(front + rest)
    decreases |rest|
  {
    if rest == [] {
      assert front + rest == front;
    } else {
      var n := |rest| - 1;
      assert (front + rest)[..|front| + n] == front + rest[..n];
      TrimKeepsFront(front, rest[..n]);
    }
  }

  // ------------------------------------------------------------ and with which error it is refused

  /** Two bytes other than CRLF behind the data. */
  lemma WrongEndIsMalformed(p: Part, two: seq<byte>, rest: seq<byte>, end: IOError, size: nat)
    requires LegalPart(p) && |two| == 2 && MAX_LINE_LENGTH <= size
    ensures NextChunk(p.text + [LF] + p.data + two + rest, end, size) == Stream(p.data, MALFORMED, rest)
      <==> two != CRLF || NextChunk(rest, end, size) == Stream([], MALFORMED, rest)
  {
    var more := p.data + (two + rest);
    assert p.text + [LF] + p.data + two + rest == p.text + [LF] + more;
    LineStarts(p.text, |p.data|, more, end, size);
    assert more[..|p.data|] == p.data && more[|p.data|..] == two + rest;
    assert (two + rest)[..2] == two && (two + rest)[2..] == rest;
    assert p.data + [] == p.data;
  }

  /** Data that ends early: what there is of it, and then an unexpected end. */
  lemma ShortData(text: seq<byte>, n: nat, data: seq<byte>, end: IOError, size: nat)
    requires IsLine(text, n) && |data| < n && MAX_LINE_LENGTH <= size
    ensures NextChunk(text + [LF] + data, end, size) == Stream(data, Unexpected(end), [])
  {
    LineStarts(text, n, data, end, size);
  }

  /** A line of 4096 bytes or more is too long, and only such a line. */
  lemma LongLineIff(text: seq<byte>, rest: seq<byte>, end: IOError, size: nat)
    requires LF !in text && MAX_LINE_LENGTH <= size
    ensures ReadLine(text + [LF] + rest, end, size).0 == Err(LINE_TOO_LONG) <==> |text| + 1 >= 4096
  {
    var input := text + [LF] + rest;
    assert forall j :: 0 <= j < |text| ==> input[j] == text[j] && input[j] in text;
    assert input[|text|] == LF;
    assert IndexOf(input, LF, 0) == |text|;
  }

  /** A size is refused if and only if a byte among its first 17 is no digit, or it has more than 16 digits. */
  lemma SizeRefusedIff(size: seq<byte>)
    ensures ParseHex(size) == Err(INVALID_BYTE) <==> exists i :: 0 <= i < |size| && i <= 16 && !IsHex(size[i])
    ensures ParseHex(size) == Err(LENGTH_TOO_LARGE) <==>
      |size| > 16 && forall i :: 0 <= i < |size| && i <= 16 ==> IsHex(size[i])
    ensures ParseHex(size).Ok? <==> |size| <= 16 && AllHex(size)
  {
  }
}
