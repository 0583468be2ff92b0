/**
 * Which strings the loop of New in internal/bisect/bisect.go accepts, what each compiles to, and which of them are
 * written patterns.
 */
module BisectSyntax {
  import opened MachineInts
  import opened Wrappers
  import opened Bisect

  // ------------------------------------------------------------ the syntax

  predicate IsSign(c: char) { c == '+' || c == '-' }

  predicate NoSigns(text: string) { forall i :: 0 <= i < |text| ==> !IsSign(text[i]) }

  /** The characters before the first sign. */
  function Until(p: string): (n: nat)
    ensures n <= |p| && NoSigns(p[..n]) && AtSign(p[n..])
  {
    if p == [] || IsSign(p[0]) then 0
    else
      assert p[..1 + Until(p[1..])] == [p[0]] + p[1..][..Until(p[1..])];
      1 + Until(p[1..])
  }

  /** A digit, or a y that no 0 or 1 follows. */
  predicate Readable(body: string, wid: nat, i: nat)
    requires i < |body|
  {
    IsDigit(body[i], wid) || (body[i] == 'y' && (i + 1 < |body| ==> body[i + 1] != '0' && body[i + 1] != '1'))
  }

  predicate AllReadable(body: string, wid: nat) { forall i :: 0 <= i < |body| ==> Readable(body, wid, i) }

  /** What stands between two signs, with the sign before it. */
  datatype Piece = Piece(plus: bool, text: string) {
    predicate Marked() { text != [] && text[0] == 'x' }
    function Wid(): nat { if Marked() then 4 else 1 }
    function Body(): string { if Marked() then text[1..] else text }

    predicate Accepted() { Body() != [] && |Body()| * Wid() <= 64 && AllReadable(Body(), Wid()) }

    predicate Exact() { 'y' in text ==> text == "y" }
  }

  function Split(rest: string, plus: bool): (ps: seq<Piece>)
    ensures ps != [] && ps[0].plus == plus
    decreases |rest|
  {
    var n := Until(rest);
    [Piece(plus, rest[..n])] + if n == |rest| then [] else Split(rest[n + 1..], rest[n] == '+')
  }

  function Pieces(p: string): seq<Piece> {
    if p == [] then [] else if IsSign(p[0]) then Split(p[1..], p[0] == '+') else Split(p, true)
  }

  predicate PlusesFirst(ps: seq<Piece>) { forall i, j :: 0 <= i < j < |ps| && ps[j].plus ==> ps[i].plus }

  predicate AllAccepted(ps: seq<Piece>) { forall i :: 0 <= i < |ps| ==> ps[i].Accepted() }

  predicate Accepts(p: string) { PlusesFirst(Pieces(p)) && AllAccepted(Pieces(p)) }

  // ------------------------------------------------------------ what the pieces say

  function DigitOf(c: char): nat { if IsDigit(c, 4) then HexValue(c) else 0 }

  /** A y makes zeros of itself and of all the digits before it. */
  function Erased(body: string): (ds: seq<nat>)
    ensures |ds| == |body|
  {
    if body == [] then []
    else
      var n := |body| - 1;
      if body[n] == 'y' then Zeros(n + 1) else Erased(body[..n]) + [DigitOf(body[n])]
  }

  function Zeros(n: nat): (ds: seq<nat>)
    ensures |ds| == n && forall i :: 0 <= i < n ==> ds[i] == 0
  {
    if n == 0 then [] else Zeros(n - 1) + [0]
  }

  function Base(wid: nat): nat { if wid == 4 then 16 else 2 }

  function BitsOf(p: Piece): nat { Value(Erased(p.Body()), Base(p.Wid())) }

  /** A leading y followed by a digit other than zero. */
  predicate Void(p: Piece) { p.Body() != [] && p.Body()[0] == 'y' && BitsOf(p) != 0 }

  function SuffixOf(p: Piece): Suffix {
    if p.Body() != [] && p.Body()[0] == 'y' then All
    else if p.Marked() then Hexadecimal(Erased(p.Body()))
    else Binary(Erased(p.Body()))
  }

  function CondFor(p: Piece): Cond {
    if Void(p) then Cond(0, BitsOf(p), p.plus) else CondOf(Term(p.plus, SuffixOf(p)))
  }

  function CondsFor(ps: seq<Piece>): seq<Cond> { if ps == [] then [] else [CondFor(ps[0])] + CondsFor(ps[1..]) }

  function Head(ps: seq<Piece>): seq<Cond> { if ps != [] && ps[0].plus then [] else [Cond(0, 0, true)] }

  // ------------------------------------------------------------ scanning a piece

  /** The bits of a scanner within 64 bits are those of what it has seen. */
  ghost predicate BitsHold(s: Scanner) {
    && (s.wid == 1 || s.wid == 4)
    && (forall i :: 0 <= i < |s.seen| ==> IsDigit(s.seen[i], s.wid) || s.seen[i] == 'y')
    && (|s.seen| * s.wid <= 64 ==> s.bits == Value(Erased(s.seen), Base(s.wid)))
  }

  lemma {:induction false} ZerosAreZero(n: nat, base: nat)
    ensures Value(Zeros(n), base) == 0
  {
    if n > 0 {
      assert Zeros(n)[..n - 1] == Zeros(n - 1);
      ZerosAreZero(n - 1, base);
    }
  }

  lemma {:induction false} ErasedDigits(body: string, wid: nat)
    requires wid == 1 || wid == 4
    requires forall i :: 0 <= i < |body| ==> IsDigit(body[i], wid) || body[i] == 'y'
    ensures forall i :: 0 <= i < |body| ==> Erased(body)[i] < Base(wid)
    decreases |body|
  {
    if body != [] && body[|body| - 1] != 'y' {
      ErasedDigits(body[..|body| - 1], wid);
    }
  }

  lemma ErasedDigit(body: string, c: char)
    requires IsDigit(c, 4)
    ensures Erased(body + [c]) == Erased(body) + [HexValue(c)]
  {
    assert (body + [c])[..|body|] == body;
  }

  lemma DigitBelow(c: char, wid: nat)
    requires (wid == 1 || wid == 4) && IsDigit(c, wid)
    ensures IsDigit(c, 4) && HexValue(c) < Base(wid)
  {
  }

  lemma DigitBits(bits: nat, ds: seq<nat>, d: nat, wid: nat)
    requires wid == 1 || wid == 4
    requires |ds| < (if wid == 4 then 16 else 64) && d < Base(wid) && forall i :: 0 <= i < |ds| ==> ds[i] < Base(wid)
    requires bits == Value(ds, Base(wid))
    ensures (bits * Pow2(wid) + d) % TWO_64 == Value(ds + [d], Base(wid))
  {
    NextFits(ds, d, Base(wid));
    ValueCons(ds, d, Base(wid));
    ShiftIsBase(wid);
    PushValue(bits, Pow2(wid), Value(ds, Base(wid)), Base(wid), d);
  }

  lemma ErasedNext(body: string, c: char, wid: nat)
    requires (wid == 1 || wid == 4) && IsDigit(c, wid)
    requires forall i :: 0 <= i < |body| ==> IsDigit(body[i], wid) || body[i] == 'y'
    ensures IsDigit(c, 4) && HexValue(c) < Base(wid) && forall i :: 0 <= i < |body| ==> Erased(body)[i] < Base(wid)
    ensures Erased(body + [c]) == Erased(body) + [HexValue(c)]
  {
    DigitBelow(c, wid);
    ErasedDigit(body, c);
    ErasedDigits(body, wid);
  }

  lemma ShiftIsBase(wid: nat)
    requires wid == 1 || wid == 4
    ensures Pow2(wid) == Base(wid)
  {
    assert Pow2(1) == 2 && Pow2(2) == 4 && Pow2(3) == 8 && Pow2(4) == 16;
  }

  lemma ValueCons(ds: seq<nat>, d: nat, base: nat)
    ensures Value(ds + [d], base) == Value(ds, base) * base + d
  {
    assert (ds + [d])[..|ds|] == ds;
  }

  lemma DigitKeepsBits(s: Scanner, c: char)
    requires BitsHold(s) && IsDigit(c, s.wid)
    ensures BitsHold(Pushed(s, c))
  {
    if |s.seen| < (if s.wid == 4 then 16 else 64) {
      ErasedNext(s.seen, c, s.wid);
      DigitBits(s.bits, Erased(s.seen), HexValue(c), s.wid);
    }
  }

  lemma YKeepsBits(s: Scanner)
    requires BitsHold(s)
    ensures BitsHold(s.(first := false, seen := s.seen + ['y'], bits := 0))
  {
    ZerosAreZero(|s.seen| + 1, Base(s.wid));
  }

  lemma ReadableTail(body: string, wid: nat)
    requires body != []
    ensures AllReadable(body, wid) <==> Readable(body, wid, 0) && AllReadable(body[1..], wid)
  {
    var tail := body[1..];
    assert forall i :: 0 <= i < |tail| ==> (Readable(tail, wid, i) <==> Readable(body, wid, i + 1));
    if Readable(body, wid, 0) && AllReadable(tail, wid) {
      forall i | 0 <= i < |body|
        ensures Readable(body, wid, i)
      {
        if i > 0 {
          assert Readable(tail, wid, i - 1);
        }
      }
    }
  }

  /** The scanner behind a readable character, but for its bits. */
  function Read(s: Scanner, c: char, bits: nat): Scanner {
    Scanner(false, s.seen + [c], s.wid, bits, s.result, s.list)
  }

  lemma ScanChar(body: string, rest: string, s: Scanner) returns (bits: nat)
    requires body != [] && NoSigns(body) && AtSign(rest) && BitsHold(s)
    requires s.seen == [] && s.wid == 1 ==> body[0] != 'x'
    ensures var t := Read(s, body[0], bits);
      if Readable(body, s.wid, 0) then BitsHold(t) && Scan(body + rest, s) == Scan(body[1..] + rest, t)
      else Scan(body + rest, s) == None
  {
    var c, tail := body[0], body[1..];
    assert body + rest == [c] + (tail + rest);
    ScanStep(c, tail + rest, s);
    bits := 0;
    if IsDigit(c, s.wid) {
      DigitKeepsBits(s, c);
      bits := Pushed(s, c).bits;
    } else if c == 'y' {
      YKeepsBits(s);
      assert |body| > 1 ==> (tail + rest)[0] == body[1];
    }
  }

  /** Over the characters of a body: the scanner gets to its end exactly when all of them can be read. */
  lemma {:induction false} ScanBody(body: string, rest: string, s: Scanner) returns (bits: nat)
    requires NoSigns(body) && AtSign(rest) && BitsHold(s)
    requires s.seen == [] && s.wid == 1 && body != [] ==> body[0] != 'x'
    ensures var t := Scanner(s.first && body == [], s.seen + body, s.wid, bits, s.result, s.list);
      if AllReadable(body, s.wid) then BitsHold(t) && Scan(body + rest, s) == Scan(rest, t)
      else Scan(body + rest, s) == None
    decreases |body|
  {
    if body == [] {
      assert body + rest == rest && s.seen + body == s.seen;
      bits := s.bits;
    } else {
      ReadableTail(body, s.wid);
      bits := ScanChar(body, rest, s);
      if Readable(body, s.wid, 0) {
        var t := Read(s, body[0], bits);
        bits := ScanBody(body[1..], rest, t);
        assert t.seen + body[1..] == s.seen + body;
      }
    }
  }

  /** What flushing the scanner gives behind a piece. */
  function Behind(p: Piece, s: Scanner, plus: bool): Option<Scanner> {
    if (plus && !s.result) || !p.Accepted() then None
    else Some(Scanner(false, [], 1, 0, plus, s.list + [CondFor(p)]))
  }

  lemma FlushedBody(p: Piece, s: Scanner, bits: nat, plus: bool)
    requires AllReadable(p.Body(), p.Wid()) && p.plus == s.result
    requires BitsHold(Scanner(false, p.Body(), p.Wid(), bits, s.result, s.list))
    ensures Flushed(Scanner(false, p.Body(), p.Wid(), bits, s.result, s.list), plus) == Behind(p, s, plus)
  {
  }

  /** What the loop does behind a piece, with the sign or the end after it. */
  function Onward(p: Piece, rest: string, s: Scanner): Option<seq<Cond>> {
    match Behind(p, s, rest != [] && rest[0] == '+')
    case None => None
    case Some(t) => if rest == [] then Some(t.list) else Scan(rest[1..], t)
  }

  lemma FlushedScan(rest: string, t: Scanner)
    requires AtSign(rest) && !t.first && t.seen != []
    ensures Scan(rest, t) ==
      match Flushed(t, rest != [] && rest[0] == '+')
      case None => None
      case Some(u) => if rest == [] then Some(u.list) else Scan(rest[1..], u)
  {
  }

  lemma FlushedEmpty(p: Piece, rest: string, s: Scanner, t: Scanner)
    requires AtSign(rest) && !t.first && t.seen == [] && p.Body() == []
    ensures Scan(rest, t) == None == Onward(p, rest, s)
  {
  }

  lemma ScanPieceBody(p: Piece, rest: string, s: Scanner, start: Scanner)
    requires NoSigns(p.text) && AtSign(rest) && p.plus == s.result && (start.first ==> p.Body() != [])
    requires start == Scanner(start.first, [], p.Wid(), 0, s.result, s.list)
    ensures Scan(p.Body() + rest, start) == Onward(p, rest, s)
  {
    var bits := ScanBody(p.Body(), rest, start);
    assert start.seen + p.Body() == p.Body();
    var t := Scanner(false, p.Body(), p.Wid(), bits, s.result, s.list);
    if AllReadable(p.Body(), p.Wid()) {
      if p.Body() == [] {
        FlushedEmpty(p, rest, s, t);
      } else {
        FlushedScan(rest, t);
        FlushedBody(p, s, bits, rest != [] && rest[0] == '+');
      }
    }
  }

  /** Over a piece, with the sign or the end behind it. */
  lemma ScanPiece(p: Piece, rest: string, s: Scanner)
    requires NoSigns(p.text) && AtSign(rest) && Between(s) && p.plus == s.result && (s.first ==> p.text != [])
    ensures Scan(p.text + rest, s) == Onward(p, rest, s)
  {
    if p.Marked() {
      assert p.text + rest == ['x'] + (p.Body() + rest);
      ScanStep('x', p.Body() + rest, s);
      ScanPieceBody(p, rest, s, s.(first := false, wid := 4));
    } else {
      ScanPieceBody(p, rest, s, s);
    }
  }

  predicate Legal(ps: seq<Piece>) { PlusesFirst(ps) && AllAccepted(ps) }

  lemma ConsedPluses(p: Piece, ps: seq<Piece>)
    requires ps != []
    ensures PlusesFirst([p] + ps) <==> PlusesFirst(ps) && (ps[0].plus ==> p.plus)
  {
    var all := [p] + ps;
    if PlusesFirst(all) {
      forall i, j | 0 <= i < j < |ps| && ps[j].plus
        ensures ps[i].plus
      {
        assert all[j + 1].plus && all[i + 1] == ps[i];
      }
      assert all[0] == p && all[1] == ps[0];
      assert PlusesFirst(ps);
    }
    if PlusesFirst(ps) && (ps[0].plus ==> p.plus) {
      forall i, j | 0 <= i < j < |all| && all[j].plus
        ensures all[i].plus
      {
        assert all[j] == ps[j - 1] && ps[j - 1].plus;
        if i > 0 {
          assert all[i] == ps[i - 1];
        }
      }
    }
  }

  lemma Consed(p: Piece, ps: seq<Piece>)
    requires ps != []
    ensures Legal([p] + ps) <==> Legal(ps) && p.Accepted() && (ps[0].plus ==> p.plus)
    ensures CondsFor([p] + ps) == [CondFor(p)] + CondsFor(ps)
  {
    var all := [p] + ps;
    assert all[1..] == ps;
    ConsedPluses(p, ps);
    if AllAccepted(all) {
      assert forall i :: 0 <= i < |ps| ==> ps[i] == all[i + 1];
    }
  }

  lemma JoinConds(list: seq<Cond>, p: Piece, more: seq<Cond>)
    ensures list + [CondFor(p)] + more == list + ([CondFor(p)] + more)
  {
  }

  lemma SplitOnce(rest: string, plus: bool)
    ensures var n := Until(rest);
      Split(rest, plus) == [Piece(plus, rest[..n])] + if n == |rest| then [] else Split(rest[n + 1..], rest[n] == '+')
  {
  }

  lemma {:induction false} ScanPieces(rest: string, s: Scanner)
    requires Between(s) && (s.first ==> Until(rest) > 0)
    ensures Scan(rest, s) ==
      if Legal(Split(rest, s.result)) then Some(s.list + CondsFor(Split(rest, s.result))) else None
    decreases |rest|, 0
  {
    var n := Until(rest);
    var p := Piece(s.result, rest[..n]);
    assert rest == p.text + rest[n..];
    ScanPiece(p, rest[n..], s);
    SplitOnce(rest, s.result);
    if n == |rest| {
      assert CondsFor([p]) == [CondFor(p)];
      assert [p][0] == p;
    } else {
      var plus := rest[n] == '+';
      assert rest[n..][1..] == rest[n + 1..] && rest[n..][0] == rest[n];
      Consed(p, Split(rest[n + 1..], plus));
      ScanRest(p, rest[n + 1..], plus, s);
    }
  }

  lemma {:induction false} ScanRest(p: Piece, rest: string, plus: bool, s: Scanner)
    ensures var list := s.list + [CondFor(p)];
      Scan(rest, Scanner(false, [], 1, 0, plus, list)) ==
      if Legal(Split(rest, plus)) then Some(s.list + ([CondFor(p)] + CondsFor(Split(rest, plus)))) else None
    decreases |rest|, 1
  {
    ScanPieces(rest, Scanner(false, [], 1, 0, plus, s.list + [CondFor(p)]));
    JoinConds(s.list, p, CondsFor(Split(rest, plus)));
  }

  lemma SignedScan(p: string)
    requires p != [] && IsSign(p[0])
    ensures Scan(p, FRESH) == if Legal(Pieces(p)) then Some(Head(Pieces(p)) + CondsFor(Pieces(p))) else None
  {
    var plus := p[0] == '+';
    var s := Scanner(false, [], 1, 0, plus, if plus then [] else [Cond(0, 0, true)]);
    assert FRESH.list + [Cond(0, 0, true)] == [Cond(0, 0, true)];
    assert Flushed(FRESH, plus) == Some(s);
    assert Scan(p, FRESH) == Scan(p[1..], s);
    ScanPieces(p[1..], s);
  }

  /**
   * Main result on syntax: a string is accepted if and only if every piece between its signs has at least one and at
   * most 64 bits of digits of its base, or of y not followed by 0 or 1, and no plus stands behind a minus. What it
   * compiles to is a condition for each piece.
   */
  lemma AcceptedIff(p: string)
    ensures Scan(p, FRESH).Some? <==> Accepts(p)
    ensures Accepts(p) ==> Scan(p, FRESH) == Some(Head(Pieces(p)) + CondsFor(Pieces(p)))
  {
    if p == [] {
      assert FRESH.list + [Cond(0, 0, true)] == Head([]) + CondsFor([]);
    } else if IsSign(p[0]) {
      SignedScan(p);
    } else {
      ScanPieces(p, FRESH);
      assert Head(Pieces(p)) == FRESH.list;
    }
  }

  // ------------------------------------------------------------ what accepted strings mean

  function TermOf(p: Piece): Term { Term(p.plus, SuffixOf(p)) }

  function TermsOf(ps: seq<Piece>): (ts: seq<Term>)
    ensures |ts| == |ps| && forall i :: 0 <= i < |ps| ==> ts[i] == TermOf(ps[i])
  {
    if ps == [] then [] else [TermOf(ps[0])] + TermsOf(ps[1..])
  }

  /** The pieces that some change can match. */
  function Effective(ps: seq<Piece>): seq<Piece> {
    if ps == [] then [] else (if Void(ps[0]) then [] else [ps[0]]) + Effective(ps[1..])
  }

  lemma VoidMatchesNothing(p: Piece, id: nat)
    requires Void(p)
    ensures !Matches(CondFor(p), id)
  {
    assert Pow2(0) == 1;
    DivMod(id, 1);
  }

  lemma {:induction false} VoidDrops(list: seq<Cond>, p: Piece, more: seq<Cond>, id: nat)
    requires Void(p)
    ensures MatchResult(list + [CondFor(p)] + more, id) == MatchResult(list + more, id)
    decreases |more|
  {
    var with, without := list + [CondFor(p)] + more, list + more;
    if more == [] {
      VoidMatchesNothing(p, id);
      assert with[..|with| - 1] == list && without == list;
    } else {
      var n := |more| - 1;
      assert with[..|with| - 1] == list + [CondFor(p)] + more[..n];
      assert without[..|without| - 1] == list + more[..n];
      VoidDrops(list, p, more[..n], id);
    }
  }

  lemma SuffixIsLegal(p: Piece)
    requires p.Accepted()
    ensures SuffixOf(p).Legal()
  {
    var body := p.Body();
    forall i | 0 <= i < |body|
      ensures IsDigit(body[i], p.Wid()) || body[i] == 'y'
    {
      assert Readable(body, p.Wid(), i);
    }
    ErasedDigits(body, p.Wid());
  }

  lemma {:induction false} PiecesMean(list: seq<Cond>, ps: seq<Piece>, id: nat)
    requires AllAccepted(ps)
    ensures MatchResult(list + CondsFor(ps), id) == MatchResult(list + Conds(TermsOf(Effective(ps))), id)
    decreases |ps|
  {
    if ps != [] {
      var p, tail := ps[0], ps[1..];
      JoinConds(list, p, CondsFor(tail));
      PiecesMean(list + [CondFor(p)], tail, id);
      var more := Conds(TermsOf(Effective(tail)));
      if Void(p) {
        assert Effective(ps) == Effective(tail);
        VoidDrops(list, p, more, id);
      } else {
        assert Effective(ps) == [p] + Effective(tail);
        TermsOfCons(p, Effective(tail));
        JoinConds(list, p, more);
      }
    }
  }

  lemma TermsOfCons(p: Piece, ps: seq<Piece>)
    ensures Conds(TermsOf([p] + ps)) == [CondOf(TermOf(p))] + Conds(TermsOf(ps))
  {
    TermsOfJoin(p, ps);
    CondsCons(TermOf(p), TermsOf(ps));
  }

  lemma {:induction false} EffectiveIsLegal(ps: seq<Piece>)
    requires AllAccepted(ps)
    ensures forall i :: 0 <= i < |Effective(ps)| ==> TermOf(Effective(ps)[i]).suffix.Legal()
    decreases |ps|
  {
    if ps != [] {
      SuffixIsLegal(ps[0]);
      EffectiveIsLegal(ps[1..]);
    }
  }

  /**
   * Main result on accepted strings: each means the set expression of its pieces, from left to right, where a y stands
   * for zeros in its place and in all the places before it, a piece with a leading y for all changes, and a piece with
   * a leading y and a digit other than zero for none at all.
   */
  lemma AcceptedMeans(p: string, id: nat)
    requires Accepts(p)
    ensures Scan(p, FRESH).Some?
    ensures MatchResult(Scan(p, FRESH).value, id)
      == In(TermsOf(Effective(Pieces(p))), id, p == [] || !Pieces(p)[0].plus)
  {
    var ps := Pieces(p);
    AcceptedIff(p);
    PiecesMean(Head(ps), ps, id);
    EffectiveIsLegal(ps);
    CondsMean(Head(ps), TermsOf(Effective(ps)), id);
    HeadResult(ps, id);
  }

  lemma HeadResult(ps: seq<Piece>, id: nat)
    ensures MatchResult(Head(ps), id) == !(ps != [] && ps[0].plus)
  {
    assert Pow2(0) == 1;
    DivMod(id, 1);
  }

  // ------------------------------------------------------------ which of them are written patterns

  function LowerChar(c: char): char { if 'A' <= c <= 'F' then c - 'A' + 'a' else c }

  /** Hexadecimal digits in lower case. */
  function Lower(p: string): (r: string)
    ensures |r| == |p| && forall i :: 0 <= i < |p| ==> r[i] == LowerChar(p[i])
  {
    seq(|p|, i requires 0 <= i < |p| => LowerChar(p[i]))
  }

  function Reading(p: string): Pattern { Pattern(TermsOf(Pieces(p)), p != [] && IsSign(p[0])) }

  predicate AllExact(ps: seq<Piece>) { forall i :: 0 <= i < |ps| ==> ps[i].Exact() }

  lemma ReadingIsLegal(p: string)
    requires Accepts(p) && p != []
    ensures Reading(p).Legal()
  {
    var ps := Pieces(p);
    forall i | 0 <= i < |ps|
      ensures SuffixOf(ps[i]).Legal()
    {
      SuffixIsLegal(ps[i]);
    }
  }

  lemma {:induction false} DigitsAt(ds: seq<nat>)
    requires forall i :: 0 <= i < |ds| ==> ds[i] < 16
    ensures |Digits(ds)| == |ds| && forall i :: 0 <= i < |ds| ==> Digits(ds)[i] == DigitChar(ds[i])
    decreases |ds|
  {
    if ds != [] {
      DigitsAt(ds[1..]);
    }
  }

  lemma {:induction false} ErasedWithoutY(body: string)
    requires 'y' !in body
    ensures forall i :: 0 <= i < |body| ==> Erased(body)[i] == DigitOf(body[i])
    decreases |body|
  {
    if body != [] {
      ErasedWithoutY(body[..|body| - 1]);
    }
  }

  lemma CharText(c: char, wid: nat)
    requires IsDigit(c, wid)
    ensures DigitOf(c) < 16 && DigitChar(DigitOf(c)) == LowerChar(c)
  {
  }

  lemma BodyText(body: string, wid: nat)
    requires AllReadable(body, wid) && 'y' !in body
    ensures forall i :: 0 <= i < |body| ==> Erased(body)[i] < 16
    ensures Digits(Erased(body)) == Lower(body)
  {
    ErasedWithoutY(body);
    forall i | 0 <= i < |body|
      ensures Erased(body)[i] < 16 && DigitChar(Erased(body)[i]) == LowerChar(body[i])
    {
      assert Readable(body, wid, i) && body[i] != 'y';
      CharText(body[i], wid);
    }
    DigitsAt(Erased(body));
  }

  lemma PieceText(p: Piece)
    requires p.Accepted() && p.Exact()
    ensures SuffixOf(p).Legal() && SuffixText(SuffixOf(p)) == Lower(p.text)
    ensures !Void(p)
  {
    SuffixIsLegal(p);
    if p.text == "y" {
      ZerosAreZero(1, 2);
    } else {
      BodyText(p.Body(), p.Wid());
      if p.Marked() {
        assert p.text == "x" + p.Body();
        assert Lower(p.text) == "x" + Lower(p.Body());
      }
    }
  }

  lemma LowerJoins(a: string, b: string)
    ensures Lower(a + b) == Lower(a) + Lower(b)
  {
  }

  lemma LowerAfterSign(c: char, rest: string)
    requires IsSign(c)
    ensures Lower([c] + rest) == [c] + Lower(rest)
  {
  }

  lemma LowerSplit(rest: string, n: nat)
    requires n < |rest| && IsSign(rest[n])
    ensures Lower(rest) == Lower(rest[..n]) + ([rest[n]] + Lower(rest[n + 1..]))
  {
    assert rest == rest[..n] + ([rest[n]] + rest[n + 1..]);
    LowerJoins(rest[..n], [rest[n]] + rest[n + 1..]);
    LowerAfterSign(rest[n], rest[n + 1..]);
  }

  lemma TermsLegal(ps: seq<Piece>)
    requires AllAccepted(ps)
    ensures forall i :: 0 <= i < |ps| ==> TermsOf(ps)[i].suffix.Legal()
  {
    forall i | 0 <= i < |ps|
      ensures SuffixOf(ps[i]).Legal()
    {
      SuffixIsLegal(ps[i]);
    }
  }

  lemma TermsOfJoin(p: Piece, ps: seq<Piece>)
    ensures TermsOf([p] + ps) == [TermOf(p)] + TermsOf(ps)
  {
    assert ([p] + ps)[1..] == ps;
  }

  lemma TextJoin(t: Term, terms: seq<Term>)
    requires t.suffix.Legal() && forall i :: 0 <= i < |terms| ==> terms[i].suffix.Legal()
    ensures TermsText([t] + terms) == [if t.plus then '+' else '-'] + (SuffixText(t.suffix) + TermsText(terms))
  {
    TermsTextCons([t] + terms);
    assert ([t] + terms)[1..] == terms;
  }

  lemma JoinPiece(p: Piece, ps: seq<Piece>)
    requires p.Accepted() && p.Exact() && AllAccepted(ps)
    ensures forall i :: 0 <= i < |ps| + 1 ==> TermsOf([p] + ps)[i].suffix.Legal()
    ensures forall i :: 0 <= i < |ps| ==> TermsOf(ps)[i].suffix.Legal()
    ensures TermsText(TermsOf([p] + ps)) == [if p.plus then '+' else '-'] + (Lower(p.text) + TermsText(TermsOf(ps)))
  {
    PieceText(p);
    TermsLegal(ps);
    TermsOfJoin(p, ps);
    TextJoin(TermOf(p), TermsOf(ps));
  }

  lemma SplitLegal(p: Piece, ps: seq<Piece>)
    requires AllAccepted([p] + ps) && AllExact([p] + ps)
    ensures p.Accepted() && p.Exact() && AllAccepted(ps) && AllExact(ps)
  {
    var all := [p] + ps;
    assert all[0] == p && forall i :: 0 <= i < |ps| ==> ps[i] == all[i + 1];
  }

  lemma {:induction false} SplitJoins(rest: string, plus: bool)
    requires AllAccepted(Split(rest, plus)) && AllExact(Split(rest, plus))
    ensures var terms := TermsOf(Split(rest, plus));
      (forall i :: 0 <= i < |terms| ==> terms[i].suffix.Legal())
      && TermsText(terms) == [if plus then '+' else '-'] + Lower(rest)
    decreases |rest|
  {
    var n := Until(rest);
    var p := Piece(plus, rest[..n]);
    var ps := if n == |rest| then [] else Split(rest[n + 1..], rest[n] == '+');
    SplitOnce(rest, plus);
    SplitLegal(p, ps);
    JoinPiece(p, ps);
    if n < |rest| {
      SplitJoins(rest[n + 1..], rest[n] == '+');
      LowerSplit(rest, n);
    } else {
      assert rest[..n] == rest;
    }
  }

  lemma ExactCond(p: Piece)
    requires p.Accepted() && p.Exact()
    ensures CondFor(p) == CondOf(TermOf(p))
  {
    PieceText(p);
  }

  lemma {:induction false} ExactConds(ps: seq<Piece>)
    requires AllAccepted(ps) && AllExact(ps)
    ensures CondsFor(ps) == Conds(TermsOf(ps))
    decreases |ps|
  {
    if ps != [] {
      var p, tail := ps[0], ps[1..];
      assert [p] + tail == ps;
      SplitLegal(p, tail);
      ExactCond(p);
      ExactConds(tail);
      TermsOfCons(p, tail);
    }
  }

  lemma UnsignedText(q: Pattern, text: string)
    requires q.Legal() && !q.signed && TermsText(q.terms) == ['+'] + text
    ensures Text(q) == text
  {
    TermsTextCons(q.terms);
    assert TermsText(q.terms)[1..] == text;
  }

  lemma ExactText(p: string)
    requires Accepts(p) && p != [] && AllExact(Pieces(p))
    ensures Reading(p).Legal() && Text(Reading(p)) == Lower(p)
  {
    ReadingIsLegal(p);
    if IsSign(p[0]) {
      SplitJoins(p[1..], p[0] == '+');
      assert [p[0]] + p[1..] == p;
      LowerAfterSign(p[0], p[1..]);
    } else {
      SplitJoins(p, true);
      UnsignedText(Reading(p), Lower(p));
    }
  }

  /** An accepted string in which only whole suffixes are y is the text of its reading, and compiles to it. */
  lemma ExactIsWritten(p: string)
    requires Accepts(p) && p != [] && AllExact(Pieces(p))
    ensures Reading(p).Legal() && Text(Reading(p)) == Lower(p) && Scan(p, FRESH) == Some(Compiled(Reading(p)))
  {
    ExactText(p);
    AcceptedIff(p);
    ExactConds(Pieces(p));
  }

  // ------------------------------------------------------------ and the other way round

  lemma SuffixTextIsExact(s: Suffix)
    requires s.Legal()
    ensures NoSigns(SuffixText(s)) && ('y' in SuffixText(s) ==> SuffixText(s) == "y")
  {
    if !s.All? {
      DigitsAt(s.ds);
    }
  }

  lemma {:induction false} UntilIs(text: string, rest: string)
    requires NoSigns(text) && AtSign(rest)
    ensures Until(text + rest) == |text|
  {
    if text == [] {
      assert text + rest == rest;
    } else {
      assert (text + rest)[1..] == text[1..] + rest;
      UntilIs(text[1..], rest);
    }
  }

  lemma ExactCons(p: Piece, ps: seq<Piece>)
    ensures AllExact([p] + ps) <==> p.Exact() && AllExact(ps)
  {
    var all := [p] + ps;
    if AllExact(all) {
      assert forall i :: 0 <= i < |ps| ==> ps[i] == all[i + 1];
      assert all[0] == p;
    }
  }

  lemma SplitBehind(text: string, rest: string, plus: bool)
    requires NoSigns(text) && AtSign(rest)
    ensures Split(text + rest, plus)
      == [Piece(plus, text)] + if rest == [] then [] else Split(rest[1..], rest[0] == '+')
  {
    UntilIs(text, rest);
    SplitOnce(text + rest, plus);
    assert (text + rest)[..|text|] == text;
    if rest != [] {
      assert (text + rest)[|text| + 1..] == rest[1..];
    }
  }

  lemma BehindSign(terms: seq<Term>)
    requires terms != [] && forall i :: 0 <= i < |terms| ==> terms[i].suffix.Legal()
    ensures var text := TermsText(terms);
      text != [] && (text[0] == '+' <==> terms[0].plus)
      && text[1..] == SuffixText(terms[0].suffix) + TermsText(terms[1..])
  {
    TermsTextCons(terms);
  }

  /** The pieces of a written text are its suffixes. */
  lemma {:induction false} SplitOfText(t: Term, terms: seq<Term>)
    requires t.suffix.Legal() && forall i :: 0 <= i < |terms| ==> terms[i].suffix.Legal()
    ensures AllExact(Split(SuffixText(t.suffix) + TermsText(terms), t.plus))
    decreases |terms|
  {
    var text, rest := SuffixText(t.suffix), TermsText(terms);
    TermsAtSign(terms);
    SuffixTextIsExact(t.suffix);
    SplitBehind(text, rest, t.plus);
    if terms != [] {
      SplitOfText(terms[0], terms[1..]);
      BehindSign(terms);
      ExactCons(Piece(t.plus, text), Split(rest[1..], rest[0] == '+'));
    } else {
      ExactCons(Piece(t.plus, text), []);
    }
  }

  lemma TextIsExact(q: Pattern)
    requires q.Legal()
    ensures AllExact(Pieces(Text(q)))
  {
    var t, terms := q.terms[0], q.terms[1..];
    SplitOfText(t, terms);
    if q.signed {
      TermsTextCons(q.terms);
      assert Text(q)[1..] == SuffixText(t.suffix) + TermsText(terms);
    } else {
      SuffixTextIsExact(t.suffix);
      assert Text(q)[0] == SuffixText(t.suffix)[0];
    }
  }

  function LowerPieces(ps: seq<Piece>): (qs: seq<Piece>)
    ensures |qs| == |ps| && forall i :: 0 <= i < |ps| ==> qs[i] == Piece(ps[i].plus, Lower(ps[i].text))
  {
    if ps == [] then [] else [Piece(ps[0].plus, Lower(ps[0].text))] + LowerPieces(ps[1..])
  }

  lemma LowerPiecesCons(p: Piece, ps: seq<Piece>)
    ensures LowerPieces([p] + ps) == [Piece(p.plus, Lower(p.text))] + LowerPieces(ps)
  {
    assert ([p] + ps)[1..] == ps;
  }

  lemma LowerKeepsSigns(text: string)
    ensures (NoSigns(Lower(text)) <==> NoSigns(text)) && (AtSign(Lower(text)) <==> AtSign(text))
    ensures AtSign(text) && text != [] ==> Lower(text)[0] == text[0] && Lower(text)[1..] == Lower(text[1..])
  {
  }

  lemma {:induction false} SplitOfLower(rest: string, plus: bool)
    ensures Split(Lower(rest), plus) == LowerPieces(Split(rest, plus))
    decreases |rest|
  {
    var n := Until(rest);
    var text, more := rest[..n], rest[n..];
    assert text + more == rest;
    LowerJoins(text, more);
    LowerKeepsSigns(text);
    LowerKeepsSigns(more);
    SplitBehind(text, more, plus);
    SplitBehind(Lower(text), Lower(more), plus);
    if n < |rest| {
      SplitOfLower(more[1..], more[0] == '+');
      LowerPiecesCons(Piece(plus, text), Split(more[1..], more[0] == '+'));
    } else {
      LowerPiecesCons(Piece(plus, text), []);
    }
  }

  lemma PiecesOfLower(p: string)
    ensures Pieces(Lower(p)) == LowerPieces(Pieces(p))
  {
    if p != [] {
      if IsSign(p[0]) {
        assert Lower(p)[1..] == Lower(p[1..]);
        SplitOfLower(p[1..], p[0] == '+');
      } else {
        SplitOfLower(p, true);
      }
    }
  }

  lemma LowerPieceSame(p: Piece)
    ensures var q := Piece(p.plus, Lower(p.text));
      (q.Accepted() <==> p.Accepted()) && (q.Exact() <==> p.Exact())
  {
    var q := Piece(p.plus, Lower(p.text));
    assert q.Body() == Lower(p.Body()) && q.Wid() == p.Wid();
    assert forall i :: 0 <= i < |p.Body()| ==> (Readable(q.Body(), q.Wid(), i) <==> Readable(p.Body(), p.Wid(), i));
    if 'y' in p.text {
      var i :| 0 <= i < |p.text| && p.text[i] == 'y';
      assert q.text[i] == 'y';
    }
    if 'y' in q.text {
      var i :| 0 <= i < |q.text| && q.text[i] == 'y';
      assert p.text[i] == 'y';
    }
  }

  lemma LowerSame(p: string)
    ensures (Accepts(Lower(p)) <==> Accepts(p)) && (AllExact(Pieces(Lower(p))) <==> AllExact(Pieces(p)))
  {
    var ps, qs := Pieces(p), Pieces(Lower(p));
    PiecesOfLower(p);
    forall i | 0 <= i < |ps|
      ensures (qs[i].Accepted() <==> ps[i].Accepted()) && (qs[i].Exact() <==> ps[i].Exact())
      ensures qs[i].plus == ps[i].plus
    {
      LowerPieceSame(ps[i]);
    }
  }

  ghost predicate Written(p: string) { exists q: Pattern :: q.Legal() && Text(q) == Lower(p) }

  /**
   * Main result on accepted strings that the documentation does not describe: a string is a written pattern, up to the
   * case of its digits, if and only if it is accepted and every piece with a y in it is just that y.
   */
  lemma WrittenIff(p: string)
    ensures Written(p) <==> p != [] && Accepts(p) && AllExact(Pieces(p))
  {
    LowerSame(p);
    if Written(p) {
      var q: Pattern :| q.Legal() && Text(q) == Lower(p);
      ScanCompiles(q);
      AcceptedIff(Lower(p));
      TextIsExact(q);
      TextStarts(q);
    }
    if p != [] && Accepts(p) && AllExact(Pieces(p)) {
      ExactIsWritten(p);
    }
  }

  lemma OnePiece(p: string)
    requires p != [] && NoSigns(p)
    ensures Pieces(p) == [Piece(true, p)]
  {
    UntilIs(p, []);
    assert p + [] == p && p[..|p|] == p;
  }

  lemma SingleCond(p: Piece)
    ensures p.plus ==> Head([p]) + CondsFor([p]) == [CondFor(p)]
  {
    assert [p][1..] == [] && CondsFor([]) == [];
  }

  lemma OnePieceIs(p: string)
    requires p != [] && NoSigns(p) && Piece(true, p).Accepted()
    ensures Accepts(p) && (Written(p) <==> Piece(true, p).Exact())
    ensures Scan(p, FRESH) == Some([CondFor(Piece(true, p))])
  {
    var piece := Piece(true, p);
    OnePiece(p);
    assert Pieces(p)[0] == piece;
    AcceptedIff(p);
    WrittenIff(p);
    assert [piece] + [] == [piece];
    ExactCons(piece, []);
    SingleCond(piece);
  }

  /** A y behind digits: "01y" and the like are accepted and read as ending in zeros. */
  lemma TrailingYIsAccepted(ds: string)
    requires 0 < |ds| < 64 && forall i :: 0 <= i < |ds| ==> '0' <= ds[i] <= '1'
    ensures Scan(ds + ['y'], FRESH) == Some([CondOf(Term(true, Binary(Zeros(|ds| + 1))))]) && !Written(ds + ['y'])
  {
    var p := ds + ['y'];
    var piece := Piece(true, p);
    assert p[0] == ds[0] && p[|ds|] == 'y';
    assert piece.Body() == p && piece.Wid() == 1;
    assert forall i :: 0 <= i < |p| ==> Readable(p, 1, i);
    OnePieceIs(p);
    assert !piece.Exact() by { assert 'y' in piece.text; }
    assert Erased(p) == Zeros(|ds| + 1);
  }

  /** A digit behind a leading y: "xya" is accepted, and no change ever matches it. */
  lemma LeadingYMatchesNothing(c: char, id: nat)
    requires IsDigit(c, 4) && HexValue(c) > 1
    ensures Scan(['x', 'y', c], FRESH).Some? && !Written(['x', 'y', c])
    ensures !MatchResult(Scan(['x', 'y', c], FRESH).value, id)
  {
    var p := ['x', 'y', c];
    var piece := Piece(true, p);
    var body := piece.Body();
    assert body == ['y'] + [c] && piece.Wid() == 4;
    assert Readable(body, 4, 0) && Readable(body, 4, 1);
    OnePieceIs(p);
    assert !piece.Exact() by { assert p[1] == 'y' && 'y' in piece.text; }
    ErasedDigit(['y'], c);
    ValueCons(Erased(['y']), HexValue(c), 16);
    assert Void(piece);
    VoidMatchesNothing(piece, id);
  }
}
