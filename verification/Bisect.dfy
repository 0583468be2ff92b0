/** The pattern compiler of internal/bisect/bisect.go, against the set expressions its documentation describes. */
module Bisect {
  import opened Arithmetic
  import opened MachineInts
  import opened Wrappers

  // ------------------------------------------------------------ what patterns mean

  /** The set of changes whose IDs end in these binary or hexadecimal digits. */
  datatype Suffix = All | Binary(ds: seq<nat>) | Hexadecimal(ds: seq<nat>) {
    function Base(): nat { if Hexadecimal? then 16 else 2 }
    predicate Legal() {
      !All? ==> 0 < |ds| <= (if Binary? then 64 else 16) && forall i :: 0 <= i < |ds| ==> ds[i] < Base()
    }
    predicate Contains(id: nat) { All? || EndsIn(id, ds, Base()) }
  }

  function Div(a: nat, b: nat): nat
    requires b > 0
  {
    a / b
  }

  function Mod(a: nat, b: nat): nat
    requires b > 0
  {
    a % b
  }

  predicate EndsIn(id: nat, ds: seq<nat>, base: nat)
    requires base > 0
    decreases |ds|
  {
    ds == [] || (Mod(id, base) == ds[|ds| - 1] && EndsIn(Div(id, base), ds[..|ds| - 1], base))
  }

  datatype Term = Term(plus: bool, suffix: Suffix)

  /** Terms from left to right; the first one may go without its sign when that is a plus. */
  datatype Pattern = Pattern(terms: seq<Term>, signed: bool) {
    predicate Legal() {
      && terms != [] && (!signed ==> terms[0].plus)
      && (forall i :: 0 <= i < |terms| ==> terms[i].suffix.Legal())
      && (forall i, j :: 0 <= i < j < |terms| && terms[j].plus ==> terms[i].plus)
    }

    /** A leading minus subtracts from everything. */
    predicate Contains(id: nat)
      requires terms != []
    {
      In(terms, id, !terms[0].plus)
    }
  }

  /** Set addition and subtraction, in order, starting from everything or nothing. */
  predicate In(terms: seq<Term>, id: nat, start: bool) {
    if terms == [] then start
    else
      var t := terms[|terms| - 1];
      var before := In(terms[..|terms| - 1], id, start);
      if t.plus then before || t.suffix.Contains(id) else before && !t.suffix.Contains(id)
  }

  // ------------------------------------------------------------ compiled patterns

  /** mask is 2^n - 1. */
  datatype Cond = Cond(n: nat, bits: nat, result: bool)

  datatype Matcher = Matcher(verbose: bool, quiet: bool, enable: bool, list: seq<Cond>)

  function Pow2(n: nat): (r: nat)
    ensures r > 0
  {
    if n == 0 then 1 else 2 * Pow2(n - 1)
  }

  /** id & mask == bits. */
  predicate Matches(c: Cond, id: nat) { Mod(id, Pow2(c.n)) == c.bits }

  /** The result of the last condition that matches. */
  function MatchResult(list: seq<Cond>, id: nat): bool {
    if list == [] then false
    else if Matches(list[|list| - 1], id) then list[|list| - 1].result
    else MatchResult(list[..|list| - 1], id)
  }

  method MatchResultOf(list: seq<Cond>, id: nat) returns (r: bool)
    ensures r == MatchResult(list, id)
  {
    var i := |list|;
    assert list[..i] == list;
    while i > 0
      invariant 0 <= i <= |list| && MatchResult(list, id) == MatchResult(list[..i], id)
    {
      i := i - 1;
      assert list[..i + 1][..i] == list[..i];
      if Mod(id, Pow2(list[i].n)) == list[i].bits {
        return list[i].result;
      }
    }
    return false;
  }

  predicate ShouldEnable(m: Matcher, id: nat) { MatchResult(m.list, id) == m.enable }

  predicate ShouldPrint(m: Matcher, id: nat) { !m.quiet && MatchResult(m.list, id) }

  function Value(ds: seq<nat>, base: nat): nat {
    if ds == [] then 0 else Value(ds[..|ds| - 1], base) * base + ds[|ds| - 1]
  }

  function CondOf(t: Term): Cond {
    match t.suffix
    case All => Cond(0, 0, t.plus)
    case Binary(ds) => Cond(|ds|, Value(ds, 2), t.plus)
    case Hexadecimal(ds) => Cond(|ds| * 4, Value(ds, 16), t.plus)
  }

  function Conds(terms: seq<Term>): seq<Cond> {
    if terms == [] then [] else Conds(terms[..|terms| - 1]) + [CondOf(terms[|terms| - 1])]
  }

  function Compiled(p: Pattern): seq<Cond>
    requires p.terms != []
  {
    (if p.terms[0].plus then [] else [Cond(0, 0, true)]) + Conds(p.terms)
  }

  // ------------------------------------------------------------ compiled patterns mean the same

  function Pow(base: nat, n: nat): nat { if n == 0 then 1 else base * Pow(base, n - 1) }

  lemma {:induction false} PowPositive(base: nat, n: nat)
    requires base > 0
    ensures Pow(base, n) > 0
  {
    if n > 0 {
      PowPositive(base, n - 1);
      assert base * Pow(base, n - 1) >= 1 by { MulPositive(base, Pow(base, n - 1)); }
    }
  }

  lemma MulPositive(a: nat, b: nat)
    requires a > 0 && b > 0
    ensures a * b > 0
  {
  }

  lemma DivMod(a: nat, b: nat)
    requires b > 0
    ensures a == Div(a, b) * b + Mod(a, b) && Mod(a, b) < b
  {
  }

  /** The remainder of id by base * m, digit by digit. */
  lemma ModDigits(id: nat, base: nat, m: nat)
    requires base > 0 && m > 0
    ensures base * m > 0 && Mod(id, base * m) == Mod(Div(id, base), m) * base + Mod(id, base)
  {
    MulPositive(base, m);
    DivMod(id, base);
    DivMod(Div(id, base), m);
    ModFrom(id, Div(id, base), Mod(id, base), Div(Div(id, base), m), Mod(Div(id, base), m), base, m);
  }

  lemma ModFrom(id: nat, q: nat, r: nat, d: nat, e: nat, base: nat, m: nat)
    requires id == q * base + r && q == d * m + e && r < base && e < m && base * m > 0
    ensures Mod(id, base * m) == e * base + r
  {
    Rearrange(d, m, e, base);
    Fits(e, m, base, r);
    Remainder(id, d, e * base + r, base * m);
  }

  lemma ModBelow(a: nat, b: nat)
    requires b > 0
    ensures Mod(a, b) < b
  {
  }

  lemma Rearrange(d: nat, m: nat, e: nat, base: nat)
    ensures (d * m + e) * base == d * (base * m) + e * base
  {
    assert (d * m + e) * base == (d * m) * base + e * base;
    assert (d * m) * base == d * (m * base);
  }

  lemma Fits(e: nat, m: nat, base: nat, r: nat)
    requires e < m && r < base
    ensures e * base + r < base * m
  {
    assert e + 1 <= m;
    assert (e + 1) * base <= m * base by { MulMonotone(e + 1, m, base); }
    assert (e + 1) * base == e * base + base;
  }

  lemma Remainder(x: nat, q: nat, r: nat, m: nat)
    requires r < m && x == q * m + r
    ensures x % m == r
  {
    var d, e := x / m, x % m;
    assert x == d * m + e;
    assert (d - q) * m == r - e && (q - d) * m == e - r;
    if d > q {
      AtLeastOnce(d - q, m);
    } else if d < q {
      AtLeastOnce(q - d, m);
    }
  }

  /** Ending in these digits is having their value as the remainder. */
  lemma {:induction false} EndsInIsRemainder(id: nat, ds: seq<nat>, base: nat)
    requires base > 0 && forall i :: 0 <= i < |ds| ==> ds[i] < base
    ensures Pow(base, |ds|) > 0 && (EndsIn(id, ds, base) <==> Mod(id, Pow(base, |ds|)) == Value(ds, base))
    decreases |ds|
  {
    PowPositive(base, |ds|);
    if ds != [] {
      var n := |ds| - 1;
      PowPositive(base, n);
      EndsInIsRemainder(Div(id, base), ds[..n], base);
      ModDigits(id, base, Pow(base, n));
      ModBelow(id, base);
      SameDigits(Mod(Div(id, base), Pow(base, n)), Mod(id, base), Value(ds[..n], base), ds[n], base);
    }
  }

  lemma SameDigits(a: nat, r: nat, b: nat, s: nat, base: nat)
    requires r < base && s < base
    ensures a * base + r == b * base + s <==> a == b && r == s
  {
    assert (a - b) * base == a * base - b * base && (b - a) * base == b * base - a * base;
    if a > b {
      AtLeastOnce(a - b, base);
    } else if a < b {
      AtLeastOnce(b - a, base);
    }
  }

  lemma {:induction false} PowOfSixteen(n: nat)
    ensures Pow(16, n) == Pow2(4 * n) && Pow(2, n) == Pow2(n)
  {
    if n > 0 {
      PowOfSixteen(n - 1);
      assert Pow2(4 * n) == 2 * Pow2(4 * n - 1) == 4 * Pow2(4 * n - 2) == 8 * Pow2(4 * n - 3) == 16 * Pow2(4 * n - 4);
    }
  }

  lemma CondMatches(t: Term, id: nat)
    requires t.suffix.Legal()
    ensures Matches(CondOf(t), id) <==> t.suffix.Contains(id)
  {
    match t.suffix {
      case All =>
      case Binary(ds) =>
        EndsInIsRemainder(id, ds, 2);
        PowOfSixteen(|ds|);
      case Hexadecimal(ds) =>
        EndsInIsRemainder(id, ds, 16);
        PowOfSixteen(|ds|);
    }
  }

  lemma {:induction false} CondsMean(head: seq<Cond>, terms: seq<Term>, id: nat)
    requires forall i :: 0 <= i < |terms| ==> terms[i].suffix.Legal()
    ensures MatchResult(head + Conds(terms), id) == In(terms, id, MatchResult(head, id))
    decreases |terms|
  {
    if terms == [] {
      assert head + Conds(terms) == head;
    } else {
      var n := |terms| - 1;
      var list := head + Conds(terms);
      assert list[..|list| - 1] == head + Conds(terms[..n]);
      CondsMean(head, terms[..n], id);
      CondMatches(terms[n], id);
    }
  }

  /** Main result on meaning: the last matching condition decides just as the set expression does. */
  lemma CompiledMeans(p: Pattern, id: nat)
    requires p.Legal()
    ensures MatchResult(Compiled(p), id) == p.Contains(id)
  {
    var head: seq<Cond> := if p.terms[0].plus then [] else [Cond(0, 0, true)];
    CondsMean(head, p.terms, id);
    assert MatchResult(head, id) == !p.terms[0].plus;
  }

  // ------------------------------------------------------------ scanning

  /** The variables of the loop: seen are the characters from start on, and first says that i is still 0. */
  datatype Scanner = Scanner(first: bool, seen: string, wid: nat, bits: nat, result: bool, list: seq<Cond>)

  const FRESH := Scanner(true, [], 1, 0, true, [])

  function HexValue(c: char): nat
    requires '0' <= c <= '9' || 'a' <= c <= 'f' || 'A' <= c <= 'F'
  {
    if c <= '9' then c as nat - '0' as nat
    else if c >= 'a' then c as nat - 'a' as nat + 10
    else c as nat - 'A' as nat + 10
  }

  predicate IsDigit(c: char, wid: nat) {
    '0' <= c <= '1' || (wid == 4 && ('0' <= c <= '9' || 'a' <= c <= 'f' || 'A' <= c <= 'F'))
  }

  function Pushed(s: Scanner, c: char): Scanner
    requires IsDigit(c, s.wid)
  {
    s.(first := false, seen := s.seen + [c], bits := (s.bits * Pow2(s.wid) + HexValue(c)) % TWO_64)
  }

  /** At a sign, or at the end, which counts as a minus. */
  function Flushed(s: Scanner, plus: bool): Option<Scanner> {
    if plus && !s.result then None
    else if s.first then
      Some(Scanner(false, [], 1, 0, plus, if plus then s.list else s.list + [Cond(0, 0, true)]))
    else
      var n := |s.seen| * s.wid;
      if n > 64 || n == 0 then None
      else
        Some(Scanner(false, [], 1, 0, plus, s.list + [Cond(if s.seen[0] == 'y' then 0 else n, s.bits, s.result)]))
  }

  /** One character, with the one behind it if there is any. */
  function Scanned(s: Scanner, c: char, next: Option<char>): Option<Scanner> {
    if s.seen == [] && s.wid == 1 && c == 'x' then Some(s.(first := false, wid := 4))
    else if IsDigit(c, s.wid) then Some(Pushed(s, c))
    else if c == 'y' then
      if next == Some('0') || next == Some('1') then None
      else Some(s.(first := false, seen := s.seen + [c], bits := 0))
    else if c == '+' || c == '-' then Flushed(s, c == '+')
    else None
  }

  function Next(rest: string): Option<char> { if |rest| > 1 then Some(rest[1]) else None }

  function Scan(rest: string, s: Scanner): Option<seq<Cond>>
    decreases |rest|
  {
    if rest == [] then
      match Flushed(s, false)
      case None => None
      case Some(t) => Some(t.list)
    else
      match Scanned(s, rest[0], Next(rest))
      case None => None
      case Some(t) => Scan(rest[1..], t)
  }

  /** The loop of New. */
  method ParsePattern(p: string) returns (list: Option<seq<Cond>>)
    ensures list == Scan(p, FRESH)
  {
    var result, start := true, 0;
    var bits: nat, wid: nat := 0, 1;
    var conds: seq<Cond> := [];
    ghost var s := FRESH;
    var i := 0;
    while i < |p|
      invariant 0 <= start <= |p| && 0 <= i <= |p| && start <= i
      invariant s == Scanner(i == 0, p[start..i], wid, bits, result, conds)
      invariant Scan(p, FRESH) == Scan(p[i..], s)
    {
      var c := p[i];
      assert p[i..][0] == c && p[i..][1..] == p[i + 1..];
      assert Next(p[i..]) == if i + 1 < |p| then Some(p[i + 1]) else None;
      if i == start && wid == 1 && c == 'x' {
        start := i + 1;
        wid := 4;
        s := s.(first := false, wid := 4);
        i := i + 1;
        continue;
      }
      if IsDigit(c, wid) {
        s := Pushed(s, c);
        bits := (bits * Pow2(wid) + HexValue(c)) % TWO_64;
      } else if c == 'y' {
        if i + 1 < |p| && (p[i + 1] == '0' || p[i + 1] == '1') {
          return None;
        }
        s := s.(first := false, seen := s.seen + [c], bits := 0);
        bits := 0;
      } else if c == '+' || c == '-' {
        var flushed := Flush(i == 0, p[start..i], wid, bits, result, conds, c == '+');
        if flushed == None {
          return None;
        }
        s := Flushed(s, c == '+').value;
        bits, result, start, wid, conds := 0, c == '+', i + 1, 1, flushed.value;
      } else {
        return None;
      }
      i := i + 1;
    }
    list := Flush(i == 0, p[start..i], wid, bits, result, conds, false);
  }

  method Flush(first: bool, seen: string, wid: nat, bits: nat, result: bool, conds: seq<Cond>, plus: bool)
      returns (list: Option<seq<Cond>>)
    ensures var f := Flushed(Scanner(first, seen, wid, bits, result, conds), plus);
      list == if f.None? then None else Some(f.value.list)
  {
    if plus && result == false {
      return None;
    }
    if !first {
      var n := |seen| * wid;
      if n > 64 || n <= 0 {
        return None;
      }
      if seen[0] == 'y' {
        n := 0;
      }
      return Some(conds + [Cond(n, bits, result)]);
    } else if !plus {
      return Some(conds + [Cond(0, 0, true)]);
    }
    return Some(conds);
  }

  // ------------------------------------------------------------ writing patterns

  function DigitChar(d: nat): (c: char)
    requires d < 16
    ensures IsDigit(c, 4) && HexValue(c) == d && (d < 2 ==> IsDigit(c, 1))
  {
    if d < 10 then '0' + d as char else 'a' + (d - 10) as char
  }

  function Digits(ds: seq<nat>): string
    requires forall i :: 0 <= i < |ds| ==> ds[i] < 16
  {
    if ds == [] then [] else [DigitChar(ds[0])] + Digits(ds[1..])
  }

  function SuffixText(s: Suffix): string
    requires s.Legal()
  {
    match s
    case All => "y"
    case Binary(ds) => Digits(ds)
    case Hexadecimal(ds) => "x" + Digits(ds)
  }

  function TermsText(terms: seq<Term>): string
    requires forall i :: 0 <= i < |terms| ==> terms[i].suffix.Legal()
  {
    if terms == [] then []
    else [if terms[0].plus then '+' else '-'] + SuffixText(terms[0].suffix) + TermsText(terms[1..])
  }

  function Text(p: Pattern): string
    requires p.Legal()
  {
    if p.signed then TermsText(p.terms) else SuffixText(p.terms[0].suffix) + TermsText(p.terms[1..])
  }

  /** What follows a suffix: nothing, or a sign. */
  predicate AtSign(rest: string) { rest == [] || rest[0] == '+' || rest[0] == '-' }

  lemma ScanStep(c: char, rest: string, s: Scanner)
    ensures Scan([c] + rest, s) ==
      match Scanned(s, c, if rest == [] then None else Some(rest[0])) case None => None case Some(t) => Scan(rest, t)
  {
    var all := [c] + rest;
    assert all[0] == c && all[1..] == rest;
  }

  /** The scanner in the middle of a suffix, having read these digits. */
  predicate Holds(s: Scanner, ds: seq<nat>, base: nat) {
    && !s.first && |s.seen| == |ds| && s.bits == Value(ds, base)
    && (ds != [] ==> s.seen[0] != 'y') && s.wid == (if base == 16 then 4 else 1)
  }

  lemma {:induction false} ValueBelow(ds: seq<nat>, base: nat)
    requires base > 0 && forall i :: 0 <= i < |ds| ==> ds[i] < base
    ensures Value(ds, base) < Pow(base, |ds|)
  {
    if ds != [] {
      var n := |ds| - 1;
      ValueBelow(ds[..n], base);
      Fits(Value(ds[..n], base), Pow(base, n), base, ds[n]);
    }
  }

  lemma {:induction false} PowMonotone(base: nat, a: nat, b: nat)
    requires base > 0 && a <= b
    ensures Pow(base, a) <= Pow(base, b)
    decreases b
  {
    if a < b {
      PowMonotone(base, a, b - 1);
      PowPositive(base, b - 1);
      AtLeastOnce(base, Pow(base, b - 1));
    }
  }

  lemma PowLimits()
    ensures Pow(2, 64) == TWO_64 && Pow(16, 16) == TWO_64
  {
    PowOfSixteen(16);
    PowOfSixteen(64);
    assert Pow(16, 4) == 0x1_0000;
    assert Pow(16, 8) == 0x1_0000_0000;
    assert Pow(16, 12) == 0x1_0000_0000_0000;
  }

  lemma FitsIn64(ds: seq<nat>, base: nat)
    requires (base == 2 && |ds| <= 64) || (base == 16 && |ds| <= 16)
    requires forall i :: 0 <= i < |ds| ==> ds[i] < base
    ensures Value(ds, base) < TWO_64
  {
    ValueBelow(ds, base);
    PowLimits();
    PowMonotone(base, |ds|, if base == 2 then 64 else 16);
  }

  lemma NextFits(done: seq<nat>, d: nat, base: nat)
    requires (base == 2 && |done| < 64) || (base == 16 && |done| < 16)
    requires d < base && forall i :: 0 <= i < |done| ==> done[i] < base
    ensures Value(done, base) * base + d < TWO_64
  {
    var next := done + [d];
    assert next[..|done|] == done;
    FitsIn64(next, base);
  }

  lemma PushHolds(s: Scanner, ds: seq<nat>, d: nat, base: nat)
    requires base == 2 || base == 16
    requires Holds(s, ds, base) && d < base && Value(ds, base) * base + d < TWO_64
    ensures IsDigit(DigitChar(d), s.wid) && DigitChar(d) != 'x' && DigitChar(d) != 'y'
    ensures Holds(Pushed(s, DigitChar(d)), ds + [d], base)
    ensures Pushed(s, DigitChar(d)).result == s.result && Pushed(s, DigitChar(d)).list == s.list
  {
    assert Pow2(1) == 2 && Pow2(2) == 4 && Pow2(3) == 8 && Pow2(4) == 16;
    assert Pow2(s.wid) == base;
    assert (ds + [d])[..|ds|] == ds;
    PushValue(s.bits, Pow2(s.wid), Value(ds, base), base, d);
  }

  lemma PushValue(bits: nat, shift: nat, value: nat, base: nat, d: nat)
    requires bits == value && shift == base && value * base + d < TWO_64
    ensures (bits * shift + d) % TWO_64 == value * base + d
  {
  }

  predicate Readable(ds: seq<nat>, base: nat) {
    (base == 2 || base == 16) && |ds| <= (if base == 2 then 64 else 16) && forall i :: 0 <= i < |ds| ==> ds[i] < base
  }

  lemma ScanDigit(d: nat, rest: string, s: Scanner)
    requires d < 16 && IsDigit(DigitChar(d), s.wid) && DigitChar(d) != 'x'
    ensures Scan([DigitChar(d)] + rest, s) == Scan(rest, Pushed(s, DigitChar(d)))
  {
    ScanStep(DigitChar(d), rest, s);
  }

  lemma DigitsCons(ds: seq<nat>, rest: string)
    requires ds != [] && forall i :: 0 <= i < |ds| ==> ds[i] < 16
    ensures Digits(ds) + rest == [DigitChar(ds[0])] + (Digits(ds[1..]) + rest)
  {
  }

  lemma SplitFirst(done: seq<nat>, ds: seq<nat>)
    requires ds != []
    ensures (done + [ds[0]]) + ds[1..] == done + ds
  {
  }

  lemma {:induction false} ScanDigits(done: seq<nat>, ds: seq<nat>, base: nat, rest: string, s: Scanner)
      returns (t: Scanner)
    requires Readable(done + ds, base) && (forall i :: 0 <= i < |ds| ==> ds[i] < base) && Holds(s, done, base)
    ensures Holds(t, done + ds, base) && t.result == s.result && t.list == s.list
    ensures Scan(Digits(ds) + rest, s) == Scan(rest, t)
    decreases |ds|
  {
    if ds == [] {
      assert Digits(ds) + rest == rest && done + ds == done;
      t := s;
    } else {
      SplitFirst(done, ds);
      ReadablePrefix(done, ds, base);
      NextFits(done, ds[0], base);
      PushHolds(s, done, ds[0], base);
      DigitsCons(ds, rest);
      ScanDigit(ds[0], Digits(ds[1..]) + rest, s);
      t := ScanDigits(done + [ds[0]], ds[1..], base, rest, Pushed(s, DigitChar(ds[0])));
    }
  }

  lemma ReadablePrefix(done: seq<nat>, ds: seq<nat>, base: nat)
    requires Readable(done + ds, base) && ds != []
    ensures |done| < (if base == 2 then 64 else 16) && forall i :: 0 <= i < |done| ==> done[i] < base
  {
    assert forall i :: 0 <= i < |done| ==> (done + ds)[i] == done[i];
  }

  /** The scanner behind a suffix: flushing it adds the condition of that suffix. */
  predicate Behind(t: Scanner, s: Scanner, suffix: Suffix) {
    !t.first && t.result == s.result
    && Flushed(t, false) == Some(Scanner(false, [], 1, 0, false, s.list + [CondOf(Term(s.result, suffix))]))
    && (s.result ==>
          Flushed(t, true) == Some(Scanner(false, [], 1, 0, true, s.list + [CondOf(Term(s.result, suffix))])))
  }

  /** The scanner between two suffixes, or at the start. */
  predicate Between(s: Scanner) { s.seen == [] && s.wid == 1 && s.bits == 0 }

  lemma HoldsIsBehind(t: Scanner, s: Scanner, suffix: Suffix)
    requires suffix.Legal() && !suffix.All? && Holds(t, suffix.ds, suffix.Base())
    requires t.result == s.result && t.list == s.list
    ensures Behind(t, s, suffix)
  {
  }

  lemma ScanBinary(ds: seq<nat>, rest: string, s: Scanner) returns (t: Scanner)
    requires Binary(ds).Legal() && Between(s)
    ensures Behind(t, s, Binary(ds)) && Scan(Digits(ds) + rest, s) == Scan(rest, t)
  {
    var c := DigitChar(ds[0]);
    var more := Digits(ds[1..]) + rest;
    assert Digits(ds) + rest == [c] + more;
    ScanStep(c, more, s);
    assert [ds[0]] + ds[1..] == ds;
    assert Value([ds[0]], 2) == Value([ds[0]][..0], 2) * 2 + ds[0];
    t := ScanDigits([ds[0]], ds[1..], 2, rest, Pushed(s, c));
    HoldsIsBehind(t, s, Binary(ds));
  }

  lemma ScanHexadecimal(ds: seq<nat>, rest: string, s: Scanner) returns (t: Scanner)
    requires Hexadecimal(ds).Legal() && Between(s)
    ensures Behind(t, s, Hexadecimal(ds)) && Scan("x" + Digits(ds) + rest, s) == Scan(rest, t)
  {
    var more := Digits(ds) + rest;
    assert "x" + Digits(ds) + rest == ['x'] + more;
    ScanStep('x', more, s);
    assert [] + ds == ds;
    t := ScanDigits([], ds, 16, rest, s.(first := false, wid := 4));
    HoldsIsBehind(t, s, Hexadecimal(ds));
  }

  lemma ScanSuffix(suffix: Suffix, rest: string, s: Scanner) returns (t: Scanner)
    requires suffix.Legal() && Between(s) && AtSign(rest)
    ensures Behind(t, s, suffix) && Scan(SuffixText(suffix) + rest, s) == Scan(rest, t)
  {
    match suffix {
      case All =>
        assert "y" + rest == ['y'] + rest;
        ScanStep('y', rest, s);
        t := s.(first := false, seen := ['y'], bits := 0);
        assert s.seen + ['y'] == ['y'];
      case Binary(ds) => t := ScanBinary(ds, rest, s);
      case Hexadecimal(ds) => t := ScanHexadecimal(ds, rest, s);
    }
  }

  lemma TermsAtSign(terms: seq<Term>)
    requires forall i :: 0 <= i < |terms| ==> terms[i].suffix.Legal()
    ensures AtSign(TermsText(terms))
  {
  }

  lemma {:induction false} CondsCons(t: Term, terms: seq<Term>)
    ensures Conds([t] + terms) == [CondOf(t)] + Conds(terms)
    decreases |terms|
  {
    if terms == [] {
      assert [t] + terms == [t] && [t][..0] == [];
    } else {
      var n := |terms| - 1;
      assert ([t] + terms)[..n + 1] == [t] + terms[..n];
      CondsCons(t, terms[..n]);
    }
  }

  predicate PlusFirst(terms: seq<Term>) { forall i, j :: 0 <= i < j < |terms| && terms[j].plus ==> terms[i].plus }

  lemma ScanTerm(term: Term, more: string, t: Scanner, s: Scanner, suffix: Suffix)
      returns (next: Scanner, between: Scanner)
    requires Behind(t, s, suffix) && term.suffix.Legal() && (term.plus ==> s.result) && AtSign(more)
    ensures between == Scanner(false, [], 1, 0, term.plus, s.list + [CondOf(Term(s.result, suffix))])
    ensures Behind(next, between, term.suffix)
    ensures Scan([if term.plus then '+' else '-'] + (SuffixText(term.suffix) + more), t) == Scan(more, next)
  {
    var tail := SuffixText(term.suffix) + more;
    var sign := if term.plus then '+' else '-';
    between := Scanner(false, [], 1, 0, term.plus, s.list + [CondOf(Term(s.result, suffix))]);
    ScanStep(sign, tail, t);
    SignFlushes(t, term.plus, if tail == [] then None else Some(tail[0]));
    next := ScanSuffix(term.suffix, more, between);
  }

  lemma Regroup(a: seq<Cond>, c: Cond, b: seq<Cond>)
    ensures a + [c] + b == a + ([c] + b)
    ensures b == [] ==> a + b == a
  {
  }

  lemma TermsTextCons(terms: seq<Term>)
    requires terms != [] && forall i :: 0 <= i < |terms| ==> terms[i].suffix.Legal()
    ensures TermsText(terms)
      == [if terms[0].plus then '+' else '-'] + (SuffixText(terms[0].suffix) + TermsText(terms[1..]))
  {
  }

  lemma CondsOf(terms: seq<Term>)
    requires terms != []
    ensures Conds(terms) == [CondOf(terms[0])] + Conds(terms[1..])
  {
    CondsCons(terms[0], terms[1..]);
    assert [terms[0]] + terms[1..] == terms;
  }

  /** From behind a suffix, over the terms that follow it. */
  lemma {:induction false} ScanTerms(terms: seq<Term>, t: Scanner, s: Scanner, suffix: Suffix)
    requires Behind(t, s, suffix) && PlusFirst(terms)
    requires forall i :: 0 <= i < |terms| ==> terms[i].suffix.Legal() && (terms[i].plus ==> s.result)
    ensures Scan(TermsText(terms), t) == Some(s.list + [CondOf(Term(s.result, suffix))] + Conds(terms))
    decreases |terms|
  {
    var list := s.list + [CondOf(Term(s.result, suffix))];
    if terms == [] {
      Regroup(list, CondOf(Term(s.result, suffix)), Conds(terms));
    } else {
      var term, rest := terms[0], terms[1..];
      TermsAtSign(rest);
      var next, between := ScanTerm(term, TermsText(rest), t, s, suffix);
      TermsTextCons(terms);
      ScanTerms(rest, next, between, term.suffix);
      CondsOf(terms);
      Regroup(list, CondOf(term), Conds(rest));
    }
  }

  lemma SignFlushes(t: Scanner, plus: bool, next: Option<char>)
    requires !t.first
    ensures Scanned(t, if plus then '+' else '-', next) == Flushed(t, plus)
  {
  }

  /** The first suffix, with its sign if it has one. */
  lemma ScanFirst(p: Pattern) returns (t: Scanner, s: Scanner)
    requires p.Legal()
    ensures s.result == p.terms[0].plus && s.list == (if p.terms[0].plus then [] else [Cond(0, 0, true)])
    ensures Behind(t, s, p.terms[0].suffix) && Scan(Text(p), FRESH) == Scan(TermsText(p.terms[1..]), t)
  {
    var first, more := p.terms[0], TermsText(p.terms[1..]);
    TermsAtSign(p.terms[1..]);
    s := FRESH;
    if p.signed {
      var sign := if first.plus then '+' else '-';
      var tail := SuffixText(first.suffix) + more;
      s := Scanner(false, [], 1, 0, first.plus, if first.plus then [] else [Cond(0, 0, true)]);
      assert Text(p) == [sign] + tail;
      ScanStep(sign, tail, FRESH);
      assert FRESH.list + [Cond(0, 0, true)] == [Cond(0, 0, true)];
      assert Flushed(FRESH, first.plus) == Some(s);
    }
    t := ScanSuffix(first.suffix, more, s);
  }

  /** Main result on parsing: a written pattern scans to its compiled form. */
  lemma ScanCompiles(p: Pattern)
    requires p.Legal()
    ensures Scan(Text(p), FRESH) == Some(Compiled(p))
  {
    var first, rest := p.terms[0], p.terms[1..];
    var t, s := ScanFirst(p);
    ScanTerms(rest, t, s, first.suffix);
    CondsOf(p.terms);
    Regroup(s.list, CondOf(first), Conds(rest));
  }

  // ------------------------------------------------------------ the whole of New

  datatype Made = NoMatcher | Invalid | Made(m: Matcher)

  /** The letters before the pattern. */
  function Verbose(p: string, verbose: bool): Option<(bool, string)> {
    if p == [] then None else if p[0] == 'v' then Verbose(p[1..], true) else Some((verbose, p))
  }

  function Negated(p: string, enable: bool): Option<(bool, string)> {
    if p == [] then None else if p[0] == '!' then Negated(p[1..], !enable) else Some((enable, p))
  }

  function Compile(pattern: string): Made {
    if pattern == [] then NoMatcher
    else
      var quiet := pattern[0] == 'q';
      match Verbose(if quiet then pattern[1..] else pattern, false)
      case None => Invalid
      case Some((verbose, p)) =>
        match Negated(p, true)
        case None => Invalid
        case Some((enable, p')) =>
          var n := p' == "n";
          match Scan(if n then "y" else p', FRESH)
          case None => Invalid
          case Some(list) => Made(Matcher(verbose, quiet && !verbose, if n then !enable else enable, list))
  }

  method New(pattern: string) returns (r: Made)
    ensures r == Compile(pattern)
  {
    if pattern == "" {
      return NoMatcher;
    }
    var p := pattern;
    var quiet, verbose, enable := false, false, true;
    if p[0] == 'q' {
      quiet := true;
      p := p[1..];
      if p == "" {
        return Invalid;
      }
    }
    ghost var start := p;
    while |p| > 0 && p[0] == 'v'
      invariant p != [] && Verbose(start, false) == Verbose(p, verbose)
      invariant quiet == (pattern[0] == 'q' && !verbose)
    {
      verbose, quiet := true, false;
      p := p[1..];
      if p == "" {
        return Invalid;
      }
    }
    ghost var middle := p;
    while |p| > 0 && p[0] == '!'
      invariant p != [] && Negated(middle, true) == Negated(p, enable)
    {
      enable := !enable;
      p := p[1..];
      if p == "" {
        return Invalid;
      }
    }
    if p == "n" {
      enable := !enable;
      p := "y";
    }
    var list := ParsePattern(p);
    return if list.None? then Invalid else Made(Matcher(verbose, quiet, enable, list.value));
  }

  function Bangs(k: nat): string { seq(k, _ => '!') }

  lemma {:induction false} NegatedOverBangs(k: nat, p: string, enable: bool)
    requires p != [] && p[0] != '!'
    ensures Negated(Bangs(k) + p, enable) == Some((enable == (k % 2 == 0), p))
    decreases k
  {
    if k == 0 {
      assert Bangs(0) + p == p;
    } else {
      assert Bangs(k) + p == ['!'] + (Bangs(k - 1) + p);
      NegatedOverBangs(k - 1, p, !enable);
    }
  }

  lemma TextStarts(p: Pattern)
    requires p.Legal()
    ensures Text(p) != [] && Text(p)[0] != 'q' && Text(p)[0] != 'v' && Text(p)[0] != '!' && Text(p) != "n"
  {
    var suffix := p.terms[0].suffix;
    assert !suffix.All? ==> suffix.ds[0] < 16;
  }

  /**
   * Main result: compiling a well-formed pattern behind any number of exclamation marks gives a matcher that
   * reports exactly the changes in the set it denotes, and enables exactly those, or exactly the others, by
   * the parity of the marks.
   */
  lemma PatternMeans(p: Pattern, bangs: nat, id: nat)
    requires p.Legal()
    ensures var r := Compile(Bangs(bangs) + Text(p));
      r.Made? && (ShouldPrint(r.m, id) <==> p.Contains(id))
      && (ShouldEnable(r.m, id) <==> p.Contains(id) == (bangs % 2 == 0))
  {
    var text := Bangs(bangs) + Text(p);
    TextStarts(p);
    NegatedOverBangs(bangs, Text(p), true);
    ScanCompiles(p);
    CompiledMeans(p, id);
    assert text[0] != 'q' && text[0] != 'v';
  }

  lemma TwoDigits(id: nat, a: nat, b: nat)
    requires a < 2 && b < 2
    ensures EndsIn(id, [a, b], 2) <==> id % 4 == 2 * a + b
  {
    EndsInIsRemainder(id, [a, b], 2);
    assert [a, b][..1] == [a] && [a][..0] == [];
    assert Value([a], 2) == a && Value([a, b], 2) == 2 * a + b && Pow(2, 2) == 4;
  }

  lemma FourDigits(id: nat, a: nat, b: nat, c: nat, d: nat)
    requires a < 2 && b < 2 && c < 2 && d < 2
    ensures EndsIn(id, [a, b, c, d], 2) <==> id % 16 == 8 * a + 4 * b + 2 * c + d
  {
    var ds := [a, b, c, d];
    EndsInIsRemainder(id, ds, 2);
    assert ds[..3] == [a, b, c] && ds[..3][..2] == [a, b] && ds[..3][..2][..1] == [a] && [a][..0] == [];
    assert Value([a], 2) == a && Value([a, b], 2) == 2 * a + b && Value([a, b, c], 2) == 4 * a + 2 * b + c;
    assert Pow(2, 4) == 16;
  }

  /** The example of the documentation: "01+10-1001" are the changes that end in 01 or 10, but not in 1001. */
  lemma DocumentedExample(id: nat)
    ensures var r := Compile("01+10-1001");
      r.Made? && ShouldEnable(r.m, id) == ShouldPrint(r.m, id)
      && (ShouldPrint(r.m, id) <==> (id % 4 == 1 || id % 4 == 2) && id % 16 != 9)
  {
    var t1, t2, t3 := Term(true, Binary([0, 1])), Term(true, Binary([1, 0])), Term(false, Binary([1, 0, 0, 1]));
    var p := Pattern([t1, t2, t3], false);
    TwoDigits(id, 0, 1);
    TwoDigits(id, 1, 0);
    FourDigits(id, 1, 0, 0, 1);
    assert p.terms[..2] == [t1, t2] && p.terms[..2][..1] == [t1] && [t1][..0] == [];
    assert p.Contains(id) <==> (id % 4 == 1 || id % 4 == 2) && id % 16 != 9 by {
      assert In([t1], id, false) == t1.suffix.Contains(id);
      assert In([t1, t2], id, false) == (In([t1], id, false) || t2.suffix.Contains(id));
    }
    TextOfExample(p);
    PatternMeans(p, 0, id);
    assert Bangs(0) + Text(p) == Text(p);
  }

  lemma TextOfExample(p: Pattern)
    requires var t1, t2 := Term(true, Binary([0, 1])), Term(true, Binary([1, 0]));
      p == Pattern([t1, t2, Term(false, Binary([1, 0, 0, 1]))], false)
    ensures p.Legal() && Text(p) == "01+10-1001"
  {
    assert Digits([]) == "" && Digits([1]) == "1" && Digits([0]) == "0";
    assert Digits([0, 1]) == ['0'] + Digits([0, 1][1..]) && [0, 1][1..] == [1];
    assert Digits([1, 0]) == ['1'] + Digits([1, 0][1..]) && [1, 0][1..] == [0];
    var ds := [1, 0, 0, 1];
    assert ds[1..] == [0, 0, 1] && ds[1..][1..] == [0, 1];
    assert Digits([0, 0, 1]) == ['0'] + Digits([0, 1]) && Digits(ds) == ['1'] + Digits([0, 0, 1]);
    var terms := p.terms[1..];
    assert terms[1..][1..] == [];
    assert TermsText(terms[1..]) == "-" + Digits(ds) + TermsText([]);
    assert TermsText(terms) == "+" + Digits([1, 0]) + TermsText(terms[1..]);
  }
}
