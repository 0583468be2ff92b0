/**
 * The parallel downloader (parallel_download.go): cutting a resource into ranges, and merging what workers
 * complete in any order back in order.
 */
module ParallelDownload {
  import opened Arithmetic
  import opened MachineInts

  // ------------------------------------------------------------ ranges

  /** Both ends are included. */
  datatype Range = Range(start: int, end: int)

  const MAX_INT64 := 0x7fff_ffff_ffff_ffff
  const TWO_53 := 0x20_0000_0000_0000
  const TWO_62 := 0x4000_0000_0000_0000
  const TWO_63 := 0x8000_0000_0000_0000

  /** How many segments of this size it takes. */
  function Count(total: nat, size: nat): nat
    requires size > 0
  {
    (total + size - 1) / size
  }

  /** Where segment i starts. */
  function StartOf(i: nat, size: nat): nat { if i == 0 then 0 else StartOf(i - 1, size) + size }

  lemma {:induction false} StartIsProduct(i: nat, size: nat)
    ensures StartOf(i, size) == i * size
  {
    if i > 0 {
      StartIsProduct(i - 1, size);
    }
  }

  /** The ranges follow each other without gap or overlap, and cover exactly the bytes up to total. */
  predicate Covers(rs: seq<Range>, total: nat) {
    && rs != [] && rs[0].start == 0 && rs[|rs| - 1].end == total - 1
    && (forall i :: 0 <= i < |rs| ==> 0 <= rs[i].start <= rs[i].end)
    && (forall i :: 0 < i < |rs| ==> rs[i].start == rs[i - 1].end + 1)
  }

  /** All but the last are full. */
  predicate Sized(rs: seq<Range>, size: nat) {
    forall i :: 0 <= i < |rs| ==>
      rs[i].start == StartOf(i, size) && rs[i].end < StartOf(i, size) + size
      && (i < |rs| - 1 ==> rs[i].end == StartOf(i, size) + size - 1)
  }

  lemma Quotient(x: nat, q: nat, r: nat, size: nat)
    requires r < size && x == q * size + r
    ensures x / size == q
  {
    var d, m := x / size, x % size;
    assert x == d * size + m;
    assert (d - q) * size == r - m && (q - d) * size == m - r;
    if d > q {
      AtLeastOnce(d - q, size);
    } else if d < q {
      AtLeastOnce(q - d, size);
    }
  }

  lemma CountBetween(total: nat, size: nat, i: nat)
    requires size > 0 && i * size < total <= i * size + size
    ensures Count(total, size) == i + 1
  {
    assert (i + 1) * size == i * size + size;
    Quotient(total + size - 1, i + 1, total - 1 - i * size, size);
  }

  predicate Full(rs: seq<Range>, size: nat) {
    forall i :: 0 <= i < |rs| ==> rs[i].start == StartOf(i, size) && rs[i].end == StartOf(i, size) + size - 1
  }

  lemma LastRange(front: seq<Range>, last: Range, size: nat)
    requires size > 0 && Full(front, size)
    requires last.start == StartOf(|front|, size) && last.start <= last.end < last.start + size
    ensures Covers(front + [last], last.end + 1) && Sized(front + [last], size)
  {
    var rs := front + [last];
    forall i | 0 < i < |rs|
      ensures rs[i].start == rs[i - 1].end + 1
    {
      assert StartOf(i, size) == StartOf(i - 1, size) + size;
    }
  }

  /** The 64-bit sum. */
  function Wrap64(x: int): int { (x + TWO_63) % TWO_64 - TWO_63 }

  /** All sums of the loop fit. A caller can tell beforehand. */
  predicate SumsFit(total: nat, size: nat)
    requires size > 0
  {
    Count(total, size) * size <= TWO_63
  }

  lemma BelowCount(total: nat, size: nat, i: nat)
    requires size > 0
    ensures i * size < total ==> i + 1 <= Count(total, size)
    ensures total <= Count(total, size) * size < total + size
  {
    var x := total + size - 1;
    var c := Count(total, size);
    assert x == c * size + x % size;
    if i * size < total && i >= c {
      MulMonotone(c, i, size);
    }
  }

  /** A total of up to 2^62 bytes fits with any segment size. */
  lemma SmallTotalsFit(total: nat, size: nat)
    requires 0 < total <= TWO_62 && 0 < size <= MAX_INT64
    ensures SumsFit(total, size)
  {
    BelowCount(total, size, 0);
    if size >= total {
      CountBetween(total, size, 0);
    }
  }

  /**
   * The first sum that can overflow is that for the last range: it does exactly when the sums do not all fit, and then
   * its end is negative, so that the loop goes on instead of stopping there.
   */
  lemma OverflowIsAtTheLastRange(total: nat, size: nat, i: nat)
    requires 0 < total <= MAX_INT64 && 0 < size <= MAX_INT64 && i < Count(total, size)
    ensures i * size < total
    ensures i < Count(total, size) - 1 ==> Wrap64(i * size + size - 1) == i * size + size - 1
    ensures i == Count(total, size) - 1 ==>
      if SumsFit(total, size) then Wrap64(i * size + size - 1) == i * size + size - 1 >= total - 1
      else Wrap64(i * size + size - 1) < 0
  {
    var c := Count(total, size);
    BelowCount(total, size, i);
    assert (i + 1) * size == i * size + size;
    assert (c - 1) * size == c * size - size;
    MulMonotone(i, c - 1, size);
    if i < c - 1 {
      MulMonotone(i + 1, c - 1, size);
    }
  }

  /** The bounds that the loop of Do computes in round i, if it gets there. */
  function LoopStart(total: nat, size: nat, i: nat): int
    decreases i, 0
  {
    if i == 0 then 0 else LoopEnd(total, size, i - 1) + 1
  }

  function LoopEnd(total: nat, size: nat, i: nat): int
    decreases i, 1
  {
    var end := Wrap64(LoopStart(total, size, i) + (size - 1));
    if end > total - 1 then total - 1 else end
  }

  /** The ranges it has issued when it stops. */
  predicate Issues(rs: seq<Range>, total: nat, size: nat) {
    && rs != []
    && (forall i :: 0 <= i < |rs| ==> rs[i].start == LoopStart(total, size, i) && rs[i].end == LoopEnd(total, size, i))
    && (forall i :: 0 <= i < |rs| ==> (rs[i].end >= total - 1 <==> i == |rs| - 1))
  }

  /** The loop of Do: there are Count ranges, and they cover everything. */
  method Ranges(total: nat, size: nat) returns (rs: seq<Range>)
    requires 0 < total <= MAX_INT64 && 0 < size <= MAX_INT64 && SumsFit(total, size)
    ensures Issues(rs, total, size)
    ensures |rs| == Count(total, size) && Covers(rs, total) && Sized(rs, size)
  {
    rs := [];
    var start := 0;
    while true
      invariant start == StartOf(|rs|, size) && start < total
      invariant Full(rs, size)
      decreases total - start
    {
      ghost var front := rs;
      StartIsProduct(|front|, size);
      BelowCount(total, size, |front|);
      OverflowIsAtTheLastRange(total, size, |front|);
      var end := Wrap64(start + (size - 1));
      assert end == start + (size - 1);
      if end > total - 1 {
        end := total - 1;
      }
      rs := rs + [Range(start, end)];
      if end < total - 1 {
        start := end + 1;
        continue;
      }
      CountBetween(total, size, |front|);
      LastRange(front, Range(start, end), size);
      SizedIsIssued(total, size, rs);
      break;
    }
  }

  lemma SizedIsIssuedAt(total: nat, size: nat, rs: seq<Range>, i: nat)
    requires 0 < total <= MAX_INT64 && 0 < size <= MAX_INT64 && SumsFit(total, size)
    requires |rs| == Count(total, size) && Covers(rs, total) && Sized(rs, size) && i < |rs|
    ensures rs[i].start == LoopStart(total, size, i) && rs[i].end == LoopEnd(total, size, i)
    ensures rs[i].end >= total - 1 <==> i == |rs| - 1
  {
    StartIsProduct(i, size);
    LoopIsFull(total, size, i);
    if i == |rs| - 1 {
      LoopEndsAtTotal(total, size);
    }
  }

  lemma SizedIsIssued(total: nat, size: nat, rs: seq<Range>)
    requires 0 < total <= MAX_INT64 && 0 < size <= MAX_INT64 && SumsFit(total, size)
    requires |rs| == Count(total, size) && Covers(rs, total) && Sized(rs, size)
    ensures Issues(rs, total, size)
  {
    forall i | 0 <= i < |rs|
      ensures rs[i].start == LoopStart(total, size, i) && rs[i].end == LoopEnd(total, size, i)
      ensures rs[i].end >= total - 1 <==> i == |rs| - 1
    {
      SizedIsIssuedAt(total, size, rs, i);
    }
  }

  lemma LoopEndsAtTotal(total: nat, size: nat)
    requires 0 < total <= MAX_INT64 && 0 < size <= MAX_INT64 && SumsFit(total, size)
    ensures Count(total, size) > 0 && LoopEnd(total, size, Count(total, size) - 1) == total - 1
  {
    BelowCount(total, size, 0);
    var c := Count(total, size);
    LoopIsFull(total, size, c - 1);
    OverflowIsAtTheLastRange(total, size, c - 1);
  }

  /** Up to the last range the loop computes full ranges, and does not stop. */
  lemma {:induction false} LoopIsFull(total: nat, size: nat, i: nat)
    requires 0 < total <= MAX_INT64 && 0 < size <= MAX_INT64 && i < Count(total, size)
    ensures LoopStart(total, size, i) == i * size
    ensures i < Count(total, size) - 1 ==> LoopEnd(total, size, i) == i * size + size - 1 < total - 1
  {
    if i > 0 {
      LoopIsFull(total, size, i - 1);
      assert (i - 1) * size + size == i * size;
    }
    OverflowIsAtTheLastRange(total, size, i);
    if i < Count(total, size) - 1 {
      OverflowIsAtTheLastRange(total, size, i + 1);
      assert (i + 1) * size == i * size + size;
    }
  }

  /** When the sums do not fit, the last range ends below zero and the loop does not stop there. */
  lemma OverflowEndsBelowZero(total: nat, size: nat)
    requires 0 < total <= MAX_INT64 && 0 < size <= MAX_INT64 && !SumsFit(total, size)
    ensures Count(total, size) > 0 && LoopEnd(total, size, Count(total, size) - 1) < 0
    ensures forall i :: 0 <= i < Count(total, size) ==> LoopEnd(total, size, i) < total - 1
  {
    BelowCount(total, size, 0);
    var c := Count(total, size);
    LoopIsFull(total, size, c - 1);
    OverflowIsAtTheLastRange(total, size, c - 1);
    forall i | 0 <= i < c
      ensures LoopEnd(total, size, i) < total - 1
    {
      LoopIsFull(total, size, i);
    }
  }

  /**
   * Main result on ranges: what the loop issues covers the resource if and only if its 64-bit sums fit, which a caller
   * can tell beforehand.
   */
  lemma RangesCoverIff(total: nat, size: nat, rs: seq<Range>)
    requires 0 < total <= MAX_INT64 && 0 < size <= MAX_INT64 && Issues(rs, total, size)
    ensures Covers(rs, total) <==> SumsFit(total, size)
    ensures Covers(rs, total) ==> |rs| == Count(total, size)
  {
    if SumsFit(total, size) {
      IssuedCover(total, size, rs);
    } else {
      IssuedGoNegative(total, size, rs);
    }
  }

  lemma IssuedGoNegative(total: nat, size: nat, rs: seq<Range>)
    requires 0 < total <= MAX_INT64 && 0 < size <= MAX_INT64 && Issues(rs, total, size) && !SumsFit(total, size)
    ensures exists i :: 0 <= i < |rs| && rs[i].end < 0
  {
    OverflowEndsBelowZero(total, size);
    var last := rs[|rs| - 1];
    assert last.end == LoopEnd(total, size, |rs| - 1) && last.end >= total - 1;
    assert rs[Count(total, size) - 1].end < 0;
  }

  lemma IssuedCover(total: nat, size: nat, rs: seq<Range>)
    requires 0 < total <= MAX_INT64 && 0 < size <= MAX_INT64 && Issues(rs, total, size) && SumsFit(total, size)
    ensures |rs| == Count(total, size) && Covers(rs, total)
  {
    var c := Count(total, size);
    LoopEndsAtTotal(total, size);
    var k := if |rs| < c then |rs| - 1 else c - 1;
    LoopIsFull(total, size, k);
    assert rs[k].end == LoopEnd(total, size, k);
    forall i | 0 <= i < c
      ensures 0 <= rs[i].start <= rs[i].end && (i > 0 ==> rs[i].start == rs[i - 1].end + 1)
    {
      LoopIsFull(total, size, i);
      BelowCount(total, size, i);
    }
  }

  /** They do not for segments above 2^62 bytes of a larger resource, such as 2^63-1 bytes in segments of 2^62+1. */
  lemma LargeSegmentsOverflow(total: nat, size: nat)
    requires TWO_62 < size < total <= MAX_INT64
    ensures !SumsFit(total, size) && Count(total, size) == 2 && LoopEnd(total, size, 1) < 0
  {
    CountBetween(total, size, 1);
    OverflowEndsBelowZero(total, size);
  }

  function Segment(data: seq<int>, r: Range): seq<int>
    requires 0 <= r.start <= r.end < |data|
  {
    data[r.start..r.end + 1]
  }

  function Merged(data: seq<int>, rs: seq<Range>): seq<int>
    requires forall i :: 0 <= i < |rs| ==> 0 <= rs[i].start <= rs[i].end < |data|
  {
    if rs == [] then [] else Merged(data, rs[..|rs| - 1]) + Segment(data, rs[|rs| - 1])
  }

  lemma {:induction false} EndsWithin(rs: seq<Range>, total: nat, i: nat)
    requires Covers(rs, total) && i < |rs|
    ensures rs[i].end < total
    decreases |rs| - i
  {
    if i < |rs| - 1 {
      EndsWithin(rs, total, i + 1);
      assert rs[i + 1].start == rs[i].end + 1;
    }
  }

  /** Segments in the order of their ranges make up the resource. */
  lemma {:induction false} MergedIsWhole(data: seq<int>, rs: seq<Range>, n: nat)
    requires 0 < n <= |rs| && Covers(rs, |data|)
    ensures forall i :: 0 <= i < n ==> rs[i].end < |data|
    ensures Merged(data, rs[..n]) == data[..rs[n - 1].end + 1]
  {
    forall i | 0 <= i < n
      ensures rs[i].end < |data|
    {
      EndsWithin(rs, |data|, i);
    }
    var front := rs[..n];
    assert front[..n - 1] == rs[..n - 1];
    if n == 1 {
      assert Merged(data, rs[..0]) == [];
    } else {
      MergedIsWhole(data, rs, n - 1);
      assert data[..rs[n - 2].end + 1] + Segment(data, rs[n - 1]) == data[..rs[n - 1].end + 1];
    }
  }

  // ------------------------------------------------------------ the last index

  function Ceil(x: real): int { -(-x).Floor }

  predicate SameSide(x: real, d: real, n: nat) {
    (x <= n as real ==> d <= n as real) && (n as real <= x ==> n as real <= d)
  }

  /**
   * What rounding to the nearest double guarantees: a small relative error, and never past an integer of at
   * most 53 bits, because those are doubles themselves.
   */
  ghost predicate Rounds(x: real, d: real) {
    && -x / (TWO_53 as real) <= d - x <= x / (TWO_53 as real)
    && (forall n: nat :: n <= TWO_53 ==> SameSide(x, d, n))
  }

  lemma CeilBetween(x: real, n: int)
    requires (n - 1) as real < x <= n as real
    ensures Ceil(x) == n
  {
  }

  lemma Below(total: nat, size: nat) returns (k: nat)
    requires total > 0 && size > 0
    ensures k * size < total <= k * size + size && k < total
  {
    k := (total - 1) / size;
    assert total - 1 == k * size + (total - 1) % size;
    if k > 0 {
      assert k * size >= k by { MulGrows(k, size); }
    }
  }

  lemma MulGrows(k: nat, size: nat)
    requires size > 0
    ensures k * size >= k
  {
    assert k * size == k * (size - 1) + k;
  }

  /** The quotient of two exact integers, rounded, still has the ceiling of the exact quotient. */
  lemma CeilSurvivesRounding(total: nat, size: nat, d: real)
    requires 0 < total < TWO_53 && 0 < size < TWO_53 && Rounds(total as real / size as real, d)
    ensures Ceil(d) == Count(total, size)
  {
    var k := Below(total, size);
    CountBetween(total, size, k);
    QuotientBounds(total as real, size as real, total as real / size as real, total, size, k);
    assert SameSide(total as real / size as real, d, k + 1);
    AboveInteger(total, size, k, d);
    CeilBetween(d, k + 1);
  }

  lemma QuotientBounds(t: real, s: real, q: real, total: nat, size: nat, k: nat)
    requires t == total as real && s == size as real && s > 0.0 && q == t / s
    requires total <= k * size + size
    ensures q <= (k + 1) as real
  {
    ProductAsReal(k + 1, size);
    assert (k + 1) * size == k * size + size;
    var n := (k + 1) as real;
    assert q * s == t <= n * s;
    if q > n {
      Scale(n, q, s);
    }
  }

  lemma ProductAsReal(a: nat, b: nat)
    ensures (a * b) as real == a as real * b as real
  {
  }

  lemma Scale(a: real, b: real, s: real)
    requires a < b && s > 0.0
    ensures a * s < b * s
  {
    assert b * s - a * s == (b - a) * s;
  }

  /** The remainder is at least one byte, which is more than the rounding error. */
  lemma AboveInteger(total: nat, size: nat, k: nat, d: real)
    requires 0 < total < TWO_53 && 0 < size && k * size < total && Rounds(total as real / size as real, d)
    ensures d > k as real
  {
    var t, s, c := total as real, size as real, TWO_53 as real;
    var q := t / s;
    var e := q / c;
    assert q * s == t && e * c == q;
    ProductAsReal(k, size);
    ErrorIsSmall(t, s, c, q, e);
    if d <= k as real {
      Gap(q, e, k as real, s, t);
    }
  }

  lemma ErrorIsSmall(t: real, s: real, c: real, q: real, e: real)
    requires c > 0.0 && q * s == t && e * c == q && t < c
    ensures e * s < 1.0
  {
    assert (e * s) * c == (e * c) * s == t;
    if e * s >= 1.0 {
      if e * s > 1.0 {
        Scale(1.0, e * s, c);
      }
    }
  }

  lemma Distributes(a: real, b: real, x: real, s: real)
    requires x == a - b
    ensures x * s == a * s - b * s
  {
  }

  lemma ScaleAtMost(a: real, b: real, s: real)
    requires a <= b && s > 0.0
    ensures a * s <= b * s
  {
  }

  /** Within an error e of q, nothing below k can be reached from k * s + 1. */
  lemma Gap(q: real, e: real, k: real, s: real, t: real)
    requires s > 0.0 && q * s == t && e * s < 1.0 && t >= k * s + 1.0
    ensures q - e > k
  {
    var x := q - e;
    var qs, es, ks, xs := q * s, e * s, k * s, x * s;
    assert xs == qs - es by { Distributes(q, e, x, s); }
    assert xs > ks;
    if x <= k {
      ScaleAtMost(x, k, s);
    }
  }

  /** A segment larger than everything: its size need not be exact, the quotient is at most 1. */
  lemma OneSegment(total: nat, size: nat, s: real, d: real)
    requires 0 < total < TWO_53 && total <= size && total as real <= s && Rounds(total as real / s, d)
    ensures Ceil(d) == 1 == Count(total, size)
  {
    CountBetween(total, size, 0);
    var q := total as real / s;
    assert q * s == total as real;
    assert 0.0 < q <= 1.0;
    assert SameSide(q, d, 1);
    assert q / TWO_53 as real < q;
    CeilBetween(d, 1);
  }

  /**
   * Main result on lastIndex, computed as the ceiling of a quotient of doubles: it is the index of the last
   * range, for any size that fits 64 bits, as long as the total is below 2^53.
   */
  lemma LastIndexIsLast(total: nat, size: nat, s: real, d: real)
    requires 0 < total < TWO_53 && 0 < size <= MAX_INT64
    requires Rounds(size as real, s) && Rounds(total as real / s, d)
    ensures Ceil(d) - 1 == Count(total, size) - 1
  {
    if size < TWO_53 {
      assert SameSide(size as real, s, size);
      CeilSurvivesRounding(total, size, d);
    } else {
      assert SameSide(size as real, s, total);
      OneSegment(total, size, s, d);
    }
  }

  /**
   * There the guarantee ends. 2^53 + 1 bytes in segments of 2^53 are two ranges; but the total may round to 2^53, the
   * size is exact, their quotient is 1, and the last segment is forgotten.
   */
  lemma LargeTotalLosesItsLastSegment()
    ensures Count(TWO_53 + 1, TWO_53) == 2
    ensures Rounds((TWO_53 + 1) as real, TWO_53 as real) && Rounds(TWO_53 as real, TWO_53 as real)
    ensures Rounds(TWO_53 as real / TWO_53 as real, 1.0) && Ceil(1.0) - 1 == 0
  {
    CountBetween(TWO_53 + 1, TWO_53, 1);
    var t, x := TWO_53 as real, (TWO_53 + 1) as real;
    assert t / t == 1.0;
    forall n: nat | n <= TWO_53
      ensures SameSide(x, t, n) && SameSide(t, t, n) && SameSide(1.0, 1.0, n)
    {
    }
  }

  /**
   * Or the other way: 2^53 + 3 bytes in five equal segments. The total rounds up to 2^53 + 4, their quotient to the
   * double above 5, and the merger is told to expect a sixth.
   */
  lemma LargeTotalExpectsOneTooMany(size: nat)
    requires 5 * size == TWO_53 + 3
    ensures Count(TWO_53 + 3, size) == 5
    ensures Rounds((TWO_53 + 3) as real, (TWO_53 + 4) as real) && Rounds(size as real, size as real)
    ensures var d := 5.0 + 8.0 / TWO_53 as real;
      Rounds((TWO_53 + 4) as real / size as real, d) && Ceil(d) - 1 == 5
  {
    CountBetween(TWO_53 + 3, size, 4);
    var q, d := (TWO_53 + 4) as real / size as real, 5.0 + 8.0 / TWO_53 as real;
    assert size == 1801439850948199;
    assert 5.0 < q < d < 6.0;
    forall n: nat | n <= TWO_53
      ensures SameSide((TWO_53 + 3) as real, (TWO_53 + 4) as real, n) && SameSide(size as real, size as real, n)
      ensures SameSide(q, d, n)
    {
      assert n <= 5 || n >= 6;
    }
    CeilBetween(d, 6);
  }

  // ------------------------------------------------------------ workers and the merger

  /** What the goroutine of the merger is about to do for the segment it wants next. */
  datatype Merger = Looks | Waits | Finished

  /**
   * count tasks, of which next have been handed out, and the merger goes up to lastIndex. A task being downloaded
   * is busy until its notifier runs; done, notifying and heard are those stored, those with a notifier running,
   * and those whose notification has been received.
   */
  datatype State = State(
    count: nat,
    lastIndex: nat,
    next: nat,
    busy: set<nat>,
    done: set<nat>,
    taskMap: set<nat>,
    notifying: set<nat>,
    heard: set<nat>,
    written: seq<nat>,
    merger: Merger)

  datatype Event =
    | HandOut
    | Complete(i: nat)     // completeTask, under its lock
    | Notify(i: nat)       // it starts the goroutine that notifies, and its worker is free
    | Look                 // popTask, under its lock
    | Hear(i: nat)         // it receives a notification

  function Begin(count: nat, lastIndex: nat): State { State(count, lastIndex, 0, {}, {}, {}, {}, {}, [], Looks) }

  predicate Enabled(s: State, e: Event, workers: nat) {
    match e
    case HandOut => s.next < s.count && |s.busy| < workers
    case Complete(i) => i in s.busy && i !in s.done
    case Notify(i) => i in s.busy && i in s.done
    case Look => s.merger.Looks?
    case Hear(i) => s.merger.Waits? && i in s.notifying
  }

  /** The wanted segment is found: it leaves the map and is written. */
  function Pop(s: State): State {
    var i := |s.written|;
    s.(taskMap := s.taskMap - {i}, written := s.written + [i], merger := if i < s.lastIndex then Looks else Finished)
  }

  function Step(s: State, e: Event): State {
    match e
    case HandOut => s.(next := s.next + 1, busy := s.busy + {s.next})
    case Complete(i) => s.(taskMap := s.taskMap + {i}, done := s.done + {i})
    case Notify(i) => s.(busy := s.busy - {i}, notifying := s.notifying + {i})
    case Look => if |s.written| in s.taskMap then Pop(s) else s.(merger := Waits)
    case Hear(i) =>
      var t := s.(notifying := s.notifying - {i}, heard := s.heard + {i});
      if i == |s.written| then Pop(t) else t
  }

  /** Handed out is busy, notifying or heard from, and nothing twice. */
  ghost predicate Accounted(s: State) {
    && s.next <= s.count
    && (forall i :: i in s.busy || i in s.notifying || i in s.heard <==> 0 <= i < s.next)
    && s.busy !! s.notifying && s.busy !! s.heard && s.notifying !! s.heard
    && (forall i :: i in s.done ==> i in s.busy || i in s.notifying || i in s.heard)
    && (forall i :: i in s.notifying || i in s.heard ==> i in s.done)
  }

  /** What was written is a prefix of the segments in order, all completed; the rest of the completed is in the map. */
  ghost predicate InOrder(s: State) {
    && |s.written| <= s.count
    && (forall k :: 0 <= k < |s.written| ==> s.written[k] == k && k in s.done)
    && (forall i :: i in s.taskMap <==> i in s.done && i >= |s.written|)
    && |s.written| <= s.lastIndex + 1 && (s.merger.Finished? <==> |s.written| == s.lastIndex + 1)
  }

  /** A merger that waits has not missed the notification it waits for. */
  predicate NotMissed(s: State) { s.merger.Waits? ==> |s.written| !in s.heard }

  ghost predicate Inv(s: State) { Accounted(s) && InOrder(s) && NotMissed(s) }

  lemma PopKeepsOrder(s: State)
    requires InOrder(s) && |s.written| < s.count && |s.written| in s.done && !s.merger.Finished?
    ensures InOrder(Pop(s))
  {
  }

  lemma {:induction false} StepKeepsInv(s: State, e: Event, workers: nat)
    requires Inv(s) && Enabled(s, e, workers)
    ensures Inv(Step(s, e))
  {
    match e {
      case Look =>
        if |s.written| in s.taskMap {
          PopKeepsOrder(s);
        }
      case Hear(i) =>
        if i == |s.written| {
          PopKeepsOrder(s.(notifying := s.notifying - {i}, heard := s.heard + {i}));
        }
      case _ =>
    }
  }

  /** Steps still to come, at most. */
  function Remaining(s: State): int {
    4 * (s.count - s.next) + 3 * |s.busy - s.done| + 2 * |s.busy * s.done| + |s.notifying|
    + 2 * (s.count - |s.written|) + (if s.merger.Looks? then 1 else 0)
  }

  lemma HandOutRunsOut(s: State)
    requires Accounted(s) && s.next < s.count
    ensures Remaining(Step(s, HandOut)) < Remaining(s)
  {
    var t := Step(s, HandOut);
    assert t.busy - t.done == (s.busy - s.done) + {s.next} && t.busy * t.done == s.busy * s.done;
  }

  lemma CompleteRunsOut(s: State, i: nat)
    requires i in s.busy && i !in s.done
    ensures Remaining(Step(s, Complete(i))) < Remaining(s)
  {
    var t := Step(s, Complete(i));
    assert t.busy - t.done == (s.busy - s.done) - {i} && t.busy * t.done == (s.busy * s.done) + {i};
  }

  lemma NotifyRunsOut(s: State, i: nat)
    requires i in s.busy && i in s.done
    ensures Remaining(Step(s, Notify(i))) < Remaining(s)
  {
    var t := Step(s, Notify(i));
    assert t.busy - t.done == s.busy - s.done && t.busy * t.done == (s.busy * s.done) - {i};
  }

  lemma StepsRunOut(s: State, e: Event, workers: nat)
    requires Inv(s) && Enabled(s, e, workers)
    ensures Remaining(Step(s, e)) < Remaining(s)
  {
    match e {
      case HandOut => HandOutRunsOut(s);
      case Complete(i) => CompleteRunsOut(s, i);
      case Notify(i) => NotifyRunsOut(s, i);
      case _ =>
    }
  }

  /** As long as something is to be written, some step is possible: nobody waits for ever. */
  lemma NeverStuck(s: State, workers: nat) returns (e: Event)
    requires Inv(s) && workers > 0 && !s.merger.Finished? && s.lastIndex < s.count
    ensures Enabled(s, e, workers)
  {
    var i := |s.written|;
    if s.merger.Looks? {
      e := Look;
    } else if i in s.notifying {
      e := Hear(i);
    } else if i in s.busy {
      e := if i in s.done then Notify(i) else Complete(i);
    } else if s.busy == {} {
      e := HandOut;
    } else {
      var j :| j in s.busy;
      e := if j in s.done then Notify(j) else Complete(j);
    }
  }

  ghost predicate IsRun(states: seq<State>, events: seq<Event>, workers: nat) {
    |states| == |events| + 1
    && forall i :: 0 <= i < |events| ==>
         Enabled(states[i], events[i], workers) && states[i + 1] == Step(states[i], events[i])
  }

  lemma {:induction false} RunKeepsInv(states: seq<State>, events: seq<Event>, workers: nat, i: nat)
    requires IsRun(states, events, workers) && i <= |events|
    requires states[0].count > 0 && states[0] == Begin(states[0].count, states[0].lastIndex)
    ensures Inv(states[i]) && states[i].count == states[0].count && states[i].lastIndex == states[0].lastIndex
    ensures Remaining(states[i]) + i <= Remaining(states[0])
  {
    if i > 0 {
      RunKeepsInv(states, events, workers, i - 1);
      StepKeepsInv(states[i - 1], events[i - 1], workers);
      StepsRunOut(states[i - 1], events[i - 1], workers);
    }
  }

  /** What the merger has written to the file. */
  function Output(data: seq<int>, rs: seq<Range>, written: seq<nat>): seq<int>
    requires forall i :: 0 <= i < |rs| ==> 0 <= rs[i].start <= rs[i].end < |data|
    requires forall k :: 0 <= k < |written| ==> written[k] < |rs|
  {
    if written == [] then []
    else Output(data, rs, written[..|written| - 1]) + Segment(data, rs[written[|written| - 1]])
  }

  lemma {:induction false} OutputIsMerged(data: seq<int>, rs: seq<Range>, written: seq<nat>)
    requires forall i :: 0 <= i < |rs| ==> 0 <= rs[i].start <= rs[i].end < |data|
    requires |written| <= |rs| && forall k :: 0 <= k < |written| ==> written[k] == k
    ensures Output(data, rs, written) == Merged(data, rs[..|written|])
    decreases |written|
  {
    if written != [] {
      var n := |written| - 1;
      OutputIsMerged(data, rs, written[..n]);
      assert rs[..n + 1][..n] == rs[..n];
    }
  }

  lemma AllEndsWithin(rs: seq<Range>, total: nat)
    requires Covers(rs, total)
    ensures forall i :: 0 <= i < |rs| ==> 0 <= rs[i].start <= rs[i].end < total
  {
    forall i | 0 <= i < |rs|
      ensures rs[i].end < total
    {
      EndsWithin(rs, total, i);
    }
  }

  /**
   * However workers and notifications interleave, a run has at most 6 * count + 1 steps; and when it can go no
   * further, the tasks up to lastIndex have been written once and in order, and the file ends where theirs do.
   */
  lemma {:induction false} MaximalRunMerges(states: seq<State>, events: seq<Event>, workers: nat, data: seq<int>,
                                            rs: seq<Range>, lastIndex: nat)
    requires Covers(rs, |data|) && IsRun(states, events, workers) && states[0] == Begin(|rs|, lastIndex) && workers > 0
    requires lastIndex < |rs|
    ensures |events| <= 6 * |rs| + 1
    ensures forall i :: 0 <= i < |rs| ==> 0 <= rs[i].start <= rs[i].end < |data|
    ensures var last := states[|events|];
      (forall e :: !Enabled(last, e, workers)) ==>
        (forall k :: 0 <= k < |last.written| ==> last.written[k] < |rs|)
        && Output(data, rs, last.written) == data[..rs[lastIndex].end + 1]
  {
    RunKeepsInv(states, events, workers, |events|);
    AllEndsWithin(rs, |data|);
    var last := states[|events|];
    assert Remaining(last) >= 0;
    if !last.merger.Finished? {
      var e := NeverStuck(last, workers);
    } else {
      OutputIsMerged(data, rs, last.written);
      MergedIsWhole(data, rs, lastIndex + 1);
    }
  }

  lemma {:induction false} EndsGrow(rs: seq<Range>, total: nat, i: nat)
    requires Covers(rs, total) && i < |rs|
    ensures rs[i].end == total - 1 <==> i == |rs| - 1
  {
    if i < |rs| - 1 {
      EndsWithin(rs, total, i + 1);
      assert rs[i + 1].start == rs[i].end + 1;
    }
  }

  /**
   * Main result: when the download can go no further, the file is the resource if and only if lastIndex is the index
   * of the last range.
   */
  lemma DownloadIsWholeIff(data: seq<int>, size: nat, rs: seq<Range>, lastIndex: nat, states: seq<State>,
                           events: seq<Event>, workers: nat)
    requires 0 < |data| <= MAX_INT64 && 0 < size <= MAX_INT64 && SumsFit(|data|, size) && Issues(rs, |data|, size)
    requires IsRun(states, events, workers) && states[0] == Begin(|rs|, lastIndex) && workers > 0 && lastIndex < |rs|
    requires forall e :: !Enabled(states[|events|], e, workers)
    ensures forall i :: 0 <= i < |rs| ==> 0 <= rs[i].start <= rs[i].end < |data|
    ensures forall k :: 0 <= k < |states[|events|].written| ==> states[|events|].written[k] < |rs|
    ensures Output(data, rs, states[|events|].written) == data <==> lastIndex == |rs| - 1
  {
    RangesCoverIff(|data|, size, rs);
    MaximalRunMerges(states, events, workers, data, rs, lastIndex);
    EndsGrow(rs, |data|, lastIndex);
  }

  /**
   * Main result: the download as a whole. Below 2^53 bytes, the ranges the loop issues, the lastIndex that doubles
   * give, and every way in which workers and notifications interleave make the file the resource.
   */
  lemma SmallDownloadIsWhole(data: seq<int>, size: nat, s: real, d: real, rs: seq<Range>, lastIndex: nat,
                             states: seq<State>, events: seq<Event>, workers: nat)
    requires 0 < |data| < TWO_53 && 0 < size <= MAX_INT64 && Issues(rs, |data|, size)
    requires Rounds(size as real, s) && Rounds(|data| as real / s, d) && lastIndex == Ceil(d) - 1
    requires IsRun(states, events, workers) && states[0] == Begin(|rs|, lastIndex) && workers > 0
    requires forall e :: !Enabled(states[|events|], e, workers)
    ensures forall i :: 0 <= i < |rs| ==> 0 <= rs[i].start <= rs[i].end < |data|
    ensures forall k :: 0 <= k < |states[|events|].written| ==> states[|events|].written[k] < |rs|
    ensures Output(data, rs, states[|events|].written) == data
  {
    SmallTotalsFit(|data|, size);
    RangesCoverIff(|data|, size, rs);
    LastIndexIsLast(|data|, size, s, d);
    DownloadIsWholeIff(data, size, rs, lastIndex, states, events, workers);
  }

  /** A lastIndex behind the last range is waited for in vain. */
  lemma LateMergerWaits(states: seq<State>, events: seq<Event>, workers: nat, count: nat, lastIndex: nat, i: nat)
    requires IsRun(states, events, workers) && count > 0 && states[0] == Begin(count, lastIndex) && i <= |events|
    requires lastIndex >= count
    ensures !states[i].merger.Finished?
  {
    RunKeepsInv(states, events, workers, i);
  }
}
