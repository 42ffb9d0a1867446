/** Per-flow byte counters and Jain's fairness index (examples/tcp/dctcp-example.cc). */
module Fairness {

  /** Number of values of a 64-bit unsigned integer; sums and products wrap around at it. */
  const WORD: int := 0x1_0000_0000_0000_0000

  type Word = n: int | 0 <= n < WORD

  function AddWord(a: int, b: int): Word {
    (a + b) % WORD
  }

  function MulWord(a: int, b: int): Word {
    (a * b) % WORD
  }

  // ---------------------------------------------------------------------------
  // Exact sums
  // ---------------------------------------------------------------------------

  function Square(d: int): (q: int)
    ensures q >= 0 && (q == 0 <==> d == 0)
  {
    var q := d * d;
    if d == 0 then q else ProductPositive(d, d, q); q
  }

  lemma ProductPositive(d: int, e: int, q: int)
    requires q == d * e && ((d > 0 && e > 0) || (d < 0 && e < 0))
    ensures q > 0
  {
  }

  function Total(xs: seq<Word>, n: nat): (s: nat)
    requires n <= |xs|
  {
    if n == 0 then 0 else Total(xs, n - 1) + xs[n - 1]
  }

  function Squares(xs: seq<Word>, n: nat): (s: nat)
    requires n <= |xs|
  {
    if n == 0 then 0 else Squares(xs, n - 1) + Square(xs[n - 1])
  }

  /** Sum of the squared differences between x and the first n counters. */
  function Spread(xs: seq<Word>, n: nat, x: int): (s: nat)
    requires n <= |xs|
  {
    if n == 0 then 0 else Spread(xs, n - 1, x) + Square(xs[n - 1] - x)
  }

  lemma {:induction false} SpreadZero(xs: seq<Word>, n: nat, x: int)
    requires n <= |xs|
    ensures Spread(xs, n, x) == 0 <==> forall i :: 0 <= i < n ==> xs[i] == x
  {
    if n > 0 { SpreadZero(xs, n - 1, x); }
  }

  predicate SpreadLaw(spread: int, squares: int, total: int, n: int, x: int) {
    spread == squares - 2 * total * x + n * Square(x)
  }

  lemma SpreadStep(spread: int, squares: int, total: int, n: int, x: int, y: int)
    requires SpreadLaw(spread, squares, total, n - 1, x)
    ensures SpreadLaw(spread + Square(y - x), squares + Square(y), total + y, n, x)
  {
  }

  lemma {:induction false} SpreadIs(xs: seq<Word>, n: nat, x: int)
    requires n <= |xs|
    ensures SpreadLaw(Spread(xs, n, x), Squares(xs, n), Total(xs, n), n, x)
  {
    if n > 0 {
      SpreadIs(xs, n - 1, x);
      SpreadStep(Spread(xs, n - 1, x), Squares(xs, n - 1), Total(xs, n - 1), n, x, xs[n - 1]);
    }
  }

  /** Sum of the squared differences over all pairs of the first n counters. */
  function PairSpread(xs: seq<Word>, n: nat): (s: nat)
    requires n <= |xs|
  {
    if n == 0 then 0 else PairSpread(xs, n - 1) + Spread(xs, n - 1, xs[n - 1])
  }

  predicate PairLaw(pairs: int, squares: int, total: int, n: int) {
    pairs == n * squares - Square(total)
  }

  lemma PairStep(pairs: int, spread: int, squares: int, total: int, n: int, x: int)
    requires PairLaw(pairs, squares, total, n - 1) && SpreadLaw(spread, squares, total, n - 1, x)
    ensures PairLaw(pairs + spread, squares + Square(x), total + x, n)
  {
  }

  lemma {:induction false} PairSpreadIs(xs: seq<Word>, n: nat)
    requires n <= |xs|
    ensures PairLaw(PairSpread(xs, n), Squares(xs, n), Total(xs, n), n)
  {
    if n > 0 {
      var x := xs[n - 1];
      PairSpreadIs(xs, n - 1);
      SpreadIs(xs, n - 1, x);
      PairStep(PairSpread(xs, n - 1), Spread(xs, n - 1, x), Squares(xs, n - 1), Total(xs, n - 1), n, x);
    }
  }

  predicate AllEqual(xs: seq<Word>, n: nat)
    requires n <= |xs|
  {
    forall i, j :: 0 <= i < j < n ==> xs[i] == xs[j]
  }

  lemma {:induction false} PairSpreadZero(xs: seq<Word>, n: nat)
    requires n <= |xs|
    ensures PairSpread(xs, n) == 0 <==> AllEqual(xs, n)
  {
    if n > 0 {
      PairSpreadZero(xs, n - 1);
      SpreadZero(xs, n - 1, xs[n - 1]);
    }
  }

  /** MAIN: the square of the sum is at most n times the sum of squares, with equality exactly when
      all counters are equal. */
  lemma UpperBound(xs: seq<Word>, n: nat)
    requires n <= |xs|
    ensures Square(Total(xs, n)) <= n * Squares(xs, n)
    ensures Square(Total(xs, n)) == n * Squares(xs, n) <==> AllEqual(xs, n)
  {
    PairSpreadIs(xs, n);
    PairSpreadZero(xs, n);
  }

  /** At most one of the first n counters is not zero. */
  predicate OneFlow(xs: seq<Word>, n: nat)
    requires n <= |xs|
  {
    forall i, j :: 0 <= i < j < n ==> xs[i] == 0 || xs[j] == 0
  }

  lemma {:induction false} TotalZero(xs: seq<Word>, n: nat)
    requires n <= |xs|
    ensures Total(xs, n) == 0 <==> forall i :: 0 <= i < n ==> xs[i] == 0
    ensures Squares(xs, n) == 0 <==> forall i :: 0 <= i < n ==> xs[i] == 0
  {
    if n > 0 { TotalZero(xs, n - 1); }
  }

  lemma SquareSum(t: nat, x: nat)
    ensures Square(t + x) == Square(t) + Square(x) + 2 * t * x
  {
  }

  lemma CrossTerm(t: nat, x: nat)
    ensures 2 * t * x >= 0 && (2 * t * x == 0 <==> t == 0 || x == 0)
  {
    if t > 0 && x > 0 { ProductPositive(t, x, t * x); }
  }

  /** MAIN: the sum of squares is at most the square of the sum, with equality exactly when at most
      one flow has received anything. */
  lemma {:induction false} LowerBound(xs: seq<Word>, n: nat)
    requires n <= |xs|
    ensures Squares(xs, n) <= Square(Total(xs, n))
    ensures Squares(xs, n) == Square(Total(xs, n)) <==> OneFlow(xs, n)
  {
    if n > 0 {
      LowerBound(xs, n - 1);
      var t, x := Total(xs, n - 1), xs[n - 1];
      SquareSum(t, x);
      CrossTerm(t, x);
      TotalZero(xs, n - 1);
      OneFlowStep(xs, n);
    }
  }

  lemma OneFlowStep(xs: seq<Word>, n: nat)
    requires 0 < n <= |xs|
    ensures OneFlow(xs, n) <==>
            OneFlow(xs, n - 1) && (xs[n - 1] == 0 || forall i :: 0 <= i < n - 1 ==> xs[i] == 0)
  {
  }

  // ---------------------------------------------------------------------------
  // When the 64-bit arithmetic is exact
  // ---------------------------------------------------------------------------

  /** No intermediate value of PrintFairness wraps around. */
  predicate AllExact(xs: seq<Word>) {
    var n := |xs|;
    (forall k :: 0 <= k <= n ==> Total(xs, k) < WORD) &&
    (forall k :: 0 <= k < n ==> Square(xs[k]) < WORD) &&
    (forall k :: 0 <= k <= n ==> Squares(xs, k) < WORD) &&
    Square(Total(xs, n)) < WORD && n * Squares(xs, n) < WORD
  }

  lemma {:induction false} PrefixesSmaller(xs: seq<Word>, k: nat, n: nat)
    requires k <= n <= |xs|
    ensures Total(xs, k) <= Total(xs, n) && Squares(xs, k) <= Squares(xs, n)
    ensures k < n ==> Square(xs[k]) <= Squares(xs, n)
    decreases n
  {
    if k < n { PrefixesSmaller(xs, k, n - 1); }
  }

  lemma NatSquareGrows(t: nat)
    ensures t <= Square(t)
  {
  }

  lemma AtLeastOnce(n: nat, q: nat)
    requires n > 0
    ensures q <= n * q
  {
  }

  /** MAIN: for a non-empty group nothing wraps exactly when n times the exact sum of squares fits. */
  lemma ExactIff(xs: seq<Word>)
    requires xs != []
    ensures AllExact(xs) <==> |xs| * Squares(xs, |xs|) < WORD
  {
    var n := |xs|;
    if n * Squares(xs, n) < WORD {
      UpperBound(xs, n);
      AtLeastOnce(n, Squares(xs, n));
      NatSquareGrows(Total(xs, n));
      forall k | 0 <= k <= n
        ensures Total(xs, k) < WORD && Squares(xs, k) < WORD && (k < n ==> Square(xs[k]) < WORD)
      {
        PrefixesSmaller(xs, k, n);
      }
    }
  }

  /** Half the bits of a word: the counters of a group may reach this sum when they are equal. */
  const HALF: int := 0x1_0000_0000

  lemma SquareMonotone(x: nat, y: nat)
    requires x <= y
    ensures Square(x) <= Square(y)
  {
  }

  lemma {:induction false} SquaresBelow(xs: seq<Word>, n: nat, bound: nat)
    requires n <= |xs| && forall i :: 0 <= i < n ==> xs[i] <= bound
    ensures Squares(xs, n) <= n * Square(bound)
  {
    if n > 0 {
      SquaresBelow(xs, n - 1, bound);
      SquareMonotone(xs[n - 1], bound);
      assert n * Square(bound) == (n - 1) * Square(bound) + Square(bound);
    }
  }

  lemma TimesMonotone(n: nat, q: nat, r: nat)
    requires q <= r
    ensures n * q <= n * r
  {
  }

  lemma SquareOfProduct(n: nat, x: nat)
    ensures n * (n * Square(x)) == Square(n * x)
  {
    var q := n * x;
    assert q * q == q * (n * x) == (q * n) * x;
    assert q * n == n * q == n * (n * x) == (n * n) * x;
    assert n * (n * (x * x)) == (n * n) * (x * x) == ((n * n) * x) * x;
  }

  /** HALF is the square root of WORD. */
  lemma HalfIsRoot(p: nat)
    ensures Square(p) < WORD <==> p < HALF
  {
    if p < HALF {
      SquareMonotone(p, HALF - 1);
    } else {
      SquareMonotone(HALF, p);
    }
  }

  /** MAIN: nothing wraps when each of n flows counts at most `limit` bytes and n times that is below HALF. */
  lemma SafeCountersExact(xs: seq<Word>, limit: nat)
    requires xs != [] && forall i :: 0 <= i < |xs| ==> xs[i] <= limit
    requires |xs| * limit < HALF
    ensures AllExact(xs)
  {
    var n := |xs|;
    SquaresBelow(xs, n, limit);
    TimesMonotone(n, Squares(xs, n), n * Square(limit));
    SquareOfProduct(n, limit);
    HalfIsRoot(n * limit);
    ExactIff(xs);
  }

  lemma {:induction false} SquaresConstant(xs: seq<Word>, n: nat, x: nat)
    requires n <= |xs| && forall i :: 0 <= i < n ==> xs[i] == x
    ensures Squares(xs, n) == n * Square(x)
  {
    if n > 0 {
      SquaresConstant(xs, n - 1, x);
      assert n * Square(x) == (n - 1) * Square(x) + Square(x);
    }
  }

  /** From HALF on it is too much for equal counters. */
  lemma SafeIsTight(xs: seq<Word>, x: nat)
    requires xs != [] && forall i :: 0 <= i < |xs| ==> xs[i] == x
    requires |xs| * x >= HALF
    ensures !AllExact(xs)
  {
    var n := |xs|;
    SquaresConstant(xs, n, x);
    SquareOfProduct(n, x);
    HalfIsRoot(n * x);
    ExactIff(xs);
  }

  /** The limits of the two group sizes in use, each tight. */
  lemma SafeLimits(limit: nat)
    ensures 10 * limit < HALF <==> limit <= 429496729
    ensures 20 * limit < HALF <==> limit <= 214748364
  {
  }

  // ---------------------------------------------------------------------------
  // The index
  // ---------------------------------------------------------------------------

  /** A quotient of two doubles that are not negative. */
  datatype Quotient = NaN | Infinite | Value(value: real)

  function Divide(a: nat, b: nat): Quotient {
    if b != 0 then Value((a as real) / (b as real)) else if a == 0 then NaN else Infinite
  }

  /** The index as the program computes it, in 64-bit arithmetic. */
  function JainIndex(xs: seq<Word>): Quotient {
    var n := |xs|;
    Divide(MulWord(Total(xs, n) % WORD, Total(xs, n) % WORD), MulWord(n, Squares(xs, n) % WORD))
  }

  lemma RatioBounds(a: int, b: int, c: int, r: real)
    requires 0 < c && 0 < b && b <= a <= c * b && r == (a as real) / ((c * b) as real)
    ensures 1.0 / (c as real) <= r <= 1.0
    ensures r == 1.0 <==> a == c * b
    ensures r == 1.0 / (c as real) <==> a == b
  {
    var p, q, k := a as real, b as real, c as real;
    ProductPositive(c, b, c * b);
    assert (c * b) as real == k * q;
    RealRatio(p, q, k, r);
  }

  lemma RealRatio(p: real, q: real, k: real, r: real)
    requires 0.0 < k && 0.0 < q && k * q > 0.0 && q <= p <= k * q && r == p / (k * q)
    ensures 1.0 / k <= r <= 1.0
    ensures r == 1.0 <==> p == k * q
    ensures r == 1.0 / k <==> p == q
  {
    assert r * (k * q) == p;
    assert (1.0 / k) * (k * q) == q;
  }

  /** A product that fits into 64 bits. */
  lemma MulExact(a: int, b: int, p: int)
    requires p == a * b && 0 <= p < WORD
    ensures MulWord(a, b) == p
  {
  }

  lemma SmallMod(a: nat)
    requires a < WORD
    ensures a % WORD == a
  {
  }

  /** Without wrap-around the index is the quotient of the exact values. */
  lemma ExactIndex(xs: seq<Word>)
    requires AllExact(xs)
    ensures JainIndex(xs) == Divide(Square(Total(xs, |xs|)), |xs| * Squares(xs, |xs|))
  {
    var n := |xs|;
    var t, q := Total(xs, n), Squares(xs, n);
    SmallMod(t);
    SmallMod(q);
    MulExact(t, t, Square(t));
    MulExact(n, q, n * q);
  }

  /** MAIN: when nothing wraps and some counter is not zero, the index lies between 1/n and 1; it is 1
      exactly for equal counters and 1/n exactly for a single active flow. */
  lemma JainBounds(xs: seq<Word>)
    requires AllExact(xs) && exists i :: 0 <= i < |xs| && xs[i] != 0
    ensures var n, f := |xs|, JainIndex(xs);
      f.Value? && 1.0 / (n as real) <= f.value <= 1.0 &&
      (f.value == 1.0 <==> AllEqual(xs, n)) && (f.value == 1.0 / (n as real) <==> OneFlow(xs, n))
  {
    var n := |xs|;
    var t2, q := Square(Total(xs, n)), Squares(xs, n);
    TotalZero(xs, n);
    ExactIndex(xs);
    UpperBound(xs, n);
    LowerBound(xs, n);
    ProductPositive(n, q, n * q);
    RatioBounds(t2, q, n, (t2 as real) / ((n * q) as real));
  }

  /** Without traffic the index is not a number. */
  lemma NoTrafficIsNaN(xs: seq<Word>)
    requires forall i :: 0 <= i < |xs| ==> xs[i] == 0
    ensures JainIndex(xs) == NaN
  {
    TotalZero(xs, |xs|);
  }

  // ---------------------------------------------------------------------------
  // The program
  // ---------------------------------------------------------------------------

  lemma {:induction false} TotalUpdate(xs: seq<Word>, k: nat, v: Word, n: nat)
    requires k < |xs| && n <= |xs|
    ensures Total(xs[k := v], n) == Total(xs, n) + if k < n then v - xs[k] else 0
  {
    if n > 0 { TotalUpdate(xs, k, v, n - 1); }
  }

  lemma ModShift(x: nat, k: nat)
    ensures (x + WORD * k) % WORD == x % WORD
  {
  }

  lemma AddWraps(a: nat, b: nat)
    ensures AddWord(a % WORD, b % WORD) == (a + b) % WORD
    ensures b < WORD ==> b % WORD == b
  {
    ModShift(a % WORD + b % WORD, a / WORD + b / WORD);
  }

  lemma EightWraps(a: nat)
    ensures MulWord(a % WORD, 8) == (8 * a) % WORD
  {
    ModShift(8 * (a % WORD), 8 * (a / WORD));
  }

  /** The average of a group in bits per flow: the byte sum is divided in whole bytes first. */
  function AverageBits(sum: nat, n: nat): Word
    requires n > 0
  {
    MulWord(sum % WORD / n, 8)
  }

  /** Without wrap-around the reported average is less than eight bits below the true one, and equal to
      it exactly when the bytes divide evenly among the flows. */
  lemma AverageClose(sum: nat, n: nat)
    requires sum < WORD && (n == 10 || n == 20)
    ensures n * AverageBits(sum, n) <= 8 * sum < n * AverageBits(sum, n) + 8 * n
    ensures n * AverageBits(sum, n) == 8 * sum <==> sum % n == 0
  {
    SmallMod(sum);
    MulExact(sum / n, 8, 8 * (sum / n));
    if n == 10 {
      assert sum == 10 * (sum / 10) + sum % 10;
    } else {
      assert sum == 20 * (sum / 20) + sum % 20;
    }
  }

  /** What is printed for one group of flows. */
  datatype Report = Report(average: Word, fairness: Quotient)

  function ReportOf(xs: seq<Word>): Report
    requires |xs| > 0
  {
    Report(AverageBits(Total(xs, |xs|), |xs|), JainIndex(xs))
  }

  class Counters {
    const s1r1: array<Word>
    const s2r2: array<Word>
    const s3r1: array<Word>

    ghost predicate Valid() {
      s1r1.Length == 10 && s2r2.Length == 20 && s3r1.Length == 10 &&
      s1r1 != s2r2 && s1r1 != s3r1 && s2r2 != s3r1
    }

    constructor ()
      ensures Valid() && fresh(s1r1) && fresh(s2r2) && fresh(s3r1)
    {
      s1r1, s2r2, s3r1 := new Word[10], new Word[20], new Word[10];
    }

    /** All counters restart at zero. */
    method InitializeCounters()
      requires Valid()
      modifies s1r1, s2r2, s3r1
      ensures forall a, i :: a in {s1r1, s2r2, s3r1} && 0 <= i < a.Length ==> a[i] == 0
    {
      Clear(s1r1);
      Clear(s2r2);
      Clear(s3r1);
    }

    static method Clear(a: array<Word>)
      modifies a
      ensures forall i :: 0 <= i < a.Length ==> a[i] == 0
    {
      for i := 0 to a.Length
        invariant forall k :: 0 <= k < i ==> a[k] == 0
      {
        a[i] := 0;
      }
    }

    /** A packet received on one flow of a group adds its size to that flow and to the group's total. */
    static method TraceSink(a: array<Word>, index: nat, size: nat)
      requires index < a.Length && size < 0x1_0000_0000
      modifies a
      ensures a[..] == old(a[..])[index := AddWord(old(a[index]), size)]
      ensures old(a[index]) + size < WORD ==> Total(a[..], a.Length) == old(Total(a[..], a.Length)) + size
    {
      TotalUpdate(a[..], index, AddWord(a[index], size), a.Length);
      a[index] := AddWord(a[index], size);
    }

    /** Sum, average and index of one group. */
    static method GroupFairness(a: array<Word>) returns (sum: Word, report: Report)
      requires a.Length > 0
      ensures sum == Total(a[..], a.Length) % WORD
      ensures report == ReportOf(a[..])
    {
      var sumSquares: Word := 0;
      sum := 0;
      for i := 0 to a.Length
        invariant sum == Total(a[..], i) % WORD && sumSquares == Squares(a[..], i) % WORD
      {
        AddWraps(Total(a[..], i), a[i]);
        AddWraps(Squares(a[..], i), Square(a[i]));
        sum := AddWord(sum, a[i]);
        sumSquares := AddWord(sumSquares, MulWord(a[i], a[i]));
      }
      report := Report(MulWord(sum / a.Length, 8), Divide(MulWord(sum, sum), MulWord(a.Length, sumSquares)));
    }

    /** The reports on the three groups and the two aggregates in bits. */
    method PrintFairness() returns (f1: Report, f2: Report, f3: Report, t1Bits: Word, r1Bits: Word)
      requires Valid()
      ensures f1 == ReportOf(s1r1[..]) && f2 == ReportOf(s2r2[..]) && f3 == ReportOf(s3r1[..])
      ensures t1Bits == (8 * (Total(s1r1[..], 10) + Total(s2r2[..], 20))) % WORD
      ensures r1Bits == (8 * (Total(s3r1[..], 10) + Total(s1r1[..], 10))) % WORD
    {
      var sum1, sum2, sum3;
      sum1, f1 := GroupFairness(s1r1);
      sum2, f2 := GroupFairness(s2r2);
      sum3, f3 := GroupFairness(s3r1);
      ghost var t1, t2, t3 := Total(s1r1[..], 10), Total(s2r2[..], 20), Total(s3r1[..], 10);
      AddWraps(t1, t2);
      AddWraps(t3, t1);
      EightWraps(t1 + t2);
      EightWraps(t3 + t1);
      t1Bits := MulWord(AddWord(sum1, sum2), 8);
      r1Bits := MulWord(AddWord(sum3, sum1), 8);
    }
  }
}
