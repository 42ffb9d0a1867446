/** Range lookup and legend layout of the timeline viewer (utils/grid.py). */
module Timeline {

  // ---------------------------------------------------------------------------
  // TimelineDataRange
  // ---------------------------------------------------------------------------

  datatype DataRange = DataRange(start: real, end: real, value: string)

  predicate Contains(r: DataRange, key: real) {
    r.start <= key <= r.end
  }

  /** Starts and ends both grow along the list. */
  predicate Monotone(ranges: seq<DataRange>) {
    forall i, j :: 0 <= i < j < |ranges| ==> ranges[i].start <= ranges[j].start && ranges[i].end <= ranges[j].end
  }

  /** Binary search between the indices l and u, both included; -1 when nothing is found. */
  function SearchIn(ranges: seq<DataRange>, key: real, l: int, u: int): (i: int)
    requires 0 <= l && u < |ranges|
    ensures i == -1 || (l <= i <= u && Contains(ranges[i], key))
    decreases u - l + 1
  {
    if l > u then -1
    else
      var i := (l + u) / 2;
      if Contains(ranges[i], key) then i
      else if key < ranges[i].start then SearchIn(ranges, key, l, i - 1)
      else SearchIn(ranges, key, i + 1, u)
  }

  function Search(ranges: seq<DataRange>, key: real): int {
    SearchIn(ranges, key, 0, |ranges| - 1)
  }

  lemma {:induction false} SearchInFinds(ranges: seq<DataRange>, key: real, l: int, u: int, k: int)
    requires 0 <= l <= k <= u < |ranges| && Monotone(ranges) && Contains(ranges[k], key)
    ensures SearchIn(ranges, key, l, u) != -1
    decreases u - l
  {
    var i := (l + u) / 2;
    if !Contains(ranges[i], key) {
      if key < ranges[i].start {
        SearchInFinds(ranges, key, l, i - 1, k);
      } else {
        SearchInFinds(ranges, key, i + 1, u, k);
      }
    }
  }

  /** Some range holds the key. */
  predicate Covered(ranges: seq<DataRange>, key: real) {
    exists k :: 0 <= k < |ranges| && Contains(ranges[k], key)
  }

  /** MAIN: on monotone ranges the search succeeds exactly when some range contains the key. */
  lemma SearchIffContained(ranges: seq<DataRange>, key: real)
    requires Monotone(ranges)
    ensures Search(ranges, key) != -1 <==> Covered(ranges, key)
  {
    if k :| 0 <= k < |ranges| && Contains(ranges[k], key) {
      SearchInFinds(ranges, key, 0, |ranges| - 1, k);
    }
  }

  /** Growing starts alone are not enough: here the first range holds the key and is missed. */
  lemma SearchCanMiss()
    ensures var ranges := [DataRange(0.0, 10.0, ""), DataRange(1.0, 2.0, ""), DataRange(11.0, 12.0, "")];
      StartsGrow(ranges) && Contains(ranges[0], 5.0) && Search(ranges, 5.0) == -1
  {
    var ranges := [DataRange(0.0, 10.0, ""), DataRange(1.0, 2.0, ""), DataRange(11.0, 12.0, "")];
    assert SearchIn(ranges, 5.0, 2, 1) == -1;
    assert SearchIn(ranges, 5.0, 2, 2) == -1;
    assert Search(ranges, 5.0) == SearchIn(ranges, 5.0, 2, 2);
  }

  // ---------------------------------------------------------------------------
  // What the search finds when only the starts grow, which is what `sort` gives
  // ---------------------------------------------------------------------------

  predicate StartsGrow(ranges: seq<DataRange>) {
    forall i, j :: 0 <= i < j < |ranges| ==> ranges[i].start <= ranges[j].start
  }

  /** k is among the indices that halving visits between l and u on its way to the boundary p. */
  predicate Probed(l: int, u: int, p: int, k: int)
    ensures Probed(l, u, p, k) ==> l <= k <= u
    decreases u - l + 1
  {
    l <= u &&
    var i := (l + u) / 2;
    k == i || if i < p then Probed(i + 1, u, p, k) else Probed(l, i - 1, p, k)
  }

  /** Exactly the first p ranges have started at the key. */
  predicate IsBoundary(ranges: seq<DataRange>, key: real, p: int) {
    0 <= p <= |ranges| && forall i :: 0 <= i < |ranges| ==> (ranges[i].start <= key <==> i < p)
  }

  /** How many of the first n ranges have started at the key. */
  function StartedAmong(ranges: seq<DataRange>, key: real, n: nat): (p: nat)
    requires n <= |ranges|
    ensures p <= n
  {
    if n == 0 then 0 else StartedAmong(ranges, key, n - 1) + if ranges[n - 1].start <= key then 1 else 0
  }

  function Started(ranges: seq<DataRange>, key: real): nat {
    StartedAmong(ranges, key, |ranges|)
  }

  lemma {:induction false} StartedAmongIsBoundary(ranges: seq<DataRange>, key: real, n: nat)
    requires StartsGrow(ranges) && n <= |ranges|
    ensures forall i :: 0 <= i < n ==> (ranges[i].start <= key <==> i < StartedAmong(ranges, key, n))
  {
    if n > 0 { StartedAmongIsBoundary(ranges, key, n - 1); }
  }

  lemma StartedIsBoundary(ranges: seq<DataRange>, key: real)
    requires StartsGrow(ranges)
    ensures IsBoundary(ranges, key, Started(ranges, key))
  {
    StartedAmongIsBoundary(ranges, key, |ranges|);
  }

  predicate SomeProbedHolds(ranges: seq<DataRange>, key: real, l: int, u: int, p: int)
    requires 0 <= l && u < |ranges|
  {
    exists k :: l <= k <= u && Probed(l, u, p, k) && Contains(ranges[k], key)
  }

  /** The search succeeds exactly when a probed range holds the key. */
  lemma {:induction false} SearchIffProbed(ranges: seq<DataRange>, key: real, l: int, u: int, p: int)
    requires 0 <= l && u < |ranges| && IsBoundary(ranges, key, p)
    ensures SearchIn(ranges, key, l, u) != -1 <==> SomeProbedHolds(ranges, key, l, u, p)
    decreases u - l + 1
  {
    if l <= u {
      var i := (l + u) / 2;
      assert Probed(l, u, p, i);
      if !Contains(ranges[i], key) {
        var l', u' := if i < p then i + 1 else l, if i < p then u else i - 1;
        SearchIffProbed(ranges, key, l', u', p);
        assert forall k :: Probed(l, u, p, k) <==> k == i || Probed(l', u', p, k);
      }
    }
  }

  /** The last started range is always probed, so a key in it is always found. */
  lemma {:induction false} LastStartedProbed(l: int, u: int, p: int)
    requires l <= p - 1 <= u
    ensures Probed(l, u, p, p - 1)
    decreases u - l
  {
    var i := (l + u) / 2;
    if i >= p {
      LastStartedProbed(l, i - 1, p);
    } else if i < p - 1 {
      LastStartedProbed(i + 1, u, p);
    }
  }

  lemma LastStartedIsFound(ranges: seq<DataRange>, key: real, p: int)
    requires IsBoundary(ranges, key, p) && p > 0 && Contains(ranges[p - 1], key)
    ensures Search(ranges, key) != -1
  {
    LastStartedProbed(0, |ranges| - 1, p);
    SearchIffProbed(ranges, key, 0, |ranges| - 1, p);
  }

  predicate ProbedFor(ranges: seq<DataRange>, p: int, i: int) {
    Probed(0, |ranges| - 1, p, i)
  }

  /** What the search finds is probed. */
  lemma {:induction false} SearchProbes(ranges: seq<DataRange>, key: real, l: int, u: int, p: int)
    requires 0 <= l && u < |ranges| && IsBoundary(ranges, key, p) && SearchIn(ranges, key, l, u) != -1
    ensures Probed(l, u, p, SearchIn(ranges, key, l, u))
    decreases u - l + 1
  {
    var i := (l + u) / 2;
    if !Contains(ranges[i], key) {
      SearchProbes(ranges, key, if i < p then i + 1 else l, if i < p then u else i - 1, p);
    }
  }

  /** The search goes past no probed range that holds the key. */
  lemma {:induction false} SearchIsLeast(ranges: seq<DataRange>, key: real, l: int, u: int, p: int, k: int)
    requires 0 <= l && u < |ranges| && IsBoundary(ranges, key, p) && Probed(l, u, p, k) && Contains(ranges[k], key)
    ensures -1 != SearchIn(ranges, key, l, u) <= k
    decreases u - l + 1
  {
    var i := (l + u) / 2;
    if !Contains(ranges[i], key) {
      SearchIsLeast(ranges, key, if i < p then i + 1 else l, if i < p then u else i - 1, p, k);
    }
  }

  /** The first of the ranges from k on that is probed for the boundary p and holds the key; -1 if none. */
  function FirstProbedFrom(ranges: seq<DataRange>, key: real, p: int, k: nat): (r: int)
    ensures r == -1 ==> forall i :: k <= i < |ranges| && ProbedFor(ranges, p, i) ==> !Contains(ranges[i], key)
    ensures r != -1 ==> k <= r < |ranges| && ProbedFor(ranges, p, r) && Contains(ranges[r], key)
    ensures r != -1 ==> forall i :: k <= i < r && ProbedFor(ranges, p, i) ==> !Contains(ranges[i], key)
    decreases |ranges| - k
  {
    if k >= |ranges| then -1
    else if ProbedFor(ranges, p, k) && Contains(ranges[k], key) then k
    else FirstProbedFrom(ranges, key, p, k + 1)
  }

  function FirstProbed(ranges: seq<DataRange>, key: real): (r: int)
    ensures r == -1 || (0 <= r < |ranges| && Contains(ranges[r], key))
  {
    FirstProbedFrom(ranges, key, Started(ranges, key), 0)
  }

  /** MAIN: with growing starts the search finds the first probed range that holds the key. */
  lemma SearchIsFirstProbed(ranges: seq<DataRange>, key: real)
    requires StartsGrow(ranges)
    ensures Search(ranges, key) == FirstProbed(ranges, key)
  {
    var p := Started(ranges, key);
    StartedIsBoundary(ranges, key);
    var r, f := Search(ranges, key), FirstProbed(ranges, key);
    if r != -1 {
      SearchProbes(ranges, key, 0, |ranges| - 1, p);
      assert ProbedFor(ranges, p, r);
    }
    if f != -1 { SearchIsLeast(ranges, key, 0, |ranges| - 1, p, f); }
  }

  /** While the first p ranges have started and no further one has, the j-th, which is not probed, still
      runs on after all probed ones ended. */
  predicate Hidden(ranges: seq<DataRange>, p: int, j: int)
    requires 0 < p <= |ranges|
  {
    0 <= j < p && !ProbedFor(ranges, p, j) && ranges[p - 1].start <= ranges[j].end &&
    forall i :: 0 <= i < p && ProbedFor(ranges, p, i) ==>
      ranges[i].end < ranges[j].end && (p < |ranges| ==> ranges[i].end < ranges[p].start)
  }

  /** At some key the first p ranges have started and no further one has. */
  predicate Reachable(ranges: seq<DataRange>, p: int) {
    0 < p <= |ranges| && (p < |ranges| ==> ranges[p - 1].start < ranges[p].start)
  }

  /** Of the probed ranges below the boundary, one that ends last, looking at the first m. */
  lemma {:induction false} LastEnding(ranges: seq<DataRange>, p: int, m: nat) returns (i: int)
    requires 0 < p <= |ranges| && m <= p
    ensures 0 <= i < p && ProbedFor(ranges, p, i) && ranges[p - 1].end <= ranges[i].end
    ensures forall k :: 0 <= k < m && ProbedFor(ranges, p, k) ==> ranges[k].end <= ranges[i].end
  {
    if m == 0 {
      LastStartedProbed(0, |ranges| - 1, p);
      i := p - 1;
    } else {
      i := LastEnding(ranges, p, m - 1);
      if ProbedFor(ranges, p, m - 1) && ranges[m - 1].end > ranges[i].end { i := m - 1; }
    }
  }

  /** A key from `first` on, after `latest`, up to `last` and before `next`. */
  lemma KeyBetween(first: real, latest: real, last: real, next: real) returns (key: real)
    requires first <= last && first < next && latest < last && latest < next
    ensures first <= key <= last && latest < key < next
  {
    var bound := if next < last then next else last;
    key := if latest < first then first else (latest + bound) / 2.0;
  }

  /** A hidden range holds a key that the search misses. */
  lemma HiddenIsMissed(ranges: seq<DataRange>, p: int, j: int) returns (key: real)
    requires StartsGrow(ranges) && Reachable(ranges, p) && Hidden(ranges, p, j)
    ensures Contains(ranges[j], key) && Search(ranges, key) == -1
  {
    var i := LastEnding(ranges, p, p);
    var next := if p < |ranges| then ranges[p].start else ranges[j].end + 1.0;
    key := KeyBetween(ranges[p - 1].start, ranges[i].end, ranges[j].end, next);
    assert IsBoundary(ranges, key, p);
    SearchIffProbed(ranges, key, 0, |ranges| - 1, p);
    forall k | ProbedFor(ranges, p, k) ensures !Contains(ranges[k], key) { }
  }

  /** A key that the search misses lies in a hidden range. */
  lemma MissedIsHidden(ranges: seq<DataRange>, key: real, j: int) returns (p: int)
    requires StartsGrow(ranges) && 0 <= j < |ranges| && Contains(ranges[j], key) && Search(ranges, key) == -1
    ensures Reachable(ranges, p) && Hidden(ranges, p, j)
  {
    p := Started(ranges, key);
    StartedIsBoundary(ranges, key);
    SearchIffProbed(ranges, key, 0, |ranges| - 1, p);
    assert j < p;
    assert forall i :: ProbedFor(ranges, p, i) ==> !Contains(ranges[i], key);
  }

  /** No range is hidden: a property of the list alone. */
  predicate Searchable(ranges: seq<DataRange>) {
    forall p, j :: 0 < p <= |ranges| && 0 <= j < p && Reachable(ranges, p) ==> !Hidden(ranges, p, j)
  }

  /** MAIN: on ranges sorted by start the search is right about every key exactly when no range is hidden. */
  lemma SearchRightIff(ranges: seq<DataRange>)
    requires StartsGrow(ranges)
    ensures (forall key :: Search(ranges, key) != -1 <==> Covered(ranges, key)) <==> Searchable(ranges)
  {
    if p, j :| Reachable(ranges, p) && Hidden(ranges, p, j) {
      var key := HiddenIsMissed(ranges, p, j);
      assert Covered(ranges, key);
    }
    forall key | Search(ranges, key) == -1 && Covered(ranges, key) ensures !Searchable(ranges) {
      var j :| 0 <= j < |ranges| && Contains(ranges[j], key);
      var p := MissedIsHidden(ranges, key, j);
    }
  }

  /** A Python slice with a non-negative lower bound. */
  function Slice(ranges: seq<DataRange>, lo: nat, hi: int): seq<DataRange>
    requires lo <= |ranges| && hi <= |ranges|
  {
    if lo <= hi then ranges[lo..hi] else []
  }

  /** Two searches decide the answer; what matters is which end points were found. */
  function GetRangesBounds(ranges: seq<DataRange>, start: real, end: real): (b: (nat, nat))
    ensures b.0 <= |ranges| && b.1 <= |ranges|
  {
    var s := Search(ranges, start);
    var e := Search(ranges, end);
    if s == -1 && e == -1 then (0, 0)
    else if s == -1 then (0, e + 1)
    else if e == -1 then (s, |ranges|)
    else (s, e + 1)
  }

  function GetRanges(ranges: seq<DataRange>, start: real, end: real): seq<DataRange> {
    var s := Search(ranges, start);
    var e := Search(ranges, end);
    if s == -1 && e == -1 then []
    else if s == -1 then Slice(ranges, 0, e + 1)
    else if e == -1 then Slice(ranges, s, |ranges|)
    else Slice(ranges, s, e + 1)
  }

  predicate Overlaps(r: DataRange, start: real, end: real) {
    r.start <= end && start <= r.end
  }

  /** The ranges that share a point with [start, end], in order. */
  function Overlapping(ranges: seq<DataRange>, start: real, end: real): seq<DataRange> {
    if ranges == [] then []
    else
      var n := |ranges| - 1;
      Overlapping(ranges[..n], start, end) + if Overlaps(ranges[n], start, end) then [ranges[n]] else []
  }

  lemma {:induction false} OverlappingMembers(ranges: seq<DataRange>, start: real, end: real, r: DataRange)
    ensures r in Overlapping(ranges, start, end) <==> r in ranges && Overlaps(r, start, end)
  {
    if ranges != [] {
      var n := |ranges| - 1;
      OverlappingMembers(ranges[..n], start, end, r);
      assert ranges == ranges[..n] + [ranges[n]];
    }
  }

  /** When exactly the positions lo..hi overlap, the overlapping ranges are that slice. */
  lemma {:induction false} OverlappingIsSlice(ranges: seq<DataRange>, start: real, end: real, lo: nat, hi: nat)
    requires lo <= hi <= |ranges|
    requires forall i :: 0 <= i < |ranges| ==> (Overlaps(ranges[i], start, end) <==> lo <= i < hi)
    ensures Overlapping(ranges, start, end) == ranges[lo..hi]
  {
    if ranges != [] {
      var n := |ranges| - 1;
      if hi <= n {
        OverlappingIsSlice(ranges[..n], start, end, lo, hi);
        assert ranges[..n][lo..hi] == ranges[lo..hi];
      } else if lo <= n {
        OverlappingIsSlice(ranges[..n], start, end, lo, n);
        assert ranges[..n][lo..n] + [ranges[n]] == ranges[lo..hi];
      } else {
        OverlappingIsSlice(ranges[..n], start, end, n, n);
      }
    }
  }

  // ---------------------------------------------------------------------------
  // What get_ranges and get_ranges_bounds mean
  // ---------------------------------------------------------------------------

  predicate Proper(ranges: seq<DataRange>) {
    forall i :: 0 <= i < |ranges| ==> ranges[i].start <= ranges[i].end
  }

  /** Proper ranges that may share end points, each ending by the time the next one starts. */
  predicate Touching(ranges: seq<DataRange>) {
    Proper(ranges) && forall i, j :: 0 <= i < j < |ranges| ==> ranges[i].end <= ranges[j].start
  }

  /** r is proper and starts no earlier than the last range ends. */
  predicate Follows(ranges: seq<DataRange>, r: DataRange) {
    r.start <= r.end && (ranges != [] ==> ranges[|ranges| - 1].end <= r.start)
  }

  /** Proper ranges, each ending before the next one starts. */
  predicate Separate(ranges: seq<DataRange>) {
    Proper(ranges) && forall i, j :: 0 <= i < j < |ranges| ==> ranges[i].end < ranges[j].start
  }

  /** The bounds cut out the answer, sorted or not. */
  lemma BoundsGiveRanges(ranges: seq<DataRange>, start: real, end: real)
    ensures var b := GetRangesBounds(ranges, start, end); GetRanges(ranges, start, end) == Slice(ranges, b.0, b.1)
  {
  }

  /** i lies between the bounds. */
  predicate Returned(ranges: seq<DataRange>, start: real, end: real, i: int) {
    var b := GetRangesBounds(ranges, start, end);
    b.0 <= i < b.1
  }

  /** Exactly the overlapping positions lie between the bounds. */
  predicate BoundsExact(ranges: seq<DataRange>, start: real, end: real) {
    forall i :: 0 <= i < |ranges| ==> (Overlaps(ranges[i], start, end) <==> Returned(ranges, start, end, i))
  }

  lemma BoundsExactGivesOverlapping(ranges: seq<DataRange>, start: real, end: real)
    requires BoundsExact(ranges, start, end)
    ensures GetRanges(ranges, start, end) == Overlapping(ranges, start, end)
  {
    var b := GetRangesBounds(ranges, start, end);
    BoundsGiveRanges(ranges, start, end);
    if b.0 <= b.1 {
      OverlappingIsSlice(ranges, start, end, b.0, b.1);
    } else {
      OverlappingIsSlice(ranges, start, end, 0, 0);
    }
  }

  /** A returned range is in the answer. */
  lemma ReturnedIsIn(ranges: seq<DataRange>, start: real, end: real, i: int)
    requires 0 <= i < |ranges| && Returned(ranges, start, end, i)
    ensures ranges[i] in GetRanges(ranges, start, end)
  {
    var b := GetRangesBounds(ranges, start, end);
    BoundsGiveRanges(ranges, start, end);
    assert ranges[b.0..b.1][i - b.0] == ranges[i];
  }

  lemma {:induction false} OverlapsCounted(ranges: seq<DataRange>, start: real, end: real, lo: nat, hi: nat)
    requires lo <= hi <= |ranges| && forall i :: lo <= i < hi ==> Overlaps(ranges[i], start, end)
    ensures |Overlapping(ranges, start, end)| >= hi - lo
    decreases |ranges|
  {
    if lo < hi {
      OverlapsCounted(ranges[..|ranges| - 1], start, end, lo, if hi == |ranges| then hi - 1 else hi);
    }
  }

  /** One overlapping range more than those from lo to hi. */
  lemma {:induction false} OneMoreCounted(
    ranges: seq<DataRange>, start: real, end: real, lo: nat, hi: nat, k: nat)
    requires lo <= hi <= |ranges| && forall i :: lo <= i < hi ==> Overlaps(ranges[i], start, end)
    requires k < |ranges| && !(lo <= k < hi) && Overlaps(ranges[k], start, end)
    ensures |Overlapping(ranges, start, end)| > hi - lo
    decreases |ranges|
  {
    var n := |ranges| - 1;
    if k == n {
      OverlapsCounted(ranges[..n], start, end, if lo > n then n else lo, if hi > n then n else hi);
    } else {
      OneMoreCounted(ranges[..n], start, end, if lo > n then n else lo, if hi > n then n else hi, k);
    }
  }

  /** The answer is the list of overlapping ranges exactly when the bounds enclose their positions. */
  lemma AnswerIffBoundsExact(ranges: seq<DataRange>, start: real, end: real)
    ensures GetRanges(ranges, start, end) == Overlapping(ranges, start, end) <==> BoundsExact(ranges, start, end)
  {
    if BoundsExact(ranges, start, end) {
      BoundsExactGivesOverlapping(ranges, start, end);
    } else if GetRanges(ranges, start, end) == Overlapping(ranges, start, end) {
      OverlappingGivesBoundsExact(ranges, start, end);
    }
  }

  /** Everything returned overlaps and the number is right, so nothing is left out. */
  lemma OverlappingGivesBoundsExact(ranges: seq<DataRange>, start: real, end: real)
    requires GetRanges(ranges, start, end) == Overlapping(ranges, start, end)
    ensures BoundsExact(ranges, start, end)
  {
    var b := GetRangesBounds(ranges, start, end);
    var lo, hi := if b.0 <= b.1 then b.0 else 0, if b.0 <= b.1 then b.1 else 0;
    BoundsGiveRanges(ranges, start, end);
    forall i | lo <= i < hi ensures Overlaps(ranges[i], start, end) {
      ReturnedIsIn(ranges, start, end, i);
      OverlappingMembers(ranges, start, end, ranges[i]);
    }
    forall k | 0 <= k < |ranges| && !(lo <= k < hi) ensures !Overlaps(ranges[k], start, end) {
      if Overlaps(ranges[k], start, end) { OneMoreCounted(ranges, start, end, lo, hi, k); }
    }
  }

  // ---------------------------------------------------------------------------
  // When the answer is right, on lists sorted by start
  // ---------------------------------------------------------------------------

  /** Of the ranges that start by `end`, exactly those outside the two ranges found have ended before
      `start`; when only `start` is found, all ranges start by `end`. */
  predicate SortedExact(ranges: seq<DataRange>, start: real, end: real) {
    var s, e, q := FirstProbed(ranges, start), FirstProbed(ranges, end), Started(ranges, end);
    if s == -1 && e == -1 then forall i :: 0 <= i < q ==> ranges[i].end < start
    else
      (e == -1 ==> q == |ranges|) &&
      forall i :: 0 <= i < q ==> (ranges[i].end < start <==> i < s || (e != -1 && i > e))
  }

  /** MAIN: with growing starts, what is returned runs from the first probed range that holds `start` to
      the first probed one that holds `end`; without the one it begins at the first range, without the
      other it runs to the last, and without both it is empty. */
  lemma ReturnedIff(ranges: seq<DataRange>, start: real, end: real, i: int)
    requires StartsGrow(ranges) && 0 <= i < |ranges|
    ensures var s, e := FirstProbed(ranges, start), FirstProbed(ranges, end);
      Returned(ranges, start, end, i) <==> (s != -1 || e != -1) && (s != -1 ==> s <= i) && (e != -1 ==> i <= e)
  {
    SearchIsFirstProbed(ranges, start);
    SearchIsFirstProbed(ranges, end);
  }

  /** MAIN: with growing starts the bounds enclose exactly the overlapping ranges under SortedExact. */
  lemma SortedBoundsMeaning(ranges: seq<DataRange>, start: real, end: real)
    requires StartsGrow(ranges)
    ensures BoundsExact(ranges, start, end) <==> SortedExact(ranges, start, end)
  {
    SearchIsFirstProbed(ranges, start);
    SearchIsFirstProbed(ranges, end);
    StartedIsBoundary(ranges, end);
    var s, e, q := FirstProbed(ranges, start), FirstProbed(ranges, end), Started(ranges, end);
    forall i | 0 <= i < |ranges|
      ensures Overlaps(ranges[i], start, end) <==> i < q && !(ranges[i].end < start)
      ensures Returned(ranges, start, end, i) <==>
              (s != -1 || e != -1) && !(i < s) && !(e != -1 && i > e)
    {
    }
    if BoundsExact(ranges, start, end) && s != -1 && e == -1 {
      assert Returned(ranges, start, end, |ranges| - 1);
    }
  }

  /** MAIN: and the answer is the list of overlapping ranges exactly then. */
  lemma SortedRangesMeaning(ranges: seq<DataRange>, start: real, end: real)
    requires StartsGrow(ranges)
    ensures GetRanges(ranges, start, end) == Overlapping(ranges, start, end) <==> SortedExact(ranges, start, end)
  {
    SortedBoundsMeaning(ranges, start, end);
    AnswerIffBoundsExact(ranges, start, end);
  }

  // ---------------------------------------------------------------------------
  // When the answer is right, on lists whose ends grow too
  // ---------------------------------------------------------------------------

  /** When the end points lie such that nothing but overlapping ranges is returned and no range in
      between is left out. */
  predicate AnswersExactly(ranges: seq<DataRange>, start: real, end: real) {
    if Covered(ranges, start) && Covered(ranges, end) then true
    else if Covered(ranges, end) then start < ranges[0].start               // start lies before every range
    else if Covered(ranges, start) then ranges[|ranges| - 1].end < end      // end lies behind every range
    else forall i :: 0 <= i < |ranges| ==> !(start < ranges[i].start < end) // no range begins in between
  }

  /** The i-th range holds `start`, but neither it nor an earlier one that does is probed. */
  predicate SkippedAtStart(ranges: seq<DataRange>, start: real, i: int)
    requires 0 <= i < |ranges|
  {
    Contains(ranges[i], start) &&
    forall k :: 0 <= k <= i && Contains(ranges[k], start) ==> !ProbedFor(ranges, Started(ranges, start), k)
  }

  /** The i-th range holds `end`, but an earlier one that does is probed. */
  predicate SkippedAtEnd(ranges: seq<DataRange>, end: real, i: int)
    requires 0 <= i < |ranges|
  {
    Contains(ranges[i], end) &&
    exists k :: 0 <= k < i && Contains(ranges[k], end) && ProbedFor(ranges, Started(ranges, end), k)
  }

  /** The first range that holds `start` is probed, and of those that hold `end` only the last. */
  predicate NothingSkipped(ranges: seq<DataRange>, start: real, end: real) {
    forall i :: 0 <= i < |ranges| ==> !SkippedAtStart(ranges, start, i) && !SkippedAtEnd(ranges, end, i)
  }

  lemma LastStartedHolds(ranges: seq<DataRange>, key: real, i: int)
    requires Monotone(ranges) && 0 <= i < |ranges| && Contains(ranges[i], key)
    ensures var p := Started(ranges, key);
      i < p <= |ranges| && Contains(ranges[p - 1], key) && ProbedFor(ranges, p, p - 1)
  {
    StartedIsBoundary(ranges, key);
    LastStartedProbed(0, |ranges| - 1, Started(ranges, key));
  }

  /** The search for `start` goes past exactly the ranges that are skipped there. */
  lemma SkippedAtStartIff(ranges: seq<DataRange>, start: real, end: real, i: int)
    requires Monotone(ranges) && 0 <= i < |ranges| && Contains(ranges[i], start)
    ensures i < GetRangesBounds(ranges, start, end).0 <==> SkippedAtStart(ranges, start, i)
  {
    SearchIsFirstProbed(ranges, start);
    LastStartedHolds(ranges, start, i);
  }

  /** The search for `end` stops before exactly the ranges that are skipped there. */
  lemma SkippedAtEndIff(ranges: seq<DataRange>, start: real, end: real, i: int)
    requires Monotone(ranges) && 0 <= i < |ranges| && Contains(ranges[i], end)
    ensures i >= GetRangesBounds(ranges, start, end).1 <==> SkippedAtEnd(ranges, end, i)
  {
    SearchIsFirstProbed(ranges, end);
    LastStartedHolds(ranges, end, i);
  }

  /** MAIN: once an end point is covered, an overlapping range is left out exactly when it holds an end
      point and is skipped there. */
  lemma LeftOutIff(ranges: seq<DataRange>, start: real, end: real, i: int)
    requires Monotone(ranges) && Proper(ranges) && start <= end && (Covered(ranges, start) || Covered(ranges, end))
    requires 0 <= i < |ranges|
    ensures Overlaps(ranges[i], start, end) && !Returned(ranges, start, end, i) <==>
            SkippedAtStart(ranges, start, i) || SkippedAtEnd(ranges, end, i)
  {
    SearchIffContained(ranges, start);
    SearchIffContained(ranges, end);
    if Contains(ranges[i], start) { SkippedAtStartIff(ranges, start, end, i); }
    if Contains(ranges[i], end) { SkippedAtEndIff(ranges, start, end, i); }
  }

  /** What is returned overlaps, exactly under the condition on the end points. */
  lemma ReturnedOverlaps(ranges: seq<DataRange>, start: real, end: real)
    requires Monotone(ranges) && Proper(ranges) && start <= end
    requires Covered(ranges, start) || Covered(ranges, end)
    ensures (forall i :: 0 <= i < |ranges| && Returned(ranges, start, end, i) ==> Overlaps(ranges[i], start, end)) <==>
            AnswersExactly(ranges, start, end)
  {
    SearchIffContained(ranges, start);
    SearchIffContained(ranges, end);
    if !Covered(ranges, start) {
      assert !Contains(ranges[0], start) && Returned(ranges, start, end, 0);
    } else if !Covered(ranges, end) {
      assert !Contains(ranges[|ranges| - 1], end) && Returned(ranges, start, end, |ranges| - 1);
    }
  }

  lemma NoneCovered(ranges: seq<DataRange>, start: real, end: real)
    requires Monotone(ranges) && Proper(ranges) && start <= end
    requires !Covered(ranges, start) && !Covered(ranges, end)
    ensures GetRangesBounds(ranges, start, end) == (0, 0) && NothingSkipped(ranges, start, end)
    ensures (forall i :: 0 <= i < |ranges| ==> !Overlaps(ranges[i], start, end)) <==> AnswersExactly(ranges, start, end)
  {
    SearchIffContained(ranges, start);
    SearchIffContained(ranges, end);
    forall i | 0 <= i < |ranges| ensures Overlaps(ranges[i], start, end) <==> start < ranges[i].start < end {
      assert !Contains(ranges[i], start) && !Contains(ranges[i], end);
    }
  }

  /** MAIN: the bounds enclose exactly the overlapping ranges when AnswersExactly holds and no range that
      holds an end point is skipped there. */
  lemma BoundsMeaning(ranges: seq<DataRange>, start: real, end: real)
    requires Monotone(ranges) && Proper(ranges) && start <= end
    ensures BoundsExact(ranges, start, end) <==>
            AnswersExactly(ranges, start, end) && NothingSkipped(ranges, start, end)
  {
    if !Covered(ranges, start) && !Covered(ranges, end) {
      NoneCovered(ranges, start, end);
    } else {
      ReturnedOverlaps(ranges, start, end);
      forall i | 0 <= i < |ranges|
        ensures Overlaps(ranges[i], start, end) && !Returned(ranges, start, end, i) <==>
                SkippedAtStart(ranges, start, i) || SkippedAtEnd(ranges, end, i)
      {
        LeftOutIff(ranges, start, end, i);
      }
    }
  }

  /** MAIN: the answer is the overlapping ranges, in order, exactly under the same condition. */
  lemma GetRangesMeaning(ranges: seq<DataRange>, start: real, end: real)
    requires Monotone(ranges) && Proper(ranges) && start <= end
    ensures GetRanges(ranges, start, end) == Overlapping(ranges, start, end) <==>
            AnswersExactly(ranges, start, end) && NothingSkipped(ranges, start, end)
  {
    BoundsMeaning(ranges, start, end);
    AnswerIffBoundsExact(ranges, start, end);
  }

  lemma TouchingIsMonotone(ranges: seq<DataRange>)
    requires Touching(ranges)
    ensures Monotone(ranges)
  {
  }

  /** Of ranges that at most touch, one that is skipped shares just the end point queried. */
  lemma TouchingSharesPoint(ranges: seq<DataRange>, start: real, end: real, i: int)
    requires Touching(ranges) && 0 <= i < |ranges|
    ensures SkippedAtStart(ranges, start, i) ==> ranges[i].end == start
    ensures SkippedAtEnd(ranges, end, i) ==> ranges[i].start == end
  {
    TouchingIsMonotone(ranges);
    if SkippedAtStart(ranges, start, i) { LastStartedHolds(ranges, start, i); }
  }

  /** Two touching ranges share the point at which the second starts. */
  predicate ShareStart(ranges: seq<DataRange>, i: int, key: real) {
    0 <= i && i + 1 < |ranges| && ranges[i].end == key == ranges[i + 1].start
  }

  /** No range is a single point. */
  predicate Lasting(ranges: seq<DataRange>) {
    forall i :: 0 <= i < |ranges| ==> ranges[i].start < ranges[i].end
  }

  lemma FartherApart(ranges: seq<DataRange>, key: real, i: int, k: int)
    requires Touching(ranges) && Lasting(ranges) && 0 <= i && i + 1 < k < |ranges| && Contains(ranges[i], key)
    ensures !Contains(ranges[k], key)
  {
    assert ranges[i].end <= ranges[i + 1].start && ranges[i + 1].end <= ranges[k].start;
  }

  /** In a list of lasting ranges only neighbours can hold the same key. */
  lemma LastingShare(ranges: seq<DataRange>, key: real, i: int, k: int)
    requires Touching(ranges) && Lasting(ranges) && 0 <= i < k < |ranges|
    requires Contains(ranges[i], key) && Contains(ranges[k], key)
    ensures k == i + 1 && ShareStart(ranges, i, key) && Started(ranges, key) == i + 2
  {
    if i + 1 < k { FartherApart(ranges, key, i, k); }
    TouchingIsMonotone(ranges);
    StartedIsBoundary(ranges, key);
    assert ranges[i].end <= ranges[i + 1].start;
    if i + 2 < |ranges| { assert ranges[i + 1].end <= ranges[i + 2].start; }
  }

  lemma TouchingSkippedAtStart(ranges: seq<DataRange>, start: real, i: int)
    requires Touching(ranges) && Lasting(ranges) && 0 <= i < |ranges|
    ensures SkippedAtStart(ranges, start, i) <==> ShareStart(ranges, i, start) && !ProbedFor(ranges, i + 2, i)
  {
    TouchingIsMonotone(ranges);
    if Contains(ranges[i], start) {
      LastStartedHolds(ranges, start, i);
      var p := Started(ranges, start);
      if i < p - 1 { LastingShare(ranges, start, i, p - 1); }
      forall k | 0 <= k < i && ShareStart(ranges, i, start) ensures !Contains(ranges[k], start) {
        if Contains(ranges[k], start) { LastingShare(ranges, start, k, i + 1); }
      }
      if ShareStart(ranges, i, start) { LastingShare(ranges, start, i, i + 1); }
    }
  }

  lemma TouchingSkippedAtEnd(ranges: seq<DataRange>, end: real, i: int)
    requires Touching(ranges) && Lasting(ranges) && 0 <= i < |ranges|
    ensures SkippedAtEnd(ranges, end, i) <==> ShareStart(ranges, i - 1, end) && ProbedFor(ranges, i + 1, i - 1)
  {
    if SkippedAtEnd(ranges, end, i) {
      var k :| 0 <= k < i && Contains(ranges[k], end) && ProbedFor(ranges, Started(ranges, end), k);
      LastingShare(ranges, end, k, i);
    } else if ShareStart(ranges, i - 1, end) {
      LastingShare(ranges, end, i - 1, i);
    }
  }

  /** MAIN: of lasting ranges that at most touch, one that overlaps is left out exactly when it shares an
      end point with its neighbour on the other side of that point, and halving visits, for `start`, not
      it but only the neighbour, or, for `end`, the neighbour before it. */
  lemma TouchingMissesNeighbour(ranges: seq<DataRange>, start: real, end: real, i: int)
    requires Touching(ranges) && Lasting(ranges) && start <= end && 0 <= i < |ranges|
    requires Covered(ranges, start) || Covered(ranges, end)
    ensures Overlaps(ranges[i], start, end) && !Returned(ranges, start, end, i) <==>
            (ShareStart(ranges, i, start) && !ProbedFor(ranges, i + 2, i)) ||
            (ShareStart(ranges, i - 1, end) && ProbedFor(ranges, i + 1, i - 1))
  {
    TouchingIsMonotone(ranges);
    LeftOutIff(ranges, start, end, i);
    TouchingSkippedAtStart(ranges, start, i);
    TouchingSkippedAtEnd(ranges, end, i);
  }

  /** Such a list: the second range begins where the query ends, and is left out. */
  lemma TouchingCanMiss()
    ensures var ranges := [DataRange(0.0, 1.0, ""), DataRange(1.0, 2.0, "")];
      Touching(ranges) && Overlaps(ranges[1], 0.5, 1.0) && ranges[1] !in GetRanges(ranges, 0.5, 1.0) &&
      GetRanges(ranges, 0.5, 1.0) == [ranges[0]]
  {
    var ranges := [DataRange(0.0, 1.0, ""), DataRange(1.0, 2.0, "")];
    assert Search(ranges, 0.5) == 0 == Search(ranges, 1.0);
    assert ranges[0..1] == [ranges[0]];
  }

  /** Ranges that do not even touch: nothing is skipped. */
  lemma SeparateSkipsNothing(ranges: seq<DataRange>, start: real, end: real)
    requires Separate(ranges)
    ensures Monotone(ranges) && NothingSkipped(ranges, start, end)
  {
    TouchingIsMonotone(ranges);
    forall i | 0 <= i < |ranges| && Contains(ranges[i], start) ensures !SkippedAtStart(ranges, start, i) {
      LastStartedHolds(ranges, start, i);
    }
  }

  /** MAIN: for separate ranges the answer is the overlapping ranges exactly under AnswersExactly, and
      it contains all of them as soon as one end point is covered. */
  lemma SeparateRangesMeaning(ranges: seq<DataRange>, start: real, end: real)
    requires Separate(ranges) && start <= end
    ensures GetRanges(ranges, start, end) == Overlapping(ranges, start, end) <==> AnswersExactly(ranges, start, end)
    ensures Covered(ranges, start) || Covered(ranges, end) ==>
      forall r :: r in Overlapping(ranges, start, end) ==> r in GetRanges(ranges, start, end)
  {
    SeparateSkipsNothing(ranges, start, end);
    GetRangesMeaning(ranges, start, end);
    if Covered(ranges, start) || Covered(ranges, end) {
      forall r | r in Overlapping(ranges, start, end) ensures r in GetRanges(ranges, start, end) {
        OverlappingMembers(ranges, start, end, r);
        var i :| 0 <= i < |ranges| && ranges[i] == r;
        LeftOutIff(ranges, start, end, i);
        ReturnedIsIn(ranges, start, end, i);
      }
    }
  }

  class TimelineDataRange {
    var ranges: seq<DataRange>

    constructor ()
      ensures ranges == []
    {
      ranges := [];
    }

    /** Proper ranges that are added in the order of time, none before the last one ended, at most touch. */
    method AddRange(r: DataRange)
      modifies this
      ensures ranges == old(ranges) + [r]
      ensures Touching(old(ranges)) && Follows(old(ranges), r) ==> Touching(ranges)
    {
      ranges := ranges + [r];
    }

    method FindKey(key: real) returns (i: int)
      ensures i == Search(ranges, key)
    {
      var l, u := 0, |ranges| - 1;
      while l <= u
        invariant 0 <= l && u < |ranges| && Search(ranges, key) == SearchIn(ranges, key, l, u)
        decreases u - l + 1
      {
        i := (l + u) / 2;
        if key >= ranges[i].start && key <= ranges[i].end {
          return i;
        } else if key < ranges[i].start {
          u := i - 1;
        } else {
          l := i + 1;
        }
      }
      return -1;
    }

    method Query(start: real, end: real) returns (result: seq<DataRange>)
      ensures result == GetRanges(ranges, start, end)
    {
      var s := FindKey(start);
      var e := FindKey(end);
      if s == -1 && e == -1 { return []; }
      if s == -1 { return Slice(ranges, 0, e + 1); }
      if e == -1 { return Slice(ranges, s, |ranges|); }
      return Slice(ranges, s, e + 1);
    }

    method QueryBounds(start: real, end: real) returns (b: (nat, nat))
      ensures b == GetRangesBounds(ranges, start, end)
    {
      var s := FindKey(start);
      var e := FindKey(end);
      if s == -1 && e == -1 { return (0, 0); }
      if s == -1 { return (0, e + 1); }
      if e == -1 { return (s, |ranges|); }
      return (s, e + 1);
    }
  }

  // ---------------------------------------------------------------------------
  // TopLegendRenderer
  // ---------------------------------------------------------------------------

  /** The measured extent of a legend's text. */
  datatype Extent = Extent(width: real, height: real)

  /** The running variables of layout and draw. */
  datatype Pen = Pen(lineHeight: real, totalHeight: real, lineUsed: real)

  datatype Box = Box(x: real, y: real, width: real, height: real)

  function ItemWidth(padding: real, t: Extent): real {
    padding + padding + t.width + padding
  }

  function ItemHeight(padding: real, t: Extent): real {
    t.height + padding
  }

  /** The pen once one more legend is placed; the line height is raised before a row is ended. */
  function Advance(padding: real, width: real, pen: Pen, t: Extent): Pen {
    var lineHeight := if ItemHeight(padding, t) > pen.lineHeight then ItemHeight(padding, t) else pen.lineHeight;
    if pen.lineUsed + ItemWidth(padding, t) > width then
      Pen(lineHeight, pen.totalHeight + lineHeight, padding + ItemWidth(padding, t))
    else
      Pen(lineHeight, pen.totalHeight, pen.lineUsed + ItemWidth(padding, t))
  }

  function PenAfter(padding: real, width: real, legends: seq<Extent>, n: nat): Pen
    requires n <= |legends|
  {
    if n == 0 then Pen(0.0, padding, padding)
    else Advance(padding, width, PenAfter(padding, width, legends, n - 1), legends[n - 1])
  }

  /** The box that the i-th legend occupies. */
  function BoxOf(padding: real, width: real, legends: seq<Extent>, i: nat): Box
    requires i < |legends|
  {
    var pen := PenAfter(padding, width, legends, i + 1);
    var w := ItemWidth(padding, legends[i]);
    Box(pen.lineUsed - w, pen.totalHeight, w, ItemHeight(padding, legends[i]))
  }

  function LayoutHeight(padding: real, width: real, legends: seq<Extent>): real {
    var pen := PenAfter(padding, width, legends, |legends|);
    pen.totalHeight + pen.lineHeight
  }

  predicate NonNegative(padding: real, legends: seq<Extent>) {
    padding >= 0.0 && forall i :: 0 <= i < |legends| ==> legends[i].width >= 0.0 && legends[i].height >= 0.0
  }

  predicate FitsAlone(padding: real, width: real, t: Extent) {
    padding + ItemWidth(padding, t) <= width
  }

  /** b is finished: above the current row, or in it and left of the pen. */
  predicate Behind(b: Box, pen: Pen) {
    b.y + b.height <= pen.totalHeight ||
    (b.y == pen.totalHeight && b.x + b.width <= pen.lineUsed && b.height <= pen.lineHeight)
  }

  /** Every placed box stays behind the pen. */
  lemma {:induction false} StaysBehind(padding: real, width: real, legends: seq<Extent>, i: nat, n: nat)
    requires NonNegative(padding, legends) && i < n <= |legends|
    ensures Behind(BoxOf(padding, width, legends, i), PenAfter(padding, width, legends, n))
    decreases n
  {
    PenGrows(padding, width, legends, n - 1);
    if i < n - 1 {
      StaysBehind(padding, width, legends, i, n - 1);
    }
  }

  lemma {:induction false} PenGrows(padding: real, width: real, legends: seq<Extent>, n: nat)
    requires NonNegative(padding, legends) && n <= |legends|
    ensures var pen := PenAfter(padding, width, legends, n);
      pen.lineHeight >= 0.0 && pen.totalHeight >= padding && pen.lineUsed >= padding
  {
    if n > 0 { PenGrows(padding, width, legends, n - 1); }
  }

  predicate Disjoint(a: Box, b: Box) {
    a.x + a.width <= b.x || b.x + b.width <= a.x || a.y + a.height <= b.y || b.y + b.height <= a.y
  }

  /** MAIN: no two item boxes overlap, whatever the width. */
  lemma BoxesDisjoint(padding: real, width: real, legends: seq<Extent>, i: nat, j: nat)
    requires NonNegative(padding, legends) && i < j < |legends|
    ensures Disjoint(BoxOf(padding, width, legends, i), BoxOf(padding, width, legends, j))
  {
    StaysBehind(padding, width, legends, i, j);
    PenGrows(padding, width, legends, j);
  }

  /** MAIN: a box lies inside the computed height and right of the margin; it lies inside the given
      width exactly when its item fits on a row by itself. */
  lemma BoxesInside(padding: real, width: real, legends: seq<Extent>, i: nat)
    requires NonNegative(padding, legends) && i < |legends|
    ensures var b := BoxOf(padding, width, legends, i);
      padding <= b.x && padding <= b.y && b.y + b.height <= LayoutHeight(padding, width, legends) &&
      (b.x + b.width <= width <==> FitsAlone(padding, width, legends[i]))
  {
    StaysBehind(padding, width, legends, i, |legends|);
    PenGrows(padding, width, legends, i);
    PenGrows(padding, width, legends, i + 1);
    PenGrows(padding, width, legends, |legends|);
  }

  /** The height of the tallest of the first n items. */
  function Tallest(padding: real, legends: seq<Extent>, n: nat): real
    requires n <= |legends|
  {
    if n == 0 then 0.0
    else
      var h := Tallest(padding, legends, n - 1);
      if ItemHeight(padding, legends[n - 1]) > h then ItemHeight(padding, legends[n - 1]) else h
  }

  lemma {:induction false} LineHeightIsTallest(padding: real, width: real, legends: seq<Extent>, n: nat)
    requires n <= |legends|
    ensures PenAfter(padding, width, legends, n).lineHeight == Tallest(padding, legends, n)
  {
    if n > 0 { LineHeightIsTallest(padding, width, legends, n - 1); }
  }

  /** A box continues its predecessor's row exactly when it still fits; otherwise it starts a new
      row, below by the height of the tallest item up to and including itself. */
  lemma NextBox(padding: real, width: real, legends: seq<Extent>, i: nat)
    requires i + 1 < |legends|
    ensures var a, b := BoxOf(padding, width, legends, i), BoxOf(padding, width, legends, i + 1);
      if a.x + a.width + b.width <= width then b.y == a.y && b.x == a.x + a.width
      else b.x == padding && b.y == a.y + Tallest(padding, legends, i + 2)
  {
    LineHeightIsTallest(padding, width, legends, i + 2);
  }

  // ---------------------------------------------------------------------------
  // What is drawn, without item widths, pens and boxes
  // ---------------------------------------------------------------------------

  /** What is drawn for a legend: a coloured square and the text behind it, on its baseline. */
  datatype Mark = Mark(swatch: Box, textX: real, baseline: real)

  function TextBox(m: Mark, t: Extent): Box {
    Box(m.textX, m.baseline - t.height, t.width, t.height)
  }

  function MarkOf(padding: real, width: real, legends: seq<Extent>, i: nat): Mark
    requires i < |legends|
  {
    var b := BoxOf(padding, width, legends, i);
    Mark(Box(b.x, b.y, padding, padding), b.x + padding * 2.0, b.y + legends[i].height)
  }

  /** The square has the size of the padding, as wide a gap follows, and the text stands level with it. */
  predicate IsMark(padding: real, t: Extent, m: Mark) {
    m.swatch.width == padding && m.swatch.height == padding &&
    m.textX == m.swatch.x + padding + padding && m.baseline == m.swatch.y + t.height
  }

  /** h is the height of the tallest of the first n texts. */
  predicate IsTallest(legends: seq<Extent>, n: nat, h: real)
    requires n <= |legends|
  {
    (exists k :: 0 <= k < n && legends[k].height == h) && forall k :: 0 <= k < n ==> legends[k].height <= h
  }

  /** The first mark starts a row, the second one when its text does not fit on the first. */
  predicate StartsAt(padding: real, width: real, t: Extent, m: Mark) {
    m.swatch.x == padding &&
    m.swatch.y == if padding + 3.0 * padding + t.width <= width then padding else padding + t.height + padding
  }

  /** The mark b of the i-th legend continues the row of its predecessor a behind a's text and a gap,
      exactly when its text and a gap still fit; otherwise it starts a row, below by the tallest text so
      far and a gap. */
  predicate Continues(padding: real, width: real, legends: seq<Extent>, i: nat, a: Mark, b: Mark)
    requires 0 < i < |legends|
  {
    var end := a.textX + legends[i - 1].width + padding;
    if end + 3.0 * padding + legends[i].width <= width then b.swatch.x == end && b.swatch.y == a.swatch.y
    else b.swatch.x == padding && IsTallest(legends, i + 1, b.swatch.y - a.swatch.y - padding)
  }

  predicate WellPlaced(padding: real, width: real, legends: seq<Extent>, marks: seq<Mark>) {
    |marks| == |legends| &&
    (forall i :: 0 <= i < |marks| ==> IsMark(padding, legends[i], marks[i])) &&
    (|marks| > 0 ==> StartsAt(padding, width, legends[0], marks[0])) &&
    (forall i :: 0 < i < |marks| ==> Continues(padding, width, legends, i, marks[i - 1], marks[i]))
  }

  lemma {:induction false} TallestText(padding: real, legends: seq<Extent>, n: nat)
    requires NonNegative(padding, legends) && 0 < n <= |legends|
    ensures IsTallest(legends, n, Tallest(padding, legends, n) - padding)
  {
    if n > 1 {
      TallestText(padding, legends, n - 1);
    } else {
      assert Tallest(padding, legends, 0) == 0.0;
      assert legends[0].height == Tallest(padding, legends, 1) - padding;
    }
  }

  lemma OneTallest(legends: seq<Extent>, n: nat, h: real, g: real)
    requires n <= |legends| && IsTallest(legends, n, h) && IsTallest(legends, n, g)
    ensures h == g
  {
  }

  lemma FirstMark(padding: real, width: real, legends: seq<Extent>)
    requires NonNegative(padding, legends) && legends != []
    ensures StartsAt(padding, width, legends[0], MarkOf(padding, width, legends, 0))
  {
    assert PenAfter(padding, width, legends, 0) == Pen(0.0, padding, padding);
  }

  lemma NextMark(padding: real, width: real, legends: seq<Extent>, i: nat)
    requires NonNegative(padding, legends) && 0 < i < |legends|
    ensures Continues(padding, width, legends, i,
                      MarkOf(padding, width, legends, i - 1), MarkOf(padding, width, legends, i))
  {
    NextBox(padding, width, legends, i - 1);
    TallestText(padding, legends, i + 1);
  }

  /** MAIN: the drawn marks are placed as the rules say, and no other marks are. */
  lemma MarksWellPlaced(padding: real, width: real, legends: seq<Extent>, marks: seq<Mark>)
    requires NonNegative(padding, legends) && |marks| == |legends|
    ensures WellPlaced(padding, width, legends, marks) <==>
            forall i :: 0 <= i < |marks| ==> marks[i] == MarkOf(padding, width, legends, i)
  {
    if forall i :: 0 <= i < |marks| ==> marks[i] == MarkOf(padding, width, legends, i) {
      if marks != [] { FirstMark(padding, width, legends); }
      forall i | 0 < i < |marks| ensures Continues(padding, width, legends, i, marks[i - 1], marks[i]) {
        NextMark(padding, width, legends, i);
      }
    }
    if WellPlaced(padding, width, legends, marks) {
      forall i | 0 <= i < |marks| ensures marks[i] == MarkOf(padding, width, legends, i) {
        PlacedOnce(padding, width, legends, marks, i);
      }
    }
  }

  lemma {:induction false} PlacedOnce(padding: real, width: real, legends: seq<Extent>, marks: seq<Mark>, i: nat)
    requires NonNegative(padding, legends) && WellPlaced(padding, width, legends, marks) && i < |marks|
    ensures marks[i] == MarkOf(padding, width, legends, i)
  {
    if i == 0 {
      FirstMark(padding, width, legends);
    } else {
      PlacedOnce(padding, width, legends, marks, i - 1);
      NextMark(padding, width, legends, i);
      SameNext(padding, width, legends, i, marks[i - 1], marks[i], MarkOf(padding, width, legends, i));
    }
  }

  lemma SameNext(padding: real, width: real, legends: seq<Extent>, i: nat, a: Mark, b: Mark, c: Mark)
    requires 0 < i < |legends| && IsMark(padding, legends[i], b) && IsMark(padding, legends[i], c)
    requires Continues(padding, width, legends, i, a, b) && Continues(padding, width, legends, i, a, c)
    ensures b == c
  {
    var end := a.textX + legends[i - 1].width + padding;
    if end + 3.0 * padding + legends[i].width > width {
      OneTallest(legends, i + 1, b.swatch.y - a.swatch.y - padding, c.swatch.y - a.swatch.y - padding);
    }
  }

  predicate Within(a: Box, b: Box) {
    b.x <= a.x && a.x + a.width <= b.x + b.width && b.y <= a.y && a.y + a.height <= b.y + b.height
  }

  lemma WithinDisjoint(a: Box, b: Box, c: Box, d: Box)
    requires Within(a, b) && Within(c, d) && Disjoint(b, d)
    ensures Disjoint(a, c)
  {
  }

  /** Square and text lie in the legend's box, with a gap between them and one behind the text. */
  lemma MarkWithin(padding: real, width: real, legends: seq<Extent>, i: nat)
    requires NonNegative(padding, legends) && i < |legends|
    ensures var m, b := MarkOf(padding, width, legends, i), BoxOf(padding, width, legends, i);
      Within(m.swatch, b) && Within(TextBox(m, legends[i]), b) &&
      m.swatch.x + m.swatch.width + padding == m.textX && m.textX + legends[i].width + padding == b.x + b.width
  {
  }

  /** MAIN: squares and texts of different legends never overlap. */
  lemma MarksDisjoint(padding: real, width: real, legends: seq<Extent>, i: nat, j: nat)
    requires NonNegative(padding, legends) && i < j < |legends|
    ensures var m, n := MarkOf(padding, width, legends, i), MarkOf(padding, width, legends, j);
      Disjoint(m.swatch, n.swatch) && Disjoint(m.swatch, TextBox(n, legends[j])) &&
      Disjoint(TextBox(m, legends[i]), n.swatch) && Disjoint(TextBox(m, legends[i]), TextBox(n, legends[j]))
  {
    var m, n := MarkOf(padding, width, legends, i), MarkOf(padding, width, legends, j);
    var b, c := BoxOf(padding, width, legends, i), BoxOf(padding, width, legends, j);
    BoxesDisjoint(padding, width, legends, i, j);
    MarkWithin(padding, width, legends, i);
    MarkWithin(padding, width, legends, j);
    WithinDisjoint(m.swatch, b, n.swatch, c);
    WithinDisjoint(m.swatch, b, TextBox(n, legends[j]), c);
    WithinDisjoint(TextBox(m, legends[i]), b, n.swatch, c);
    WithinDisjoint(TextBox(m, legends[i]), b, TextBox(n, legends[j]), c);
  }

  /** The height ends a gap and the tallest text below the last row's top. */
  predicate EndsAt(padding: real, legends: seq<Extent>, marks: seq<Mark>, height: real)
    requires |marks| == |legends|
  {
    if marks == [] then height == padding
    else IsTallest(legends, |legends|, height - marks[|marks| - 1].swatch.y - padding)
  }

  /** MAIN: the computed height is that of the marks that are drawn. */
  lemma LayoutHeightMeaning(padding: real, width: real, legends: seq<Extent>, marks: seq<Mark>)
    requires NonNegative(padding, legends) && WellPlaced(padding, width, legends, marks)
    ensures EndsAt(padding, legends, marks, LayoutHeight(padding, width, legends))
  {
    var n := |legends|;
    LineHeightIsTallest(padding, width, legends, n);
    if n > 0 {
      TallestText(padding, legends, n);
      PlacedOnce(padding, width, legends, marks, n - 1);
    }
  }

  class TopLegendRenderer {
    var padding: real
    var legends: seq<Extent>
    var width: real
    var height: real

    constructor (legends: seq<Extent>)
      ensures padding == 10.0 && this.legends == legends
    {
      padding, this.legends := 10.0, legends;
    }

    method Layout(width: real)
      modifies this
      ensures padding == old(padding) && legends == old(legends) && this.width == width
      ensures height == LayoutHeight(padding, width, legends)
      ensures NonNegative(padding, legends) ==>
        forall marks :: WellPlaced(padding, width, legends, marks) ==> EndsAt(padding, legends, marks, height)
    {
      this.width := width;
      var lineHeight, totalHeight, lineUsed := 0.0, padding, padding;
      for i := 0 to |legends|
        invariant padding == old(padding) && legends == old(legends) && this.width == width
        invariant Pen(lineHeight, totalHeight, lineUsed) == PenAfter(padding, width, legends, i)
      {
        var itemWidth := padding + padding + legends[i].width + padding;
        var itemHeight := legends[i].height + padding;
        if itemHeight > lineHeight { lineHeight := itemHeight; }
        if lineUsed + itemWidth > this.width {
          lineUsed := padding + itemWidth;
          totalHeight := totalHeight + lineHeight;
        } else {
          lineUsed := lineUsed + itemWidth;
        }
      }
      totalHeight := totalHeight + lineHeight;
      height := totalHeight;
      forall marks | NonNegative(padding, legends) && WellPlaced(padding, width, legends, marks)
        ensures EndsAt(padding, legends, marks, height)
      {
        LayoutHeightMeaning(padding, width, legends, marks);
      }
    }

    /** The marks in drawing order, for the width of the last layout. */
    method Draw() returns (marks: seq<Mark>)
      ensures |marks| == |legends|
      ensures forall i :: 0 <= i < |legends| ==> marks[i] == MarkOf(padding, width, legends, i)
      ensures NonNegative(padding, legends) ==> WellPlaced(padding, width, legends, marks)
    {
      marks := [];
      var lineHeight, totalHeight, lineUsed := 0.0, padding, padding;
      for i := 0 to |legends|
        invariant |marks| == i && forall k :: 0 <= k < i ==> marks[k] == MarkOf(padding, width, legends, k)
        invariant Pen(lineHeight, totalHeight, lineUsed) == PenAfter(padding, width, legends, i)
      {
        var itemWidth := padding + padding + legends[i].width + padding;
        var itemHeight := legends[i].height + padding;
        if itemHeight > lineHeight { lineHeight := itemHeight; }
        if lineUsed + itemWidth > width {
          lineUsed := padding + itemWidth;
          totalHeight := totalHeight + lineHeight;
        } else {
          lineUsed := lineUsed + itemWidth;
        }
        var x := lineUsed - itemWidth;
        var swatch := Box(x, totalHeight, padding, padding);
        marks := marks + [Mark(swatch, x + padding * 2.0, totalHeight + legends[i].height)];
      }
      if NonNegative(padding, legends) { MarksWellPlaced(padding, width, legends, marks); }
    }
  }
}
