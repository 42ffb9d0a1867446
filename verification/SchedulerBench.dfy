/** The scheduler benchmark (utils/bench-scheduler.cc): its event population and its statistics. */
module SchedulerBench {
  import opened Wrappers

  // ---------------------------------------------------------------------------
  // The event queue, as far as the benchmark relies on it
  // ---------------------------------------------------------------------------

  ghost predicate IsEarliest(t: nat, events: multiset<nat>) {
    t in events && forall u :: u in events ==> t <= u
  }

  lemma {:induction false} EarliestExists(events: multiset<nat>) returns (t: nat)
    requires events != multiset{}
    ensures IsEarliest(t, events)
    decreases |events|
  {
    t :| t in events;
    var rest := events - multiset{t};
    if rest != multiset{} {
      var s := EarliestExists(rest);
      EarliestOfTwo(events, t, s);
      if s < t { t := s; }
    } else {
      forall u | u in events ensures t <= u { assert u == t || u in rest; }
    }
  }

  lemma EarliestOfTwo(events: multiset<nat>, t: nat, s: nat)
    requires t in events && IsEarliest(s, events - multiset{t})
    ensures IsEarliest(if s < t then s else t, events)
  {
    forall u | u in events ensures (if s < t then s else t) <= u {
      assert u == t || u in events - multiset{t};
    }
  }

  /** Pending events are known by their times only: every event calls the same function. */
  class Simulator {
    var pending: multiset<nat>
    var now: nat
    var stopped: bool

    constructor ()
      ensures pending == multiset{} && now == 0 && !stopped
    {
      pending, now, stopped := multiset{}, 0, false;
    }

    method Schedule(delay: nat)
      modifies this
      ensures pending == old(pending) + multiset{now + delay} && now == old(now) && stopped == old(stopped)
    {
      pending := pending + multiset{now + delay};
    }

    method Stop()
      modifies this
      ensures stopped && pending == old(pending) && now == old(now)
    {
      stopped := true;
    }

    /** Remove an earliest event and move the clock to it. */
    method Next()
      requires pending != multiset{}
      modifies this
      ensures now in old(pending) && pending == old(pending) - multiset{now} && stopped == old(stopped)
      ensures forall u :: u in old(pending) ==> now <= u
    {
      ghost var first := EarliestExists(pending);
      var t :| t in pending && forall u :: u in pending ==> t <= u;
      now := t;
      pending := pending - multiset{t};
    }

    method Destroy()
      modifies this
      ensures pending == multiset{} && now == 0 && !stopped
    {
      pending, now, stopped := multiset{}, 0, false;
    }
  }

  // ---------------------------------------------------------------------------
  // One benchmark run
  // ---------------------------------------------------------------------------

  predicate NonDecreasing(times: seq<nat>) {
    forall i, j :: 0 <= i < j < |times| ==> times[i] <= times[j]
  }

  predicate AllEqual(sizes: seq<nat>, n: nat) {
    forall k :: 0 <= k < |sizes| ==> sizes[k] == n
  }

  /** What was scheduled was dispatched or is pending. */
  ghost predicate Balanced(scheduled: seq<nat>, times: seq<nat>, pending: multiset<nat>) {
    multiset(scheduled) == multiset(times) + pending
  }

  lemma TakeBalanced(scheduled: seq<nat>, times: seq<nat>, pending: multiset<nat>, t: nat)
    requires Balanced(scheduled, times, pending) && t in pending
    ensures Balanced(scheduled, times + [t], pending - multiset{t})
  {
    assert multiset(times + [t]) == multiset(times) + multiset{t};
  }

  lemma AddBalanced(scheduled: seq<nat>, times: seq<nat>, pending: multiset<nat>, t: nat)
    requires Balanced(scheduled, times, pending)
    ensures Balanced(scheduled + [t], times, pending + multiset{t})
  {
    assert multiset(scheduled + [t]) == multiset(scheduled) + multiset{t};
  }

  /** The k-th scheduled event: the first `population` ones are scheduled when the run begins, at `began`,
      and one more by each dispatched event; each takes place when the next delay of the stream has passed. */
  function StreamTime(times: seq<nat>, delays: nat -> nat, began: nat, base: nat, population: nat, k: nat): nat
    requires k < population + |times|
  {
    (if k < population then began else times[k - population]) + delays(base + k)
  }

  /** The first n scheduled events follow the stream. */
  predicate InStream(scheduled: seq<nat>, times: seq<nat>, delays: nat -> nat, began: nat, base: nat,
                     population: nat, n: nat)
    requires n <= |scheduled| <= population + |times|
  {
    n == 0 ||
    (InStream(scheduled, times, delays, began, base, population, n - 1) &&
     scheduled[n - 1] == StreamTime(times, delays, began, base, population, n - 1))
  }

  lemma {:induction false} InStreamAt(scheduled: seq<nat>, times: seq<nat>, delays: nat -> nat, began: nat, base: nat,
                                      population: nat, n: nat, k: nat)
    requires k < n <= |scheduled| <= population + |times|
    requires InStream(scheduled, times, delays, began, base, population, n)
    ensures scheduled[k] == StreamTime(times, delays, began, base, population, k)
  {
    if k < n - 1 { InStreamAt(scheduled, times, delays, began, base, population, n - 1, k); }
  }

  /** MAIN: every event of a run takes place when its own delay of the stream has passed since it was
      scheduled; the events dispatched and those left over are just these. */
  lemma EventsFollowStream(scheduled: seq<nat>, times: seq<nat>, pending: multiset<nat>, delays: nat -> nat,
                           began: nat, base: nat, population: nat)
    requires |scheduled| <= population + |times|
    requires InStream(scheduled, times, delays, began, base, population, |scheduled|)
    requires Balanced(scheduled, times, pending)
    ensures multiset(scheduled) == multiset(times) + pending
    ensures forall k :: 0 <= k < |scheduled| ==>
      scheduled[k] == (if k < population then began else times[k - population]) + delays(base + k)
  {
    forall k | 0 <= k < |scheduled|
      ensures scheduled[k] == (if k < population then began else times[k - population]) + delays(base + k)
    {
      InStreamAt(scheduled, times, delays, began, base, population, |scheduled|, k);
    }
  }

  /** What is scheduled and dispatched later changes nothing. */
  lemma {:induction false} InStreamStays(scheduled: seq<nat>, more: seq<nat>, times: seq<nat>, later: seq<nat>,
                                         delays: nat -> nat, began: nat, base: nat, population: nat, n: nat)
    requires n <= |scheduled| <= population + |times| && |scheduled + more| <= population + |times + later|
    requires InStream(scheduled, times, delays, began, base, population, n)
    ensures InStream(scheduled + more, times + later, delays, began, base, population, n)
  {
    if n > 0 { InStreamStays(scheduled, more, times, later, delays, began, base, population, n - 1); }
  }

  lemma InStreamTake(scheduled: seq<nat>, times: seq<nat>, t: nat, delays: nat -> nat, began: nat, base: nat,
                     population: nat)
    requires |scheduled| <= population + |times|
    requires InStream(scheduled, times, delays, began, base, population, |scheduled|)
    ensures InStream(scheduled, times + [t], delays, began, base, population, |scheduled|)
  {
    InStreamStays(scheduled, [], times, [t], delays, began, base, population, |scheduled|);
    assert scheduled + [] == scheduled;
  }

  lemma InStreamAdd(scheduled: seq<nat>, t: nat, times: seq<nat>, delays: nat -> nat, began: nat, base: nat,
                    population: nat)
    requires |scheduled| < population + |times|
    requires InStream(scheduled, times, delays, began, base, population, |scheduled|)
    requires t == StreamTime(times, delays, began, base, population, |scheduled|)
    ensures InStream(scheduled + [t], times, delays, began, base, population, |scheduled| + 1)
  {
    InStreamStays(scheduled, [t], times, [], delays, began, base, population, |scheduled|);
    assert times + [] == times;
  }

  class Bench {
    const sim: Simulator
    const delays: nat -> nat   // the random stream
    var drawn: nat             // values taken from it so far
    var population: nat
    var total: nat
    var count: nat
    ghost var sizes: seq<nat>  // pending events before each dispatched callback of this run
    ghost var times: seq<nat>  // the clock at each dispatched callback of this run
    ghost var base: nat        // values taken from the stream before this run
    ghost var began: nat       // the clock when this run began
    ghost var scheduled: seq<nat> // the times of all events scheduled in this run

    constructor (delays: nat -> nat, population: nat, total: nat)
      ensures this.population == population && this.total == total && count == 0 && drawn == 0
      ensures fresh(sim) && sim.pending == multiset{} && sim.now == 0 && !sim.stopped
    {
      sim := new Simulator();
      this.delays, this.population, this.total, count, drawn := delays, population, total, 0, 0;
    }

    method Draw() returns (delay: nat)
      modifies `drawn
      ensures drawn == old(drawn) + 1 && delay == delays(old(drawn))
    {
      delay := delays(drawn);
      drawn := drawn + 1;
    }

    /** The callback: stop once enough events were counted, otherwise reschedule and count. */
    method Cb()
      modifies `count, `drawn, sim
      ensures sim.now == old(sim.now)
      ensures old(count) >= total ==>
        sim.stopped && count == old(count) && sim.pending == old(sim.pending) && drawn == old(drawn)
      ensures old(count) < total ==>
        sim.stopped == old(sim.stopped) && count == old(count) + 1 && drawn == old(drawn) + 1 &&
        sim.pending == old(sim.pending) + multiset{sim.now + delays(old(drawn))}
    {
      if count >= total {
        sim.Stop();
        return;
      }
      var after := Draw();
      sim.Schedule(after);
      count := count + 1;
    }

    /** The run is under way: the population is complete and no event lies in the past. */
    ghost predicate Populated()
      reads this, sim
    {
      |sim.pending| == population && count <= total && !sim.stopped &&
      (forall u :: u in sim.pending ==> sim.now <= u) &&
      |sizes| == |times| == count && AllEqual(sizes, population) &&
      NonDecreasing(times) && (forall k :: 0 <= k < |times| ==> times[k] <= sim.now)
    }

    /** The scheduled events follow the stream, n of them by dispatched events, and none is lost. */
    ghost predicate Accounted(n: nat)
      reads this, sim
    {
      |scheduled| == population + n <= population + |times| &&
      InStream(scheduled, times, delays, began, base, population, |scheduled|) &&
      Balanced(scheduled, times, sim.pending)
    }

    /** Take an earliest event from the queue. */
    method TakeNext()
      requires sim.pending != multiset{} && Accounted(count) && !sim.stopped
      modifies `sizes, `times, sim
      ensures sizes == old(sizes) + [|old(sim.pending)|] && times == old(times) + [sim.now]
      ensures sim.now in old(sim.pending) && sim.pending == old(sim.pending) - multiset{sim.now}
      ensures (forall u :: u in old(sim.pending) ==> sim.now <= u) && !sim.stopped
      ensures Accounted(count)
    {
      sizes := sizes + [|sim.pending|];
      ghost var before, pending := times, sim.pending;
      sim.Next();
      times := times + [sim.now];
      TakeBalanced(scheduled, before, pending, sim.now);
      InStreamTake(scheduled, before, sim.now, delays, began, base, population);
    }

    /** Run its callback. */
    method CallBack()
      requires count <= total && |times| == count + 1 && times[count] == sim.now && !sim.stopped
      requires Accounted(count) && drawn == base + population + count
      modifies `count, `drawn, `scheduled, sim
      ensures sim.now == old(sim.now)
      ensures old(count) < total ==>
        count == old(count) + 1 && drawn == old(drawn) + 1 && !sim.stopped && Accounted(count) &&
        sim.pending == old(sim.pending) + multiset{sim.now + delays(old(drawn))}
      ensures old(count) == total ==>
        sim.stopped && count == total && drawn == old(drawn) && sim.pending == old(sim.pending) && Accounted(total)
    {
      if count < total { ScheduleNext(); }
      Cb();
    }

    /** Write down the event that the callback is about to schedule. */
    ghost method ScheduleNext()
      requires |times| == count + 1 && times[count] == sim.now
      requires Accounted(count) && drawn == base + population + count
      modifies `scheduled
      ensures |scheduled| == population + count + 1 <= population + |times|
      ensures InStream(scheduled, times, delays, began, base, population, |scheduled|)
      ensures Balanced(scheduled, times, sim.pending + multiset{sim.now + delays(drawn)})
    {
      var later := sim.now + delays(drawn);
      AddBalanced(scheduled, times, sim.pending, later);
      InStreamAdd(scheduled, later, times, delays, began, base, population);
      scheduled := scheduled + [later];
    }

    /** Dispatch one event: before it the population is complete; it is refilled or the run stops. */
    method Dispatch()
      requires Populated() && Accounted(count) && drawn == base + population + count && population > 0
      modifies `count, `drawn, `sizes, `times, `scheduled, sim
      ensures sizes == old(sizes) + [population] && times == old(times) + [sim.now] && NonDecreasing(times)
      ensures old(count) < total ==>
        Populated() && count == old(count) + 1 && drawn == old(drawn) + 1 && Accounted(count)
      ensures old(count) == total ==>
        sim.stopped && count == total && |sim.pending| == population - 1 && drawn == old(drawn) && Accounted(total)
    {
      TakeNext();
      CallBack();
    }

    /** While the population is scheduled: i events are pending. */
    ghost predicate Populating(i: nat)
      reads this, sim
    {
      i == |scheduled| <= population && times == [] && drawn == base + i && sim.now == began && !sim.stopped &&
      InStream(scheduled, [], delays, began, base, population, i) && Balanced(scheduled, [], sim.pending)
    }

    method PopulateOne(i: nat)
      requires Populating(i) && i < population
      modifies `drawn, `scheduled, sim
      ensures Populating(i + 1)
    {
      ghost var pending := sim.pending;
      var at := Draw();
      AddBalanced(scheduled, [], pending, sim.now + at);
      InStreamAdd(scheduled, sim.now + at, [], delays, began, base, population);
      scheduled := scheduled + [sim.now + at];
      sim.Schedule(at);
    }

    /** Schedule the population. */
    method Populate()
      requires sim.pending == multiset{} && !sim.stopped
      modifies `drawn, `base, `began, `scheduled, `times, `sizes, `count, sim
      ensures count == 0 && sizes == [] && base == old(drawn) && began == old(sim.now)
      ensures Populating(population)
    {
      count, sizes, times, base, began, scheduled := 0, [], [], drawn, sim.now, [];
      for i := 0 to population
        invariant count == 0 && sizes == [] && base == old(drawn) && began == old(sim.now) && Populating(i)
      {
        PopulateOne(i);
      }
    }

    lemma PopulatedAtFirst()
      requires Populating(population) && count == 0 && sizes == []
      ensures Populated() && Accounted(0)
    {
      assert multiset(scheduled) == sim.pending;
      assert |multiset(scheduled)| == |scheduled|;
      forall u | u in sim.pending ensures sim.now <= u {
        assert u in multiset(scheduled);
        var k :| 0 <= k < |scheduled| && scheduled[k] == u;
        InStreamAt(scheduled, [], delays, began, base, population, population, k);
      }
    }

    /** MAIN: whatever delays are drawn, a run with a non-empty population counts exactly `total`
        events in time order, with the full population before each callback, and leaves one event
        less pending; the times are those that the drawn delays give, each used once, in the order of the
        stream. With an empty population nothing happens. */
    method RunEvents()
      requires sim.pending == multiset{} && !sim.stopped
      modifies this, sim
      ensures population == old(population) && total == old(total)
      ensures population > 0 ==>
        count == total && |sizes| == total + 1 && AllEqual(sizes, population) && NonDecreasing(times) &&
        |sim.pending| == population - 1 && drawn == old(drawn) + population + total &&
        base == old(drawn) && began == old(sim.now) && Accounted(total)
      ensures population == 0 ==> count == 0 && sizes == [] && sim.pending == multiset{} && drawn == old(drawn)
    {
      Populate();
      PopulatedAtFirst();
      while sim.pending != multiset{} && !sim.stopped
        invariant population == old(population) && total == old(total)
        invariant base == old(drawn) && began == old(sim.now) && Accounted(count)
        invariant !sim.stopped ==> Populated() && drawn == old(drawn) + population + count
        invariant sim.stopped ==> population > 0 && count == total && |sim.pending| == population - 1
        invariant sim.stopped ==> |sizes| == total + 1 && AllEqual(sizes, population) && NonDecreasing(times)
        invariant sim.stopped ==> drawn == old(drawn) + population + total
        invariant population == 0 ==> count == 0
        decreases !sim.stopped, total - count
      {
        Dispatch();
      }
    }

    method Run() returns (events: nat)
      requires sim.pending == multiset{} && !sim.stopped
      modifies this, sim
      ensures population == old(population) && total == old(total)
      ensures events == if population > 0 then total else 0
      ensures sim.pending == multiset{} && !sim.stopped
    {
      RunEvents();
      sim.Destroy();
      events := count;
    }
  }

  /** The priming run and all measured runs of a suite count the same events. */
  method RunSuite(delays: nat -> nat, population: nat, total: nat, runs: nat) returns (events: seq<nat>)
    ensures |events| == runs + 1 && AllEqual(events, if population > 0 then total else 0)
  {
    var bench := new Bench(delays, population, total);
    var prime := bench.Run();
    events := [prime];
    for i := 0 to runs
      invariant |events| == i + 1 && AllEqual(events, if population > 0 then total else 0)
      invariant fresh(bench) && fresh(bench.sim) && bench.population == population && bench.total == total
      invariant bench.sim.pending == multiset{} && !bench.sim.stopped
    {
      var run := bench.Run();
      events := events + [run];
    }
  }

  // ---------------------------------------------------------------------------
  // Mean and variance over all runs
  // ---------------------------------------------------------------------------

  lemma ProductPositive(d: real, e: real, q: real)
    requires q == d * e && ((d > 0.0 && e > 0.0) || (d < 0.0 && e < 0.0))
    ensures q > 0.0
  {
  }

  function Square(d: real): (q: real)
    ensures q >= 0.0 && (q == 0.0 <==> d == 0.0)
  {
    var q := d * d;
    if d == 0.0 then q else ProductPositive(d, d, q); q
  }

  function Sum(xs: seq<real>, n: nat): real
    requires n <= |xs|
  {
    if n == 0 then 0.0 else Sum(xs, n - 1) + xs[n - 1]
  }

  /** Sum of the squared deviations of the first n samples from m. */
  function Deviation(xs: seq<real>, n: nat, m: real): real
    requires n <= |xs|
  {
    if n == 0 then 0.0 else Deviation(xs, n - 1, m) + Square(xs[n - 1] - m)
  }

  predicate IsMean(xs: seq<real>, n: nat, m: real)
    requires n <= |xs|
  {
    (n as real) * m == Sum(xs, n)
  }

  /** devA and devB are the deviations of k samples with the given sum from a and from b. */
  predicate ShiftLaw(devA: real, devB: real, sum: real, k: real, a: real, b: real) {
    devB == devA - 2.0 * (b - a) * (sum - k * a) + k * Square(b - a)
  }

  lemma ShiftStep(devA: real, devB: real, sum: real, k: real, a: real, b: real, x: real)
    requires ShiftLaw(devA, devB, sum, k - 1.0, a, b)
    ensures ShiftLaw(devA + Square(x - a), devB + Square(x - b), sum + x, k, a, b)
  {
  }

  /** How the deviation of k samples changes when it is taken from b instead of a. */
  lemma {:induction false} DeviationShift(xs: seq<real>, n: nat, k: real, a: real, b: real)
    requires n <= |xs| && k == n as real
    ensures ShiftLaw(Deviation(xs, n, a), Deviation(xs, n, b), Sum(xs, n), k, a, b)
    decreases n
  {
    if n > 0 {
      DeviationShift(xs, n - 1, k - 1.0, a, b);
      ShiftStep(Deviation(xs, n - 1, a), Deviation(xs, n - 1, b), Sum(xs, n - 1), k, a, b, xs[n - 1]);
    }
  }

  lemma LawAtMean(devM: real, devB: real, sum: real, k: real, m: real, b: real)
    requires ShiftLaw(devM, devB, sum, k, m, b) && k * m == sum
    ensures devB == devM + k * Square(b - m)
  {
    TimesZero(2.0 * (b - m), sum - k * m);
  }

  lemma TimesZero(x: real, zero: real)
    requires zero == 0.0
    ensures x * zero == 0.0
  {
  }

  /** From the mean, the deviation grows by k times the square of the distance. */
  lemma DeviationFromMean(xs: seq<real>, n: nat, k: real, m: real, b: real)
    requires n <= |xs| && k == n as real && IsMean(xs, n, m)
    ensures Deviation(xs, n, b) == Deviation(xs, n, m) + k * Square(b - m)
  {
    DeviationShift(xs, n, k, m, b);
    LawAtMean(Deviation(xs, n, m), Deviation(xs, n, b), Sum(xs, n), k, m, b);
  }

  lemma Product(k: real, q: real)
    requires k >= 0.0 && q >= 0.0
    ensures k * q >= 0.0
  {
  }

  /** The mean is the point of least deviation. */
  lemma MeanMinimizes(xs: seq<real>, n: nat, m: real, b: real)
    requires n <= |xs| && IsMean(xs, n, m)
    ensures Deviation(xs, n, m) <= Deviation(xs, n, b)
  {
    DeviationFromMean(xs, n, n as real, m, b);
    Product(n as real, Square(b - m));
  }

  lemma {:induction false} DeviationNonNegative(xs: seq<real>, n: nat, m: real)
    requires n <= |xs|
    ensures Deviation(xs, n, m) >= 0.0
    ensures Deviation(xs, n, m) == 0.0 <==> forall i :: 0 <= i < n ==> xs[i] == m
  {
    if n > 0 { DeviationNonNegative(xs, n - 1, m); }
  }

  function NewMean(x: real, average: real, count: nat): real
    requires count > 0
  {
    average + (x - average) / (count as real)
  }

  /** One update of the running mean and second moment with the count-th sample x. */
  function Accumulate(x: real, average: real, moment2: real, count: nat): (real, real)
    requires count > 0
  {
    var average' := NewMean(x, average, count);
    (average', moment2 + (x - average) * (x - average'))
  }

  /** The running values after the first n samples; before any, the mean is the first sample. */
  predicate Moments(xs: seq<real>, n: nat, average: real, moment2: real)
    requires n <= |xs|
  {
    if n == 0 then |xs| > 0 && average == xs[0] && moment2 == 0.0
    else IsMean(xs, n, average) && moment2 == Deviation(xs, n, average)
  }

  lemma Quotient(d: real, c: real)
    requires c > 0.0
    ensures c * (d / c) == d
  {
  }

  /** The mean moves by the count-th part of the sample's distance. */
  lemma NewMeanStep(x: real, average: real, count: nat, c: real)
    requires count > 0 && c == count as real
    ensures x - average == c * (NewMean(x, average, count) - average)
  {
    Quotient(x - average, c);
  }

  /** The mean a of k samples becomes b with the sample x: the new sum. */
  lemma MeanAlgebra(k: real, a: real, b: real, x: real, sum: real)
    requires x - a == (k + 1.0) * (b - a) && k * a == sum
    ensures (k + 1.0) * b == sum + x
  {
  }

  /** The mean a of k samples becomes b with the sample x: the new deviation. */
  lemma DeviationAlgebra(k: real, a: real, b: real, x: real)
    requires x - a == (k + 1.0) * (b - a)
    ensures (x - a) * (x - b) == k * Square(b - a) + Square(x - b)
  {
    var e, p := b - a, x - b;
    assert p == k * e;
    assert (x - a) * p == (p + e) * p == Square(p) + e * p;
    assert e * p == e * (k * e) == k * Square(e);
  }

  /** What one new mean gives for k samples with mean a and the given sum. */
  lemma NewMeanAlgebra(k: real, a: real, x: real, sum: real, count: nat)
    requires count > 0 && k + 1.0 == count as real && k * a == sum
    ensures var b := NewMean(x, a, count);
      (count as real) * b == sum + x && (x - a) * (x - b) == k * Square(b - a) + Square(x - b)
  {
    var b := NewMean(x, a, count);
    NewMeanStep(x, a, count, k + 1.0);
    MeanAlgebra(k, a, b, x, sum);
    DeviationAlgebra(k, a, b, x);
  }

  lemma NextDeviation(xs: seq<real>, n: nat, k: real, a: real, b: real)
    requires n < |xs| && k == n as real && IsMean(xs, n, a)
    requires (xs[n] - a) * (xs[n] - b) == k * Square(b - a) + Square(xs[n] - b)
    ensures Deviation(xs, n, a) + (xs[n] - a) * (xs[n] - b) == Deviation(xs, n + 1, b)
  {
    DeviationFromMean(xs, n, k, a, b);
  }

  /** Starting from the first sample, the first update changes nothing. */
  lemma FirstMoments(xs: seq<real>)
    requires |xs| > 0
    ensures var r := Accumulate(xs[0], xs[0], 0.0, 1); Moments(xs, 1, r.0, r.1)
  {
    var x, c := xs[0], 1 as real;
    var b := NewMean(x, x, 1);
    NewMeanStep(x, x, 1, c);
    assert c * (b - x) == b - x;
    TimesZero(x - b, x - x);
    assert Sum(xs, 1) == Sum(xs, 0) + x;
    assert Deviation(xs, 1, x) == Deviation(xs, 0, x) + Square(x - x);
  }

  /** MAIN: each update keeps the mean and the sum of squared deviations exact. */
  lemma AccumulateIsExact(xs: seq<real>, n: nat, average: real, moment2: real)
    requires n < |xs| && Moments(xs, n, average, moment2)
    ensures var r := Accumulate(xs[n], average, moment2, n + 1); Moments(xs, n + 1, r.0, r.1)
  {
    if n == 0 {
      FirstMoments(xs);
    } else {
      NewMeanAlgebra(n as real, average, xs[n], Sum(xs, n), n + 1);
      NextDeviation(xs, n, n as real, average, NewMean(xs[n], average, n + 1));
    }
  }

  datatype PhaseResult = PhaseResult(time: real, rate: real, period: real)

  datatype Result = Result(init: PhaseResult, run: PhaseResult)

  datatype Field = InitTime | InitRate | InitPeriod | RunTime | RunRate | RunPeriod

  function Get(r: Result, f: Field): real {
    match f
    case InitTime => r.init.time
    case InitRate => r.init.rate
    case InitPeriod => r.init.period
    case RunTime => r.run.time
    case RunRate => r.run.rate
    case RunPeriod => r.run.period
  }

  function Column(results: seq<Result>, f: Field): (xs: seq<real>)
    ensures |xs| == |results| && forall i :: 0 <= i < |results| ==> xs[i] == Get(results[i], f)
  {
    seq(|results|, i requires 0 <= i < |results| => Get(results[i], f))
  }

  /** Update all six fields with one run. */
  function AccumulateAll(run: Result, average: Result, moment2: Result, count: nat): (Result, Result)
    requires count > 0
  {
    var it := Accumulate(run.init.time, average.init.time, moment2.init.time, count);
    var ir := Accumulate(run.init.rate, average.init.rate, moment2.init.rate, count);
    var ip := Accumulate(run.init.period, average.init.period, moment2.init.period, count);
    var rt := Accumulate(run.run.time, average.run.time, moment2.run.time, count);
    var rr := Accumulate(run.run.rate, average.run.rate, moment2.run.rate, count);
    var rp := Accumulate(run.run.period, average.run.period, moment2.run.period, count);
    (Result(PhaseResult(it.0, ir.0, ip.0), PhaseResult(rt.0, rr.0, rp.0)),
     Result(PhaseResult(it.1, ir.1, ip.1), PhaseResult(rt.1, rr.1, rp.1)))
  }

  ghost predicate AllMoments(results: seq<Result>, n: nat, average: Result, moment2: Result)
    requires n <= |results|
  {
    forall f: Field :: Moments(Column(results, f), n, Get(average, f), Get(moment2, f))
  }

  /** The six fields are all there is in a result. */
  lemma FieldsDetermineResult(a: Result, b: Result)
    requires forall f: Field :: Get(a, f) == Get(b, f)
    ensures a == b
  {
    assert Get(a, InitTime) == Get(b, InitTime) && Get(a, InitRate) == Get(b, InitRate);
    assert Get(a, InitPeriod) == Get(b, InitPeriod) && Get(a, RunTime) == Get(b, RunTime);
    assert Get(a, RunRate) == Get(b, RunRate) && Get(a, RunPeriod) == Get(b, RunPeriod);
  }

  lemma AccumulateAllIsExact(results: seq<Result>, n: nat, average: Result, moment2: Result)
    requires n < |results| && AllMoments(results, n, average, moment2)
    ensures var r := AccumulateAll(results[n], average, moment2, n + 1); AllMoments(results, n + 1, r.0, r.1)
  {
    var r := AccumulateAll(results[n], average, moment2, n + 1);
    forall f: Field ensures Moments(Column(results, f), n + 1, Get(r.0, f), Get(r.1, f)) {
      AccumulateIsExact(Column(results, f), n, Get(average, f), Get(moment2, f));
    }
  }

  /** The averages and the second moments; nothing is reported for fewer than two runs. The standard
      deviations are the square roots of the moments divided by the number of runs. */
  method Log(results: seq<Result>) returns (summary: Option<(Result, Result)>)
    ensures summary.None? <==> |results| < 2
    ensures summary.Some? ==> forall f: Field ::
      var xs := Column(results, f);
      var average, moment2 := Get(summary.value.0, f), Get(summary.value.1, f);
      IsMean(xs, |xs|, average) && moment2 == Deviation(xs, |xs|, average) &&
      moment2 >= 0.0 && moment2 / (|results| as real) >= 0.0
  {
    if |results| < 2 { return None; }
    var zero := PhaseResult(0.0, 0.0, 0.0);
    var n, average, moment2 := 0, results[0], Result(zero, zero);
    while n < |results|
      invariant n <= |results| && AllMoments(results, n, average, moment2)
    {
      AccumulateAllIsExact(results, n, average, moment2);
      var next := AccumulateAll(results[n], average, moment2, n + 1);
      average, moment2 := next.0, next.1;
      n := n + 1;
    }
    forall f: Field ensures Get(moment2, f) >= 0.0 {
      DeviationNonNegative(Column(results, f), |results|, Get(average, f));
    }
    summary := Some((average, moment2));
  }
}
