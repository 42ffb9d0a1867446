/** The parallel test runner (test.py): worker threads, two FIFO queues, one stop marker per worker
    and an interrupt flag, as a transition system over every interleaving. */
module TestRunner {

  /** `launches` counts how often a subprocess was started for the job. */
  datatype Job = Job(id: nat, isExample: bool, isPyexample: bool, isSkip: bool,
                     isBreak: bool, returncode: int, launches: nat)

  /** The special job that tells one worker to return. */
  const STOP := Job(0, false, false, false, true, 0, 0)

  predicate IsTestSuite(j: Job) {
    !j.isExample && !j.isPyexample
  }

  /** The main thread looks into the XML file that the job left behind. */
  predicate NeedsXml(j: Job) {
    IsTestSuite(j) && !j.isBreak && !j.isSkip && j.returncode in {0, 1, 2}
  }

  /** The jobs in dispatch order, the number of worker threads, and the jobs whose XML file will be
      missing, will not parse or will hold no result. */
  datatype Config = Config(suite: seq<Job>, threads: nat, unreadable: set<nat>) {
    ghost predicate Valid() {
      forall i :: 0 <= i < |suite| ==>
        suite[i].id == i && !suite[i].isBreak && suite[i].returncode == 0 && suite[i].launches == 0
    }

    /** Everything the main thread ever puts on the input queue. */
    function Puts(): seq<Job> {
      suite + seq(threads, _ => STOP)
    }

    /** Collecting the job ends the main thread with an exception. */
    predicate Fatal(j: Job) {
      NeedsXml(j) && j.id in unreadable
    }
  }

  /** Number of threads started, from the processor count and the --jobs option (0: no limit). */
  function Threads(processors: nat, limit: int): nat {
    var n := if limit != 0 && !(processors < limit) then limit else processors;
    if n < 0 then 0 else n
  }

  datatype Worker = Idle | Holding(job: Job) | Running(job: Job) | Exited

  datatype State = State(
    dispatched: nat,        // puts done by the main thread
    input: seq<Job>,
    workers: seq<Worker>,
    output: seq<Job>,
    collected: seq<Job>,    // gets done by the main thread
    joined: nat,            // joins done by the main thread
    raised: bool,           // the main thread ended with an exception
    threadExit: bool)

  function Init(c: Config): State {
    State(0, [], seq(c.threads, _ => Idle), [], [], 0, false, false)
  }

  datatype Action =
    | Put
    | Collect
    | Join
    | Interrupt
    | Get(worker: nat)
    | Decide(worker: nat)
    | Finish(worker: nat, returncode: int)

  predicate Enabled(c: Config, s: State, a: Action) {
    match a
    case Put => s.dispatched < |c.suite| + c.threads
    case Collect =>
      s.dispatched == |c.suite| + c.threads && !s.raised && |s.collected| < |c.suite| && s.output != []
    case Join =>
      s.dispatched == |c.suite| + c.threads && !s.raised && |s.collected| == |c.suite| &&
      s.joined < |s.workers| && s.workers[s.joined].Exited?
    case Interrupt => !s.threadExit
    case Get(w) => w < |s.workers| && s.workers[w].Idle? && s.input != []
    case Decide(w) => w < |s.workers| && s.workers[w].Holding?
    case Finish(w, _) => w < |s.workers| && s.workers[w].Running?
  }

  /** What a worker does with a job once it has it: report a break, pass a skip on, or launch. */
  function Decided(s: State, w: nat): State
    requires w < |s.workers| && s.workers[w].Holding?
  {
    var job := s.workers[w].job;
    if s.threadExit then
      s.(workers := s.workers[w := Idle], output := s.output + [job.(isBreak := true)])
    else if job.isSkip then
      s.(workers := s.workers[w := Idle], output := s.output + [job])
    else
      s.(workers := s.workers[w := Running(job.(launches := job.launches + 1))])
  }

  function Step(c: Config, s: State, a: Action): State
    requires Enabled(c, s, a)
  {
    match a
    case Put => s.(dispatched := s.dispatched + 1, input := s.input + [c.Puts()[s.dispatched]])
    case Collect =>
      s.(collected := s.collected + [s.output[0]], output := s.output[1..], raised := c.Fatal(s.output[0]))
    case Join => s.(joined := s.joined + 1)
    case Interrupt => s.(threadExit := true)
    case Get(w) =>
      var job := s.input[0];
      s.(input := s.input[1..], workers := s.workers[w := if job.isBreak then Exited else Holding(job)])
    case Decide(w) => Decided(s, w)
    case Finish(w, rc) =>
      s.(workers := s.workers[w := Idle], output := s.output + [s.workers[w].job.(returncode := rc)])
  }

  /** A run: every action is enabled where it is taken. */
  ghost predicate IsRun(c: Config, s: State, run: seq<Action>)
    decreases |run|
  {
    run == [] || (Enabled(c, s, run[0]) && IsRun(c, Step(c, s, run[0]), run[1..]))
  }

  ghost function After(c: Config, s: State, run: seq<Action>): State
    requires IsRun(c, s, run)
    decreases |run|
  {
    if run == [] then s else After(c, Step(c, s, run[0]), run[1..])
  }

  /** The main thread has collected every result and joined every worker. */
  predicate Complete(c: Config, s: State) {
    s.dispatched == |c.suite| + c.threads && !s.raised && |s.collected| == |c.suite| && s.joined == c.threads
  }

  predicate AllExited(s: State) {
    forall w :: 0 <= w < |s.workers| ==> s.workers[w].Exited?
  }

  /** The program has ended: the run is complete, or the main thread raised an exception and every
      worker, which the interpreter waits for, has returned. */
  predicate Over(c: Config, s: State) {
    Complete(c, s) || (s.raised && AllExited(s))
  }

  // ---------------------------------------------------------------------------
  // Counting
  // ---------------------------------------------------------------------------

  datatype Query = Stopped | Busy | Holds(id: nat) | Work

  function Weight(w: Worker, q: Query): nat {
    match q
    case Stopped => if w.Exited? then 1 else 0
    case Busy => if w.Holding? || w.Running? then 1 else 0
    case Holds(i) => if (w.Holding? || w.Running?) && w.job.id == i then 1 else 0
    case Work => if w.Holding? then 3 else if w.Running? then 2 else 0
  }

  function Weigh(ws: seq<Worker>, q: Query): nat {
    if ws == [] then 0 else Weigh(ws[..|ws| - 1], q) + Weight(ws[|ws| - 1], q)
  }

  lemma {:induction false} WeighUpdate(ws: seq<Worker>, k: nat, w: Worker, q: Query)
    requires k < |ws|
    ensures Weigh(ws[k := w], q) + Weight(ws[k], q) == Weigh(ws, q) + Weight(w, q)
  {
    var n := |ws| - 1;
    if k < n {
      WeighUpdate(ws[..n], k, w, q);
      assert ws[k := w][..n] == ws[..n][k := w];
    } else {
      assert ws[k := w][..n] == ws[..n];
    }
  }

  lemma {:induction false} WeighAll(ws: seq<Worker>, q: Query, x: nat)
    requires x <= 1 && forall k :: 0 <= k < |ws| ==> Weight(ws[k], q) == x
    ensures Weigh(ws, q) == if x == 0 then 0 else |ws|
  {
    if ws != [] { WeighAll(ws[..|ws| - 1], q, x); }
  }

  /** Weight 1 everywhere is needed to reach the number of workers. */
  lemma {:induction false} WeighFull(ws: seq<Worker>)
    ensures Weigh(ws, Stopped) <= |ws|
    ensures Weigh(ws, Stopped) == |ws| ==> forall k :: 0 <= k < |ws| ==> ws[k].Exited?
    ensures Weigh(ws, Busy) > 0 ==> exists k :: 0 <= k < |ws| && Weight(ws[k], Busy) > 0
    ensures Weigh(ws, Stopped) < |ws| ==> exists k :: 0 <= k < |ws| && !ws[k].Exited?
  {
    if ws != [] {
      var n := |ws| - 1;
      WeighFull(ws[..n]);
      if Weigh(ws, Busy) > 0 && Weight(ws[n], Busy) == 0 {
        var k :| 0 <= k < n && Weight(ws[..n][k], Busy) > 0;
        assert Weight(ws[k], Busy) > 0;
      }
      if Weigh(ws, Stopped) < |ws| && ws[n].Exited? {
        var k :| 0 <= k < n && !ws[..n][k].Exited?;
        assert !ws[k].Exited?;
      }
    }
  }

  function Occurs(js: seq<Job>, id: nat): nat {
    if js == [] then 0 else Occurs(js[..|js| - 1], id) + if js[|js| - 1].id == id then 1 else 0
  }

  lemma OccursSnoc(js: seq<Job>, j: Job, id: nat)
    ensures Occurs(js + [j], id) == Occurs(js, id) + if j.id == id then 1 else 0
  {
    assert (js + [j])[..|js|] == js;
  }

  lemma {:induction false} OccursTail(js: seq<Job>, id: nat)
    requires js != []
    ensures Occurs(js, id) == Occurs(js[1..], id) + if js[0].id == id then 1 else 0
  {
    var n := |js| - 1;
    if n > 0 {
      OccursTail(js[..n], id);
      assert js[..n][1..] == js[1..][..n - 1];
    } else {
      assert js[..n] == [] && js[1..] == [];
    }
  }

  // ---------------------------------------------------------------------------
  // The invariant
  // ---------------------------------------------------------------------------

  /** Number of items that workers have taken from the input queue. */
  function Taken(s: State): int {
    s.dispatched - |s.input|
  }

  function TakenJobs(c: Config, s: State): int {
    if Taken(s) < |c.suite| then Taken(s) else |c.suite|
  }

  /** The input queue is what was put and not yet taken, in order; only a worker takes anything. */
  predicate Fifo(c: Config, s: State) {
    |s.workers| == c.threads && s.dispatched <= |c.suite| + c.threads && |s.input| <= s.dispatched &&
    (c.threads == 0 ==> |s.input| == s.dispatched) &&
    s.input == c.Puts()[Taken(s)..s.dispatched]
  }

  /** How many places hold job i, among the workers, the output queue and the collected jobs. */
  function Places(s: State, i: nat): nat {
    Weigh(s.workers, Holds(i)) + Occurs(s.output, i) + Occurs(s.collected, i)
  }

  /** A dispatched job that was taken is in exactly one place; every other job is in none. */
  ghost predicate Conserved(c: Config, s: State) {
    forall i: nat :: Places(s, i) == if i < TakenJobs(c, s) then 1 else 0
  }

  predicate Counted(c: Config, s: State) {
    Weigh(s.workers, Busy) + |s.output| + |s.collected| == TakenJobs(c, s) &&
    Weigh(s.workers, Stopped) == Taken(s) - TakenJobs(c, s)
  }

  /** What a job looks like when a worker is done with it. */
  predicate Reported(c: Config, s: State, j: Job) {
    j.id < |c.suite| &&
    var orig := c.suite[j.id];
    if j.isBreak then s.threadExit && j == orig.(isBreak := true)
    else if j.isSkip then j == orig
    else j == orig.(returncode := j.returncode, launches := 1)
  }

  predicate WorkerOk(c: Config, w: Worker) {
    match w
    case Holding(j) => j.id < |c.suite| && j == c.suite[j.id]
    case Running(j) => j.id < |c.suite| && !j.isSkip && j == c.suite[j.id].(launches := 1)
    case _ => true
  }

  ghost predicate JobsOk(c: Config, s: State) {
    (forall w :: 0 <= w < |s.workers| ==> WorkerOk(c, s.workers[w])) &&
    (forall k :: 0 <= k < |s.output| ==> Reported(c, s, s.output[k])) &&
    (forall k :: 0 <= k < |s.collected| ==> Reported(c, s, s.collected[k]))
  }

  ghost predicate MainOk(c: Config, s: State) {
    s.joined <= c.threads && |s.collected| <= |c.suite| &&
    (s.joined > 0 ==> |s.collected| == |c.suite| && s.dispatched == |c.suite| + c.threads) &&
    (forall w :: 0 <= w < s.joined <= |s.workers| ==> s.workers[w].Exited?)
  }

  /** The exception came from the job collected last, and no other collected job could have raised one. */
  ghost predicate RaiseOk(c: Config, s: State) {
    (forall k :: 0 <= k < |s.collected| && c.Fatal(s.collected[k]) ==> s.raised && k == |s.collected| - 1) &&
    (s.raised ==> s.collected != [] && c.Fatal(s.collected[|s.collected| - 1]) && s.joined == 0 &&
                  s.dispatched == |c.suite| + c.threads)
  }

  ghost predicate Inv(c: Config, s: State) {
    c.Valid() && Fifo(c, s) && Conserved(c, s) && Counted(c, s) && JobsOk(c, s) && MainOk(c, s) && RaiseOk(c, s)
  }

  lemma InitWeigh(c: Config, q: Query)
    ensures Weigh(Init(c).workers, q) == 0
  {
    WeighAll(Init(c).workers, q, 0);
  }

  lemma InitPlaces(c: Config, i: nat)
    ensures Places(Init(c), i) == 0
  {
    InitWeigh(c, Holds(i));
  }

  lemma InitConserved(c: Config)
    ensures Conserved(c, Init(c))
  {
    forall i: nat ensures Places(Init(c), i) == 0 { InitPlaces(c, i); }
  }

  lemma InitCounted(c: Config)
    ensures Counted(c, Init(c))
  {
    InitWeigh(c, Busy);
    InitWeigh(c, Stopped);
  }

  lemma InitInv(c: Config)
    requires c.Valid()
    ensures Inv(c, Init(c))
  {
    InitConserved(c);
    InitCounted(c);
  }

  lemma PutInv(c: Config, s: State)
    requires Inv(c, s) && Enabled(c, s, Put)
    ensures Inv(c, Step(c, s, Put))
  {
    var s' := Step(c, s, Put);
    assert s'.input == c.Puts()[Taken(s)..s.dispatched + 1];
    forall i: nat ensures Places(s', i) == Places(s, i) {}
  }

  lemma CollectInv(c: Config, s: State)
    requires Inv(c, s) && Enabled(c, s, Collect)
    ensures Inv(c, Step(c, s, Collect))
  {
    var s' := Step(c, s, Collect);
    forall i: nat ensures Places(s', i) == Places(s, i) {
      OccursTail(s.output, i);
      OccursSnoc(s.collected, s.output[0], i);
    }
  }

  /** The next item is the next job of the suite, or a stop marker once the suite is used up. */
  lemma NextItem(c: Config, s: State)
    requires c.Valid() && Fifo(c, s) && s.input != []
    ensures var t := Taken(s);
      0 <= t < |c.Puts()| && s.input[1..] == c.Puts()[t + 1..s.dispatched] &&
      s.input[0] == (if t < |c.suite| then c.suite[t] else STOP) &&
      (s.input[0].isBreak <==> t >= |c.suite|)
  {
  }

  lemma GetWeigh(c: Config, s: State, w: nat, q: Query)
    requires Enabled(c, s, Get(w))
    ensures var s' := Step(c, s, Get(w)); Weigh(s'.workers, q) == Weigh(s.workers, q) + Weight(s'.workers[w], q)
  {
    WeighUpdate(s.workers, w, Step(c, s, Get(w)).workers[w], q);
  }

  lemma GetConserved(c: Config, s: State, w: nat)
    requires Inv(c, s) && Enabled(c, s, Get(w))
    ensures Conserved(c, Step(c, s, Get(w)))
  {
    var s', t := Step(c, s, Get(w)), Taken(s);
    NextItem(c, s);
    forall i: nat ensures Places(s', i) == Places(s, i) + if t < |c.suite| && i == t then 1 else 0 {
      GetWeigh(c, s, w, Holds(i));
    }
  }

  lemma GetCounted(c: Config, s: State, w: nat)
    requires Inv(c, s) && Enabled(c, s, Get(w))
    ensures Counted(c, Step(c, s, Get(w)))
  {
    NextItem(c, s);
    GetWeigh(c, s, w, Busy);
    GetWeigh(c, s, w, Stopped);
  }

  lemma GetJobsOk(c: Config, s: State, w: nat)
    requires Inv(c, s) && Enabled(c, s, Get(w))
    ensures JobsOk(c, Step(c, s, Get(w)))
  {
    NextItem(c, s);
  }

  lemma GetInv(c: Config, s: State, w: nat)
    requires Inv(c, s) && Enabled(c, s, Get(w))
    ensures Inv(c, Step(c, s, Get(w)))
  {
    NextItem(c, s);
    GetConserved(c, s, w);
    GetCounted(c, s, w);
    GetJobsOk(c, s, w);
  }

  /** The state after worker w handed the job j over to the output queue. */
  function Handed(s: State, w: nat, j: Job): State
    requires w < |s.workers|
  {
    s.(workers := s.workers[w := Idle], output := s.output + [j])
  }

  lemma HandedConserved(c: Config, s: State, w: nat, j: Job)
    requires Inv(c, s) && w < |s.workers| && Weight(s.workers[w], Busy) == 1 && j.id == s.workers[w].job.id
    ensures Conserved(c, Handed(s, w, j))
  {
    forall i: nat ensures Places(Handed(s, w, j), i) == Places(s, i) {
      WeighUpdate(s.workers, w, Idle, Holds(i));
      OccursSnoc(s.output, j, i);
    }
  }

  lemma HandedCounted(c: Config, s: State, w: nat, j: Job)
    requires Inv(c, s) && w < |s.workers| && Weight(s.workers[w], Busy) == 1
    ensures Counted(c, Handed(s, w, j))
  {
    WeighUpdate(s.workers, w, Idle, Busy);
    WeighUpdate(s.workers, w, Idle, Stopped);
  }

  /** A worker hands a job over. */
  lemma ReportInv(c: Config, s: State, w: nat, j: Job)
    requires Inv(c, s) && w < |s.workers| && Weight(s.workers[w], Busy) == 1
    requires j.id == s.workers[w].job.id && Reported(c, s, j)
    ensures Inv(c, Handed(s, w, j))
  {
    HandedConserved(c, s, w, j);
    HandedCounted(c, s, w, j);
  }

  /** The state after worker w started the subprocess of its job. */
  function Launched(s: State, w: nat): State
    requires w < |s.workers| && s.workers[w].Holding?
  {
    var job := s.workers[w].job;
    s.(workers := s.workers[w := Running(job.(launches := job.launches + 1))])
  }

  lemma LaunchedConserved(c: Config, s: State, w: nat)
    requires Inv(c, s) && w < |s.workers| && s.workers[w].Holding?
    ensures Conserved(c, Launched(s, w))
  {
    var s' := Launched(s, w);
    forall i: nat ensures Places(s', i) == Places(s, i) {
      WeighUpdate(s.workers, w, s'.workers[w], Holds(i));
    }
  }

  lemma LaunchedCounted(c: Config, s: State, w: nat)
    requires Inv(c, s) && w < |s.workers| && s.workers[w].Holding?
    ensures Counted(c, Launched(s, w))
  {
    WeighUpdate(s.workers, w, Launched(s, w).workers[w], Busy);
    WeighUpdate(s.workers, w, Launched(s, w).workers[w], Stopped);
  }

  lemma LaunchInv(c: Config, s: State, w: nat)
    requires Inv(c, s) && w < |s.workers| && s.workers[w].Holding? && !s.workers[w].job.isSkip
    ensures Inv(c, Launched(s, w))
  {
    assert WorkerOk(c, s.workers[w]);
    LaunchedConserved(c, s, w);
    LaunchedCounted(c, s, w);
  }

  lemma DecideInv(c: Config, s: State, w: nat)
    requires Inv(c, s) && Enabled(c, s, Decide(w))
    ensures Inv(c, Step(c, s, Decide(w)))
  {
    var job := s.workers[w].job;
    assert WorkerOk(c, s.workers[w]);
    if s.threadExit {
      ReportInv(c, s, w, job.(isBreak := true));
    } else if job.isSkip {
      ReportInv(c, s, w, job);
    } else {
      LaunchInv(c, s, w);
    }
  }

  lemma FinishInv(c: Config, s: State, w: nat, rc: int)
    requires Inv(c, s) && Enabled(c, s, Finish(w, rc))
    ensures Inv(c, Step(c, s, Finish(w, rc)))
  {
    assert WorkerOk(c, s.workers[w]);
    ReportInv(c, s, w, s.workers[w].job.(returncode := rc));
  }

  lemma JoinInv(c: Config, s: State)
    requires Inv(c, s) && Enabled(c, s, Join)
    ensures Inv(c, Step(c, s, Join))
  {
    forall i: nat ensures Places(Step(c, s, Join), i) == Places(s, i) {}
  }

  lemma InterruptInv(c: Config, s: State)
    requires Inv(c, s) && Enabled(c, s, Interrupt)
    ensures Inv(c, Step(c, s, Interrupt))
  {
    forall i: nat ensures Places(Step(c, s, Interrupt), i) == Places(s, i) {}
  }

  lemma StepInv(c: Config, s: State, a: Action)
    requires Inv(c, s) && Enabled(c, s, a)
    ensures Inv(c, Step(c, s, a))
  {
    match a
    case Put => PutInv(c, s);
    case Collect => CollectInv(c, s);
    case Join => JoinInv(c, s);
    case Interrupt => InterruptInv(c, s);
    case Get(w) => GetInv(c, s, w);
    case Decide(w) => DecideInv(c, s, w);
    case Finish(w, rc) => FinishInv(c, s, w, rc);
  }

  // ---------------------------------------------------------------------------
  // Termination and progress
  // ---------------------------------------------------------------------------

  /** Work still ahead: every put costs 1, every item not yet taken 4 (a job) or 1 (a stop marker),
      a job in a worker 3 or 2, in the output queue 1; the interrupt and each join cost 1. */
  function Remaining(c: Config, s: State): int {
    (|c.suite| + c.threads - s.dispatched) +
    4 * (|c.suite| - TakenJobs(c, s)) + (c.threads - (Taken(s) - TakenJobs(c, s))) +
    Weigh(s.workers, Work) + |s.output| + (if s.threadExit then 0 else 1) + (c.threads - s.joined)
  }

  lemma RemainingNonNegative(c: Config, s: State)
    requires Inv(c, s)
    ensures Remaining(c, s) >= 0
  {
  }

  lemma GetDecreases(c: Config, s: State, w: nat)
    requires Inv(c, s) && Enabled(c, s, Get(w))
    ensures Remaining(c, Step(c, s, Get(w))) < Remaining(c, s)
  {
    GetWeigh(c, s, w, Work);
    NextItem(c, s);
  }

  lemma DecideDecreases(c: Config, s: State, w: nat)
    requires Inv(c, s) && Enabled(c, s, Decide(w))
    ensures Remaining(c, Step(c, s, Decide(w))) < Remaining(c, s)
  {
    WeighUpdate(s.workers, w, Step(c, s, Decide(w)).workers[w], Work);
  }

  lemma FinishDecreases(c: Config, s: State, w: nat, rc: int)
    requires Inv(c, s) && Enabled(c, s, Finish(w, rc))
    ensures Remaining(c, Step(c, s, Finish(w, rc))) < Remaining(c, s)
  {
    WeighUpdate(s.workers, w, Idle, Work);
  }

  lemma StepDecreases(c: Config, s: State, a: Action)
    requires Inv(c, s) && Enabled(c, s, a)
    ensures Remaining(c, Step(c, s, a)) < Remaining(c, s)
  {
    match a
    case Get(w) => GetDecreases(c, s, w);
    case Decide(w) => DecideDecreases(c, s, w);
    case Finish(w, rc) => FinishDecreases(c, s, w, rc);
    case _ =>
  }

  lemma InitialWork(c: Config)
    ensures Remaining(c, Init(c)) == 5 * |c.suite| + 3 * c.threads + 1
  {
    WeighAll(Init(c).workers, Work, 0);
  }

  /** The invariant holds along every run, and every step uses up remaining work. */
  lemma {:induction false} RunInv(c: Config, s: State, run: seq<Action>)
    requires Inv(c, s) && IsRun(c, s, run)
    ensures Inv(c, After(c, s, run))
    ensures |run| + Remaining(c, After(c, s, run)) <= Remaining(c, s)
    decreases |run|
  {
    if run != [] {
      StepInv(c, s, run[0]);
      StepDecreases(c, s, run[0]);
      RunInv(c, Step(c, s, run[0]), run[1..]);
    }
  }

  ghost predicate Stuck(c: Config, s: State) {
    forall a: Action :: Enabled(c, s, a) ==> a == Interrupt
  }

  /** A worker that has not returned can move whenever the input queue is not empty. */
  lemma WorkerMoves(c: Config, s: State, w: nat) returns (a: Action)
    requires w < |s.workers| && !s.workers[w].Exited? && (s.workers[w].Idle? ==> s.input != [])
    ensures Enabled(c, s, a) && a != Interrupt
  {
    a := match s.workers[w]
      case Idle => Get(w)
      case Holding(_) => Decide(w)
      case Running(_) => Finish(w, 0);
  }

  /** While a worker has not returned, its stop marker or a job is still in the input queue. */
  lemma AWorkerMoves(c: Config, s: State, w: nat)
    requires Inv(c, s) && s.dispatched == |c.suite| + c.threads && w < |s.workers| && !s.workers[w].Exited?
    ensures !Stuck(c, s)
  {
    WeighFull(s.workers);
    var a := WorkerMoves(c, s, w);
  }

  lemma Progress(c: Config, s: State)
    requires Inv(c, s) && !Over(c, s) && (c.threads > 0 || c.suite == [])
    ensures !Stuck(c, s)
  {
    WeighFull(s.workers);
    if s.dispatched < |c.suite| + c.threads {
      assert Enabled(c, s, Put);
    } else if s.raised {
      var w :| 0 <= w < |s.workers| && !s.workers[w].Exited?;
      AWorkerMoves(c, s, w);
    } else if |s.collected| < |c.suite| && s.output != [] {
      assert Enabled(c, s, Collect);
    } else if |s.collected| < |c.suite| && Weigh(s.workers, Busy) > 0 {
      var w :| 0 <= w < |s.workers| && Weight(s.workers[w], Busy) > 0;
      AWorkerMoves(c, s, w);
    } else if |s.collected| < |c.suite| {
      var w :| 0 <= w < |s.workers| && !s.workers[w].Exited?;
      AWorkerMoves(c, s, w);
    } else if s.workers[s.joined].Exited? {
      assert Enabled(c, s, Join);
    } else {
      AWorkerMoves(c, s, s.joined);
    }
  }

  /** Without threads nothing is ever taken, so nothing is ever collected. */
  lemma {:induction false} NoThreads(c: Config, s: State, run: seq<Action>)
    requires c.threads == 0 && |s.workers| == 0 && s.output == [] && s.collected == [] && !s.raised
    requires IsRun(c, s, run)
    ensures var t := After(c, s, run); t.workers == [] && t.output == [] && t.collected == [] && !t.raised
    decreases |run|
  {
    if run != [] { NoThreads(c, Step(c, s, run[0]), run[1..]); }
  }

  lemma {:induction false} PutAll(c: Config, s: State, n: nat)
    requires s.dispatched + n <= |c.suite| + c.threads
    ensures var run := seq(n, _ => Put); IsRun(c, s, run) && After(c, s, run).dispatched == s.dispatched + n
    decreases n
  {
    var run := seq(n, _ => Put);
    if n > 0 {
      PutAll(c, Step(c, s, Put), n - 1);
      assert run[1..] == seq(n - 1, _ => Put);
    }
  }

  /** No run can end in a stuck state in which the program has not ended. */
  ghost predicate AlwaysFinishes(c: Config) {
    forall run :: IsRun(c, Init(c), run) ==>
      Over(c, After(c, Init(c), run)) || !Stuck(c, After(c, Init(c), run))
  }

  /** MAIN: every run is bounded in length. */
  lemma RunsAreBounded(c: Config, run: seq<Action>)
    requires c.Valid() && IsRun(c, Init(c), run)
    ensures |run| <= 5 * |c.suite| + 3 * c.threads + 1
  {
    InitInv(c);
    RunInv(c, Init(c), run);
    RemainingNonNegative(c, After(c, Init(c), run));
    InitialWork(c);
  }

  /** MAIN: every run can be continued until the program ends exactly when there is a thread or no job. */
  lemma FinishesIffThreads(c: Config)
    requires c.Valid()
    ensures AlwaysFinishes(c) <==> c.threads > 0 || c.suite == []
  {
    InitInv(c);
    if c.threads > 0 || c.suite == [] {
      forall run | IsRun(c, Init(c), run)
        ensures Over(c, After(c, Init(c), run)) || !Stuck(c, After(c, Init(c), run))
      {
        RunInv(c, Init(c), run);
        if !Over(c, After(c, Init(c), run)) { Progress(c, After(c, Init(c), run)); }
      }
    } else {
      var run := seq(|c.suite|, _ => Put);
      PutAll(c, Init(c), |c.suite|);
      NoThreads(c, Init(c), run);
      assert IsRun(c, Init(c), run) && Stuck(c, After(c, Init(c), run));
    }
  }

  /** The number of threads is zero exactly for a negative --jobs option. */
  lemma ThreadsPositive(processors: nat, limit: int)
    requires processors > 0
    ensures Threads(processors, limit) > 0 <==> limit >= 0
    ensures Threads(processors, limit) <= processors
    ensures 0 < limit <= processors ==> Threads(processors, limit) == limit
    ensures limit == 0 || limit > processors ==> Threads(processors, limit) == processors
  {
  }

  // ---------------------------------------------------------------------------
  // The state at the end
  // ---------------------------------------------------------------------------

  /** At completion both queues are empty, every worker has returned on its own stop marker, and
      every dispatched job was collected exactly once, started at most once, in its final form. */
  ghost predicate CleanEnd(c: Config, s: State) {
    s.input == [] && s.output == [] && |s.collected| == |c.suite| &&
    (forall w :: 0 <= w < |s.workers| ==> s.workers[w].Exited?) &&
    Taken(s) == |c.suite| + Weigh(s.workers, Stopped) &&
    (forall i: nat :: Occurs(s.collected, i) == if i < |c.suite| then 1 else 0) &&
    (forall k :: 0 <= k < |s.collected| ==> Reported(c, s, s.collected[k]) && s.collected[k].launches <= 1)
  }

  /** Once all workers returned, a job can only be in the output queue or collected. */
  lemma ExitedPlaces(s: State, i: nat)
    requires AllExited(s)
    ensures Places(s, i) == Occurs(s.output, i) + Occurs(s.collected, i)
  {
    WeighAll(s.workers, Holds(i), 0);
  }

  lemma ExitedCounted(c: Config, s: State)
    requires Inv(c, s) && AllExited(s) && (c.threads > 0 || |s.collected| == |c.suite|)
    ensures |s.output| + |s.collected| == |c.suite| == TakenJobs(c, s)
    ensures Taken(s) == |c.suite| + c.threads && s.input == []
  {
    WeighAll(s.workers, Stopped, 1);
    WeighAll(s.workers, Busy, 0);
  }

  lemma CompleteIsClean(c: Config, s: State)
    requires Inv(c, s) && Complete(c, s)
    ensures CleanEnd(c, s)
  {
    ExitedCounted(c, s);
    WeighAll(s.workers, Stopped, 1);
    forall i: nat ensures Occurs(s.collected, i) == if i < |c.suite| then 1 else 0 {
      ExitedPlaces(s, i);
      assert Places(s, i) == Occurs(s.collected, i);
    }
  }

  /** MAIN: every completed run ends cleanly. */
  lemma CompletedRun(c: Config, run: seq<Action>)
    requires c.Valid() && IsRun(c, Init(c), run) && Complete(c, After(c, Init(c), run))
    ensures CleanEnd(c, After(c, Init(c), run))
  {
    InitInv(c);
    RunInv(c, Init(c), run);
    CompleteIsClean(c, After(c, Init(c), run));
  }

  /** When the main thread ended with an exception and all workers returned, the input queue is empty and
      every job, collected or not, is done with: started at most once, and in exactly one place. */
  ghost predicate RaisedEnd(c: Config, s: State) {
    s.input == [] && s.collected != [] && c.Fatal(s.collected[|s.collected| - 1]) &&
    (forall i: nat :: Occurs(s.output, i) + Occurs(s.collected, i) == if i < |c.suite| then 1 else 0) &&
    (forall k :: 0 <= k < |s.output| ==> Reported(c, s, s.output[k]) && s.output[k].launches <= 1) &&
    (forall k :: 0 <= k < |s.collected| ==> Reported(c, s, s.collected[k]) && s.collected[k].launches <= 1)
  }

  lemma RaisedIsDone(c: Config, s: State)
    requires Inv(c, s) && s.raised && AllExited(s)
    ensures RaisedEnd(c, s)
  {
    ExitedCounted(c, s);
    forall i: nat ensures Occurs(s.output, i) + Occurs(s.collected, i) == if i < |c.suite| then 1 else 0 {
      ExitedPlaces(s, i);
      assert Places(s, i) == if i < TakenJobs(c, s) then 1 else 0;
    }
  }

  ghost predicate SomeFatal(c: Config, js: seq<Job>) {
    exists k :: 0 <= k < |js| && c.Fatal(js[k])
  }

  /** MAIN: the program ends with an exception exactly when some job that it ran leaves an XML file that is
      needed and unreadable; the workers then still finish all jobs. */
  lemma RaisesIffFatal(c: Config, run: seq<Action>)
    requires c.Valid() && IsRun(c, Init(c), run) && Over(c, After(c, Init(c), run))
    ensures var s := After(c, Init(c), run);
      (s.raised <==> SomeFatal(c, s.output + s.collected)) && (s.raised ==> RaisedEnd(c, s))
  {
    InitInv(c);
    RunInv(c, Init(c), run);
    var s := After(c, Init(c), run);
    if s.raised {
      RaisedIsDone(c, s);
      var n := |s.output| + |s.collected| - 1;
      assert (s.output + s.collected)[n] == s.collected[|s.collected| - 1];
    } else {
      CompleteIsClean(c, s);
      assert s.output + s.collected == s.collected;
    }
  }

  /** How often job i waits among the first n items of the input queue; stop markers are not jobs. */
  function Queued(js: seq<Job>, id: nat, n: nat): nat
    requires n <= |js|
  {
    if n == 0 then 0 else Queued(js, id, n - 1) + if !js[n - 1].isBreak && js[n - 1].id == id then 1 else 0
  }

  /** The items are jobs numbered from lo on up to `jobs`, then stop markers. */
  predicate JobsThenStops(js: seq<Job>, lo: nat, jobs: nat) {
    forall k :: 0 <= k < |js| ==>
      if lo + k < jobs then !js[k].isBreak && js[k].id == lo + k else js[k].isBreak
  }

  lemma {:induction false} QueuedBetween(js: seq<Job>, lo: nat, jobs: nat, id: nat, n: nat)
    requires JobsThenStops(js, lo, jobs) && n <= |js|
    ensures Queued(js, id, n) == if lo <= id < lo + n && id < jobs then 1 else 0
  {
    if n > 0 { QueuedBetween(js, lo, jobs, id, n - 1); }
  }

  lemma InputIsJobsThenStops(c: Config, s: State)
    requires c.Valid() && Fifo(c, s)
    ensures Taken(s) >= 0 && JobsThenStops(s.input, Taken(s), |c.suite|)
  {
  }

  predicate StartedAtMostOnce(s: State) {
    (forall w :: 0 <= w < |s.workers| && (s.workers[w].Holding? || s.workers[w].Running?) ==>
       s.workers[w].job.launches <= 1) &&
    (forall k :: 0 <= k < |s.output| ==> s.output[k].launches <= 1) &&
    (forall k :: 0 <= k < |s.collected| ==> s.collected[k].launches <= 1)
  }

  /** MAIN: in every reachable state each dispatched job is in exactly one place, in the input queue,
      with a worker, in the output queue or collected, and no job was started twice. */
  lemma JobsConserved(c: Config, run: seq<Action>, i: nat)
    requires c.Valid() && IsRun(c, Init(c), run)
    ensures var s := After(c, Init(c), run);
      Queued(s.input, i, |s.input|) + Places(s, i) == (if i < |c.suite| && i < s.dispatched then 1 else 0) &&
      StartedAtMostOnce(s)
  {
    InitInv(c);
    RunInv(c, Init(c), run);
    var s := After(c, Init(c), run);
    InputIsJobsThenStops(c, s);
    QueuedBetween(s.input, Taken(s), |c.suite|, i, |s.input|);
    assert Places(s, i) == if i < TakenJobs(c, s) then 1 else 0;
    forall w | 0 <= w < |s.workers| && (s.workers[w].Holding? || s.workers[w].Running?)
      ensures s.workers[w].job.launches <= 1
    {
      assert WorkerOk(c, s.workers[w]);
    }
  }

  datatype Outcome = Interrupted | Skipped | Passed | Failed | ValgrindError | Crashed

  function OutcomeOf(j: Job): Outcome {
    if j.isBreak then Interrupted
    else if j.isSkip then Skipped
    else if j.returncode == 0 then Passed
    else if j.returncode == 1 then Failed
    else if j.returncode == 2 then ValgrindError
    else Crashed
  }

  function Tally(js: seq<Job>, o: Outcome): nat {
    if js == [] then 0 else Tally(js[..|js| - 1], o) + if OutcomeOf(js[|js| - 1]) == o then 1 else 0
  }

  lemma {:induction false} TallySum(js: seq<Job>)
    ensures Tally(js, Interrupted) + Tally(js, Skipped) + Tally(js, Passed) + Tally(js, Failed) +
            Tally(js, ValgrindError) + Tally(js, Crashed) == |js|
  {
    if js != [] { TallySum(js[..|js| - 1]); }
  }

  lemma {:induction false} TallyGood(js: seq<Job>)
    ensures Tally(js, Passed) + Tally(js, Skipped) <= |js|
    ensures Tally(js, Passed) + Tally(js, Skipped) == |js| <==>
            forall k :: 0 <= k < |js| ==> OutcomeOf(js[k]) in {Passed, Skipped}
  {
    if js != [] {
      var n := |js| - 1;
      TallyGood(js[..n]);
      assert js == js[..n] + [js[n]];
    }
  }

  predicate Ran(j: Job) {
    !j.isBreak && !j.isSkip
  }

  /** The positions of the jobs that ran and returned this code. */
  function Returned(js: seq<Job>, code: int): set<nat> {
    set k: nat | k < |js| && Ran(js[k]) && js[k].returncode == code
  }

  /** The positions of the jobs that ran and returned a code other than 0, 1 and 2. */
  function ReturnedOther(js: seq<Job>): set<nat> {
    set k: nat | k < |js| && Ran(js[k]) && js[k].returncode != 0 && js[k].returncode != 1 && js[k].returncode != 2
  }

  function LeftOut(js: seq<Job>): set<nat> {
    set k: nat | k < |js| && !js[k].isBreak && js[k].isSkip
  }

  lemma {:induction false} TallyCounts(js: seq<Job>, o: Outcome, at: set<nat>)
    requires forall k: nat :: k in at <==> k < |js| && OutcomeOf(js[k]) == o
    ensures Tally(js, o) == |at|
  {
    if js == [] {
      assert at == {};
    } else {
      var n: nat := |js| - 1;
      TallyCounts(js[..n], o, at - {n});
    }
  }

  /** Each outcome counts the jobs that were skipped, or that ran and returned its code. */
  lemma TallyMeaning(js: seq<Job>)
    ensures Tally(js, Skipped) == |LeftOut(js)|
    ensures Tally(js, Passed) == |Returned(js, 0)|
    ensures Tally(js, Failed) == |Returned(js, 1)|
    ensures Tally(js, ValgrindError) == |Returned(js, 2)|
    ensures Tally(js, Crashed) == |ReturnedOther(js)|
  {
    TallyCounts(js, Skipped, LeftOut(js));
    TallyCounts(js, Passed, Returned(js, 0));
    TallyCounts(js, Failed, Returned(js, 1));
    TallyCounts(js, ValgrindError, Returned(js, 2));
    TallyCounts(js, Crashed, ReturnedOther(js));
  }

  /** Nothing but skipped jobs and jobs that returned 0. */
  predicate AllGood(js: seq<Job>) {
    forall k :: 0 <= k < |js| ==> !js[k].isBreak && (js[k].isSkip || js[k].returncode == 0)
  }

  lemma ExitStatusMeaning(js: seq<Job>)
    ensures ExitStatus(js, |js|) == if AllGood(js) then 0 else 1
  {
    TallyGood(js);
  }

  function ExitStatus(js: seq<Job>, total: nat): int {
    if Tally(js, Passed) + Tally(js, Skipped) == total then 0 else 1
  }

  /** MAIN: the runner succeeds exactly when every collected job was skipped, or was started once and
      its subprocess returned 0, with no interrupt seen; the six outcomes add up to the jobs. */
  lemma SuccessMeansAllPassed(c: Config, run: seq<Action>)
    requires c.Valid() && IsRun(c, Init(c), run) && Complete(c, After(c, Init(c), run))
    ensures var js := After(c, Init(c), run).collected;
      Tally(js, Interrupted) + Tally(js, Skipped) + Tally(js, Passed) + Tally(js, Failed) +
      Tally(js, ValgrindError) + Tally(js, Crashed) == |c.suite| &&
      (ExitStatus(js, |c.suite|) == 0 <==>
       forall k :: 0 <= k < |js| ==>
         !js[k].isBreak && (js[k].isSkip || (js[k].launches == 1 && js[k].returncode == 0)))
    ensures !After(c, Init(c), run).threadExit ==> Tally(After(c, Init(c), run).collected, Interrupted) == 0
  {
    CompletedRun(c, run);
    var s := After(c, Init(c), run);
    TallySum(s.collected);
    TallyGood(s.collected);
    forall k | 0 <= k < |s.collected|
      ensures OutcomeOf(s.collected[k]) in {Passed, Skipped} <==>
        !s.collected[k].isBreak &&
        (s.collected[k].isSkip || (s.collected[k].launches == 1 && s.collected[k].returncode == 0))
    {
      assert Reported(c, s, s.collected[k]);
    }
    if !s.threadExit { NoBreaks(c, s, s.collected); }
  }

  lemma {:induction false} NoBreaks(c: Config, s: State, js: seq<Job>)
    requires !s.threadExit && forall k :: 0 <= k < |js| ==> Reported(c, s, js[k])
    ensures Tally(js, Interrupted) == 0
  {
    if js != [] {
      NoBreaks(c, s, js[..|js| - 1]);
      assert Reported(c, s, js[|js| - 1]);
    }
  }

  // ---------------------------------------------------------------------------
  // Return codes and interrupts along a run
  // ---------------------------------------------------------------------------

  predicate IsReported(s: State, j: Job) {
    j in s.output || j in s.collected
  }

  /** The subprocess results of a run: which job ended with which return code. */
  ghost function Finishes(c: Config, s: State, run: seq<Action>): set<(nat, int)>
    requires IsRun(c, s, run)
    decreases |run|
  {
    if run == [] then {}
    else
      var rest := Finishes(c, Step(c, s, run[0]), run[1..]);
      if run[0].Finish? then {(s.workers[run[0].worker].job.id, run[0].returncode)} + rest else rest
  }

  /** MAIN: the return code of a job that ran is the one its own subprocess ended with. */
  lemma {:induction false} ReturncodesAreReal(c: Config, s: State, run: seq<Action>, j: Job)
    requires IsRun(c, s, run) && IsReported(After(c, s, run), j) && !j.isBreak && !j.isSkip
    ensures IsReported(s, j) || (j.id, j.returncode) in Finishes(c, s, run)
    decreases |run|
  {
    if run != [] {
      ReturncodesAreReal(c, Step(c, s, run[0]), run[1..], j);
      if IsReported(Step(c, s, run[0]), j) && !IsReported(s, j) { NewReport(c, s, run[0], j); }
    }
  }

  lemma NewReport(c: Config, s: State, a: Action, j: Job)
    requires Enabled(c, s, a) && IsReported(Step(c, s, a), j) && !IsReported(s, j) && !j.isBreak && !j.isSkip
    ensures a.Finish? && j.id == s.workers[a.worker].job.id && j.returncode == a.returncode
  {
  }

  /** All reports so far: those collected, then those waiting. */
  function Reports(s: State): seq<Job> {
    s.collected + s.output
  }

  lemma StepAppends(c: Config, s: State, a: Action)
    requires Enabled(c, s, a)
    ensures Reports(s) <= Reports(Step(c, s, a))
    ensures a.Collect? ==> Reports(Step(c, s, a)) == Reports(s) && |Step(c, s, a).collected| == |s.collected| + 1
  {
    if a.Collect? {
      assert s.output == [s.output[0]] + s.output[1..];
    } else {
      assert s.output <= Step(c, s, a).output;
    }
  }

  /** MAIN: results are collected in the order in which the workers reported them. */
  lemma {:induction false} ReportsAppendOnly(c: Config, s: State, run: seq<Action>)
    requires IsRun(c, s, run)
    ensures Reports(s) <= Reports(After(c, s, run))
    decreases |run|
  {
    if run != [] {
      StepAppends(c, s, run[0]);
      ReportsAppendOnly(c, Step(c, s, run[0]), run[1..]);
    }
  }

  /** Job i has not been decided on yet, or was decided on by reporting a break. */
  predicate UndecidedOrBroken(s: State, i: nat) {
    (forall w :: 0 <= w < |s.workers| && s.workers[w].Running? ==> s.workers[w].job.id != i) &&
    (forall k :: 0 <= k < |s.output| && s.output[k].id == i ==> s.output[k].isBreak) &&
    (forall k :: 0 <= k < |s.collected| && s.collected[k].id == i ==> s.collected[k].isBreak)
  }

  lemma StaysUndecidedOrBroken(c: Config, s: State, a: Action, i: nat)
    requires Enabled(c, s, a) && s.threadExit && UndecidedOrBroken(s, i)
    ensures Step(c, s, a).threadExit && UndecidedOrBroken(Step(c, s, a), i)
  {
  }

  /** MAIN: a job that no worker had decided on when the interrupt arrived is never started and ends
      up interrupted, even if it was to be skipped. */
  lemma {:induction false} InterruptStopsWork(c: Config, s: State, run: seq<Action>, i: nat)
    requires IsRun(c, s, run) && s.threadExit && UndecidedOrBroken(s, i)
    ensures UndecidedOrBroken(After(c, s, run), i)
    decreases |run|
  {
    if run != [] {
      StaysUndecidedOrBroken(c, s, run[0], i);
      InterruptStopsWork(c, Step(c, s, run[0]), run[1..], i);
    }
  }

  // ---------------------------------------------------------------------------
  // The collecting loop of the main thread
  // ---------------------------------------------------------------------------

  /** The result recorded in the XML file that a test suite leaves behind; XmlUnreadable stands for a
      file that is missing, does not parse or holds no result. */
  datatype Xml = XmlPass | XmlSkip | XmlOther | XmlUnreadable

  /** A suite that is not taken off failed_jobs again by its XML file: the file does not say that the
      suite passed or was skipped, or it is not looked at because the return code is not 0, 1 or 2. */
  predicate BadXml(j: Job, x: Xml) {
    IsTestSuite(j) && !(j.returncode in {0, 1, 2} && x in {XmlPass, XmlSkip})
  }

  /** Collecting the job ends the program with an exception. */
  predicate Raises(j: Job, x: Xml) {
    NeedsXml(j) && x == XmlUnreadable
  }

  /** How many times a job stays in failed_jobs: once for its return code, once for its XML file. */
  function FailureEntries(j: Job, x: Xml): nat {
    if j.isBreak || j.isSkip then 0
    else (if j.returncode != 0 then 1 else 0) + (if BadXml(j, x) then 1 else 0)
  }

  function Copies(j: Job, n: nat): seq<Job> {
    if n == 0 then [] else Copies(j, n - 1) + [j]
  }

  function FailedJobs(js: seq<Job>, xs: seq<Xml>): seq<Job>
    requires |js| == |xs|
  {
    if js == [] then []
    else
      var n := |js| - 1;
      FailedJobs(js[..n], xs[..n]) + Copies(js[n], FailureEntries(js[n], xs[n]))
  }

  lemma {:induction false} CopiesAdd(j: Job, m: nat, n: nat)
    ensures Copies(j, m) + Copies(j, n) == Copies(j, m + n)
  {
    if n > 0 {
      CopiesAdd(j, m, n - 1);
      assert Copies(j, m) + (Copies(j, n - 1) + [j]) == (Copies(j, m) + Copies(j, n - 1)) + [j];
    }
  }

  lemma {:induction false} CopiesMembers(j: Job, n: nat, x: Job)
    ensures x in Copies(j, n) <==> n > 0 && x == j
  {
    if n > 0 { CopiesMembers(j, n - 1, x); }
  }

  /** MAIN: a collected job is in failed_jobs exactly when it was neither interrupted nor skipped and
      its return code is not 0 or it is a suite whose XML result is not PASS or SKIP. */
  lemma {:induction false} FailedJobsMembers(js: seq<Job>, xs: seq<Xml>, j: Job)
    requires |js| == |xs|
    ensures j in FailedJobs(js, xs) <==>
            exists k :: 0 <= k < |js| && js[k] == j && !j.isBreak && !j.isSkip &&
                        (j.returncode != 0 || (IsTestSuite(j) && xs[k] !in {XmlPass, XmlSkip}))
  {
    if js != [] {
      var n := |js| - 1;
      FailedJobsMembers(js[..n], xs[..n], j);
      CopiesMembers(js[n], FailureEntries(js[n], xs[n]), j);
      forall k | 0 <= k < n ensures js[..n][k] == js[k] && xs[..n][k] == xs[k] {}
    }
  }

  lemma {:induction false} CopiesCount(j: Job, n: nat, x: Job)
    ensures multiset(Copies(j, n))[x] == if x == j then n else 0
  {
    if n > 0 { CopiesCount(j, n - 1, x); }
  }

  predicate PairwiseDifferent(js: seq<Job>) {
    forall i, k :: 0 <= i < k < |js| ==> js[i] != js[k]
  }

  lemma LastJobAdds(js: seq<Job>, xs: seq<Xml>, j: Job)
    requires |js| == |xs| > 0
    ensures var n := |js| - 1;
      multiset(FailedJobs(js, xs))[j] ==
      multiset(FailedJobs(js[..n], xs[..n]))[j] + if js[n] == j then FailureEntries(js[n], xs[n]) else 0
  {
    var n := |js| - 1;
    CopiesCount(js[n], FailureEntries(js[n], xs[n]), j);
  }

  lemma NewJobNotListed(js: seq<Job>, xs: seq<Xml>, j: Job)
    requires |js| == |xs| && j !in js
    ensures multiset(FailedJobs(js, xs))[j] == 0
  {
    FailedJobsMembers(js, xs, j);
  }

  /** MAIN: how often each collected job is in failed_jobs. */
  lemma {:induction false} FailedJobsCount(js: seq<Job>, xs: seq<Xml>, k: nat)
    requires |js| == |xs| && PairwiseDifferent(js) && k < |js|
    ensures multiset(FailedJobs(js, xs))[js[k]] == FailureEntries(js[k], xs[k])
    decreases |js|
  {
    var n := |js| - 1;
    LastJobAdds(js, xs, js[k]);
    if k < n {
      FailedJobsCount(js[..n], xs[..n], k);
    } else {
      NewJobNotListed(js[..n], xs[..n], js[n]);
    }
  }

  /** The entries of the k-th job are those from at[k] to at[k + 1]. */
  predicate FailedAt(js: seq<Job>, xs: seq<Xml>, failed: seq<Job>, at: seq<nat>, k: nat)
    requires |js| == |xs| && k < |js| && |at| == |js| + 1
  {
    at[k + 1] == at[k] + FailureEntries(js[k], xs[k]) <= |failed| &&
    forall i :: at[k] <= i < at[k + 1] ==> failed[i] == js[k]
  }

  predicate ListsFailed(js: seq<Job>, xs: seq<Xml>, failed: seq<Job>, at: seq<nat>)
    requires |js| == |xs|
  {
    |at| == |js| + 1 && at[0] == 0 && at[|js|] == |failed| &&
    forall k :: 0 <= k < |js| ==> FailedAt(js, xs, failed, at, k)
  }

  lemma {:induction false} CopiesAre(j: Job, n: nat)
    ensures |Copies(j, n)| == n && forall i :: 0 <= i < n ==> Copies(j, n)[i] == j
  {
    if n > 0 { CopiesAre(j, n - 1); }
  }

  /** MAIN: failed_jobs is in the order in which the results arrived, each job as often as it fails. */
  lemma {:induction false} FailedJobsInOrder(js: seq<Job>, xs: seq<Xml>) returns (at: seq<nat>)
    requires |js| == |xs|
    ensures ListsFailed(js, xs, FailedJobs(js, xs), at)
    decreases |js|
  {
    if js == [] {
      at := [0];
    } else {
      var n := |js| - 1;
      var m := FailureEntries(js[n], xs[n]);
      var first := FailedJobsInOrder(js[..n], xs[..n]);
      CopiesAre(js[n], m);
      at := first + [first[n] + m];
      forall k | 0 <= k < |js| ensures FailedAt(js, xs, FailedJobs(js, xs), at, k) {
        if k < n { assert FailedAt(js[..n], xs[..n], FailedJobs(js[..n], xs[..n]), first, k); }
      }
    }
  }

  /** A suite is listed twice exactly when it ran, did not return 0, and either returned neither 1 nor 2,
      whatever its XML file says, or its file is neither PASS nor SKIP; nothing is listed more often. */
  lemma ListedTwiceIff(js: seq<Job>, xs: seq<Xml>, k: nat)
    requires |js| == |xs| && PairwiseDifferent(js) && k < |js|
    ensures var j, copies := js[k], multiset(FailedJobs(js, xs))[js[k]];
      copies <= 2 &&
      (copies == 2 <==> IsTestSuite(j) && !j.isBreak && !j.isSkip && j.returncode != 0 &&
                        (j.returncode !in {1, 2} || xs[k] !in {XmlPass, XmlSkip}))
  {
    FailedJobsCount(js, xs, k);
  }

  lemma {:induction false} OccursTwice(js: seq<Job>, i: nat, k: nat)
    requires i < k < |js| && js[i].id == js[k].id
    ensures Occurs(js, js[i].id) >= 2
  {
    if k < |js| - 1 {
      OccursTwice(js[..|js| - 1], i, k);
    } else {
      OccursOnce(js[..k], i);
    }
  }

  lemma {:induction false} OccursOnce(js: seq<Job>, i: nat)
    requires i < |js|
    ensures Occurs(js, js[i].id) >= 1
  {
    if i < |js| - 1 { OccursOnce(js[..|js| - 1], i); }
  }

  /** The jobs that a completed run collected are pairwise different. */
  lemma CollectedDifferent(c: Config, run: seq<Action>)
    requires c.Valid() && IsRun(c, Init(c), run) && Complete(c, After(c, Init(c), run))
    ensures PairwiseDifferent(After(c, Init(c), run).collected)
  {
    CompletedRun(c, run);
    var js := After(c, Init(c), run).collected;
    forall i, k | 0 <= i < k < |js| ensures js[i] != js[k] {
      if js[i] == js[k] { OccursTwice(js, i, k); }
    }
  }

  /** The collecting loop raises its exception in exactly the runs that end with one. */
  lemma RaisedIffCollectRaises(c: Config, run: seq<Action>, xs: seq<Xml>)
    requires c.Valid() && IsRun(c, Init(c), run) && |xs| == |After(c, Init(c), run).collected|
    requires forall k :: 0 <= k < |xs| ==>
      (xs[k] == XmlUnreadable <==> After(c, Init(c), run).collected[k].id in c.unreadable)
    ensures var s := After(c, Init(c), run);
      s.raised <==> exists k :: 0 <= k < |xs| && Raises(s.collected[k], xs[k])
  {
    InitInv(c);
    RunInv(c, Init(c), run);
    var s := After(c, Init(c), run);
    if s.raised { assert Raises(s.collected[|xs| - 1], xs[|xs| - 1]); }
  }

  class Summary {
    var passed: nat
    var skipped: nat
    var failed: nat
    var crashed: nat
    var valgrind: nat
    var failedJobs: seq<Job>

    ghost predicate Summarizes(js: seq<Job>, xs: seq<Xml>)
      requires |js| == |xs|
      reads this
    {
      passed == Tally(js, Passed) && skipped == Tally(js, Skipped) && failed == Tally(js, Failed) &&
      crashed == Tally(js, Crashed) && valgrind == Tally(js, ValgrindError) &&
      failedJobs == FailedJobs(js, xs)
    }

    /** The counters are the numbers of jobs by return code. */
    ghost predicate Counts(js: seq<Job>)
      reads this
    {
      skipped == |LeftOut(js)| && passed == |Returned(js, 0)| && failed == |Returned(js, 1)| &&
      valgrind == |Returned(js, 2)| && crashed == |ReturnedOther(js)|
    }

    ghost predicate EndsAt(js: seq<Job>, xs: seq<Xml>, k: nat)
      requires k < |js| == |xs|
      reads this
    {
      Summarizes(js[..k + 1], xs[..k + 1]) && Counts(js[..k + 1])
    }

    lemma CountsFollow(js: seq<Job>, xs: seq<Xml>)
      requires |js| == |xs| && Summarizes(js, xs)
      ensures Counts(js)
    {
      TallyMeaning(js);
    }

    constructor ()
      ensures Summarizes([], [])
    {
      passed, skipped, failed, crashed, valgrind, failedJobs := 0, 0, 0, 0, 0, [];
    }

    /** Push the job unless it is skipped, pop it again if it passed, and count its outcome. */
    method CountOutcome(job: Job)
      requires !job.isBreak
      modifies this
      ensures failedJobs == old(failedJobs) + Copies(job, if job.isSkip || job.returncode == 0 then 0 else 1)
      ensures passed == old(passed) + (if Ran(job) && job.returncode == 0 then 1 else 0)
      ensures skipped == old(skipped) + (if !job.isBreak && job.isSkip then 1 else 0)
      ensures failed == old(failed) + (if Ran(job) && job.returncode == 1 then 1 else 0)
      ensures crashed == old(crashed) + (if Ran(job) && job.returncode !in {0, 1, 2} then 1 else 0)
      ensures valgrind == old(valgrind) + (if Ran(job) && job.returncode == 2 then 1 else 0)
    {
      assert Copies(job, 0) == [] && Copies(job, 1) == [job];
      if job.isSkip {
        skipped := skipped + 1;
      } else {
        failedJobs := failedJobs + [job];
        if job.returncode == 0 {
          passed := passed + 1;
          failedJobs := failedJobs[..|failedJobs| - 1];
        } else if job.returncode == 1 {
          failed := failed + 1;
        } else if job.returncode == 2 {
          valgrind := valgrind + 1;
        } else {
          crashed := crashed + 1;
        }
      }
    }

    /** Push a suite that ran once more, and pop it again if its XML file says so. */
    method CheckXml(job: Job, xml: Xml) returns (raised: bool)
      requires !job.isBreak
      modifies `failedJobs
      ensures raised <==> Raises(job, xml)
      ensures failedJobs == old(failedJobs) + Copies(job, if !job.isSkip && BadXml(job, xml) then 1 else 0)
    {
      assert Copies(job, 0) == [] && Copies(job, 1) == [job];
      if job.isExample || job.isPyexample { return false; }
      if !job.isSkip {
        failedJobs := failedJobs + [job];
        if job.returncode == 0 || job.returncode == 1 || job.returncode == 2 {
          if xml == XmlUnreadable { return true; }
          if xml == XmlPass || xml == XmlSkip {
            failedJobs := failedJobs[..|failedJobs| - 1];
          }
        }
      }
      return false;
    }

    method Collect(job: Job, xml: Xml) returns (raised: bool)
      modifies this
      ensures raised <==> Raises(job, xml)
      ensures failedJobs == old(failedJobs) + Copies(job, FailureEntries(job, xml))
      ensures passed == old(passed) + (if Ran(job) && job.returncode == 0 then 1 else 0)
      ensures skipped == old(skipped) + (if !job.isBreak && job.isSkip then 1 else 0)
      ensures failed == old(failed) + (if Ran(job) && job.returncode == 1 then 1 else 0)
      ensures crashed == old(crashed) + (if Ran(job) && job.returncode !in {0, 1, 2} then 1 else 0)
      ensures valgrind == old(valgrind) + (if Ran(job) && job.returncode == 2 then 1 else 0)
    {
      if job.isBreak { return false; }
      CountOutcome(job);
      raised := CheckXml(job, xml);
      CopiesAdd(job, if job.isSkip || job.returncode == 0 then 0 else 1,
                if !job.isSkip && BadXml(job, xml) then 1 else 0);
    }
  }

  /** The loop over all results, in the order in which they arrive, and the exit status. An XML file that
      cannot be read ends it at its job. */
  method CollectAll(js: seq<Job>, xs: seq<Xml>) returns (summary: Summary, raised: bool, status: int)
    requires |js| == |xs|
    ensures raised <==> exists k :: 0 <= k < |js| && Raises(js[k], xs[k])
    ensures !raised ==> summary.Summarizes(js, xs) && summary.Counts(js) && status == if AllGood(js) then 0 else 1
    ensures raised ==> exists k :: 0 <= k < |js| && Raises(js[k], xs[k]) && summary.EndsAt(js, xs, k)
  {
    summary := new Summary();
    raised, status := false, 1;
    for i := 0 to |js|
      invariant fresh(summary) && summary.Summarizes(js[..i], xs[..i])
      invariant forall k :: 0 <= k < i ==> !Raises(js[k], xs[k])
    {
      raised := summary.Collect(js[i], xs[i]);
      assert js[..i + 1][..i] == js[..i] && xs[..i + 1][..i] == xs[..i];
      if raised {
        summary.CountsFollow(js[..i + 1], xs[..i + 1]);
        return;
      }
    }
    assert js[..|js|] == js && xs[..|xs|] == xs;
    summary.CountsFollow(js, xs);
    ExitStatusMeaning(js);
    status := if summary.passed + summary.skipped == |js| then 0 else 1;
  }
}
