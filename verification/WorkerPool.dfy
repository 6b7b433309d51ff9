/** The worker pool of test.py as a transition system.

One dispatcher (the main thread), `processors` worker threads, two FIFO queues
and the `thread_exit` flag that a signal may raise at any moment.  A schedule
is any sequence of atomic steps; every theorem speaks about every schedule. */
module WorkerPool {
  import opened Wrappers

  /** A Job object, named by its index in the heap: jobs are passed by reference. */
  type Ref = nat

  /** What the dispatcher knows about a job before any worker sees it. */
  datatype JobSpec = JobSpec(name: string, isSkip: bool)

  /** `returncode` starts as Python's `False`, which compares equal to 0, so
      `ran` records whether the job process was really executed. */
  datatype Job = Job(name: string, isSkip: bool, isBreak: bool, returncode: int, ran: bool)

  datatype Config = Config(work: seq<JobSpec>, processors: nat)

  /** Program counter of a worker, with the job in its local variable. */
  datatype Worker =
    | Idle                  // blocked in input_queue.get()
    | Got(ref: Ref)         // holds a real job, about to read thread_exit
    | Executing(ref: Ref)   // the job process is running
    | Reporting(ref: Ref)   // about to call output_queue.put(job)
    | Exited(ref: Ref)      // returned after taking this break job

  datatype MainThread = Dispatching | Breaking | Collecting | Joining(joined: nat) | Done

  datatype Outcome = Interrupted | Skip | Pass | Fail | Valgrind | Crash

  datatype Tally = Tally(passed: nat, failed: nat, skipped: nat, crashed: nat, valgrind: nat)

  datatype State = State(
    main: MainThread,
    heap: seq<Job>,
    input: seq<Ref>,
    output: seq<Ref>,
    workers: seq<Worker>,
    collected: seq<Ref>,
    jobs: nat,
    totalTests: nat,
    tally: Tally,
    threadExit: bool)

  /** The atomic steps.  Worker steps name the worker; `Finish` also carries the
      return code that the job process happened to produce. */
  datatype Action =
    | Dispatch | EndDispatch | PutBreak | EndBreaks | Collect | EndCollect | Join | Return
    | Get(w: nat) | CheckFlag(w: nat) | Finish(w: nat, code: int) | Report(w: nat)
    | Interrupt

  function NewJob(spec: JobSpec): Job {
    Job(spec.name, spec.isSkip, false, 0, false)
  }

  const BREAK_JOB := Job("", false, true, 0, false)

  /** The collector's classification of a job it takes from the output queue. */
  function Classify(job: Job): Outcome {
    if job.isBreak then Interrupted
    else if job.isSkip then Skip
    else if job.returncode == 0 then Pass
    else if job.returncode == 1 then Fail
    else if job.returncode == 2 then Valgrind
    else Crash
  }

  function Count(t: Tally, o: Outcome): Tally {
    match o
    case Interrupted => t
    case Skip => t.(skipped := t.skipped + 1)
    case Pass => t.(passed := t.passed + 1)
    case Fail => t.(failed := t.failed + 1)
    case Valgrind => t.(valgrind := t.valgrind + 1)
    case Crash => t.(crashed := t.crashed + 1)
  }

  function Init(c: Config): State {
    State(Dispatching, [], [], [], seq(c.processors, i => Idle), [], 0, 0, Tally(0, 0, 0, 0, 0), false)
  }

  /** Which steps can be taken: a `get` blocks on an empty queue, a `join` on a
      running worker.  A signal that finds the flag already up changes nothing
      and is not a step. */
  predicate Enabled(c: Config, s: State, a: Action) {
    match a
    case Dispatch => s.main.Dispatching? && s.jobs < |c.work|
    case EndDispatch => s.main.Dispatching? && s.jobs >= |c.work|
    case PutBreak => s.main.Breaking? && |s.heap| < s.jobs + c.processors
    case EndBreaks => s.main.Breaking? && |s.heap| >= s.jobs + c.processors
    case Collect => s.main.Collecting? && |s.collected| < s.jobs && s.output != [] && s.output[0] < |s.heap|
    case EndCollect => s.main.Collecting? && |s.collected| >= s.jobs
    case Join => s.main.Joining? && s.main.joined < |s.workers| && s.workers[s.main.joined].Exited?
    case Return => s.main.Joining? && s.main.joined >= |s.workers|
    case Get(w) => w < |s.workers| && s.workers[w].Idle? && s.input != [] && s.input[0] < |s.heap|
    case CheckFlag(w) => w < |s.workers| && s.workers[w].Got? && s.workers[w].ref < |s.heap|
    case Finish(w, _) => w < |s.workers| && s.workers[w].Executing? && s.workers[w].ref < |s.heap|
    case Report(w) => w < |s.workers| && s.workers[w].Reporting?
    case Interrupt => !s.threadExit
  }

  function Apply(c: Config, s: State, a: Action): State
    requires Enabled(c, s, a)
  {
    match a
    case Dispatch =>
      s.(heap := s.heap + [NewJob(c.work[s.jobs])], input := s.input + [|s.heap|],
         jobs := s.jobs + 1, totalTests := s.totalTests + 1)
    case EndDispatch => s.(main := Breaking)
    case PutBreak => s.(heap := s.heap + [BREAK_JOB], input := s.input + [|s.heap|])
    case EndBreaks => s.(main := Collecting)
    case Collect =>
      s.(output := s.output[1..], collected := s.collected + [s.output[0]],
         tally := Count(s.tally, Classify(s.heap[s.output[0]])))
    case EndCollect => s.(main := Joining(0))
    case Join => s.(main := Joining(s.main.joined + 1))
    case Return => s.(main := Done)
    case Get(w) =>
      var r := s.input[0];
      s.(input := s.input[1..], workers := s.workers[w := if s.heap[r].isBreak then Exited(r) else Got(r)])
    case CheckFlag(w) =>
      var r := s.workers[w].ref;
      if s.threadExit then
        s.(heap := s.heap[r := s.heap[r].(isBreak := true)], workers := s.workers[w := Reporting(r)])
      else
        s.(workers := s.workers[w := if s.heap[r].isSkip then Reporting(r) else Executing(r)])
    case Finish(w, code) =>
      var r := s.workers[w].ref;
      s.(heap := s.heap[r := s.heap[r].(returncode := code, ran := true)], workers := s.workers[w := Reporting(r)])
    case Report(w) => s.(output := s.output + [s.workers[w].ref], workers := s.workers[w := Idle])
    case Interrupt => s.(threadExit := true)
  }

  /** The exit status of the driver. */
  function Verdict(s: State): int {
    if s.tally.passed + s.tally.skipped == s.totalTests then 0 else 1
  }

  /** A schedule is legal when each of its steps was possible when taken. */
  ghost predicate Legal(c: Config, schedule: seq<Action>)
    decreases |schedule|, 0
  {
    schedule == [] ||
    (Legal(c, schedule[..|schedule| - 1]) &&
     Enabled(c, After(c, schedule[..|schedule| - 1]), schedule[|schedule| - 1]))
  }

  /** The state a legal schedule leads to. */
  ghost function After(c: Config, schedule: seq<Action>): State
    requires Legal(c, schedule)
    decreases |schedule|, 1
  {
    if schedule == [] then Init(c)
    else Apply(c, After(c, schedule[..|schedule| - 1]), schedule[|schedule| - 1])
  }

  // ---------- The invariant ----------

  /** The references lo, lo + 1, ..., hi - 1. */
  ghost function Range(lo: nat, hi: nat): (s: seq<Ref>)
    requires lo <= hi
    ensures |s| == hi - lo
    ensures forall i :: 0 <= i < |s| ==> s[i] == lo + i
  {
    seq(hi - lo, i => lo + i)
  }

  /** How many jobs and break jobs have left the input queue so far. */
  ghost function Taken(s: State): int { |s.heap| - |s.input| }

  ghost function Holds(w: Worker, r: Ref): nat {
    if !w.Idle? && w.ref == r then 1 else 0
  }

  /** How many workers have this reference in their hands. */
  ghost function HeldBy(ws: seq<Worker>, r: Ref): nat {
    if ws == [] then 0 else HeldBy(ws[..|ws| - 1], r) + Holds(ws[|ws| - 1], r)
  }

  /** In how many places outside the input queue a reference occurs. */
  ghost function Places(s: State, r: Ref): nat {
    HeldBy(s.workers, r) + multiset(s.output)[r] + multiset(s.collected)[r]
  }

  ghost function ExitedCount(ws: seq<Worker>): nat {
    if ws == [] then 0 else ExitedCount(ws[..|ws| - 1]) + if ws[|ws| - 1].Exited? then 1 else 0
  }

  /** The dispatcher's own bookkeeping, phase by phase. */
  ghost predicate MainOk(c: Config, s: State) {
    var n, all := |c.work|, |c.work| + c.processors;
    && |s.workers| == c.processors
    && s.jobs == s.totalTests == (if |s.heap| < n then |s.heap| else n)
    && |s.heap| <= all
    && (s.main.Dispatching? ==> |s.heap| <= n)
    && (s.main.Breaking? ==> n <= |s.heap|)
    && (s.main.Dispatching? || s.main.Breaking? ==> s.collected == [])
    && (s.main.Collecting? || s.main.Joining? || s.main.Done? ==> |s.heap| == all)
    && |s.collected| <= n
    && (s.main.Joining? || s.main.Done? ==> |s.collected| == n)
    && (s.main.Joining? ==> s.main.joined <= |s.workers|
                            && forall i :: 0 <= i < s.main.joined ==> s.workers[i].Exited?)
    && (s.main.Done? ==> forall i :: 0 <= i < |s.workers| ==> s.workers[i].Exited?)
  }

  /** FIFO order: the input queue is always the tail of the references handed
      out, so every real job in it stands before every break job. */
  ghost predicate Fifo(s: State) {
    |s.input| <= |s.heap| && s.input == Range(Taken(s), |s.heap|)
  }

  /** Every reference that left the input queue is in exactly one place. */
  ghost predicate Once(s: State) {
    forall r: Ref :: Places(s, r) == if r < Taken(s) then 1 else 0
  }

  ghost predicate Untouched(j: Job) { !j.isBreak && !j.ran }

  /** A job that may be handed back: interrupted, skipped or really executed. */
  ghost predicate Resolved(j: Job) {
    if j.isBreak || j.isSkip then !j.ran else j.ran
  }

  ghost predicate WorkerOk(c: Config, heap: seq<Job>, w: Worker) {
    w.Idle? ||
    (w.ref < |heap| &&
     match w
     case Got(r) => r < |c.work| && Untouched(heap[r])
     case Executing(r) => r < |c.work| && Untouched(heap[r]) && !heap[r].isSkip
     case Reporting(r) => r < |c.work| && Resolved(heap[r])
     case Exited(r) => |c.work| <= r
     case Idle => true)
  }

  ghost predicate JobsOk(c: Config, s: State) {
    && (forall r :: 0 <= r < |s.heap| && r < |c.work| ==>
          s.heap[r].name == c.work[r].name && s.heap[r].isSkip == c.work[r].isSkip)
    && (forall r :: |c.work| <= r < |s.heap| ==> s.heap[r].isBreak)
    && (forall r :: 0 <= r < |s.heap| && r < |c.work| && Taken(s) <= r ==> Untouched(s.heap[r]))
    && (forall w :: 0 <= w < |s.workers| ==> WorkerOk(c, s.heap, s.workers[w]))
    && (forall r :: r in s.output ==> r < |s.heap| && r < |c.work| && Resolved(s.heap[r]))
    && (forall r :: r in s.collected ==> r < |s.heap| && r < |c.work| && Resolved(s.heap[r]))
    && (!s.threadExit ==> forall r :: 0 <= r < |s.heap| && r < |c.work| ==> !s.heap[r].isBreak)
  }

  /** Each worker that exited used up one break job. */
  ghost predicate BreaksOk(c: Config, s: State) {
    ExitedCount(s.workers) == if Taken(s) <= |c.work| then 0 else Taken(s) - |c.work|
  }

  /** The collected jobs with a given outcome. */
  ghost function Bin(s: State, o: Outcome): set<Ref>
    requires forall r :: r in s.collected ==> r < |s.heap|
  {
    set r | r in s.collected && Classify(s.heap[r]) == o
  }

  ghost predicate TallyOk(s: State) {
    && (forall r :: r in s.collected ==> r < |s.heap|)
    && s.tally.passed == |Bin(s, Pass)|
    && s.tally.failed == |Bin(s, Fail)|
    && s.tally.skipped == |Bin(s, Skip)|
    && s.tally.crashed == |Bin(s, Crash)|
    && s.tally.valgrind == |Bin(s, Valgrind)|
    && s.tally.passed + s.tally.failed + s.tally.skipped + s.tally.crashed + s.tally.valgrind
       + |Bin(s, Interrupted)| == |s.collected|
  }

  ghost predicate Inv(c: Config, s: State) {
    MainOk(c, s) && Fifo(s) && Once(s) && JobsOk(c, s) && BreaksOk(c, s) && TallyOk(s)
  }

  // ---------- Facts about the workers' hands ----------

  lemma {:induction false} HeldUpdate(ws: seq<Worker>, w: nat, x: Worker, r: Ref)
    requires w < |ws|
    ensures HeldBy(ws[w := x], r) + Holds(ws[w], r) == HeldBy(ws, r) + Holds(x, r)
    decreases |ws|
  {
    var last := |ws| - 1;
    if w == last {
      assert ws[w := x][..last] == ws[..last];
    } else {
      assert ws[w := x][..last] == ws[..last][w := x];
      HeldUpdate(ws[..last], w, x, r);
    }
  }

  lemma {:induction false} ExitedUpdate(ws: seq<Worker>, w: nat, x: Worker)
    requires w < |ws| && !ws[w].Exited?
    ensures ExitedCount(ws[w := x]) == ExitedCount(ws) + if x.Exited? then 1 else 0
    decreases |ws|
  {
    var last := |ws| - 1;
    if w == last {
      assert ws[w := x][..last] == ws[..last];
    } else {
      assert ws[w := x][..last] == ws[..last][w := x];
      ExitedUpdate(ws[..last], w, x);
    }
  }

  lemma {:induction false} HeldHas(ws: seq<Worker>, w: nat, r: Ref)
    requires w < |ws|
    ensures Holds(ws[w], r) <= HeldBy(ws, r)
    decreases |ws|
  {
    if w < |ws| - 1 { HeldHas(ws[..|ws| - 1], w, r); }
  }

  lemma {:induction false} HeldHasBoth(ws: seq<Worker>, v: nat, w: nat, r: Ref)
    requires v < |ws| && w < |ws| && v != w
    ensures Holds(ws[v], r) + Holds(ws[w], r) <= HeldBy(ws, r)
    decreases |ws|
  {
    var last := |ws| - 1;
    if v == last { HeldHas(ws[..last], w, r); }
    else if w == last { HeldHas(ws[..last], v, r); }
    else { HeldHasBoth(ws[..last], v, w, r); }
  }

  lemma {:induction false} NotHeld(ws: seq<Worker>, r: Ref)
    requires forall w :: 0 <= w < |ws| ==> Holds(ws[w], r) == 0
    ensures HeldBy(ws, r) == 0
  {
    if ws != [] { NotHeld(ws[..|ws| - 1], r); }
  }

  lemma {:induction false} AllExited(ws: seq<Worker>)
    ensures ExitedCount(ws) <= |ws|
    ensures ExitedCount(ws) == |ws| <==> forall w :: 0 <= w < |ws| ==> ws[w].Exited?
  {
    if ws != [] {
      var front := ws[..|ws| - 1];
      AllExited(front);
      if forall w :: 0 <= w < |front| ==> front[w].Exited? {
        assert forall w :: 0 <= w < |front| ==> ws[w].Exited?;
      } else {
        var w :| 0 <= w < |front| && !front[w].Exited?;
        assert !ws[w].Exited?;
      }
    }
  }

  lemma {:induction false} IdleAtStart(ws: seq<Worker>)
    requires forall w :: 0 <= w < |ws| ==> ws[w].Idle?
    ensures ExitedCount(ws) == 0
  {
    if ws != [] { IdleAtStart(ws[..|ws| - 1]); }
  }

  /** A job in a worker's hand is nowhere else: workers own what they hold. */
  lemma Owned(s: State, w: nat)
    requires Fifo(s) && Once(s) && w < |s.workers| && !s.workers[w].Idle?
    ensures s.workers[w].ref < Taken(s)
    ensures s.workers[w].ref !in s.output && s.workers[w].ref !in s.collected
    ensures forall v :: 0 <= v < |s.workers| && v != w && !s.workers[v].Idle? ==>
              s.workers[v].ref != s.workers[w].ref
  {
    var r := s.workers[w].ref;
    HeldHas(s.workers, w, r);
    assert Places(s, r) <= 1;
    forall v | 0 <= v < |s.workers| && v != w && !s.workers[v].Idle?
      ensures s.workers[v].ref != r
    {
      HeldHasBoth(s.workers, v, w, r);
    }
  }

  // ---------- Every step keeps the invariant ----------

  lemma InitInv(c: Config)
    ensures Inv(c, Init(c))
  {
    var s := Init(c);
    forall r: Ref ensures Places(s, r) == 0 { NotHeld(s.workers, r); }
    IdleAtStart(s.workers);
    assert forall o :: Bin(s, o) == {};
  }

  lemma MainKept(c: Config, s: State, a: Action)
    requires MainOk(c, s) && Enabled(c, s, a)
    ensures MainOk(c, Apply(c, s, a))
  {
    hide Count, Classify;
  }

  lemma FifoKept(c: Config, s: State, a: Action)
    requires Fifo(s) && Enabled(c, s, a)
    ensures Fifo(Apply(c, s, a))
  {}

  lemma OnceKept(c: Config, s: State, a: Action)
    requires Fifo(s) && Once(s) && Enabled(c, s, a)
    ensures Once(Apply(c, s, a))
  {
    var s' := Apply(c, s, a);
    forall r: Ref ensures Places(s', r) == if r < Taken(s') then 1 else 0 {
      assert Places(s, r) == if r < Taken(s) then 1 else 0;
      if ByWorker(a) {
        PlacesAfterWorker(c, s, a, r);
      } else {
        PlacesAfterMain(c, s, a, r);
      }
    }
  }

  predicate ByWorker(a: Action) { a.Get? || a.CheckFlag? || a.Finish? || a.Report? }

  lemma PlacesAfterWorker(c: Config, s: State, a: Action, r: Ref)
    requires Fifo(s) && Enabled(c, s, a) && ByWorker(a)
    ensures Places(Apply(c, s, a), r) == Places(s, r) + if a.Get? && r == Taken(s) then 1 else 0
    ensures Taken(Apply(c, s, a)) == Taken(s) + if a.Get? then 1 else 0
  {
    hide HeldBy;
    HeldUpdate(s.workers, a.w, Apply(c, s, a).workers[a.w], r);
    if a.Get? { assert s.input[0] == Taken(s); }
  }

  lemma PlacesAfterMain(c: Config, s: State, a: Action, r: Ref)
    requires Enabled(c, s, a) && !ByWorker(a)
    ensures Places(Apply(c, s, a), r) == Places(s, r)
    ensures Taken(Apply(c, s, a)) == Taken(s)
  {
    hide HeldBy, Count, Classify;
    if a.Collect? {
      assert s.output == [s.output[0]] + s.output[1..];
    }
  }

  lemma BreaksKept(c: Config, s: State, a: Action)
    requires Fifo(s) && JobsOk(c, s) && BreaksOk(c, s) && Enabled(c, s, a)
    ensures BreaksOk(c, Apply(c, s, a))
  {
    hide Count, Classify;
    var s' := Apply(c, s, a);
    if ByWorker(a) {
      ExitedUpdate(s.workers, a.w, s'.workers[a.w]);
      if a.Get? {
        var r := s.input[0];
        assert r == Taken(s);
      }
    }
  }

  lemma JobsKeptByMain(c: Config, s: State, a: Action)
    requires MainOk(c, s) && Fifo(s) && JobsOk(c, s) && Enabled(c, s, a)
    requires !ByWorker(a)
    ensures JobsOk(c, Apply(c, s, a))
  {
    hide Count, Classify, Range;
    var s' := Apply(c, s, a);
    if a.Collect? {
      assert forall r :: r in s'.output ==> r in s.output;
    } else if a.Dispatch? || a.PutBreak? {
      forall w | 0 <= w < |s.workers| ensures WorkerOk(c, s'.heap, s.workers[w]) {
        assert WorkerOk(c, s.heap, s.workers[w]);
      }
    }
  }

  lemma JobsKeptByHandOver(c: Config, s: State, a: Action)
    requires Fifo(s) && JobsOk(c, s) && Enabled(c, s, a) && (a.Get? || a.Report?)
    ensures JobsOk(c, Apply(c, s, a))
  {
    var s' := Apply(c, s, a);
    if a.Get? { assert s.input[0] == Taken(s); }
    assert WorkerOk(c, s.heap, s.workers[a.w]);
    forall v | 0 <= v < |s.workers| ensures WorkerOk(c, s'.heap, s'.workers[v]) {
      assert WorkerOk(c, s.heap, s.workers[v]);
    }
  }

  /** A worker changes only the job it holds, which nobody else can see. */
  lemma JobsKeptByExecution(c: Config, s: State, a: Action)
    requires JobsOk(c, s) && Enabled(c, s, a) && (a.CheckFlag? || a.Finish?)
    requires var r := s.workers[a.w].ref;
      && r < Taken(s) && r !in s.output && r !in s.collected
      && forall v :: 0 <= v < |s.workers| && v != a.w && !s.workers[v].Idle? ==> s.workers[v].ref != r
    ensures JobsOk(c, Apply(c, s, a))
  {
    var s' := Apply(c, s, a);
    assert WorkerOk(c, s.heap, s.workers[a.w]);
    forall v | 0 <= v < |s.workers| ensures WorkerOk(c, s'.heap, s'.workers[v]) {
      assert WorkerOk(c, s.heap, s.workers[v]);
    }
  }

  /** Collecting job r moves it into exactly one bin. */
  lemma BinGrows(s: State, s': State, r: Ref, o: Outcome)
    requires (forall q :: q in s.collected ==> q < |s.heap|) && r < |s.heap| && r !in s.collected
    requires s'.heap == s.heap && s'.collected == s.collected + [r]
    ensures forall q :: q in s'.collected ==> q < |s'.heap|
    ensures |Bin(s', o)| == |Bin(s, o)| + if Classify(s.heap[r]) == o then 1 else 0
  {
    hide Classify;
    if Classify(s.heap[r]) == o {
      assert Bin(s', o) == Bin(s, o) + {r};
    } else {
      assert Bin(s', o) == Bin(s, o);
    }
  }

  lemma CollectKeepsTally(s: State, s': State, r: Ref)
    requires TallyOk(s) && r < |s.heap| && r !in s.collected
    requires s'.heap == s.heap && s'.collected == s.collected + [r]
    requires s'.tally == Count(s.tally, Classify(s.heap[r]))
    ensures TallyOk(s')
  {
    hide Bin, Classify;
    BinGrows(s, s', r, Pass);
    BinGrows(s, s', r, Fail);
    BinGrows(s, s', r, Skip);
    BinGrows(s, s', r, Crash);
    BinGrows(s, s', r, Valgrind);
    BinGrows(s, s', r, Interrupted);
  }

  lemma OthersKeepTally(s: State, s': State)
    requires TallyOk(s) && s'.collected == s.collected && s'.tally == s.tally && |s.heap| <= |s'.heap|
    requires forall r :: r in s.collected ==> s'.heap[r] == s.heap[r]
    ensures TallyOk(s')
  {
    hide Classify;
    forall o: Outcome ensures Bin(s', o) == Bin(s, o) {}
  }

  lemma TallyKept(c: Config, s: State, a: Action)
    requires Fifo(s) && Once(s) && TallyOk(s) && Enabled(c, s, a)
    ensures TallyOk(Apply(c, s, a))
  {
    hide Bin, Classify, Count, HeldBy;
    var s' := Apply(c, s, a);
    if a.Collect? {
      var r := s.output[0];
      assert Places(s, r) <= 1;
      CollectKeepsTally(s, s', r);
    } else {
      if a.CheckFlag? || a.Finish? { Owned(s, a.w); }
      OthersKeepTally(s, s');
    }
  }

  /** Every state of every schedule satisfies the invariant. */
  lemma {:induction false} AlwaysInv(c: Config, schedule: seq<Action>)
    requires Legal(c, schedule)
    ensures Inv(c, After(c, schedule))
    decreases |schedule|
  {
    if schedule == [] {
      InitInv(c);
    } else {
      var before := schedule[..|schedule| - 1];
      AlwaysInv(c, before);
      StepInv(c, After(c, before), schedule[|schedule| - 1]);
    }
  }

  lemma StepInv(c: Config, s: State, a: Action)
    requires Inv(c, s) && Enabled(c, s, a)
    ensures Inv(c, Apply(c, s, a))
  {
    hide MainOk, Once, JobsOk, BreaksOk, TallyOk, Apply;
    MainKept(c, s, a);
    FifoKept(c, s, a);
    OnceKept(c, s, a);
    if a.CheckFlag? || a.Finish? {
      Owned(s, a.w);
      JobsKeptByExecution(c, s, a);
    } else if ByWorker(a) {
      JobsKeptByHandOver(c, s, a);
    } else {
      JobsKeptByMain(c, s, a);
    }
    BreaksKept(c, s, a);
    TallyKept(c, s, a);
  }

  // ---------- Exactly-once delivery ----------

  ghost function Refs(s: seq<Ref>): set<Ref> { set r | r in s }

  lemma {:induction false} DistinctSize(s: seq<Ref>)
    requires forall r: Ref :: multiset(s)[r] <= 1
    ensures |Refs(s)| == |s|
  {
    if s != [] {
      var front: seq<Ref>, last: Ref := s[..|s| - 1], s[|s| - 1];
      assert s == front + [last];
      forall r: Ref ensures multiset(front)[r] <= 1 { assert multiset(s)[r] <= 1; }
      DistinctSize(front);
      assert multiset(s)[last] <= 1;
      assert Refs(s) == Refs(front) + {last};
    }
  }

  lemma SubsetOfSameSize<T>(a: set<T>, b: set<T>)
    requires a <= b && |a| == |b|
    ensures a == b
  {
    assert |b - a| == |b| - |a|;
  }

  /** Distinct references below n, n of them: every one of them occurs. */
  lemma AllCollected(s: State, n: nat)
    requires Once(s) && |s.collected| == n && forall r :: r in s.collected ==> r < n
    ensures Refs(s.collected) == Below(n)
    ensures forall r: Ref :: multiset(s.collected)[r] == if r < n then 1 else 0
  {
    forall r: Ref ensures multiset(s.collected)[r] <= 1 { assert Places(s, r) <= 1; }
    DistinctSize(s.collected);
    SubsetOfSameSize(Refs(s.collected), Below(n));
    forall r: Ref ensures multiset(s.collected)[r] == if r < n then 1 else 0 {
      assert r in s.collected <==> r in Refs(s.collected);
    }
  }

  /** Where a real job is, at any moment of any schedule: in the dispatcher's
      list, in the input queue, or in exactly one of the other places. */
  lemma ExactlyOnePlace(c: Config, schedule: seq<Action>, r: Ref)
    requires Legal(c, schedule) && r < |c.work|
    ensures var s := After(c, schedule);
            (if |s.heap| <= r then 1 else 0) + multiset(s.input)[r] + Places(s, r) == 1
  {
    AlwaysInv(c, schedule);
    var s := After(c, schedule);
    assert Places(s, r) == if r < Taken(s) then 1 else 0;
    InputCount(s, r);
  }

  lemma InputCount(s: State, r: Ref)
    requires Fifo(s)
    ensures multiset(s.input)[r] == if Taken(s) <= r < |s.heap| then 1 else 0
  {
    RangeCount(Taken(s), |s.heap|, r);
  }

  lemma {:induction false} RangeCount(lo: nat, hi: nat, r: Ref)
    requires lo <= hi
    ensures multiset(Range(lo, hi))[r] == if lo <= r < hi then 1 else 0
    decreases hi
  {
    if lo < hi {
      RangeCount(lo, hi - 1, r);
      assert Range(lo, hi) == Range(lo, hi - 1) + [hi - 1];
    }
  }

  lemma HeadIsMember(q: seq<Ref>)
    ensures q != [] ==> q[0] in q
  {}

  /** When the driver returns, the collector has received each dispatched job
      exactly once and nothing else, both queues are empty and all workers have
      exited. */
  lemma DeliveredExactlyOnce(c: Config, schedule: seq<Action>)
    requires Legal(c, schedule) && After(c, schedule).main.Done?
    ensures var s := After(c, schedule);
      && (forall r: Ref :: multiset(s.collected)[r] == if r < |c.work| then 1 else 0)
      && s.input == [] && s.output == []
      && (forall w :: 0 <= w < |s.workers| ==> s.workers[w].Exited?)
      && |c.work| <= |s.heap|
      && (forall r :: 0 <= r < |c.work| ==>
            s.heap[r].name == c.work[r].name && s.heap[r].isSkip == c.work[r].isSkip && Resolved(s.heap[r]))
  {
    AlwaysInv(c, schedule);
    var s := After(c, schedule);
    AllCollected(s, |c.work|);
    forall r: Ref ensures r !in s.output && r !in s.input {
      assert Places(s, r) == if r < Taken(s) then 1 else 0;
      AllExited(s.workers);
    }
    HeadIsMember(s.output);
    HeadIsMember(s.input);
    forall r | 0 <= r < |c.work| ensures Resolved(s.heap[r]) {
      assert multiset(s.collected)[r] == 1;
      assert r in s.collected;
    }
  }

  /** A worker can take a break job only after every real job has been both
      dispatched and taken from the queue. */
  lemma BreaksComeLast(c: Config, schedule: seq<Action>, w: nat)
    requires Legal(c, schedule + [Get(w)])
    requires After(c, schedule + [Get(w)]).workers[w].Exited?
    ensures Legal(c, schedule)
    ensures var s := After(c, schedule); s.jobs == |c.work| && forall r :: r in s.input ==> |c.work| <= r
  {
    assert (schedule + [Get(w)])[..|schedule|] == schedule;
    AlwaysInv(c, schedule);
    var s := After(c, schedule);
    assert s.input[0] == Taken(s);
    assert s.heap[s.input[0]].isBreak;
  }

  // ---------- Progress ----------

  /** Steps still owed to a job in a worker's hands. */
  ghost function Owed(w: Worker): nat {
    match w
    case Got(_) => 4
    case Executing(_) => 3
    case Reporting(_) => 2
    case Idle => 0
    case Exited(_) => 0
  }

  ghost function OwedAll(ws: seq<Worker>): nat {
    if ws == [] then 0 else OwedAll(ws[..|ws| - 1]) + Owed(ws[|ws| - 1])
  }

  lemma {:induction false} OwedUpdate(ws: seq<Worker>, w: nat, x: Worker)
    requires w < |ws|
    ensures OwedAll(ws[w := x]) + Owed(ws[w]) == OwedAll(ws) + Owed(x)
    decreases |ws|
  {
    var last := |ws| - 1;
    if w == last {
      assert ws[w := x][..last] == ws[..last];
    } else {
      assert ws[w := x][..last] == ws[..last][w := x];
      OwedUpdate(ws[..last], w, x);
    }
  }

  ghost function PhaseRank(c: Config, m: MainThread): int {
    match m
    case Dispatching => c.processors + 4
    case Breaking => c.processors + 3
    case Collecting => c.processors + 2
    case Joining(k) => c.processors - k + 1
    case Done => 0
  }

  /** An upper bound on the steps left in a state. */
  ghost function StepsLeft(c: Config, s: State): int {
    (if s.threadExit then 0 else 1) + 6 * (|c.work| + c.processors - |s.heap|) + 5 * |s.input|
    + OwedAll(s.workers) + |s.output| + PhaseRank(c, s.main)
  }

  lemma EachStepCounts(c: Config, s: State, a: Action)
    requires MainOk(c, s) && Enabled(c, s, a)
    ensures StepsLeft(c, Apply(c, s, a)) < StepsLeft(c, s)
  {
    var s' := Apply(c, s, a);
    if ByWorker(a) {
      OwedUpdate(s.workers, a.w, s'.workers[a.w]);
    }
  }

  lemma {:induction false} NothingOwedAtStart(ws: seq<Worker>)
    requires forall w :: 0 <= w < |ws| ==> ws[w].Idle?
    ensures OwedAll(ws) == 0
  {
    if ws != [] { NothingOwedAtStart(ws[..|ws| - 1]); }
  }

  /** No schedule goes on for ever: whatever the interleaving, the driver takes
      at most 6 steps per job, 7 per processor and 5 of its own. */
  lemma {:induction false} EveryScheduleEnds(c: Config, schedule: seq<Action>)
    requires Legal(c, schedule)
    ensures |schedule| + StepsLeft(c, After(c, schedule)) <= 6 * |c.work| + 7 * c.processors + 5
    ensures |schedule| <= 6 * |c.work| + 7 * c.processors + 5
    decreases |schedule|
  {
    AlwaysInv(c, schedule);
    if schedule == [] {
      NothingOwedAtStart(Init(c).workers);
    } else {
      var before := schedule[..|schedule| - 1];
      EveryScheduleEnds(c, before);
      AlwaysInv(c, before);
      EachStepCounts(c, After(c, before), schedule[|schedule| - 1]);
    }
  }

  ghost predicate Stuck(c: Config, s: State) {
    !s.main.Done? && forall a :: !Enabled(c, s, a) || a.Interrupt?
  }

  lemma WorkerCanMove(c: Config, s: State, w: nat)
    requires Inv(c, s) && w < |s.workers|
    requires s.workers[w].Got? || s.workers[w].Executing? || s.workers[w].Reporting?
    ensures !Stuck(c, s)
  {
    assert WorkerOk(c, s.heap, s.workers[w]);
    match s.workers[w]
    case Got(_) => assert Enabled(c, s, CheckFlag(w));
    case Executing(_) => assert Enabled(c, s, Finish(w, 0));
    case Reporting(_) => assert Enabled(c, s, Report(w));
  }

  /** A worker that has not exited still finds a job in the input queue. */
  lemma IdleCanMove(c: Config, s: State, w: nat)
    requires Inv(c, s) && |s.heap| == |c.work| + c.processors
    requires w < |s.workers| && s.workers[w].Idle?
    ensures !Stuck(c, s)
  {
    AllExited(s.workers);
    assert s.input != [];
    assert Enabled(c, s, Get(w));
  }

  lemma CollectedCount(c: Config, s: State, r: Ref)
    requires Once(s) && JobsOk(c, s) && s.output == [] && |c.work| <= Taken(s)
    requires forall w :: 0 <= w < |s.workers| ==> s.workers[w].Exited?
    ensures multiset(s.collected)[r] == if r < |c.work| then 1 else 0
  {
    if r < |c.work| {
      forall w | 0 <= w < |s.workers| ensures Holds(s.workers[w], r) == 0 {
        assert WorkerOk(c, s.heap, s.workers[w]);
      }
      NotHeld(s.workers, r);
      assert Places(s, r) == 1;
    } else {
      assert r !in s.collected;
    }
  }

  /** With all workers gone and the output queue empty everything is collected. */
  lemma NothingLeftBehind(c: Config, s: State)
    requires Once(s) && JobsOk(c, s) && s.output == [] && |c.work| <= Taken(s)
    requires forall w :: 0 <= w < |s.workers| ==> s.workers[w].Exited?
    ensures |s.collected| == |c.work|
  {
    forall r: Ref ensures multiset(s.collected)[r] == if r < |c.work| then 1 else 0 {
      CollectedCount(c, s, r);
    }
    DistinctSize(s.collected);
    forall r: Ref ensures r in Refs(s.collected) <==> r in Below(|c.work|) {
      assert r in s.collected <==> multiset(s.collected)[r] > 0;
    }
    assert Refs(s.collected) == Below(|c.work|);
  }

  /** With a worker, or with nothing to do, the driver never hangs. */
  lemma NeverStuck(c: Config, s: State)
    requires Inv(c, s) && (c.processors > 0 || c.work == [])
    ensures !Stuck(c, s)
  {
    if w :| 0 <= w < |s.workers| && !s.workers[w].Idle? && !s.workers[w].Exited? {
      WorkerCanMove(c, s, w);
    } else {
      match s.main
      case Dispatching => assert Enabled(c, s, Dispatch) || Enabled(c, s, EndDispatch);
      case Breaking => assert Enabled(c, s, PutBreak) || Enabled(c, s, EndBreaks);
      case Joining(k) =>
        if k < |s.workers| && s.workers[k].Idle? {
          IdleCanMove(c, s, k);
        } else {
          assert Enabled(c, s, Join) || Enabled(c, s, Return);
        }
      case Collecting =>
        if |s.collected| >= s.jobs {
          assert Enabled(c, s, EndCollect);
        } else if s.output != [] {
          assert s.output[0] in s.output;
          assert Enabled(c, s, Collect);
        } else if w :| 0 <= w < |s.workers| && s.workers[w].Idle? {
          IdleCanMove(c, s, w);
        } else {
          AllExited(s.workers);
          NothingLeftBehind(c, s);
        }
      case Done =>
    }
  }

  /** The steps by which the dispatcher hands out the first k jobs. */
  ghost function DispatchOnly(k: nat): seq<Action> { seq(k, i => Dispatch) }

  lemma {:induction false} DispatchOnlyReaches(c: Config, k: nat)
    requires k <= |c.work|
    ensures Legal(c, DispatchOnly(k))
    ensures var s := After(c, DispatchOnly(k)); s.main.Dispatching? && s.jobs == k
  {
    if k > 0 {
      assert DispatchOnly(k)[..k - 1] == DispatchOnly(k - 1);
      DispatchOnlyReaches(c, k - 1);
    }
  }

  lemma Extend(c: Config, schedule: seq<Action>, a: Action)
    requires Legal(c, schedule) && Enabled(c, After(c, schedule), a)
    ensures Legal(c, schedule + [a])
    ensures After(c, schedule + [a]) == Apply(c, After(c, schedule), a)
  {
    assert (schedule + [a])[..|schedule|] == schedule;
  }

  /** Without workers the collector waits for ever for the first job.  A negative
      process limit passes the driver's checks and starts none. */
  lemma HangsWithoutWorkers(c: Config) returns (schedule: seq<Action>)
    requires c.processors == 0 && c.work != []
    ensures Legal(c, schedule) && Stuck(c, After(c, schedule))
  {
    schedule := DispatchOnly(|c.work|);
    DispatchOnlyReaches(c, |c.work|);
    AlwaysInv(c, schedule);
    Extend(c, schedule, EndDispatch);
    Extend(c, schedule + [EndDispatch], EndBreaks);
    schedule := schedule + [EndDispatch] + [EndBreaks];
    AlwaysInv(c, schedule);
    var s := After(c, schedule);
    NoWorkerNoOutput(c, schedule);
    assert s.output == [];
  }

  lemma {:induction false} NoWorkerNoOutput(c: Config, schedule: seq<Action>)
    requires c.processors == 0 && Legal(c, schedule)
    ensures var s := After(c, schedule); s.workers == [] && s.output == [] && s.collected == []
    decreases |schedule|
  {
    hide Enabled;
    if schedule != [] {
      NoWorkerNoOutput(c, schedule[..|schedule| - 1]);
      NoWorkerStep(c, After(c, schedule[..|schedule| - 1]), schedule[|schedule| - 1]);
    }
  }

  lemma NoWorkerStep(c: Config, s: State, a: Action)
    requires Enabled(c, s, a) && s.workers == [] && s.output == [] && s.collected == []
    ensures var s' := Apply(c, s, a); s'.workers == [] && s'.output == [] && s'.collected == []
  {}

  ghost predicate NoHangAfter(c: Config, schedule: seq<Action>) {
    Legal(c, schedule) ==> !Stuck(c, After(c, schedule))
  }

  /** Deadlock freedom, exactly: no schedule leads to a hang if and only if
      there is at least one worker or nothing to run. */
  lemma DeadlockFreeExactlyWhen(c: Config)
    ensures (forall schedule :: NoHangAfter(c, schedule)) <==> (c.processors > 0 || c.work == [])
  {
    if c.processors > 0 || c.work == [] {
      forall schedule ensures NoHangAfter(c, schedule) {
        if Legal(c, schedule) {
          AlwaysInv(c, schedule);
          NeverStuck(c, After(c, schedule));
        }
      }
    } else {
      var hang := HangsWithoutWorkers(c);
      assert !NoHangAfter(c, hang);
    }
  }

  // ---------- Counts and verdict ----------

  /** The jobs of a finished run with a given outcome, by job and not by order
      of arrival. */
  ghost function WithOutcome(c: Config, s: State, o: Outcome): set<Ref>
    requires |c.work| <= |s.heap|
  {
    set r | r in Below(|c.work|) && Classify(s.heap[r]) == o
  }

  /** At the end every counter is the number of jobs with that outcome; with the
      interrupted ones, which no counter sees, they add up to total_tests. */
  lemma CountsAddUp(c: Config, schedule: seq<Action>)
    requires Legal(c, schedule) && After(c, schedule).main.Done?
    ensures var s := After(c, schedule);
      && |c.work| <= |s.heap| && s.totalTests == |c.work|
      && s.tally.passed == |WithOutcome(c, s, Pass)|
      && s.tally.failed == |WithOutcome(c, s, Fail)|
      && s.tally.skipped == |WithOutcome(c, s, Skip)|
      && s.tally.crashed == |WithOutcome(c, s, Crash)|
      && s.tally.valgrind == |WithOutcome(c, s, Valgrind)|
      && s.tally.passed + s.tally.failed + s.tally.skipped + s.tally.crashed + s.tally.valgrind
         + |WithOutcome(c, s, Interrupted)| == s.totalTests
  {
    AlwaysInv(c, schedule);
    var s := After(c, schedule);
    AllCollected(s, |c.work|);
    forall o: Outcome ensures WithOutcome(c, s, o) == Bin(s, o) {
      assert forall r: Ref :: r in Refs(s.collected) <==> r in s.collected;
    }
  }

  /** A job that counts towards success: not interrupted, and skipped or really
      executed with exit status 0. */
  ghost predicate Good(j: Job) {
    !j.isBreak && (j.isSkip || (j.ran && j.returncode == 0))
  }

  lemma GoodJobs(c: Config, s: State)
    requires |c.work| <= |s.heap| && forall r :: 0 <= r < |c.work| ==> Resolved(s.heap[r])
    ensures |WithOutcome(c, s, Pass)| + |WithOutcome(c, s, Skip)| == |c.work|
            <==> forall r :: 0 <= r < |c.work| ==> Good(s.heap[r])
  {
    var pass, skip := WithOutcome(c, s, Pass), WithOutcome(c, s, Skip);
    assert |pass + skip| == |pass| + |skip| by { assert pass !! skip; }
    assert forall r: Ref :: r < |c.work| ==> (r in pass + skip <==> Good(s.heap[r]));
    assert pass + skip <= Below(|c.work|);
    if forall r :: 0 <= r < |c.work| ==> Good(s.heap[r]) {
      assert pass + skip == Below(|c.work|);
    } else if |pass + skip| == |c.work| {
      SubsetOfSameSize(pass + skip, Below(|c.work|));
    }
  }

  /** The driver returns 0 exactly when every job was good. */
  lemma VerdictExact(c: Config, schedule: seq<Action>)
    requires Legal(c, schedule) && After(c, schedule).main.Done?
    ensures var s := After(c, schedule);
      |c.work| <= |s.heap| && (Verdict(s) == 0 <==> forall r :: 0 <= r < |c.work| ==> Good(s.heap[r]))
  {
    CountsAddUp(c, schedule);
    DeliveredExactlyOnce(c, schedule);
    GoodJobs(c, After(c, schedule));
  }

  // ---------- Interruption ----------

  /** No worker has looked at thread_exit on behalf of this job yet. */
  ghost predicate Unchecked(s: State, r: Ref) {
    |s.heap| <= r || r in s.input || exists w :: 0 <= w < |s.workers| && s.workers[w] == Got(r)
  }

  ghost predicate GivenUp(s: State, r: Ref) {
    r < |s.heap| && s.heap[r].isBreak && !s.heap[r].ran
  }

  lemma StaysUnexecuted(c: Config, s: State, a: Action, r: Ref)
    requires Fifo(s) && JobsOk(c, s) && Enabled(c, s, a) && s.threadExit && r < |c.work|
    requires Unchecked(s, r) || GivenUp(s, r)
    ensures var s' := Apply(c, s, a); s'.threadExit && (Unchecked(s', r) || GivenUp(s', r))
  {
    hide Count, Classify;
    var s' := Apply(c, s, a);
    if Unchecked(s, r) {
      if |s.heap| <= r {
        if a.Dispatch? && |s.heap| == r { assert s'.input[|s.input|] == r; }
      } else if r in s.input {
        if a.Get? && s.input[0] == r {
          assert s.input[0] == Taken(s) && Untouched(s.heap[r]);
          assert s'.workers[a.w] == Got(r);
        } else {
          assert r in s'.input;
        }
      } else {
        var w :| 0 <= w < |s.workers| && s.workers[w] == Got(r);
        assert WorkerOk(c, s.heap, s.workers[w]);
        if a == CheckFlag(w) {
          assert GivenUp(s', r);
        } else {
          assert s'.workers[w] == Got(r);
        }
      }
    } else if a.Finish? {
      assert WorkerOk(c, s.heap, s.workers[a.w]);
    }
  }

  /** Once the flag is up, every job not checked before comes back unexecuted:
      at any later moment it has not run, and when the driver has returned it was
      handed back as interrupted. */
  lemma {:induction false} InterruptStopsWork(c: Config, before: seq<Action>, later: seq<Action>, r: Ref)
    requires Legal(c, before + later) && r < |c.work|
    ensures Legal(c, before)
    ensures After(c, before).threadExit && Unchecked(After(c, before), r) ==>
      var s := After(c, before + later);
      && s.threadExit && (Unchecked(s, r) || GivenUp(s, r))
      && (s.main.Done? ==> GivenUp(s, r) && Classify(s.heap[r]) == Interrupted)
    decreases |later|
  {
    if later == [] {
      assert before + later == before;
    } else {
      var front, a := later[..|later| - 1], later[|later| - 1];
      assert (before + later)[..|before + later| - 1] == before + front;
      InterruptStopsWork(c, before, front, r);
      AlwaysInv(c, before + front);
      if After(c, before).threadExit && Unchecked(After(c, before), r) {
        StaysUnexecuted(c, After(c, before + front), a, r);
      }
    }
    if After(c, before + later).main.Done? {
      DeliveredExactlyOnce(c, before + later);
    }
  }

  /** Conversely, without the flag nothing is ever interrupted. */
  lemma NoInterruptNoLoss(c: Config, schedule: seq<Action>, r: Ref)
    requires Legal(c, schedule) && r < |c.work|
    requires After(c, schedule).main.Done? && !After(c, schedule).threadExit
    ensures var s := After(c, schedule);
      r < |s.heap| && Classify(s.heap[r]) != Interrupted && (c.work[r].isSkip <==> !s.heap[r].ran)
  {
    AlwaysInv(c, schedule);
    DeliveredExactlyOnce(c, schedule);
    assert Resolved(After(c, schedule).heap[r]);
  }

  // ---------- How much still runs after the flag is up ----------

  ghost function ExecutingCount(ws: seq<Worker>): nat {
    if ws == [] then 0 else ExecutingCount(ws[..|ws| - 1]) + if ws[|ws| - 1].Executing? then 1 else 0
  }

  /** The job executions that end in a schedule. */
  ghost function Finishes(schedule: seq<Action>): nat {
    if schedule == [] then 0
    else Finishes(schedule[..|schedule| - 1]) + if schedule[|schedule| - 1].Finish? then 1 else 0
  }

  lemma {:induction false} ExecutingUpdate(ws: seq<Worker>, w: nat, x: Worker)
    requires w < |ws|
    ensures ExecutingCount(ws[w := x]) + (if ws[w].Executing? then 1 else 0)
            == ExecutingCount(ws) + if x.Executing? then 1 else 0
    decreases |ws|
  {
    var last := |ws| - 1;
    if w == last {
      assert ws[w := x][..last] == ws[..last];
    } else {
      assert ws[w := x][..last] == ws[..last][w := x];
      ExecutingUpdate(ws[..last], w, x);
    }
  }

  lemma {:induction false} ExecutingAtMost(ws: seq<Worker>)
    ensures ExecutingCount(ws) <= |ws|
  {
    if ws != [] { ExecutingAtMost(ws[..|ws| - 1]); }
  }

  /** With the flag up no execution starts, and each Finish ends one. */
  lemma ExecutingStep(c: Config, s: State, a: Action)
    requires Enabled(c, s, a) && s.threadExit
    ensures var s' := Apply(c, s, a);
      s'.threadExit && ExecutingCount(s'.workers) + (if a.Finish? then 1 else 0) == ExecutingCount(s.workers)
  {
    hide Count, Classify;
    if ByWorker(a) { ExecutingUpdate(s.workers, a.w, Apply(c, s, a).workers[a.w]); }
  }

  /** Once the flag is up, the executions that still end are those of workers that
      were executing then, so there are at most as many as processors; when the
      driver returns all of them have ended. */
  lemma {:induction false} FewExecutionsAfterInterrupt(c: Config, before: seq<Action>, later: seq<Action>)
    requires Legal(c, before + later)
    ensures Legal(c, before)
    ensures After(c, before).threadExit ==>
      var s, t := After(c, before), After(c, before + later);
      && t.threadExit
      && Finishes(later) + ExecutingCount(t.workers) == ExecutingCount(s.workers) <= c.processors
      && (t.main.Done? ==> Finishes(later) == ExecutingCount(s.workers))
    decreases |later|
  {
    hide Enabled, Apply;
    if later == [] {
      assert before + later == before;
      AlwaysInv(c, before);
      ExecutingAtMost(After(c, before).workers);
    } else {
      var front, a := later[..|later| - 1], later[|later| - 1];
      assert (before + later)[..|before + later| - 1] == before + front;
      FewExecutionsAfterInterrupt(c, before, front);
      if After(c, before).threadExit { ExecutingStep(c, After(c, before + front), a); }
    }
    if After(c, before + later).main.Done? {
      DeliveredExactlyOnce(c, before + later);
      NoneExecuting(After(c, before + later).workers);
    }
  }

  lemma {:induction false} NoneExecuting(ws: seq<Worker>)
    requires forall w :: 0 <= w < |ws| ==> ws[w].Exited?
    ensures ExecutingCount(ws) == 0
  {
    if ws != [] { NoneExecuting(ws[..|ws| - 1]); }
  }
}
