/** test.py's driver as mutable state: each method is one atomic block of the
main thread, of a worker thread or of the signal handler, and updates the shared
fields in place.  The ghost schedule ties every object state to WorkerPool. */
module TestDriver {
  import opened Wrappers
  import opened WorkerPool
  import opened WorkerCodes

  class Driver {
    const config: Config

    var main: MainThread
    var heap: seq<Job>
    var inputQueue: seq<Ref>
    var outputQueue: seq<Ref>
    var workers: seq<Worker>
    var collected: seq<Ref>
    var jobs: nat
    var totalTests: nat
    var passed: nat
    var failed: nat
    var skipped: nat
    var crashed: nat
    var valgrindErrors: nat
    var threadExit: bool
    ghost var schedule: seq<Action>

    ghost function View(): State
      reads this
    {
      State(main, heap, inputQueue, outputQueue, workers, collected, jobs, totalTests,
            Tally(passed, failed, skipped, crashed, valgrindErrors), threadExit)
    }

    ghost predicate Valid()
      reads this
    {
      Legal(config, schedule) && View() == After(config, schedule)
    }

    ghost predicate Can(a: Action)
      reads this
    {
      Enabled(config, View(), a)
    }

    constructor (work: seq<JobSpec>, processors: nat)
      ensures Valid() && config == Config(work, processors) && schedule == []
    {
      config := Config(work, processors);
      main, heap, inputQueue, outputQueue, collected := Dispatching, [], [], [], [];
      workers := seq(processors, i => Idle);
      jobs, totalTests, passed, failed, skipped, crashed, valgrindErrors := 0, 0, 0, 0, 0, 0, 0;
      threadExit := false;
      schedule := [];
    }

    /** Record the step just taken. */
    ghost method Took(a: Action, before: State)
      requires Legal(config, schedule) && After(config, schedule) == before
      requires Enabled(config, before, a) && View() == Apply(config, before, a)
      modifies this`schedule
      ensures Valid() && schedule == old(schedule) + [a]
    {
      Extend(config, schedule, a);
      schedule := schedule + [a];
    }

    method DispatchJob()
      requires Valid() && Can(Dispatch)
      modifies this
      ensures Valid() && schedule == old(schedule) + [Dispatch]
    {
      hide Legal, After;
      ghost var before := View();
      inputQueue := inputQueue + [|heap|];
      heap := heap + [NewJob(config.work[jobs])];
      jobs := jobs + 1;
      totalTests := totalTests + 1;
      Took(Dispatch, before);
    }

    method PutBreakJob()
      requires Valid() && Can(PutBreak)
      modifies this
      ensures Valid() && schedule == old(schedule) + [PutBreak]
    {
      hide Legal, After;
      ghost var before := View();
      inputQueue := inputQueue + [|heap|];
      heap := heap + [BREAK_JOB];
      Took(PutBreak, before);
    }

    /** The main thread leaves one of its loops. */
    method NextPhase(a: Action)
      requires a in {EndDispatch, EndBreaks, EndCollect, Return}
      requires Valid() && Can(a)
      modifies this
      ensures Valid() && schedule == old(schedule) + [a]
    {
      hide Legal, After;
      ghost var before := View();
      match a {
        case EndDispatch => main := Breaking;
        case EndBreaks => main := Collecting;
        case EndCollect => main := Joining(0);
        case Return => main := Done;
      }
      Took(a, before);
    }

    method CollectJob()
      requires Valid() && Can(Collect)
      modifies this
      ensures Valid() && schedule == old(schedule) + [Collect]
    {
      hide Legal, After;
      ghost var before := View();
      var r := outputQueue[0];
      outputQueue := outputQueue[1..];
      collected := collected + [r];
      var job := heap[r];
      if !job.isBreak {
        if job.isSkip {
          skipped := skipped + 1;
        } else if job.returncode == 0 {
          passed := passed + 1;
        } else if job.returncode == 1 {
          failed := failed + 1;
        } else if job.returncode == 2 {
          valgrindErrors := valgrindErrors + 1;
        } else {
          crashed := crashed + 1;
        }
      }
      Took(Collect, before);
    }

    method JoinThread()
      requires Valid() && Can(Join)
      modifies this
      ensures Valid() && schedule == old(schedule) + [Join]
    {
      hide Legal, After;
      ghost var before := View();
      main := Joining(main.joined + 1);
      Took(Join, before);
    }

    method WorkerGet(w: nat)
      requires Valid() && Can(Get(w))
      modifies this
      ensures Valid() && schedule == old(schedule) + [Get(w)]
    {
      hide Legal, After;
      ghost var before := View();
      var r := inputQueue[0];
      inputQueue := inputQueue[1..];
      if heap[r].isBreak {
        workers := workers[w := Exited(r)];
      } else {
        workers := workers[w := Got(r)];
      }
      Took(Get(w), before);
    }

    method WorkerCheckFlag(w: nat)
      requires Valid() && Can(CheckFlag(w))
      modifies this
      ensures Valid() && schedule == old(schedule) + [CheckFlag(w)]
    {
      hide Legal, After;
      ghost var before := View();
      var r := workers[w].ref;
      if threadExit {
        heap := heap[r := heap[r].(isBreak := true)];
        workers := workers[w := Reporting(r)];
      } else if heap[r].isSkip {
        workers := workers[w := Reporting(r)];
      } else {
        workers := workers[w := Executing(r)];
      }
      Took(CheckFlag(w), before);
    }

    method WorkerFinish(w: nat, code: int)
      requires Valid() && Can(Finish(w, code))
      modifies this
      ensures Valid() && schedule == old(schedule) + [Finish(w, code)]
      ensures var r := old(workers[w]).ref; r < |heap| && heap[r].ran && heap[r].returncode == code
    {
      hide Legal, After;
      ghost var before := View();
      var r := workers[w].ref;
      heap := heap[r := heap[r].(returncode := code, ran := true)];
      workers := workers[w := Reporting(r)];
      Took(Finish(w, code), before);
    }

    method WorkerReport(w: nat)
      requires Valid() && Can(Report(w))
      modifies this
      ensures Valid() && schedule == old(schedule) + [Report(w)]
    {
      hide Legal, After;
      ghost var before := View();
      outputQueue := outputQueue + [workers[w].ref];
      workers := workers[w := Idle];
      Took(Report(w), before);
    }

    method SigintHook()
      requires Valid() && Can(Interrupt)
      modifies this
      ensures Valid() && schedule == old(schedule) + [Interrupt]
    {
      hide Legal, After;
      ghost var before := View();
      threadExit := true;
      Took(Interrupt, before);
    }

    method Perform(a: Action)
      requires Valid() && Can(a)
      modifies this
      ensures Valid() && schedule == old(schedule) + [a]
    {
      match a
      case Dispatch => DispatchJob();
      case PutBreak => PutBreakJob();
      case Collect => CollectJob();
      case Join => JoinThread();
      case Get(w) => WorkerGet(w);
      case CheckFlag(w) => WorkerCheckFlag(w);
      case Finish(w, code) => WorkerFinish(w, code);
      case Report(w) => WorkerReport(w);
      case Interrupt => SigintHook();
      case _ => NextPhase(a);
    }

    /** The whole driver under any scheduler that picks possible steps: it
        terminates, every job is collected exactly once, and the result is 0
        exactly when every job was good. */
    method RunTests(pick: State -> Action) returns (status: int)
      requires Valid() && schedule == [] && (config.processors > 0 || config.work == [])
      requires forall s :: (exists a :: Enabled(config, s, a)) ==> Enabled(config, s, pick(s))
      modifies this
      ensures Valid() && main.Done? && inputQueue == [] && outputQueue == []
      ensures forall r: Ref :: multiset(collected)[r] == if r < |config.work| then 1 else 0
      ensures |config.work| <= |heap|
      ensures status == 0 <==> forall r :: 0 <= r < |config.work| ==> Good(heap[r])
      ensures status == 0 <==> AllReturnedZero(config, schedule)
      ensures passed == |ReturnedJobs(config, schedule, 0)| && failed == |ReturnedJobs(config, schedule, 1)|
      ensures valgrindErrors == |ReturnedJobs(config, schedule, 2)| && crashed == |CrashedJobs(config, schedule)|
      ensures skipped == |SkippedJobs(config, schedule)|
      ensures collected == Reports(config, schedule)
    {
      while !main.Done?
        invariant Valid()
        decreases StepsLeft(config, View()) + 1
      {
        hide Legal, After;
        ghost var before := View();
        AlwaysInv(config, schedule);
        NeverStuck(config, before);
        var now := State(main, heap, inputQueue, outputQueue, workers, collected, jobs, totalTests,
                         Tally(passed, failed, skipped, crashed, valgrindErrors), threadExit);
        EachStepCounts(config, before, pick(now));
        Extend(config, schedule, pick(now));
        Perform(pick(now));
        AlwaysInv(config, schedule);
      }
      DeliveredExactlyOnce(config, schedule);
      VerdictExact(config, schedule);
      VerdictByCode(config, schedule);
      CountsByCode(config, schedule);
      OutputIsFifo(config, schedule);
      status := if passed + skipped == totalTests then 0 else 1;
    }
  }
}
