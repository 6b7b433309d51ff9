/** The worker pool's counters and verdict, read off the schedule itself: which job
executions ended, and with which codes. */
module WorkerCodes {
  import opened Wrappers
  import opened WorkerPool

  // ---------- What a schedule says about a job ----------

  /** The code that the execution of job r returned in this schedule, if any did. */
  ghost function FinishCode(c: Config, schedule: seq<Action>, r: Ref): Option<int>
    requires Legal(c, schedule)
    decreases |schedule|
  {
    if schedule == [] then None
    else
      var front, a := schedule[..|schedule| - 1], schedule[|schedule| - 1];
      if a.Finish? && After(c, front).workers[a.w] == Executing(r) then Some(a.code) else FinishCode(c, front, r)
  }

  /** A worker looked at the flag for job r after a signal had raised it. */
  ghost predicate Flagged(c: Config, schedule: seq<Action>, r: Ref)
    requires Legal(c, schedule)
    decreases |schedule|
  {
    schedule != [] &&
    var front, a := schedule[..|schedule| - 1], schedule[|schedule| - 1];
    Flagged(c, front, r) || (a.CheckFlag? && Interrupt in front && After(c, front).workers[a.w] == Got(r))
  }

  /** The jobs reported in this schedule, in order. */
  ghost function Reports(c: Config, schedule: seq<Action>): seq<Ref>
    requires Legal(c, schedule)
    decreases |schedule|
  {
    if schedule == [] then []
    else
      var front, a := schedule[..|schedule| - 1], schedule[|schedule| - 1];
      Reports(c, front) + if a.Report? then [After(c, front).workers[a.w].ref] else []
  }

  // ---------- What the state remembers of it ----------

  /** The flag is up exactly when a signal has come. */
  lemma {:induction false} FlagMeansSignal(c: Config, schedule: seq<Action>)
    requires Legal(c, schedule)
    ensures After(c, schedule).threadExit <==> Interrupt in schedule
    decreases |schedule|
  {
    if schedule != [] {
      var front, a := schedule[..|schedule| - 1], schedule[|schedule| - 1];
      FlagMeansSignal(c, front);
      assert schedule == front + [a];
      FlagStep(c, After(c, front), a);
    }
  }

  lemma FlagStep(c: Config, s: State, a: Action)
    requires Enabled(c, s, a)
    ensures Apply(c, s, a).threadExit <==> s.threadExit || a == Interrupt
  {
    hide Count, Classify;
  }

  /** The collector sees the jobs in the order of their reports. */
  lemma {:induction false} OutputIsFifo(c: Config, schedule: seq<Action>)
    requires Legal(c, schedule)
    ensures After(c, schedule).collected + After(c, schedule).output == Reports(c, schedule)
    decreases |schedule|
  {
    if schedule != [] {
      var front, a := schedule[..|schedule| - 1], schedule[|schedule| - 1];
      OutputIsFifo(c, front);
      OutputStep(c, After(c, front), a);
    }
  }

  lemma OutputStep(c: Config, s: State, a: Action)
    requires Enabled(c, s, a)
    ensures var s' := Apply(c, s, a);
      s'.collected + s'.output == s.collected + s.output + if a.Report? then [s.workers[a.w].ref] else []
  {
    hide Count, Classify;
    if a.Collect? { assert s.output == [s.output[0]] + s.output[1..]; }
  }

  /** One step and one job. */
  lemma JobStep(c: Config, s: State, a: Action, r: Ref)
    requires Enabled(c, s, a) && MainOk(c, s) && r < |c.work|
    ensures var s' := Apply(c, s, a);
      && |s.heap| <= |s'.heap|
      && (r < |s.heap| ==>
            (if a.Finish? && s.workers[a.w] == Executing(r) then s'.heap[r].ran && s'.heap[r].returncode == a.code
             else s'.heap[r].ran == s.heap[r].ran && s'.heap[r].returncode == s.heap[r].returncode)
            && (s'.heap[r].isBreak <==>
                  s.heap[r].isBreak || (a.CheckFlag? && s.threadExit && s.workers[a.w] == Got(r))))
      && (|s.heap| <= r < |s'.heap| ==> !s'.heap[r].ran && !s'.heap[r].isBreak)
      && (|s.heap| <= r ==> !(a.Finish? && s.workers[a.w] == Executing(r)))
      && (|s.heap| <= r ==> !(a.CheckFlag? && s.workers[a.w] == Got(r)))
  {
    hide Count, Classify;
  }

  /** A job has run exactly when an execution of it ended in the schedule, its
      return code is the one that execution returned, and it is handed back as
      interrupted exactly when its worker saw the flag. */
  lemma {:induction false} HeapRemembers(c: Config, schedule: seq<Action>, r: Ref)
    requires Legal(c, schedule) && r < |c.work|
    ensures var s, code := After(c, schedule), FinishCode(c, schedule, r);
      if r < |s.heap| then
        && (s.heap[r].ran <==> code.Some?)
        && (code.Some? ==> s.heap[r].returncode == code.value)
        && (s.heap[r].isBreak <==> Flagged(c, schedule, r))
      else code == None && !Flagged(c, schedule, r)
    decreases |schedule|
  {
    hide Enabled, Apply, MainOk;
    if schedule != [] {
      var front, a := schedule[..|schedule| - 1], schedule[|schedule| - 1];
      HeapRemembers(c, front, r);
      AlwaysInv(c, front);
      FlagMeansSignal(c, front);
      JobStep(c, After(c, front), a, r);
    }
  }

  /** Whoever executes job r and gets a code: that code is the job's for good. */
  lemma {:induction false} ExecutionKeepsCode(c: Config, schedule: seq<Action>, w: nat, code: int, later: seq<Action>,
                                              r: Ref)
    requires Legal(c, schedule + [Finish(w, code)] + later)
    ensures Legal(c, schedule)
    ensures w < |After(c, schedule).workers| && After(c, schedule).workers[w] == Executing(r) ==>
      var s := After(c, schedule + [Finish(w, code)] + later);
      r < |c.work| && r < |s.heap| && s.heap[r].ran && s.heap[r].returncode == code
    decreases |later|
  {
    hide Enabled, Apply, MainOk, WorkerOk;
    var all := schedule + [Finish(w, code)] + later;
    if later == [] {
      assert all == schedule + [Finish(w, code)] && all[..|all| - 1] == schedule;
      var s := After(c, schedule);
      AlwaysInv(c, schedule);
      StepIsEnabled(c, schedule, Finish(w, code));
      if w < |s.workers| && s.workers[w] == Executing(r) {
        ExecutingIsJob(c, s, w);
        JobStep(c, s, Finish(w, code), r);
      }
    } else {
      var front, a := later[..|later| - 1], later[|later| - 1];
      assert all[..|all| - 1] == schedule + [Finish(w, code)] + front;
      ExecutionKeepsCode(c, schedule, w, code, front, r);
      if w < |After(c, schedule).workers| && After(c, schedule).workers[w] == Executing(r) {
        var s := After(c, all[..|all| - 1]);
        AlwaysInv(c, all[..|all| - 1]);
        JobStep(c, s, a, r);
        if a.Finish? {
          EnabledFinish(c, s, a);
          if s.workers[a.w] == Executing(r) {
            ExecutingIsJob(c, s, a.w);
            assert false;
          }
        }
      }
    }
  }

  lemma StepIsEnabled(c: Config, schedule: seq<Action>, a: Action)
    requires Legal(c, schedule + [a])
    ensures Legal(c, schedule) && Enabled(c, After(c, schedule), a)
    ensures After(c, schedule + [a]) == Apply(c, After(c, schedule), a)
  {
    assert (schedule + [a])[..|schedule|] == schedule;
  }

  lemma EnabledFinish(c: Config, s: State, a: Action)
    requires Enabled(c, s, a) && a.Finish?
    ensures a.w < |s.workers|
  {}

  /** A job in execution is a real one that has not run before. */
  lemma ExecutingIsJob(c: Config, s: State, w: nat)
    requires JobsOk(c, s) && w < |s.workers| && s.workers[w].Executing?
    ensures var r := s.workers[w].ref; r < |c.work| && r < |s.heap| && !s.heap[r].ran
  {
    assert WorkerOk(c, s.heap, s.workers[w]);
  }

  // ---------- Counters and verdict ----------

  ghost predicate Skipped(c: Config, schedule: seq<Action>, r: Ref)
    requires Legal(c, schedule) && r < |c.work|
  {
    c.work[r].isSkip && !Flagged(c, schedule, r)
  }

  /** At the end a job is flagged, skipped or executed, and never two of these. */
  lemma OneFate(c: Config, schedule: seq<Action>, r: Ref)
    requires Legal(c, schedule) && After(c, schedule).main.Done? && r < |c.work|
    ensures var code := FinishCode(c, schedule, r);
      && (code.Some? <==> !Flagged(c, schedule, r) && !c.work[r].isSkip)
      && var s := After(c, schedule);
      && r < |s.heap|
      && (Classify(s.heap[r]) == Interrupted <==> Flagged(c, schedule, r))
      && (Classify(s.heap[r]) == Skip <==> Skipped(c, schedule, r))
      && (Classify(s.heap[r]) == Pass <==> code == Some(0))
      && (Classify(s.heap[r]) == Fail <==> code == Some(1))
      && (Classify(s.heap[r]) == Valgrind <==> code == Some(2))
      && (Classify(s.heap[r]) == Crash <==> code.Some? && code.value !in {0, 1, 2})
  {
    hide FinishCode, Flagged, Legal, After;
    DeliveredExactlyOnce(c, schedule);
    HeapRemembers(c, schedule, r);
  }

  ghost function FlaggedJobs(c: Config, schedule: seq<Action>): set<Ref>
    requires Legal(c, schedule)
  {
    set r | r in Below(|c.work|) && Flagged(c, schedule, r)
  }

  ghost function SkippedJobs(c: Config, schedule: seq<Action>): set<Ref>
    requires Legal(c, schedule)
  {
    set r | r in Below(|c.work|) && c.work[r].isSkip && !Flagged(c, schedule, r)
  }

  /** The jobs whose execution returned this code. */
  ghost function ReturnedJobs(c: Config, schedule: seq<Action>, code: int): set<Ref>
    requires Legal(c, schedule)
  {
    set r | r in Below(|c.work|) && FinishCode(c, schedule, r) == Some(code)
  }

  /** The jobs whose execution returned anything but 0, 1 and 2. */
  ghost function CrashedJobs(c: Config, schedule: seq<Action>): set<Ref>
    requires Legal(c, schedule)
  {
    set r | r in Below(|c.work|) && FinishCode(c, schedule, r).Some?
            && FinishCode(c, schedule, r).value !in {0, 1, 2}
  }

  /** Every counter, by the codes in the schedule. */
  lemma CountsByCode(c: Config, schedule: seq<Action>)
    requires Legal(c, schedule) && After(c, schedule).main.Done?
    ensures var t := After(c, schedule).tally;
      && t.passed == |ReturnedJobs(c, schedule, 0)|
      && t.failed == |ReturnedJobs(c, schedule, 1)|
      && t.valgrind == |ReturnedJobs(c, schedule, 2)|
      && t.crashed == |CrashedJobs(c, schedule)|
      && t.skipped == |SkippedJobs(c, schedule)|
      && t.passed + t.failed + t.valgrind + t.crashed + t.skipped + |FlaggedJobs(c, schedule)| == |c.work|
  {
    hide FinishCode, Flagged, Legal, After, Classify, Skipped;
    CountsAddUp(c, schedule);
    var s := After(c, schedule);
    forall r: Ref | r < |c.work|
      ensures (r in WithOutcome(c, s, Pass) <==> r in ReturnedJobs(c, schedule, 0))
      ensures (r in WithOutcome(c, s, Fail) <==> r in ReturnedJobs(c, schedule, 1))
      ensures (r in WithOutcome(c, s, Valgrind) <==> r in ReturnedJobs(c, schedule, 2))
      ensures (r in WithOutcome(c, s, Crash) <==> r in CrashedJobs(c, schedule))
      ensures (r in WithOutcome(c, s, Skip) <==> r in SkippedJobs(c, schedule))
      ensures (r in WithOutcome(c, s, Interrupted) <==> r in FlaggedJobs(c, schedule))
    {
      OneFate(c, schedule, r);
      SkippedMeans(c, schedule, r);
    }
    assert WithOutcome(c, s, Pass) == ReturnedJobs(c, schedule, 0);
    assert WithOutcome(c, s, Fail) == ReturnedJobs(c, schedule, 1);
    assert WithOutcome(c, s, Valgrind) == ReturnedJobs(c, schedule, 2);
    assert WithOutcome(c, s, Crash) == CrashedJobs(c, schedule);
    assert WithOutcome(c, s, Skip) == SkippedJobs(c, schedule);
    assert WithOutcome(c, s, Interrupted) == FlaggedJobs(c, schedule);
  }

  lemma SkippedMeans(c: Config, schedule: seq<Action>, r: Ref)
    requires Legal(c, schedule) && r < |c.work|
    ensures Skipped(c, schedule, r) <==> c.work[r].isSkip && !Flagged(c, schedule, r)
  {
    hide Flagged, Legal;
  }

  /** The driver succeeded: no worker saw the flag for a job, and every job not to
      be skipped was executed with code 0. */
  ghost predicate AllReturnedZero(c: Config, schedule: seq<Action>)
    requires Legal(c, schedule)
  {
    forall r: Ref :: r < |c.work| ==>
      !Flagged(c, schedule, r) && (c.work[r].isSkip || FinishCode(c, schedule, r) == Some(0))
  }

  lemma VerdictByCode(c: Config, schedule: seq<Action>)
    requires Legal(c, schedule) && After(c, schedule).main.Done?
    ensures Verdict(After(c, schedule)) == 0 <==> AllReturnedZero(c, schedule)
  {
    hide FinishCode, Flagged, Legal, After;
    VerdictExact(c, schedule);
    DeliveredExactlyOnce(c, schedule);
    var s := After(c, schedule);
    forall r: Ref | r < |c.work|
      ensures Good(s.heap[r]) <==> !Flagged(c, schedule, r) && (c.work[r].isSkip || FinishCode(c, schedule, r) == Some(0))
    {
      HeapRemembers(c, schedule, r);
    }
  }
}
