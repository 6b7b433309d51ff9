/** What every run of a parsed command line guarantees.  Together with the
contract of ShellRun.Pipeline.Run these are statements about shellcmd.py. */
module ShellTheorems {
  import opened Wrappers
  import opened ShellParser
  import opened ShellPlan
  import opened ShellRun

  // ---------- Working directories, read off the node list ----------

  /** The directory after a node list: all its `cd` nodes joined in order. */
  function CwdAfter(ns: seq<Node>): string {
    if ns == [] then "."
    else
      var last := ns[|ns| - 1];
      if last.Chdir? && last.dir.Some? then Join(CwdAfter(ns[..|ns| - 1]), last.dir.value)
      else CwdAfter(ns[..|ns| - 1])
  }

  /** Each command of the list with the directory joined from all earlier `cd`s. */
  function JobsOf(ns: seq<Node>): seq<Job> {
    if ns == [] then []
    else
      var front, last := ns[..|ns| - 1], ns[|ns| - 1];
      if last.Command? then JobsOf(front) + [Job(last, CwdAfter(front))] else JobsOf(front)
  }

  /** The commands of a plan, group after group. */
  function JobsIn(ch: Chain): seq<Job> {
    if ch.Then? then ch.group + JobsIn(ch.rest) else ch.group
  }

  predicate Breaks(ch: Chain) { ch.Broken? || (ch.Then? && Breaks(ch.rest)) }

  lemma JobsOfTwo(done: seq<Node>, a: Node, b: Node)
    requires a.Command? || a.Chdir?
    requires b.Pipe? || b.And? || b.Or?
    ensures JobsOf(done + [a, b]) == JobsOf(done) + if a.Command? then [Job(a, CwdAfter(done))] else []
    ensures CwdAfter(done + [a, b]) ==
            if a.Chdir? && a.dir.Some? then Join(CwdAfter(done), a.dir.value) else CwdAfter(done)
  {
    var two := done + [a, b];
    assert two[..|two| - 1] == done + [a];
    assert (done + [a])[..|done|] == done;
  }

  lemma JobsOfOne(done: seq<Node>, a: Node)
    ensures JobsOf(done + [a]) == JobsOf(done) + if a.Command? then [Job(a, CwdAfter(done))] else []
  {
    assert (done + [a])[..|done|] == done;
  }

  /** What planning does at the end of a list and at a `cd`. */
  lemma PlanOther(rest: seq<Node>, cwd: string, g: seq<Job>)
    requires (WfOpen(rest) || WfNodes(rest)) && (rest == [] || rest[0].Chdir?)
    ensures rest == [] ==> Plan(rest, cwd, g) == Dangling(g)
    ensures |rest| == 1 ==> Plan(rest, cwd, g) == Broken(g, PopFromEmptyList)
    ensures |rest| > 1 ==> rest[1].And? && (WfOpen(rest[2..]) || WfNodes(rest[2..]))
    ensures |rest| > 1 && rest[0].dir.None? ==> Plan(rest, cwd, g) == Broken(g, JoinWithNone)
    ensures |rest| > 1 && rest[0].dir.Some? ==>
              Plan(rest, cwd, g) == Plan(rest[2..], Join(cwd, rest[0].dir.value), g)
  {}

  lemma Operands(rest: seq<Node>)
    requires rest != [] && (WfOpen(rest) || WfNodes(rest))
    ensures rest[0].Chdir? || rest[0].Command?
  {}

  /** Planning loses no command, keeps their order and computes their directories. */
  lemma {:induction false} PlanKeepsJobs(done: seq<Node>, rest: seq<Node>, earlier: seq<Job>, g: seq<Job>)
    requires WfOpen(rest) || WfNodes(rest)
    requires earlier + g == JobsOf(done) && AllCommands(g)
    ensures earlier + JobsIn(Plan(rest, CwdAfter(done), g)) <= JobsOf(done + rest)
    ensures !Breaks(Plan(rest, CwdAfter(done), g)) ==>
              earlier + JobsIn(Plan(rest, CwdAfter(done), g)) == JobsOf(done + rest)
    decreases |rest|, 1
  {
    hide CwdAfter, JobsOf, Join, Plan, WfOpen, WfNodes;
    var cwd := CwdAfter(done);
    if rest == [] {
      PlanOther(rest, cwd, g);
      assert done + rest == done;
    } else {
      Operands(rest);
      if |rest| > 1 { assert done + [rest[0], rest[1]] + rest[2..] == done + rest; }
      if rest[0].Chdir? {
        PlanOther(rest, cwd, g);
        if |rest| == 1 || rest[0].dir.None? {
          JobsOfGrows(done, rest);
        } else {
          JobsOfTwo(done, rest[0], rest[1]);
          PlanKeepsJobs(done + [rest[0], rest[1]], rest[2..], earlier, g);
        }
      } else {
        PlanKeepsCommand(done, rest, earlier, g);
      }
    }
  }

  lemma {:induction false} PlanKeepsCommand(done: seq<Node>, rest: seq<Node>, earlier: seq<Job>, g: seq<Job>)
    requires (WfOpen(rest) || WfNodes(rest)) && rest != [] && rest[0].Command?
    requires earlier + g == JobsOf(done) && AllCommands(g)
    ensures earlier + JobsIn(Plan(rest, CwdAfter(done), g)) <= JobsOf(done + rest)
    ensures !Breaks(Plan(rest, CwdAfter(done), g)) ==>
              earlier + JobsIn(Plan(rest, CwdAfter(done), g)) == JobsOf(done + rest)
    decreases |rest|, 0
  {
    hide CwdAfter, JobsOf, Join, Plan, WfOpen, WfNodes;
    var cwd := CwdAfter(done);
    var g' := g + [Job(rest[0], cwd)];
    PlanCommand(rest, cwd, g, g');
    assert earlier + g' == earlier + g + [Job(rest[0], cwd)];
    if |rest| == 1 {
      assert rest == [rest[0]];
      JobsOfOne(done, rest[0]);
    } else {
      var done' := done + [rest[0], rest[1]];
      JobsOfTwo(done, rest[0], rest[1]);
      assert done' + rest[2..] == done + rest;
      if rest[1].Pipe? {
        PlanKeepsJobs(done', rest[2..], earlier, g');
      } else {
        PlanKeepsJobs(done', rest[2..], earlier + g', []);
        Assoc(earlier, g', JobsIn(Plan(rest[2..], cwd, [])));
      }
    }
  }

  lemma {:induction false} JobsOfGrows(done: seq<Node>, rest: seq<Node>)
    ensures JobsOf(done) <= JobsOf(done + rest)
  {
    if rest == [] {
      assert done + rest == done;
    } else {
      var front := rest[..|rest| - 1];
      JobsOfGrows(done, front);
      assert (done + rest)[..|done + rest| - 1] == done + front;
    }
  }

  // ---------- What a log says ----------

  function Starts(log: seq<Event>): seq<Event> {
    if log == [] then []
    else Starts(log[..|log| - 1]) + if log[|log| - 1].Start? then [log[|log| - 1]] else []
  }

  function OpenedIn(log: seq<Event>): seq<nat> {
    if log == [] then []
    else OpenedIn(log[..|log| - 1]) + if log[|log| - 1].Open? then [log[|log| - 1].handle] else []
  }

  function ClosedIn(log: seq<Event>): seq<nat> {
    if log == [] then []
    else ClosedIn(log[..|log| - 1]) + if log[|log| - 1].Close? then [log[|log| - 1].handle] else []
  }

  lemma {:induction false} StartsAppend(a: seq<Event>, b: seq<Event>)
    ensures Starts(a + b) == Starts(a) + Starts(b)
  {
    if b == [] {
      assert a + b == a;
    } else {
      StartsAppend(a, b[..|b| - 1]);
      assert (a + b)[..|a + b| - 1] == a + b[..|b| - 1];
    }
  }

  lemma {:induction false} OpenedAppend(a: seq<Event>, b: seq<Event>)
    ensures OpenedIn(a + b) == OpenedIn(a) + OpenedIn(b)
  {
    if b == [] {
      assert a + b == a;
    } else {
      OpenedAppend(a, b[..|b| - 1]);
      assert (a + b)[..|a + b| - 1] == a + b[..|b| - 1];
    }
  }

  lemma {:induction false} ClosedAppend(a: seq<Event>, b: seq<Event>)
    ensures ClosedIn(a + b) == ClosedIn(a) + ClosedIn(b)
  {
    if b == [] {
      assert a + b == a;
    } else {
      ClosedAppend(a, b[..|b| - 1]);
      assert (a + b)[..|a + b| - 1] == a + b[..|b| - 1];
    }
  }

  lemma Summaries(a: seq<Event>, b: seq<Event>)
    ensures Starts(a + b) == Starts(a) + Starts(b)
    ensures OpenedIn(a + b) == OpenedIn(a) + OpenedIn(b)
    ensures ClosedIn(a + b) == ClosedIn(a) + ClosedIn(b)
  {
    hide Starts, OpenedIn, ClosedIn;
    StartsAppend(a, b);
    OpenedAppend(a, b);
    ClosedAppend(a, b);
  }

  lemma NoEvents()
    ensures Starts([]) == [] && OpenedIn([]) == [] && ClosedIn([]) == []
  {}

  lemma SummaryOfOne(e: Event)
    ensures Starts([e]) == if e.Start? then [e] else []
    ensures OpenedIn([e]) == if e.Open? then [e.handle] else []
    ensures ClosedIn([e]) == if e.Close? then [e.handle] else []
  {
    var log := [e];
    assert |log| == 1 && log[..|log| - 1] == [] && log[|log| - 1] == e;
  }

  lemma TargetSummary(t: Target, h: nat)
    ensures Starts(TargetEvents(t, h)) == [] && ClosedIn(TargetEvents(t, h)) == []
    ensures OpenedIn(TargetEvents(t, h)) == Handles(h, TargetOpens(t))
  {
    if t.ToFile? { SummaryOfOne(Open(h, t.name, true)); }
  }

  lemma StdinSummary(c: Node, piped: bool, h: nat)
    requires c.Command?
    ensures Starts(StdinEvents(c, piped, h)) == [] && ClosedIn(StdinEvents(c, piped, h)) == []
    ensures OpenedIn(StdinEvents(c, piped, h)) == Handles(h, StdinOpens(c, piped))
  {
    if c.stdin.Some? { SummaryOfOne(Open(h, c.stdin.value, false)); }
  }

  /** The Start event of a command. */
  function StartEvent(job: Job, piped: bool, proc: nat, h: nat): Event
    requires job.cmd.Command? && (piped ==> proc > 0)
  {
    var h1 := h + StdinOpens(job.cmd, piped);
    Start(proc, job, SourceOf(job.cmd, piped, proc, h), SinkOf(job.cmd.stdout, h1),
          SinkOf(job.cmd.stderr, h1 + TargetOpens(job.cmd.stdout)))
  }

  lemma JobSummary(job: Job, piped: bool, proc: nat, h: nat)
    requires job.cmd.Command? && (piped ==> proc > 0)
    ensures Starts(JobLog(job, piped, proc, h)) == [StartEvent(job, piped, proc, h)]
    ensures ClosedIn(JobLog(job, piped, proc, h)) == []
    ensures OpenedIn(JobLog(job, piped, proc, h)) == Handles(h, JobOpens(job.cmd, piped))
  {
    hide StdinEvents, TargetEvents, StdinOpens, TargetOpens, Starts, OpenedIn, ClosedIn, Handles, SourceOf, SinkOf;
    var c := job.cmd;
    var h1 := h + StdinOpens(c, piped);
    var h2 := h1 + TargetOpens(c.stdout);
    var a, b, d := StdinEvents(c, piped, h), TargetEvents(c.stdout, h1), TargetEvents(c.stderr, h2);
    var e := StartEvent(job, piped, proc, h);
    StdinSummary(c, piped, h);
    TargetSummary(c.stdout, h1);
    TargetSummary(c.stderr, h2);
    SummaryOfOne(e);
    Summaries(a, b);
    Summaries(a + b, d);
    Summaries(a + b + d, [e]);
    HandlesJoin(h, StdinOpens(c, piped), TargetOpens(c.stdout));
    HandlesJoin(h, StdinOpens(c, piped) + TargetOpens(c.stdout), TargetOpens(c.stderr));
  }

  /** The commands of a group are started in order, each once, with consecutive
      numbers; all but the first read from their predecessor. */
  ghost predicate StartsGroup(starts: seq<Event>, g: seq<Job>, k: nat) {
    |starts| == |g| &&
    forall i :: 0 <= i < |starts| ==>
      starts[i].Start? && starts[i].proc == k + i && starts[i].job == g[i] &&
      (starts[i].stdout.SinkPipe? <==> g[i].cmd.Command? && g[i].cmd.stdout.ToPipe?) &&
      (if i > 0 then starts[i].stdin == StdinPipe(k + i - 1) else !starts[i].stdin.StdinPipe?)
  }

  lemma StartsGrow(starts: seq<Event>, g: seq<Job>, k: nat, job: Job, h: nat)
    requires StartsGroup(starts, g, k) && job.cmd.Command?
    ensures StartsGroup(starts + [StartEvent(job, g != [], k + |g|, h)], g + [job], k)
  {}

  lemma {:induction false} GroupStarts(g: seq<Job>, k: nat, h: nat)
    requires AllCommands(g)
    ensures StartsGroup(Starts(StartLog(g, k, h)), g, k)
    ensures ClosedIn(StartLog(g, k, h)) == []
    ensures OpenedIn(StartLog(g, k, h)) == Handles(h, GroupOpens(g))
  {
    hide JobLog, JobOpens, StartsGroup, StartEvent, Starts, OpenedIn, ClosedIn;
    NoEvents();
    if g == [] {
      NoStarts(k);
    } else {
      var front, last := g[..|g| - 1], g[|g| - 1];
      var h' := h + GroupOpens(front);
      GroupStarts(front, k, h);
      JobSummary(last, |g| > 1, k + |g| - 1, h');
      Summaries(StartLog(front, k, h), JobLog(last, |g| > 1, k + |g| - 1, h'));
      StartsGrow(Starts(StartLog(front, k, h)), front, k, last, h');
      assert front + [last] == g;
      HandlesJoin(h, GroupOpens(front), JobOpens(last.cmd, |g| > 1));
    }
  }

  lemma NoStarts(k: nat)
    ensures StartsGroup([], [], k)
  {}

  lemma {:induction false} WaitsSummary(k: nat, n: nat)
    ensures Starts(Waits(k, n)) == [] && OpenedIn(Waits(k, n)) == [] && ClosedIn(Waits(k, n)) == []
  {
    hide Starts, OpenedIn, ClosedIn;
    NoEvents();
    if n > 0 {
      WaitsSummary(k, n - 1);
      Summaries(Waits(k, n - 1), [Wait(k + n - 1)]);
      SummaryOfOne(Wait(k + n - 1));
    }
  }

  lemma {:induction false} ClosesSummary(h: nat, n: nat)
    ensures Starts(Closes(h, n)) == [] && OpenedIn(Closes(h, n)) == [] && ClosedIn(Closes(h, n)) == Handles(h, n)
  {
    hide Starts, OpenedIn, ClosedIn;
    NoEvents();
    if n > 0 {
      ClosesSummary(h, n - 1);
      Summaries(Closes(h, n - 1), [Close(h + n - 1)]);
      SummaryOfOne(Close(h + n - 1));
    }
  }

  /** A finished group closes exactly the files it opened, once each and in
      order, and starts its commands. */
  lemma GroupSummary(g: seq<Job>, k: nat, h: nat)
    requires AllCommands(g)
    ensures StartsGroup(Starts(GroupLog(g, k, h)), g, k)
    ensures OpenedIn(GroupLog(g, k, h)) == ClosedIn(GroupLog(g, k, h)) == Handles(h, GroupOpens(g))
  {
    GroupStarts(g, k, h);
    WaitsSummary(k, |g|);
    ClosesSummary(h, GroupOpens(g));
    Summaries(StartLog(g, k, h), Waits(k, |g|));
    Summaries(StartLog(g, k, h) + Waits(k, |g|), Closes(h, GroupOpens(g)));
  }

  // ---------- Commands are started in order, each once ----------

  ghost predicate StartsAre(starts: seq<Event>, jobs: seq<Job>, k: nat) {
    |starts| <= |jobs| &&
    forall i :: 0 <= i < |starts| ==> starts[i].Start? && starts[i].proc == k + i && starts[i].job == jobs[i]
  }

  lemma StartsAreJoin(a: seq<Event>, b: seq<Event>, g: seq<Job>, jobs: seq<Job>, k: nat)
    requires StartsGroup(a, g, k) && StartsAre(b, jobs, k + |g|)
    ensures StartsAre(a + b, g + jobs, k)
  {}

  lemma StartsAreAlone(a: seq<Event>, g: seq<Job>, jobs: seq<Job>, k: nat)
    requires StartsGroup(a, g, k)
    ensures StartsAre(a, g + jobs, k)
  {}

  /** A run starts a prefix of the plan's commands. */
  lemma {:induction false} RunStarts(ch: Chain, codes: nat -> int, k: nat, h: nat)
    requires ChainOk(ch)
    ensures StartsAre(Starts(Log(ch, codes, k, h)), JobsIn(ch), k)
    decreases ch
  {
    hide Starts, Log, GroupLog, StartLog, GroupOpens, StartsGroup, StartsAre;
    var g := ch.group;
    LogOfOne(g, ch, codes, k, h);
    GroupSummary(g, k, h);
    GroupStarts(g, k, h);
    assert g + [] == g;
    if ch.Then? {
      if Proceeds(ch.op, GroupValue(g, codes, k)) {
        var rest := Log(ch.rest, codes, k + |g|, h + GroupOpens(g));
        RunStarts(ch.rest, codes, k + |g|, h + GroupOpens(g));
        StartsAppend(GroupLog(g, k, h), rest);
        StartsAreJoin(Starts(GroupLog(g, k, h)), Starts(rest), g, JobsIn(ch.rest), k);
      } else {
        assert Log(ch, codes, k, h) == GroupLog(g, k, h);
        StartsAreAlone(Starts(GroupLog(g, k, h)), g, JobsIn(ch.rest), k);
      }
    } else if ch.Last? {
      StartsAreAlone(Starts(GroupLog(g, k, h)), g, [], k);
    } else {
      StartsAreAlone(Starts(StartLog(g, k, h)), g, [], k);
    }
  }

  lemma NothingBefore()
    ensures JobsOf([]) == [] && CwdAfter([]) == "."
  {}

  /** Whatever the exit codes, run() starts exactly a prefix of the commands on
      the line, each once and in order, and each in the directory joined from
      all `cd`s before it. */
  lemma StartedCommandsArePrefix(ns: seq<Node>, codes: nat -> int)
    requires WfNodes(ns)
    ensures ChainOk(Plan(ns, ".", []))
    ensures StartsAre(Starts(Log(Plan(ns, ".", []), codes, 0, 0)), JobsOf(ns), 0)
  {
    hide Plan, JobsOf, Starts, Log, WfNodes, WfOpen, JobsIn, CwdAfter;
    var ch := Plan(ns, ".", []);
    NothingBefore();
    PlanOk(ns, ".", []);
    RunStarts(ch, codes, 0, 0);
    PlanKeepsJobs([], ns, [], []);
    assert [] + ns == ns && [] + JobsIn(ch) == JobsIn(ch);
  }

  // ---------- Pipes ----------

  predicate AllPiped(g: seq<Job>) {
    forall i :: 0 <= i < |g| ==> g[i].cmd.Command? && g[i].cmd.stdout.ToPipe?
  }

  /** In every finished group all commands but the last write into a pipe. */
  predicate PipesFit(ch: Chain) {
    match ch
    case Last(g) => g != [] && AllPiped(g[..|g| - 1]) && !SinkIsPipe(g[|g| - 1])
    case Then(g, _, rest) => g != [] && AllPiped(g[..|g| - 1]) && !SinkIsPipe(g[|g| - 1]) && PipesFit(rest)
    case _ => AllPiped(ch.group)
  }

  predicate SinkIsPipe(job: Job) { job.cmd.Command? && job.cmd.stdout.ToPipe? }

  lemma {:induction false} PlanPipesFit(rest: seq<Node>, cwd: string, g: seq<Job>)
    requires (WfOpen(rest) || WfNodes(rest)) && AllPiped(g)
    ensures PipesFit(Plan(rest, cwd, g))
    decreases |rest|
  {
    hide Plan, WfOpen, Join;
    if rest == [] || rest[0].Chdir? {
      PlanOther(rest, cwd, g);
      if |rest| > 1 && rest[0].dir.Some? { PlanPipesFit(rest[2..], Join(cwd, rest[0].dir.value), g); }
    } else {
      Operands(rest);
      var g' := g + [Job(rest[0], cwd)];
      PlanCommand(rest, cwd, g, g');
      assert g'[..|g|] == g;
      if |rest| > 1 { PlanPipesFit(rest[2..], cwd, if rest[1].Pipe? then g' else []); }
      if |rest| == 1 { OnlyLast(rest); }
    }
  }

  lemma OnlyLast(rest: seq<Node>)
    requires |rest| == 1 && (WfOpen(rest) || WfNodes(rest))
    ensures WfLast(rest[0])
  {}

  /** A process of a group reads from its predecessor in that group exactly when
      it is not the first, and that predecessor writes into a pipe. */
  ghost predicate PipesConnected(starts: seq<Event>) {
    forall i :: 0 <= i < |starts| ==>
      starts[i].Start? &&
      (starts[i].stdin.StdinPipe? <==> i > 0) &&
      (i > 0 ==> starts[i - 1].Start? && starts[i - 1].stdout.SinkPipe?
                 && starts[i].stdin.producer == starts[i - 1].proc)
  }

  lemma ConnectGroup(starts: seq<Event>, g: seq<Job>, k: nat)
    requires StartsGroup(starts, g, k) && (g != [] ==> AllPiped(g[..|g| - 1]))
    ensures PipesConnected(starts)
  {
    forall i | 0 <= i < |starts| - 1 ensures SinkIsPipe(g[i]) {
      assert g[..|g| - 1][i] == g[i];
    }
  }

  /** In every run, every command fed from a pipe has a predecessor of its own
      group that was started with its output piped. */
  lemma {:induction false} RunPipesConnected(ch: Chain, codes: nat -> int, k: nat, h: nat, i: nat)
    requires ChainOk(ch) && PipesFit(ch) && i < |Logs(ch, codes, k, h)|
    ensures PipesConnected(Starts(Logs(ch, codes, k, h)[i]))
    decreases ch
  {
    hide Starts, GroupLog, StartLog, GroupOpens, PipesConnected, StartsGroup, GroupValue;
    if i == 0 {
      FirstPipesConnected(ch, codes, k, h);
    } else {
      RunPipesConnected(ch.rest, codes, k + |ch.group|, h + GroupOpens(ch.group), i - 1);
    }
  }

  lemma FirstPipesConnected(ch: Chain, codes: nat -> int, k: nat, h: nat)
    requires ChainOk(ch) && PipesFit(ch)
    ensures PipesConnected(Starts(Logs(ch, codes, k, h)[0]))
  {
    hide Starts, GroupLog, StartLog, GroupOpens, PipesConnected, StartsGroup, GroupValue, Proceeds, AllPiped;
    var g := ch.group;
    GroupSummary(g, k, h);
    GroupStarts(g, k, h);
    if g != [] { FrontPiped(ch); }
    if ch.Last? || ch.Then? {
      ConnectGroup(Starts(GroupLog(g, k, h)), g, k);
    } else {
      ConnectGroup(Starts(StartLog(g, k, h)), g, k);
    }
  }

  lemma FrontPiped(ch: Chain)
    requires PipesFit(ch) && ch.group != []
    ensures AllPiped(ch.group[..|ch.group| - 1])
  {}

  // ---------- Files ----------

  /** Every file a group opened is closed exactly once, before the group's part
      of the log ends, so before run() returns or the next group starts. */
  lemma {:induction false} GroupFilesClosed(ch: Chain, codes: nat -> int, k: nat, h: nat, i: nat)
    requires ChainOk(ch) && i < |Logs(ch, codes, k, h)|
    requires Eval(ch, codes, k).Returned? || i < |Logs(ch, codes, k, h)| - 1
    ensures var part := Logs(ch, codes, k, h)[i];
            exists h', n :: OpenedIn(part) == ClosedIn(part) == Handles(h', n)
    decreases ch
  {
    hide OpenedIn, ClosedIn, GroupLog, StartLog, GroupOpens, GroupValue, Handles;
    var g := ch.group;
    if i == 0 {
      GroupSummary(g, k, h);
    } else {
      GroupFilesClosed(ch.rest, codes, k + |g|, h + GroupOpens(g), i - 1);
    }
  }

  /** Over the whole run: the files opened are 0, 1, ..., n - 1 and they are
      closed once each, in that order. */
  lemma {:induction false} RunFilesClosed(ch: Chain, codes: nat -> int, k: nat, h: nat) returns (n: nat)
    requires ChainOk(ch) && Eval(ch, codes, k).Returned?
    ensures OpenedIn(Log(ch, codes, k, h)) == ClosedIn(Log(ch, codes, k, h)) == Handles(h, n)
    decreases ch
  {
    hide Log, OpenedIn, ClosedIn, GroupLog, StartLog, GroupOpens, GroupValue, Handles;
    var g := ch.group;
    n := GroupOpens(g);
    LogOfOne(g, ch, codes, k, h);
    GroupSummary(g, k, h);
    if ch.Then? {
      if Proceeds(ch.op, GroupValue(g, codes, k)) {
        var m := RunFilesClosed(ch.rest, codes, k + |g|, h + n);
        var rest := Log(ch.rest, codes, k + |g|, h + n);
        OpenedAppend(GroupLog(g, k, h), rest);
        ClosedAppend(GroupLog(g, k, h), rest);
        HandlesJoin(h, n, m);
        n := n + m;
      } else {
        assert Log(ch, codes, k, h) == GroupLog(g, k, h);
      }
    }
  }

  // ---------- When running can fail ----------

  /** A `cd` without a directory, or at the end of the line. */
  predicate BadChdir(ns: seq<Node>, i: nat)
    requires i < |ns|
  {
    ns[i].Chdir? && (ns[i].dir.None? || i == |ns| - 1)
  }

  predicate HasBadChdir(ns: seq<Node>) { exists i :: 0 <= i < |ns| && BadChdir(ns, i) }

  lemma {:induction false} PlanBreaks(ns: seq<Node>, cwd: string, g: seq<Job>)
    requires WfNodes(ns) && AllCommands(g)
    ensures Breaks(Plan(ns, cwd, g)) <==> HasBadChdir(ns)
    decreases |ns|
  {
    hide Plan, Join;
    Operands(ns);
    if |ns| == 1 {
      if ns[0].Chdir? { PlanOther(ns, cwd, g); assert BadChdir(ns, 0); }
      else { PlanCommand(ns, cwd, g, g + [Job(ns[0], cwd)]); }
    } else {
      BadChdirLater(ns);
      if ns[0].Chdir? {
        PlanOther(ns, cwd, g);
        if ns[0].dir.None? { assert BadChdir(ns, 0); }
        else { PlanBreaks(ns[2..], Join(cwd, ns[0].dir.value), g); }
      } else {
        var g' := g + [Job(ns[0], cwd)];
        PlanCommand(ns, cwd, g, g');
        PlanBreaks(ns[2..], cwd, if ns[1].Pipe? then g' else []);
      }
    }
  }

  lemma BadChdirLater(ns: seq<Node>)
    requires WfNodes(ns) && |ns| > 1
    ensures HasBadChdir(ns) <==> (ns[0].Chdir? && ns[0].dir.None?) || HasBadChdir(ns[2..])
  {
    if i :| 0 <= i < |ns[2..]| && BadChdir(ns[2..], i) {
      assert BadChdir(ns, i + 2);
    }
    if i :| 0 <= i < |ns| && BadChdir(ns, i) {
      if i >= 2 { assert BadChdir(ns[2..], i - 2); }
    }
    if ns[0].Chdir? && ns[0].dir.None? { assert BadChdir(ns, 0); }
  }

  /** Complete lists never dangle. */
  lemma {:induction false} PlanCloses(ns: seq<Node>, cwd: string, g: seq<Job>, codes: nat -> int, k: nat)
    requires WfNodes(ns) && AllCommands(g)
    ensures !Eval(Plan(ns, cwd, g), codes, k).ReturnedNone?
    decreases |ns|
  {
    hide Plan, Join, GroupValue;
    Operands(ns);
    if ns[0].Chdir? {
      PlanOther(ns, cwd, g);
      if |ns| > 1 && ns[0].dir.Some? { PlanCloses(ns[2..], Join(cwd, ns[0].dir.value), g, codes, k); }
    } else {
      var g' := g + [Job(ns[0], cwd)];
      PlanCommand(ns, cwd, g, g');
      if |ns| > 1 {
        if ns[1].Pipe? { PlanCloses(ns[2..], cwd, g', codes, k); }
        else { PlanCloses(ns[2..], cwd, [], codes, k + |g'|); }
      }
    }
  }

  lemma {:induction false} RaisesOnlyIfBroken(ch: Chain, codes: nat -> int, k: nat)
    ensures Eval(ch, codes, k).Raised? ==> Breaks(ch)
    decreases ch
  {
    hide GroupValue;
    if ch.Then? { RaisesOnlyIfBroken(ch.rest, codes, k + |ch.group|); }
  }

  /** The exit codes that make every group proceed to the next one. */
  function Driving(ch: Chain, i: nat): int {
    if ch.Then? then
      if i < |ch.group| then (if ch.op.Or? then 1 else 0) else Driving(ch.rest, i - |ch.group|)
    else 0
  }

  ghost predicate DrivesFrom(codes: nat -> int, ch: Chain, k: nat) {
    forall i: nat :: codes(k + i) == Driving(ch, i)
  }

  lemma {:induction false} DrivenToTheBreak(ch: Chain, codes: nat -> int, k: nat)
    requires ChainOk(ch) && Breaks(ch) && DrivesFrom(codes, ch, k)
    ensures Eval(ch, codes, k).Raised?
    decreases ch
  {
    if ch.Then? {
      var g := ch.group;
      assert codes(k + (|g| - 1)) == Driving(ch, |g| - 1);
      forall i: nat ensures codes(k + |g| + i) == Driving(ch.rest, i) {
        assert codes(k + (|g| + i)) == Driving(ch, |g| + i);
      }
      DrivenToTheBreak(ch.rest, codes, k + |g|);
    }
  }

  ghost predicate RunsClean(ns: seq<Node>, codes: nat -> int)
    requires WfNodes(ns)
  {
    Eval(Plan(ns, ".", []), codes, 0).Returned?
  }

  /** On a parsed line run() returns an exit code whatever the commands do, if
      and only if no `cd` lacks its directory and none ends the line. */
  lemma RunsCleanExactlyWhen(ns: seq<Node>)
    requires WfNodes(ns)
    ensures (forall codes :: RunsClean(ns, codes)) <==> !HasBadChdir(ns)
  {
    var ch := Plan(ns, ".", []);
    PlanOk(ns, ".", []);
    PlanBreaks(ns, ".", []);
    if Breaks(ch) {
      var codes: nat -> int := (i: nat) => Driving(ch, i);
      DrivenToTheBreak(ch, codes, 0);
      assert !RunsClean(ns, codes);
    } else {
      forall codes ensures RunsClean(ns, codes) {
        PlanCloses(ns, ".", [], codes, 0);
        RaisesOnlyIfBroken(ch, codes, 0);
      }
    }
  }

  /** `cd` alone parses, and run() then pops from an empty list. */
  lemma LoneChdir(codes: nat -> int)
    ensures Parse(["cd"]) == Some([Chdir(None)])
    ensures Eval(Plan([Chdir(None)], ".", []), codes, 0) == Raised(PopFromEmptyList)
  {
    assert FirstEquals("cd") == 2;
    var none: seq<Node>, cd: Node := [], Chdir(None);
    assert none + [cd] == [cd];
    assert ParseFrom(START, ["cd"]) == Some(Parser(CHDIR, [], Some(cd), none));
  }

  /** `cd && b` parses, and run() then joins with None. */
  lemma ChdirWithoutDirectory(codes: nat -> int)
    ensures var ns := [Chdir(None), And, Command("b", [], None, Inherit, Inherit, [])];
      Parse(["cd", "&&", "b"]) == Some(ns) && WfNodes(ns) && Eval(Plan(ns, ".", []), codes, 0) == Raised(JoinWithNone)
  {
    var none: seq<Node>, cd: Node, b: Node := [], Chdir(None), Command("b", [], None, Inherit, Inherit, []);
    var ns := [cd, And, b];
    assert none + [cd, And] == [cd, And] && [cd, And] + [b] == ns;
    var p, q, r := Parser(CHDIR, [], Some(cd), none), Parser(BEGIN, [], None, [cd, And]),
                   Parser(COMMAND, [], Some(b), [cd, And]);
    WordB();
    assert Step(START, "cd") == Some(p) && Step(p, "&&") == Some(q) && Step(q, "b") == Some(r);
    OneTokenMore(r, []);
    OneTokenMore(q, ["b"]);
    OneTokenMore(p, ["&&", "b"]);
    OneTokenMore(START, ["cd", "&&", "b"]);
    assert ns[2..] == [b] && WfNodes([b]);
  }

  lemma WordB()
    ensures MatchEnv("b") == None && MatchEnv("cd") == None
  {
    assert FirstEquals("cd") == 2 && FirstEquals("b") == 1;
  }

  lemma OneTokenMore(p: Parser, tokens: seq<string>)
    requires ModeOk(p)
    ensures tokens == [] ==> ParseFrom(p, tokens) == Some(p)
    ensures tokens != [] && Step(p, tokens[0]).Some? ==>
              ParseFrom(p, tokens) == ParseFrom(Step(p, tokens[0]).value, tokens[1..])
  {
    hide Step;
  }
}
