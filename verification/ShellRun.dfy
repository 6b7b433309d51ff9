/** The Pipeline object of waf-tools/shellcmd.py: parsing into its fields and
running what was parsed. */
module ShellRun {
  import opened Wrappers
  import opened ShellParser
  import opened ShellPlan

  /** A started process, as far as run() looks at it. */
  datatype Process = Process(id: nat, pipedOut: bool)

  /** Ghost-free view of the operating system: exit codes are chosen by an
      oracle, and everything done to it is logged. */
  class World {
    const codes: nat -> int
    var log: seq<Event>
    var files: nat
    var started: nat

    constructor (codes: nat -> int)
      ensures this.codes == codes && log == [] && files == 0 && started == 0
    {
      this.codes := codes;
      log, files, started := [], 0, 0;
    }

    method OpenFile(name: string, forWriting: bool) returns (h: nat)
      modifies this
      ensures h == old(files) && files == old(files) + 1 && started == old(started)
      ensures log == old(log) + [Open(h, name, forWriting)]
    {
      h := files;
      files := files + 1;
      log := log + [Open(h, name, forWriting)];
    }

    method Popen(job: Job, stdin: Source, stdout: Sink, stderr: Sink) returns (p: Process)
      modifies this
      ensures p == Process(old(started), stdout.SinkPipe?) && started == old(started) + 1 && files == old(files)
      ensures log == old(log) + [Start(p.id, job, stdin, stdout, stderr)]
    {
      p := Process(started, stdout.SinkPipe?);
      log := log + [Start(started, job, stdin, stdout, stderr)];
      started := started + 1;
    }

    method WaitFor(p: Process) returns (code: int)
      modifies this`log
      ensures code == codes(p.id) && log == old(log) + [Wait(p.id)]
    {
      log := log + [Wait(p.id)];
      code := codes(p.id);
    }

    method CloseFile(h: nat)
      modifies this`log
      ensures log == old(log) + [Close(h)]
    {
      log := log + [Close(h)];
    }
  }

  /** An entry of files_to_close: None is the shared null device. */
  type Handle = Option<nat>

  /** The handles a list of entries really owns. */
  function Owned(hs: seq<Handle>): seq<nat> {
    if hs == [] then []
    else Owned(hs[..|hs| - 1]) + if hs[|hs| - 1].Some? then [hs[|hs| - 1].value] else []
  }

  class Pipeline {
    var currentCommand: Option<Node>
    var pipeline: seq<Node>

    /** Whatever happened before, the list is complete or ends in an operator. */
    predicate Valid()
      reads this
    {
      WfOpen(pipeline) || WfNodes(pipeline)
    }

    constructor ()
      ensures Valid() && pipeline == [] && currentCommand == None
    {
      currentCommand := None;
      pipeline := [];
    }

    /** Token by token; the result is None when an assertion fails. */
    method ParseCommand(command: seq<string>) returns (r: Option<seq<Node>>)
      modifies this
      ensures Valid()
      ensures r == Parse(command)
      ensures r.Some? ==> pipeline == r.value && currentCommand == None
    {
      currentCommand := None;
      pipeline := [];
      var tokens := command;
      var state := BEGIN;
      var envVars: Dict := [];
      while tokens != []
        invariant ParserOk(Parser(state, envVars, currentCommand, pipeline))
        invariant ParseFrom(START, command) == ParseFrom(Parser(state, envVars, currentCommand, pipeline), tokens)
        decreases |tokens|
      {
        ghost var before := Parser(state, envVars, currentCommand, pipeline);
        var token := tokens[0];
        tokens := tokens[1..];
        if Step(before, token).Some? { StepKeeps(before, token); }
        match state {
          case BEGIN =>
            var m := MatchEnv(token);
            if m.Some? {
              envVars := Put(envVars, m.value.0, m.value.1);
            } else {
              assert currentCommand == None;
              if token == "cd" {
                currentCommand := Some(Chdir(None));
                if envVars != [] { return None; }
                state := CHDIR;
              } else {
                currentCommand := Some(Command(token, [], None, Inherit, Inherit, envVars));
                envVars := [];
                state := COMMAND;
              }
            }
          case COMMAND =>
            var c := currentCommand.value;
            if token == ">" {
              state := STDOUT;
            } else if token == "2>" {
              state := STDERR;
            } else if token == "2>&1" {
              if !c.stderr.Inherit? { return None; }
              currentCommand := Some(c.(stderr := ToStdout));
            } else if token == "<" {
              state := STDIN;
            } else if token == "|" {
              if !c.stdout.Inherit? { return None; }
              currentCommand := Some(c.(stdout := ToPipe));
              CommitWith(Pipe);
              state := BEGIN;
            } else if token == "&&" {
              CommitWith(And);
              state := BEGIN;
            } else if token == "||" {
              CommitWith(Or);
              state := BEGIN;
            } else {
              currentCommand := Some(c.(args := c.args + [token]));
            }
          case CHDIR =>
            if token == "&&" {
              CommitWith(And);
              state := BEGIN;
            } else {
              if currentCommand.value.dir.Some? { return None; }
              currentCommand := Some(Chdir(Some(token)));
            }
          case STDOUT =>
            if !currentCommand.value.stdout.Inherit? { return None; }
            currentCommand := Some(currentCommand.value.(stdout := ToFile(token)));
            state := COMMAND;
          case STDERR =>
            if !currentCommand.value.stderr.Inherit? { return None; }
            currentCommand := Some(currentCommand.value.(stderr := ToFile(token)));
            state := COMMAND;
          case STDIN =>
            if currentCommand.value.stdin.Some? { return None; }
            currentCommand := Some(currentCommand.value.(stdin := Some(token)));
            state := COMMAND;
        }
      }
      if currentCommand == None { return None; }
      OpenCloses(pipeline, currentCommand.value);
      pipeline := pipeline + [currentCommand.value];
      currentCommand := None;
      return Some(pipeline);
    }

    /** _commit_command, followed by the operator. */
    method CommitWith(op: Node)
      requires currentCommand.Some?
      modifies this
      ensures pipeline == old(pipeline) + [old(currentCommand.value), op] && currentCommand == None
    {
      pipeline := pipeline + [currentCommand.value];
      currentCommand := None;
      pipeline := pipeline + [op];
    }

    /** _exec_piped_commands: wait for all; 0 if all are 0, else the last code. */
    method ExecPipedCommands(world: World, commands: seq<Process>, ghost g: seq<Job>, ghost k: nat)
      returns (retval: int)
      requires |commands| == |g| && forall i :: 0 <= i < |commands| ==> commands[i].id == k + i
      modifies world`log
      ensures retval == GroupValue(g, world.codes, k)
      ensures world.log == old(world.log) + Waits(k, |commands|)
    {
      var retvals: seq<int> := [];
      for i := 0 to |commands|
        invariant |retvals| == i && world.log == old(world.log) + Waits(k, i)
        invariant forall j :: 0 <= j < i ==> retvals[j] == world.codes(k + j)
      {
        var code := world.WaitFor(commands[i]);
        retvals := retvals + [code];
      }
      retval := 0;
      for i := 0 to |retvals|
        invariant retval == 0 && forall j :: 0 <= j < i ==> retvals[j] == 0
      {
        if retvals[i] != 0 {
          retval := retvals[|retvals| - 1];
          return;
        }
      }
      assert g != [] ==> retvals[|retvals| - 1] == 0;
    }

    /** The `finally` part: close what is not the null device. */
    method CloseFiles(world: World, files: seq<Handle>, ghost h: nat, ghost n: nat)
      requires Owned(files) == Handles(h, n)
      modifies world`log
      ensures world.log == old(world.log) + Closes(h, n)
    {
      for i := 0 to |files|
        invariant |Owned(files[..i])| <= n && Owned(files[..i]) == Handles(h, |Owned(files[..i])|)
        invariant world.log == old(world.log) + Closes(h, |Owned(files[..i])|)
      {
        assert files[..i + 1][..i] == files[..i];
        OwnedPrefix(files, i + 1);
        if files[i].Some? {
          HandleAt(h, n, |Owned(files[..i])|);
          world.CloseFile(files[i].value);
        }
      }
      assert files[..|files|] == files;
    }

    /** Open the file of a redirection; the null device is shared. */
    method OpenTarget(world: World, t: Target, files: seq<Handle>) returns (sink: Sink, files': seq<Handle>)
      modifies world
      ensures sink == SinkOf(t, old(world.files))
      ensures world.log == old(world.log) + TargetEvents(t, old(world.files))
      ensures world.files == old(world.files) + TargetOpens(t) && world.started == old(world.started)
      ensures Owned(files') == Owned(files) + Handles(old(world.files), TargetOpens(t))
    {
      files' := files;
      match t
      case Inherit => sink := SinkInherited;
      case ToPipe => sink := SinkPipe;
      case ToStdout => sink := SinkStdout;
      case ToFile(name) =>
        if IsNullDevice(name) {
          sink := SinkNull;
          files' := files + [None];
        } else {
          var h := world.OpenFile(name, true);
          sink := SinkFile(h);
          files' := files + [Some(h)];
        }
    }

    /** Standard input: the previous process of the group, a file, or ours. */
    method OpenStdin(world: World, c: Node, piped: seq<Process>, files: seq<Handle>)
      returns (stdin: Source, files': seq<Handle>)
      requires c.Command? && (piped != [] ==> piped[|piped| - 1].pipedOut)
      requires world.started > 0 || piped == []
      requires piped != [] ==> piped[|piped| - 1].id == world.started - 1
      modifies world
      ensures stdin == SourceOf(c, piped != [], old(world.started), old(world.files))
      ensures world.log == old(world.log) + StdinEvents(c, piped != [], old(world.files))
      ensures world.files == old(world.files) + StdinOpens(c, piped != []) && world.started == old(world.started)
      ensures Owned(files') == Owned(files) + Handles(old(world.files), StdinOpens(c, piped != []))
    {
      files' := files;
      if piped != [] {
        stdin := StdinPipe(piped[|piped| - 1].id);
      } else if c.stdin.Some? {
        var f := world.OpenFile(c.stdin.value, false);
        stdin := StdinFile(f);
        files' := files + [Some(f)];
      } else {
        stdin := StdinInherited;
      }
    }

    /** Open what a command needs and start it. */
    method StartCommand(world: World, c: Node, cwd: string, piped: seq<Process>, files: seq<Handle>)
      returns (proc: Process, files': seq<Handle>)
      requires c.Command? && (world.started > 0 || piped == [])
      requires piped != [] ==> piped[|piped| - 1] == Process(world.started - 1, true)
      modifies world
      ensures proc == Process(old(world.started), c.stdout.ToPipe?)
      ensures world.started == old(world.started) + 1
      ensures world.files == old(world.files) + JobOpens(c, piped != [])
      ensures Owned(files') == Owned(files) + Handles(old(world.files), JobOpens(c, piped != []))
      ensures world.log == old(world.log)
                + JobLog(Job(c, cwd), piped != [], old(world.started), old(world.files))
    {
      hide Owned, Handles, StdinEvents, TargetEvents, SourceOf, StdinOpens, TargetOpens;
      ghost var h := world.files;
      ghost var n1 := StdinOpens(c, piped != []);
      ghost var n2 := TargetOpens(c.stdout);
      ghost var n3 := TargetOpens(c.stderr);
      var stdin, f1 := OpenStdin(world, c, piped, files);
      var stdout, f2 := OpenTarget(world, c.stdout, f1);
      var stderr, f3 := OpenTarget(world, c.stderr, f2);
      proc := world.Popen(Job(c, cwd), stdin, stdout, stderr);
      files' := f3;
      HandlesJoin(h, n1, n2);
      HandlesJoin(h, n1 + n2, n3);
      AppendThree(Owned(files), Handles(h, n1), Handles(h + n1, n2), Handles(h + n1 + n2, n3));
      Regroup(old(world.log), StdinEvents(c, piped != [], h), TargetEvents(c.stdout, h + n1),
              TargetEvents(c.stderr, h + n1 + n2), [Start(proc.id, Job(c, cwd), stdin, stdout, stderr)]);
    }

    /** One more command for the group. */
    method AddCommand(world: World, c: Node, cwd: string, piped: seq<Process>, files: seq<Handle>,
                      ghost g: seq<Job>, ghost k: nat, ghost h: nat, ghost pre: seq<Event>)
      returns (piped': seq<Process>, files': seq<Handle>)
      requires c.Command? && GroupOk(world.log, world.started, world.files, piped, files, g, k, h, pre)
      requires g != [] ==> piped[|g| - 1].pipedOut
      modifies world
      ensures GroupOk(world.log, world.started, world.files, piped', files', g + [Job(c, cwd)], k, h, pre)
      ensures piped'[|g|].pipedOut == c.stdout.ToPipe?
    {
      hide JobLog, JobOpens, StartLog, GroupOpens, Owned, Handles;
      var proc;
      GroupGrows(world.log, world.started, world.files, piped, files, g, k, h, pre, Job(c, cwd));
      proc, files' := StartCommand(world, c, cwd, piped, files);
      piped' := piped + [proc];
      SameHandles(files, files', old(world.files), JobOpens(c, g != []), h, GroupOpens(g));
    }

    /** Wait for a group and close its files. */
    method FinishGroup(world: World, piped: seq<Process>, files: seq<Handle>,
                       ghost g: seq<Job>, ghost k: nat, ghost h: nat, ghost pre: seq<Event>)
      returns (value: int)
      requires GroupOk(world.log, world.started, world.files, piped, files, g, k, h, pre)
      modifies world`log
      ensures value == GroupValue(g, world.codes, k)
      ensures world.log == pre + GroupLog(g, k, h)
      ensures world.started == k + |g| && world.files == h + GroupOpens(g)
    {
      value := ExecPipedCommands(world, piped, g, k);
      CloseFiles(world, files, h, GroupOpens(g));
      AppendThree(pre, StartLog(g, k, h), Waits(k, |g|), Closes(h, GroupOpens(g)));
    }

    /** run(), without the verbose output. */
    method Run(world: World) returns (r: Outcome)
      requires Valid()
      modifies world
      ensures ChainOk(Plan(pipeline, ".", []))
      ensures r == Eval(Plan(pipeline, ".", []), world.codes, old(world.started))
      ensures world.log == old(world.log)
                + Log(Plan(pipeline, ".", []), world.codes, old(world.started), old(world.files))
    {
      hide Plan, Eval, LogAfter, Log, ChainOk, GroupLog, StartLog, GroupValue, GroupOpens, Owned, Todo, Handles,
           WfOpen, WfNodes;
      var rest := pipeline;
      var files: seq<Handle> := [];
      var piped: seq<Process> := [];
      var cwd := ".";
      ghost var g: seq<Job> := [];
      ghost var k: nat, h: nat, pre := world.started, world.files, world.log;
      assert AllCommands(g);
      PlanOk(pipeline, ".", []);
      ghost var outcome := Eval(Plan(pipeline, ".", []), world.codes, k);
      ghost var total := LogAfter(pre, Plan(pipeline, ".", []), world.codes, k, h);
      LogAfterIs(pre, Plan(pipeline, ".", []), world.codes, k, h);
      TodoAll(pipeline, world.codes, k, h, pre);
      NoGroup(k, h, pre);
      while rest != []
        invariant GroupOk(world.log, world.started, world.files, piped, files, g, k, h, pre)
        invariant g != [] ==> piped[|g| - 1].pipedOut
        invariant Todo(rest, cwd, g, world.codes, k, h, pre, outcome, total)
        decreases |rest|
      {
        ghost var before := rest;
        TodoHead(before, cwd, g, world.codes, k, h, pre, outcome, total);
        var node := rest[0];
        rest := rest[1..];
        if node.Chdir? {
          TodoChdir(before, cwd, g, world.codes, k, h, pre, outcome, total);
          if rest == [] {
            return Raised(PopFromEmptyList);
          }
          assert rest[0].And?;
          if node.dir.None? {
            return Raised(JoinWithNone);
          }
          rest := rest[1..];
          assert rest == before[2..];
          cwd := Join(cwd, node.dir.value);
          continue;
        }
        assert node.Command?;
        piped, files := AddCommand(world, node, cwd, piped, files, g, k, h, pre);
        TodoCommand(before, cwd, g, world.codes, k, h, pre, outcome, total, g + [Job(node, cwd)]);
        g := g + [Job(node, cwd)];
        if rest == [] {
          var retval := FinishGroup(world, piped, files, g, k, h, pre);
          return Returned(retval);
        }
        var op := rest[0];
        rest := rest[1..];
        assert rest == before[2..];
        if !op.Pipe? {
          var value := FinishGroup(world, piped, files, g, k, h, pre);
          if op.Or? {
            if value == 0 { return Returned(value); }
          } else {
            if value != 0 { return Returned(value); }
          }
          NoGroup(k + |g|, h + GroupOpens(g), world.log);
          files, piped := [], [];
          k, h, pre, g := k + |g|, h + GroupOpens(g), world.log, [];
        }
      }
      TodoChdir(rest, cwd, g, world.codes, k, h, pre, outcome, total);
      return ReturnedNone;
    }
  }

  /** The log, if it was `pre` before the plan began. */
  function LogAfter(pre: seq<Event>, ch: Chain, codes: nat -> int, k: nat, h: nat): seq<Event>
    requires ChainOk(ch)
    decreases ch
  {
    match ch
    case Last(g) => pre + GroupLog(g, k, h)
    case Then(g, op, rest) =>
      if Proceeds(op, GroupValue(g, codes, k))
      then LogAfter(pre + GroupLog(g, k, h), rest, codes, k + |g|, h + GroupOpens(g))
      else pre + GroupLog(g, k, h)
    case Broken(g, _) => pre + StartLog(g, k, h)
    case Dangling(g) => pre + StartLog(g, k, h)
  }

  lemma {:induction false} LogAfterIs(pre: seq<Event>, ch: Chain, codes: nat -> int, k: nat, h: nat)
    requires ChainOk(ch)
    ensures LogAfter(pre, ch, codes, k, h) == pre + Log(ch, codes, k, h)
    decreases ch
  {
    hide Log, GroupLog, StartLog, GroupOpens, GroupValue;
    var g := ch.group;
    LogOfOne(g, ch, codes, k, h);
    if ch.Then? && Proceeds(ch.op, GroupValue(g, codes, k)) {
      LogAfterIs(pre + GroupLog(g, k, h), ch.rest, codes, k + |g|, h + GroupOpens(g));
      Assoc(pre, GroupLog(g, k, h), Log(ch.rest, codes, k + |g|, h + GroupOpens(g)));
    }
  }

  /** What is left to run yields the outcome and completes the log. */
  ghost predicate Todo(rest: seq<Node>, cwd: string, g: seq<Job>, codes: nat -> int, k: nat, h: nat,
                       pre: seq<Event>, outcome: Outcome, total: seq<Event>)
  {
    (WfOpen(rest) || WfNodes(rest)) && AllCommands(g) &&
    var plan := Plan(rest, cwd, g);
    ChainOk(plan) && outcome == Eval(plan, codes, k) && total == LogAfter(pre, plan, codes, k, h)
  }

  lemma TodoAll(ns: seq<Node>, codes: nat -> int, k: nat, h: nat, pre: seq<Event>)
    requires (WfOpen(ns) || WfNodes(ns)) && ChainOk(Plan(ns, ".", []))
    ensures Todo(ns, ".", [], codes, k, h, pre, Eval(Plan(ns, ".", []), codes, k),
                 LogAfter(pre, Plan(ns, ".", []), codes, k, h))
  {}

  lemma TodoHead(rest: seq<Node>, cwd: string, g: seq<Job>, codes: nat -> int, k: nat, h: nat,
                 pre: seq<Event>, outcome: Outcome, total: seq<Event>)
    requires Todo(rest, cwd, g, codes, k, h, pre, outcome, total) && rest != []
    ensures rest[0].Chdir? || rest[0].Command?
  {}

  /** The loop ends, or meets a `cd`. */
  lemma TodoChdir(rest: seq<Node>, cwd: string, g: seq<Job>, codes: nat -> int, k: nat, h: nat,
                  pre: seq<Event>, outcome: Outcome, total: seq<Event>)
    requires Todo(rest, cwd, g, codes, k, h, pre, outcome, total) && (rest == [] || rest[0].Chdir?)
    ensures rest == [] ==> outcome == ReturnedNone && total == pre + StartLog(g, k, h)
    ensures |rest| == 1 ==> outcome == Raised(PopFromEmptyList) && total == pre + StartLog(g, k, h)
    ensures |rest| > 1 ==> rest[1].And?
    ensures |rest| > 1 && rest[0].dir.None? ==>
              outcome == Raised(JoinWithNone) && total == pre + StartLog(g, k, h)
    ensures |rest| > 1 && rest[0].dir.Some? ==>
              Todo(rest[2..], Join(cwd, rest[0].dir.value), g, codes, k, h, pre, outcome, total)
  {}

  /** What planning does with a command. */
  lemma PlanCommand(rest: seq<Node>, cwd: string, g: seq<Job>, g': seq<Job>)
    requires (WfOpen(rest) || WfNodes(rest)) && AllCommands(g)
    requires rest != [] && rest[0].Command? && g' == g + [Job(rest[0], cwd)]
    ensures AllCommands(g')
    ensures |rest| == 1 ==> Plan(rest, cwd, g) == Last(g')
    ensures |rest| > 1 ==> WfOpen(rest[2..]) || WfNodes(rest[2..])
    ensures |rest| > 1 ==> (rest[1].Pipe? || rest[1].And? || rest[1].Or?) &&
                           (rest[1].Pipe? <==> rest[0].stdout.ToPipe?)
    ensures |rest| > 1 && rest[1].Pipe? ==> Plan(rest, cwd, g) == Plan(rest[2..], cwd, g')
    ensures |rest| > 1 && !rest[1].Pipe? ==> Plan(rest, cwd, g) == Then(g', rest[1], Plan(rest[2..], cwd, []))
  {}

  /** The loop has started one more command. */
  lemma TodoCommand(rest: seq<Node>, cwd: string, g: seq<Job>, codes: nat -> int, k: nat, h: nat,
                    pre: seq<Event>, outcome: Outcome, total: seq<Event>, g': seq<Job>)
    requires Todo(rest, cwd, g, codes, k, h, pre, outcome, total)
    requires rest != [] && rest[0].Command? && g' == g + [Job(rest[0], cwd)]
    ensures AllCommands(g')
    ensures |rest| == 1 ==> outcome == Returned(GroupValue(g', codes, k)) && total == pre + GroupLog(g', k, h)
    ensures |rest| > 1 ==> (rest[1].Pipe? || rest[1].And? || rest[1].Or?) &&
                           (rest[1].Pipe? <==> rest[0].stdout.ToPipe?)
    ensures |rest| > 1 && rest[1].Pipe? ==> Todo(rest[2..], cwd, g', codes, k, h, pre, outcome, total)
    ensures |rest| > 1 && !rest[1].Pipe? && !Proceeds(rest[1], GroupValue(g', codes, k)) ==>
              outcome == Returned(GroupValue(g', codes, k)) && total == pre + GroupLog(g', k, h)
    ensures |rest| > 1 && !rest[1].Pipe? && Proceeds(rest[1], GroupValue(g', codes, k)) ==>
              Todo(rest[2..], cwd, [], codes, k + |g'|, h + GroupOpens(g'), pre + GroupLog(g', k, h), outcome, total)
  {
    hide GroupLog, StartLog, GroupValue, GroupOpens, Plan, WfOpen, WfNodes, Eval, LogAfter, Log, ChainOk, Proceeds;
    var plan := Plan(rest, cwd, g);
    PlanCommand(rest, cwd, g, g');
    if plan.Last? || plan.Then? { ChainHead(pre, plan, codes, k, h); }
  }

  /** The first group of a plan decides how it goes on. */
  lemma ChainHead(pre: seq<Event>, ch: Chain, codes: nat -> int, k: nat, h: nat)
    requires ChainOk(ch) && (ch.Last? || ch.Then?)
    ensures var g, v := ch.group, GroupValue(ch.group, codes, k);
      && (ch.Last? || !Proceeds(ch.op, v) ==>
            Eval(ch, codes, k) == Returned(v) && LogAfter(pre, ch, codes, k, h) == pre + GroupLog(g, k, h))
      && (ch.Then? && Proceeds(ch.op, v) ==>
            ChainOk(ch.rest) && Eval(ch, codes, k) == Eval(ch.rest, codes, k + |g|) &&
            LogAfter(pre, ch, codes, k, h)
              == LogAfter(pre + GroupLog(g, k, h), ch.rest, codes, k + |g|, h + GroupOpens(g)))
  {
    hide GroupLog, StartLog, GroupValue, GroupOpens, Proceeds;
  }

  lemma AddJob(g: seq<Job>, job: Job, k: nat, h: nat)
    requires AllCommands(g) && job.cmd.Command?
    ensures AllCommands(g + [job])
    ensures GroupOpens(g + [job]) == GroupOpens(g) + JobOpens(job.cmd, g != [])
    ensures StartLog(g + [job], k, h) == StartLog(g, k, h) + JobLog(job, g != [], k + |g|, h + GroupOpens(g))
  {
    hide JobLog, JobOpens;
    assert (g + [job])[..|g|] == g;
  }

  lemma Assoc<T>(a: seq<T>, b: seq<T>, c: seq<T>)
    ensures a + b + c == a + (b + c)
  {}

  /** `piped` and `files` are the processes and files of group g, whose first
      command is number k and first file number h; the log has grown from pre. */
  ghost predicate GroupOk(log: seq<Event>, started: nat, opens: nat, piped: seq<Process>, files: seq<Handle>,
                          g: seq<Job>, k: nat, h: nat, pre: seq<Event>)
  {
    && AllCommands(g)
    && |piped| == |g| && (forall i :: 0 <= i < |g| ==> piped[i].id == k + i)
    && started == k + |g| && opens == h + GroupOpens(g)
    && Owned(files) == Handles(h, GroupOpens(g))
    && log == pre + StartLog(g, k, h)
  }

  lemma NoGroup(k: nat, h: nat, log: seq<Event>)
    ensures GroupOk(log, k, h, [], [], [], k, h, log)
  {}

  lemma SameHandles(files: seq<Handle>, files': seq<Handle>, f: nat, n: nat, h: nat, m: nat)
    requires f == h + m && Owned(files) == Handles(h, m) && Owned(files') == Owned(files) + Handles(f, n)
    ensures Owned(files') == Handles(h, m + n)
  {
    HandlesJoin(h, m, n);
  }

  /** One more command in the group. */
  lemma GroupGrows(log: seq<Event>, started: nat, opens: nat, piped: seq<Process>, files: seq<Handle>,
                   g: seq<Job>, k: nat, h: nat, pre: seq<Event>, job: Job)
    requires GroupOk(log, started, opens, piped, files, g, k, h, pre) && job.cmd.Command?
    ensures AllCommands(g + [job])
    ensures GroupOpens(g + [job]) == GroupOpens(g) + JobOpens(job.cmd, g != [])
    ensures pre + StartLog(g + [job], k, h) == log + JobLog(job, g != [], started, opens)
  {
    hide JobLog, JobOpens, StartLog, GroupOpens, Owned, Handles;
    AddJob(g, job, k, h);
    Assoc(pre, StartLog(g, k, h), JobLog(job, g != [], started, opens));
  }

  lemma AppendThree<T>(a: seq<T>, b: seq<T>, c: seq<T>, d: seq<T>)
    ensures a + b + c + d == a + (b + c + d)
  {}

  lemma Regroup<T>(a: seq<T>, b: seq<T>, c: seq<T>, d: seq<T>, e: seq<T>)
    ensures a + b + c + d + e == a + (b + c + d + e)
  {}

  /** The handles h, h + 1, ..., h + n - 1. */
  function Handles(h: nat, n: nat): (s: seq<nat>)
    ensures |s| == n
  {
    if n == 0 then [] else Handles(h, n - 1) + [h + n - 1]
  }

  lemma {:induction false} HandleAt(h: nat, n: nat, i: nat)
    requires i < n
    ensures Handles(h, n)[i] == h + i
  {
    if i < n - 1 { HandleAt(h, n - 1, i); }
  }

  lemma {:induction false} HandlesJoin(h: nat, m: nat, n: nat)
    ensures Handles(h, m) + Handles(h + m, n) == Handles(h, m + n)
  {
    if n > 0 {
      HandlesJoin(h, m, n - 1);
      assert Handles(h, m) + (Handles(h + m, n - 1) + [h + m + n - 1])
             == Handles(h, m) + Handles(h + m, n - 1) + [h + m + n - 1];
    }
  }

  lemma {:induction false} OwnedPrefix(hs: seq<Handle>, i: nat)
    requires i <= |hs|
    ensures Owned(hs[..i]) <= Owned(hs)
    decreases |hs| - i
  {
    if i == |hs| {
      assert hs[..i] == hs;
    } else {
      OwnedPrefix(hs, i + 1);
      assert hs[..i + 1][..i] == hs[..i];
    }
  }
}
