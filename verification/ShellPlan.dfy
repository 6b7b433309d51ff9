/** What running a node list means, independently of how shellcmd.py does it:
the list is cut into pipe groups joined by `&&` and `||`, and evaluated as a
right-nested expression.  The log records what the outside world sees. */
module ShellPlan {
  import opened ShellParser

  /** A command with the directory it runs in. */
  datatype Job = Job(cmd: Node, cwd: string)

  datatype Failure = PopFromEmptyList | JoinWithNone

  /** A plan: groups with the operators between them.  `Broken` is a `cd` that
      stops the interpreter; `Dangling` is a list that ends in an operator. */
  datatype Chain =
    | Last(group: seq<Job>)
    | Then(group: seq<Job>, op: Node, rest: Chain)
    | Broken(group: seq<Job>, why: Failure)
    | Dangling(group: seq<Job>)

  datatype Outcome = Returned(code: int) | ReturnedNone | Raised(why: Failure)

  datatype Source = StdinInherited | StdinPipe(producer: nat) | StdinFile(handle: nat)

  datatype Sink = SinkInherited | SinkPipe | SinkStdout | SinkNull | SinkFile(handle: nat)

  datatype Event =
    | Open(handle: nat, name: string, forWriting: bool)
    | Start(proc: nat, job: Job, stdin: Source, stdout: Sink, stderr: Sink)
    | Wait(proc: nat)
    | Close(handle: nat)

  /** os.path.join for POSIX paths. */
  function Join(a: string, b: string): string {
    if b != "" && b[0] == '/' then b
    else if a == "" || a[|a| - 1] == '/' then a + b
    else a + "/" + b
  }

  predicate IsNullDevice(name: string) { name == "NUL:" || name == "/dev/null" }

  // ---------- Planning ----------

  function Plan(ns: seq<Node>, cwd: string, group: seq<Job>): Chain
    requires WfOpen(ns) || WfNodes(ns)
    decreases |ns|
  {
    if ns == [] then Dangling(group)
    else if ns[0].Chdir? then
      if |ns| == 1 then Broken(group, PopFromEmptyList)
      else if ns[0].dir.None? then Broken(group, JoinWithNone)
      else Plan(ns[2..], Join(cwd, ns[0].dir.value), group)
    else
      var g := group + [Job(ns[0], cwd)];
      if |ns| == 1 then Last(g)
      else if ns[1].Pipe? then Plan(ns[2..], cwd, g)
      else Then(g, ns[1], Plan(ns[2..], cwd, []))
  }

  // ---------- Values ----------

  /** The value of a group whose first command is number k: the exit code of its
      last command. */
  function GroupValue(group: seq<Job>, codes: nat -> int, k: nat): int {
    if group == [] then 0 else codes(k + |group| - 1)
  }

  /** Does the part after the operator run, given the value before it? */
  predicate Proceeds(op: Node, value: int) {
    if op.Or? then value != 0 else value == 0
  }

  function Eval(ch: Chain, codes: nat -> int, k: nat): Outcome {
    match ch
    case Last(g) => Returned(GroupValue(g, codes, k))
    case Then(g, op, rest) =>
      var v := GroupValue(g, codes, k);
      if Proceeds(op, v) then Eval(rest, codes, k + |g|) else Returned(v)
    case Broken(_, why) => Raised(why)
    case Dangling(_) => ReturnedNone
  }

  // ---------- The log ----------

  function StdinOpens(c: Node, piped: bool): nat
    requires c.Command?
  {
    if !piped && c.stdin.Some? then 1 else 0
  }

  function TargetOpens(t: Target): nat {
    if t.ToFile? && !IsNullDevice(t.name) then 1 else 0
  }

  function StdinEvents(c: Node, piped: bool, h: nat): seq<Event>
    requires c.Command?
  {
    if !piped && c.stdin.Some? then [Open(h, c.stdin.value, false)] else []
  }

  function TargetEvents(t: Target, h: nat): seq<Event> {
    if t.ToFile? && !IsNullDevice(t.name) then [Open(h, t.name, true)] else []
  }

  function SourceOf(c: Node, piped: bool, proc: nat, h: nat): Source
    requires c.Command? && (piped ==> proc > 0)
  {
    if piped then StdinPipe(proc - 1) else if c.stdin.Some? then StdinFile(h) else StdinInherited
  }

  function SinkOf(t: Target, h: nat): Sink {
    match t
    case Inherit => SinkInherited
    case ToPipe => SinkPipe
    case ToStdout => SinkStdout
    case ToFile(name) => if IsNullDevice(name) then SinkNull else SinkFile(h)
  }

  function JobOpens(c: Node, piped: bool): nat
    requires c.Command?
  {
    StdinOpens(c, piped) + TargetOpens(c.stdout) + TargetOpens(c.stderr)
  }

  /** Starting command number `proc` with `h` files opened before. */
  function JobLog(job: Job, piped: bool, proc: nat, h: nat): seq<Event>
    requires job.cmd.Command? && (piped ==> proc > 0)
  {
    var c := job.cmd;
    var h1 := h + StdinOpens(c, piped);
    var h2 := h1 + TargetOpens(c.stdout);
    StdinEvents(c, piped, h) + TargetEvents(c.stdout, h1) + TargetEvents(c.stderr, h2)
    + [Start(proc, job, SourceOf(c, piped, proc, h), SinkOf(c.stdout, h1), SinkOf(c.stderr, h2))]
  }

  predicate AllCommands(g: seq<Job>) { forall i :: 0 <= i < |g| ==> g[i].cmd.Command? }

  function GroupOpens(g: seq<Job>): nat
    requires AllCommands(g)
  {
    if g == [] then 0 else GroupOpens(g[..|g| - 1]) + JobOpens(g[|g| - 1].cmd, |g| > 1)
  }

  /** Starting the commands of a group, left to right. */
  function StartLog(g: seq<Job>, k: nat, h: nat): seq<Event>
    requires AllCommands(g)
  {
    if g == [] then []
    else
      var front := g[..|g| - 1];
      StartLog(front, k, h) + JobLog(g[|g| - 1], |g| > 1, k + |g| - 1, h + GroupOpens(front))
  }

  /** Waiting for processes k .. k + n - 1 in order. */
  function Waits(k: nat, n: nat): seq<Event> {
    if n == 0 then [] else Waits(k, n - 1) + [Wait(k + n - 1)]
  }

  /** Closing files h .. h + n - 1 in order. */
  function Closes(h: nat, n: nat): seq<Event> {
    if n == 0 then [] else Closes(h, n - 1) + [Close(h + n - 1)]
  }

  /** A group from its first open to its last close. */
  function GroupLog(g: seq<Job>, k: nat, h: nat): seq<Event>
    requires AllCommands(g)
  {
    StartLog(g, k, h) + Waits(k, |g|) + Closes(h, GroupOpens(g))
  }

  predicate ChainOk(ch: Chain) {
    AllCommands(ch.group) &&
    match ch
    case Last(g) => g != []
    case Then(g, op, rest) => g != [] && (op.And? || op.Or?) && ChainOk(rest)
    case _ => true
  }

  /** The log of a whole run, group by group; the last piece belongs to a group
      that is never waited for when the plan breaks off. */
  function Logs(ch: Chain, codes: nat -> int, k: nat, h: nat): seq<seq<Event>>
    requires ChainOk(ch)
  {
    match ch
    case Last(g) => [GroupLog(g, k, h)]
    case Then(g, op, rest) =>
      [GroupLog(g, k, h)] +
      (if Proceeds(op, GroupValue(g, codes, k)) then Logs(rest, codes, k + |g|, h + GroupOpens(g)) else [])
    case Broken(g, _) => [StartLog(g, k, h)]
    case Dangling(g) => [StartLog(g, k, h)]
  }

  function Flatten(parts: seq<seq<Event>>): seq<Event> {
    if parts == [] then [] else parts[0] + Flatten(parts[1..])
  }

  function Log(ch: Chain, codes: nat -> int, k: nat, h: nat): seq<Event>
    requires ChainOk(ch)
  {
    Flatten(Logs(ch, codes, k, h))
  }

  lemma {:induction false} PlanOk(ns: seq<Node>, cwd: string, group: seq<Job>)
    requires (WfOpen(ns) || WfNodes(ns)) && AllCommands(group)
    ensures ChainOk(Plan(ns, cwd, group))
    decreases |ns|
  {
    if ns != [] && ns[0].Chdir? {
      if |ns| > 1 && ns[0].dir.Some? { PlanOk(ns[2..], Join(cwd, ns[0].dir.value), group); }
    } else if |ns| > 1 {
      var g := group + [Job(ns[0], cwd)];
      PlanOk(ns[2..], cwd, if ns[1].Pipe? then g else []);
    }
  }

  lemma LogOfOne(g: seq<Job>, ch: Chain, codes: nat -> int, k: nat, h: nat)
    requires ChainOk(ch) && ch.group == g
    ensures ch.Last? ==> Log(ch, codes, k, h) == GroupLog(g, k, h)
    ensures ch.Broken? || ch.Dangling? ==> Log(ch, codes, k, h) == StartLog(g, k, h)
    ensures ch.Then? ==>
      Log(ch, codes, k, h) == GroupLog(g, k, h) +
        (if Proceeds(ch.op, GroupValue(g, codes, k)) then Log(ch.rest, codes, k + |g|, h + GroupOpens(g)) else [])
  {
    var parts := Logs(ch, codes, k, h);
    assert Flatten(parts) == parts[0] + Flatten(parts[1..]);
    if ch.Then? && Proceeds(ch.op, GroupValue(g, codes, k)) {
      assert parts[1..] == Logs(ch.rest, codes, k + |g|, h + GroupOpens(g));
    } else {
      assert parts[1..] == [];
    }
  }

  /** Behind a group whose last command exits with c: `&&` goes on exactly when c
      is 0 and `||` exactly when it is not; otherwise c is the value, and nothing
      more is opened, started, waited for or closed. */
  lemma ChainGoesOn(g: seq<Job>, op: Node, rest: Chain, codes: nat -> int, k: nat, h: nat)
    requires ChainOk(Then(g, op, rest))
    ensures var c := codes(k + |g| - 1);
      var goesOn := (op == And && c == 0) || (op == Or && c != 0);
      && Eval(Then(g, op, rest), codes, k) == (if goesOn then Eval(rest, codes, k + |g|) else Returned(c))
      && Log(Then(g, op, rest), codes, k, h) ==
           GroupLog(g, k, h) + if goesOn then Log(rest, codes, k + |g|, h + GroupOpens(g)) else []
  {
    hide Log, GroupLog, GroupOpens;
    LogOfOne(g, Then(g, op, rest), codes, k, h);
  }
}
