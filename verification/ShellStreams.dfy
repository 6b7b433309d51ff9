/** What the log of a run says about processes, their streams and their directories,
in terms of the commands alone. */
module ShellStreams {
  import opened Wrappers
  import opened ShellParser
  import opened ShellPlan
  import opened ShellRun
  import opened ShellTheorems
  import opened ShellPosix

  // ---------- Streams ----------

  /** The null device, which is never opened again. */
  predicate NullName(name: string) { name == "/dev/null" || name == "NUL:" }

  /** An output stream goes where the command says: to a file that was opened for
      writing before, or to the shared null device. */
  predicate SinkFits(before: seq<Event>, t: Target, s: Sink) {
    match t
    case Inherit => s == SinkInherited
    case ToPipe => s == SinkPipe
    case ToStdout => s == SinkStdout
    case ToFile(name) =>
      if NullName(name) then s == SinkNull else s.SinkFile? && Open(s.handle, name, true) in before
  }

  /** Standard input is a pipe, or the command's file, opened for reading before,
      or inherited if it names none. */
  predicate SourceFits(before: seq<Event>, file: Option<string>, s: Source) {
    match s
    case StdinPipe(_) => true
    case StdinInherited => file == None
    case StdinFile(h) => file.Some? && Open(h, file.value, false) in before
  }

  /** Event i is no start, or the streams of the started command fit, and its files
      were opened in the order input, output, errors. */
  predicate Fed(log: seq<Event>, i: nat)
    requires i < |log|
  {
    log[i].Start? ==>
      var c, e := log[i].job.cmd, log[i];
      && c.Command?
      && SourceFits(log[..i], c.stdin, e.stdin)
      && SinkFits(log[..i], c.stdout, e.stdout)
      && SinkFits(log[..i], c.stderr, e.stderr)
      && (e.stdin.StdinFile? && e.stdout.SinkFile? ==> e.stdin.handle < e.stdout.handle)
      && (e.stdin.StdinFile? && e.stderr.SinkFile? ==> e.stdin.handle < e.stderr.handle)
      && (e.stdout.SinkFile? && e.stderr.SinkFile? ==> e.stdout.handle < e.stderr.handle)
  }

  predicate Uses(e: Event, h: nat) {
    e.Start? && (e.stdin == StdinFile(h) || e.stdout == SinkFile(h) || e.stderr == SinkFile(h))
  }

  /** Event i is no open, or a command started later uses the file. */
  predicate Used(log: seq<Event>, i: nat)
    requires i < |log|
  {
    log[i].Open? ==> exists j :: i < j < |log| && Uses(log[j], log[i].handle)
  }

  predicate Wired(log: seq<Event>) { forall i :: 0 <= i < |log| ==> Fed(log, i) && Used(log, i) }

  lemma WiredJoins(a: seq<Event>, b: seq<Event>)
    requires Wired(a) && Wired(b)
    ensures Wired(a + b)
  {
    hide Wired, SourceFits, SinkFits;
    forall i | 0 <= i < |a + b| ensures Fed(a + b, i) && Used(a + b, i) {
      if i < |a| { WiredLeft(a, b, i); } else { WiredRight(a, b, i - |a|); }
    }
    WiredMeans(a + b);
  }

  lemma WiredMeans(log: seq<Event>)
    ensures Wired(log) <==> forall i :: 0 <= i < |log| ==> Fed(log, i) && Used(log, i)
  {
    hide Fed, Used;
  }

  lemma WiredLeft(a: seq<Event>, b: seq<Event>, i: nat)
    requires Wired(a) && i < |a|
    ensures Fed(a + b, i) && Used(a + b, i)
  {
    hide SourceFits, SinkFits, Uses;
    assert Fed(a, i) && Used(a, i);
    assert (a + b)[..i] == a[..i] && (a + b)[i] == a[i];
    if a[i].Open? {
      var j :| i < j < |a| && Uses(a[j], a[i].handle);
      assert Uses((a + b)[j], a[i].handle);
    }
  }

  lemma WiredRight(a: seq<Event>, b: seq<Event>, i: nat)
    requires Wired(b) && i < |b|
    ensures Fed(a + b, |a| + i) && Used(a + b, |a| + i)
  {
    hide Uses;
    assert Fed(b, i) && Used(b, i);
    assert (a + b)[..|a| + i] == a + b[..i] && (a + b)[|a| + i] == b[i];
    if b[i].Open? {
      var j :| i < j < |b| && Uses(b[j], b[i].handle);
      assert Uses((a + b)[|a| + j], b[i].handle);
    }
  }

  lemma TargetFits(t: Target, h: nat, before: seq<Event>)
    requires forall e :: e in TargetEvents(t, h) ==> e in before
    ensures SinkFits(before, t, SinkOf(t, h))
    ensures forall i :: 0 <= i < |TargetEvents(t, h)| ==>
              TargetEvents(t, h)[i] == Open(h, TargetEvents(t, h)[i].name, true) && SinkOf(t, h) == SinkFile(h)
  {
    if t.ToFile? && !NullName(t.name) { assert TargetEvents(t, h)[0] == Open(h, t.name, true); }
  }

  lemma StdinFits(c: Node, piped: bool, proc: nat, h: nat, before: seq<Event>)
    requires c.Command? && (piped ==> proc > 0)
    requires forall e :: e in StdinEvents(c, piped, h) ==> e in before
    ensures SourceFits(before, c.stdin, SourceOf(c, piped, proc, h))
    ensures forall i :: 0 <= i < |StdinEvents(c, piped, h)| ==>
              StdinEvents(c, piped, h)[i] == Open(h, StdinEvents(c, piped, h)[i].name, false)
              && SourceOf(c, piped, proc, h) == StdinFile(h)
  {
    if !piped && c.stdin.Some? { assert StdinEvents(c, piped, h)[0] == Open(h, c.stdin.value, false); }
  }

  lemma HandleOrder(c: Node, piped: bool, proc: nat, h: nat)
    requires c.Command? && (piped ==> proc > 0)
    ensures var h1 := h + StdinOpens(c, piped);
      var h2 := h1 + TargetOpens(c.stdout);
      var i, o, e := SourceOf(c, piped, proc, h), SinkOf(c.stdout, h1), SinkOf(c.stderr, h2);
      && (i.StdinFile? && o.SinkFile? ==> i.handle < o.handle)
      && (i.StdinFile? && e.SinkFile? ==> i.handle < e.handle)
      && (o.SinkFile? && e.SinkFile? ==> o.handle < e.handle)
  {}

  lemma JobWired(job: Job, piped: bool, proc: nat, h: nat)
    requires job.cmd.Command? && (piped ==> proc > 0)
    ensures Wired(JobLog(job, piped, proc, h))
  {
    hide StdinEvents, TargetEvents, SourceOf, SinkOf, StdinOpens, TargetOpens, SourceFits, SinkFits, Wired;
    var c := job.cmd;
    var h1 := h + StdinOpens(c, piped);
    var h2 := h1 + TargetOpens(c.stdout);
    var a, b, d := StdinEvents(c, piped, h), TargetEvents(c.stdout, h1), TargetEvents(c.stderr, h2);
    var opens := a + b + d;
    var log := JobLog(job, piped, proc, h);
    var n := |opens|;
    assert log == opens + [log[n]] && log[..n] == opens && |log| == n + 1;
    StdinFits(c, piped, proc, h, opens);
    TargetFits(c.stdout, h1, opens);
    TargetFits(c.stderr, h2, opens);
    HandleOrder(c, piped, proc, h);
    assert Fed(log, n);
    forall i | 0 <= i < n ensures log[i].Open? && Uses(log[n], log[i].handle) {
      if i < |a| { assert log[i] == a[i]; }
      else if i < |a + b| { assert log[i] == b[i - |a|]; }
      else { assert log[i] == d[i - |a + b|]; }
    }
    forall i | 0 <= i < |log| ensures Fed(log, i) && Used(log, i) {
      if i < n { assert Uses(log[n], log[i].handle); }
    }
    WiredMeans(log);
  }

  lemma {:induction false} StartsWired(g: seq<Job>, k: nat, h: nat)
    requires AllCommands(g)
    ensures Wired(StartLog(g, k, h))
  {
    hide JobLog, JobOpens, Fed, Used;
    if g != [] {
      var front := g[..|g| - 1];
      StartsWired(front, k, h);
      var last := JobLog(g[|g| - 1], |g| > 1, k + |g| - 1, h + GroupOpens(front));
      JobWired(g[|g| - 1], |g| > 1, k + |g| - 1, h + GroupOpens(front));
      WiredJoins(StartLog(front, k, h), last);
    }
  }

  lemma NeitherStartNorOpen(log: seq<Event>)
    requires forall i :: 0 <= i < |log| ==> !log[i].Start? && !log[i].Open?
    ensures Wired(log)
  {}

  lemma {:induction false} WaitsAre(k: nat, n: nat)
    ensures |Waits(k, n)| == n && forall i :: 0 <= i < n ==> Waits(k, n)[i] == Wait(k + i)
  {
    if n > 0 { WaitsAre(k, n - 1); }
  }

  lemma {:induction false} ClosesAre(h: nat, n: nat)
    ensures |Closes(h, n)| == n && forall i :: 0 <= i < n ==> Closes(h, n)[i] == Close(h + i)
  {
    if n > 0 { ClosesAre(h, n - 1); }
  }

  lemma GroupWired(g: seq<Job>, k: nat, h: nat)
    requires AllCommands(g)
    ensures Wired(GroupLog(g, k, h))
  {
    hide Wired, StartLog, GroupOpens;
    StartsWired(g, k, h);
    WaitsAre(k, |g|);
    ClosesAre(h, GroupOpens(g));
    NeitherStartNorOpen(Waits(k, |g|));
    NeitherStartNorOpen(Closes(h, GroupOpens(g)));
    WiredJoins(StartLog(g, k, h), Waits(k, |g|));
    WiredJoins(StartLog(g, k, h) + Waits(k, |g|), Closes(h, GroupOpens(g)));
  }

  /** In every run: a command that does not read from a pipe reads the file it
      names, opened for reading, or inherits its input; its outputs go where it
      says, to files opened for writing; and no other file is opened. */
  lemma {:induction false} RunWired(ch: Chain, codes: nat -> int, k: nat, h: nat)
    requires ChainOk(ch)
    ensures Wired(Log(ch, codes, k, h))
    decreases ch
  {
    hide Wired, Log, GroupLog, StartLog, GroupOpens, GroupValue;
    var g := ch.group;
    LogOfOne(g, ch, codes, k, h);
    GroupWired(g, k, h);
    StartsWired(g, k, h);
    if ch.Then? && Proceeds(ch.op, GroupValue(g, codes, k)) {
      RunWired(ch.rest, codes, k + |g|, h + GroupOpens(g));
      WiredJoins(GroupLog(g, k, h), Log(ch.rest, codes, k + |g|, h + GroupOpens(g)));
    } else {
      assert GroupLog(g, k, h) + [] == GroupLog(g, k, h);
    }
  }

  // ---------- Waiting ----------

  function Rank(e: Event): nat { if e.Wait? then 1 else if e.Close? then 2 else 0 }

  /** First everything is opened and started, then waited for, then closed. */
  predicate Phased(part: seq<Event>) { forall i, j :: 0 <= i < j < |part| ==> Rank(part[i]) <= Rank(part[j]) }

  function WaitedIn(log: seq<Event>): seq<nat> {
    if log == [] then []
    else WaitedIn(log[..|log| - 1]) + if log[|log| - 1].Wait? then [log[|log| - 1].proc] else []
  }

  function ProcsIn(starts: seq<Event>): seq<nat> {
    seq(|starts|, i requires 0 <= i < |starts| => if starts[i].Start? then starts[i].proc else 0)
  }

  lemma {:induction false} WaitedAppend(a: seq<Event>, b: seq<Event>)
    ensures WaitedIn(a + b) == WaitedIn(a) + WaitedIn(b)
  {
    if b == [] {
      assert a + b == a;
    } else {
      WaitedAppend(a, b[..|b| - 1]);
      assert (a + b)[..|a + b| - 1] == a + b[..|b| - 1];
    }
  }

  lemma {:induction false} WaitedNone(log: seq<Event>)
    requires forall i :: 0 <= i < |log| ==> !log[i].Wait?
    ensures WaitedIn(log) == []
  {
    if log != [] { WaitedNone(log[..|log| - 1]); }
  }

  lemma {:induction false} WaitedAll(k: nat, n: nat)
    ensures WaitedIn(Waits(k, n)) == Handles(k, n)
  {
    if n > 0 {
      WaitedAll(k, n - 1);
      var w := Waits(k, n);
      assert w[..|w| - 1] == Waits(k, n - 1);
    }
  }

  lemma {:induction false} StartsRank(g: seq<Job>, k: nat, h: nat)
    requires AllCommands(g)
    ensures forall i :: 0 <= i < |StartLog(g, k, h)| ==> Rank(StartLog(g, k, h)[i]) == 0
  {
    hide SourceOf, SinkOf, StdinOpens, TargetOpens, GroupOpens;
    if g != [] { StartsRank(g[..|g| - 1], k, h); }
  }

  lemma GroupWaits(g: seq<Job>, k: nat, h: nat)
    requires AllCommands(g)
    ensures Phased(GroupLog(g, k, h)) && WaitedIn(GroupLog(g, k, h)) == ProcsIn(Starts(GroupLog(g, k, h)))
    ensures |Starts(GroupLog(g, k, h))| == |g|
  {
    hide StartLog, GroupOpens, Starts, WaitedIn, Handles;
    StartsRank(g, k, h);
    WaitsAre(k, |g|);
    ClosesAre(h, GroupOpens(g));
    GroupSummary(g, k, h);
    WaitedNone(StartLog(g, k, h));
    WaitedAll(k, |g|);
    WaitedNone(Closes(h, GroupOpens(g)));
    WaitedAppend(StartLog(g, k, h), Waits(k, |g|));
    WaitedAppend(StartLog(g, k, h) + Waits(k, |g|), Closes(h, GroupOpens(g)));
    NumbersFrom(k, |g|);
  }

  lemma {:induction false} NumbersFrom(k: nat, n: nat)
    ensures |Handles(k, n)| == n && forall i :: 0 <= i < n ==> Handles(k, n)[i] == k + i
  {
    if n > 0 { NumbersFrom(k, n - 1); }
  }

  /** Every group that is completed is first started as a whole, then waited for,
      each of its processes once and in order, and only then are files closed. */
  lemma {:induction false} RunGroupsWaited(ch: Chain, codes: nat -> int, k: nat, h: nat, i: nat)
    requires ChainOk(ch) && i < |Logs(ch, codes, k, h)|
    requires Eval(ch, codes, k).Returned? || i < |Logs(ch, codes, k, h)| - 1
    ensures var part := Logs(ch, codes, k, h)[i]; Phased(part) && WaitedIn(part) == ProcsIn(Starts(part))
    decreases ch
  {
    hide Starts, WaitedIn, ProcsIn, Phased, GroupLog, StartLog, GroupOpens, GroupValue;
    if i == 0 {
      GroupWaits(ch.group, k, h);
    } else {
      RunGroupsWaited(ch.rest, codes, k + |ch.group|, h + GroupOpens(ch.group), i - 1);
    }
  }

  // ---------- How far a run goes ----------

  /** The number of commands a line starts: up to the first operator behind a
      command that stops, over all pipes and `cd`s. */
  function StartedFrom(ns: seq<Node>, codes: nat -> int, k: nat): nat
    requires CleanLine(ns)
    decreases |ns|
  {
    if ns[0].Chdir? then StartedFrom(ns[2..], codes, k)
    else if |ns| == 1 then 1
    else if ns[1].Pipe? || (ns[1].And? && codes(k) == 0) || (ns[1].Or? && codes(k) != 0) then
      1 + StartedFrom(ns[2..], codes, k + 1)
    else 1
  }

  lemma {:induction false} PlanStarts(ns: seq<Node>, cwd: string, g: seq<Job>, codes: nat -> int, k: nat, h: nat)
    requires WfNodes(ns) && CleanLine(ns) && AllCommands(g)
    ensures ChainOk(Plan(ns, cwd, g))
    ensures |Starts(Log(Plan(ns, cwd, g), codes, k, h))| == |g| + StartedFrom(ns, codes, k + |g|)
    decreases |ns|
  {
    hide Plan, Join, Log, Starts, GroupLog, GroupOpens, ChainOk;
    PlanOk(ns, cwd, g);
    if ns[0].Chdir? {
      PlanOther(ns, cwd, g);
      PlanStarts(ns[2..], Join(cwd, ns[0].dir.value), g, codes, k, h);
    } else {
      var g' := g + [Job(ns[0], cwd)];
      PlanCommand(ns, cwd, g, g');
      GroupWaits(g', k, h);
      if |ns| == 1 {
        LogOfOne(g', Last(g'), codes, k, h);
      } else if ns[1].Pipe? {
        PlanStarts(ns[2..], cwd, g', codes, k, h);
      } else {
        var rest := Plan(ns[2..], cwd, []);
        var h' := h + GroupOpens(g');
        PlanStarts(ns[2..], cwd, [], codes, k + |g'|, h');
        ChainGoesOn(g', ns[1], rest, codes, k, h);
        StartsAppend(GroupLog(g', k, h), Log(rest, codes, k + |g'|, h'));
        assert GroupLog(g', k, h) + [] == GroupLog(g', k, h);
      }
    }
  }

  /** Exactly so many commands of a line are started; with
      StartedCommandsArePrefix this says which. */
  lemma StartedExactly(ns: seq<Node>, codes: nat -> int)
    requires WfNodes(ns) && !HasBadChdir(ns)
    ensures CleanLine(ns) && ChainOk(Plan(ns, ".", []))
    ensures |Starts(Log(Plan(ns, ".", []), codes, 0, 0))| == StartedFrom(ns, codes, 0)
  {
    hide Plan, Log, Starts, StartedFrom, HasBadChdir, CleanLine, WfNodes;
    CleanLineMeans(ns);
    PlanStarts(ns, ".", [], codes, 0, 0);
  }

  // ---------- Directories ----------

  /** The names between the slashes of a path. */
  function Components(p: string): seq<string> {
    if p == "" then []
    else if p[|p| - 1] == '/' then Components(p[..|p| - 1])
    else
      var n := LastPart(p);
      Components(p[..|p| - n]) + [p[|p| - n..]]
  }

  /** How many characters stand behind the last slash. */
  function LastPart(p: string): (n: nat)
    ensures n <= |p| && (p != "" && p[|p| - 1] != '/' ==> n > 0)
    ensures forall i :: |p| - n <= i < |p| ==> p[i] != '/'
    ensures n < |p| ==> p[|p| - n - 1] == '/'
  {
    if p == "" || p[|p| - 1] == '/' then 0 else 1 + LastPart(p[..|p| - 1])
  }

  predicate IsAbsolute(p: string) { p != "" && p[0] == '/' }

  lemma LastPartIs(p: string, n: nat)
    requires n <= |p| && (forall i :: |p| - n <= i < |p| ==> p[i] != '/') && (n < |p| ==> p[|p| - n - 1] == '/')
    ensures LastPart(p) == n
  {}

  /** The last component and the rest. */
  lemma CutLast(p: string, rest: string, name: string)
    requires p == rest + name && name != "" && '/' !in name && (rest == "" || rest[|rest| - 1] == '/')
    ensures Components(p) == Components(rest) + [name]
  {
    hide LastPart;
    forall i | |p| - |name| <= i < |p| ensures p[i] != '/' { assert p[i] == name[i - |rest|]; }
    LastPartIs(p, |name|);
    assert p[..|p| - |name|] == rest && p[|p| - |name|..] == name;
  }

  lemma LastName(p: string) returns (rest: string, name: string)
    requires p != "" && p[|p| - 1] != '/'
    ensures p == rest + name && name != "" && '/' !in name && (rest == "" || rest[|rest| - 1] == '/')
  {
    var n := |p| - LastPart(p);
    rest, name := p[..n], p[n..];
    forall i | 0 <= i < |name| ensures name[i] != '/' { assert name[i] == p[n + i]; }
  }

  /** A slash at the seam keeps the components of both sides. */
  lemma {:induction false} ComponentsJoin(a: string, b: string)
    requires a == "" || b == "" || a[|a| - 1] == '/'
    ensures Components(a + b) == Components(a) + Components(b)
    decreases |b|
  {
    hide LastPart, Components;
    if b == "" {
      assert a + b == a;
      NoComponents();
    } else if b[|b| - 1] == '/' {
      var b' := b[..|b| - 1];
      ComponentsJoin(a, b');
      assert b == b' + "/" && a + b == (a + b') + "/";
      TrailingSlash(b');
      TrailingSlash(a + b');
    } else {
      var rest, name := LastName(b);
      ComponentsJoin(a, rest);
      assert a + b == (a + rest) + name;
      CutLast(b, rest, name);
      CutLast(a + b, a + rest, name);
    }
  }

  lemma NoComponents()
    ensures Components("") == []
  {}

  lemma TrailingSlash(a: string)
    ensures Components(a + "/") == Components(a)
  {
    assert (a + "/")[..|a|] == a;
  }

  /** What changing directory means: an absolute directory replaces the current
      one, a relative one is appended to it, component by component. */
  lemma JoinIsDescent(a: string, b: string)
    ensures Components(Join(a, b)) == if IsAbsolute(b) then Components(b) else Components(a) + Components(b)
    ensures IsAbsolute(Join(a, b)) <==> IsAbsolute(a) || IsAbsolute(b)
    ensures Join("", b) == b
  {
    hide Components;
    if !IsAbsolute(b) {
      if a == "" || a[|a| - 1] == '/' {
        ComponentsJoin(a, b);
      } else {
        TrailingSlash(a);
        ComponentsJoin(a + "/", b);
      }
    }
    assert "" + b == b;
  }

  function Seam(a: string): string { if a == "" || a[|a| - 1] == '/' then "" else "/" }

  lemma JoinRelative(a: string, b: string)
    requires !IsAbsolute(b)
    ensures Join(a, b) == a + Seam(a) + b
  {
    assert a + "" == a;
  }

  lemma JoinAbsolute(a: string, b: string)
    requires IsAbsolute(b)
    ensures Join(a, b) == b
  {}

  /** Two `cd`s in a row are one into the joined directory. */
  lemma JoinAssociative(a: string, b: string, c: string)
    ensures Join(Join(a, b), c) == Join(a, Join(b, c))
  {
    hide Join, Components;
    if IsAbsolute(c) {
      JoinAbsolute(Join(a, b), c);
      JoinAbsolute(b, c);
      JoinAbsolute(a, c);
    } else {
      JoinRelative(b, c);
      JoinRelative(Join(a, b), c);
      var bc := b + Seam(b) + c;
      if IsAbsolute(b) {
        JoinAbsolute(a, b);
        assert bc[0] == b[0];
        JoinAbsolute(a, bc);
      } else {
        JoinRelative(a, b);
        RelativeStays(b, c);
        JoinRelative(a, bc);
        SeamTwice(a, b, c);
      }
    }
  }

  lemma RelativeStays(b: string, c: string)
    requires !IsAbsolute(b) && !IsAbsolute(c)
    ensures !IsAbsolute(b + Seam(b) + c)
  {
    if b != "" { assert (b + Seam(b) + c)[0] == b[0]; } else { assert b + Seam(b) + c == c; }
  }

  lemma SeamTwice(a: string, b: string, c: string)
    ensures var ab := a + Seam(a) + b; ab + Seam(ab) + c == a + Seam(a) + (b + Seam(b) + c)
  {
    var ab := a + Seam(a) + b;
    if b == "" {
      assert ab == a + Seam(a) && Seam(ab) == "";
      assert b + Seam(b) + c == c;
    } else {
      assert ab[|ab| - 1] == b[|b| - 1];
      assert Seam(ab) == Seam(b);
    }
  }
}
