/** The value of a command line under shellcmd.py, compared with AND-OR lists as
section 2.9.3 of the POSIX Shell Command Language defines them. */
module ShellPosix {
  import opened Wrappers
  import opened ShellParser
  import opened ShellPlan
  import opened ShellRun
  import opened ShellTheorems

  /** A parsed line on which run() cannot fail. */
  predicate CleanLine(ns: seq<Node>) {
    ns != [] &&
    if |ns| == 1 then ns[0].Command?
    else
      && (if ns[0].Chdir? then ns[0].dir.Some? && ns[1].And?
          else ns[0].Command? && (ns[1].Pipe? || ns[1].And? || ns[1].Or?))
      && CleanLine(ns[2..])
  }

  lemma {:induction false} CleanLineMeans(ns: seq<Node>)
    requires WfNodes(ns) && !HasBadChdir(ns)
    ensures CleanLine(ns)
    decreases |ns|
  {
    if |ns| == 1 {
      assert !BadChdir(ns, 0);
    } else {
      assert !BadChdir(ns, 0);
      BadChdirLater(ns);
      CleanLineMeans(ns[2..]);
    }
  }

  // ---------- The two readings ----------

  /** POSIX: `&&` and `||` associate to the left with equal precedence, so a
      skipped pipeline leaves the status as it is and the next operator looks at
      it again.  A pipeline has the status of its last element; `cd` succeeds.
      `runs` says whether the pipeline that starts or continues here is run, and
      command number k is the next one on the line. */
  function PosixFrom(ns: seq<Node>, runs: bool, status: int, codes: nat -> int, k: nat): int
    decreases |ns|
  {
    if ns == [] then status
    else
      var value := if ns[0].Command? then codes(k) else 0;
      var k' := if ns[0].Command? then k + 1 else k;
      if |ns| > 1 && ns[1].Pipe? then PosixFrom(ns[2..], runs, status, codes, k')
      else
        var status' := if runs then value else status;
        if |ns| == 1 then status'
        else PosixFrom(ns[2..], if ns[1].Or? then status' != 0 else status' == 0, status', codes, k')
  }

  function Posix(ns: seq<Node>, codes: nat -> int): int { PosixFrom(ns, true, 0, codes, 0) }

  /** shellcmd.py: a `cd` only changes the directory, and the first operator
      behind a command that stops ends the line. */
  function RunFrom(ns: seq<Node>, codes: nat -> int, k: nat): int
    requires CleanLine(ns)
    decreases |ns|
  {
    if ns[0].Chdir? then RunFrom(ns[2..], codes, k)
    else if |ns| == 1 then codes(k)
    else if ns[1].Pipe? then RunFrom(ns[2..], codes, k + 1)
    else if ns[1].Or? then (if codes(k) != 0 then RunFrom(ns[2..], codes, k + 1) else codes(k))
    else if codes(k) == 0 then RunFrom(ns[2..], codes, k + 1)
    else codes(k)
  }

  /** That is what evaluating the plan gives. */
  lemma {:induction false} EvalIsRun(ns: seq<Node>, cwd: string, g: seq<Job>, codes: nat -> int, k: nat)
    requires WfNodes(ns) && CleanLine(ns) && AllCommands(g)
    ensures Eval(Plan(ns, cwd, g), codes, k) == Returned(RunFrom(ns, codes, k + |g|))
    decreases |ns|
  {
    hide Plan, Join;
    if ns[0].Chdir? {
      PlanOther(ns, cwd, g);
      EvalIsRun(ns[2..], Join(cwd, ns[0].dir.value), g, codes, k);
    } else {
      var g' := g + [Job(ns[0], cwd)];
      PlanCommand(ns, cwd, g, g');
      if |ns| > 1 {
        if ns[1].Pipe? { EvalIsRun(ns[2..], cwd, g', codes, k); }
        else { EvalIsRun(ns[2..], cwd, [], codes, k + |g'|); }
      }
    }
  }

  // ---------- Operators ----------

  /** All `&&` and `||` of a line. */
  function AndOrs(ns: seq<Node>): seq<Node>
    decreases |ns|
  {
    if |ns| <= 1 then []
    else if ns[1].Pipe? then AndOrs(ns[2..])
    else [ns[1]] + AndOrs(ns[2..])
  }

  /** Without those that only lead from a `cd` at the head of the line to what
      follows it: `cd d && a || b` has one operator that counts. */
  function Deciding(ns: seq<Node>): seq<Node>
    decreases |ns|
  {
    if |ns| <= 1 then []
    else if ns[0].Chdir? || ns[1].Pipe? then Deciding(ns[2..])
    else [ns[1]] + AndOrs(ns[2..])
  }

  predicate AllAre(ops: seq<Node>, op: Node) { forall i :: 0 <= i < |ops| ==> ops[i] == op }

  predicate AllEqual(ops: seq<Node>) { ops == [] || AllAre(ops, ops[0]) }

  lemma HeadAndTail(head: Node, tail: seq<Node>, op: Node)
    ensures AllAre([head] + tail, op) <==> head == op && AllAre(tail, op)
  {
    var all := [head] + tail;
    assert all[0] == head && all[1..] == tail;
    if AllAre(all, op) {
      forall i | 0 <= i < |tail| ensures tail[i] == op { assert all[i + 1] == op; }
    }
  }

  // ---------- One operator: the readings agree ----------

  /** With one operator a stop is final in POSIX too. */
  lemma {:induction false} SkipsAll(ns: seq<Node>, op: Node, status: int, codes: nat -> int, k: nat)
    requires AllAre(AndOrs(ns), op) && !Proceeds(op, status)
    ensures PosixFrom(ns, false, status, codes, k) == status
    decreases |ns|
  {
    if |ns| > 1 {
      var k' := if ns[0].Command? then k + 1 else k;
      if !ns[1].Pipe? { HeadAndTail(ns[1], AndOrs(ns[2..]), op); }
      SkipsAll(ns[2..], op, status, codes, k');
    }
  }

  lemma {:induction false} OneOperatorAgrees(ns: seq<Node>, op: Node, status: int, codes: nat -> int, k: nat)
    requires CleanLine(ns) && AllAre(AndOrs(ns), op)
    ensures PosixFrom(ns, true, status, codes, k) == RunFrom(ns, codes, k)
    decreases |ns|
  {
    if |ns| > 1 {
      if ns[1].Pipe? {
        OneOperatorAgrees(ns[2..], op, status, codes, k + 1);
      } else {
        HeadAndTail(ns[1], AndOrs(ns[2..]), op);
        if ns[0].Chdir? { OneOperatorAgrees(ns[2..], op, 0, codes, k); }
        else if Proceeds(op, codes(k)) { OneOperatorAgrees(ns[2..], op, codes(k), codes, k + 1); }
        else { SkipsAll(ns[2..], op, codes(k), codes, k + 1); }
      }
    }
  }

  lemma {:induction false} HeadAgrees(ns: seq<Node>, status: int, codes: nat -> int, k: nat)
    requires CleanLine(ns) && AllEqual(Deciding(ns))
    ensures PosixFrom(ns, true, status, codes, k) == RunFrom(ns, codes, k)
    decreases |ns|
  {
    if |ns| > 1 {
      if ns[0].Chdir? {
        HeadAgrees(ns[2..], 0, codes, k);
      } else if ns[1].Pipe? {
        HeadAgrees(ns[2..], status, codes, k + 1);
      } else {
        HeadAndTail(ns[1], AndOrs(ns[2..]), ns[1]);
        if Proceeds(ns[1], codes(k)) { OneOperatorAgrees(ns[2..], ns[1], codes(k), codes, k + 1); }
        else { SkipsAll(ns[2..], ns[1], codes(k), codes, k + 1); }
      }
    }
  }

  // ---------- Mixed operators: they do not ----------

  /** Every command from number k on exits with x. */
  ghost predicate ConstantFrom(codes: nat -> int, k: nat, x: int) {
    forall i: nat :: k <= i ==> codes(i) == x
  }

  /** Once a pipeline runs, or the status is x, the line ends with x. */
  lemma {:induction false} EndsWith(x: int, ns: seq<Node>, runs: bool, status: int, codes: nat -> int, k: nat)
    requires CleanLine(ns) && ConstantFrom(codes, k, x) && (x == 0 || x == 1) && (runs || status == x)
    ensures PosixFrom(ns, runs, status, codes, k) == x
    decreases |ns|
  {
    if |ns| > 1 {
      var k' := if ns[0].Command? then k + 1 else k;
      if ns[1].Pipe? {
        EndsWith(x, ns[2..], runs, status, codes, k');
      } else {
        var status' := if !runs then status else if ns[0].Command? then codes(k) else 0;
        EndsWith(x, ns[2..], Proceeds(ns[1], status'), status', codes, k');
      }
    }
  }

  /** With a different operator further on, POSIX resumes there. */
  lemma {:induction false} Resumes(ns: seq<Node>, op: Node, status: int, x: int, codes: nat -> int, k: nat)
    requires CleanLine(ns) && (op.And? || op.Or?) && !AllAre(AndOrs(ns), op) && !Proceeds(op, status)
    requires ConstantFrom(codes, k, x) && (x == 0 || x == 1)
    ensures PosixFrom(ns, false, status, codes, k) == x
    decreases |ns|
  {
    if |ns| > 1 {
      var k' := if ns[0].Command? then k + 1 else k;
      if ns[1].Pipe? {
        Resumes(ns[2..], op, status, x, codes, k');
      } else {
        HeadAndTail(ns[1], AndOrs(ns[2..]), op);
        if ns[1] == op { Resumes(ns[2..], op, status, x, codes, k'); }
        else { EndsWith(x, ns[2..], true, status, codes, k'); }
      }
    }
  }

  /** The number of commands up to the first operator that counts. */
  function HeadCommands(ns: seq<Node>): nat
    decreases |ns|
  {
    if |ns| <= 1 then 0
    else if ns[0].Chdir? then HeadCommands(ns[2..])
    else if ns[1].Pipe? then 1 + HeadCommands(ns[2..])
    else 1
  }

  /** The first n commands exit with `first`, all others with x. */
  function FirstThen(n: nat, first: int, x: int): nat -> int {
    (i: nat) => if i < n then first else x
  }

  lemma {:induction false} HeadDiffers(ns: seq<Node>, first: int, x: int, status: int, codes: nat -> int, k: nat)
    requires CleanLine(ns) && !AllEqual(Deciding(ns)) && (x == 0 || x == 1) && first == 1 - x
    requires !Proceeds(Deciding(ns)[0], first)
    requires forall i: nat :: k <= i ==> codes(i) == if i < k + HeadCommands(ns) then first else x
    ensures PosixFrom(ns, true, status, codes, k) == x && RunFrom(ns, codes, k) == first
    decreases |ns|
  {
    if ns[0].Chdir? {
      HeadDiffers(ns[2..], first, x, 0, codes, k);
    } else if ns[1].Pipe? {
      HeadDiffers(ns[2..], first, x, status, codes, k + 1);
    } else {
      HeadAndTail(ns[1], AndOrs(ns[2..]), ns[1]);
      Resumes(ns[2..], ns[1], first, x, codes, k + 1);
    }
  }

  lemma {:induction false} DecidingIsAndOr(ns: seq<Node>)
    requires CleanLine(ns) && Deciding(ns) != []
    ensures Deciding(ns)[0].And? || Deciding(ns)[0].Or?
    decreases |ns|
  {
    if ns[0].Chdir? || ns[1].Pipe? { DecidingIsAndOr(ns[2..]); }
  }

  // ---------- The exact condition ----------

  ghost predicate AgreesWithPosix(ns: seq<Node>, codes: nat -> int)
    requires WfNodes(ns)
  {
    Eval(Plan(ns, ".", []), codes, 0) == Returned(Posix(ns, codes))
  }

  /** For a parsed line without a bad `cd`: run() returns the POSIX status for
      all exit codes if and only if, `cd`s at its head apart, the line uses one
      AND-OR operator throughout; an `&&` behind a later `cd` counts. */
  lemma LineAgreesWithPosixExactlyWhen(ns: seq<Node>)
    requires WfNodes(ns) && !HasBadChdir(ns)
    ensures (forall codes :: AgreesWithPosix(ns, codes)) <==> AllEqual(Deciding(ns))
  {
    hide Plan, WfNodes, Eval, HasBadChdir, PosixFrom, RunFrom, CleanLine, Deciding;
    CleanLineMeans(ns);
    if AllEqual(Deciding(ns)) {
      forall codes ensures AgreesWithPosix(ns, codes) {
        EvalIsRun(ns, ".", [], codes, 0);
        HeadAgrees(ns, 0, codes, 0);
      }
    } else {
      DecidingIsAndOr(ns);
      var x := if Deciding(ns)[0].And? then 0 else 1;
      var codes := FirstThen(HeadCommands(ns), 1 - x, x);
      EvalIsRun(ns, ".", [], codes, 0);
      HeadDiffers(ns, 1 - x, x, 0, codes, 0);
      assert !AgreesWithPosix(ns, codes);
    }
  }

  /** A simple command without redirections. */
  function Simple(name: string): Node { Command(name, [], None, Inherit, Inherit, []) }

  /** `a || cd d && b` with a succeeding and b failing: run() stops behind a with
      0, POSIX reads `(a || cd d) && b`, runs b and ends with 1. */
  lemma ChdirInTheMiddle()
    ensures var ns := [Simple("a"), Or, Chdir(Some("d")), And, Simple("b")];
      var codes := FirstThen(1, 0, 1);
      && WfNodes(ns) && !AllEqual(Deciding(ns))
      && Eval(Plan(ns, ".", []), codes, 0) == Returned(0)
      && Posix(ns, codes) == 1
  {
    var ns := [Simple("a"), Or, Chdir(Some("d")), And, Simple("b")];
    var codes := FirstThen(1, 0, 1);
    var tail, last := ns[2..], ns[4..];
    assert tail == [Chdir(Some("d")), And, Simple("b")] && tail[2..] == last == [Simple("b")];
    assert FirstEquals("a") == 1 && FirstEquals("b") == 1;
    assert AndOrs(last) == [] && AndOrs(tail) == [And] + AndOrs(last);
    assert Deciding(ns) == [Or] + AndOrs(tail) == [Or, And];
    assert Deciding(ns)[1] == And;
    assert WfNodes(last) && WfNodes(tail);
    assert GroupValue([Job(ns[0], ".")], codes, 0) == 0;
    assert PosixFrom(last, true, 0, codes, 1) == 1;
    assert PosixFrom(tail, false, 0, codes, 1) == 1;
  }
}
