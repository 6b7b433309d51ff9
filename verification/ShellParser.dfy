/** The command-line parser of waf-tools/shellcmd.py: a token machine with six
states that builds a list of commands, directory changes and operators. */
module ShellParser {
  import opened Wrappers

  /** Where an output stream goes: not redirected, into a pipe, merged with
      stdout, or into a named file. */
  datatype Target = Inherit | ToPipe | ToStdout | ToFile(name: string)

  /** An insertion-ordered dictionary. */
  type Dict = seq<(string, string)>

  datatype Node =
    | Command(name: string, args: seq<string>, stdin: Option<string>, stdout: Target, stderr: Target, env: Dict)
    | Chdir(dir: Option<string>)
    | Pipe
    | And
    | Or

  datatype Mode = BEGIN | COMMAND | CHDIR | STDERR | STDOUT | STDIN

  /** The parser's variables; `current` and `done` are the fields
      current_command and pipeline. */
  datatype Parser = Parser(mode: Mode, env: Dict, current: Option<Node>, done: seq<Node>)

  // ---------- Environment assignments ----------

  predicate WordChar(c: char) {
    'a' <= c <= 'z' || 'A' <= c <= 'Z' || '0' <= c <= '9' || c == '_'
  }

  /** The characters that Python's `\s` matches in text. */
  predicate Space(c: char) {
    var u := c as int;
    9 <= u <= 13 || 28 <= u <= 32 || u == 0x85 || u == 0xA0 || u == 0x1680 || 0x2000 <= u <= 0x200A
    || u == 0x2028 || u == 0x2029 || u == 0x202F || u == 0x205F || u == 0x3000
  }

  predicate IsName(s: string) { s != "" && forall i :: 0 <= i < |s| ==> WordChar(s[i]) }

  predicate IsValue(s: string) { s != "" && forall i :: 0 <= i < |s| ==> !Space(s[i]) }

  /** Position of the first '=' of s, or |s|. */
  function FirstEquals(s: string): (i: nat)
    ensures i <= |s| && (forall j :: 0 <= j < i ==> s[j] != '=') && (i < |s| ==> s[i] == '=')
  {
    if s == "" || s[0] == '=' then 0 else 1 + FirstEquals(s[1..])
  }

  /** `^([a-zA-Z0-9_]+)=(\S+)$`, where `$` also matches before a final newline. */
  function MatchEnv(token: string): Option<(string, string)> {
    var body := if token != "" && token[|token| - 1] == '\n' then token[..|token| - 1] else token;
    var i := FirstEquals(body);
    if i < |body| && IsName(body[..i]) && IsValue(body[i + 1..]) then Some((body[..i], body[i + 1..])) else None
  }

  predicate HasKey(d: Dict, k: string) { exists i :: 0 <= i < |d| && d[i].0 == k }

  /** `d[k] = v`: an existing key keeps its place. */
  function Put(d: Dict, k: string, v: string): Dict {
    if d == [] then [(k, v)]
    else if d[0].0 == k then [(k, v)] + d[1..]
    else [d[0]] + Put(d[1..], k, v)
  }

  // ---------- The token machine ----------

  const START := Parser(BEGIN, [], None, [])

  /** current_command is set exactly outside BEGIN, and is of the right class. */
  predicate ModeOk(p: Parser) {
    match p.mode
    case BEGIN => p.current.None?
    case CHDIR => p.current.Some? && p.current.value.Chdir? && p.env == []
    case _ => p.current.Some? && p.current.value.Command? && p.env == []
  }

  /** Push the finished operand and an operator. */
  function Operator(p: Parser, operand: Node, op: Node): Parser {
    Parser(BEGIN, p.env, None, p.done + [operand, op])
  }

  /** One turn of the loop; None is a failed assertion. */
  function Step(p: Parser, token: string): (r: Option<Parser>)
    requires ModeOk(p)
    ensures r.Some? ==> ModeOk(r.value)
  {
    match p.mode
    case BEGIN =>
      (match MatchEnv(token)
       case Some((k, v)) => Some(p.(env := Put(p.env, k, v)))
       case None =>
         if token == "cd" then
           if p.env == [] then Some(p.(mode := CHDIR, current := Some(Chdir(None)))) else None
         else
           Some(Parser(COMMAND, [], Some(Command(token, [], None, Inherit, Inherit, p.env)), p.done)))
    case COMMAND =>
      var c := p.current.value;
      if token == ">" then Some(p.(mode := STDOUT))
      else if token == "2>" then Some(p.(mode := STDERR))
      else if token == "2>&1" then
        if c.stderr.Inherit? then Some(p.(current := Some(c.(stderr := ToStdout)))) else None
      else if token == "<" then Some(p.(mode := STDIN))
      else if token == "|" then
        if c.stdout.Inherit? then Some(Operator(p, c.(stdout := ToPipe), Pipe)) else None
      else if token == "&&" then Some(Operator(p, c, And))
      else if token == "||" then Some(Operator(p, c, Or))
      else Some(p.(current := Some(c.(args := c.args + [token]))))
    case CHDIR =>
      var c := p.current.value;
      if token == "&&" then Some(Operator(p, c, And))
      else if c.dir.None? then Some(p.(current := Some(Chdir(Some(token))))) else None
    case STDOUT =>
      var c := p.current.value;
      if c.stdout.Inherit? then Some(p.(mode := COMMAND, current := Some(c.(stdout := ToFile(token))))) else None
    case STDERR =>
      var c := p.current.value;
      if c.stderr.Inherit? then Some(p.(mode := COMMAND, current := Some(c.(stderr := ToFile(token))))) else None
    case STDIN =>
      var c := p.current.value;
      if c.stdin.None? then Some(p.(mode := COMMAND, current := Some(c.(stdin := Some(token))))) else None
  }

  function ParseFrom(p: Parser, tokens: seq<string>): (r: Option<Parser>)
    requires ModeOk(p)
    ensures r.Some? ==> ModeOk(r.value)
    decreases |tokens|
  {
    if tokens == [] then Some(p)
    else match Step(p, tokens[0])
      case None => None
      case Some(q) => ParseFrom(q, tokens[1..])
  }

  /** Parsing a token list; None when an assertion fails. */
  function Parse(tokens: seq<string>): Option<seq<Node>> {
    match ParseFrom(START, tokens)
    case None => None
    case Some(p) => if p.current.None? then None else Some(p.done + [p.current.value])
  }

  // ---------- Well-formed node lists ----------

  const SPECIAL := {">", "2>", "2>&1", "<", "|", "&&", "||"}

  predicate WfEnv(env: Dict) {
    (forall i :: 0 <= i < |env| ==> IsName(env[i].0) && IsValue(env[i].1)) &&
    (forall i, j :: 0 <= i < j < |env| ==> env[i].0 != env[j].0)
  }

  predicate WfCommand(c: Node) {
    c.Command? && MatchEnv(c.name).None? && c.name != "cd" &&
    (forall i :: 0 <= i < |c.args| ==> c.args[i] !in SPECIAL) &&
    !c.stdout.ToStdout? && !c.stderr.ToPipe? && WfEnv(c.env)
  }

  predicate WfChdir(n: Node) {
    n.Chdir? && (n.dir.Some? ==> n.dir.value != "&&")
  }

  /** An operand followed by an operator that fits it. */
  predicate WfPair(n: Node, op: Node) {
    (WfCommand(n) && (op.Pipe? || op.And? || op.Or?) && (op.Pipe? <==> n.stdout.ToPipe?)) ||
    (WfChdir(n) && op.And?)
  }

  /** Operand-operator pairs only: what `pipeline` holds between operands. */
  predicate WfOpen(ns: seq<Node>) {
    ns == [] || (|ns| >= 2 && WfPair(ns[0], ns[1]) && WfOpen(ns[2..]))
  }

  predicate WfLast(n: Node) {
    (WfCommand(n) && !n.stdout.ToPipe?) || WfChdir(n)
  }

  /** A complete list: operands alternate with operators, stdout is a pipe
      exactly before a Pipe, and a Chdir is followed by And or the end. */
  predicate WfNodes(ns: seq<Node>) {
    ns != [] && (if |ns| == 1 then WfLast(ns[0]) else WfPair(ns[0], ns[1]) && WfNodes(ns[2..]))
  }

  // ---------- Every successful parse is well formed ----------

  /** What the machine knows between tokens. */
  predicate ParserOk(p: Parser) {
    ModeOk(p) && WfOpen(p.done) && WfEnv(p.env) && (p.current.Some? ==> WfLast(p.current.value))
  }

  /** A key of the updated dictionary is the new key or an old one. */
  lemma {:induction false} PutKeys(d: Dict, k: string, v: string, j: nat)
    requires j < |Put(d, k, v)|
    ensures Put(d, k, v)[j].0 == k || HasKey(d, Put(d, k, v)[j].0)
  {
    if d != [] {
      if d[0].0 != k && j > 0 {
        PutKeys(d[1..], k, v, j - 1);
        var key := Put(d[1..], k, v)[j - 1].0;
        if key != k {
          var i :| 0 <= i < |d[1..]| && d[1..][i].0 == key;
          assert d[i + 1].0 == key;
        }
      } else if d[0].0 != k {
        assert d[0].0 == Put(d, k, v)[j].0;
      } else if j > 0 {
        assert d[j].0 == Put(d, k, v)[j].0;
      }
    }
  }

  lemma {:induction false} PutKeepsEnv(d: Dict, k: string, v: string)
    requires WfEnv(d) && IsName(k) && IsValue(v)
    ensures WfEnv(Put(d, k, v))
  {
    hide IsName, IsValue;
    if d != [] && d[0].0 != k {
      var rest := Put(d[1..], k, v);
      PutKeepsEnv(d[1..], k, v);
      forall j | 0 <= j < |rest| ensures rest[j].0 != d[0].0 {
        PutKeys(d[1..], k, v, j);
      }
    }
  }

  lemma {:induction false} OpenGrows(done: seq<Node>, n: Node, op: Node)
    requires WfOpen(done) && WfPair(n, op)
    ensures WfOpen(done + [n, op])
  {
    if done == [] {
      assert [n, op][2..] == [];
    } else {
      OpenGrows(done[2..], n, op);
      assert (done + [n, op])[2..] == done[2..] + [n, op];
    }
  }

  lemma {:induction false} OpenCloses(done: seq<Node>, n: Node)
    requires WfOpen(done) && WfLast(n)
    ensures WfNodes(done + [n])
  {
    if done != [] {
      OpenCloses(done[2..], n);
      assert (done + [n])[2..] == done[2..] + [n];
    }
  }

  lemma StepKeeps(p: Parser, token: string)
    requires ParserOk(p) && Step(p, token).Some?
    ensures ParserOk(Step(p, token).value)
  {
    match p.mode
    case BEGIN =>
      if MatchEnv(token).Some? {
        PutKeepsEnv(p.env, MatchEnv(token).value.0, MatchEnv(token).value.1);
      }
    case COMMAND =>
      var c := p.current.value;
      if token == "|" && c.stdout.Inherit? { OpenGrows(p.done, c.(stdout := ToPipe), Pipe); }
      if token == "&&" { OpenGrows(p.done, c, And); }
      if token == "||" { OpenGrows(p.done, c, Or); }
    case CHDIR =>
      if token == "&&" { OpenGrows(p.done, p.current.value, And); }
    case _ =>
  }

  lemma {:induction false} RunKeeps(p: Parser, tokens: seq<string>)
    requires ParserOk(p) && ParseFrom(p, tokens).Some?
    ensures ParserOk(ParseFrom(p, tokens).value)
    decreases |tokens|
  {
    if tokens != [] {
      StepKeeps(p, tokens[0]);
      RunKeeps(Step(p, tokens[0]).value, tokens[1..]);
    }
  }

  /** The parser never produces anything but well-formed lists. */
  lemma ParsedIsWellFormed(tokens: seq<string>)
    requires Parse(tokens).Some?
    ensures WfNodes(Parse(tokens).value)
  {
    RunKeeps(START, tokens);
    var p := ParseFrom(START, tokens).value;
    OpenCloses(p.done, p.current.value);
  }

  // ---------- Round trip ----------

  function EnvTokens(env: Dict): (t: seq<string>)
    ensures |t| == |env|
    ensures forall i :: 0 <= i < |t| ==> t[i] == env[i].0 + "=" + env[i].1
  {
    seq(|env|, i requires 0 <= i < |env| => env[i].0 + "=" + env[i].1)
  }

  function StdinTokens(s: Option<string>): seq<string> {
    if s.Some? then ["<", s.value] else []
  }

  function StdoutTokens(t: Target): seq<string> {
    if t.ToFile? then [">", t.name] else []
  }

  function StderrTokens(t: Target): seq<string> {
    if t.ToFile? then ["2>", t.name] else if t.ToStdout? then ["2>&1"] else []
  }

  function NodeTokens(n: Node): seq<string> {
    match n
    case Command(name, args, stdin, stdout, stderr, env) =>
      EnvTokens(env) + [name] + args + StdinTokens(stdin) + StdoutTokens(stdout) + StderrTokens(stderr)
    case Chdir(dir) => if dir.Some? then ["cd", dir.value] else ["cd"]
    case Pipe => ["|"]
    case And => ["&&"]
    case Or => ["||"]
  }

  /** The command line that a node list stands for. */
  function Render(ns: seq<Node>): seq<string> {
    if ns == [] then [] else NodeTokens(ns[0]) + Render(ns[1..])
  }

  lemma {:induction false} ParseConcat(p: Parser, a: seq<string>, b: seq<string>)
    requires ModeOk(p)
    ensures ParseFrom(p, a + b) ==
            match ParseFrom(p, a) case None => None case Some(q) => ParseFrom(q, b)
    decreases |a|
  {
    if a == [] {
      assert a + b == b;
    } else {
      assert (a + b)[1..] == a[1..] + b;
      if Step(p, a[0]).Some? { ParseConcat(Step(p, a[0]).value, a[1..], b); }
    }
  }

  lemma {:induction false} FirstEqualsAt(k: string, rest: string)
    requires forall j :: 0 <= j < |k| ==> k[j] != '='
    ensures FirstEquals(k + "=" + rest) == |k|
  {
    var s := k + "=" + rest;
    var i := FirstEquals(s);
    assert s[|k|] == '=';
    assert forall j :: 0 <= j < |k| ==> s[j] == k[j];
  }

  lemma MatchRendered(k: string, v: string)
    requires IsName(k) && IsValue(v)
    ensures MatchEnv(k + "=" + v) == Some((k, v))
  {
    var t := k + "=" + v;
    assert t[|t| - 1] == v[|v| - 1];
    assert !Space(v[|v| - 1]) && Space('\n');
    assert forall j :: 0 <= j < |k| ==> WordChar(k[j]) && k[j] != '=';
    FirstEqualsAt(k, v);
    assert t[..|k|] == k && t[|k| + 1..] == v;
  }

  lemma {:induction false} PutNew(d: Dict, k: string, v: string)
    requires !HasKey(d, k)
    ensures Put(d, k, v) == d + [(k, v)]
  {
    if d != [] {
      assert d[0].0 != k;
      forall i | 0 <= i < |d[1..]| ensures d[1..][i].0 != k { assert d[i + 1].0 != k; }
      PutNew(d[1..], k, v);
    }
  }

  lemma {:induction false} ParseEnv(env: Dict, i: nat, done: seq<Node>)
    requires WfEnv(env) && i <= |env|
    ensures ParseFrom(Parser(BEGIN, env[..i], None, done), EnvTokens(env)[i..])
            == Some(Parser(BEGIN, env, None, done))
    decreases |env| - i
  {
    hide MatchEnv, IsName, IsValue;
    if i == |env| {
      assert env[..i] == env;
    } else {
      MatchRendered(env[i].0, env[i].1);
      PutNew(env[..i], env[i].0, env[i].1);
      assert env[..i] + [(env[i].0, env[i].1)] == env[..i + 1];
      assert EnvTokens(env)[i..][0] == env[i].0 + "=" + env[i].1;
      assert EnvTokens(env)[i..][1..] == EnvTokens(env)[i + 1..];
      ParseEnv(env, i + 1, done);
    }
  }

  lemma {:induction false} ParseArgs(c: Node, more: seq<string>, done: seq<Node>)
    requires c.Command? && forall i :: 0 <= i < |more| ==> more[i] !in SPECIAL
    ensures ParseFrom(Parser(COMMAND, [], Some(c), done), more)
            == Some(Parser(COMMAND, [], Some(c.(args := c.args + more)), done))
    decreases |more|
  {
    if more == [] {
      assert c.args + more == c.args;
    } else {
      assert more[0] !in SPECIAL;
      forall i | 0 <= i < |more[1..]| ensures more[1..][i] !in SPECIAL { assert more[1..][i] == more[i + 1]; }
      ParseArgs(c.(args := c.args + [more[0]]), more[1..], done);
      assert c.args + [more[0]] + more[1..] == c.args + more;
    }
  }

  lemma ParseStdin(c: Node, done: seq<Node>, s: Option<string>)
    requires c.Command? && c.stdin.None?
    ensures ParseFrom(Parser(COMMAND, [], Some(c), done), StdinTokens(s))
            == Some(Parser(COMMAND, [], Some(c.(stdin := s)), done))
  {
    if s.Some? { ParseTwo(Parser(COMMAND, [], Some(c), done), "<", s.value); }
  }

  lemma ParseStdout(c: Node, done: seq<Node>, t: Target)
    requires c.Command? && c.stdout.Inherit? && !t.ToStdout? && !t.ToPipe?
    ensures ParseFrom(Parser(COMMAND, [], Some(c), done), StdoutTokens(t))
            == Some(Parser(COMMAND, [], Some(c.(stdout := t)), done))
  {
    if t.ToFile? { ParseTwo(Parser(COMMAND, [], Some(c), done), ">", t.name); }
  }

  lemma ParseStderr(c: Node, done: seq<Node>, t: Target)
    requires c.Command? && c.stderr.Inherit? && !t.ToPipe?
    ensures ParseFrom(Parser(COMMAND, [], Some(c), done), StderrTokens(t))
            == Some(Parser(COMMAND, [], Some(c.(stderr := t)), done))
  {
    if t.ToFile? { ParseTwo(Parser(COMMAND, [], Some(c), done), "2>", t.name); }
    if t.ToStdout? { ParseOne(Parser(COMMAND, [], Some(c), done), "2>&1"); }
  }

  lemma ParseOne(p: Parser, a: string)
    requires ModeOk(p)
    ensures ParseFrom(p, [a]) == Step(p, a)
  {
    assert [a][1..] == [];
  }

  lemma ParseTwo(p: Parser, a: string, b: string)
    requires ModeOk(p) && Step(p, a).Some?
    ensures ParseFrom(p, [a, b]) == Step(Step(p, a).value, b)
  {
    assert [a, b][1..] == [b];
    ParseOne(Step(p, a).value, b);
  }

  /** The state after the tokens of an operand; a pipe is set by the operator. */
  function Pending(n: Node, done: seq<Node>): Parser {
    if n.Command? then Parser(COMMAND, [], Some(if n.stdout.ToPipe? then n.(stdout := Inherit) else n), done)
    else Parser(CHDIR, [], Some(n), done)
  }

  lemma ParseCommand(n: Node, done: seq<Node>)
    requires WfCommand(n)
    ensures ParseFrom(Parser(BEGIN, [], None, done), NodeTokens(n)) == Some(Pending(n, done))
  {
    var p0 := Parser(BEGIN, [], None, done);
    var c0 := Command(n.name, [], None, Inherit, Inherit, n.env);
    var c1 := c0.(args := n.args);
    var c2 := c1.(stdin := n.stdin);
    var out := if n.stdout.ToPipe? then Inherit else n.stdout;
    var c3 := c2.(stdout := out);
    var t0 := EnvTokens(n.env);
    var t1 := t0 + [n.name];
    var t2 := t1 + n.args;
    var t3 := t2 + StdinTokens(n.stdin);
    var t4 := t3 + StdoutTokens(n.stdout);
    assert StdoutTokens(n.stdout) == StdoutTokens(out);
    ParseEnv(n.env, 0, done);
    assert n.env[..0] == [] && t0[0..] == t0;
    ParseConcat(p0, t0, [n.name]);
    ParseOne(Parser(BEGIN, n.env, None, done), n.name);
    ParseConcat(p0, t1, n.args);
    ParseArgs(c0, n.args, done);
    assert [] + n.args == n.args;
    ParseConcat(p0, t2, StdinTokens(n.stdin));
    ParseStdin(c1, done, n.stdin);
    ParseConcat(p0, t3, StdoutTokens(n.stdout));
    ParseStdout(c2, done, out);
    ParseConcat(p0, t4, StderrTokens(n.stderr));
    ParseStderr(c3, done, n.stderr);
  }

  lemma ParseOperand(n: Node, done: seq<Node>)
    requires WfCommand(n) || WfChdir(n)
    ensures ParseFrom(Parser(BEGIN, [], None, done), NodeTokens(n)) == Some(Pending(n, done))
  {
    if n.Command? {
      ParseCommand(n, done);
    } else {
      var p := Parser(BEGIN, [], None, done);
      assert MatchEnv("cd").None? by { assert FirstEquals("cd") == |"cd"|; }
      if n.dir.Some? { ParseTwo(p, "cd", n.dir.value); } else { ParseOne(p, "cd"); }
    }
  }

  lemma ParsePair(n: Node, op: Node, done: seq<Node>)
    requires WfPair(n, op)
    ensures ParseFrom(Parser(BEGIN, [], None, done), NodeTokens(n) + NodeTokens(op))
            == Some(Parser(BEGIN, [], None, done + [n, op]))
  {
    ParseOperand(n, done);
    ParseConcat(Parser(BEGIN, [], None, done), NodeTokens(n), NodeTokens(op));
    ParseOne(Pending(n, done), NodeTokens(op)[0]);
  }

  lemma RenderPair(ns: seq<Node>)
    requires |ns| >= 2
    ensures Render(ns) == NodeTokens(ns[0]) + NodeTokens(ns[1]) + Render(ns[2..])
  {
    var rest := ns[1..];
    assert rest[1..] == ns[2..] && rest[0] == ns[1];
    assert Render(rest) == NodeTokens(rest[0]) + Render(rest[1..]);
  }

  /** Started behind `done`, the tokens parse to the complete list `all`. */
  predicate ParsesTo(done: seq<Node>, tokens: seq<string>, all: seq<Node>) {
    var r := ParseFrom(Parser(BEGIN, [], None, done), tokens);
    r.Some? && r.value.current.Some? && r.value.done + [r.value.current.value] == all
  }

  lemma ParseLast(n: Node, done: seq<Node>)
    requires WfLast(n)
    ensures ParsesTo(done, NodeTokens(n), done + [n])
  {
    ParseOperand(n, done);
  }

  lemma ParsePairThen(n: Node, op: Node, done: seq<Node>, more: seq<string>, all: seq<Node>)
    requires WfPair(n, op) && ParsesTo(done + [n, op], more, all)
    ensures ParsesTo(done, NodeTokens(n) + NodeTokens(op) + more, all)
  {
    ParsePair(n, op, done);
    ParseConcat(Parser(BEGIN, [], None, done), NodeTokens(n) + NodeTokens(op), more);
  }

  lemma {:induction false} ParseRendered(ns: seq<Node>, done: seq<Node>)
    requires WfNodes(ns)
    ensures ParsesTo(done, Render(ns), done + ns)
    decreases |ns|
  {
    hide ParsesTo, NodeTokens, WfPair, WfLast;
    if |ns| == 1 {
      assert Render(ns[1..]) == [];
      assert Render(ns) == NodeTokens(ns[0]);
      ParseLast(ns[0], done);
      assert ns == [ns[0]];
    } else {
      RenderPair(ns);
      ParseRendered(ns[2..], done + [ns[0], ns[1]]);
      assert done + [ns[0], ns[1]] + ns[2..] == done + ns;
      ParsePairThen(ns[0], ns[1], done, Render(ns[2..]), done + ns);
    }
  }

  /** Parsing the rendering of a well-formed list gives the list back. */
  lemma RoundTrip(ns: seq<Node>)
    requires WfNodes(ns)
    ensures Parse(Render(ns)) == Some(ns)
  {
    ParseRendered(ns, []);
    assert [] + ns == ns;
  }

  /** A node list is the result of some parse exactly when it is well formed. */
  lemma ParserImage(ns: seq<Node>)
    ensures WfNodes(ns) <==> exists tokens :: Parse(tokens) == Some(ns)
  {
    if WfNodes(ns) {
      RoundTrip(ns);
    } else if tokens :| Parse(tokens) == Some(ns) {
      ParsedIsWellFormed(tokens);
    }
  }
}
