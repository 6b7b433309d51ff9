/** The language that shellcmd.py accepts, as a grammar: a recursive reading of the
token list, command by command, that knows nothing of the parser's states. */
module ShellGrammar {
  import opened Wrappers
  import opened ShellParser

  // ---------- Assignments ----------

  /** `NAME=value`: letters, digits and underscores, then anything without white
      space; one newline may follow. */
  lemma AssignmentsAre(token: string, k: string, v: string)
    ensures MatchEnv(token) == Some((k, v)) <==>
      && k != "" && v != ""
      && (forall i :: 0 <= i < |k| ==>
            'a' <= k[i] <= 'z' || 'A' <= k[i] <= 'Z' || '0' <= k[i] <= '9' || k[i] == '_')
      && (forall i :: 0 <= i < |v| ==> !WhiteSpace(v[i]))
      && (token == k + "=" + v || token == k + "=" + v + "\n")
  {
    hide MatchEnv, WhiteSpace, Space;
    if MatchEnv(token) == Some((k, v)) { AssignmentParts(token, k, v); }
    forall c: char ensures WhiteSpace(c) <==> Space(c) { WhiteSpaceIs(c); }
    if IsName(k) && IsValue(v) {
      AssignmentMatches(k, v, "");
      AssignmentMatches(k, v, "\n");
      assert k + "=" + v + "" == k + "=" + v;
    }
  }

  lemma WhiteSpaceIs(c: char)
    ensures WhiteSpace(c) <==> Space(c)
  {}

  lemma AssignmentParts(token: string, k: string, v: string)
    requires MatchEnv(token) == Some((k, v))
    ensures IsName(k) && IsValue(v) && (token == k + "=" + v || token == k + "=" + v + "\n")
  {
    hide IsName, IsValue, FirstEquals;
    var body := if token != "" && token[|token| - 1] == '\n' then token[..|token| - 1] else token;
    var i := FirstEquals(body);
    assert body == body[..i] + "=" + body[i + 1..];
    if body != token { assert token == body + "\n"; }
  }

  lemma AssignmentMatches(k: string, v: string, end: string)
    requires IsName(k) && IsValue(v) && (end == "" || end == "\n")
    ensures MatchEnv(k + "=" + v + end) == Some((k, v))
  {
    hide FirstEquals, MatchEnv;
    var body, token := k + "=" + v, k + "=" + v + end;
    assert body[|body| - 1] == v[|v| - 1];
    BodyOf(body, end);
    assert body[..|k|] == k && body[|k| + 1..] == v;
    NoEquals(k);
    FirstEqualsAt(k, v);
    BodyMatches(token, body);
  }

  lemma BodyOf(body: string, end: string)
    requires body != "" && body[|body| - 1] != '\n' && (end == "" || end == "\n")
    ensures var token := body + end;
      body == if token != "" && token[|token| - 1] == '\n' then token[..|token| - 1] else token
  {}

  lemma BodyMatches(token: string, body: string)
    requires body == if token != "" && token[|token| - 1] == '\n' then token[..|token| - 1] else token
    ensures var i := FirstEquals(body);
      i < |body| && IsName(body[..i]) && IsValue(body[i + 1..]) ==>
        MatchEnv(token) == Some((body[..i], body[i + 1..]))
  {
    hide FirstEquals, IsName, IsValue;
  }

  lemma NoEquals(k: string)
    requires IsName(k)
    ensures forall j :: 0 <= j < |k| ==> k[j] != '='
  {}

  /** White space as Python's `\s` has it. */
  predicate WhiteSpace(c: char) {
    c as int in {9, 10, 11, 12, 13, 28, 29, 30, 31, 32, 0x85, 0xA0, 0x1680,
                 0x2000, 0x2001, 0x2002, 0x2003, 0x2004, 0x2005, 0x2006, 0x2007, 0x2008, 0x2009, 0x200A,
                 0x2028, 0x2029, 0x202F, 0x205F, 0x3000}
  }

  function Lookup(d: Dict, k: string): Option<string> {
    if d == [] then None else if d[0].0 == k then Some(d[0].1) else Lookup(d[1..], k)
  }

  function Keys(d: Dict): seq<string> { seq(|d|, i requires 0 <= i < |d| => d[i].0) }

  /** A later assignment to the same name wins, and other names keep their values. */
  lemma {:induction false} PutMeans(d: Dict, k: string, v: string, other: string)
    ensures Lookup(Put(d, k, v), other) == if other == k then Some(v) else Lookup(d, other)
  {
    if d != [] { PutMeans(d[1..], k, v, other); }
  }

  /** A new name comes last, and the old ones keep their places. */
  lemma {:induction false} PutKeepsOrder(d: Dict, k: string, v: string)
    ensures Keys(Put(d, k, v)) == if Lookup(d, k).Some? then Keys(d) else Keys(d) + [k]
  {
    hide Keys;
    if d == [] {
      KeysOf((k, v), []);
      NoKeys();
    } else {
      PutKeepsOrder(d[1..], k, v);
      KeysOf(d[0], d[1..]);
      assert d == [d[0]] + d[1..];
      KeysOf((k, v), d[1..]);
      KeysOf(d[0], Put(d[1..], k, v));
      assert [d[0].0] + (Keys(d[1..]) + [k]) == [d[0].0] + Keys(d[1..]) + [k];
    }
  }

  lemma KeysOf(head: (string, string), tail: Dict)
    ensures Keys([head] + tail) == [head.0] + Keys(tail)
  {}

  lemma NoKeys()
    ensures Keys([]) == [] && forall head: (string, string) :: [head] + [] == [head]
  {}

  // ---------- Commands ----------

  /** What may follow a command's name. */
  datatype Item = Word(text: string) | In(file: string) | Out(file: string) | Err(file: string) | ErrToOut

  /** The items of a command, and the tokens from the next operator on.  What
      follows a redirection sign is its file, whatever it looks like; a sign at
      the end of the line has no effect. */
  function ScanItems(tokens: seq<string>): (r: (seq<Item>, seq<string>))
    ensures |r.1| <= |tokens| && (r.1 != [] ==> r.1[0] == "|" || r.1[0] == "&&" || r.1[0] == "||")
    decreases |tokens|
  {
    if tokens == [] then ([], [])
    else if tokens[0] == "|" || tokens[0] == "&&" || tokens[0] == "||" then ([], tokens)
    else if tokens[0] == "<" || tokens[0] == ">" || tokens[0] == "2>" then
      if |tokens| == 1 then ([], [])
      else
        var item := if tokens[0] == "<" then In(tokens[1]) else if tokens[0] == ">" then Out(tokens[1])
                    else Err(tokens[1]);
        ([item] + ScanItems(tokens[2..]).0, ScanItems(tokens[2..]).1)
    else
      var item := if tokens[0] == "2>&1" then ErrToOut else Word(tokens[0]);
      ([item] + ScanItems(tokens[1..]).0, ScanItems(tokens[1..]).1)
  }

  function Words(items: seq<Item>): seq<string> {
    if items == [] then []
    else if items[0].Word? then [items[0].text] + Words(items[1..])
    else Words(items[1..])
  }

  /** The files of all `<`. */
  function Ins(items: seq<Item>): seq<string> {
    if items == [] then []
    else if items[0].In? then [items[0].file] + Ins(items[1..])
    else Ins(items[1..])
  }

  function Outs(items: seq<Item>): seq<string> {
    if items == [] then []
    else if items[0].Out? then [items[0].file] + Outs(items[1..])
    else Outs(items[1..])
  }

  /** The targets of all `2>` and `2>&1`. */
  function Errs(items: seq<Item>): seq<Target> {
    if items == [] then []
    else if items[0].Err? then [ToFile(items[0].file)] + Errs(items[1..])
    else if items[0].ErrToOut? then [ToStdout] + Errs(items[1..])
    else Errs(items[1..])
  }

  /** A command with its words in order, and each stream redirected at most once. */
  function CommandOf(name: string, env: Dict, items: seq<Item>): Option<Node> {
    var ins, outs, errs := Ins(items), Outs(items), Errs(items);
    if |ins| > 1 || |outs| > 1 || |errs| > 1 then None
    else
      Some(Command(name, Words(items),
                   if ins == [] then None else Some(ins[0]),
                   if outs == [] then Inherit else ToFile(outs[0]),
                   if errs == [] then Inherit else errs[0],
                   env))
  }

  // ---------- Lines ----------

  /** The tokens up to the next `&&`, and the rest. */
  function UntilAnd(tokens: seq<string>): (r: (seq<string>, seq<string>))
    ensures |r.1| <= |tokens| && (r.1 != [] ==> r.1[0] == "&&")
  {
    if tokens == [] || tokens[0] == "&&" then ([], tokens)
    else ([tokens[0]] + UntilAnd(tokens[1..]).0, UntilAnd(tokens[1..]).1)
  }

  function Behind(front: seq<Node>, rest: Option<seq<Node>>): Option<seq<Node>> {
    match rest case None => None case Some(ns) => Some(front + ns)
  }

  /** A line: assignments, then a command or a `cd`, then an operator and a line. */
  function Line(env: Dict, tokens: seq<string>): Option<seq<Node>>
    decreases |tokens|
  {
    if tokens == [] then None
    else if MatchEnv(tokens[0]).Some? then
      var (k, v) := MatchEnv(tokens[0]).value;
      Line(Put(env, k, v), tokens[1..])
    else if tokens[0] == "cd" then
      var (dirs, rest) := UntilAnd(tokens[1..]);
      var cd := Chdir(if dirs == [] then None else Some(dirs[0]));
      if env != [] || |dirs| > 1 then None
      else if rest == [] then Some([cd])
      else Behind([cd, And], Line([], rest[1..]))
    else
      var (items, rest) := ScanItems(tokens[1..]);
      match CommandOf(tokens[0], env, items)
      case None => None
      case Some(c) =>
        if rest == [] then Some([c])
        else if rest[0] == "|" then
          if c.stdout.Inherit? then Behind([c.(stdout := ToPipe), Pipe], Line([], rest[1..])) else None
        else Behind([c, if rest[0] == "&&" then And else Or], Line([], rest[1..]))
  }

  // ---------- The token machine follows the grammar ----------

  /** What parse() returns when the machine ends like this. */
  function Result(end: Option<Parser>): Option<seq<Node>> {
    match end
    case None => None
    case Some(p) => if p.current.None? then None else Some(p.done + [p.current.value])
  }

  /** A command that already has some items, and more of them. */
  function Extended(c: Node, items: seq<Item>): Option<Node>
    requires c.Command?
  {
    var ins, outs, errs := Ins(items), Outs(items), Errs(items);
    if |ins| > (if c.stdin.None? then 1 else 0) || |outs| > (if c.stdout.Inherit? then 1 else 0)
       || |errs| > (if c.stderr.Inherit? then 1 else 0)
    then None
    else
      Some(Command(c.name, c.args + Words(items),
                   if ins == [] then c.stdin else Some(ins[0]),
                   if outs == [] then c.stdout else ToFile(outs[0]),
                   if errs == [] then c.stderr else errs[0],
                   c.env))
  }

  lemma NoItems(c: Node)
    requires c.Command?
    ensures Extended(c, []) == Some(c)
  {
    assert c.args + [] == c.args;
  }

  /** Adding an item to the command is the machine's step on it. */
  lemma OneItem(c: Node, item: Item, items: seq<Item>)
    requires c.Command?
    ensures Extended(c, [item] + items) ==
      match item
      case Word(text) => Extended(c.(args := c.args + [text]), items)
      case In(file) => if c.stdin.None? then Extended(c.(stdin := Some(file)), items) else None
      case Out(file) => if c.stdout.Inherit? then Extended(c.(stdout := ToFile(file)), items) else None
      case Err(file) => if c.stderr.Inherit? then Extended(c.(stderr := ToFile(file)), items) else None
      case ErrToOut => if c.stderr.Inherit? then Extended(c.(stderr := ToStdout), items) else None
  {
    var all := [item] + items;
    assert all[0] == item && all[1..] == items;
    if item.Word? { assert c.args + ([item.text] + Words(items)) == c.args + [item.text] + Words(items); }
  }

  function Running(c: Node, done: seq<Node>): Parser { Parser(COMMAND, [], Some(c), done) }

  /** The machine at an operator, or at the end, behind a complete command. */
  function AtOperator(c: Node, done: seq<Node>, rest: seq<string>): Option<seq<Node>>
    requires c.Command?
  {
    Result(ParseFrom(Running(c, done), rest))
  }

  lemma StepThen(p: Parser, tokens: seq<string>)
    requires ModeOk(p) && tokens != []
    ensures ParseFrom(p, tokens) ==
              match Step(p, tokens[0]) case None => None case Some(q) => ParseFrom(q, tokens[1..])
  {
    hide Step;
  }

  /** A redirection sign and its file. */
  lemma TakeRedirection(c: Node, done: seq<Node>, tokens: seq<string>)
    requires c.Command? && |tokens| > 1 && (tokens[0] == "<" || tokens[0] == ">" || tokens[0] == "2>")
    ensures ParseFrom(Running(c, done), tokens) ==
      if tokens[0] == "<" then
        if c.stdin.None? then ParseFrom(Running(c.(stdin := Some(tokens[1])), done), tokens[2..]) else None
      else if tokens[0] == ">" then
        if c.stdout.Inherit? then ParseFrom(Running(c.(stdout := ToFile(tokens[1])), done), tokens[2..]) else None
      else
        if c.stderr.Inherit? then ParseFrom(Running(c.(stderr := ToFile(tokens[1])), done), tokens[2..]) else None
  {
    hide ParseFrom, MatchEnv;
    var mode := if tokens[0] == "<" then STDIN else if tokens[0] == ">" then STDOUT else STDERR;
    var p := Parser(mode, [], Some(c), done);
    StepThen(Running(c, done), tokens);
    assert Step(Running(c, done), tokens[0]) == Some(p);
    StepThen(p, tokens[1..]);
    assert tokens[1..][0] == tokens[1] && tokens[1..][1..] == tokens[2..];
  }

  lemma {:induction false} ItemsFollow(c: Node, done: seq<Node>, tokens: seq<string>)
    requires c.Command?
    ensures var (items, rest) := ScanItems(tokens);
      Result(ParseFrom(Running(c, done), tokens)) ==
        match Extended(c, items) case None => None case Some(c') => AtOperator(c', done, rest)
    decreases |tokens|
  {
    hide Extended, MatchEnv, ParseFrom, Step;
    var p := Running(c, done);
    NoItems(c);
    if tokens == [] || tokens[0] == "|" || tokens[0] == "&&" || tokens[0] == "||" {
    } else if tokens[0] == "<" || tokens[0] == ">" || tokens[0] == "2>" {
      if |tokens| == 1 {
        LoneSign(c, done, tokens);
      } else {
        TakeRedirection(c, done, tokens);
        var item := ScanItems(tokens).0[0];
        OneItem(c, item, ScanItems(tokens[2..]).0);
        match item
        case In(f) => if c.stdin.None? { ItemsFollow(c.(stdin := Some(f)), done, tokens[2..]); }
        case Out(f) => if c.stdout.Inherit? { ItemsFollow(c.(stdout := ToFile(f)), done, tokens[2..]); }
        case Err(f) => if c.stderr.Inherit? { ItemsFollow(c.(stderr := ToFile(f)), done, tokens[2..]); }
      }
    } else {
      StepThen(p, tokens);
      PlainStep(c, done, tokens[0]);
      var item := ScanItems(tokens).0[0];
      OneItem(c, item, ScanItems(tokens[1..]).0);
      if item.Word? {
        ItemsFollow(c.(args := c.args + [item.text]), done, tokens[1..]);
      } else if c.stderr.Inherit? {
        ItemsFollow(c.(stderr := ToStdout), done, tokens[1..]);
      }
    }
  }

  lemma PlainStep(c: Node, done: seq<Node>, token: string)
    requires c.Command? && token !in {"|", "&&", "||", "<", ">", "2>"}
    ensures Step(Running(c, done), token) ==
      if token == "2>&1" then if c.stderr.Inherit? then Some(Running(c.(stderr := ToStdout), done)) else None
      else Some(Running(c.(args := c.args + [token]), done))
  {
    hide MatchEnv;
  }

  /** A redirection sign that ends the line changes nothing. */
  lemma LoneSign(c: Node, done: seq<Node>, tokens: seq<string>)
    requires c.Command? && |tokens| == 1 && (tokens[0] == "<" || tokens[0] == ">" || tokens[0] == "2>")
    ensures Result(ParseFrom(Running(c, done), tokens)) == Some(done + [c]) == AtOperator(c, done, [])
  {
    hide MatchEnv;
    assert tokens[1..] == [];
  }

  function Heading(d: Option<string>, done: seq<Node>): Parser { Parser(CHDIR, [], Some(Chdir(d)), done) }

  lemma {:induction false} DirsFollow(d: Option<string>, done: seq<Node>, tokens: seq<string>)
    ensures var (dirs, rest) := UntilAnd(tokens);
      Result(ParseFrom(Heading(d, done), tokens)) ==
        if |dirs| > (if d.None? then 1 else 0) then None
        else Result(ParseFrom(Heading(if dirs == [] then d else Some(dirs[0]), done), rest))
    decreases |tokens|
  {
    hide MatchEnv, ParseFrom;
    if tokens != [] && tokens[0] != "&&" {
      StepThen(Heading(d, done), tokens);
      if d.None? { DirsFollow(Some(tokens[0]), done, tokens[1..]); }
    }
  }

  lemma OperatorStep(c: Node, done: seq<Node>, op: string)
    requires c.Command? && op in {"|", "&&", "||"}
    ensures Step(Running(c, done), op) ==
      if op == "|" then
        if c.stdout.Inherit? then Some(Parser(BEGIN, [], None, done + [c.(stdout := ToPipe), Pipe])) else None
      else Some(Parser(BEGIN, [], None, done + [c, if op == "&&" then And else Or]))
  {
    hide MatchEnv;
  }

  lemma BehindDone(done: seq<Node>, front: seq<Node>, rest: Option<seq<Node>>)
    ensures Behind(done + front, rest) == Behind(done, Behind(front, rest))
  {
    if rest.Some? { assert done + front + rest.value == done + (front + rest.value); }
  }

  lemma FirstStep(env: Dict, done: seq<Node>, token: string)
    ensures Step(Parser(BEGIN, env, None, done), token) ==
      match MatchEnv(token)
      case Some((k, v)) => Some(Parser(BEGIN, Put(env, k, v), None, done))
      case None =>
        if token == "cd" then if env == [] then Some(Heading(None, done)) else None
        else Some(Running(Command(token, [], None, Inherit, Inherit, env), done))
  {
    hide MatchEnv, Put;
  }

  lemma Finished(p: Parser)
    requires ModeOk(p)
    ensures ParseFrom(p, []) == Some(p)
  {}

  lemma CommandIsExtended(name: string, env: Dict, items: seq<Item>)
    ensures CommandOf(name, env, items) == Extended(Command(name, [], None, Inherit, Inherit, env), items)
  {
    assert [] + Words(items) == Words(items);
  }

  lemma {:induction false} LineFollows(env: Dict, done: seq<Node>, tokens: seq<string>)
    ensures Result(ParseFrom(Parser(BEGIN, env, None, done), tokens)) == Behind(done, Line(env, tokens))
    decreases |tokens|
  {
    hide MatchEnv, ParseFrom, Step, Put, CommandOf, Extended, ScanItems, UntilAnd;
    var p := Parser(BEGIN, env, None, done);
    if tokens == [] {
      Finished(p);
    } else {
      StepThen(p, tokens);
      FirstStep(env, done, tokens[0]);
      if MatchEnv(tokens[0]).Some? {
        LineFollows(Put(env, MatchEnv(tokens[0]).value.0, MatchEnv(tokens[0]).value.1), done, tokens[1..]);
      } else if tokens[0] == "cd" {
        if env == [] { ChdirFollows(done, tokens); }
      } else {
        CommandFollows(env, done, tokens);
      }
    }
  }

  lemma {:induction false} ChdirFollows(done: seq<Node>, tokens: seq<string>)
    requires tokens != [] && tokens[0] == "cd" && MatchEnv(tokens[0]).None?
    ensures Result(ParseFrom(Heading(None, done), tokens[1..])) == Behind(done, Line([], tokens))
    decreases |tokens|, 0
  {
    hide MatchEnv, ParseFrom, Put, CommandOf, Extended, ScanItems, UntilAnd;
    var (dirs, rest) := UntilAnd(tokens[1..]);
    DirsFollow(None, done, tokens[1..]);
    if |dirs| <= 1 {
      var d := if dirs == [] then None else Some(dirs[0]);
      var cd := Chdir(d);
      if rest == [] {
        Finished(Heading(d, done));
      } else {
        StepThen(Heading(d, done), rest);
        assert Step(Heading(d, done), rest[0]) == Some(Parser(BEGIN, [], None, done + [cd, And]));
        LineFollows([], done + [cd, And], rest[1..]);
        BehindDone(done, [cd, And], Line([], rest[1..]));
      }
    }
  }

  lemma {:induction false} CommandFollows(env: Dict, done: seq<Node>, tokens: seq<string>)
    requires tokens != [] && tokens[0] != "cd" && MatchEnv(tokens[0]).None?
    ensures Result(ParseFrom(Running(Command(tokens[0], [], None, Inherit, Inherit, env), done), tokens[1..]))
            == Behind(done, Line(env, tokens))
    decreases |tokens|, 0
  {
    hide MatchEnv, ParseFrom, Step, Put, CommandOf, Extended, ScanItems, UntilAnd;
    var start := Command(tokens[0], [], None, Inherit, Inherit, env);
    var (items, rest) := ScanItems(tokens[1..]);
    ItemsFollow(start, done, tokens[1..]);
    CommandIsExtended(tokens[0], env, items);
    match Extended(start, items)
    case None =>
    case Some(c) =>
      ExtendedIsCommand(start, items);
      if rest == [] {
        Finished(Running(c, done));
      } else {
        StepThen(Running(c, done), rest);
        OperatorStep(c, done, rest[0]);
        var front := if rest[0] == "|" then [c.(stdout := ToPipe), Pipe]
                     else [c, if rest[0] == "&&" then And else Or];
        LineFollows([], done + front, rest[1..]);
        BehindDone(done, front, Line([], rest[1..]));
      }
  }

  lemma ExtendedIsCommand(c: Node, items: seq<Item>)
    requires c.Command? && Extended(c, items).Some?
    ensures Extended(c, items).value.Command?
  {}

  /** For every token list, accepted or not: the parser returns what the grammar
      reads, and fails exactly when the grammar has no reading. */
  lemma ParserReadsGrammar(tokens: seq<string>)
    ensures Parse(tokens) == Line([], tokens)
  {
    hide MatchEnv, Line, ParseFrom;
    LineFollows([], [], tokens);
    if Line([], tokens).Some? { assert [] + Line([], tokens).value == Line([], tokens).value; }
  }
}
