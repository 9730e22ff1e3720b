/**
 * The script-tree builder of director/parser.py: the `Parser` transformer's
 * callbacks, which turn the grammar's parse tree into `Node`s, and `convert`,
 * which turns `Node`s into the step objects of the engine.
 *
 * The Lark engine itself is not modelled. Its output, after the grammar's
 * `?` rules have been inlined, is the `StepTree` datatype below, and
 * `Transform` is the bottom-up walk that calls the callbacks on it. The
 * `CMD` token rule is modelled as a scanner.
 */
module Parser {
  import opened Wrappers
  import opened Strings
  import opened Environment
  import opened Groups

  /** The `-name=value` options of a step. */
  type Opts = map<string, string>

  /** The terminals the callbacks look at. */
  datatype TokenKind = CNAME | WORD | STRING | CMD

  datatype Token = Token(kind: TokenKind, text: string)

  /**
   * `Node`: one constructor per `Type` the transformer produces. A step
   * node's `opts` and `env` are `None` when no options were given.
   */
  datatype Node =
    | CommandNode(command: string, opts: Option<Opts>, env: Option<Env>)
    | SequentialNode(children: seq<Node>, opts: Option<Opts>, env: Option<Env>)
    | ParallelNode(children: seq<Node>, opts: Option<Opts>, env: Option<Env>)
    | StepsNode(children: seq<Node>)
    | OptionsNode(declaredOpts: Opts, declaredEnv: Env)
    | OptNode(opt: Opts)
    | EnvNode(envVar: Env)
  {
    /** A node that `convert` accepts. */
    predicate IsStep() {
      CommandNode? || SequentialNode? || ParallelNode?
    }
  }

  /** `Node.Type`. */
  function TypeName(n: Node): string {
    match n
    case CommandNode(_, _, _) => "command"
    case SequentialNode(_, _, _) => "sequential"
    case ParallelNode(_, _, _) => "parallel"
    case StepsNode(_) => "steps"
    case OptionsNode(_, _) => "options"
    case OptNode(_) => "opt"
    case EnvNode(_) => "env"
  }

  // ---------------------------------------------------------------------
  // `env` and `opt`
  // ---------------------------------------------------------------------

  /** Python's `s[1:-1]`: drop the first and the last character; empty below two characters. */
  function Unquote(s: string): string {
    if |s| < 2 then "" else s[1..|s| - 1]
  }

  /** A declared value: a quoted `STRING` loses its quotes, a `WORD` is stripped. */
  function ValueText(value: Token): string {
    if value.kind == STRING then Unquote(value.text) else Strip(value.text)
  }

  /** `Parser.opt`. */
  function OptOf(name: Token, value: Token): (r: Node)
    ensures r.OptNode? && r.opt.Keys == {Strip(name.text)}
    ensures value.kind == STRING && |value.text| >= 2 ==> r.opt[Strip(name.text)] == value.text[1..|value.text| - 1]
    ensures value.kind == STRING && |value.text| < 2 ==> r.opt[Strip(name.text)] == ""
    ensures value.kind != STRING ==> r.opt[Strip(name.text)] == Strip(value.text)
  {
    OptNode(map[Strip(name.text) := ValueText(value)])
  }

  /** `Parser.env`. */
  function EnvOf(name: Token, value: Token): (r: Node)
    ensures r.EnvNode? && r.envVar.Keys == {Strip(name.text)}
    ensures value.kind == STRING && |value.text| >= 2 ==> r.envVar[Strip(name.text)] == value.text[1..|value.text| - 1]
    ensures value.kind == STRING && |value.text| < 2 ==> r.envVar[Strip(name.text)] == ""
    ensures value.kind != STRING ==> r.envVar[Strip(name.text)] == Strip(value.text)
  {
    EnvNode(map[Strip(name.text) := ValueText(value)])
  }

  /**
   * A quoted value is exactly the text between the quotes: nothing inside
   * is unescaped, not even a quote.
   */
  lemma QuotedValue(q: char, v: string)
    ensures ValueText(Token(STRING, [q] + v + [q])) == v
  {
    assert ([q] + v + [q])[1..|v| + 1] == v;
  }

  /** A bare value is the token text without its surrounding whitespace. */
  lemma WordValue(w: string)
    ensures exists i, j :: (0 <= i <= j <= |w| && ValueText(Token(WORD, w)) == w[i..j]
      && (forall k :: 0 <= k < i ==> IsSpace(w[k])) && (forall k :: j <= k < |w| ==> IsSpace(w[k])))
    ensures ValueText(Token(WORD, w)) != [] ==>
      !IsSpace(ValueText(Token(WORD, w))[0]) && !IsSpace(ValueText(Token(WORD, w))[|ValueText(Token(WORD, w))| - 1])
  {
    StripIsTrim(w);
  }

  // ---------------------------------------------------------------------
  // `options`
  // ---------------------------------------------------------------------

  /** The entries one `opt` (or, with `isEnv`, one `env`) node contributes. */
  function Entries(n: Node, isEnv: bool): map<string, string> {
    if isEnv then (if n.EnvNode? then n.envVar else map[])
    else (if n.OptNode? then n.opt else map[])
  }

  /** The map `options` builds: each node's entries in turn, a later entry replacing an earlier one. */
  function Collect(nodes: seq<Node>, isEnv: bool): map<string, string>
    decreases |nodes|
  {
    if nodes == [] then map[]
    else Collect(nodes[..|nodes| - 1], isEnv) + Entries(nodes[|nodes| - 1], isEnv)
  }

  /** `Parser.options`: one map for the `opt` nodes, one for the `env` nodes. */
  method Options(nodes: seq<Node>) returns (r: Node)
    ensures r == OptionsNode(Collect(nodes, false), Collect(nodes, true))
  {
    var env: Env := map[];
    var opts: Opts := map[];
    var i := 0;
    while i < |nodes|
      invariant 0 <= i <= |nodes|
      invariant opts == Collect(nodes[..i], false) && env == Collect(nodes[..i], true)
    {
      var node := nodes[i];
      if node.OptNode? {
        opts := opts + node.opt;
      } else if node.EnvNode? {
        env := env + node.envVar;
      }
      assert nodes[..i + 1][..i] == nodes[..i];
      i := i + 1;
    }
    assert nodes[..|nodes|] == nodes;
    return OptionsNode(opts, env);
  }

  /**
   * A name is in the collected map exactly when some node of the right kind
   * declares it, and its value is the one the last such node gives: `opt`
   * and `env` entries never mix, and the later declaration wins.
   */
  lemma {:induction false} CollectLastWins(nodes: seq<Node>, isEnv: bool, name: string)
    ensures name in Collect(nodes, isEnv) <==> exists i :: 0 <= i < |nodes| && name in Entries(nodes[i], isEnv)
    ensures name in Collect(nodes, isEnv) ==>
      exists i :: 0 <= i < |nodes| && name in Entries(nodes[i], isEnv)
        && Collect(nodes, isEnv)[name] == Entries(nodes[i], isEnv)[name]
        && forall j :: i < j < |nodes| ==> name !in Entries(nodes[j], isEnv)
    decreases |nodes|
  {
    if nodes != [] {
      var init := nodes[..|nodes| - 1];
      CollectLastWins(init, isEnv, name);
      assert forall i :: 0 <= i < |init| ==> init[i] == nodes[i];
    }
  }

  // ---------------------------------------------------------------------
  // `command` and `step`
  // ---------------------------------------------------------------------

  /** What a callback receives: a callback's result or a token. */
  datatype Arg = NodeArg(node: Node) | TokenArg(token: Token)

  /**
   * `Parser.command`: the command text is the token's text, stripped; a
   * leading `options` node supplies the options. A missing or non-token
   * argument is the `IndexError` or `AttributeError` Python raises.
   */
  function CommandOf(args: seq<Arg>): (r: Result<Node, string>)
    ensures r.Success? ==> r.value.CommandNode?
    ensures |args| >= 1 && args[0].TokenArg? ==> r == Success(CommandNode(Strip(args[0].token.text), None, None))
    ensures |args| >= 2 && args[0].NodeArg? && args[0].node.OptionsNode? && args[1].TokenArg? ==>
      r == Success(CommandNode(Strip(args[1].token.text), Some(args[0].node.declaredOpts), Some(args[0].node.declaredEnv)))
    ensures r.Failure? <==> (|args| == 0 || (args[0].NodeArg? && !(args[0].node.OptionsNode? && |args| >= 2 && args[1].TokenArg?)))
  {
    if |args| == 0 then Failure("IndexError")
    else if args[0].NodeArg? && args[0].node.OptionsNode? then
      if |args| < 2 then Failure("IndexError")
      else if args[1].NodeArg? then Failure("AttributeError")
      else Success(CommandNode(Strip(args[1].token.text), Some(args[0].node.declaredOpts), Some(args[0].node.declaredEnv)))
    else if args[0].NodeArg? then Failure("AttributeError")
    else Success(CommandNode(Strip(args[0].token.text), None, None))
  }

  /** `r` is `over` laid over `base`: every key of either, `over`'s value where both have one. */
  ghost predicate Overrides(r: map<string, string>, base: map<string, string>, over: map<string, string>) {
    && r.Keys == base.Keys + over.Keys
    && forall k :: k in r ==> r[k] == if k in over then over[k] else base[k]
  }

  /**
   * `Parser.step`, for `( options step )`: the inner step with its options
   * and environment laid over the outer ones (an unset inner map counts as
   * empty); nothing else about the inner step changes.
   */
  function StepOf(outer: Node, inner: Node): (r: Node)
    requires outer.OptionsNode? && inner.IsStep()
    ensures r.IsStep() && r == inner.(opts := r.opts, env := r.env)
    ensures r.opts.Some? && Overrides(r.opts.value, outer.declaredOpts, inner.opts.GetOr(map[]))
    ensures r.env.Some? && Overrides(r.env.value, outer.declaredEnv, inner.env.GetOr(map[]))
  {
    inner.(opts := Some(outer.declaredOpts + inner.opts.GetOr(map[])), env := Some(outer.declaredEnv + inner.env.GetOr(map[])))
  }

  // ---------------------------------------------------------------------
  // `sequential` and `parallel`
  // ---------------------------------------------------------------------

  /** The children of the last `steps` argument; none if there is no such argument. */
  function StepsArg(args: seq<Node>): seq<Node>
    decreases |args|
  {
    if args == [] then []
    else if args[|args| - 1].StepsNode? then args[|args| - 1].children
    else StepsArg(args[..|args| - 1])
  }

  /** The options and environment of the last `options` argument, if there is one. */
  function OptionsArg(args: seq<Node>): Option<(Opts, Env)>
    decreases |args|
  {
    if args == [] then None
    else if args[|args| - 1].OptionsNode? then Some((args[|args| - 1].declaredOpts, args[|args| - 1].declaredEnv))
    else OptionsArg(args[..|args| - 1])
  }

  /** The node a group callback returns for `args`. */
  function Grouped(parallel: bool, args: seq<Node>): Node {
    var o := OptionsArg(args);
    var opts := if o.Some? then Some(o.value.0) else None;
    var env := if o.Some? then Some(o.value.1) else None;
    if parallel then ParallelNode(StepsArg(args), opts, env) else SequentialNode(StepsArg(args), opts, env)
  }

  /**
   * `Parser.sequential` (and, with `parallel`, `Parser.parallel`): scan the
   * arguments, taking the children from a `steps` argument and the options
   * from an `options` argument.
   */
  method Group(parallel: bool, args: seq<Node>) returns (r: Node)
    ensures r == Grouped(parallel, args)
  {
    var opts: Option<Opts> := None;
    var steps: seq<Node> := [];
    var env: Option<Env> := None;
    var i := 0;
    while i < |args|
      invariant 0 <= i <= |args|
      invariant steps == StepsArg(args[..i])
      invariant opts == (if OptionsArg(args[..i]).Some? then Some(OptionsArg(args[..i]).value.0) else None)
      invariant env == (if OptionsArg(args[..i]).Some? then Some(OptionsArg(args[..i]).value.1) else None)
    {
      var arg := args[i];
      if arg.OptionsNode? {
        opts := Some(arg.declaredOpts);
        env := Some(arg.declaredEnv);
      } else if arg.StepsNode? {
        steps := arg.children;
      }
      assert args[..i + 1][..i] == args[..i];
      i := i + 1;
    }
    assert args[..|args|] == args;
    if parallel {
      r := ParallelNode(steps, opts, env);
    } else {
      r := SequentialNode(steps, opts, env);
    }
  }

  /**
   * A group's children come from the last `steps` argument and from nothing
   * else: with no such argument there are none, whatever step nodes the
   * arguments hold.
   */
  lemma {:induction false} StepsArgIsLast(args: seq<Node>)
    ensures (forall i :: 0 <= i < |args| ==> !args[i].StepsNode?) ==> StepsArg(args) == []
    ensures (exists i :: 0 <= i < |args| && args[i].StepsNode?) ==>
      exists i :: 0 <= i < |args| && args[i].StepsNode? && StepsArg(args) == args[i].children
        && forall j :: i < j < |args| ==> !args[j].StepsNode?
    decreases |args|
  {
    if args != [] {
      var init := args[..|args| - 1];
      StepsArgIsLast(init);
      assert forall i :: 0 <= i < |init| ==> init[i] == args[i];
    }
  }

  /** A group's options and environment come from the last `options` argument; both are unset without one. */
  lemma {:induction false} OptionsArgIsLast(args: seq<Node>)
    ensures (forall i :: 0 <= i < |args| ==> !args[i].OptionsNode?) ==> OptionsArg(args) == None
    ensures (exists i :: 0 <= i < |args| && args[i].OptionsNode?) ==>
      exists i :: 0 <= i < |args| && args[i].OptionsNode? && OptionsArg(args) == Some((args[i].declaredOpts, args[i].declaredEnv))
        && forall j :: i < j < |args| ==> !args[j].OptionsNode?
    decreases |args|
  {
    if args != [] {
      var init := args[..|args| - 1];
      OptionsArgIsLast(init);
      assert forall i :: 0 <= i < |init| ==> init[i] == args[i];
    }
  }

  // ---------------------------------------------------------------------
  // The parse tree and the transformer's walk over it
  // ---------------------------------------------------------------------

  /** One option of an `options` list. */
  datatype OptionTree = OptTree(name: Token, value: Token) | EnvTree(name: Token, value: Token)

  /**
   * The grammar's parse tree. A group's `body` is its `step+` list and a
   * `( options? step )` is a `PrefixTree`; whether a one-element `body` is
   * inlined is decided by the walk.
   */
  datatype StepTree =
    | CommandTree(cmd: Token)
    | GroupTree(parallel: bool, options: Option<seq<OptionTree>>, body: seq<StepTree>)
    | PrefixTree(prefix: Option<seq<OptionTree>>, inner: StepTree)

  /**
   * The grammar's treatment of `steps`: as written, `?steps` inlines a
   * single step; with `steps` a plain rule every body becomes a `steps` node.
   */
  datatype Grammar = AsWritten | StepsNotInlined

  function OptionNode(o: OptionTree): Node {
    match o
    case OptTree(n, v) => OptOf(n, v)
    case EnvTree(n, v) => EnvOf(n, v)
  }

  /** The `options` node for a list of options. */
  function OptionsOf(os: seq<OptionTree>): Node {
    var nodes := seq(|os|, i requires 0 <= i < |os| => OptionNode(os[i]));
    OptionsNode(Collect(nodes, false), Collect(nodes, true))
  }

  /** The transformer's bottom-up walk: every callback gets its children's results. */
  function Transform(t: StepTree, g: Grammar): (r: Node)
    ensures r.IsStep()
    decreases t
  {
    match t
    case CommandTree(cmd) => CommandOf([TokenArg(cmd)]).value
    case GroupTree(parallel, options, body) =>
      var children := seq(|body|, i requires 0 <= i < |body| => Transform(body[i], g));
      var optionArgs := if options.Some? then [OptionsOf(options.value)] else [];
      var stepArgs := if g == AsWritten && |body| == 1 then children else [StepsNode(children)];
      Grouped(parallel, optionArgs + stepArgs)
    case PrefixTree(prefix, inner) =>
      if prefix.None? then Transform(inner, g) else StepOf(OptionsOf(prefix.value), Transform(inner, g))
  }

  /** The commands of a parse tree. */
  function Leaves(t: StepTree): nat
    decreases t, 1
  {
    match t
    case CommandTree(_) => 1
    case GroupTree(_, _, body) => LeavesFrom(t, 0)
    case PrefixTree(_, inner) => Leaves(inner)
  }

  function LeavesFrom(t: StepTree, k: nat): nat
    requires t.GroupTree?
    decreases t, 0, |t.body| - k
  {
    if k >= |t.body| then 0 else Leaves(t.body[k]) + LeavesFrom(t, k + 1)
  }

  /** The command nodes of a node tree. */
  function Commands(n: Node): nat
    decreases n, 1
  {
    match n
    case CommandNode(_, _, _) => 1
    case SequentialNode(_, _, _) => CommandsFrom(n, 0)
    case ParallelNode(_, _, _) => CommandsFrom(n, 0)
    case _ => 0
  }

  function CommandsFrom(n: Node, k: nat): nat
    requires n.SequentialNode? || n.ParallelNode?
    decreases n, 0, |n.children| - k
  {
    if k >= |n.children| then 0 else Commands(n.children[k]) + CommandsFrom(n, k + 1)
  }

  /** The group node `Transform` builds for a `GroupTree` lists one transformed child per element of the body. */
  lemma GroupChildren(t: StepTree)
    requires t.GroupTree?
    ensures var r := Transform(t, StepsNotInlined);
      (r.SequentialNode? || r.ParallelNode?) && r.children == seq(|t.body|, i requires 0 <= i < |t.body| => Transform(t.body[i], StepsNotInlined))
  {
    var children := seq(|t.body|, i requires 0 <= i < |t.body| => Transform(t.body[i], StepsNotInlined));
    var optionArgs := if t.options.Some? then [OptionsOf(t.options.value)] else [];
    var args := optionArgs + [StepsNode(children)];
    assert args[|args| - 1] == StepsNode(children);
  }

  /** With `steps` not inlined, the node tree has exactly the commands of the parse tree. */
  lemma {:induction false} TransformKeepsCommands(t: StepTree)
    ensures Commands(Transform(t, StepsNotInlined)) == Leaves(t)
    decreases t, 1
  {
    match t
    case CommandTree(_) =>
    case GroupTree(_, _, _) =>
      GroupChildren(t);
      TransformKeepsCommandsFrom(t, 0);
    case PrefixTree(prefix, inner) =>
      TransformKeepsCommands(inner);
      if prefix.Some? {
        StepOfCommands(OptionsOf(prefix.value), Transform(inner, StepsNotInlined));
      }
  }

  lemma {:induction false} TransformKeepsCommandsFrom(t: StepTree, k: nat)
    requires t.GroupTree?
    ensures var r := Transform(t, StepsNotInlined);
      (r.SequentialNode? || r.ParallelNode?) && |r.children| == |t.body| && CommandsFrom(r, k) == LeavesFrom(t, k)
    decreases t, 0, |t.body| - k
  {
    GroupChildren(t);
    var r := Transform(t, StepsNotInlined);
    if k < |t.body| {
      var child := Transform(t.body[k], StepsNotInlined);
      assert r.children[k] == child;
      TransformKeepsCommands(t.body[k]);
      TransformKeepsCommandsFrom(t, k + 1);
      assert CommandsFrom(r, k) == Commands(child) + CommandsFrom(r, k + 1);
      assert LeavesFrom(t, k) == Leaves(t.body[k]) + LeavesFrom(t, k + 1);
    }
  }

  /** Laying options over a step keeps its commands. */
  lemma StepOfCommands(outer: Node, inner: Node)
    requires outer.OptionsNode? && inner.IsStep()
    ensures Commands(StepOf(outer, inner)) == Commands(inner)
  {
    var r := StepOf(outer, inner);
    if !inner.CommandNode? {
      StepOfCommandsFrom(outer, inner, 0);
    }
  }

  lemma {:induction false} StepOfCommandsFrom(outer: Node, inner: Node, k: nat)
    requires outer.OptionsNode? && (inner.SequentialNode? || inner.ParallelNode?)
    ensures CommandsFrom(StepOf(outer, inner), k) == CommandsFrom(inner, k)
    decreases |inner.children| - k
  {
    if k < |inner.children| {
      StepOfCommandsFrom(outer, inner, k + 1);
    }
  }

  /**
   * As written, a group whose body is a single step gets no children: the
   * inlined step is neither an `options` nor a `steps` argument.
   */
  lemma SingleStepGroupIsEmpty(parallel: bool, options: Option<seq<OptionTree>>, s: StepTree)
    ensures var r := Transform(GroupTree(parallel, options, [s]), AsWritten);
      (r.SequentialNode? || r.ParallelNode?) && r.children == []
  {
    var child := Transform(s, AsWritten);
    var children := seq(1, i requires 0 <= i < 1 => Transform([s][i], AsWritten));
    assert children == [child];
    var optionArgs := if options.Some? then [OptionsOf(options.value)] else [];
    var args := optionArgs + [child];
    assert Transform(GroupTree(parallel, options, [s]), AsWritten) == Grouped(parallel, args);
    assert args[|args| - 1] == child && !child.StepsNode?;
    assert args[..|args| - 1] == optionArgs;
    assert StepsArg(args) == StepsArg(optionArgs);
    assert StepsArg(optionArgs) == [] by {
      if options.Some? {
        assert optionArgs[..0] == [];
      }
    }
  }

  /**
   * The script `[`, `echo hi`, `]` on three lines (a command runs to the end
   * of its line, so the `]` needs a line of its own): one command in the
   * script, none in the tree, until `steps` is no longer inlined.
   */
  lemma SingleCommandLost()
    ensures var t := GroupTree(false, None, [CommandTree(Token(CMD, "echo hi"))]);
      && Leaves(t) == 1
      && Commands(Transform(t, AsWritten)) == 0
      && Commands(Transform(t, StepsNotInlined)) == 1
  {
    var t := GroupTree(false, None, [CommandTree(Token(CMD, "echo hi"))]);
    assert LeavesFrom(t, 0) == 1;
    SingleStepGroupIsEmpty(false, None, CommandTree(Token(CMD, "echo hi")));
    assert CommandsFrom(Transform(t, AsWritten), 0) == 0;
    TransformKeepsCommands(t);
  }

  /** Every node the walk produces is a step node all the way down, so `convert` accepts it. */
  lemma {:induction false} TransformConverts(t: StepTree, g: Grammar)
    ensures Unknown(Transform(t, g)) == None
    decreases t, 1
  {
    match t
    case CommandTree(_) =>
    case GroupTree(_, _, _) =>
      GroupBody(t, g);
      TransformConvertsFrom(t, g, 0);
    case PrefixTree(prefix, inner) =>
      TransformConverts(inner, g);
      if prefix.Some? {
        StepOfUnknown(OptionsOf(prefix.value), Transform(inner, g));
      }
  }

  /** A group's node has either no children or one transformed child per element of the body. */
  lemma GroupBody(t: StepTree, g: Grammar)
    requires t.GroupTree?
    ensures var r := Transform(t, g);
      (r.SequentialNode? || r.ParallelNode?)
      && (r.children == [] || r.children == seq(|t.body|, i requires 0 <= i < |t.body| => Transform(t.body[i], g)))
  {
    var r := Transform(t, g);
    var children := seq(|t.body|, i requires 0 <= i < |t.body| => Transform(t.body[i], g));
    var optionArgs := if t.options.Some? then [OptionsOf(t.options.value)] else [];
    var stepArgs := if g == AsWritten && |t.body| == 1 then children else [StepsNode(children)];
    var args := optionArgs + stepArgs;
    if g == AsWritten && |t.body| == 1 {
      assert t.body == [t.body[0]];
      SingleStepGroupIsEmpty(t.parallel, t.options, t.body[0]);
    } else {
      assert args[|args| - 1] == StepsNode(children);
      assert r.children == children;
    }
  }

  lemma {:induction false} TransformConvertsFrom(t: StepTree, g: Grammar, k: nat)
    requires t.GroupTree?
    requires var r := Transform(t, g);
      (r.SequentialNode? || r.ParallelNode?)
      && (r.children == [] || r.children == seq(|t.body|, i requires 0 <= i < |t.body| => Transform(t.body[i], g)))
    ensures FirstUnknown(Transform(t, g), k) == None
    decreases t, 0, |t.body| - k
  {
    var r := Transform(t, g);
    if k < |r.children| {
      assert r.children[k] == Transform(t.body[k], g);
      TransformConverts(t.body[k], g);
      TransformConvertsFrom(t, g, k + 1);
    }
  }

  lemma StepOfUnknown(outer: Node, inner: Node)
    requires outer.OptionsNode? && inner.IsStep()
    ensures Unknown(StepOf(outer, inner)) == Unknown(inner)
  {
    if !inner.CommandNode? {
      StepOfUnknownFrom(outer, inner, 0);
    }
  }

  lemma {:induction false} StepOfUnknownFrom(outer: Node, inner: Node, k: nat)
    requires outer.OptionsNode? && (inner.SequentialNode? || inner.ParallelNode?)
    ensures FirstUnknown(StepOf(outer, inner), k) == FirstUnknown(inner, k)
    decreases |inner.children| - k
  {
    if k < |inner.children| {
      StepOfUnknownFrom(outer, inner, k + 1);
    }
  }

  // ---------------------------------------------------------------------
  // `convert`
  // ---------------------------------------------------------------------

  /** The type name of the first node, in the order `convert` visits them, that it cannot convert. */
  function Unknown(n: Node): Option<string>
    decreases n, 1
  {
    match n
    case CommandNode(_, _, _) => None
    case SequentialNode(_, _, _) => FirstUnknown(n, 0)
    case ParallelNode(_, _, _) => FirstUnknown(n, 0)
    case _ => Some(TypeName(n))
  }

  function FirstUnknown(n: Node, k: nat): Option<string>
    requires n.SequentialNode? || n.ParallelNode?
    decreases n, 0, |n.children| - k
  {
    if k >= |n.children| then None
    else if Unknown(n.children[k]).Some? then Unknown(n.children[k])
    else FirstUnknown(n, k + 1)
  }

  /**
   * The step `s` is what `convert` builds from `n` at nesting level
   * `level`: same kind, options (unset ones as `{}`), environment, command
   * and title, and a child for each child node, in order, one level deeper.
   */
  ghost predicate Mirrors(n: Node, level: nat, s: Step)
    decreases n
  {
    match n
    case CommandNode(cmd, o, e) =>
      && s.kind == CommandKind && s.command == cmd && s.config == o.GetOr(map[]) && s.env == e.GetOr(map[])
      && s.level == level && s.title == ConfiguredTitle(s.config).GetOr(cmd)
    case SequentialNode(cs, o, e) =>
      && s.kind == SequentialKind && s.config == o.GetOr(map[]) && s.env == e.GetOr(map[]) && s.level == level
      && GroupTitled(s)
      && |s.steps| == |cs| && forall i :: 0 <= i < |cs| ==> Mirrors(cs[i], level + 1, s.steps[i])
    case ParallelNode(cs, o, e) =>
      && s.kind == ParallelKind && s.config == o.GetOr(map[]) && s.env == e.GetOr(map[]) && s.level == level
      && GroupTitled(s)
      && |s.steps| == |cs| && forall i :: 0 <= i < |cs| ==> Mirrors(cs[i], level + 1, s.steps[i])
    case _ => false
  }

  /**
   * A group's title: the configured `title` option, or else the default
   * `"<kind> group #"` followed by four hex digits of a number below 256.
   */
  ghost predicate GroupTitled(s: Step) {
    if ConfiguredTitle(s.config).Some? then s.title == ConfiguredTitle(s.config).value
    else exists k :: 0 <= k < 256 && s.title == GroupPrefix(s.kind) + Hex4(k)
  }

  /** `s` is a valid step tree, not yet run, mirroring `n` at `level`. */
  ghost predicate Converted(s: Step, n: Node, level: nat)
    reads s.Repr
  {
    s.Valid() && s.Pending() && s.runEnv == None && Mirrors(n, level, s)
  }

  /**
   * `convert`: a fresh, not yet run step tree mirroring `n`, or the
   * `ValueError` raised at the first node that is not a step.
   */
  method Convert(n: Node, level: nat) returns (r: Result<Step, string>)
    ensures r.Success? <==> Unknown(n) == None
    ensures r.Failure? ==> r.error == "convert: unknown node type: " + Unknown(n).value
    ensures r.Success? ==> Converted(r.value, n, level) && fresh(r.value.Repr)
    decreases n, 2
  {
    if n.CommandNode? {
      var s := new Step.Command(n.opts.GetOr(map[]), n.env.GetOr(map[]), level, n.command);
      return Success(s);
    } else if n.SequentialNode? || n.ParallelNode? {
      r := ConvertGroup(n, level);
    } else {
      return Failure("convert: unknown node type: " + TypeName(n));
    }
  }

  /** `convert` of a group: the group around its children, each converted at `level + 1`. */
  method ConvertGroup(n: Node, level: nat) returns (r: Result<Step, string>)
    requires n.SequentialNode? || n.ParallelNode?
    ensures r.Success? <==> FirstUnknown(n, 0) == None
    ensures r.Failure? ==> r.error == "convert: unknown node type: " + FirstUnknown(n, 0).value
    ensures r.Success? ==> Converted(r.value, n, level) && fresh(r.value.Repr)
    decreases n, 1
  {
    var tasks := ConvertChildren(n, level);
    if tasks.Failure? {
      return Failure(tasks.error);
    }
    var kind := if n.ParallelNode? then ParallelKind else SequentialKind;
    var g := new Step.Group(kind, n.opts.GetOr(map[]), n.env.GetOr(map[]), level, tasks.value);
    return Success(g);
  }

  /** The children of a group node converted in order, stopping at the first failure. */
  method ConvertChildren(n: Node, level: nat) returns (r: Result<seq<Step>, string>)
    requires n.SequentialNode? || n.ParallelNode?
    ensures r.Success? <==> FirstUnknown(n, 0) == None
    ensures r.Failure? ==> r.error == "convert: unknown node type: " + FirstUnknown(n, 0).value
    ensures r.Success? ==> |r.value| == |n.children|
    ensures r.Success? ==> forall k :: 0 <= k < |r.value| ==>
      Converted(r.value[k], n.children[k], level + 1) && fresh(r.value[k].Repr)
    ensures r.Success? ==> forall j, k :: 0 <= j < k < |r.value| ==> r.value[j].Repr !! r.value[k].Repr
    decreases n, 0
  {
    var tasks: seq<Step> := [];
    var i := 0;
    while i < |n.children|
      invariant 0 <= i <= |n.children| && |tasks| == i
      invariant FirstUnknown(n, 0) == FirstUnknown(n, i)
      invariant forall k :: 0 <= k < i ==> Converted(tasks[k], n.children[k], level + 1) && fresh(tasks[k].Repr)
      invariant forall j, k :: 0 <= j < k < i ==> tasks[j].Repr !! tasks[k].Repr
    {
      var c := Convert(n.children[i], level + 1);
      if c.Failure? {
        return Failure(c.error);
      }
      tasks := tasks + [c.value];
      i := i + 1;
    }
    return Success(tasks);
  }

  /** The commands of a step tree. */
  ghost function CommandLeaves(s: Step): nat
    requires s.Valid()
    decreases s.height, 1
  {
    if s.kind.CommandKind? then 1 else CommandLeavesFrom(s, 0)
  }

  ghost function CommandLeavesFrom(s: Step, k: nat): nat
    requires s.Valid()
    decreases s.height, 0, |s.steps| - k
  {
    if k >= |s.steps| then 0 else CommandLeaves(s.steps[k]) + CommandLeavesFrom(s, k + 1)
  }

  /** A converted tree has one command step per command node. */
  lemma {:induction false} MirrorsCommands(n: Node, level: nat, s: Step)
    requires s.Valid() && Mirrors(n, level, s)
    ensures CommandLeaves(s) == Commands(n)
    decreases n, 1
  {
    if !n.CommandNode? {
      MirrorsCommandsFrom(n, level, s, 0);
    }
  }

  lemma {:induction false} MirrorsCommandsFrom(n: Node, level: nat, s: Step, k: nat)
    requires s.Valid() && Mirrors(n, level, s) && (n.SequentialNode? || n.ParallelNode?)
    ensures CommandLeavesFrom(s, k) == CommandsFrom(n, k)
    decreases n, 0, |n.children| - k
  {
    if k < |n.children| {
      MirrorsCommands(n.children[k], level + 1, s.steps[k]);
      MirrorsCommandsFrom(n, level, s, k + 1);
    }
  }

  // ---------------------------------------------------------------------
  // The `CMD` token
  // ---------------------------------------------------------------------

  /** A character a command may start with: a letter, a digit, `.` or `/`. */
  predicate CommandStart(c: char) {
    ('a' <= c <= 'z') || ('A' <= c <= 'Z') || ('0' <= c <= '9') || c == '.' || c == '/'
  }

  /** A character that ends a command: a line break or the start of a comment. */
  predicate CommandStop(c: char) {
    c == '\r' || c == '\n' || c == '#'
  }

  /**
   * The longest `CMD` token at the start of `text`: its length, 0 when
   * `text` does not start with one.
   */
  method ScanCommand(text: string) returns (len: nat)
    ensures len <= |text|
    ensures len > 0 <==> |text| > 0 && CommandStart(text[0])
    ensures forall k :: 0 < k < len ==> !CommandStop(text[k])
    ensures len > 0 && len < |text| ==> CommandStop(text[len])
  {
    if |text| == 0 || !CommandStart(text[0]) {
      return 0;
    }
    len := 1;
    while len < |text| && !CommandStop(text[len])
      invariant 1 <= len <= |text|
      invariant forall k :: 0 < k < len ==> !CommandStop(text[k])
    {
      len := len + 1;
    }
  }
}
