/**
 The filter parser (`parseFilter` of `gql/parser.go`): a shunting yard over an
 operator stack and a value stack.

 `Parse` is that machine on arbitrary tokens, including its error returns and
 its fatal assertions. `OrExpr`, `AndExpr` and `Prim` are the derivations of
 the grammar that it is meant to accept.
 */
module FilterParser {
  import opened Bytes
  import opened Seqs

  datatype Token = LeftRound | RightRound | Func(name: string) | Arg(val: string) | And | Or | Other

  datatype Function = Function(name: string, attr: string, args: seq<string>)
  datatype BoolOp = AndOp | OrOp
  datatype FilterTree = Leaf(f: Function) | Binary(op: BoolOp, left: FilterTree, right: FilterTree)

  datatype StackOp = Bracket | Operator(op: BoolOp)

  datatype State = State(ops: seq<StackOp>, vals: seq<FilterTree>)

  /** `Fatal` is a failed assertion: popping an empty stack or leaving with open brackets. */
  datatype Result = Tree(t: FilterTree) | NoFilter | SyntaxError | Fatal
  datatype Parsed = Parsed(result: Result, next: nat)

  /** `filterOpPrecedence`; a bracket is not in the map. */
  function Prec(o: StackOp): nat {
    match o
    case Bracket => 0
    case Operator(AndOp) => 2
    case Operator(OrOp) => 1
  }

  /** `evalStack` */
  function EvalStack(s: State): Option<State> {
    if |s.ops| > 0 && s.ops[|s.ops| - 1].Operator? && |s.vals| >= 2 then
      var n := |s.vals|;
      Some(State(s.ops[..|s.ops| - 1],
                 s.vals[..n - 2] + [Binary(s.ops[|s.ops| - 1].op, s.vals[n - 2], s.vals[n - 1])]))
    else None
  }

  /** Evaluate while the top operator binds at least as tightly as `prec`. */
  function Reduce(s: State, prec: nat): Option<State>
    requires prec > 0
    decreases |s.ops|
  {
    if |s.ops| == 0 || Prec(s.ops[|s.ops| - 1]) < prec then Some(s)
    else match EvalStack(s)
      case None => None
      case Some(s') => Reduce(s', prec)
  }

  /** An argument of a leaf: the first non-empty one names the attribute. */
  function AddArg(f: Function, arg: string): Function {
    if f.attr == "" then f.(attr := arg) else f.(args := f.args + [arg])
  }

  datatype Call = Call(f: Function, next: nat) | BadCall(at: nat)

  /** The arguments of a leaf from position `i` on. */
  function ParseArgs(toks: seq<Token>, i: nat, f: Function): (r: Call)
    requires i <= |toks|
    ensures r.Call? ==> i < r.next <= |toks|
    ensures r.BadCall? ==> i <= r.at <= |toks|
    decreases |toks| - i
  {
    if i == |toks| then BadCall(i)
    else match toks[i]
      case RightRound => Call(f, i + 1)
      case Arg(v) => ParseArgs(toks, i + 1, AddArg(f, v))
      case _ => BadCall(i + 1)
  }

  function ParseCall(toks: seq<Token>, i: nat, name: string): (r: Call)
    requires i <= |toks|
    ensures r.Call? ==> i < r.next <= |toks|
    ensures r.BadCall? ==> i <= r.at <= |toks|
  {
    if i == |toks| then BadCall(i)
    else if toks[i] != LeftRound then BadCall(i + 1)
    else ParseArgs(toks, i + 1, Function(name, "", []))
  }

  /** What is returned once the loop is left. */
  function Finish(s: State): Result {
    if s.ops != [] then Fatal
    else if s.vals == [] then NoFilter
    else if |s.vals| != 1 then SyntaxError
    else Tree(s.vals[0])
  }

  /** The main loop from position `i` on. */
  function Parse(toks: seq<Token>, i: nat, s: State): (r: Parsed)
    requires i <= |toks|
    ensures i <= r.next <= |toks|
    decreases |toks| - i
  {
    if i == |toks| then Parsed(Finish(s), i)
    else match toks[i]
      case Func(name) =>
        (match ParseCall(toks, i + 1, name)
         case BadCall(at) => Parsed(SyntaxError, at)
         case Call(f, next) => Parse(toks, next, s.(vals := s.vals + [Leaf(f)])))
      case LeftRound => Parse(toks, i + 1, s.(ops := s.ops + [Bracket]))
      case RightRound =>
        (match Reduce(s, 1)
         case None => Parsed(Fatal, i + 1)
         case Some(s') =>
           if s'.ops == [] then Parsed(Fatal, i + 1)
           else
             var s'' := s'.(ops := s'.ops[..|s'.ops| - 1]);
             if s''.ops == [] then Parsed(Finish(s''), i + 1) else Parse(toks, i + 1, s''))
      case And =>
        (match Reduce(s, 2)
         case None => Parsed(Fatal, i + 1)
         case Some(s') => Parse(toks, i + 1, s'.(ops := s'.ops + [Operator(AndOp)])))
      case Or =>
        (match Reduce(s, 1)
         case None => Parsed(Fatal, i + 1)
         case Some(s') => Parse(toks, i + 1, s'.(ops := s'.ops + [Operator(OrOp)])))
      case _ => Parse(toks, i + 1, s)
  }

  /** `parseFilter` on the tokens that follow the directive. */
  function ParseFilter(toks: seq<Token>): Parsed {
    if toks == [] then Parsed(SyntaxError, 0)
    else if toks[0] != LeftRound then Parsed(SyntaxError, 1)
    else Parse(toks, 1, State([Bracket], []))
  }

  // ---------- The grammar ----------

  datatype Prim = CallOf(name: string, args: seq<string>) | Group(e: OrExpr)
  datatype AndExpr = One(p: Prim) | AndThen(l: AndExpr, p: Prim)
  datatype OrExpr = Single(a: AndExpr) | OrElse(l: OrExpr, a: AndExpr)

  function ArgToks(args: seq<string>): seq<Token> {
    if args == [] then [] else [Arg(args[0])] + ArgToks(args[1..])
  }

  function PrimToks(p: Prim): (r: seq<Token>)
    ensures |r| > 0
  {
    match p
    case CallOf(name, args) => [Func(name), LeftRound] + ArgToks(args) + [RightRound]
    case Group(e) => [LeftRound] + OrToks(e) + [RightRound]
  }

  function AndToks(a: AndExpr): seq<Token> {
    match a
    case One(p) => PrimToks(p)
    case AndThen(l, p) => AndToks(l) + [And] + PrimToks(p)
  }

  function OrToks(e: OrExpr): seq<Token> {
    match e
    case Single(a) => AndToks(a)
    case OrElse(l, a) => OrToks(l) + [Or] + AndToks(a)
  }

  /** The tokens of `@filter(e)`. */
  function FilterToks(e: OrExpr): seq<Token> {
    [LeftRound] + OrToks(e) + [RightRound]
  }

  /** The leaf that a call stands for: the first non-empty argument is the attribute, what follows it are the arguments. */
  function FunctionOf(name: string, args: seq<string>): Function {
    if args == [] then Function(name, "", [])
    else if args[0] == "" then FunctionOf(name, args[1..])
    else Function(name, args[0], args[1..])
  }

  /** The tree that a derivation stands for: left-associative, && inside ||, brackets respected. */
  function PrimTree(p: Prim): FilterTree {
    match p
    case CallOf(name, args) => Leaf(FunctionOf(name, args))
    case Group(e) => OrTree(e)
  }

  function AndTree(a: AndExpr): FilterTree {
    match a
    case One(p) => PrimTree(p)
    case AndThen(l, p) => Binary(AndOp, AndTree(l), PrimTree(p))
  }

  function OrTree(e: OrExpr): FilterTree {
    match e
    case Single(a) => AndTree(a)
    case OrElse(l, a) => Binary(OrOp, OrTree(l), AndTree(a))
  }

  // ---------- What the machine has on its stacks after reading a derivation ----------

  function AndOps(a: AndExpr): seq<StackOp> {
    if a.One? then [] else [Operator(AndOp)]
  }

  function AndVals(a: AndExpr): seq<FilterTree> {
    match a
    case One(p) => [PrimTree(p)]
    case AndThen(l, p) => [AndTree(l), PrimTree(p)]
  }

  function OrOps(e: OrExpr): seq<StackOp> {
    match e
    case Single(a) => AndOps(a)
    case OrElse(l, a) => [Operator(OrOp)] + AndOps(a)
  }

  function OrVals(e: OrExpr): seq<FilterTree> {
    match e
    case Single(a) => AndVals(a)
    case OrElse(l, a) => [OrTree(l)] + AndVals(a)
  }

  lemma AtHead(toks: seq<Token>, i: nat, t: Token)
    requires At(toks, i, [t])
    ensures i < |toks| && toks[i] == t
  {
    assert toks[i..i + 1][0] == t;
  }

  lemma EvalTop(ops: seq<StackOp>, op: BoolOp, vals: seq<FilterTree>, x: FilterTree, y: FilterTree)
    ensures EvalStack(State(ops + [Operator(op)], vals + [x, y])) == Some(State(ops, vals + [Binary(op, x, y)]))
  {
  }

  lemma ReduceTop(ops: seq<StackOp>, op: BoolOp, vals: seq<FilterTree>, x: FilterTree, y: FilterTree, prec: nat)
    requires 0 < prec <= Prec(Operator(op))
    ensures Reduce(State(ops + [Operator(op)], vals + [x, y]), prec) == Reduce(State(ops, vals + [Binary(op, x, y)]), prec)
  {
    hide EvalStack;
    EvalTop(ops, op, vals, x, y);
  }

  lemma ReduceStop(ops: seq<StackOp>, vals: seq<FilterTree>, prec: nat)
    requires prec > 0 && (ops == [] || Prec(ops[|ops| - 1]) < prec)
    ensures Reduce(State(ops, vals), prec) == Some(State(ops, vals))
  {
  }

  /** A conjunction that is still on the stacks collapses into its tree. */
  lemma ReduceAnd(a: AndExpr, ops: seq<StackOp>, vals: seq<FilterTree>, prec: nat)
    requires 0 < prec <= 2
    ensures Reduce(State(ops + AndOps(a), vals + AndVals(a)), prec) == Reduce(State(ops, vals + [AndTree(a)]), prec)
  {
    hide Reduce, PrimTree;
    match a {
      case One(p) =>
        assert ops + AndOps(a) == ops;
      case AndThen(l, p) =>
        ReduceTop(ops, AndOp, vals, AndTree(l), PrimTree(p), prec);
    }
  }

  lemma ReduceOr(e: OrExpr, ops: seq<StackOp>, vals: seq<FilterTree>)
    ensures Reduce(State(ops + OrOps(e), vals + OrVals(e)), 1) == Reduce(State(ops, vals + [OrTree(e)]), 1)
  {
    hide Reduce, AndOps, AndVals, AndTree;
    match e {
      case Single(a) =>
        ReduceAnd(a, ops, vals, 1);
      case OrElse(l, a) =>
        assert ops + OrOps(e) == (ops + [Operator(OrOp)]) + AndOps(a);
        assert vals + OrVals(e) == (vals + [OrTree(l)]) + AndVals(a);
        ReduceAnd(a, ops + [Operator(OrOp)], vals + [OrTree(l)], 1);
        assert (vals + [OrTree(l)]) + [AndTree(a)] == vals + [OrTree(l), AndTree(a)];
        ReduceTop(ops, OrOp, vals, OrTree(l), AndTree(a), 1);
    }
  }

  /** Reading arguments one by one. */
  function AddArgs(f: Function, args: seq<string>): Function
    decreases |args|
  {
    if args == [] then f else AddArgs(AddArg(f, args[0]), args[1..])
  }

  /** Once the attribute is known, arguments are appended in order. */
  lemma {:induction false} AddArgsAppends(f: Function, args: seq<string>)
    requires f.attr != ""
    ensures AddArgs(f, args) == f.(args := f.args + args)
    decreases |args|
  {
    if args == [] {
      assert f.args + args == f.args;
    } else {
      AddArgsAppends(AddArg(f, args[0]), args[1..]);
      assert f.args + [args[0]] + args[1..] == f.args + args;
    }
  }

  lemma {:induction false} AddArgsExact(name: string, args: seq<string>)
    ensures AddArgs(Function(name, "", []), args) == FunctionOf(name, args)
    decreases |args|
  {
    if args != [] {
      if args[0] == "" {
        AddArgsExact(name, args[1..]);
      } else {
        AddArgsAppends(Function(name, args[0], []), args[1..]);
        assert [] + args[1..] == args[1..];
      }
    }
  }

  /** Empty arguments before the attribute are skipped. */
  lemma {:induction false} FunctionOfArgs(name: string, empties: seq<string>, attr: string, args: seq<string>)
    requires attr != "" && forall i :: 0 <= i < |empties| ==> empties[i] == ""
    ensures FunctionOf(name, empties + [attr] + args) == Function(name, attr, args)
    decreases |empties|
  {
    var all := empties + [attr] + args;
    if empties == [] {
      assert all[0] == attr && all[1..] == args;
    } else {
      assert all[0] == "" && all[1..] == empties[1..] + [attr] + args;
      FunctionOfArgs(name, empties[1..], attr, args);
    }
  }

  lemma {:induction false} ArgToksLength(args: seq<string>)
    ensures |ArgToks(args)| == |args|
  {
    if args != [] { ArgToksLength(args[1..]); }
  }

  /** `name("", ..., attr, args...)`: the attribute, exactly the arguments behind it, and the position after the bracket. */
  lemma ParseCallExact(toks: seq<Token>, i: nat, name: string, empties: seq<string>, attr: string, args: seq<string>)
    requires attr != "" && forall i :: 0 <= i < |empties| ==> empties[i] == ""
    requires At(toks, i, [LeftRound] + (ArgToks(empties + [attr] + args) + [RightRound]))
    ensures ParseCall(toks, i, name) == Call(Function(name, attr, args), i + |empties| + |args| + 3)
  {
    hide At, ParseArgs, AddArgs, FunctionOf, ArgToks;
    var all := empties + [attr] + args;
    AtSplit(toks, i, [LeftRound], ArgToks(all) + [RightRound]);
    AtHead(toks, i, LeftRound);
    ParseArgsAt(toks, i + 1, all, Function(name, "", []));
    AddArgsExact(name, all);
    FunctionOfArgs(name, empties, attr, args);
    ArgToksLength(all);
  }

  lemma {:induction false} ParseArgsAt(toks: seq<Token>, i: nat, args: seq<string>, f: Function)
    requires At(toks, i, ArgToks(args) + [RightRound])
    ensures ParseArgs(toks, i, f) == Call(AddArgs(f, args), i + |ArgToks(args)| + 1)
    decreases |args|
  {
    AtSplit(toks, i, ArgToks(args), [RightRound]);
    if args == [] {
      AtHead(toks, i, RightRound);
    } else {
      assert ArgToks(args) + [RightRound] == [Arg(args[0])] + (ArgToks(args[1..]) + [RightRound]);
      AtSplit(toks, i, [Arg(args[0])], ArgToks(args[1..]) + [RightRound]);
      AtHead(toks, i, Arg(args[0]));
      ParseArgsAt(toks, i + 1, args[1..], AddArg(f, args[0]));
    }
  }
}
