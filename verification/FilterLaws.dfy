/** The parser returns the tree of the grammar, on every derivation; and the loop that computes it. */
module FilterLaws {
  import opened Bytes
  import opened Seqs
  import opened FilterParser

  // ---------- One step of the machine ----------

  lemma StepCall(toks: seq<Token>, i: nat, s: State, name: string, args: seq<string>)
    requires At(toks, i, PrimToks(CallOf(name, args)))
    ensures Parse(toks, i, s)
         == Parse(toks, i + |PrimToks(CallOf(name, args))|, s.(vals := s.vals + [PrimTree(CallOf(name, args))]))
  {
    hide At, ParseArgs, FunctionOf, AddArgs;
    assert PrimToks(CallOf(name, args)) == [Func(name)] + ([LeftRound] + (ArgToks(args) + [RightRound]));
    AtSplit(toks, i, [Func(name)], [LeftRound] + (ArgToks(args) + [RightRound]));
    AtSplit(toks, i + 1, [LeftRound], ArgToks(args) + [RightRound]);
    AtHead(toks, i, Func(name));
    AtHead(toks, i + 1, LeftRound);
    ParseArgsAt(toks, i + 2, args, Function(name, "", []));
    AddArgsExact(name, args);
  }

  lemma StepOp(toks: seq<Token>, i: nat, s: State, s': State, op: BoolOp)
    requires i < |toks| && toks[i] == (if op == AndOp then And else Or)
    requires Reduce(s, if op == AndOp then 2 else 1) == Some(s')
    ensures Parse(toks, i, s) == Parse(toks, i + 1, s'.(ops := s'.ops + [Operator(op)]))
  {
    hide Reduce;
  }

  lemma StepClose(toks: seq<Token>, i: nat, s: State, ops: seq<StackOp>, vals: seq<FilterTree>)
    requires i < |toks| && toks[i] == RightRound
    requires Reduce(s, 1) == Some(State(ops + [Bracket], vals))
    ensures Parse(toks, i, s)
         == if ops == [] then Parsed(Finish(State([], vals)), i + 1) else Parse(toks, i + 1, State(ops, vals))
  {
    hide Reduce;
    assert (ops + [Bracket])[..|ops + [Bracket]| - 1] == ops;
  }

  // ---------- Derivations ----------

  /** Reading a primary leaves its tree on the value stack and the operators as they were. */
  lemma {:induction false} ParsePrim(toks: seq<Token>, i: nat, p: Prim, ops: seq<StackOp>, vals: seq<FilterTree>)
    requires At(toks, i, PrimToks(p)) && ops != []
    ensures Parse(toks, i, State(ops, vals))
         == Parse(toks, i + |PrimToks(p)|, State(ops, vals + [PrimTree(p)]))
    decreases p, 0
  {
    hide Parse, Reduce, Finish;
    match p {
      case CallOf(name, args) =>
        StepCall(toks, i, State(ops, vals), name, args);
      case Group(e) =>
        assert PrimToks(p) == [LeftRound] + (OrToks(e) + [RightRound]);
        AtSplit(toks, i, [LeftRound], OrToks(e) + [RightRound]);
        AtSplit(toks, i + 1, OrToks(e), [RightRound]);
        AtHead(toks, i, LeftRound);
        StepOpen(toks, i, State(ops, vals));
        ParseOr(toks, i + 1, e, ops + [Bracket], vals);
        var j := i + 1 + |OrToks(e)|;
        AtHead(toks, j, RightRound);
        ReduceOr(e, ops + [Bracket], vals);
        ReduceStop(ops + [Bracket], vals + [OrTree(e)], 1);
        StepClose(toks, j, State(ops + [Bracket] + OrOps(e), vals + OrVals(e)), ops, vals + [OrTree(e)]);
    }
  }

  lemma StepOpen(toks: seq<Token>, i: nat, s: State)
    requires i < |toks| && toks[i] == LeftRound
    ensures Parse(toks, i, s) == Parse(toks, i + 1, s.(ops := s.ops + [Bracket]))
  {
  }

  lemma {:induction false} ParseAnd(toks: seq<Token>, i: nat, a: AndExpr, ops: seq<StackOp>, vals: seq<FilterTree>)
    requires At(toks, i, AndToks(a)) && ops != [] && Prec(ops[|ops| - 1]) < 2
    ensures Parse(toks, i, State(ops, vals))
         == Parse(toks, i + |AndToks(a)|, State(ops + AndOps(a), vals + AndVals(a)))
    decreases a, 1
  {
    hide Parse, Reduce, PrimToks, PrimTree, AndTree;
    match a {
      case One(p) =>
        ParsePrim(toks, i, p, ops, vals);
        assert ops + AndOps(a) == ops;
      case AndThen(l, p) =>
        assert AndToks(a) == AndToks(l) + ([And] + PrimToks(p));
        AtSplit(toks, i, AndToks(l), [And] + PrimToks(p));
        var j := i + |AndToks(l)|;
        AtSplit(toks, j, [And], PrimToks(p));
        AtHead(toks, j, And);
        ParseAnd(toks, i, l, ops, vals);
        ReduceAnd(l, ops, vals, 2);
        ReduceStop(ops, vals + [AndTree(l)], 2);
        StepOp(toks, j, State(ops + AndOps(l), vals + AndVals(l)), State(ops, vals + [AndTree(l)]), AndOp);
        ParsePrim(toks, j + 1, p, ops + [Operator(AndOp)], vals + [AndTree(l)]);
        assert vals + [AndTree(l)] + [PrimTree(p)] == vals + AndVals(a);
    }
  }

  lemma {:induction false} ParseOr(toks: seq<Token>, i: nat, e: OrExpr, ops: seq<StackOp>, vals: seq<FilterTree>)
    requires At(toks, i, OrToks(e)) && ops != [] && ops[|ops| - 1] == Bracket
    ensures Parse(toks, i, State(ops, vals))
         == Parse(toks, i + |OrToks(e)|, State(ops + OrOps(e), vals + OrVals(e)))
    decreases e, 2
  {
    hide Parse, Reduce, AndToks, AndTree, OrTree, AndOps, AndVals;
    match e {
      case Single(a) =>
        ParseAnd(toks, i, a, ops, vals);
      case OrElse(l, a) =>
        assert OrToks(e) == OrToks(l) + ([Or] + AndToks(a));
        AtSplit(toks, i, OrToks(l), [Or] + AndToks(a));
        var j := i + |OrToks(l)|;
        AtSplit(toks, j, [Or], AndToks(a));
        AtHead(toks, j, Or);
        ParseOr(toks, i, l, ops, vals);
        ReduceOr(l, ops, vals);
        ReduceStop(ops, vals + [OrTree(l)], 1);
        StepOp(toks, j, State(ops + OrOps(l), vals + OrVals(l)), State(ops, vals + [OrTree(l)]), OrOp);
        ParseAnd(toks, j + 1, a, ops + [Operator(OrOp)], vals + [OrTree(l)]);
        assert ops + [Operator(OrOp)] + AndOps(a) == ops + OrOps(e);
        assert vals + [OrTree(l)] + AndVals(a) == vals + OrVals(e);
    }
  }

  lemma AtStart(s: seq<Token>, rest: seq<Token>)
    ensures At(s + rest, 0, s)
  {
    assert (s + rest)[0..|s|] == s;
  }

  /**
   Every filter of the grammar, whatever follows it: the parser returns its
   tree, stops right after the matching bracket and never underflows a stack.
   */
  lemma FilterParses(e: OrExpr, rest: seq<Token>)
    ensures ParseFilter(FilterToks(e) + rest) == Parsed(Tree(OrTree(e)), |FilterToks(e)|)
  {
    hide Parse, Reduce, At, OrToks, OrOps, OrVals, OrTree;
    var toks := FilterToks(e) + rest;
    var n := |OrToks(e)|;
    AtStart(FilterToks(e), rest);
    assert FilterToks(e) == [LeftRound] + (OrToks(e) + [RightRound]);
    AtSplit(toks, 0, [LeftRound], OrToks(e) + [RightRound]);
    AtSplit(toks, 1, OrToks(e), [RightRound]);
    AtHead(toks, 0, LeftRound);
    AtHead(toks, 1 + n, RightRound);
    ParseOr(toks, 1, e, [Bracket], []);
    ReduceOr(e, [Bracket], []);
    ReduceStop([Bracket], [] + [OrTree(e)], 1);
    assert [] + [OrTree(e)] == [OrTree(e)];
    assert [] + [Bracket] == [Bracket];
    StepClose(toks, 1 + n, State([Bracket] + OrOps(e), [] + OrVals(e)), [], [OrTree(e)]);
  }

  /** `@filter(name(attr, args...))`, whatever follows it. */
  lemma CallParses(name: string, attr: string, args: seq<string>, rest: seq<Token>)
    requires attr != ""
    ensures ParseFilter([LeftRound, Func(name), LeftRound, Arg(attr)] + ArgToks(args) + [RightRound, RightRound] + rest)
         == Parsed(Tree(Leaf(Function(name, attr, args))), |args| + 6)
  {
    hide ParseFilter, ArgToks, OrToks, OrTree;
    var p := CallOf(name, [attr] + args);
    var e := Single(One(p));
    SingleCall(p);
    ArgToksCons(attr, args);
    ArgToksLength(args);
    FunctionOfArgs(name, [], attr, args);
    assert [] + [attr] + args == [attr] + args;
    assert PrimToks(p) == [Func(name), LeftRound] + ([Arg(attr)] + ArgToks(args)) + [RightRound];
    assert FilterToks(e) == [LeftRound, Func(name), LeftRound, Arg(attr)] + ArgToks(args) + [RightRound, RightRound];
    FilterParses(e, rest);
  }

  lemma SingleCall(p: Prim)
    ensures OrToks(Single(One(p))) == PrimToks(p) && OrTree(Single(One(p))) == PrimTree(p)
  {
    assert AndToks(One(p)) == PrimToks(p) && AndTree(One(p)) == PrimTree(p);
  }

  lemma ArgToksCons(arg: string, args: seq<string>)
    ensures ArgToks([arg] + args) == [Arg(arg)] + ArgToks(args)
  {
    assert ([arg] + args)[1..] == args;
  }

  /** The tree of a token sequence does not depend on how it is derived. */
  lemma TreeUnique(e1: OrExpr, e2: OrExpr)
    requires FilterToks(e1) == FilterToks(e2)
    ensures OrTree(e1) == OrTree(e2)
  {
    hide ParseFilter, OrTree, FilterToks;
    FilterParses(e1, []);
    FilterParses(e2, []);
  }

  /** `@filter()` is no filter. */
  lemma EmptyFilter(rest: seq<Token>)
    ensures ParseFilter([LeftRound, RightRound] + rest) == Parsed(NoFilter, 2)
  {
  }

  /** Outside the grammar the machine is not a recogniser: it also accepts an operator after both operands. */
  lemma AcceptsPostfix(p: Prim, q: Prim)
    ensures ParseFilter([LeftRound] + PrimToks(p) + PrimToks(q) + [And, RightRound]).result
         == Tree(Binary(AndOp, PrimTree(p), PrimTree(q)))
  {
    hide Parse, Reduce, PrimToks, PrimTree;
    var x, y := PrimTree(p), PrimTree(q);
    var toks := [LeftRound] + PrimToks(p) + PrimToks(q) + [And, RightRound];
    var i, j := 1 + |PrimToks(p)|, 1 + |PrimToks(p)| + |PrimToks(q)|;
    assert toks[1..i] == PrimToks(p) && toks[i..j] == PrimToks(q);
    ParsePrim(toks, 1, p, [Bracket], []);
    ParsePrim(toks, i, q, [Bracket], [x]);
    assert [] + [x] == [x] && [x] + [y] == [x, y];
    PostfixEnd(toks, j, x, y);
  }

  lemma PostfixEnd(toks: seq<Token>, j: nat, x: FilterTree, y: FilterTree)
    requires j + 1 < |toks| && toks[j] == And && toks[j + 1] == RightRound
    ensures Parse(toks, j, State([Bracket], [x, y])) == Parsed(Tree(Binary(AndOp, x, y)), j + 2)
  {
    hide Parse, Reduce;
    ReduceStop([Bracket], [x, y], 2);
    StepOp(toks, j, State([Bracket], [x, y]), State([Bracket], [x, y]), AndOp);
    ReducePair([Bracket], AndOp, x, y);
    assert [] + [Bracket] == [Bracket];
    StepClose(toks, j + 1, State([Bracket] + [Operator(AndOp)], [x, y]), [], [Binary(AndOp, x, y)]);
  }

  lemma ReducePair(ops: seq<StackOp>, op: BoolOp, x: FilterTree, y: FilterTree)
    requires ops != [] && ops[|ops| - 1] == Bracket
    ensures Reduce(State(ops + [Operator(op)], [x, y]), 1) == Some(State(ops, [Binary(op, x, y)]))
  {
    EvalTop(ops, op, [], x, y);
    assert [] + [x, y] == [x, y];
    assert [] + [Binary(op, x, y)] == [Binary(op, x, y)];
    ReduceStop(ops, [Binary(op, x, y)], 1);
  }

  /** And it dies on an operator without operands. */
  lemma DiesOnOperator()
    ensures ParseFilter([LeftRound, And, RightRound]).result == Fatal
  {
  }

  // ---------- The loops ----------

  /** The two inner loops: evaluate the stacks until a weaker operator or a bracket is on top. */
  method ReduceLoop(s: State, prec: nat) returns (r: Option<State>)
    requires prec > 0
    ensures r == Reduce(s, prec)
  {
    hide EvalStack;
    var opStack, valueStack := s.ops, s.vals;
    while |opStack| > 0
      invariant Reduce(s, prec) == Reduce(State(opStack, valueStack), prec)
      decreases |opStack|
    {
      var topOp := opStack[|opStack| - 1];
      if Prec(topOp) < prec {
        break;
      }
      // evalStack
      EvalStackDef(opStack, valueStack);
      if |valueStack| < 2 {
        return None;
      }
      var n := |valueStack|;
      var node := Binary(topOp.op, valueStack[n - 2], valueStack[n - 1]);
      opStack, valueStack := opStack[..|opStack| - 1], valueStack[..n - 2] + [node];
    }
    r := Some(State(opStack, valueStack));
  }

  lemma EvalStackDef(ops: seq<StackOp>, vals: seq<FilterTree>)
    requires |ops| > 0 && Prec(ops[|ops| - 1]) > 0
    ensures ops[|ops| - 1].Operator?
    ensures EvalStack(State(ops, vals)) ==
      if |vals| < 2 then None
      else Some(State(ops[..|ops| - 1],
                      vals[..|vals| - 2] + [Binary(ops[|ops| - 1].op, vals[|vals| - 2], vals[|vals| - 1])]))
  {
  }

  method ParseCallLoop(toks: seq<Token>, i: nat, name: string) returns (r: Call)
    requires i <= |toks|
    ensures r == ParseCall(toks, i, name)
  {
    if i == |toks| {
      return BadCall(i);
    }
    if toks[i] != LeftRound {
      return BadCall(i + 1);
    }
    var f, j := Function(name, "", []), i + 1;
    while j < |toks|
      invariant j <= |toks|
      invariant ParseCall(toks, i, name) == ParseArgs(toks, j, f)
    {
      var item := toks[j];
      j := j + 1;
      if item == RightRound {
        return Call(f, j);
      }
      if !item.Arg? {
        return BadCall(j);
      }
      if |f.attr| == 0 {
        f := f.(attr := item.val);
      } else {
        f := f.(args := f.args + [item.val]);
      }
    }
    return BadCall(j);
  }

  /** `parseFilter` */
  method ParseFilterLoop(toks: seq<Token>) returns (r: Parsed)
    ensures r == ParseFilter(toks)
  {
    hide Reduce, ParseCall;
    if |toks| == 0 {
      return Parsed(SyntaxError, 0);
    }
    if toks[0] != LeftRound {
      return Parsed(SyntaxError, 1);
    }
    var s, i := State([Bracket], []), 1;
    while i < |toks|
      invariant 1 <= i <= |toks|
      invariant ParseFilter(toks) == Parse(toks, i, s)
    {
      var item := toks[i];
      i := i + 1;
      match item {
        case Func(name) =>
          var call := ParseCallLoop(toks, i, name);
          if call.BadCall? {
            return Parsed(SyntaxError, call.at);
          }
          s := s.(vals := s.vals + [Leaf(call.f)]);
          i := call.next;
        case LeftRound =>
          s := s.(ops := s.ops + [Bracket]);
        case RightRound =>
          var reduced := ReduceLoop(s, 1);
          if reduced.None? {
            return Parsed(Fatal, i);
          }
          if reduced.value.ops == [] {
            return Parsed(Fatal, i);
          }
          s := reduced.value.(ops := reduced.value.ops[..|reduced.value.ops| - 1]);
          if s.ops == [] {
            return Parsed(Finish(s), i);
          }
        case And =>
          var reduced := ReduceLoop(s, 2);
          if reduced.None? {
            return Parsed(Fatal, i);
          }
          s := reduced.value.(ops := reduced.value.ops + [Operator(AndOp)]);
        case Or =>
          var reduced := ReduceLoop(s, 1);
          if reduced.None? {
            return Parsed(Fatal, i);
          }
          s := reduced.value.(ops := reduced.value.ops + [Operator(OrOp)]);
        case _ =>
      }
    }
    return Parsed(Finish(s), i);
  }
}
