/**
 What the filter parser does outside the grammar. A scan with a bracket depth
 and one bit recognises the grammar; a scan with two bits per open bracket and
 a count of operands tells, for every token sequence, how the parser ends.
 */
module FilterScan {
  import opened Bytes
  import opened Seqs
  import opened FilterParser
  import opened FilterLaws

  // ---------- Recognising the grammar ----------

  /** The position after the arguments of a call and their closing bracket. */
  function ArgsEnd(toks: seq<Token>, i: nat): (r: Option<nat>)
    requires i <= |toks|
    ensures r.Some? ==> i < r.value <= |toks|
    decreases |toks| - i
  {
    if i == |toks| then None
    else match toks[i]
      case RightRound => Some(i + 1)
      case Arg(_) => ArgsEnd(toks, i + 1)
      case _ => None
  }

  function CallEnd(toks: seq<Token>, i: nat): (r: Option<nat>)
    requires i <= |toks|
    ensures r.Some? ==> i < r.value <= |toks|
  {
    if i < |toks| && toks[i] == LeftRound then ArgsEnd(toks, i + 1) else None
  }

  /** From `i` on, with `depth` brackets open; `want` says that an operand is next. */
  predicate ScanFrom(toks: seq<Token>, i: nat, depth: nat, want: bool)
    requires i <= |toks|
    decreases |toks| - i
  {
    if i == |toks| then false
    else match toks[i]
      case Func(_) => want && CallEnd(toks, i + 1).Some? && ScanFrom(toks, CallEnd(toks, i + 1).value, depth, false)
      case LeftRound => want && ScanFrom(toks, i + 1, depth + 1, true)
      case RightRound => !want && (depth <= 1 || ScanFrom(toks, i + 1, depth - 1, false))
      case And => !want && ScanFrom(toks, i + 1, depth, true)
      case Or => !want && ScanFrom(toks, i + 1, depth, true)
      case _ => false
  }

  predicate Scans(toks: seq<Token>) {
    toks != [] && toks[0] == LeftRound && ScanFrom(toks, 1, 1, true)
  }

  // ---------- Every filter of the grammar scans ----------

  lemma {:induction false} ArgsEndAt(toks: seq<Token>, i: nat, args: seq<string>)
    requires At(toks, i, ArgToks(args) + [RightRound])
    ensures ArgsEnd(toks, i) == Some(i + |ArgToks(args)| + 1)
    decreases |args|
  {
    AtSplit(toks, i, ArgToks(args), [RightRound]);
    if args == [] {
      AtHead(toks, i, RightRound);
    } else {
      assert ArgToks(args) + [RightRound] == [Arg(args[0])] + (ArgToks(args[1..]) + [RightRound]);
      AtSplit(toks, i, [Arg(args[0])], ArgToks(args[1..]) + [RightRound]);
      AtHead(toks, i, Arg(args[0]));
      ArgsEndAt(toks, i + 1, args[1..]);
    }
  }

  lemma ScanCall(toks: seq<Token>, i: nat, name: string, args: seq<string>, d: nat)
    requires At(toks, i, PrimToks(CallOf(name, args)))
    ensures i + |PrimToks(CallOf(name, args))| <= |toks|
    ensures ScanFrom(toks, i, d, true) == ScanFrom(toks, i + |PrimToks(CallOf(name, args))|, d, false)
  {
    hide At, ArgsEnd;
    AtInside(toks, i, PrimToks(CallOf(name, args)));
    assert PrimToks(CallOf(name, args)) == [Func(name)] + ([LeftRound] + (ArgToks(args) + [RightRound]));
    AtSplit(toks, i, [Func(name)], [LeftRound] + (ArgToks(args) + [RightRound]));
    AtSplit(toks, i + 1, [LeftRound], ArgToks(args) + [RightRound]);
    AtHead(toks, i, Func(name));
    AtHead(toks, i + 1, LeftRound);
    ArgsEndAt(toks, i + 2, args);
  }

  lemma AtInside(toks: seq<Token>, i: nat, s: seq<Token>)
    requires At(toks, i, s)
    ensures i + |s| <= |toks|
  {
  }

  lemma {:induction false} ScanPrim(toks: seq<Token>, i: nat, p: Prim, d: nat)
    requires At(toks, i, PrimToks(p)) && d > 0
    ensures ScanFrom(toks, i, d, true) == ScanFrom(toks, i + |PrimToks(p)|, d, false)
    decreases p, 0
  {
    hide At, OrToks, CallEnd, ArgToks;
    match p {
      case CallOf(name, args) =>
        ScanCall(toks, i, name, args, d);
      case Group(e) =>
        assert PrimToks(p) == [LeftRound] + (OrToks(e) + [RightRound]);
        AtSplit(toks, i, [LeftRound], OrToks(e) + [RightRound]);
        AtSplit(toks, i + 1, OrToks(e), [RightRound]);
        AtHead(toks, i, LeftRound);
        AtHead(toks, i + 1 + |OrToks(e)|, RightRound);
        ScanOr(toks, i + 1, e, d + 1);
    }
  }

  lemma ScanOp(toks: seq<Token>, i: nat, d: nat)
    requires i < |toks| && toks[i] in {And, Or}
    ensures ScanFrom(toks, i, d, false) == ScanFrom(toks, i + 1, d, true)
  {
  }

  lemma {:induction false} ScanAnd(toks: seq<Token>, i: nat, a: AndExpr, d: nat)
    requires At(toks, i, AndToks(a)) && d > 0
    ensures i + |AndToks(a)| <= |toks|
    ensures ScanFrom(toks, i, d, true) == ScanFrom(toks, i + |AndToks(a)|, d, false)
    decreases a, 1
  {
    hide PrimToks, ScanFrom, At;
    AtInside(toks, i, AndToks(a));
    match a {
      case One(p) =>
        ScanPrim(toks, i, p, d);
      case AndThen(l, p) =>
        assert AndToks(a) == AndToks(l) + ([And] + PrimToks(p));
        AtSplit(toks, i, AndToks(l), [And] + PrimToks(p));
        var j := i + |AndToks(l)|;
        AtSplit(toks, j, [And], PrimToks(p));
        AtHead(toks, j, And);
        AtInside(toks, j + 1, PrimToks(p));
        ScanAnd(toks, i, l, d);
        ScanOp(toks, j, d);
        ScanPrim(toks, j + 1, p, d);
    }
  }

  lemma {:induction false} ScanOr(toks: seq<Token>, i: nat, e: OrExpr, d: nat)
    requires At(toks, i, OrToks(e)) && d > 0
    ensures i + |OrToks(e)| <= |toks|
    ensures ScanFrom(toks, i, d, true) == ScanFrom(toks, i + |OrToks(e)|, d, false)
    decreases e, 2
  {
    hide AndToks, ScanFrom, At;
    AtInside(toks, i, OrToks(e));
    match e {
      case Single(a) =>
        ScanAnd(toks, i, a, d);
      case OrElse(l, a) =>
        assert OrToks(e) == OrToks(l) + ([Or] + AndToks(a));
        AtSplit(toks, i, OrToks(l), [Or] + AndToks(a));
        var j := i + |OrToks(l)|;
        AtSplit(toks, j, [Or], AndToks(a));
        AtHead(toks, j, Or);
        AtInside(toks, j + 1, AndToks(a));
        ScanOr(toks, i, l, d);
        ScanOp(toks, j, d);
        ScanAnd(toks, j + 1, a, d);
    }
  }

  lemma GrammarScans(e: OrExpr, rest: seq<Token>)
    ensures Scans(FilterToks(e) + rest)
  {
    hide At, OrToks;
    var toks := FilterToks(e) + rest;
    AtStart(FilterToks(e), rest);
    assert FilterToks(e) == [LeftRound] + (OrToks(e) + [RightRound]);
    AtSplit(toks, 0, [LeftRound], OrToks(e) + [RightRound]);
    AtSplit(toks, 1, OrToks(e), [RightRound]);
    AtHead(toks, 0, LeftRound);
    AtHead(toks, 1 + |OrToks(e)|, RightRound);
    ScanOr(toks, 1, e, 1);
  }

  // ---------- Whatever scans is a filter of the grammar ----------

  lemma AtOne(toks: seq<Token>, i: nat)
    requires i < |toks|
    ensures At(toks, i, [toks[i]])
  {
  }

  lemma {:induction false} DeriveArgs(toks: seq<Token>, i: nat) returns (args: seq<string>)
    requires i <= |toks| && ArgsEnd(toks, i).Some?
    ensures At(toks, i, ArgToks(args) + [RightRound]) && ArgsEnd(toks, i).value == i + |ArgToks(args)| + 1
    decreases |toks| - i
  {
    hide At;
    AtOne(toks, i);
    if toks[i] == RightRound {
      args := [];
      assert ArgToks(args) + [RightRound] == [RightRound];
    } else {
      var v := toks[i].val;
      var rest := DeriveArgs(toks, i + 1);
      args := [v] + rest;
      assert args[1..] == rest;
      AtSplit(toks, i, [Arg(v)], ArgToks(rest) + [RightRound]);
      assert [Arg(v)] + (ArgToks(rest) + [RightRound]) == ArgToks(args) + [RightRound];
    }
  }

  lemma {:induction false} DerivePrim(toks: seq<Token>, i: nat, d: nat) returns (p: Prim)
    requires i <= |toks| && d > 0 && ScanFrom(toks, i, d, true)
    ensures At(toks, i, PrimToks(p)) && i + |PrimToks(p)| <= |toks| && ScanFrom(toks, i + |PrimToks(p)|, d, false)
    decreases |toks| - i, 0
  {
    hide At, OrToks;
    AtOne(toks, i);
    if toks[i].Func? {
      var name := toks[i].name;
      AtOne(toks, i + 1);
      var args := DeriveArgs(toks, i + 2);
      p := CallOf(name, args);
      AtSplit(toks, i + 1, [LeftRound], ArgToks(args) + [RightRound]);
      AtSplit(toks, i, [Func(name)], [LeftRound] + (ArgToks(args) + [RightRound]));
      assert [Func(name)] + ([LeftRound] + (ArgToks(args) + [RightRound])) == PrimToks(p);
    } else {
      var e := DeriveOr(toks, i + 1, d + 1);
      p := Group(e);
      var j := i + 1 + |OrToks(e)|;
      AtOne(toks, j);
      AtSplit(toks, i + 1, OrToks(e), [RightRound]);
      AtSplit(toks, i, [LeftRound], OrToks(e) + [RightRound]);
      assert [LeftRound] + (OrToks(e) + [RightRound]) == PrimToks(p);
    }
    AtInside(toks, i, PrimToks(p));
  }

  /** An expression up to its closing bracket. */
  lemma {:induction false} DeriveOr(toks: seq<Token>, i: nat, d: nat) returns (e: OrExpr)
    requires i <= |toks| && d > 0 && ScanFrom(toks, i, d, true)
    ensures At(toks, i, OrToks(e)) && i + |OrToks(e)| < |toks| && toks[i + |OrToks(e)|] == RightRound
    ensures ScanFrom(toks, i + |OrToks(e)|, d, false)
    decreases |toks| - i, 1
  {
    hide At, PrimToks;
    var p := DerivePrim(toks, i, d);
    e := DeriveRest(toks, i, Single(One(p)), d);
  }

  /** `e` followed by one more conjunct. */
  function AndAlso(e: OrExpr, p: Prim): OrExpr {
    match e
    case Single(a) => Single(AndThen(a, p))
    case OrElse(l, a) => OrElse(l, AndThen(a, p))
  }

  lemma AndAlsoToks(e: OrExpr, p: Prim)
    ensures OrToks(AndAlso(e, p)) == OrToks(e) + ([And] + PrimToks(p))
  {
    match e
    case Single(a) =>
      assert OrToks(AndAlso(e, p)) == AndToks(a) + ([And] + PrimToks(p));
    case OrElse(l, a) =>
      assert OrToks(AndAlso(e, p)) == OrToks(l) + [Or] + (AndToks(a) + [And] + PrimToks(p));
      assert OrToks(e) + ([And] + PrimToks(p)) == OrToks(l) + [Or] + (AndToks(a) + [And] + PrimToks(p));
  }

  lemma {:induction false} DeriveRest(toks: seq<Token>, i: nat, e: OrExpr, d: nat) returns (r: OrExpr)
    requires d > 0 && At(toks, i, OrToks(e)) && i + |OrToks(e)| <= |toks| && ScanFrom(toks, i + |OrToks(e)|, d, false)
    ensures At(toks, i, OrToks(r)) && i + |OrToks(r)| < |toks| && toks[i + |OrToks(r)|] == RightRound
    ensures ScanFrom(toks, i + |OrToks(r)|, d, false)
    decreases |toks| - i - |OrToks(e)|, 0
  {
    hide At, PrimToks;
    var j := i + |OrToks(e)|;
    r := e;
    if toks[j] != RightRound {
      AtOne(toks, j);
      var p := DerivePrim(toks, j + 1, d);
      AtSplit(toks, j, [toks[j]], PrimToks(p));
      AtSplit(toks, i, OrToks(e), [toks[j]] + PrimToks(p));
      var e' := if toks[j] == And then AndAlso(e, p) else OrElse(e, One(p));
      AndAlsoToks(e, p);
      assert OrToks(e) + ([Or] + PrimToks(p)) == OrToks(OrElse(e, One(p)));
      r := DeriveRest(toks, i, e', d);
    }
  }

  /** `e` derives the first tokens of `toks`. */
  ghost predicate Derives(e: OrExpr, toks: seq<Token>) {
    |FilterToks(e)| <= |toks| && toks[..|FilterToks(e)|] == FilterToks(e)
  }

  /** The scan accepts exactly what begins with a filter of the grammar. */
  lemma ScansIff(toks: seq<Token>)
    ensures Scans(toks) <==> exists e :: Derives(e, toks)
  {
    hide At, OrToks, ScanFrom;
    if Scans(toks) {
      var e := DeriveOr(toks, 1, 1);
      AtOne(toks, 0);
      AtOne(toks, 1 + |OrToks(e)|);
      AtSplit(toks, 1, OrToks(e), [RightRound]);
      AtSplit(toks, 0, [LeftRound], OrToks(e) + [RightRound]);
      assert [LeftRound] + (OrToks(e) + [RightRound]) == FilterToks(e);
      AtPrefix(toks, FilterToks(e));
      assert Derives(e, toks);
    }
    if e :| Derives(e, toks) {
      GrammarScans(e, toks[|FilterToks(e)|..]);
      assert toks == FilterToks(e) + toks[|FilterToks(e)|..];
    }
  }

  lemma AtPrefix(toks: seq<Token>, s: seq<Token>)
    requires At(toks, 0, s)
    ensures |s| <= |toks| && toks[..|s|] == s
  {
  }

  /**
   The parser returns the tree of a derivation of exactly the tokens that it
   consumed if and only if the scan accepts.
   */
  lemma ParsesGrammarIff(toks: seq<Token>)
    ensures Scans(toks) <==>
      exists e :: Derives(e, toks) && ParseFilter(toks) == Parsed(Tree(OrTree(e)), |FilterToks(e)|)
  {
    hide ParseFilter, FilterToks, OrTree, Scans;
    ScansIff(toks);
    if e :| Derives(e, toks) {
      FilterParses(e, toks[|FilterToks(e)|..]);
      assert toks == FilterToks(e) + toks[|FilterToks(e)|..];
    }
  }

  // ---------- How the parser ends, on every token sequence ----------

  /** The operators waiting above an open bracket: at most one of each kind, the weaker one below. */
  datatype Level = Level(or: bool, and: bool)

  function LevelOps(l: Level): seq<StackOp> {
    [Bracket] + (if l.or then [Operator(OrOp)] else []) + (if l.and then [Operator(AndOp)] else [])
  }

  function Flatten(levels: seq<Level>): seq<StackOp> {
    if levels == [] then [] else Flatten(levels[..|levels| - 1]) + LevelOps(levels[|levels| - 1])
  }

  function Waiting(l: Level): nat {
    (if l.or then 1 else 0) + if l.and then 1 else 0
  }

  datatype Ending = Accepts | Empty | Rejects | Dies

  function EndingOf(r: Result): Ending {
    match r
    case Tree(_) => Accepts
    case NoFilter => Empty
    case SyntaxError => Rejects
    case Fatal => Dies
  }

  /** `k` waiting operators meet `n` operands. */
  predicate Starves(k: nat, n: nat) {
    0 < k && n <= k
  }

  /** From `i` on, with `n` operands on the stack, the innermost open bracket `l` and the others `outer`. */
  function EndFrom(toks: seq<Token>, i: nat, outer: seq<Level>, l: Level, n: nat): (Ending, nat)
    requires i <= |toks|
    decreases |toks| - i
  {
    if i == |toks| then (Dies, i)
    else match toks[i]
      case Func(_) =>
        (match CallEnd(toks, i + 1)
         case None => (Rejects, CallFailsAt(toks, i + 1))
         case Some(next) => EndFrom(toks, next, outer, l, n + 1))
      case LeftRound => EndFrom(toks, i + 1, outer + [l], Level(false, false), n)
      case RightRound =>
        if Starves(Waiting(l), n) then (Dies, i + 1)
        else
          var m := n - Waiting(l);
          if outer == [] then (if m == 0 then Empty else if m == 1 then Accepts else Rejects, i + 1)
          else EndFrom(toks, i + 1, outer[..|outer| - 1], outer[|outer| - 1], m)
      case And =>
        var k := if l.and then 1 else 0;
        if Starves(k, n) then (Dies, i + 1) else EndFrom(toks, i + 1, outer, l.(and := true), n - k)
      case Or =>
        if Starves(Waiting(l), n) then (Dies, i + 1)
        else EndFrom(toks, i + 1, outer, Level(true, false), n - Waiting(l))
      case _ => EndFrom(toks, i + 1, outer, l, n)
  }

  /** Where reading a bad call stops. */
  function CallFailsAt(toks: seq<Token>, i: nat): nat
    requires i <= |toks|
  {
    if i == |toks| then i else if toks[i] != LeftRound then i + 1 else ArgsFailAt(toks, i + 1)
  }

  function ArgsFailAt(toks: seq<Token>, i: nat): nat
    requires i <= |toks|
    decreases |toks| - i
  {
    if i == |toks| then i else if toks[i].Arg? then ArgsFailAt(toks, i + 1) else i + 1
  }

  /** How the parser ends, and how many tokens it has read by then. */
  function EndingScan(toks: seq<Token>): (Ending, nat) {
    if toks == [] then (Rejects, 0)
    else if toks[0] != LeftRound then (Rejects, 1)
    else EndFrom(toks, 1, [], Level(false, false), 0)
  }

  lemma {:induction false} ArgsAgree(toks: seq<Token>, i: nat, f: Function)
    requires i <= |toks|
    ensures ArgsEnd(toks, i) == if ParseArgs(toks, i, f).Call? then Some(ParseArgs(toks, i, f).next) else None
    ensures ParseArgs(toks, i, f).BadCall? ==> ParseArgs(toks, i, f).at == ArgsFailAt(toks, i)
    decreases |toks| - i
  {
    if i < |toks| && toks[i].Arg? { ArgsAgree(toks, i + 1, AddArg(f, toks[i].val)); }
  }

  lemma CallAgrees(toks: seq<Token>, i: nat, name: string)
    requires i <= |toks|
    ensures CallEnd(toks, i) == if ParseCall(toks, i, name).Call? then Some(ParseCall(toks, i, name).next) else None
    ensures ParseCall(toks, i, name).BadCall? ==> ParseCall(toks, i, name).at == CallFailsAt(toks, i)
  {
    if i < |toks| && toks[i] == LeftRound { ArgsAgree(toks, i + 1, Function(name, "", [])); }
  }

  /** Evaluating an operator on top of the stack. */
  lemma ReduceOne(ops: seq<StackOp>, op: BoolOp, vals: seq<FilterTree>, prec: nat) returns (vals': seq<FilterTree>)
    requires 0 < prec <= Prec(Operator(op))
    ensures |vals| < 2 ==> Reduce(State(ops + [Operator(op)], vals), prec) == None
    ensures |vals| >= 2 ==> |vals'| == |vals| - 1
    ensures |vals| >= 2 ==> Reduce(State(ops + [Operator(op)], vals), prec) == Reduce(State(ops, vals'), prec)
  {
    vals' := vals;
    if |vals| >= 2 {
      var n := |vals|;
      vals' := vals[..n - 2] + [Binary(op, vals[n - 2], vals[n - 1])];
      ReduceTop(ops, op, vals[..n - 2], vals[n - 2], vals[n - 1], prec);
      assert vals[..n - 2] + [vals[n - 2], vals[n - 1]] == vals;
    }
  }

  /** The operands that evaluating leaves. */
  ghost function Left(base: seq<StackOp>, l: Level, vals: seq<FilterTree>, prec: nat): seq<FilterTree>
    requires prec > 0
  {
    var r := Reduce(State(base + LevelOps(l), vals), prec);
    if r.Some? then r.value.vals else []
  }

  /** A closing bracket or `||` evaluates all waiting operators of the level. */
  lemma ReduceLevel(base: seq<StackOp>, l: Level, vals: seq<FilterTree>)
    ensures Starves(Waiting(l), |vals|) ==> Reduce(State(base + LevelOps(l), vals), 1) == None
    ensures !Starves(Waiting(l), |vals|) ==> |Left(base, l, vals, 1)| == |vals| - Waiting(l)
    ensures !Starves(Waiting(l), |vals|) ==>
      Reduce(State(base + LevelOps(l), vals), 1) == Some(State(base + [Bracket], Left(base, l, vals, 1)))
  {
    hide Reduce;
    var low := base + [Bracket] + if l.or then [Operator(OrOp)] else [];
    var vals' := vals;
    if l.and {
      assert base + LevelOps(l) == low + [Operator(AndOp)];
      vals' := ReduceOne(low, AndOp, vals, 1);
    } else {
      assert base + LevelOps(l) == low;
    }
    if l.or && !(l.and && |vals| < 2) {
      assert low == base + [Bracket] + [Operator(OrOp)];
      vals' := ReduceOne(base + [Bracket], OrOp, vals', 1);
    } else {
      assert !l.or ==> low == base + [Bracket];
    }
    ReduceStop(base + [Bracket], vals', 1);
  }

  /** `&&` evaluates a waiting `&&` only. */
  lemma ReduceConjunct(base: seq<StackOp>, l: Level, vals: seq<FilterTree>)
    ensures Starves(if l.and then 1 else 0, |vals|) ==> Reduce(State(base + LevelOps(l), vals), 2) == None
    ensures !Starves(if l.and then 1 else 0, |vals|) ==> |Left(base, l, vals, 2)| == |vals| - (if l.and then 1 else 0)
    ensures !Starves(if l.and then 1 else 0, |vals|) ==> Reduce(State(base + LevelOps(l), vals), 2) == Some(State(base + LevelOps(l.(and := false)), Left(base, l, vals, 2)))
  {
    hide Reduce;
    var low := base + LevelOps(l.(and := false));
    var vals' := vals;
    if l.and {
      assert base + LevelOps(l) == low + [Operator(AndOp)];
      vals' := ReduceOne(low, AndOp, vals, 2);
    }
    assert low[|low| - 1] == if l.or then Operator(OrOp) else Bracket;
    ReduceStop(low, vals', 2);
  }

  lemma StepStarved(toks: seq<Token>, i: nat, s: State)
    requires i < |toks|
    ensures toks[i] in {RightRound, Or} && Reduce(s, 1) == None ==> Parse(toks, i, s) == Parsed(Fatal, i + 1)
    ensures toks[i] == And && Reduce(s, 2) == None ==> Parse(toks, i, s) == Parsed(Fatal, i + 1)
  {
    hide Reduce;
  }

  lemma StepFunc(toks: seq<Token>, i: nat, s: State)
    requires i < |toks| && toks[i].Func?
    ensures var c := ParseCall(toks, i + 1, toks[i].name);
      Parse(toks, i, s) == if c.BadCall? then Parsed(SyntaxError, c.at) else Parse(toks, c.next, s.(vals := s.vals + [Leaf(c.f)]))
  {
    hide ParseCall;
  }

  lemma StepSkip(toks: seq<Token>, i: nat, s: State)
    requires i < |toks| && (toks[i].Arg? || toks[i].Other?)
    ensures Parse(toks, i, s) == Parse(toks, i + 1, s)
  {
  }

  lemma FlattenSnoc(outer: seq<Level>, l: Level)
    ensures Flatten(outer + [l]) == Flatten(outer) + LevelOps(l)
    ensures outer != [] ==> Flatten(outer) == Flatten(outer[..|outer| - 1]) + LevelOps(outer[|outer| - 1])
    ensures outer != [] <==> Flatten(outer) != []
  {
    assert (outer + [l])[..|outer|] == outer;
  }

  ghost function Ends(r: Parsed): (Ending, nat) {
    (EndingOf(r.result), r.next)
  }

  ghost function Stacks(outer: seq<Level>, l: Level, vals: seq<FilterTree>): State {
    State(Flatten(outer) + LevelOps(l), vals)
  }

  // One lemma for each token that evaluates.

  lemma EndClose(toks: seq<Token>, i: nat, outer: seq<Level>, l: Level, vals: seq<FilterTree>)
    requires i < |toks| && toks[i] == RightRound
    ensures Starves(Waiting(l), |vals|) ==> Parse(toks, i, Stacks(outer, l, vals)) == Parsed(Fatal, i + 1)
    ensures !Starves(Waiting(l), |vals|) ==> |Left(Flatten(outer), l, vals, 1)| == |vals| - Waiting(l)
    ensures !Starves(Waiting(l), |vals|) && outer == [] ==>
      Parse(toks, i, Stacks(outer, l, vals)) == Parsed(Finish(State([], Left(Flatten(outer), l, vals, 1))), i + 1)
    ensures !Starves(Waiting(l), |vals|) && outer != [] ==>
      Parse(toks, i, Stacks(outer, l, vals)) == Parse(toks, i + 1, Stacks(outer[..|outer| - 1], outer[|outer| - 1], Left(Flatten(outer), l, vals, 1)))
  {
    hide Parse, Reduce, Left, LevelOps, Flatten, Starves, Finish;
    ReduceLevel(Flatten(outer), l, vals);
    FlattenSnoc(outer, l);
    var s := Stacks(outer, l, vals);
    if Starves(Waiting(l), |vals|) {
      StepStarved(toks, i, s);
    } else {
      StepClose(toks, i, s, Flatten(outer), Left(Flatten(outer), l, vals, 1));
    }
  }

  lemma EndOr(toks: seq<Token>, i: nat, outer: seq<Level>, l: Level, vals: seq<FilterTree>)
    requires i < |toks| && toks[i] == Or
    ensures Starves(Waiting(l), |vals|) ==> Parse(toks, i, Stacks(outer, l, vals)) == Parsed(Fatal, i + 1)
    ensures !Starves(Waiting(l), |vals|) ==> |Left(Flatten(outer), l, vals, 1)| == |vals| - Waiting(l)
    ensures !Starves(Waiting(l), |vals|) ==>
      Parse(toks, i, Stacks(outer, l, vals)) == Parse(toks, i + 1, Stacks(outer, Level(true, false), Left(Flatten(outer), l, vals, 1)))
  {
    hide Parse, Reduce, Left, Flatten, Starves;
    ReduceLevel(Flatten(outer), l, vals);
    var s := Stacks(outer, l, vals);
    if Starves(Waiting(l), |vals|) {
      StepStarved(toks, i, s);
    } else {
      StepOp(toks, i, s, State(Flatten(outer) + [Bracket], Left(Flatten(outer), l, vals, 1)), OrOp);
      assert Flatten(outer) + [Bracket] + [Operator(OrOp)] == Flatten(outer) + LevelOps(Level(true, false));
    }
  }

  lemma EndAnd(toks: seq<Token>, i: nat, outer: seq<Level>, l: Level, vals: seq<FilterTree>)
    requires i < |toks| && toks[i] == And
    ensures Starves(if l.and then 1 else 0, |vals|) ==> Parse(toks, i, Stacks(outer, l, vals)) == Parsed(Fatal, i + 1)
    ensures !Starves(if l.and then 1 else 0, |vals|) ==> |Left(Flatten(outer), l, vals, 2)| == |vals| - (if l.and then 1 else 0)
    ensures !Starves(if l.and then 1 else 0, |vals|) ==>
      Parse(toks, i, Stacks(outer, l, vals)) == Parse(toks, i + 1, Stacks(outer, l.(and := true), Left(Flatten(outer), l, vals, 2)))
  {
    hide Parse, Reduce, Left, Flatten, Starves;
    ReduceConjunct(Flatten(outer), l, vals);
    var s := Stacks(outer, l, vals);
    if Starves(if l.and then 1 else 0, |vals|) {
      StepStarved(toks, i, s);
    } else {
      var low := l.(and := false);
      StepOp(toks, i, s, State(Flatten(outer) + LevelOps(low), Left(Flatten(outer), l, vals, 2)), AndOp);
      assert Flatten(outer) + LevelOps(low) + [Operator(AndOp)] == Flatten(outer) + LevelOps(l.(and := true));
    }
  }

  /** The machine with its trees erased. */
  lemma {:induction false} EndFromExact(toks: seq<Token>, i: nat, outer: seq<Level>, l: Level, vals: seq<FilterTree>)
    requires i <= |toks|
    ensures Ends(Parse(toks, i, Stacks(outer, l, vals))) == EndFrom(toks, i, outer, l, |vals|)
    decreases |toks| - i
  {
    hide Parse, Flatten, LevelOps, Waiting, Left, CallEnd, CallFailsAt, Starves, ParseCall;
    if i == |toks| {
      EndAtEnd(toks, outer, l, vals);
    } else {
      match toks[i] {
        case Func(name) =>
          StepFunc(toks, i, Stacks(outer, l, vals));
          CallAgrees(toks, i + 1, name);
          var c := ParseCall(toks, i + 1, name);
          if c.Call? { EndFromExact(toks, c.next, outer, l, vals + [Leaf(c.f)]); }
        case LeftRound =>
          StepOpen(toks, i, Stacks(outer, l, vals));
          EndOpen(outer, l, vals);
          EndFromExact(toks, i + 1, outer + [l], Level(false, false), vals);
        case RightRound =>
          EndClose(toks, i, outer, l, vals);
          var vals' := Left(Flatten(outer), l, vals, 1);
          if !Starves(Waiting(l), |vals|) && outer != [] {
            EndFromExact(toks, i + 1, outer[..|outer| - 1], outer[|outer| - 1], vals');
          }
        case And =>
          EndAnd(toks, i, outer, l, vals);
          var vals' := Left(Flatten(outer), l, vals, 2);
          if !Starves(if l.and then 1 else 0, |vals|) { EndFromExact(toks, i + 1, outer, l.(and := true), vals'); }
        case Or =>
          EndOr(toks, i, outer, l, vals);
          var vals' := Left(Flatten(outer), l, vals, 1);
          if !Starves(Waiting(l), |vals|) { EndFromExact(toks, i + 1, outer, Level(true, false), vals'); }
        case _ =>
          StepSkip(toks, i, Stacks(outer, l, vals));
          EndFromExact(toks, i + 1, outer, l, vals);
      }
    }
  }

  lemma EndAtEnd(toks: seq<Token>, outer: seq<Level>, l: Level, vals: seq<FilterTree>)
    ensures Parse(toks, |toks|, Stacks(outer, l, vals)) == Parsed(Fatal, |toks|)
  {
  }

  lemma EndOpen(outer: seq<Level>, l: Level, vals: seq<FilterTree>)
    ensures Stacks(outer + [l], Level(false, false), vals)
         == Stacks(outer, l, vals).(ops := Stacks(outer, l, vals).ops + [Bracket])
  {
    FlattenSnoc(outer, l);
  }

  /**
   For every token sequence the parser ends as the counting scan says, after as
   many tokens: with a tree, with no filter, with an error, or by killing the
   process.
   */
  lemma EndingExact(toks: seq<Token>)
    ensures Ends(ParseFilter(toks)) == EndingScan(toks)
  {
    hide Parse, EndFrom;
    if toks != [] && toks[0] == LeftRound {
      EndFromExact(toks, 1, [], Level(false, false), []);
      assert Stacks([], Level(false, false), []).ops == [Bracket];
    }
  }

  /** What scans as a filter never kills the process. */
  lemma ScansNeverDies(toks: seq<Token>)
    requires Scans(toks)
    ensures EndingScan(toks).0 == Accepts && ParseFilter(toks).result.Tree?
  {
    hide Scans, ParseFilter, EndingScan, OrTree, FilterToks;
    ParsesGrammarIff(toks);
    EndingExact(toks);
  }
}
