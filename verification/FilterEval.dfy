/**
 Filters at query time: the parsed tree is copied into SubGraphs
 (`filterCopy`, `query/query.go`), leaves are answered from the index lists
 (`processTask`, `worker/task.go`) and operators by merging or intersecting
 what their children leave (`ProcessGraph`).
 */
module FilterEval {
  import opened Bytes
  import opened Codec
  import opened PostingLayers
  import PostingQueries
  import opened UidOrder
  import opened UidLists
  import opened IntersectLists
  import opened FilterParser
  import opened FilterLaws

  /** What the query code sees of a server: the two layers of every index list, and the tokeniser. */
  datatype Env = Env(layers: (string, string) -> (seq<Posting>, seq<Posting>), tokenize: string -> Option<seq<string>>)

  ghost predicate EnvOk(env: Env) {
    forall a, t {:trigger env.layers(a, t)} :: Sorted(env.layers(a, t).0) && Sorted(env.layers(a, t).1)
  }

  ghost function IndexView(env: Env, attr: string, token: string): View {
    ViewOf(env.layers(attr, token).0, env.layers(attr, token).1)
  }

  /** `strings.ToLower`, for the letters that can make a name equal to "allof" */
  function ToLower(s: string): string {
    if s == "" then "" else [if 'A' <= s[0] <= 'Z' then s[0] - 'A' + 'a' else s[0]] + ToLower(s[1..])
  }

  /** `name` is `word`, which is in lower case, in some mixture of upper and lower case. */
  predicate Reads(name: string, word: string) {
    |name| == |word| && forall i :: 0 <= i < |name| ==>
      name[i] == word[i] || ('A' <= name[i] <= 'Z' && name[i] as int - 'A' as int == word[i] as int - 'a' as int)
  }

  lemma {:induction false} ToLowerReads(name: string, word: string)
    requires forall i :: 0 <= i < |word| ==> 'a' <= word[i] <= 'z'
    ensures ToLower(name) == word <==> Reads(name, word)
  {
    if name != "" && word != "" {
      forall i | 0 <= i < |word[1..]| ensures 'a' <= word[1..][i] <= 'z' { assert word[1..][i] == word[i + 1]; }
      ToLowerReads(name[1..], word[1..]);
      ReadsCons(name, word);
      assert ToLower(name)[0] == (if 'A' <= name[0] <= 'Z' then name[0] - 'A' + 'a' else name[0]);
      assert ToLower(name)[1..] == ToLower(name[1..]);
      assert word == [word[0]] + word[1..];
    }
  }

  lemma ReadsCons(name: string, word: string)
    requires name != "" && word != ""
    ensures Reads(name, word) <==>
      && (name[0] == word[0] || ('A' <= name[0] <= 'Z' && name[0] as int - 'A' as int == word[0] as int - 'a' as int))
      && Reads(name[1..], word[1..])
  {
    if Reads(name[1..], word[1..]) {
      forall i | 1 <= i < |name| && i < |word|
        ensures name[i] == word[i] || ('A' <= name[i] <= 'Z' && name[i] as int - 'A' as int == word[i] as int - 'a' as int)
      {
        assert name[1..][i - 1] == name[i] && word[1..][i - 1] == word[i];
      }
    }
  }

  predicate AllOf(f: Function) {
    Reads(f.name, "allof")
  }

  /** `getTokens`: a function takes exactly one argument besides the attribute. */
  function TokensOf(env: Env, f: Function): Option<seq<string>> {
    if |f.args| != 1 then None else env.tokenize(f.args[0])
  }

  // ---------- Meaning of a filter ----------

  /** Whether a leaf accepts `u`. Without an attribute there is nothing to look up, and everything passes. */
  ghost predicate LeafAccepts(env: Env, f: Function, u: uint64) {
    f.attr == "" ||
    (TokensOf(env, f).Some? &&
     var tokens := TokensOf(env, f).value;
     if AllOf(f) then tokens != [] && forall i :: 0 <= i < |tokens| ==> u in IndexView(env, f.attr, tokens[i])
     else exists i :: 0 <= i < |tokens| && u in IndexView(env, f.attr, tokens[i]))
  }

  /** The infix formula, read off the grammar. */
  ghost predicate SatPrim(env: Env, p: Prim, u: uint64) {
    match p
    case CallOf(name, args) => LeafAccepts(env, FunctionOf(name, args), u)
    case Group(e) => SatOr(env, e, u)
  }

  ghost predicate SatAnd(env: Env, a: AndExpr, u: uint64) {
    match a
    case One(p) => SatPrim(env, p, u)
    case AndThen(l, p) => SatAnd(env, l, u) && SatPrim(env, p, u)
  }

  ghost predicate SatOr(env: Env, e: OrExpr, u: uint64) {
    match e
    case Single(a) => SatAnd(env, a, u)
    case OrElse(l, a) => SatOr(env, l, u) || SatAnd(env, a, u)
  }

  ghost predicate SatTree(env: Env, t: FilterTree, u: uint64) {
    match t
    case Leaf(f) => LeafAccepts(env, f, u)
    case Binary(AndOp, l, r) => SatTree(env, l, u) && SatTree(env, r, u)
    case Binary(OrOp, l, r) => SatTree(env, l, u) || SatTree(env, r, u)
  }

  /** A call, on the index lists of its attribute: "allof" wants all of them and at least one, "anyof" wants some. */
  lemma CallMeaning(env: Env, name: string, attr: string, arg: string, u: uint64)
    requires attr != "" && env.tokenize(arg).Some?
    ensures var tokens := env.tokenize(arg).value;
      && (Reads(name, "allof") ==>
            (SatPrim(env, CallOf(name, [attr, arg]), u) <==> tokens != [] && forall t :: t in tokens ==> u in IndexView(env, attr, t)))
      && (Reads(name, "anyof") ==>
            (SatPrim(env, CallOf(name, [attr, arg]), u) <==> exists t :: t in tokens && u in IndexView(env, attr, t)))
  {
    hide IndexView, Reads, LeafAccepts;
    assert FunctionOf(name, [attr, arg]) == Function(name, attr, [arg]) by { assert [attr, arg][1..] == [arg]; }
    LeafMeaning(env, Function(name, attr, [arg]), env.tokenize(arg).value, u);
  }

  /** Parsing preserves the meaning. */
  lemma {:induction false} SatPrimTree(env: Env, p: Prim, u: uint64)
    ensures SatTree(env, PrimTree(p), u) <==> SatPrim(env, p, u)
  {
    if p.Group? { SatOrTree(env, p.e, u); }
  }

  lemma {:induction false} SatAndTree(env: Env, a: AndExpr, u: uint64)
    ensures SatTree(env, AndTree(a), u) <==> SatAnd(env, a, u)
  {
    match a {
      case One(p) => SatPrimTree(env, p, u);
      case AndThen(l, p) => SatAndTree(env, l, u); SatPrimTree(env, p, u);
    }
  }

  lemma {:induction false} SatOrTree(env: Env, e: OrExpr, u: uint64)
    ensures SatTree(env, OrTree(e), u) <==> SatOr(env, e, u)
  {
    match e {
      case Single(a) => SatAndTree(env, a, u);
      case OrElse(l, a) => SatOrTree(env, l, u); SatAndTree(env, a, u);
    }
  }

  lemma LeafMeaning(env: Env, f: Function, tokens: seq<string>, u: uint64)
    requires f.attr != "" && |f.args| == 1 && env.tokenize(f.args[0]) == Some(tokens)
    ensures Reads(f.name, "allof") ==>
      (LeafAccepts(env, f, u) <==> tokens != [] && forall t :: t in tokens ==> u in IndexView(env, f.attr, t))
    ensures Reads(f.name, "anyof") ==> (LeafAccepts(env, f, u) <==> exists t :: t in tokens && u in IndexView(env, f.attr, t))
  {
    hide IndexView, Reads;
    AnyNotAll(f.name);
    assert TokensOf(env, f) == Some(tokens);
    if Reads(f.name, "anyof") {
      assert !AllOf(f);
      if t :| t in tokens && u in IndexView(env, f.attr, t) {
        var i :| 0 <= i < |tokens| && tokens[i] == t;
        assert u in IndexView(env, f.attr, tokens[i]);
      }
    }
  }

  lemma AnyNotAll(name: string)
    ensures !(Reads(name, "anyof") && Reads(name, "allof"))
  {
    if Reads(name, "anyof") { assert name[1] == 'n' || name[1] == 'N'; }
  }

  // ---------- SubGraphs ----------

  /** The filter part of a SubGraph; `op` is `None` for the empty `FilterOp`. */
  datatype SubGraph = SubGraph(attr: string, srcFunc: seq<string>, op: Option<BoolOp>, filters: seq<SubGraph>)

  /** `filterCopy` into a fresh SubGraph */
  function FilterCopy(t: FilterTree): SubGraph {
    match t
    case Leaf(f) => SubGraph(f.attr, [f.name] + f.args, None, [])
    case Binary(op, l, r) => SubGraph("", [], Some(op), [FilterCopy(l), FilterCopy(r)])
  }

  function FuncOf(sg: SubGraph): Function {
    if sg.srcFunc == [] then Function("", sg.attr, []) else Function(sg.srcFunc[0], sg.attr, sg.srcFunc[1..])
  }

  /** What the processing of a filter SubGraph accepts. */
  ghost predicate Sat(env: Env, sg: SubGraph, u: uint64) {
    && LeafAccepts(env, FuncOf(sg), u)
    && (sg.filters == [] ||
        if sg.op == Some(OrOp) then exists i :: 0 <= i < |sg.filters| && Sat(env, sg.filters[i], u)
        else forall i :: 0 <= i < |sg.filters| ==> Sat(env, sg.filters[i], u))
  }

  /** Copying preserves the meaning. */
  lemma {:induction false} SatCopy(env: Env, t: FilterTree, u: uint64)
    ensures Sat(env, FilterCopy(t), u) <==> SatTree(env, t, u)
  {
    match t {
      case Leaf(f) =>
        assert FuncOf(FilterCopy(t)) == f;
      case Binary(op, l, r) =>
        SatCopy(env, l, u);
        SatCopy(env, r, u);
        var sg := FilterCopy(t);
        assert sg.filters[0] == FilterCopy(l) && sg.filters[1] == FilterCopy(r);
    }
  }

  /** An answer, an error returned to the caller, or the end of the process. */
  datatype Reply<T> = Got(value: T) | Erred | Died

  /** A leaf that returns an error: too many arguments, or one that cannot be tokenised. */
  predicate LeafErrs(env: Env, f: Function) {
    f.attr != "" && f.args != [] && TokensOf(env, f).None?
  }

  /** A leaf that kills the process: no argument, which trips an assertion, or an index list that overruns `src`. */
  ghost predicate LeafDies(env: Env, f: Function, src: seq<uint64>) {
    f.attr != "" && (f.args == [] || (TokensOf(env, f).Some? && Overrun(env, f.attr, TokensOf(env, f).value, src)))
  }

  ghost predicate Overrun(env: Env, attr: string, tokens: seq<string>, src: seq<uint64>) {
    exists i :: 0 <= i < |tokens| && PostingQueries.Overruns(IndexView(env, attr, tokens[i]), 0, Some(src))
  }

  ghost predicate Errs(env: Env, sg: SubGraph) {
    LeafErrs(env, FuncOf(sg)) || exists i :: 0 <= i < |sg.filters| && Errs(env, sg.filters[i])
  }

  ghost predicate Dies(env: Env, sg: SubGraph, src: seq<uint64>) {
    LeafDies(env, FuncOf(sg), src) || exists i :: 0 <= i < |sg.filters| && Dies(env, sg.filters[i], src)
  }

  ghost predicate IsFilter(sg: SubGraph) {
    && (sg.attr != "" ==> sg.filters == [] && sg.srcFunc != [])
    && forall i :: 0 <= i < |sg.filters| ==> IsFilter(sg.filters[i])
  }

  lemma {:induction false} CopyIsFilter(t: FilterTree)
    ensures IsFilter(FilterCopy(t))
  {
    if t.Binary? {
      CopyIsFilter(t.left);
      CopyIsFilter(t.right);
    }
  }

  ghost predicate GoodSource(src: seq<uint64>) {
    src != [] && Increasing(src) && MAX_UINT64 !in src
  }

  /** `r` is exactly the sublist of `src` that satisfies `p`. */
  ghost predicate Selects(src: seq<uint64>, r: seq<uint64>, p: uint64 -> bool) {
    Increasing(r) && forall u: uint64 :: u in r <==> u in src && p(u)
  }

  // ---------- Leaves ----------

  /** `processTask` for a function over the index, and the merge or intersection of its rows. */
  method ProcessLeaf(env: Env, sg: SubGraph, src: seq<uint64>) returns (r: Reply<seq<uint64>>)
    requires EnvOk(env) && GoodSource(src) && sg.attr != "" && sg.srcFunc != []
    ensures r.Died? <==> LeafDies(env, FuncOf(sg), src)
    ensures r.Erred? <==> LeafErrs(env, FuncOf(sg))
    ensures r.Got? ==> Selects(src, r.value, (u: uint64) => LeafAccepts(env, FuncOf(sg), u))
    ensures |sg.srcFunc| == 1 ==> r.Died?
    ensures |sg.srcFunc| > 2 || (|sg.srcFunc| == 2 && env.tokenize(sg.srcFunc[1]).None?) ==> r.Erred?
    ensures r.Got? && Reads(sg.srcFunc[0], "allof") ==> forall u: uint64 :: u in r.value <==>
              var tokens := env.tokenize(sg.srcFunc[1]).value;
              u in src && tokens != [] && forall t :: t in tokens ==> u in IndexView(env, sg.attr, t)
    ensures r.Got? && Reads(sg.srcFunc[0], "anyof") ==> forall u: uint64 :: u in r.value <==>
              u in src && exists t :: t in env.tokenize(sg.srcFunc[1]).value && u in IndexView(env, sg.attr, t)
  {
    hide PostingQueries.Overruns, IndexView, InAll, InSome, AllOrdered, Shortest, ToLower, Reads, LeafAccepts;
    if |sg.srcFunc| <= 1 {
      return Died;
    }
    if |sg.srcFunc| != 2 {
      return Erred;
    }
    var f := FuncOf(sg);
    var tokens := env.tokenize(sg.srcFunc[1]);
    if tokens.None? {
      return Erred;
    }
    var matrix := UidMatrix(env, sg.attr, tokens.value, src);
    if matrix.None? {
      return Died;
    }
    var rows := matrix.value;
    RowsSorted(env, f.attr, tokens.value, src, rows);
    var dest;
    ToLowerReads(sg.srcFunc[0], "allof");
    if ToLower(sg.srcFunc[0]) == "allof" {
      dest := IntersectSorted(rows);
    } else {
      dest := MergeSorted(rows);
    }
    forall u: uint64 ensures u in dest <==> u in src && LeafAccepts(env, f, u) {
      LeafMeets(env, f, src, rows, u);
    }
    forall u: uint64 { LeafMeaning(env, f, tokens.value, u); }
    r := Got(dest);
  }

  /** A row is what its index list has in common with `src`. */
  ghost predicate RowOk(row: seq<uint64>, src: seq<uint64>, view: View) {
    Increasing(row) && forall u: uint64 :: u in row <==> u in src && u in view
  }

  ghost predicate RowsOk(env: Env, attr: string, tokens: seq<string>, src: seq<uint64>, rows: seq<seq<uint64>>) {
    |rows| == |tokens| && forall i :: 0 <= i < |rows| ==> RowOk(rows[i], src, IndexView(env, attr, tokens[i]))
  }

  lemma RowsSorted(env: Env, attr: string, tokens: seq<string>, src: seq<uint64>, rows: seq<seq<uint64>>)
    requires RowsOk(env, attr, tokens, src, rows)
    ensures AllOrdered(rows)
    ensures forall m: nat :: Shortest(rows, m) ==> Increasing(rows[m])
  {
    hide IndexView;
    forall i | 0 <= i < |rows| ensures Increasing(rows[i]) {
      assert RowOk(rows[i], src, IndexView(env, attr, tokens[i]));
    }
  }

  lemma RowsMeet(env: Env, attr: string, tokens: seq<string>, src: seq<uint64>, rows: seq<seq<uint64>>, u: uint64)
    requires RowsOk(env, attr, tokens, src, rows)
    ensures InSome(rows, u) <==> u in src && exists i :: 0 <= i < |tokens| && u in IndexView(env, attr, tokens[i])
    ensures rows != [] ==>
      (InAll(rows, u) <==> u in src && forall i :: 0 <= i < |tokens| ==> u in IndexView(env, attr, tokens[i]))
  {
    hide IndexView;
    if InSome(rows, u) {
      var i :| 0 <= i < |rows| && u in rows[i];
      assert RowOk(rows[i], src, IndexView(env, attr, tokens[i]));
    }
    if u in src {
      if i :| 0 <= i < |tokens| && u in IndexView(env, attr, tokens[i]) {
        assert RowOk(rows[i], src, IndexView(env, attr, tokens[i]));
      }
    }
    if rows != [] {
      assert RowOk(rows[0], src, IndexView(env, attr, tokens[0]));
      assert forall i :: 0 <= i < |tokens| ==> RowOk(rows[i], src, IndexView(env, attr, tokens[i]));
    }
  }

  lemma LeafMeets(env: Env, f: Function, src: seq<uint64>, rows: seq<seq<uint64>>, u: uint64)
    requires f.attr != "" && TokensOf(env, f).Some? && RowsOk(env, f.attr, TokensOf(env, f).value, src, rows)
    ensures u in src && LeafAccepts(env, f, u) <==> if AllOf(f) then rows != [] && InAll(rows, u) else InSome(rows, u)
  {
    hide IndexView, InAll, InSome;
    RowsMeet(env, f.attr, TokensOf(env, f).value, src, rows, u);
  }

  /** The loop of `processTask` over the tokens */
  method UidMatrix(env: Env, attr: string, tokens: seq<string>, src: seq<uint64>) returns (r: Option<seq<seq<uint64>>>)
    requires EnvOk(env) && GoodSource(src)
    ensures r.None? <==> Overrun(env, attr, tokens, src)
    ensures r.Some? ==> RowsOk(env, attr, tokens, src, r.value)
  {
    hide PostingQueries.Overruns, ViewOf, Sorted, Increasing, Ordered;
    var rows: seq<seq<uint64>> := [];
    IncreasingOrdered(src);
    for i := 0 to |tokens|
      invariant |rows| == i
      invariant forall k :: 0 <= k < i ==> !PostingQueries.Overruns(IndexView(env, attr, tokens[k]), 0, Some(src))
      invariant forall k :: 0 <= k < i ==> RowOk(rows[k], src, IndexView(env, attr, tokens[k]))
    {
      var pl := env.layers(attr, tokens[i]);
      var row := PostingQueries.Uids(pl.0, pl.1, 0, Some(src));
      if row.None? {
        return None;
      }
      forall u: uint64 ensures u in row.value <==> u in src && u in IndexView(env, attr, tokens[i]) {
        IndexNonzero(env, attr, tokens[i], u);
      }
      rows := rows + [row.value];
    }
    r := Some(rows);
  }

  lemma IncreasingOrdered(s: seq<uint64>)
    requires Increasing(s)
    ensures Ordered(s)
  {
  }

  lemma IndexNonzero(env: Env, attr: string, token: string, u: uint64)
    requires EnvOk(env)
    ensures u in IndexView(env, attr, token) ==> u > 0
  {
    var pl := env.layers(attr, token);
    ViewOfAt(pl.0, pl.1, u);
  }

  // ---------- Operators ----------

  /**
   `ProcessGraph` on a filter SubGraph: a node without attribute hands its
   source to its children; their answers are merged for "|" and intersected
   otherwise.
   */
  method ProcessFilter(env: Env, sg: SubGraph, src: seq<uint64>) returns (r: Reply<seq<uint64>>)
    requires EnvOk(env) && GoodSource(src) && IsFilter(sg)
    ensures r.Died? <==> Dies(env, sg, src)
    ensures r.Erred? <==> Errs(env, sg) && !Dies(env, sg, src)
    ensures r.Got? ==> Selects(src, r.value, (u: uint64) => Sat(env, sg, u))
    decreases sg, 1
  {
    hide EnvOk, LeafAccepts, LeafErrs, LeafDies;
    var dest := src;
    if |sg.attr| > 0 {
      r := ProcessLeaf(env, sg, src);
      LeafEnds(env, FuncOf(sg), src);
      return;
    }
    NoAttribute(env, sg, src);
    if |sg.filters| == 0 {
      return Got(dest);
    }
    var lists := ProcessFilters(env, sg.filters, src);
    if !lists.Got? {
      return if lists.Died? then Died else Erred;
    }
    var rows := lists.value;
    AnswersSorted(env, sg.filters, src, rows);
    hide Increasing, AllOrdered, Shortest, InSome, InAll;
    if sg.op == Some(OrOp) {
      dest := MergeSorted(rows);
    } else {
      dest := IntersectSorted(rows);
    }
    forall u: uint64 ensures u in dest <==> u in src && Sat(env, sg, u) {
      AnswersMeet(env, sg.filters, src, rows, u);
    }
    r := Got(dest);
  }

  lemma LeafEnds(env: Env, f: Function, src: seq<uint64>)
    ensures !(LeafErrs(env, f) && LeafDies(env, f, src))
  {
  }

  lemma NoAttribute(env: Env, sg: SubGraph, src: seq<uint64>)
    requires sg.attr == ""
    ensures !LeafErrs(env, FuncOf(sg)) && !LeafDies(env, FuncOf(sg), src)
    ensures forall u: uint64 :: LeafAccepts(env, FuncOf(sg), u)
  {
  }

  ghost predicate Answer(env: Env, sg: SubGraph, src: seq<uint64>, row: seq<uint64>) {
    Increasing(row) && forall u: uint64 :: u in row <==> u in src && Sat(env, sg, u)
  }

  ghost predicate Answers(env: Env, sgs: seq<SubGraph>, src: seq<uint64>, rows: seq<seq<uint64>>) {
    |rows| == |sgs| && forall i :: 0 <= i < |rows| ==> Answer(env, sgs[i], src, rows[i])
  }

  lemma AnswersSorted(env: Env, sgs: seq<SubGraph>, src: seq<uint64>, rows: seq<seq<uint64>>)
    requires Answers(env, sgs, src, rows)
    ensures AllOrdered(rows)
    ensures forall m: nat :: Shortest(rows, m) ==> Increasing(rows[m])
  {
    hide Sat;
    forall i | 0 <= i < |rows| ensures Increasing(rows[i]) {
      assert Answer(env, sgs[i], src, rows[i]);
    }
  }

  lemma AnswersMeet(env: Env, sgs: seq<SubGraph>, src: seq<uint64>, rows: seq<seq<uint64>>, u: uint64)
    requires Answers(env, sgs, src, rows)
    ensures InSome(rows, u) <==> u in src && exists i :: 0 <= i < |sgs| && Sat(env, sgs[i], u)
    ensures rows != [] ==> (InAll(rows, u) <==> u in src && forall i :: 0 <= i < |sgs| ==> Sat(env, sgs[i], u))
  {
    hide Sat;
    if InSome(rows, u) {
      var i :| 0 <= i < |rows| && u in rows[i];
      assert Answer(env, sgs[i], src, rows[i]);
    }
    if u in src {
      if i :| 0 <= i < |sgs| && Sat(env, sgs[i], u) {
        assert Answer(env, sgs[i], src, rows[i]);
      }
    }
    if rows != [] {
      assert Answer(env, sgs[0], src, rows[0]);
      assert forall i :: 0 <= i < |sgs| ==> Answer(env, sgs[i], src, rows[i]);
    }
  }

  /**
   All filters get the same source and all of them run: one that dies ends the
   process, and otherwise one that errs fails the whole.
   */
  method ProcessFilters(env: Env, sgs: seq<SubGraph>, src: seq<uint64>) returns (r: Reply<seq<seq<uint64>>>)
    requires EnvOk(env) && GoodSource(src)
    requires forall i :: 0 <= i < |sgs| ==> IsFilter(sgs[i])
    ensures r.Died? <==> exists i :: 0 <= i < |sgs| && Dies(env, sgs[i], src)
    ensures r.Erred? <==> !r.Died? && exists i :: 0 <= i < |sgs| && Errs(env, sgs[i])
    ensures r.Got? ==> Answers(env, sgs, src, r.value)
    decreases sgs, 0
  {
    hide EnvOk, Sat, Errs, Dies, GoodSource, Increasing;
    var rows: seq<seq<uint64>> := [];
    var erred := false;
    for i := 0 to |sgs|
      invariant forall k :: 0 <= k < i ==> !Dies(env, sgs[k], src)
      invariant erred <==> exists k :: 0 <= k < i && Errs(env, sgs[k])
      invariant !erred ==> |rows| == i && forall k :: 0 <= k < i ==> Answer(env, sgs[k], src, rows[k])
    {
      var row := ProcessFilter(env, sgs[i], src);
      if row.Died? {
        return Died;
      }
      erred := erred || row.Erred?;
      if row.Got? {
        rows := rows + [row.value];
      }
    }
    r := if erred then Erred else Got(rows);
  }

  // ---------- The whole way ----------

  datatype Filtered = Uids(uids: seq<uint64>) | Unparsed(result: FilterParser.Result) | Failed(died: bool)

  /** Parse the directive, copy the tree, process it on the destination uids of its parent unless there are none. */
  method ApplyFilter(env: Env, toks: seq<Token>, dest: seq<uint64>) returns (r: Filtered)
    requires EnvOk(env) && Increasing(dest) && MAX_UINT64 !in dest
    ensures ParseFilter(toks).result == NoFilter ==> r == Uids(dest)
    ensures ParseFilter(toks).result.Tree? ==>
      var t := ParseFilter(toks).result.t; var sg := FilterCopy(t);
      && (r == Failed(true) <==> dest != [] && Dies(env, sg, dest))
      && (r == Failed(false) <==> dest != [] && Errs(env, sg) && !Dies(env, sg, dest)) && !r.Unparsed?
      && (r.Uids? ==> Selects(dest, r.uids, (u: uint64) => SatTree(env, t, u)))
    ensures ParseFilter(toks).result != NoFilter && !ParseFilter(toks).result.Tree? ==> r == Unparsed(ParseFilter(toks).result)
  {
    hide EnvOk, ParseFilter, FilterCopy, Sat, SatTree, Errs, Dies, IsFilter;
    var parsed := ParseFilterLoop(toks);
    match parsed.result {
      case Tree(t) =>
        if |dest| == 0 {
          return Uids(dest);
        }
        var filter := FilterCopy(t);
        CopyIsFilter(t);
        var lists := ProcessFilters(env, [filter], dest);
        assert [filter][0] == filter;
        if !lists.Got? {
          return Failed(lists.Died?);
        }
        AnswersSorted(env, [filter], dest, lists.value);
        var uids := IntersectSorted(lists.value);
        forall u: uint64 ensures u in uids <==> u in dest && SatTree(env, t, u) {
          AnswersMeet(env, [filter], dest, lists.value, u);
          SatCopy(env, t, u);
        }
        return Uids(uids);
      case NoFilter =>
        return Uids(dest);
      case _ =>
        return Unparsed(parsed.result);
    }
  }

  /**
   For every filter of the grammar: unless a leaf fails, what is left of the
   source is the increasing list of exactly those uids that satisfy the
   infix formula.
   */
  method FilterBy(env: Env, e: OrExpr, rest: seq<Token>, dest: seq<uint64>) returns (r: Reply<seq<uint64>>)
    requires EnvOk(env) && Increasing(dest) && MAX_UINT64 !in dest
    ensures r.Died? <==> dest != [] && Dies(env, FilterCopy(OrTree(e)), dest)
    ensures r.Erred? <==> dest != [] && Errs(env, FilterCopy(OrTree(e))) && !Dies(env, FilterCopy(OrTree(e)), dest)
    ensures r.Got? ==> Selects(dest, r.value, (u: uint64) => SatOr(env, e, u))
  {
    hide EnvOk, ParseFilter, FilterCopy, OrTree, SatOr, SatTree, Errs, Dies, FilterToks;
    FilterParses(e, rest);
    var filtered := ApplyFilter(env, FilterToks(e) + rest, dest);
    if filtered.Failed? {
      return if filtered.died then Died else Erred;
    }
    forall u: uint64 ensures SatTree(env, OrTree(e), u) <==> SatOr(env, e, u) {
      SatOrTree(env, e, u);
    }
    r := Got(filtered.uids);
  }
}
