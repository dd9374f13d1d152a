/** Filters over an index that mutations have built: they speak about the current values. */
module FilterValues {
  import opened Bytes
  import opened UidOrder
  import opened FilterParser
  import opened FilterEval
  import opened Keys
  import Index
  import IndexLaws
  import IndexValues

  /** A store after a run, and the bytes of the strings that queries are made of. */
  datatype Data = Data(db: Index.Db, schema: Index.Schema, enc: string -> bytes)

  /** The index lists that the query code reads are those of the store. */
  ghost predicate Serves(env: Env, d: Data) {
    forall a, t :: IndexView(env, a, t) == Index.ListAt(d.db, IndexKey(d.enc(a), d.enc(t)))
  }

  /** The current value of `u` for the attribute has the token. */
  predicate HasToken(d: Data, attr: string, u: uint64, token: string) {
    d.enc(token) in Index.TokensOf(d.schema, d.enc(attr), Index.Current(d.db, d.enc(attr), u))
  }

  ghost predicate ValueAccepts(env: Env, d: Data, f: Function, u: uint64) {
    f.attr == "" ||
    (TokensOf(env, f).Some? &&
     var tokens := TokensOf(env, f).value;
     if AllOf(f) then tokens != [] && forall i :: 0 <= i < |tokens| ==> HasToken(d, f.attr, u, tokens[i])
     else exists i :: 0 <= i < |tokens| && HasToken(d, f.attr, u, tokens[i]))
  }

  /** The infix formula over the current values. */
  ghost predicate ValuePrim(env: Env, d: Data, p: Prim, u: uint64) {
    match p
    case CallOf(name, args) => ValueAccepts(env, d, FunctionOf(name, args), u)
    case Group(e) => ValueOr(env, d, e, u)
  }

  ghost predicate ValueAnd(env: Env, d: Data, a: AndExpr, u: uint64) {
    match a
    case One(p) => ValuePrim(env, d, p, u)
    case AndThen(l, p) => ValueAnd(env, d, l, u) && ValuePrim(env, d, p, u)
  }

  ghost predicate ValueOr(env: Env, d: Data, e: OrExpr, u: uint64) {
    match e
    case Single(a) => ValueAnd(env, d, a, u)
    case OrElse(l, a) => ValueOr(env, d, l, u) || ValueAnd(env, d, a, u)
  }

  /** A call over the current values: "allof" wants every token, "anyof" some token. */
  lemma CallOnValues(env: Env, d: Data, name: string, attr: string, arg: string, u: uint64)
    requires attr != "" && env.tokenize(arg).Some?
    ensures var tokens, mine := env.tokenize(arg).value, Index.TokensOf(d.schema, d.enc(attr), Index.Current(d.db, d.enc(attr), u));
      && (Reads(name, "allof") ==>
            (ValuePrim(env, d, CallOf(name, [attr, arg]), u) <==> tokens != [] && forall t :: t in tokens ==> d.enc(t) in mine))
      && (Reads(name, "anyof") ==>
            (ValuePrim(env, d, CallOf(name, [attr, arg]), u) <==> exists t :: t in tokens && d.enc(t) in mine))
  {
    hide Index.TokensOf, Index.Current, Reads;
    assert FunctionOf(name, [attr, arg]) == Function(name, attr, [arg]) by { assert [attr, arg][1..] == [arg]; }
    AnyNotAll(name);
    var tokens, mine := env.tokenize(arg).value, Index.TokensOf(d.schema, d.enc(attr), Index.Current(d.db, d.enc(attr), u));
    if t :| t in tokens && d.enc(t) in mine {
      var i :| 0 <= i < |tokens| && tokens[i] == t;
      assert HasToken(d, attr, u, tokens[i]);
    }
  }

  /** And over the mutations themselves: the tokens are those of the last value that was set. */
  lemma CallAfterRun(env: Env, d: Data, ms: seq<Index.Mutation>, name: string, attr: string, arg: string, u: uint64)
    requires (forall m :: m in ms ==> Index.Legal(d.schema, m)) && d.db == Index.Run(Index.EmptyDb(), d.schema, ms)
    requires attr != "" && PlainAttr(d.enc(attr)) && env.tokenize(arg).Some?
    ensures var tokens, last := env.tokenize(arg).value, IndexValues.LastValue(ms, d.enc(attr), u);
      var mine := if last.None? then Index.Tokens([]) else d.schema.tokenise(d.enc(attr), last.value.value, last.value.valType % 256);
      && (Reads(name, "allof") ==> (ValuePrim(env, d, CallOf(name, [attr, arg]), u) <==>
            tokens != [] && mine.Tokens? && forall t :: t in tokens ==> d.enc(t) in mine.ts))
      && (Reads(name, "anyof") ==> (ValuePrim(env, d, CallOf(name, [attr, arg]), u) <==>
            mine.Tokens? && exists t :: t in tokens && d.enc(t) in mine.ts))
  {
    hide Index.Current, Index.Run, Index.Legal, IndexValues.LastValue, Reads, ValuePrim, PlainAttr;
    CallOnValues(env, d, name, attr, arg, u);
    IndexValues.CurrentIsLast(d.schema, ms, d.enc(attr), u);
    var tokens := env.tokenize(arg).value;
    assert tokens != [] ==> tokens[0] in tokens;
  }

  /** Every attribute of the filter is indexed. */
  predicate IndexedPrim(d: Data, p: Prim) {
    match p
    case CallOf(name, args) =>
      var attr := FunctionOf(name, args).attr;
      attr == "" || (PlainAttr(d.enc(attr)) && d.schema.indexed(d.enc(attr)))
    case Group(e) => IndexedOr(d, e)
  }

  predicate IndexedAnd(d: Data, a: AndExpr) {
    match a
    case One(p) => IndexedPrim(d, p)
    case AndThen(l, p) => IndexedAnd(d, l) && IndexedPrim(d, p)
  }

  predicate IndexedOr(d: Data, e: OrExpr) {
    match e
    case Single(a) => IndexedAnd(d, a)
    case OrElse(l, a) => IndexedOr(d, l) && IndexedAnd(d, a)
  }

  lemma LeafAgrees(env: Env, d: Data, f: Function, u: uint64)
    requires Serves(env, d) && Index.Consistent(d.db, d.schema)
    requires f.attr == "" || (PlainAttr(d.enc(f.attr)) && d.schema.indexed(d.enc(f.attr)))
    ensures LeafAccepts(env, f, u) <==> ValueAccepts(env, d, f, u)
  {
    hide IndexView, IndexKey, Index.Consistent, Index.AttrOk, Index.TokensOf, Index.Current, PlainAttr;
    if f.attr != "" {
      forall t ensures u in IndexView(env, f.attr, t) <==> HasToken(d, f.attr, u, t) { TokenAgrees(env, d, f.attr, u, t); }
    }
  }

  lemma TokenAgrees(env: Env, d: Data, attr: string, u: uint64, t: string)
    requires Serves(env, d) && Index.Consistent(d.db, d.schema)
    requires PlainAttr(d.enc(attr)) && d.schema.indexed(d.enc(attr))
    ensures u in IndexView(env, attr, t) <==> HasToken(d, attr, u, t)
  {
    hide IndexView, IndexKey, Index.TokensOf, Index.Current, PlainAttr;
    assert Index.AttrOk(d.db, d.schema, d.enc(attr));
    assert Index.Agrees(d.db, d.schema, d.enc(attr), u, d.enc(t));
  }

  lemma {:induction false} PrimAgrees(env: Env, d: Data, p: Prim, u: uint64)
    requires Serves(env, d) && Index.Consistent(d.db, d.schema) && IndexedPrim(d, p)
    ensures SatPrim(env, p, u) <==> ValuePrim(env, d, p, u)
  {
    hide Serves, Index.Consistent, LeafAccepts, ValueAccepts, PlainAttr;
    match p {
      case CallOf(name, args) => LeafAgrees(env, d, FunctionOf(name, args), u);
      case Group(e) => OrAgrees(env, d, e, u);
    }
  }

  lemma {:induction false} AndAgrees(env: Env, d: Data, a: AndExpr, u: uint64)
    requires Serves(env, d) && Index.Consistent(d.db, d.schema) && IndexedAnd(d, a)
    ensures SatAnd(env, a, u) <==> ValueAnd(env, d, a, u)
  {
    hide Serves, Index.Consistent;
    match a {
      case One(p) => PrimAgrees(env, d, p, u);
      case AndThen(l, p) => AndAgrees(env, d, l, u); PrimAgrees(env, d, p, u);
    }
  }

  /** On a consistent index, a filter says about the lists what it says about the values. */
  lemma {:induction false} OrAgrees(env: Env, d: Data, e: OrExpr, u: uint64)
    requires Serves(env, d) && Index.Consistent(d.db, d.schema) && IndexedOr(d, e)
    ensures SatOr(env, e, u) <==> ValueOr(env, d, e, u)
  {
    hide Serves, Index.Consistent;
    match e {
      case Single(a) => AndAgrees(env, d, a, u);
      case OrElse(l, a) => OrAgrees(env, d, l, u); AndAgrees(env, d, a, u);
    }
  }

  /**
   After every run of legal mutations, for every filter of the grammar over
   indexed attributes: what is left is the increasing list of exactly those
   uids whose current values satisfy the infix formula.
   */
  method FilterAfterRun(env: Env, d: Data, ghost ms: seq<Index.Mutation>, e: OrExpr, rest: seq<Token>, dest: seq<uint64>)
    returns (r: Reply<seq<uint64>>)
    requires EnvOk(env) && Increasing(dest) && MAX_UINT64 !in dest
    requires (forall m :: m in ms ==> Index.Legal(d.schema, m)) && d.db == Index.Run(Index.EmptyDb(), d.schema, ms)
    requires Serves(env, d) && IndexedOr(d, e)
    ensures r.Died? <==> dest != [] && Dies(env, FilterCopy(OrTree(e)), dest)
    ensures r.Erred? <==> dest != [] && Errs(env, FilterCopy(OrTree(e))) && !Dies(env, FilterCopy(OrTree(e)), dest)
    ensures r.Got? ==> Selects(dest, r.value, (u: uint64) => ValueOr(env, d, e, u))
  {
    hide EnvOk, Serves, Index.Consistent, Index.Run, Index.Legal, SatOr, ValueOr, Errs, Dies, FilterCopy, OrTree, IndexedOr;
    IndexLaws.EmptyConsistent(d.schema);
    IndexLaws.RunKeeps(Index.EmptyDb(), d.schema, ms);
    r := FilterBy(env, e, rest, dest);
    forall u: uint64 ensures SatOr(env, e, u) <==> ValueOr(env, d, e, u) { OrAgrees(env, d, e, u); }
  }
}
