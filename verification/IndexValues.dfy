/**
 The index in terms of the mutations alone. `LastValue` reads the current
 value of an entity off the run, without any list or key; the store holds that
 value, and the index lists exactly its tokens.
 */
module IndexValues {
  import opened Bytes
  import opened PostingLayers
  import opened Edges
  import opened Keys
  import opened TokensTables
  import opened Index
  import opened IndexLaws

  /** The last value that was set and not deleted since; deleting another value, type or label does nothing. */
  function LastValue(ms: seq<Mutation>, attr: bytes, uid: uint64): Option<Content>
    decreases |ms|
  {
    if ms == [] then None else
    var m, before := ms[|ms| - 1], LastValue(ms[..|ms| - 1], attr, uid);
    if m.attr != attr || m.entity != uid || m.edge.value.None? then before else
    var c := Content(m.edge.value.value, m.edge.valueType, m.edge.lbl);
    if m.op == SET then Some(c)
    else if before == Some(c) then None
    else before
  }

  ghost function ValueIn(view: View): Option<Content> {
    if MAX_UINT64 in view then Some(view[MAX_UINT64]) else None
  }

  /** A legal mutation touches no data list but that of its entity. */
  lemma DataAfter(db: Db, s: Schema, m: Mutation, attr: bytes, uid: uint64)
    requires Consistent(db, s) && Legal(s, m) && PlainAttr(attr)
    ensures var db2 := MutateIndexed(db, s, m).db;
      ListAt(db2, DataKey(attr, uid)) ==
        if m.attr == attr && m.entity == uid then Apply(ListAt(db, DataKey(attr, uid)), EdgeUid(m.edge), EdgeContent(m.edge), m.op)
        else ListAt(db, DataKey(attr, uid))
  {
    hide MutateIndexed, Reindexed, DataKey, PlainAttr, AttrOk, Apply;
    var a, e, db1 := m.attr, m.entity, Stored(db, m);
    if (a != attr || e != uid) && DataKey(attr, uid) == DataKey(a, e) { DataKeyInjective(attr, uid, a, e); }
    if !s.indexed(a) {
      UnindexedShape(db, s, m);
    } else {
      AttrFacts(db, s, a, e);
      MutateShape(db, s, m);
      ReindexedData(db1, a, e, TokensOf(s, a, Current(db, a, e)), TokensOf(s, a, Current(db1, a, e)), attr, uid);
    }
  }

  /** On the value of an entity, a legal mutation is one step of `LastValue`. */
  lemma ValueStep(v: View, m: Mutation, s: Schema)
    requires Legal(s, m)
    ensures var before, after := ValueIn(v), ValueIn(Apply(v, EdgeUid(m.edge), EdgeContent(m.edge), m.op));
      after ==
        if m.edge.value.None? then before
        else var c := Content(m.edge.value.value, m.edge.valueType, m.edge.lbl);
          if m.op == SET then Some(c) else if before == Some(c) then None else before
  {
  }

  lemma {:induction false} RunSnoc(db: Db, s: Schema, ms: seq<Mutation>, m: Mutation)
    ensures Run(db, s, ms + [m]) == MutateIndexed(Run(db, s, ms), s, m).db
    decreases |ms|
  {
    hide MutateIndexed;
    if ms == [] {
      assert ms + [m] == [m];
      RunOne(db, s, m);
    } else {
      assert (ms + [m])[1..] == ms[1..] + [m];
      RunSnoc(MutateIndexed(db, s, ms[0]).db, s, ms[1..], m);
    }
  }

  /** After every run of legal mutations the data list of an entity holds its last value. */
  lemma {:induction false} RunHoldsLast(s: Schema, ms: seq<Mutation>, attr: bytes, uid: uint64)
    requires (forall m :: m in ms ==> Legal(s, m)) && PlainAttr(attr)
    ensures ValueIn(ListAt(Run(EmptyDb(), s, ms), DataKey(attr, uid))) == LastValue(ms, attr, uid)
    decreases |ms|
  {
    hide MutateIndexed, Consistent, Legal, PlainAttr, DataKey, Apply;
    if ms == [] {
      EmptyData(DataKey(attr, uid));
    } else {
      var init, m := ms[..|ms| - 1], ms[|ms| - 1];
      assert ms == init + [m];
      var db := Run(EmptyDb(), s, init);
      RunHoldsLast(s, init, attr, uid);
      RunSnoc(EmptyDb(), s, init, m);
      EmptyConsistent(s);
      RunKeeps(EmptyDb(), s, init);
      DataAfter(db, s, m, attr, uid);
      ValueStep(ListAt(db, DataKey(attr, uid)), m, s);
    }
  }

  lemma EmptyData(key: bytes)
    ensures ListAt(EmptyDb(), key) == map[]
  {
  }

  /** The current value, cut to what `Value` returns. */
  lemma CurrentIsLast(s: Schema, ms: seq<Mutation>, attr: bytes, uid: uint64)
    requires (forall m :: m in ms ==> Legal(s, m)) && PlainAttr(attr)
    ensures Current(Run(EmptyDb(), s, ms), attr, uid) ==
      match LastValue(ms, attr, uid)
      case None => None
      case Some(c) => Some((c.value, c.valType % 256))
  {
    hide Run, Legal, PlainAttr, DataKey, LastValue;
    RunHoldsLast(s, ms, attr, uid);
  }

  /**
   After every run of legal mutations a uid is in the index list of a token
   exactly when the last value set for it, by the mutations themselves, has
   that token; and then the token is in the sorted table.
   */
  lemma IndexFollowsLast(s: Schema, ms: seq<Mutation>, attr: bytes, uid: uint64, token: bytes)
    requires (forall m :: m in ms ==> Legal(s, m)) && PlainAttr(attr) && s.indexed(attr)
    ensures var db, last := Run(EmptyDb(), s, ms), LastValue(ms, attr, uid);
      && (uid in ListAt(db, IndexKey(attr, token)) <==>
            last.Some? && match s.tokenise(attr, last.value.value, last.value.valType % 256)
                          case Tokens(ts) => token in ts
                          case _ => false)
      && (uid in ListAt(db, IndexKey(attr, token)) ==> token in TableAt(db, attr))
      && SortedTokens(TableAt(db, attr))
  {
    hide Run, Legal, PlainAttr, IndexKey, Current, LastValue, SortedTokens;
    CurrentIsLast(s, ms, attr, uid);
    IndexFollowsValues(s, ms, attr, uid, token);
  }
}
