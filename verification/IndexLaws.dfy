/** The index follows the values, over every run of mutations. */
module IndexLaws {
  import opened Bytes
  import opened PostingLayers
  import opened Edges
  import opened Keys
  import opened TokensTables
  import opened Index

  /** Deleting the old tokens of `uid` and setting its new ones. */
  function Reindexed(db: Db, attr: bytes, uid: uint64, t0: seq<bytes>, t1: seq<bytes>): Db {
    IndexAll(IndexAll(db, attr, uid, t0, true), attr, uid, t1, false)
  }

  /** `db1` is `db` except for the data list of (attr, uid). */
  ghost predicate OnlyData(db: Db, db1: Db, attr: bytes, uid: uint64) {
    && db1.tables == db.tables
    && forall key :: key != DataKey(attr, uid) ==> ListAt(db1, key) == ListAt(db, key)
  }

  lemma ReindexedList(db: Db, attr: bytes, uid: uint64, t0: seq<bytes>, t1: seq<bytes>, token: bytes)
    requires PlainAttr(attr)
    ensures var l := ListAt(db, IndexKey(attr, token));
            var l0 := if token in t0 then Apply(l, uid, IDX, DEL) else l;
            ListAt(Reindexed(db, attr, uid, t0, t1), IndexKey(attr, token))
            == if token in t1 then Apply(l0, uid, IDX, SET) else l0
  {
    hide IndexAll, Apply, ListAt;
    var key := IndexKey(attr, token);
    assert forall t :: IndexKey(attr, t) == key ==> t == token by {
      forall t | IndexKey(attr, t) == key ensures t == token { IndexKeyInjective(attr, t, attr, token); }
    }
    IndexAllLists(db, attr, uid, t0, true, key);
    IndexAllLists(IndexAll(db, attr, uid, t0, true), attr, uid, t1, false, key);
  }

  /** Lists that are not index lists of `attr` are left alone. */
  lemma ReindexedElsewhere(db: Db, attr: bytes, uid: uint64, t0: seq<bytes>, t1: seq<bytes>, key: bytes)
    requires PlainAttr(attr) && forall t :: key != IndexKey(attr, t)
    ensures ListAt(Reindexed(db, attr, uid, t0, t1), key) == ListAt(db, key)
  {
    hide IndexAll, ListAt, IndexKey;
    IndexAllLists(db, attr, uid, t0, true, key);
    IndexAllLists(IndexAll(db, attr, uid, t0, true), attr, uid, t1, false, key);
  }

  lemma ReindexedData(db: Db, attr: bytes, uid: uint64, t0: seq<bytes>, t1: seq<bytes>, b: bytes, u: uint64)
    requires PlainAttr(attr) && PlainAttr(b)
    ensures ListAt(Reindexed(db, attr, uid, t0, t1), DataKey(b, u)) == ListAt(db, DataKey(b, u))
  {
    hide Reindexed, ListAt, IndexKey, DataKey;
    forall t ensures DataKey(b, u) != IndexKey(attr, t) { KeysDisjoint(b, u, attr, t); }
    ReindexedElsewhere(db, attr, uid, t0, t1, DataKey(b, u));
  }

  /** One (uid, token) pair of the reindexed attribute. */
  lemma ReindexAgrees(db: Db, db1: Db, s: Schema, attr: bytes, uid: uint64, u: uint64, token: bytes)
    requires PlainAttr(attr) && OnlyData(db, db1, attr, uid)
    requires Agrees(db, s, attr, u, token) && ContentOk(db, attr, token)
    ensures var t0, t1 := TokensOf(s, attr, Current(db, attr, uid)), TokensOf(s, attr, Current(db1, attr, uid));
            Agrees(Reindexed(db1, attr, uid, t0, t1), s, attr, u, token)
  {
    var t0, t1 := TokensOf(s, attr, Current(db, attr, uid)), TokensOf(s, attr, Current(db1, attr, uid));
    KeysDisjoint(attr, uid, attr, token);
    ReindexedList(db1, attr, uid, t0, t1, token);
    ReindexedData(db1, attr, uid, t0, t1, attr, u);
    if u != uid && DataKey(attr, u) == DataKey(attr, uid) {
      DataKeyInjective(attr, u, attr, uid);
    }
    hide Reindexed, IndexKey, DataKey, TokensOf;
  }

  lemma ReindexContent(db: Db, db1: Db, s: Schema, attr: bytes, uid: uint64, t0: seq<bytes>, t1: seq<bytes>, token: bytes)
    requires PlainAttr(attr) && OnlyData(db, db1, attr, uid)
    requires SortedTokens(TableAt(db, attr)) && ContentOk(db, attr, token)
    ensures ContentOk(Reindexed(db1, attr, uid, t0, t1), attr, token)
    ensures SortedTokens(TableAt(Reindexed(db1, attr, uid, t0, t1), attr))
  {
    hide IndexAll, IndexKey, DataKey, SortedTokens;
    KeysDisjoint(attr, uid, attr, token);
    ReindexedList(db1, attr, uid, t0, t1, token);
    IndexAllTables(db1, attr, uid, t0, true);
    IndexAllTables(IndexAll(db1, attr, uid, t0, true), attr, uid, t1, false);
  }

  /** The attribute of the mutation. */
  lemma ReindexOk(db: Db, db1: Db, s: Schema, attr: bytes, uid: uint64)
    requires PlainAttr(attr) && OnlyData(db, db1, attr, uid) && AttrOk(db, s, attr)
    requires Decodable(s, attr, Current(db1, attr, uid))
    ensures var t0, t1 := TokensOf(s, attr, Current(db, attr, uid)), TokensOf(s, attr, Current(db1, attr, uid));
            AttrOk(Reindexed(db1, attr, uid, t0, t1), s, attr)
  {
    hide Reindexed, Agrees, ContentOk, TokensOf, IndexKey, DataKey, Decodable, SortedTokens;
    var t0, t1 := TokensOf(s, attr, Current(db, attr, uid)), TokensOf(s, attr, Current(db1, attr, uid));
    var db2 := Reindexed(db1, attr, uid, t0, t1);
    forall u: uint64, token ensures Agrees(db2, s, attr, u, token) {
      ReindexAgrees(db, db1, s, attr, uid, u, token);
    }
    forall token ensures ContentOk(db2, attr, token) {
      ReindexContent(db, db1, s, attr, uid, t0, t1, token);
    }
    ReindexContent(db, db1, s, attr, uid, t0, t1, []);
    forall u: uint64 ensures Decodable(s, attr, Current(db2, attr, u)) {
      ReindexedData(db1, attr, uid, t0, t1, attr, u);
      if u != uid && DataKey(attr, u) == DataKey(attr, uid) {
        DataKeyInjective(attr, u, attr, uid);
      }
      assert Decodable(s, attr, Current(db, attr, u));
    }
  }

  /** Every other attribute. */
  lemma ReindexOthers(db: Db, db1: Db, s: Schema, attr: bytes, uid: uint64, t0: seq<bytes>, t1: seq<bytes>, b: bytes)
    requires PlainAttr(attr) && PlainAttr(b) && b != attr && OnlyData(db, db1, attr, uid)
    requires AttrOk(db, s, b) && SortedTokens(TableAt(db, attr))
    ensures AttrOk(Reindexed(db1, attr, uid, t0, t1), s, b)
  {
    hide IndexAll, TokensOf, IndexKey, DataKey, Decodable, SortedTokens;
    var db2 := Reindexed(db1, attr, uid, t0, t1);
    IndexAllTables(db1, attr, uid, t0, true);
    IndexAllTables(IndexAll(db1, attr, uid, t0, true), attr, uid, t1, false);
    forall token ensures ListAt(db2, IndexKey(b, token)) == ListAt(db, IndexKey(b, token)) {
      OtherIndexList(db1, attr, uid, t0, t1, b, token);
      KeysDisjoint(attr, uid, b, token);
    }
    forall u: uint64 ensures ListAt(db2, DataKey(b, u)) == ListAt(db, DataKey(b, u)) {
      ReindexedData(db1, attr, uid, t0, t1, b, u);
      if DataKey(b, u) == DataKey(attr, uid) {
        DataKeyInjective(b, u, attr, uid);
      }
    }
    forall u: uint64, token ensures Agrees(db2, s, b, u, token) {
      assert Agrees(db, s, b, u, token);
    }
    forall token ensures ContentOk(db2, b, token) {
      assert ContentOk(db, b, token);
    }
    forall u: uint64 ensures Decodable(s, b, Current(db2, b, u)) {
      assert Decodable(s, b, Current(db, b, u));
    }
  }

  lemma OtherIndexList(db: Db, attr: bytes, uid: uint64, t0: seq<bytes>, t1: seq<bytes>, b: bytes, token: bytes)
    requires PlainAttr(attr) && PlainAttr(b) && b != attr
    ensures ListAt(Reindexed(db, attr, uid, t0, t1), IndexKey(b, token)) == ListAt(db, IndexKey(b, token))
  {
    hide Reindexed, ListAt, IndexKey;
    forall t ensures IndexKey(b, token) != IndexKey(attr, t) {
      if IndexKey(b, token) == IndexKey(attr, t) { IndexKeyInjective(b, token, attr, t); }
    }
    ReindexedElsewhere(db, attr, uid, t0, t1, IndexKey(b, token));
  }

  // ---------- One mutation ----------

  /** The data list after the mutation, before any index work. */
  function Stored(db: Db, m: Mutation): Db {
    var key := DataKey(m.attr, m.entity);
    db.(lists := db.lists[key := Apply(ListAt(db, key), EdgeUid(m.edge), EdgeContent(m.edge), m.op)])
  }

  /**
   A legal mutation never fails, and on an indexed attribute it amounts to
   replacing the tokens of the old value by those of the new one; when the
   value does not change nothing is reindexed.
   */
  lemma MutateShape(db: Db, s: Schema, m: Mutation)
    requires Legal(s, m) && Decodable(s, m.attr, Current(db, m.attr, m.entity))
    ensures MutateIndexed(db, s, m).outcome == Applied
    ensures Decodable(s, m.attr, Current(Stored(db, m), m.attr, m.entity))
    ensures
      var t0, t1 := TokensOf(s, m.attr, Current(db, m.attr, m.entity)), TokensOf(s, m.attr, Current(Stored(db, m), m.attr, m.entity));
      || MutateIndexed(db, s, m).db == Reindexed(Stored(db, m), m.attr, m.entity, t0, t1)
      || (MutateIndexed(db, s, m).db == Stored(db, m) && (s.indexed(m.attr) ==> Current(Stored(db, m), m.attr, m.entity) == Current(db, m.attr, m.entity)))
  {
    hide IndexAll, DataKey, PlainAttr;
    var db1 := Stored(db, m);
    IndexNothing(db1, m.attr, m.entity, true);
    IndexNothing(db1, m.attr, m.entity, false);
    IndexNothing(IndexAll(db1, m.attr, m.entity, TokensOf(s, m.attr, Current(db, m.attr, m.entity)), true), m.attr, m.entity, false);
  }

  lemma IndexNothing(db: Db, attr: bytes, uid: uint64, del: bool)
    ensures IndexAll(db, attr, uid, [], del) == db
  {
  }

  lemma StoredOnly(db: Db, m: Mutation)
    ensures OnlyData(db, Stored(db, m), m.attr, m.entity)
  {
    hide DataKey, Apply;
  }

  lemma UnchangedOk(db: Db, db1: Db, s: Schema, attr: bytes, uid: uint64)
    requires PlainAttr(attr) && OnlyData(db, db1, attr, uid) && AttrOk(db, s, attr)
    requires Current(db1, attr, uid) == Current(db, attr, uid)
    ensures AttrOk(db1, s, attr)
  {
    hide TokensOf, IndexKey, DataKey, Decodable, SortedTokens;
    forall u: uint64 ensures Current(db1, attr, u) == Current(db, attr, u) {
      if u != uid && DataKey(attr, u) == DataKey(attr, uid) { DataKeyInjective(attr, u, attr, uid); }
    }
    forall token ensures ListAt(db1, IndexKey(attr, token)) == ListAt(db, IndexKey(attr, token)) {
      KeysDisjoint(attr, uid, attr, token);
    }
    forall u: uint64, token ensures Agrees(db1, s, attr, u, token) { assert Agrees(db, s, attr, u, token); }
    forall token ensures ContentOk(db1, attr, token) { assert ContentOk(db, attr, token); }
    forall u: uint64 ensures Decodable(s, attr, Current(db1, attr, u)) { assert Decodable(s, attr, Current(db, attr, u)); }
  }

  /** A mutation of an attribute that is not indexed cannot disturb the others. */
  lemma StoredOthers(db: Db, s: Schema, m: Mutation, b: bytes)
    requires PlainAttr(m.attr) && PlainAttr(b) && b != m.attr && AttrOk(db, s, b)
    ensures AttrOk(Stored(db, m), s, b)
  {
    hide Stored, TokensOf, IndexKey, DataKey, Decodable, SortedTokens;
    var db1 := Stored(db, m);
    StoredOnly(db, m);
    forall u: uint64 ensures Current(db1, b, u) == Current(db, b, u) {
      if DataKey(b, u) == DataKey(m.attr, m.entity) { DataKeyInjective(b, u, m.attr, m.entity); }
    }
    forall token ensures ListAt(db1, IndexKey(b, token)) == ListAt(db, IndexKey(b, token)) {
      KeysDisjoint(m.attr, m.entity, b, token);
    }
    forall u: uint64, token ensures Agrees(db1, s, b, u, token) { assert Agrees(db, s, b, u, token); }
    forall token ensures ContentOk(db1, b, token) { assert ContentOk(db, b, token); }
    forall u: uint64 ensures Decodable(s, b, Current(db1, b, u)) { assert Decodable(s, b, Current(db, b, u)); }
  }

  lemma UnindexedShape(db: Db, s: Schema, m: Mutation)
    requires Legal(s, m) && !s.indexed(m.attr)
    ensures MutateIndexed(db, s, m) == Mutated(Stored(db, m), Applied)
  {
    hide DataKey, Apply, PlainAttr;
  }

  /** Every legal mutation keeps every indexed attribute in agreement with its values. */
  lemma MutateKeeps(db: Db, s: Schema, m: Mutation)
    requires Consistent(db, s) && Legal(s, m)
    ensures Consistent(MutateIndexed(db, s, m).db, s) && MutateIndexed(db, s, m).outcome == Applied
  {
    hide MutateIndexed, Stored, AttrOk, Reindexed;
    var a, e, db1, db2 := m.attr, m.entity, Stored(db, m), MutateIndexed(db, s, m).db;
    StoredOnly(db, m);
    if !s.indexed(a) {
      UnindexedShape(db, s, m);
      forall b | PlainAttr(b) && s.indexed(b) ensures AttrOk(db2, s, b) { StoredOthers(db, s, m, b); }
    } else {
      AttrFacts(db, s, a, e);
      MutateShape(db, s, m);
      var t0, t1 := TokensOf(s, a, Current(db, a, e)), TokensOf(s, a, Current(db1, a, e));
      if db2 == Reindexed(db1, a, e, t0, t1) {
        ReindexOk(db, db1, s, a, e);
        forall b | PlainAttr(b) && s.indexed(b) && b != a ensures AttrOk(db2, s, b) {
          ReindexOthers(db, db1, s, a, e, t0, t1, b);
        }
      } else {
        UnchangedOk(db, db1, s, a, e);
        forall b | PlainAttr(b) && s.indexed(b) && b != a ensures AttrOk(db2, s, b) { StoredOthers(db, s, m, b); }
      }
    }
  }

  lemma AttrFacts(db: Db, s: Schema, attr: bytes, uid: uint64)
    requires AttrOk(db, s, attr)
    ensures SortedTokens(TableAt(db, attr)) && Decodable(s, attr, Current(db, attr, uid))
  {
  }

  lemma {:induction false} RunKeeps(db: Db, s: Schema, ms: seq<Mutation>)
    requires Consistent(db, s) && forall m :: m in ms ==> Legal(s, m)
    ensures Consistent(Run(db, s, ms), s)
    decreases |ms|
  {
    hide MutateIndexed, Consistent, Legal;
    if ms != [] {
      MutateKeeps(db, s, ms[0]);
      RunKeeps(MutateIndexed(db, s, ms[0]).db, s, ms[1..]);
    }
  }

  lemma EmptyConsistent(s: Schema)
    ensures Consistent(EmptyDb(), s)
  {
  }

  /**
   Over every run of legal mutations from an empty store: `uid` is in the index
   list of `token` exactly when its current value has that token, and every
   token in use is in the sorted token table.
   */
  lemma IndexFollowsValues(s: Schema, ms: seq<Mutation>, attr: bytes, uid: uint64, token: bytes)
    requires forall m :: m in ms ==> Legal(s, m)
    requires PlainAttr(attr) && s.indexed(attr)
    ensures var db := Run(EmptyDb(), s, ms);
      && (uid in ListAt(db, IndexKey(attr, token)) <==> token in TokensOf(s, attr, Current(db, attr, uid)))
      && (uid in ListAt(db, IndexKey(attr, token)) ==> token in TableAt(db, attr))
      && SortedTokens(TableAt(db, attr))
  {
    var empty := EmptyDb();
    EmptyConsistent(s);
    RunKeeps(empty, s, ms);
    hide Run;
    var db := Run(empty, s, ms);
    assert AttrOk(db, s, attr);
    assert Agrees(db, s, attr, uid, token) && ContentOk(db, attr, token);
  }

  // ---------- Why values must not be empty ----------

  /** The tokens that a mutation would set. */
  function SetTokens(s: Schema, m: Mutation): seq<bytes> {
    if m.op == SET then TokensOf(s, m.attr, Some((EdgeBytes(m.edge), m.edge.valueType % 256))) else []
  }

  ghost predicate SameTokens(a: seq<bytes>, b: seq<bytes>) {
    forall t :: t in a <==> t in b
  }

  /**
   An empty, non-nil value on an indexed attribute: it is stored as an edge to
   `valueId`, but indexed like a value. If `valueId` is the uid of values, the
   value itself becomes empty.
   */
  predicate EmptyValue(s: Schema, m: Mutation) {
    && PlainAttr(m.attr) && s.indexed(m.attr) && m.entity != 0 && (m.op == SET || m.op == DEL)
    && m.edge.value == Some([]) && 0 < m.edge.valueId
    && (m.op == SET ==> !s.tokenise(m.attr, [], m.edge.valueType % 256).Undecodable?)
  }

  lemma EmptyValueShape(db: Db, s: Schema, m: Mutation)
    requires EmptyValue(s, m) && Decodable(s, m.attr, Current(db, m.attr, m.entity))
    requires ListAt(Stored(db, m), DataKey(m.attr, m.entity)) != ListAt(db, DataKey(m.attr, m.entity))
    ensures Current(Stored(db, m), m.attr, m.entity) ==
      if m.edge.valueId == MAX_UINT64 then Some(([], m.edge.valueType % 256)) else Current(db, m.attr, m.entity)
    ensures m.edge.valueId == MAX_UINT64 ==> m.op == SET
    ensures MutateIndexed(db, s, m).db
         == Reindexed(Stored(db, m), m.attr, m.entity, TokensOf(s, m.attr, Current(db, m.attr, m.entity)), SetTokens(s, m))
  {
    hide IndexAll, DataKey, PlainAttr;
    var db1 := Stored(db, m);
    IndexNothing(db1, m.attr, m.entity, true);
    IndexNothing(db1, m.attr, m.entity, false);
    IndexNothing(IndexAll(db1, m.attr, m.entity, TokensOf(s, m.attr, Current(db, m.attr, m.entity)), true), m.attr, m.entity, false);
  }

  /** What replacing `t0` by `t1` does to the agreement of an entity that agreed under `t0`. */
  lemma ReindexedAgrees(db: Db, db1: Db, s: Schema, a: bytes, e: uint64, gone: seq<bytes>, t1: seq<bytes>, token: bytes)
    requires PlainAttr(a) && OnlyData(db, db1, a, e)
    requires Agrees(db, s, a, e, token) && ContentOk(db, a, token)
    ensures var t0 := TokensOf(s, a, Current(db, a, e)); var db2 := Reindexed(db1, a, e, gone, t1);
      && Current(db2, a, e) == Current(db1, a, e)
      && (Agrees(db2, s, a, e, token) <==>
            (token in t1 || (token in t0 && token !in gone) <==> token in TokensOf(s, a, Current(db1, a, e))))
  {
    hide DataKey, IndexKey, TokensOf, Reindexed;
    KeysDisjoint(a, e, a, token);
    ReindexedList(db1, a, e, gone, t1, token);
    ReindexedData(db1, a, e, gone, t1, a, e);
  }

  /**
   Such a mutation, when it changes the data list, keeps the index in
   agreement exactly when it makes the value itself empty, or the tokens of
   the empty value are the tokens of the current one.
   */
  lemma EmptyValueAgreement(db: Db, s: Schema, m: Mutation)
    requires EmptyValue(s, m) && Consistent(db, s)
    requires ListAt(Stored(db, m), DataKey(m.attr, m.entity)) != ListAt(db, DataKey(m.attr, m.entity))
    ensures var db2 := MutateIndexed(db, s, m).db;
      (forall token :: Agrees(db2, s, m.attr, m.entity, token))
      <==> m.edge.valueId == MAX_UINT64 || SameTokens(TokensOf(s, m.attr, Current(db, m.attr, m.entity)), SetTokens(s, m))
  {
    hide MutateIndexed, Stored, DataKey, IndexKey, Reindexed, PlainAttr, Agrees, ContentOk;
    var a, e, db1, db2 := m.attr, m.entity, Stored(db, m), MutateIndexed(db, s, m).db;
    var t0, t1 := TokensOf(s, a, Current(db, a, e)), SetTokens(s, m);
    assert AttrOk(db, s, a);
    EmptyValueShape(db, s, m);
    StoredOnly(db, m);
    forall token ensures Agrees(db2, s, a, e, token) <==> (token in t1 <==> token in TokensOf(s, a, Current(db1, a, e))) {
      ReindexedAgrees(db, db1, s, a, e, t0, t1, token);
    }
  }

  /**
   And once the value is empty, its tokens are never taken out again: the next
   value leaves the index in agreement exactly when it has all of them.
   */
  lemma AfterEmptyValue(db: Db, s: Schema, m: Mutation)
    requires Legal(s, m) && s.indexed(m.attr) && m.op == SET && m.edge.value.Some?
    requires Current(db, m.attr, m.entity).Some? && Current(db, m.attr, m.entity).value.0 == []
    requires forall token :: Agrees(db, s, m.attr, m.entity, token) && ContentOk(db, m.attr, token)
    ensures var db2 := MutateIndexed(db, s, m).db;
      (forall token :: Agrees(db2, s, m.attr, m.entity, token))
      <==> forall t :: t in TokensOf(s, m.attr, Current(db, m.attr, m.entity)) ==> t in SetTokens(s, m)
  {
    hide DataKey, IndexKey, Reindexed, PlainAttr, Agrees, ContentOk, MutateIndexed;
    var a, e, db1, db2 := m.attr, m.entity, Stored(db, m), MutateIndexed(db, s, m).db;
    AfterEmptyShape(db, s, m);
    StoredOnly(db, m);
    var t0, t1 := TokensOf(s, a, Current(db, a, e)), SetTokens(s, m);
    forall token ensures Agrees(db2, s, a, e, token) <==> (token in t0 ==> token in t1) {
      ReindexedAgrees(db, db1, s, a, e, [], t1, token);
    }
  }

  /** An empty value without tokens does no harm to the next one. */
  lemma AfterEmptyWithoutTokens(db: Db, s: Schema, m: Mutation)
    requires Legal(s, m) && s.indexed(m.attr) && m.op == SET && m.edge.value.Some?
    requires Current(db, m.attr, m.entity).Some? && Current(db, m.attr, m.entity).value.0 == []
    requires TokensOf(s, m.attr, Current(db, m.attr, m.entity)) == []
    requires forall token :: Agrees(db, s, m.attr, m.entity, token) && ContentOk(db, m.attr, token)
    ensures forall token :: Agrees(MutateIndexed(db, s, m).db, s, m.attr, m.entity, token)
  {
    hide Legal, MutateIndexed, Agrees, ContentOk, Current, TokensOf, SetTokens;
    AfterEmptyValue(db, s, m);
  }

  lemma AfterEmptyShape(db: Db, s: Schema, m: Mutation)
    requires Legal(s, m) && s.indexed(m.attr) && m.op == SET && m.edge.value.Some?
    requires Current(db, m.attr, m.entity).Some? && Current(db, m.attr, m.entity).value.0 == []
    ensures TokensOf(s, m.attr, Current(Stored(db, m), m.attr, m.entity)) == SetTokens(s, m)
    ensures MutateIndexed(db, s, m).db == Reindexed(Stored(db, m), m.attr, m.entity, [], SetTokens(s, m))
  {
    hide IndexAll, DataKey, PlainAttr;
    IndexNothing(Stored(db, m), m.attr, m.entity, true);
    IndexNothing(Stored(db, m), m.attr, m.entity, false);
  }

  // ---------- Two inputs ----------

  /** One attribute "a" whose values are their own tokens; the empty value has the given ones. */
  function ToySchema(empty: seq<bytes>): Schema {
    Schema(a => a == [0x61], (a, v, t) => Tokens(if v == [] then empty else [v]))
  }

  function SetEdge(value: bytes, valueId: uint64): Mutation {
    Mutation([0x61], 5, Edge(Some(value), valueId, 0, []), SET)
  }

  /** Setting a non-empty value where there was none makes it the current one. */
  lemma ToyValue(empty: seq<bytes>, db: Db, v: bytes)
    requires v != [] && ListAt(db, DataKey([0x61], 5)) == map[]
    ensures Legal(ToySchema(empty), SetEdge(v, 0)) && PlainAttr([0x61])
    ensures ListAt(MutateIndexed(db, ToySchema(empty), SetEdge(v, 0)).db, DataKey([0x61], 5)) == map[MAX_UINT64 := Content(v, 0, [])]
  {
    hide IndexAll, IndexKey, DataKey, MutateIndexed, Reindexed;
    var s, m := ToySchema(empty), SetEdge(v, 0);
    MutateShape(db, s, m);
    ReindexedData(Stored(db, m), m.attr, m.entity, TokensOf(s, m.attr, Current(db, m.attr, m.entity)),
                  TokensOf(s, m.attr, Current(Stored(db, m), m.attr, m.entity)), m.attr, m.entity);
  }

  lemma RunOne(db: Db, s: Schema, m: Mutation)
    ensures Run(db, s, [m]) == MutateIndexed(db, s, m).db
  {
    hide MutateIndexed;
    assert [m][1..] == [];
  }

  /** "x" has been set; the index agrees. */
  lemma ToyStart(empty: seq<bytes>) returns (db: Db)
    ensures db == Run(EmptyDb(), ToySchema(empty), [SetEdge([0x78], 0)]) && AttrOk(db, ToySchema(empty), [0x61])
    ensures Legal(ToySchema(empty), SetEdge([0x78], 0)) && PlainAttr([0x61]) && Consistent(db, ToySchema(empty))
    ensures ListAt(db, DataKey([0x61], 5)) == map[MAX_UINT64 := Content([0x78], 0, [])]
  {
    hide MutateIndexed, AttrOk, Legal, PlainAttr, DataKey, Run;
    var s, m := ToySchema(empty), SetEdge([0x78], 0);
    db := Run(EmptyDb(), s, [m]);
    RunOne(EmptyDb(), s, m);
    ToyValue(empty, EmptyDb(), [0x78]);
    EmptyConsistent(s);
    MutateKeeps(EmptyDb(), s, m);
  }

  /** Then the empty value, which has no tokens, with the uid 7: the value is still "x", but it is no longer listed under "x". */
  lemma EmptyValueExample()
    ensures var s, m1, m2 := ToySchema([]), SetEdge([0x78], 0), SetEdge([], 7);
      var db2 := MutateIndexed(Run(EmptyDb(), s, [m1]), s, m2).db;
      && Legal(s, m1) && EmptyValue(s, m2)
      && Current(db2, [0x61], 5) == Some(([0x78], 0)) && !Agrees(db2, s, [0x61], 5, [0x78])
  {
    hide IndexKey, DataKey, MutateIndexed, Reindexed, Agrees, ContentOk, Run;
    var s, m2 := ToySchema([]), SetEdge([], 7);
    var db := ToyStart([]);
    assert 7 in ListAt(Stored(db, m2), DataKey([0x61], 5));
    EmptyValueShape(db, s, m2);
    StoredOnly(db, m2);
    assert Agrees(db, s, [0x61], 5, [0x78]) && ContentOk(db, [0x61], [0x78]);
    ReindexedAgrees(db, Stored(db, m2), s, [0x61], 5, [[0x78]], [], [0x78]);
  }

  /** Or, if the empty value had the token "z": the empty value with the uid of values, and then "y". It is listed under "z" as well. */
  lemma EmptyThenSetExample()
    ensures var s, m1, m2, m3 := ToySchema([[0x7a]]), SetEdge([0x78], 0), SetEdge([], MAX_UINT64), SetEdge([0x79], 0);
      var db3 := MutateIndexed(MutateIndexed(Run(EmptyDb(), s, [m1]), s, m2).db, s, m3).db;
      && Legal(s, m1) && EmptyValue(s, m2) && Legal(s, m3)
      && exists token :: !Agrees(db3, s, [0x61], 5, token)
  {
    hide IndexKey, DataKey, MutateIndexed, Reindexed, Agrees, ContentOk, Run, AttrOk, IndexAll;
    var s, m2, m3 := ToySchema([[0x7a]]), SetEdge([], MAX_UINT64), SetEdge([0x79], 0);
    var db := ToyStart([[0x7a]]);
    var db2 := MutateIndexed(db, s, m2).db;
    AttrFacts(db, s, [0x61], 5);
    EmptyValueShape(db, s, m2);
    EmptyValueAgreement(db, s, m2);
    StoredOnly(db, m2);
    forall token ensures ContentOk(db2, [0x61], token) {
      AttrContent(db, s, [0x61], token);
      ReindexContent(db, Stored(db, m2), s, [0x61], 5, TokensOf(s, [0x61], Current(db, [0x61], 5)), SetTokens(s, m2), token);
    }
    ReindexedData(Stored(db, m2), [0x61], 5, TokensOf(s, [0x61], Current(db, [0x61], 5)), SetTokens(s, m2), [0x61], 5);
    assert [0x7a] in TokensOf(s, [0x61], Current(db2, [0x61], 5)) && SetTokens(s, m3) == [[0x79]];
    AfterEmptyValue(db2, s, m3);
  }

  lemma AttrContent(db: Db, s: Schema, attr: bytes, token: bytes)
    requires AttrOk(db, s, attr)
    ensures ContentOk(db, attr, token)
  {
  }
}
