/**
 The secondary index (`posting/index.go`). All posting lists, data and index
 alike, live in one map from key bytes to the view of the list; `MutateIndexed` is
 `AddMutationWithIndex` on that map.
 */
module Index {
  import opened Bytes
  import opened PostingLayers
  import PostingQueries
  import opened Edges
  import opened Keys
  import opened TokensTables

  /** Decoding a stored value and tokenising it, in one step. */
  datatype Tokenised = Undecodable | NotIndexable | Tokens(ts: seq<bytes>)

  /** Which attributes are indexed, and the tokens of (attribute, bytes, type). */
  datatype Schema = Schema(indexed: bytes -> bool, tokenise: (bytes, bytes, byte) -> Tokenised)

  /** What every key and every attribute means; lists and tables not seen yet are empty. */
  datatype Db = Db(lists: imap<bytes, View>, tables: imap<bytes, seq<bytes>>)

  ghost function EmptyDb(): Db {
    Db(imap k: bytes :: NoPostings(k), imap a: bytes :: NoTokens(a))
  }

  function NoPostings(key: bytes): View {
    map[]
  }

  function NoTokens(attr: bytes): seq<bytes> {
    []
  }

  datatype Mutation = Mutation(attr: bytes, entity: uint64, edge: Edge, op: uint32)

  /** The content of every posting of an index list: no value, label "idx". */
  const IDX: Content := Content([], 0, [0x69, 0x64, 0x78])

  function ListAt(db: Db, key: bytes): View {
    if key in db.lists then db.lists[key] else map[]
  }

  function TableAt(db: Db, attr: bytes): seq<bytes> {
    if attr in db.tables then db.tables[attr] else []
  }

  // ---------- Index mutations ----------

  /** `addIndexMutation` */
  function IndexOne(db: Db, attr: bytes, uid: uint64, token: bytes, del: bool): Db {
    var key := IndexKey(attr, token);
    Db(db.lists[key := Apply(ListAt(db, key), uid, IDX, if del then DEL else SET)],
       if del then db.tables else db.tables[attr := Insert(TableAt(db, attr), token)])
  }

  /** `addIndexMutations`, after tokenising */
  function IndexAll(db: Db, attr: bytes, uid: uint64, tokens: seq<bytes>, del: bool): Db
    decreases |tokens|
  {
    if tokens == [] then db
    else IndexAll(IndexOne(db, attr, uid, tokens[0], del), attr, uid, tokens[1..], del)
  }

  datatype Outcome = Applied | ZeroId | DecodeError
  datatype Mutated = Mutated(db: Db, outcome: Outcome)

  /** Index or unindex a value. */
  function IndexValue(db: Db, s: Schema, attr: bytes, uid: uint64, value: bytes, vtype: byte, del: bool): Mutated {
    match s.tokenise(attr, value, vtype)
    case Undecodable => Mutated(db, DecodeError)
    case NotIndexable => Mutated(db, Applied)
    case Tokens(ts) => Mutated(IndexAll(db, attr, uid, ts, del), Applied)
  }

  /** The index work of a mutation whose list held the value `v`. */
  function Reindex(db: Db, s: Schema, m: Mutation, v: Option<(bytes, byte)>): Mutated {
    var r := if v.Some? && v.value.0 != [] then IndexValue(db, s, m.attr, m.entity, v.value.0, v.value.1, true)
             else Mutated(db, Applied);
    if r.outcome == DecodeError || m.op != SET then r
    else IndexValue(r.db, s, m.attr, m.entity, EdgeBytes(m.edge), m.edge.valueType % 256, false)
  }

  /** `AddMutationWithIndex` */
  function MutateIndexed(db: Db, s: Schema, m: Mutation): Mutated {
    var key := DataKey(m.attr, m.entity);
    var before := ListAt(db, key);
    var uid := EdgeUid(m.edge);
    if uid == 0 then Mutated(db, ZeroId) else
    var after := Apply(before, uid, EdgeContent(m.edge), m.op);
    var db1 := db.(lists := db.lists[key := after]);
    if after == before || m.edge.value.None? || !s.indexed(m.attr) then Mutated(db1, Applied)
    else Reindex(db1, s, m, PostingQueries.ValueOf(before))
  }

  function Run(db: Db, s: Schema, ms: seq<Mutation>): Db
    decreases |ms|
  {
    if ms == [] then db else Run(MutateIndexed(db, s, ms[0]).db, s, ms[1..])
  }

  // ---------- What the index should say ----------

  /** The current value of an entity. */
  function Current(db: Db, attr: bytes, uid: uint64): Option<(bytes, byte)> {
    PostingQueries.ValueOf(ListAt(db, DataKey(attr, uid)))
  }

  function TokensOf(s: Schema, attr: bytes, v: Option<(bytes, byte)>): seq<bytes> {
    if v.Some? && s.tokenise(attr, v.value.0, v.value.1).Tokens? then s.tokenise(attr, v.value.0, v.value.1).ts else []
  }

  /** `uid` is listed under `token` exactly when its current value has that token. */
  ghost predicate Agrees(db: Db, s: Schema, attr: bytes, uid: uint64, token: bytes) {
    uid in ListAt(db, IndexKey(attr, token)) <==> token in TokensOf(s, attr, Current(db, attr, uid))
  }

  ghost predicate ContentOk(db: Db, attr: bytes, token: bytes) {
    var l := ListAt(db, IndexKey(attr, token));
    forall u :: u in l ==> l[u] == IDX && token in TableAt(db, attr)
  }

  predicate Decodable(s: Schema, attr: bytes, v: Option<(bytes, byte)>) {
    v.Some? ==> v.value.0 != [] && !s.tokenise(attr, v.value.0, v.value.1).Undecodable?
  }

  ghost predicate AttrOk(db: Db, s: Schema, attr: bytes) {
    && SortedTokens(TableAt(db, attr))
    && (forall uid: uint64, token :: Agrees(db, s, attr, uid, token))
    && (forall token :: ContentOk(db, attr, token))
    && (forall uid: uint64 :: Decodable(s, attr, Current(db, attr, uid)))
  }

  /** The invariant: every indexed attribute agrees with its values. */
  ghost predicate Consistent(db: Db, s: Schema) {
    forall attr :: PlainAttr(attr) && s.indexed(attr) ==> AttrOk(db, s, attr)
  }

  /** Mutations as the Raft apply loop hands them over: values are non-empty and decodable, uid edges below the value uid. */
  predicate Legal(s: Schema, m: Mutation) {
    && PlainAttr(m.attr) && m.entity != 0 && (m.op == SET || m.op == DEL)
    && match m.edge.value
       case None => 0 < m.edge.valueId < MAX_UINT64
       case Some(v) => v != [] && (m.op == SET ==> !s.tokenise(m.attr, v, m.edge.valueType % 256).Undecodable?)
  }

  // ---------- Effect of index mutations ----------

  lemma {:induction false} IndexAllLists(db: Db, attr: bytes, uid: uint64, ts: seq<bytes>, del: bool, key: bytes)
    requires PlainAttr(attr)
    ensures (forall t :: t in ts ==> key != IndexKey(attr, t)) ==>
              ListAt(IndexAll(db, attr, uid, ts, del), key) == ListAt(db, key)
    ensures (exists t :: t in ts && key == IndexKey(attr, t)) ==>
              ListAt(IndexAll(db, attr, uid, ts, del), key) == Apply(ListAt(db, key), uid, IDX, if del then DEL else SET)
    decreases |ts|
  {
    hide IndexKey, Apply;
    if ts != [] {
      assert ts == [ts[0]] + ts[1..];
      var db' := IndexOne(db, attr, uid, ts[0], del);
      IndexAllLists(db', attr, uid, ts[1..], del, key);
      ApplyTwice(ListAt(db, key), uid, if del then DEL else SET);
    }
  }

  lemma ApplyTwice(v: View, uid: uint64, op: uint32)
    ensures Apply(Apply(v, uid, IDX, op), uid, IDX, op) == Apply(v, uid, IDX, op)
  {
  }

  lemma {:induction false} IndexAllTables(db: Db, attr: bytes, uid: uint64, ts: seq<bytes>, del: bool)
    requires SortedTokens(TableAt(db, attr))
    ensures SortedTokens(TableAt(IndexAll(db, attr, uid, ts, del), attr))
    ensures forall t :: t in TableAt(IndexAll(db, attr, uid, ts, del), attr) <==> t in TableAt(db, attr) || (!del && t in ts)
    ensures forall a :: a != attr ==> TableAt(IndexAll(db, attr, uid, ts, del), a) == TableAt(db, a)
    decreases |ts|
  {
    hide SortedTokens, Insert, Apply;
    if ts != [] {
      InsertLaw(TableAt(db, attr), ts[0]);
      IndexAllTables(IndexOne(db, attr, uid, ts[0], del), attr, uid, ts[1..], del);
      assert ts == [ts[0]] + ts[1..];
    }
  }
}
