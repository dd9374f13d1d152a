/**
 `AddMutationWithIndex` as the source runs it, on real objects: read the old
 value from the data list, mutate that list, then walk over the tokens and
 mutate one index list and the token table after the other. All lists live in
 one store, are opened on demand and may be committed at any time.
 */
module IndexServer {
  import opened Bytes
  import opened Codec
  import opened PostingLayers
  import PostingQueries
  import opened Edges
  import opened Keys
  import opened TokensTables
  import opened Index
  import opened IndexLaws
  import TableBuild
  import Lists

  ghost function StoredPostings(data: map<bytes, bytes>, key: bytes): seq<Posting> {
    var s := Lists.StoredList(data, key);
    if s.Ok? then s.value.postings else []
  }

  datatype Step = Mutate(m: Mutation, now: int) | Commit(key: bytes) {
    predicate Ok() {
      Mutate? ==> m.entity != 0 && (m.op == SET || m.op == DEL) && now != 0
    }
  }

  function WithList(db: Db, key: bytes, view: View): Db {
    db.(lists := db.lists[key := view])
  }

  /** The mutations of a run. */
  function Mutations(steps: seq<Step>): seq<Mutation> {
    if steps == [] then [] else (if steps[0].Mutate? then [steps[0].m] else []) + Mutations(steps[1..])
  }

  class Postings {
    const schema: Schema
    const pstore: Lists.Store
    var lists: map<bytes, Lists.List>
    var tables: map<bytes, TokensTable>

    ghost predicate ListsOk()
      reads this`lists, pstore, lists.Values
    {
      && (forall k :: Lists.Loadable(pstore.data, k))
      && (forall k :: k in lists ==> lists[k].key == k && lists[k].pstore == pstore && !lists[k].deleteMe && lists[k].Valid())
    }

    ghost predicate TablesOk()
      reads this`tables, tables.Values
    {
      && (forall a, b :: a in tables && b in tables && a != b ==> tables[a] != tables[b])
      && (forall a :: a in tables ==> SortedTokens(tables[a].key))
      && (forall a :: schema.indexed(a) ==> a in tables)
    }

    ghost predicate Valid()
      reads this, pstore, lists.Values, tables.Values
    {
      ListsOk() && TablesOk()
    }

    /** What the list under a key means, whether it is open or only stored. */
    ghost function ListView(key: bytes): View
      reads this`lists, pstore, lists.Values
    {
      ViewOf(StoredPostings(pstore.data, key), if key in lists then lists[key].mlayer else [])
    }

    ghost function Table(attr: bytes): seq<bytes>
      reads this`tables, tables.Values
    {
      if attr in tables then tables[attr].key else []
    }

    /** What all lists and tables mean. */
    ghost function State(): Db
      reads this, pstore, lists.Values, tables.Values
    {
      Db(imap k: bytes :: ListView(k), imap a: bytes :: Table(a))
    }

    /** `initIndex`: opens a store; the token tables are read off its keys. */
    constructor (schema: Schema, attrs: seq<bytes>, pstore: Lists.Store)
      requires forall a :: schema.indexed(a) <==> a in attrs
      requires forall a :: a in attrs ==> PlainAttr(a)
      requires forall k :: Lists.Loadable(pstore.data, k)
      ensures Valid() && this.schema == schema && this.pstore == pstore && lists == map[]
      ensures forall a :: a in tables ==> fresh(tables[a])
      ensures forall k :: ListView(k) == ViewOf(StoredPostings(pstore.data, k), [])
      ensures forall a, t :: schema.indexed(a) ==> (t in Table(a) <==> IndexKey(a, t) in pstore.data)
      ensures forall a :: !schema.indexed(a) ==> Table(a) == []
    {
      this.schema := schema;
      this.pstore := pstore;
      this.lists := map[];
      this.tables := map[];
      new;
      for i := 0 to |attrs|
        invariant lists == map[]
        invariant tables.Keys == set a | a in attrs[..i]
        invariant forall a :: a in tables ==> fresh(tables[a])
        invariant forall a, b :: a in tables && b in tables && a != b ==> tables[a] != tables[b]
        invariant forall a :: a in tables ==> SortedTokens(tables[a].key)
        invariant forall a, t :: a in tables ==> (t in tables[a].key <==> IndexKey(a, t) in pstore.data)
      {
        var table := TableBuild.BuildTable(pstore.data, attrs[i]);
        tables := tables[attrs[i] := table];
      }
    }

    /** `GetOrCreate` */
    method GetOrCreate(key: bytes) returns (l: Lists.List)
      requires ListsOk()
      modifies this`lists
      ensures ListsOk() && key in lists && lists[key] == l
      ensures forall k :: ListView(k) == old(ListView(k))
      ensures fresh(lists.Values - old(lists.Values))
    {
      hide ViewOf, StoredPostings, Lists.List.Contents, Lists.List.Valid, Lists.Loadable;
      if key in lists {
        return lists[key];
      }
      l := new Lists.List(key, pstore);
      lists := lists[key := l];
    }

    method OpenAndRead(key: bytes) returns (v: Option<(bytes, byte)>)
      requires ListsOk()
      modifies this`lists, lists.Values
      ensures ListsOk() && fresh(lists.Values - old(lists.Values))
      ensures forall k :: ListView(k) == old(ListView(k))
      ensures v == PostingQueries.ValueOf(ListView(key))
    {
      hide ViewOf, StoredPostings, Lists.List.Contents, Lists.List.Valid, Lists.Loadable, PostingQueries.ValueOf;
      var l := GetOrCreate(key);
      OpenView(this, key);
      v := l.Value();
      OpenView(this, key);
    }

    method OpenAndMutate(key: bytes, edge: Edge, op: uint32, now: int) returns (r: Option<bool>)
      requires ListsOk() && (op == SET || op == DEL) && now != 0
      modifies this`lists, lists.Values
      ensures ListsOk() && fresh(lists.Values - old(lists.Values))
      ensures r.None? <==> EdgeUid(edge) == 0
      ensures r.None? ==> forall k :: ListView(k) == old(ListView(k))
      ensures r.Some? ==> forall k :: k != key ==> ListView(k) == old(ListView(k))
      ensures r.Some? ==> ListView(key) == Apply(old(ListView(key)), EdgeUid(edge), EdgeContent(edge), op)
      ensures r.Some? ==> (r.value <==> ListView(key) != old(ListView(key)))
    {
      hide ViewOf, StoredPostings, Lists.List.Contents, Lists.List.Valid, Lists.Loadable, Apply;
      var l := GetOrCreate(key);
      OpenView(this, key);
      var done := l.AddMutation(edge, op, now);
      OpenView(this, key);
      r := if done.Done? then Some(done.changed) else None;
    }

    /** An open list whose message no buffer can hold. */
    ghost predicate Unstorable(key: bytes, md5: bytes -> bytes)
      reads this`lists, pstore, lists.Values
    {
      key in lists && lists[key].mlayer != [] && Lists.TooLong(StoredPostings(pstore.data, key), lists[key].mlayer, md5)
    }

    /** `CommitIfDirty` of an open list: nothing changes its meaning, whatever is stored. */
    method CommitList(key: bytes, md5: bytes -> bytes) returns (panicked: bool)
      requires ListsOk()
      modifies lists.Values, pstore
      ensures ListsOk() && lists == old(lists)
      ensures forall k :: ListView(k) == old(ListView(k))
      ensures panicked <==> old(Unstorable(key, md5))
      ensures panicked ==> Unstorable(key, md5)
      ensures !panicked && key in lists ==> lists[key].mlayer == []
      ensures forall k :: k in lists && k != key ==> lists[k].mlayer == old(lists[k].mlayer)
    {
      hide ViewOf, Layered, Lists.StoredList, Lists.TooLong, Lists.List.Contents, Sorted;
      panicked := false;
      if key in lists {
        var l := lists[key];
        OpenView(this, key);
        ghost var before := pstore.data;
        var r := l.CommitIfDirty(md5);
        panicked := r.Panicked?;
        SameElsewhere(before, pstore.data, key);
        forall k ensures Lists.Loadable(pstore.data, k) {
          assert k != key ==> Lists.Loadable(before, k);
        }
        OpenView(this, key);
      }
    }

    method AddToTable(attr: bytes, token: bytes)
      requires TablesOk() && schema.indexed(attr)
      modifies tables.Values
      ensures TablesOk() && Table(attr) == Insert(old(Table(attr)), token)
      ensures forall a :: a != attr ==> Table(a) == old(Table(a))
    {
      hide SortedTokens, Insert;
      tables[attr].Add(token);
    }

    /** `Value` of the list under a key */
    method ValueAt(key: bytes) returns (v: Option<(bytes, byte)>)
      requires Valid()
      modifies this`lists, lists.Values
      ensures Valid() && State() == old(State()) && fresh(lists.Values - old(lists.Values))
      ensures v == PostingQueries.ValueOf(ListAt(State(), key))
    {
      hide ListsOk, TablesOk, ListView, Table, PostingQueries.ValueOf;
      ghost var start := State();
      v := OpenAndRead(key);
      StateIs(this, start);
    }

    /** `AddMutation` of the list under a key; `None` is the error for a zero uid. */
    method AddMutation(key: bytes, edge: Edge, op: uint32, now: int) returns (r: Option<bool>)
      requires Valid() && (op == SET || op == DEL) && now != 0
      modifies this`lists, lists.Values
      ensures Valid() && fresh(lists.Values - old(lists.Values))
      ensures r.None? <==> EdgeUid(edge) == 0
      ensures r.None? ==> State() == old(State())
      ensures r.Some? ==> State() == WithList(old(State()), key, Apply(ListAt(old(State()), key), EdgeUid(edge), EdgeContent(edge), op))
      ensures r.Some? ==> (r.value <==> ListAt(State(), key) != ListAt(old(State()), key))
    {
      hide ListsOk, TablesOk, ListView, Table, Apply;
      ghost var start := State();
      r := OpenAndMutate(key, edge, op, now);
      StateIs(this, if r.None? then start else WithList(start, key, Apply(ListAt(start, key), EdgeUid(edge), EdgeContent(edge), op)));
    }

    /** `TokensTable.Add` for an attribute */
    method AddToken(attr: bytes, token: bytes)
      requires Valid() && schema.indexed(attr)
      modifies tables.Values
      ensures Valid()
      ensures State() == old(State()).(tables := old(State()).tables[attr := Insert(TableAt(old(State()), attr), token)])
    {
      hide ListsOk, TablesOk, ListView, Table, Insert;
      ghost var start := State();
      AddToTable(attr, token);
      StateIs(this, start.(tables := start.tables[attr := Insert(TableAt(start, attr), token)]));
    }

    /** `addIndexMutation` */
    method AddIndexMutation(attr: bytes, token: bytes, uid: uint64, del: bool, now: int)
      requires Valid() && uid != 0 && now != 0 && schema.indexed(attr)
      modifies this`lists, lists.Values, tables.Values
      ensures Valid() && fresh(lists.Values - old(lists.Values))
      ensures State() == IndexOne(old(State()), attr, uid, token, del)
    {
      hide Valid, State, Apply, Insert, IndexKey;
      var edge := Edge(None, uid, 0, IDX.lbl);
      var _ := AddMutation(IndexKey(attr, token), edge, if del then DEL else SET, now);
      if !del {
        AddToken(attr, token);
      }
    }

    /** `addIndexMutations` for a value; false is a value that does not decode. */
    method AddIndexMutations(attr: bytes, uid: uint64, value: bytes, vtype: byte, del: bool, now: int) returns (decoded: bool)
      requires Valid() && uid != 0 && now != 0 && schema.indexed(attr)
      modifies this`lists, lists.Values, tables.Values
      ensures Valid() && fresh(lists.Values - old(lists.Values))
      ensures Mutated(State(), if decoded then Applied else DecodeError)
           == IndexValue(old(State()), schema, attr, uid, value, vtype, del)
    {
      hide IndexOne, State, Valid;
      var tokenised := schema.tokenise(attr, value, vtype);
      if tokenised.Undecodable? {
        return false;
      }
      if tokenised.NotIndexable? {
        return true;
      }
      var tokens := tokenised.ts;
      ghost var start := State();
      for i := 0 to |tokens|
        invariant Valid() && fresh(lists.Values - old(lists.Values))
        invariant IndexAll(start, attr, uid, tokens, del) == IndexAll(State(), attr, uid, tokens[i..], del)
      {
        assert tokens[i..][0] == tokens[i] && tokens[i..][1..] == tokens[i + 1..];
        AddIndexMutation(attr, tokens[i], uid, del, now);
      }
      return true;
    }

    /** The index work that follows the mutation of a list which held the value `v`. */
    method UpdateIndex(m: Mutation, v: Option<(bytes, byte)>, now: int) returns (outcome: Outcome)
      requires Valid() && m.entity != 0 && now != 0 && schema.indexed(m.attr)
      modifies this`lists, lists.Values, tables.Values
      ensures Valid() && fresh(lists.Values - old(lists.Values))
      ensures Mutated(State(), outcome) == Reindex(old(State()), schema, m, v)
    {
      hide Valid, State, IndexValue;
      if v.Some? && |v.value.0| > 0 {
        var decoded := AddIndexMutations(m.attr, m.entity, v.value.0, v.value.1, true, now);
        if !decoded {
          return DecodeError;
        }
      }
      if m.op == SET {
        var decoded := AddIndexMutations(m.attr, m.entity, EdgeBytes(m.edge), m.edge.valueType % 256, false, now);
        if !decoded {
          return DecodeError;
        }
      }
      return Applied;
    }

    /** `AddMutationWithIndex` */
    method AddMutationWithIndex(m: Mutation, now: int) returns (outcome: Outcome)
      requires Valid() && m.entity != 0 && (m.op == SET || m.op == DEL) && now != 0
      modifies this`lists, lists.Values, tables.Values
      ensures Valid() && fresh(lists.Values - old(lists.Values))
      ensures Mutated(State(), outcome) == MutateIndexed(old(State()), schema, m)
    {
      hide Valid, State, Reindex, DataKey, Apply, PostingQueries.ValueOf;
      var key := DataKey(m.attr, m.entity);
      var doUpdateIndex := m.edge.value.Some? && schema.indexed(m.attr);
      var v: Option<(bytes, byte)> := None;
      if doUpdateIndex {
        v := ValueAt(key);
      }
      var hasMutated := AddMutation(key, m.edge, m.op, now);
      if hasMutated.None? {
        return ZeroId;
      }
      if !hasMutated.value || !doUpdateIndex {
        return Applied;
      }
      outcome := UpdateIndex(m, v, now);
    }

    /** A commit changes what is stored and nothing that it means. */
    method CommitKey(key: bytes, md5: bytes -> bytes) returns (panicked: bool)
      requires Valid()
      modifies lists.Values, pstore
      ensures Valid() && State() == old(State())
      ensures panicked <==> old(Unstorable(key, md5))
      ensures panicked ==> Unstorable(key, md5)
      ensures !panicked && key in lists ==> lists[key].mlayer == []
      ensures forall k :: k in lists && k != key ==> lists[k].mlayer == old(lists[k].mlayer)
    {
      hide ListsOk, TablesOk, ListView, Table, Unstorable;
      ghost var start := State();
      panicked := CommitList(key, md5);
      StateIs(this, start);
    }

    /**
     Every run of mutations and commits, in any order: what all the lists and
     tables mean is what the mutations alone make of it, and the index agrees
     with the values throughout.
     */
    method Run(steps: seq<Step>, md5: bytes -> bytes) returns (panicked: bool)
      requires Valid() && forall s :: s in steps ==> s.Ok()
      modifies this`lists, lists.Values, tables.Values, pstore
      ensures Valid() && fresh(lists.Values - old(lists.Values))
      ensures panicked ==> exists k :: Unstorable(k, md5)
      ensures !panicked ==> State() == Index.Run(old(State()), schema, Mutations(steps))
      ensures !panicked && Consistent(old(State()), schema) && (forall m :: m in Mutations(steps) ==> Legal(schema, m)) ==>
        Consistent(State(), schema)
    {
      hide Valid, State, MutateIndexed, Consistent, Legal, Unstorable;
      panicked := false;
      ghost var start := State();
      for i := 0 to |steps|
        invariant Valid() && fresh(lists.Values - old(lists.Values))
        invariant Index.Run(start, schema, Mutations(steps)) == Index.Run(State(), schema, Mutations(steps[i..]))
      {
        var step, rest := steps[i], Mutations(steps[i + 1..]);
        assert steps[i..][0] == step && steps[i..][1..] == steps[i + 1..];
        match step {
          case Mutate(m, now) =>
            assert step.Ok();
            assert ([m] + rest)[1..] == rest;
            var _ := AddMutationWithIndex(m, now);
          case Commit(key) =>
            assert [] + rest == rest;
            panicked := CommitKey(key, md5);
            if panicked {
              return;
            }
        }
      }
      if Consistent(start, schema) && forall m :: m in Mutations(steps) ==> Legal(schema, m) {
        RunKeeps(start, schema, Mutations(steps));
      }
    }

    /** Commits every open list. */
    method CommitAll(md5: bytes -> bytes) returns (panicked: bool)
      requires Valid()
      modifies lists.Values, pstore
      ensures Valid() && State() == old(State())
      ensures panicked ==> exists k :: Unstorable(k, md5)
      ensures !panicked ==> forall k :: k in lists ==> lists[k].mlayer == []
    {
      hide Valid, State, Unstorable;
      panicked := false;
      var keys := lists.Keys;
      while keys != {}
        invariant Valid() && State() == old(State()) && keys <= lists.Keys
        invariant forall k :: k in lists && k !in keys ==> lists[k].mlayer == []
        decreases |keys|
      {
        var k :| k in keys;
        keys := keys - {k};
        panicked := CommitKey(k, md5);
        if panicked {
          return;
        }
      }
    }

    /**
     Commit everything, then start again on the same store: every list means
     what it meant, and although the token tables are read off the keys anew
     and may have lost unused tokens, the index still agrees with the values.
     */
    method Restart(attrs: seq<bytes>, md5: bytes -> bytes) returns (panicked: bool, next: Postings)
      requires Valid()
      requires (forall a :: schema.indexed(a) <==> a in attrs) && forall a :: a in attrs ==> PlainAttr(a)
      modifies lists.Values, pstore
      ensures panicked ==> exists k :: Unstorable(k, md5)
      ensures !panicked ==> next.Valid() && next.schema == schema
      ensures !panicked ==> forall k :: ListAt(next.State(), k) == ListAt(old(State()), k)
      ensures !panicked && Consistent(old(State()), schema) ==> Consistent(next.State(), schema)
    {
      hide ViewOf, Lists.Loadable, Lists.List.Valid, StoredPostings, Unstorable, TablesOk, Consistent, IndexKey, SortedTokens;
      ghost var start := State();
      panicked := CommitAll(md5);
      next := this;
      if panicked {
        return;
      }
      next := new Postings(schema, attrs, pstore);
      ghost var db := next.State();
      forall k ensures ListAt(db, k) == ListAt(start, k) {
        assert ListView(k) == start.lists[k];
      }
      if Consistent(start, schema) {
        forall a, t | schema.indexed(a) && ListAt(start, IndexKey(a, t)) != map[] ensures t in TableAt(db, a) {
          assert ListView(IndexKey(a, t)) == start.lists[IndexKey(a, t)];
          StoredKey(pstore.data, IndexKey(a, t));
        }
        forall a ensures SortedTokens(TableAt(db, a)) { NextSorted(next, a); }
        ReopenKeeps(start, db, schema);
      }
    }
  }

  /** A list with contents has its key in the store. */
  lemma StoredKey(data: map<bytes, bytes>, key: bytes)
    ensures ViewOf(StoredPostings(data, key), []) != map[] ==> key in data
  {
  }

  /** An open list means what the server says it means. */
  lemma OpenView(p: Postings, key: bytes)
    requires p.ListsOk() && key in p.lists
    ensures p.lists[key].Valid() && p.lists[key].pstore == p.pstore && !p.lists[key].deleteMe
    ensures p.lists[key].Contents() == p.ListView(key)
  {
  }

  lemma StateIs(p: Postings, db: Db)
    requires forall k :: k in db.lists && p.ListView(k) == db.lists[k]
    requires forall a :: a in db.tables && p.Table(a) == db.tables[a]
    ensures p.State() == db
  {
    hide Postings.ListView, Postings.Table;
    assert p.State().lists == db.lists;
    assert p.State().tables == db.tables;
  }

  lemma NextSorted(p: Postings, attr: bytes)
    requires p.TablesOk()
    ensures SortedTokens(p.Table(attr))
  {
  }

  /** The same lists with other tables: all that matters is that tokens in use are known. */
  lemma ReopenKeeps(db: Db, db': Db, s: Schema)
    requires Consistent(db, s)
    requires forall k :: ListAt(db', k) == ListAt(db, k)
    requires forall a :: SortedTokens(TableAt(db', a))
    requires forall a, t :: s.indexed(a) && ListAt(db, IndexKey(a, t)) != map[] ==> t in TableAt(db', a)
    ensures Consistent(db', s)
  {
    hide IndexKey, DataKey, SortedTokens, PlainAttr;
    forall a | PlainAttr(a) && s.indexed(a) ensures AttrOk(db', s, a) {
      assert AttrOk(db, s, a);
      forall u: uint64, t ensures Agrees(db', s, a, u, t) { assert Agrees(db, s, a, u, t); }
      forall t ensures ContentOk(db', a, t) { assert ContentOk(db, a, t); }
      forall u: uint64 ensures Decodable(s, a, Current(db', a, u)) { assert Decodable(s, a, Current(db, a, u)); }
    }
  }

  lemma SameElsewhere(before: map<bytes, bytes>, after: map<bytes, bytes>, key: bytes)
    requires after - {key} == before - {key}
    ensures forall k :: k != key ==> Lists.StoredList(after, k) == Lists.StoredList(before, k)
  {
    forall k | k != key ensures Lists.StoredList(after, k) == Lists.StoredList(before, k) {
      assert k in after <==> k in after - {key};
      assert k in before <==> k in before - {key};
    }
  }
}
