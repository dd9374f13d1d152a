/** What the bucket sort needs of an attribute holds after every run of mutations. */
module IndexedSort {
  import opened Bytes
  import opened Codec
  import opened Seqs
  import opened PostingLayers
  import opened Keys
  import opened TokensTables
  import UidLists
  import opened Index
  import opened IndexLaws
  import opened BucketSort
  import opened BucketOrder

  /** The tokeniser never yields the empty token, which ends a walk over the table. */
  ghost predicate NoEmptyToken(s: Schema, attr: bytes) {
    forall v, t :: s.tokenise(attr, v, t).Tokens? ==> [] !in s.tokenise(attr, v, t).ts
  }

  ghost predicate Clean(db: Db, attr: bytes) {
    [] !in TableAt(db, attr) && Current(db, attr, 0).None?
  }

  lemma ReindexClean(db: Db, s: Schema, attr: bytes, uid: uint64, t0: seq<bytes>, t1: seq<bytes>, b: bytes)
    requires PlainAttr(attr) && PlainAttr(b) && SortedTokens(TableAt(db, attr))
    requires Clean(db, b) && (b == attr ==> [] !in t1)
    ensures Clean(Reindexed(db, attr, uid, t0, t1), b)
  {
    hide IndexAll, SortedTokens, DataKey;
    IndexAllTables(db, attr, uid, t0, true);
    IndexAllTables(IndexAll(db, attr, uid, t0, true), attr, uid, t1, false);
    ReindexedData(db, attr, uid, t0, t1, b, 0);
  }

  lemma StoredClean(db: Db, m: Mutation, b: bytes)
    requires PlainAttr(m.attr) && PlainAttr(b) && m.entity != 0 && Clean(db, b)
    ensures Clean(Stored(db, m), b)
  {
    hide DataKey, PlainAttr;
    if DataKey(m.attr, m.entity) == DataKey(b, 0) { DataKeyInjective(m.attr, m.entity, b, 0); }
  }

  lemma MutateClean(db: Db, s: Schema, m: Mutation, b: bytes)
    requires Consistent(db, s) && Legal(s, m)
    requires PlainAttr(b) && s.indexed(b) && NoEmptyToken(s, b) && Clean(db, b)
    ensures Clean(MutateIndexed(db, s, m).db, b)
  {
    hide MutateIndexed, Stored, AttrOk, Reindexed, Clean;
    var db1 := Stored(db, m);
    StoredClean(db, m, b);
    if !s.indexed(m.attr) {
      UnindexedShape(db, s, m);
    } else {
      AttrFacts(db, s, m.attr, m.entity);
      MutateShape(db, s, m);
      StoredOnly(db, m);
      var t0, t1 := TokensOf(s, m.attr, Current(db, m.attr, m.entity)), TokensOf(s, m.attr, Current(db1, m.attr, m.entity));
      ReindexClean(db1, s, m.attr, m.entity, t0, t1, b);
    }
  }

  lemma {:induction false} RunClean(db: Db, s: Schema, ms: seq<Mutation>, b: bytes)
    requires Consistent(db, s) && forall m :: m in ms ==> Legal(s, m)
    requires PlainAttr(b) && s.indexed(b) && NoEmptyToken(s, b) && Clean(db, b)
    ensures Clean(Run(db, s, ms), b)
    decreases |ms|
  {
    hide MutateIndexed, Consistent, Legal, Clean, NoEmptyToken;
    if ms != [] {
      MutateClean(db, s, ms[0], b);
      MutateKeeps(db, s, ms[0]);
      RunClean(MutateIndexed(db, s, ms[0]).db, s, ms[1..], b);
    }
  }

  /** `a` is how a sort sees `attr` in `db`: the same table, and lists with the same view. */
  ghost predicate Shows(a: Attribute, db: Db, attr: bytes) {
    && a.table == TableAt(db, attr)
    && (forall t {:trigger a.layers(t)} :: Sorted(a.layers(t).0) && Sorted(a.layers(t).1))
    && (forall t :: BucketView(a, t) == ListAt(db, IndexKey(attr, t)))
  }

  /** One integer key per value, and readable values. */
  ghost predicate Presents(a: Attribute, b: Bucket, db: Db, s: Schema, attr: bytes) {
    && Shows(a, db, attr)
    && (forall u: uint64 :: TokensOf(s, attr, Current(db, attr, u)) == if b(u).Some? then [Token(b, u)] else [])
    && (forall u: uint64 :: b(u).Some? ==> a.readable(u))
  }

  lemma ShowsOk(a: Attribute, db: Db, s: Schema, attr: bytes)
    requires Shows(a, db, attr) && AttrOk(db, s, attr) && Clean(db, attr)
    ensures AttributeOk(a)
  {
  }

  lemma ViewAgrees(a: Attribute, db: Db, s: Schema, attr: bytes, t: bytes, u: uint64)
    requires Shows(a, db, attr) && AttrOk(db, s, attr)
    ensures u in BucketView(a, t) <==> t in TokensOf(s, attr, Current(db, attr, u))
    ensures u in BucketView(a, t) ==> t in a.table
  {
    hide SortedTokens, Sorted, BucketView, IndexKey, TokensOf, Current;
    assert Agrees(db, s, attr, u, t) && ContentOk(db, attr, t);
    assert BucketView(a, t) == ListAt(db, IndexKey(attr, t));
  }

  lemma PresentsOk(a: Attribute, b: Bucket, db: Db, s: Schema, attr: bytes)
    requires Presents(a, b, db, s, attr) && AttrOk(db, s, attr) && KeysFollowValues(a, b)
    ensures Keyed(a, b)
  {
    hide Shows, AttrOk, KeysFollowValues, BucketView, Token, TokensOf, Current;
    forall t, u: uint64 ensures u in BucketView(a, t) <==> b(u).Some? && Token(b, u) == t { ViewAgrees(a, db, s, attr, t, u); }
    forall u: uint64 | b(u).Some? ensures Token(b, u) in a.table { ViewAgrees(a, db, s, attr, Token(b, u), u); }
  }

  /** What holds of `attr` after every run of legal mutations from an empty store. */
  lemma RunOk(s: Schema, ms: seq<Mutation>, attr: bytes)
    requires (forall m :: m in ms ==> Legal(s, m)) && PlainAttr(attr) && s.indexed(attr) && NoEmptyToken(s, attr)
    ensures var db := Run(EmptyDb(), s, ms); AttrOk(db, s, attr) && Clean(db, attr)
  {
    hide Run, AttrOk, Legal, NoEmptyToken, PlainAttr;
    EmptyConsistent(s);
    assert Clean(EmptyDb(), attr);
    RunKeeps(EmptyDb(), s, ms);
    RunClean(EmptyDb(), s, ms, attr);
  }

  /** After every run of legal mutations, the index is fit for the bucket sort. */
  lemma SortableAfterRun(s: Schema, ms: seq<Mutation>, attr: bytes, a: Attribute, b: Bucket)
    requires (forall m :: m in ms ==> Legal(s, m)) && PlainAttr(attr) && s.indexed(attr) && NoEmptyToken(s, attr)
    requires Presents(a, b, Run(EmptyDb(), s, ms), s, attr) && KeysFollowValues(a, b)
    ensures AttributeOk(a) && Keyed(a, b)
  {
    hide Run, Shows, AttributeOk, Keyed, KeysFollowValues, AttrOk, Clean, Legal, NoEmptyToken, PlainAttr, Token, TokensOf, Current;
    var db := Run(EmptyDb(), s, ms);
    RunOk(s, ms, attr);
    ShowsOk(a, db, s, attr);
    PresentsOk(a, b, db, s, attr);
  }

  /** A row is the window of an arrangement of its uids with a value, which is sorted by value exactly if the keys do not mix signs. */
  ghost predicate SortedWindow(a: Attribute, b: Bucket, row: seq<uint64>, offset: int, count: nat, r: seq<uint64>) {
    exists full ::
      && BucketSorted(a, b, row, full) && r == Window(full, NonNegative(offset), count)
      && (Ranked(a, full) <==> SameSign(b, row))
  }

  lemma RowSorted(a: Attribute, b: Bucket, row: seq<uint64>, offset: int, count: nat, r: seq<uint64>)
    requires AttributeOk(a) && Keyed(a, b) && IsWindow(a, row, offset, count, r)
    ensures SortedWindow(a, b, row, offset, count, r)
  {
    hide IsWindow, AttributeOk, BucketSorted, Ranked, SameSign, Window, BucketView, KeysFollowValues;
    WindowKeyed(a, b, row, offset, count, r);
    var full :| BucketSorted(a, b, row, full) && r == Window(full, NonNegative(offset), count);
    ValueSortedIff(a, b, row, full);
  }

  /**
   After every run of legal mutations on an attribute with one integer token
   per value: every row of the sort is the window `[offset, offset + count)` of
   its uids that have a value, in an order that is the order of the values if
   and only if the keys in the row have the same sign.
   */
  method SortAfterRun(s: Schema, ghost ms: seq<Mutation>, attr: bytes, a: Attribute, ghost b: Bucket, table: TokensTable,
                      rows: seq<seq<uint64>>, offset: int, count: nat)
    returns (r: Option<seq<seq<uint64>>>)
    requires (forall m :: m in ms ==> Legal(s, m)) && PlainAttr(attr) && s.indexed(attr) && NoEmptyToken(s, attr)
    requires Presents(a, b, Run(EmptyDb(), s, ms), s, attr) && KeysFollowValues(a, b)
    requires UidLists.AllOrdered(rows) && count > 0 && table.key == a.table
    ensures r.None? <==> Panics(a, rows, offset, count)
    ensures r.Some? ==> |r.value| == |rows|
    ensures r.Some? ==> forall i :: 0 <= i < |rows| ==> SortedWindow(a, b, rows[i], offset, count, r.value[i])
  {
    hide Run, Presents, AttributeOk, Keyed, KeysFollowValues, Legal, NoEmptyToken, PlainAttr, Panics, IsWindow, SortedWindow;
    SortableAfterRun(s, ms, attr, a, b);
    r := ProcessSort(a, table, rows, offset, count);
    if r.Some? {
      forall i | 0 <= i < |rows| ensures SortedWindow(a, b, rows[i], offset, count, r.value[i]) {
        RowSorted(a, b, rows[i], offset, count, r.value[i]);
      }
    }
  }

  /** No uid of the row has a current value with two different tokens. */
  ghost predicate OneToken(db: Db, s: Schema, attr: bytes, row: seq<uint64>) {
    forall u: uint64, t, t' ::
      u in row && u < MAX_UINT64 && t in TokensOf(s, attr, Current(db, attr, u)) && t' in TokensOf(s, attr, Current(db, attr, u)) ==> t == t'
  }

  /**
   After every run of legal mutations on any indexed attribute: a sorted row
   lists each uid once if and only if no current value in the row has two
   different tokens.
   */
  lemma OnceAfterRun(s: Schema, ms: seq<Mutation>, attr: bytes, a: Attribute, row: seq<uint64>, full: seq<uint64>)
    requires (forall m :: m in ms ==> Legal(s, m)) && PlainAttr(attr) && s.indexed(attr) && NoEmptyToken(s, attr)
    requires Shows(a, Run(EmptyDb(), s, ms), attr) && FullUpTo(a, row, |a.table|, full)
    ensures Distinct(full) <==> OneToken(Run(EmptyDb(), s, ms), s, attr, row)
  {
    hide Run, Shows, AttrOk, Clean, Legal, NoEmptyToken, PlainAttr, FullUpTo, OneBucket, OneToken, Distinct;
    RunOk(s, ms, attr);
    OnceIff(a, row, |a.table|, full);
    OneTokenIff(Run(EmptyDb(), s, ms), s, attr, a, row);
  }

  lemma OneTokenIff(db: Db, s: Schema, attr: bytes, a: Attribute, row: seq<uint64>)
    requires Shows(a, db, attr) && AttrOk(db, s, attr)
    ensures OneBucket(a, row, |a.table|) <==> OneToken(db, s, attr, row)
  {
    hide Shows, AttrOk, BucketView, TokensOf, Current;
    TableSorted(a, db, s, attr);
    if OneBucket(a, row, |a.table|) {
      forall u: uint64, t, t' |
          u in row && u < MAX_UINT64 && t in TokensOf(s, attr, Current(db, attr, u)) && t' in TokensOf(s, attr, Current(db, attr, u))
        ensures t == t'
      {
        ViewAgrees(a, db, s, attr, t, u);
        ViewAgrees(a, db, s, attr, t', u);
        var i :| 0 <= i < |a.table| && a.table[i] == t;
        var j :| 0 <= j < |a.table| && a.table[j] == t';
        assert u in BucketSet(a, row, i) && u in BucketSet(a, row, j);
      }
    }
    if OneToken(db, s, attr, row) {
      forall i, j, u | 0 <= i < j < |a.table| && u in BucketSet(a, row, i) ensures u !in BucketSet(a, row, j) {
        LexAsymmetric(a.table[i], a.table[j]);
        ViewAgrees(a, db, s, attr, a.table[i], u);
        ViewAgrees(a, db, s, attr, a.table[j], u);
      }
    }
  }

  lemma TableSorted(a: Attribute, db: Db, s: Schema, attr: bytes)
    requires Shows(a, db, attr) && AttrOk(db, s, attr)
    ensures a.table == TableAt(db, attr) && SortedTokens(a.table)
  {
  }
}
