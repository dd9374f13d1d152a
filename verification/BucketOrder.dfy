/**
 What the bucket sort means for attributes with one integer token per value:
 bucket order is a total arrangement of the uids that have a value, and value
 order exactly when the keys do not mix signs.
 */
module BucketOrder {
  import opened Bytes
  import opened Seqs
  import opened Codec
  import opened PostingLayers
  import opened Keys
  import opened TokensTables
  import opened BucketSort
  import opened Index

  /** The integer a uid is indexed under (its value, the integral part or the year), if it has a value. */
  type Bucket = uint64 -> Option<int32>

  function Token(b: Bucket, u: uint64): bytes {
    if b(u).Some? then IntToken(b(u).value) else []
  }

  /**
   The index agrees with the values: every list of the index holds the uids
   with that token, the table knows every token in use, and every value can be
   read. Keys follow the order of the values.
   */
  ghost predicate Keyed(a: Attribute, b: Bucket) {
    && (forall t, u: uint64 :: u in BucketView(a, t) <==> b(u).Some? && Token(b, u) == t)
    && (forall u: uint64 :: b(u).Some? ==> Token(b, u) in a.table && a.readable(u))
    && KeysFollowValues(a, b)
  }

  ghost predicate KeysFollowValues(a: Attribute, b: Bucket) {
    forall u: uint64, w: uint64 :: b(u).Some? && b(w).Some? && b(u).value < b(w).value ==> a.rank(u) < a.rank(w)
  }

  /** Order of a bucket sort: by token, and by value within a token. */
  ghost predicate Before(a: Attribute, b: Bucket, u: uint64, w: uint64) {
    LexLess(Token(b, u), Token(b, w)) || (Token(b, u) == Token(b, w) && a.rank(u) <= a.rank(w))
  }

  ghost predicate Arranged(a: Attribute, b: Bucket, s: seq<uint64>) {
    forall i, j :: 0 <= i < j < |s| ==> Before(a, b, s[i], s[j])
  }

  /** The sorted row: the uids with a value, once each, in bucket order. */
  ghost predicate BucketSorted(a: Attribute, b: Bucket, row: seq<uint64>, full: seq<uint64>) {
    && Distinct(full) && Arranged(a, b, full)
    && forall u: uint64 :: u in full <==> u in row && u < MAX_UINT64 && b(u).Some?
  }

  /** `u` has a value, and its bucket is among the first `k`. */
  predicate Reached(a: Attribute, b: Bucket, u: uint64, k: nat)
    requires k <= |a.table|
  {
    b(u).Some? && u < MAX_UINT64 && Token(b, u) in a.table[..k]
  }

  lemma ReachedStep(a: Attribute, b: Bucket, row: seq<uint64>, u: uint64, k: nat)
    requires k < |a.table| && Keyed(a, b) && u in row
    ensures Reached(a, b, u, k + 1) <==> Reached(a, b, u, k) || u in BucketSet(a, row, k)
    ensures u in BucketSet(a, row, k) ==> b(u).Some? && Token(b, u) == a.table[k]
  {
    hide BucketView;
    assert a.table[..k + 1] == a.table[..k] + [a.table[k]];
    assert u in BucketView(a, a.table[k]) <==> b(u).Some? && Token(b, u) == a.table[k];
  }

  lemma EarlierBucket(a: Attribute, t: bytes, k: nat)
    requires SortedTokens(a.table) && k < |a.table| && t in a.table[..k]
    ensures LexLess(t, a.table[k]) && t != a.table[k]
  {
    LexAsymmetric(t, a.table[k]);
  }

  /** The buckets of a row, one behind the other, are its uids with a value in bucket order. */
  lemma {:induction false} FullKeyed(a: Attribute, b: Bucket, row: seq<uint64>, k: nat, full: seq<uint64>)
    requires AttributeOk(a) && Keyed(a, b) && k <= |a.table| && FullUpTo(a, row, k, full)
    ensures Distinct(full) && Arranged(a, b, full)
    ensures forall u: uint64 :: u in full <==> u in row && Reached(a, b, u, k)
    decreases k
  {
    hide AttributeOk, Keyed, FullUpTo, IsBucketRow, InOrder, Before;
    if k == 0 {
      FullNothing(a, row, full);
    } else {
      var n := FullSplit(a, row, k, full);
      FullKeyed(a, b, row, k - 1, full[..n]);
      KeyedBlock(a, b, row, k - 1, full[..n], full[n..]);
    }
  }

  lemma KeyedBlock(a: Attribute, b: Bucket, row: seq<uint64>, k: nat, x: seq<uint64>, y: seq<uint64>)
    requires AttributeOk(a) && Keyed(a, b) && k < |a.table|
    requires Distinct(x) && Arranged(a, b, x) && forall u: uint64 :: u in x <==> u in row && Reached(a, b, u, k)
    requires IsBucketRow(a, row, k, y) && InOrder(a, y)
    ensures Distinct(x + y) && Arranged(a, b, x + y)
    ensures forall u: uint64 :: u in x + y <==> u in row && Reached(a, b, u, k + 1)
  {
    hide BucketView, KeysFollowValues, LexLess, Sorted, SortedTokens;
    forall u | u in y ensures u in row && b(u).Some? && Token(b, u) == a.table[k] {
      assert u in SetOf(y);
      ReachedStep(a, b, row, u, k);
    }
    forall u: uint64 ensures u in x + y <==> u in row && Reached(a, b, u, k + 1) {
      assert u in y <==> u in SetOf(y);
      if u in row { ReachedStep(a, b, row, u, k); }
    }
    assert AllReadable(a, y) by { forall i | 0 <= i < |y| ensures a.readable(y[i]) { assert y[i] in y; } }
    forall u, w | u in x && w in y ensures u != w && Before(a, b, u, w) { EarlierBucket(a, Token(b, u), k); }
    KeyedConcat(a, b, x, y);
  }

  lemma KeyedConcat(a: Attribute, b: Bucket, x: seq<uint64>, y: seq<uint64>)
    requires Distinct(x) && Arranged(a, b, x) && Distinct(y) && Ranked(a, y)
    requires forall u, w :: u in y && w in y ==> Token(b, u) == Token(b, w)
    requires forall u, w :: u in x && w in y ==> u != w && Before(a, b, u, w)
    ensures Distinct(x + y) && Arranged(a, b, x + y)
  {
    hide LexLess, Token;
    var z := x + y;
    forall i, j | 0 <= i < j < |z| ensures z[i] != z[j] && Before(a, b, z[i], z[j]) {
      if i < |x| {
        assert z[i] in x;
        if j >= |x| { assert z[j] in y; }
      } else {
        assert z[i] in y && z[j] in y && z[i] == y[i - |x|] && z[j] == y[j - |x|];
      }
    }
  }

  /** So every row of a sort is a window of its uids with a value in bucket order. */
  lemma WindowKeyed(a: Attribute, b: Bucket, row: seq<uint64>, offset: int, count: nat, r: seq<uint64>)
    requires AttributeOk(a) && Keyed(a, b) && IsWindow(a, row, offset, count, r)
    ensures exists full :: BucketSorted(a, b, row, full) && r == Window(full, NonNegative(offset), count)
  {
    hide FullUpTo, Window, BucketView, KeysFollowValues, Arranged, Distinct, Token, SortedTokens, Sorted;
    var full :| FullUpTo(a, row, |a.table|, full) && r == Window(full, NonNegative(offset), count);
    FullKeyed(a, b, row, |a.table|, full);
    assert a.table[..|a.table|] == a.table;
    assert BucketSorted(a, b, row, full);
  }

  // ---------- Bucket order and value order ----------

  /** All keys in the row have the same sign. */
  ghost predicate SameSign(b: Bucket, row: seq<uint64>) {
    forall u: uint64, w: uint64 :: u in row && w in row && u < MAX_UINT64 && w < MAX_UINT64 && b(u).Some? && b(w).Some? ==>
      (b(u).value < 0 <==> b(w).value < 0)
  }

  lemma BeforeIsRank(a: Attribute, b: Bucket, u: uint64, w: uint64)
    requires KeysFollowValues(a, b) && b(u).Some? && b(w).Some? && Before(a, b, u, w)
    ensures (b(u).value < 0 <==> b(w).value < 0) ==> a.rank(u) <= a.rank(w)
    ensures !(b(u).value < 0 <==> b(w).value < 0) ==> a.rank(w) < a.rank(u)
  {
    hide IntToken, LexLess;
    var x, y := b(u).value, b(w).value;
    if x == y {
      if LexLess(IntToken(x), IntToken(x)) { LexAsymmetric(IntToken(x), IntToken(x)); }
    } else {
      if IntToken(x) == IntToken(y) { IntTokenInjective(x, y); }
      IntTokenOrder(x, y);
    }
  }

  /** The bucket sort is a sort by value exactly when the row's keys do not mix signs. */
  lemma ValueSortedIff(a: Attribute, b: Bucket, row: seq<uint64>, full: seq<uint64>)
    requires KeysFollowValues(a, b) && BucketSorted(a, b, row, full)
    ensures Ranked(a, full) <==> SameSign(b, row)
  {
    hide Before, KeysFollowValues;
    forall i, j | 0 <= i < j < |full|
      ensures b(full[i]).Some? && b(full[j]).Some?
      ensures (b(full[i]).value < 0 <==> b(full[j]).value < 0) <==> a.rank(full[i]) <= a.rank(full[j])
    {
      assert full[i] in full && full[j] in full;
      BeforeIsRank(a, b, full[i], full[j]);
    }
  }

  // ---------- Two values, -1 and 1 ----------

  function ToyBucket(u: uint64): Option<int32> {
    if u == 1 then Some(-1) else if u == 2 then Some(1) else None
  }

  function ToyList(t: bytes): (seq<Posting>, seq<Posting>) {
    (if t == IntToken(1) then [Posting(2, [], 0, IDX.lbl, 0, SET)]
     else if t == IntToken(-1) then [Posting(1, [], 0, IDX.lbl, 0, SET)]
     else [], [])
  }

  /** Uid 1 has the value -1, uid 2 the value 1, and the index lists and the table say so. */
  function ToyAttribute(): Attribute {
    Attribute([IntToken(1), IntToken(-1)], ToyList, u => true, u => u)
  }

  lemma ToyTokens()
    ensures LexLess(IntToken(1), IntToken(-1)) && IntToken(1) != IntToken(-1)
  {
    IntTokenOrder(1, -1);
    LexTrichotomy(IntToken(1), IntToken(-1));
    if IntToken(1) == IntToken(-1) { IntTokenInjective(1, -1); }
  }

  lemma ToyView(t: bytes, u: uint64)
    ensures u in BucketView(ToyAttribute(), t) <==> ToyBucket(u).Some? && Token(ToyBucket, u) == t
    ensures Sorted(ToyList(t).0) && Sorted(ToyList(t).1)
  {
    hide IntToken, LexLess, ViewOf;
    ToyTokens();
    var l := ToyList(t).0;
    ViewOfAt(l, [], u);
    assert Holds(l, u) <==> l != [] && l[0].uid == u;
  }

  lemma ToyOk()
    ensures AttributeOk(ToyAttribute()) && Keyed(ToyAttribute(), ToyBucket)
  {
    hide IntToken, LexLess, BucketView, ToyList, Sorted;
    var a := ToyAttribute();
    ToyTokens();
    forall t, u: uint64 ensures u in BucketView(a, t) <==> ToyBucket(u).Some? && Token(ToyBucket, u) == t { ToyView(t, u); }
    forall t ensures Sorted(a.layers(t).0) && Sorted(a.layers(t).1) { ToyView(t, 0); }
  }

  /** The sort of both uids by that attribute does not panic, and puts the negative value last. */
  lemma MixedSignExample()
    ensures var a := ToyAttribute();
      && AttributeOk(a) && Keyed(a, ToyBucket) && !Panics(a, [[1, 2]], 0, 2) && a.rank(1) < a.rank(2)
      && forall r :: IsWindow(a, [1, 2], 0, 2, r) ==> r == [2, 1]
  {
    hide AttributeOk, Keyed, IntToken, LexLess, BucketView, ReachedCount;
    var a := ToyAttribute();
    ToyTokens();
    ToyOk();
    forall k: nat | k < |a.table| ensures !AnyStuck(a, [[1, 2]], 0, 2, k) {
      forall u: uint64 ensures u in BucketView(a, a.table[k]) ==> u <= 2 { ToyView(a.table[k], u); }
    }
    forall r | IsWindow(a, [1, 2], 0, 2, r) ensures r == [2, 1] {
      WindowKeyed(a, ToyBucket, [1, 2], 0, 2, r);
      var full :| BucketSorted(a, ToyBucket, [1, 2], full) && r == Window(full, 0, 2);
      ToyOrder(full);
    }
  }

  lemma ToyOrder(full: seq<uint64>)
    requires BucketSorted(ToyAttribute(), ToyBucket, [1, 2], full)
    ensures full == [2, 1]
  {
    hide IntToken, LexLess;
    var a := ToyAttribute();
    ToyTokens();
    LexAsymmetric(IntToken(1), IntToken(-1));
    assert 1 in [1, 2] && 2 in [1, 2];
    DistinctSize(full);
    assert SetOf(full) == {1, 2};
  }
}
