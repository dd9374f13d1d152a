/**
 The key-value store as the code sees it (RocksDB): pairs in the
 lexicographic order of their keys, with write batches and iterators.
 */
module OrderedStore {
  import opened Bytes

  datatype KV = KV(key: bytes, val: bytes)
  type Kvs = seq<KV>

  ghost predicate SortedKvs(s: Kvs) {
    forall i, j :: 0 <= i < j < |s| ==> LexLess(s[i].key, s[j].key)
  }

  function Lookup(s: Kvs, k: bytes): Option<bytes> {
    if s == [] then None else if s[0].key == k then Some(s[0].val) else Lookup(s[1..], k)
  }

  function Put(s: Kvs, k: bytes, v: bytes): Kvs {
    if s == [] || LexLess(k, s[0].key) then [KV(k, v)] + s
    else if s[0].key == k then [KV(k, v)] + s[1..]
    else [s[0]] + Put(s[1..], k, v)
  }

  function Delete(s: Kvs, k: bytes): Kvs {
    if s == [] then [] else if s[0].key == k then s[1..] else [s[0]] + Delete(s[1..], k)
  }

  ghost predicate AllAbove(s: Kvs, k: bytes) {
    forall i :: 0 <= i < |s| ==> LexLess(k, s[i].key)
  }

  lemma SortedTail(s: Kvs)
    requires SortedKvs(s) && s != []
    ensures SortedKvs(s[1..]) && AllAbove(s[1..], s[0].key)
  {
  }

  lemma SortedCons(kv: KV, s: Kvs)
    requires SortedKvs(s) && AllAbove(s, kv.key)
    ensures SortedKvs([kv] + s)
  {
  }

  lemma {:induction false} LookupMember(s: Kvs, k: bytes, v: bytes)
    requires SortedKvs(s)
    ensures Lookup(s, k) == Some(v) <==> KV(k, v) in s
  {
    if s != [] {
      SortedTail(s);
      LookupMember(s[1..], k, v);
      assert s == [s[0]] + s[1..];
      if s[0].key == k && KV(k, v) in s[1..] { LexAsymmetric(k, k); }
    }
  }

  lemma {:induction false} PutLaw(s: Kvs, k: bytes, v: bytes, b: bytes)
    requires SortedKvs(s)
    ensures SortedKvs(Put(s, k, v))
    ensures AllAbove(s, b) && LexLess(b, k) ==> AllAbove(Put(s, k, v), b)
    ensures forall k' :: Lookup(Put(s, k, v), k') == if k' == k then Some(v) else Lookup(s, k')
  {
    if s == [] {
      assert Put(s, k, v) == [KV(k, v)];
    } else {
      SortedTail(s);
      LexTrichotomy(k, s[0].key);
      if LexLess(k, s[0].key) {
        forall i | 0 <= i < |s| ensures LexLess(k, s[i].key) {
          if i > 0 { LexTransitive(k, s[0].key, s[i].key); }
        }
        SortedCons(KV(k, v), s);
        LexAsymmetric(k, s[0].key);
        LookupBelow(s, k);
        assert ([KV(k, v)] + s)[1..] == s;
      } else if s[0].key == k {
        SortedCons(KV(k, v), s[1..]);
        assert ([KV(k, v)] + s[1..])[1..] == s[1..];
      } else {
        PutLaw(s[1..], k, v, s[0].key);
        PutLaw(s[1..], k, v, b);
        var r := Put(s[1..], k, v);
        SortedCons(s[0], r);
        assert ([s[0]] + r)[1..] == r;
      }
    }
  }

  lemma LookupBelow(s: Kvs, k: bytes)
    requires SortedKvs(s) && AllAbove(s, k)
    ensures Lookup(s, k) == None
  {
    if Lookup(s, k).Some? {
      LookupMember(s, k, Lookup(s, k).value);
      LexAsymmetric(k, k);
    }
  }

  lemma {:induction false} DeleteLaw(s: Kvs, k: bytes, b: bytes)
    requires SortedKvs(s)
    ensures SortedKvs(Delete(s, k))
    ensures AllAbove(s, b) ==> AllAbove(Delete(s, k), b)
    ensures forall k' :: Lookup(Delete(s, k), k') == if k' == k then None else Lookup(s, k')
  {
    if s != [] {
      SortedTail(s);
      if s[0].key == k {
        LookupBelow(s[1..], k);
      } else {
        DeleteLaw(s[1..], k, s[0].key);
        DeleteLaw(s[1..], k, b);
        var r := Delete(s[1..], k);
        SortedCons(s[0], r);
        assert ([s[0]] + r)[1..] == r;
      }
    }
  }

  // ---------- Write batches ----------

  datatype BatchOp = PutOp(key: bytes, val: bytes) | DelOp(key: bytes)

  /** `WriteBatch`: the operations in order. */
  function Write(s: Kvs, ops: seq<BatchOp>): Kvs
    decreases |ops|
  {
    if ops == [] then s
    else Write(if ops[0].PutOp? then Put(s, ops[0].key, ops[0].val) else Delete(s, ops[0].key), ops[1..])
  }

  /** What the batch leaves under `k`, if `v` was there before. */
  function After(ops: seq<BatchOp>, k: bytes, v: Option<bytes>): Option<bytes>
    decreases |ops|
  {
    if ops == [] then v
    else After(ops[1..], k, if ops[0].key != k then v else if ops[0].PutOp? then Some(ops[0].val) else None)
  }

  lemma {:induction false} WriteLaw(s: Kvs, ops: seq<BatchOp>)
    requires SortedKvs(s)
    ensures SortedKvs(Write(s, ops))
    ensures forall k :: Lookup(Write(s, ops), k) == After(ops, k, Lookup(s, k))
    decreases |ops|
  {
    hide SortedKvs, Put, Delete, Lookup;
    if ops != [] {
      var op := ops[0];
      if op.PutOp? { PutLaw(s, op.key, op.val, []); } else { DeleteLaw(s, op.key, []); }
      WriteLaw(if op.PutOp? then Put(s, op.key, op.val) else Delete(s, op.key), ops[1..]);
    }
  }

  lemma {:induction false} AfterConcat(a: seq<BatchOp>, b: seq<BatchOp>, k: bytes, v: Option<bytes>)
    ensures After(a + b, k, v) == After(b, k, After(a, k, v))
    decreases |a|
  {
    if a == [] {
      assert a + b == b;
    } else {
      assert (a + b)[1..] == a[1..] + b;
      AfterConcat(a[1..], b, k, if a[0].key != k then v else if a[0].PutOp? then Some(a[0].val) else None);
    }
  }

  lemma {:induction false} AfterOthers(ops: seq<BatchOp>, k: bytes, v: Option<bytes>)
    requires forall op :: op in ops ==> op.key != k
    ensures After(ops, k, v) == v
    decreases |ops|
  {
    if ops != [] { AfterOthers(ops[1..], k, v); }
  }

  // ---------- Iterators ----------

  /** `Seek`: the first position whose key is at least `start`. */
  function SeekPos(s: Kvs, start: bytes): (i: nat)
    ensures i <= |s|
    ensures i < |s| ==> !LexLess(s[i].key, start)
    ensures forall k :: 0 <= k < i ==> LexLess(s[k].key, start)
  {
    if s == [] || !LexLess(s[0].key, start) then 0 else 1 + SeekPos(s[1..], start)
  }

  /** What `for it.Seek(start); it.ValidForPrefix(prefix); it.Next()` visits. */
  function ScanAt(s: Kvs, i: nat, prefix: bytes): Kvs
    requires i <= |s|
    decreases |s| - i
  {
    if i == |s| || !HasPrefix(s[i].key, prefix) then [] else [s[i]] + ScanAt(s, i + 1, prefix)
  }

  function Scan(s: Kvs, start: bytes, prefix: bytes): Kvs {
    ScanAt(s, SeekPos(s, start), prefix)
  }

  /** Keys between two keys with a common prefix have it too. */
  lemma {:induction false} PrefixConvex(p: bytes, a: bytes, b: bytes, c: bytes)
    requires HasPrefix(a, p) && HasPrefix(c, p) && !LexLess(b, a) && !LexLess(c, b)
    ensures HasPrefix(b, p)
  {
    if p != [] {
      assert p[0] == a[0] == c[0] by { assert a[..|p|][0] == p[0] && c[..|p|][0] == p[0]; }
      assert |b| > 0 && b[0] == p[0];
      assert a[1..][..|p| - 1] == a[..|p|][1..] && c[1..][..|p| - 1] == c[..|p|][1..];
      PrefixConvex(p[1..], a[1..], b[1..], c[1..]);
      assert p == [p[0]] + p[1..] && b[..|p|] == [b[0]] + b[1..][..|p| - 1];
    }
  }

  lemma {:induction false} ScanAtExact(s: Kvs, i: nat, prefix: bytes, start: bytes, kv: KV)
    requires SortedKvs(s) && i <= |s| && HasPrefix(start, prefix)
    requires forall j :: i <= j < |s| ==> !LexLess(s[j].key, start)
    ensures kv in ScanAt(s, i, prefix) <==> kv in s[i..] && HasPrefix(kv.key, prefix)
    decreases |s| - i
  {
    if i < |s| {
      assert s[i..] == [s[i]] + s[i + 1..];
      if HasPrefix(s[i].key, prefix) {
        ScanAtExact(s, i + 1, prefix, start, kv);
      } else if kv in s[i..] && HasPrefix(kv.key, prefix) {
        var j :| i <= j < |s| && s[j] == kv;
        assert !LexLess(s[j].key, s[i].key) by {
          if LexLess(s[j].key, s[i].key) { LexAsymmetric(s[j].key, s[i].key); }
        }
        PrefixConvex(prefix, start, s[i].key, kv.key);
      }
    }
  }

  /** A scan visits exactly the pairs at or above `start` that have the prefix, in key order. */
  lemma ScanExact(s: Kvs, start: bytes, prefix: bytes, kv: KV)
    requires SortedKvs(s) && HasPrefix(start, prefix)
    ensures kv in Scan(s, start, prefix) <==> kv in s && !LexLess(kv.key, start) && HasPrefix(kv.key, prefix)
  {
    var i := SeekPos(s, start);
    forall j | i <= j < |s| ensures !LexLess(s[j].key, start) {
      if LexLess(s[j].key, start) {
        if i < j { LexTransitive(s[i].key, s[j].key, start); }
      }
    }
    ScanAtExact(s, i, prefix, start, kv);
    assert s == s[..i] + s[i..];
  }

  lemma {:induction false} ScanAtSorted(s: Kvs, i: nat, prefix: bytes)
    requires SortedKvs(s) && i <= |s|
    ensures SortedKvs(ScanAt(s, i, prefix))
    ensures forall kv :: kv in ScanAt(s, i, prefix) ==> kv in s[i..]
    decreases |s| - i
  {
    if i < |s| && HasPrefix(s[i].key, prefix) {
      ScanAtSorted(s, i + 1, prefix);
      var r := ScanAt(s, i + 1, prefix);
      assert s[i..] == [s[i]] + s[i + 1..];
      assert AllAbove(r, s[i].key) by {
        forall k | 0 <= k < |r| ensures LexLess(s[i].key, r[k].key) {
          assert r[k] in s[i + 1..];
        }
      }
      SortedCons(s[i], r);
    }
  }

  /** Sorted lists of pairs are determined by their elements. */
  lemma {:induction false} SortedUnique(s: Kvs, t: Kvs)
    requires SortedKvs(s) && SortedKvs(t) && forall kv :: kv in s <==> kv in t
    ensures s == t
  {
    assert |s| > 0 ==> s[0] in t;
    assert |t| > 0 ==> t[0] in s;
    if s != [] {
      SortedTail(s);
      SortedTail(t);
      if s[0].key != t[0].key {
        var i :| 0 <= i < |t| && t[i] == s[0];
        var j :| 0 <= j < |s| && s[j] == t[0];
        LexAsymmetric(t[0].key, s[0].key);
      }
      HeadUnique(t, s[0]);
      forall kv ensures kv in s[1..] <==> kv in t[1..] {
        assert kv in s <==> kv == s[0] || kv in s[1..];
        assert kv in t <==> kv == t[0] || kv in t[1..];
        if kv == s[0] && (kv in s[1..] || kv in t[1..]) { LexAsymmetric(kv.key, kv.key); }
      }
      SortedUnique(s[1..], t[1..]);
      assert s == [s[0]] + s[1..] && t == [t[0]] + t[1..];
    }
  }

  lemma HeadUnique(t: Kvs, kv: KV)
    requires SortedKvs(t) && t != [] && kv in t && kv.key == t[0].key
    ensures kv == t[0]
  {
    var i :| 0 <= i < |t| && t[i] == kv;
    if i > 0 { LexAsymmetric(t[0].key, t[i].key); }
  }
}
