/**
 The write-ahead log (`raftwal/wal.go`): Raft entries of all groups in one
 ordered store. `StoreOps` is the write batch that `Store` builds.
 */
module Wal {
  import opened Bytes
  import opened Seqs
  import opened OrderedStore
  import opened WalKeys

  datatype Entry = Entry(pos: Pos, data: bytes)

  /** Marshalling of `raftpb.Entry`. */
  datatype EntryCodec = EntryCodec(enc: Entry -> bytes, dec: bytes -> Option<Entry>)

  ghost predicate CodecOk(c: EntryCodec) {
    forall e :: c.dec(c.enc(e)) == Some(e)
  }

  // ---------- The batch ----------

  function TagOps(id: uint64, gid: uint32, snap: Option<bytes>, hard: Option<bytes>): seq<BatchOp> {
    (if snap.Some? then [PutOp(SnapshotKey(id, gid), snap.value)] else [])
    + if hard.Some? then [PutOp(HardStateKey(id, gid), hard.value)] else []
  }

  function EntryOps(id: uint64, gid: uint32, c: EntryCodec, es: seq<Entry>): (r: seq<BatchOp>)
    ensures |r| == |es| && forall i :: 0 <= i < |es| ==> r[i] == PutOp(EntryKey(id, gid, es[i].pos), c.enc(es[i]))
  {
    seq(|es|, i requires 0 <= i < |es| => PutOp(EntryKey(id, gid, es[i].pos), c.enc(es[i])))
  }

  function DelOps(kvs: Kvs): (r: seq<BatchOp>)
    ensures |r| == |kvs| && forall i :: 0 <= i < |kvs| ==> r[i] == DelOp(kvs[i].key)
  {
    seq(|kvs|, i requires 0 <= i < |kvs| => DelOp(kvs[i].key))
  }

  /** Position of the last entry; (0, 0) for no entries. */
  function LastPos(es: seq<Entry>): Pos {
    if es == [] then Pos(0, 0) else es[|es| - 1].pos
  }

  /** The first position to delete from; the index wraps around. */
  function NextPos(p: Pos): Pos {
    Pos(p.term, (p.index + 1) % TWO_64)
  }

  /** What is deleted: everything from the position after the last entry on. */
  function Dropped(kvs: Kvs, id: uint64, gid: uint32, es: seq<Entry>): Kvs {
    var last := LastPos(es);
    if last.term > 0 || last.index > 0 then Scan(kvs, EntryKey(id, gid, NextPos(last)), Prefix(id, gid)) else []
  }

  function StoreOps(kvs: Kvs, id: uint64, gid: uint32, c: EntryCodec, snap: Option<bytes>, hard: Option<bytes>, es: seq<Entry>): seq<BatchOp> {
    TagOps(id, gid, snap, hard) + EntryOps(id, gid, c, es) + DelOps(Dropped(kvs, id, gid, es))
  }

  function Stored(kvs: Kvs, id: uint64, gid: uint32, c: EntryCodec, snap: Option<bytes>, hard: Option<bytes>, es: seq<Entry>): Kvs {
    Write(kvs, StoreOps(kvs, id, gid, c, snap, hard, es))
  }

  // ---------- What a store holds for a group ----------

  ghost predicate OnePerPos(s: set<Entry>) {
    forall e, f :: e in s && f in s && e.pos == f.pos ==> e == f
  }

  /** The pairs in the range of the group are exactly the entries of `s`. */
  ghost predicate Holds(kvs: Kvs, id: uint64, gid: uint32, c: EntryCodec, s: set<Entry>) {
    && SortedKvs(kvs) && OnePerPos(s)
    && (forall kv :: kv in kvs && HasPrefix(kv.key, Prefix(id, gid)) ==>
          exists e :: e in s && kv == KV(EntryKey(id, gid, e.pos), c.enc(e)))
    && (forall e :: e in s ==> KV(EntryKey(id, gid, e.pos), c.enc(e)) in kvs)
  }

  ghost predicate InBatch(es: seq<Entry>, p: Pos) {
    exists i :: 0 <= i < |es| && es[i].pos == p
  }

  /** Entries in increasing positions. */
  ghost predicate Ascending(es: seq<Entry>) {
    forall i, j :: 0 <= i < j < |es| ==> Before(es[i].pos, es[j].pos)
  }

  /** Put the batch, drop everything above its last position. */
  ghost function PutAndDrop(s: set<Entry>, es: seq<Entry>): set<Entry>
    requires es != []
  {
    (set e | e in s && Before(e.pos, LastPos(es)) && !InBatch(es, e.pos)) + SetOf(es)
  }

  /** Positions from which the iterator deletes. */
  predicate Cut(es: seq<Entry>, p: Pos) {
    LastPos(es) != Pos(0, 0) && !Before(p, NextPos(LastPos(es)))
  }

  ghost predicate HasPos(s: set<Entry>, p: Pos) {
    exists e :: e in s && e.pos == p
  }

  /**
   What the batch does for every input: the iterator sees the store as it was,
   and its deletions come after the puts.
   */
  ghost function Written(s: set<Entry>, es: seq<Entry>): set<Entry> {
    (set e | e in s && !InBatch(es, e.pos) && !Cut(es, e.pos))
    + (set e | e in es && !(Cut(es, e.pos) && HasPos(s, e.pos)))
  }

  /** A last position that is neither (0, 0), which switches the deletion off, nor wraps around. */
  predicate Proper(es: seq<Entry>) {
    LastPos(es) != Pos(0, 0) && LastPos(es).index < MAX_UINT64
  }

  /** `Store` is "put the batch, drop everything above" on all logs exactly for batches with a proper last position. */
  lemma WrittenIff(es: seq<Entry>)
    requires es != [] && Ascending(es)
    ensures (forall s :: OnePerPos(s) ==> Written(s, es) == PutAndDrop(s, es)) <==> Proper(es)
  {
    if Proper(es) {
      forall s | OnePerPos(s) ensures Written(s, es) == PutAndDrop(s, es) { WrittenProper(s, es); }
    } else if LastPos(es) == Pos(0, 0) {
      var e := Entry(Pos(0, 1), []);
      assert OnePerPos({e}) && !InBatch(es, e.pos);
      assert e in Written({e}, es) && e !in PutAndDrop({e}, es);
    } else {
      var e := es[|es| - 1];
      assert OnePerPos({e}) && HasPos({e}, e.pos);
      assert InBatch(es, e.pos) && Cut(es, e.pos);
      assert e !in Written({e}, es) && e in PutAndDrop({e}, es);
    }
  }

  lemma WrittenProper(s: set<Entry>, es: seq<Entry>)
    requires es != [] && Ascending(es) && Proper(es)
    ensures Written(s, es) == PutAndDrop(s, es)
  {
    forall e ensures e in Written(s, es) <==> e in PutAndDrop(s, es) {
      BatchBelow(es, e.pos);
      if e in es { var i :| 0 <= i < |es| && es[i] == e; assert InBatch(es, e.pos); }
    }
  }

  // ---------- The batch, key by key ----------

  /** What the puts of the entries leave under one of the group's keys. */
  lemma {:induction false} AfterEntries(id: uint64, gid: uint32, c: EntryCodec, es: seq<Entry>, p: Pos, v: Option<bytes>)
    requires Ascending(es)
    ensures !InBatch(es, p) ==> After(EntryOps(id, gid, c, es), EntryKey(id, gid, p), v) == v
    ensures forall i :: 0 <= i < |es| && es[i].pos == p ==>
              After(EntryOps(id, gid, c, es), EntryKey(id, gid, p), v) == Some(c.enc(es[i]))
    decreases |es|
  {
    hide EntryKey;
    if es != [] {
      var t := es[1..];
      EntryKeyOrder(id, gid, es[0].pos, p);
      assert EntryOps(id, gid, c, es)[1..] == EntryOps(id, gid, c, t);
      var v' := if es[0].pos == p then Some(c.enc(es[0])) else v;
      AfterEntries(id, gid, c, t, p, v');
      assert After(EntryOps(id, gid, c, es), EntryKey(id, gid, p), v) == After(EntryOps(id, gid, c, t), EntryKey(id, gid, p), v');
      assert forall i :: 0 < i < |es| ==> es[i] == t[i - 1];
      if InBatch(t, p) {
        var i :| 0 <= i < |t| && t[i].pos == p;
        assert es[i + 1].pos == p;
      }
      assert InBatch(es, p) <==> es[0].pos == p || InBatch(t, p) by {
        if i :| 0 <= i < |es| && es[i].pos == p { assert i > 0 ==> t[i - 1].pos == p; }
      }
    }
  }

  lemma {:induction false} AfterDeletes(kvs: Kvs, k: bytes, v: Option<bytes>)
    ensures (exists kv :: kv in kvs && kv.key == k) ==> After(DelOps(kvs), k, v) == None
    ensures (forall kv :: kv in kvs ==> kv.key != k) ==> After(DelOps(kvs), k, v) == v
    decreases |kvs|
  {
    if kvs != [] {
      assert DelOps(kvs)[1..] == DelOps(kvs[1..]);
      assert kvs == [kvs[0]] + kvs[1..];
      AfterDeletes(kvs[1..], k, if kvs[0].key != k then v else None);
    }
  }

  lemma AfterTags(id: uint64, gid: uint32, snap: Option<bytes>, hard: Option<bytes>, k: bytes, v: Option<bytes>)
    requires k != SnapshotKey(id, gid) && k != HardStateKey(id, gid)
    ensures After(TagOps(id, gid, snap, hard), k, v) == v
  {
    AfterOthers(TagOps(id, gid, snap, hard), k, v);
  }

  lemma DroppedExact(kvs: Kvs, id: uint64, gid: uint32, es: seq<Entry>, kv: KV)
    requires SortedKvs(kvs)
    ensures kv in Dropped(kvs, id, gid, es) <==>
      LastPos(es) != Pos(0, 0) && kv in kvs && HasPrefix(kv.key, Prefix(id, gid))
      && !LexLess(kv.key, EntryKey(id, gid, NextPos(LastPos(es))))
  {
    hide Scan, LexLess, EntryKey;
    EntryKeyPrefix(id, gid, NextPos(LastPos(es)), gid);
    ScanExact(kvs, EntryKey(id, gid, NextPos(LastPos(es))), Prefix(id, gid), kv);
  }

  /** Any key: tags, then entries, then deletions. */
  lemma StoredLookup(kvs: Kvs, id: uint64, gid: uint32, c: EntryCodec, snap: Option<bytes>, hard: Option<bytes>, es: seq<Entry>, k: bytes)
    requires SortedKvs(kvs)
    ensures SortedKvs(Stored(kvs, id, gid, c, snap, hard, es))
    ensures Lookup(Stored(kvs, id, gid, c, snap, hard, es), k) ==
            After(DelOps(Dropped(kvs, id, gid, es)), k,
                  After(EntryOps(id, gid, c, es), k, After(TagOps(id, gid, snap, hard), k, Lookup(kvs, k))))
  {
    hide After, Write, Lookup, SortedKvs, Dropped;
    var a, b, d := TagOps(id, gid, snap, hard), EntryOps(id, gid, c, es), DelOps(Dropped(kvs, id, gid, es));
    WriteLaw(kvs, a + b + d);
    AfterConcat(a + b, d, k, Lookup(kvs, k));
    AfterConcat(a, b, k, Lookup(kvs, k));
  }

  /** An entry key of the group being stored, for every batch in ascending order. */
  lemma StoredOwn(kvs: Kvs, id: uint64, gid: uint32, c: EntryCodec, snap: Option<bytes>, hard: Option<bytes>, es: seq<Entry>, p: Pos)
    requires SortedKvs(kvs) && Ascending(es)
    ensures var k := EntryKey(id, gid, p); var r := Lookup(Stored(kvs, id, gid, c, snap, hard, es), k);
      && (Cut(es, p) && Lookup(kvs, k).Some? ==> r == None)
      && (!(Cut(es, p) && Lookup(kvs, k).Some?) ==>
           && (!InBatch(es, p) ==> r == Lookup(kvs, k))
           && (forall i :: 0 <= i < |es| && es[i].pos == p ==> r == Some(c.enc(es[i]))))
  {
    hide After, Stored, Dropped, EntryKey, SortedKvs, Lookup;
    var k, last := EntryKey(id, gid, p), LastPos(es);
    StoredLookup(kvs, id, gid, c, snap, hard, es, k);
    AfterTags(id, gid, snap, hard, k, Lookup(kvs, k));
    AfterEntries(id, gid, c, es, p, Lookup(kvs, k));
    AfterDeletes(Dropped(kvs, id, gid, es), k, After(EntryOps(id, gid, c, es), k, Lookup(kvs, k)));
    EntryKeyOrder(id, gid, p, NextPos(last));
    EntryKeyPrefix(id, gid, p, gid);
    forall kv | kv in Dropped(kvs, id, gid, es) && kv.key == k ensures Cut(es, p) && Lookup(kvs, k).Some? {
      DroppedExact(kvs, id, gid, es, kv);
      LookupMember(kvs, k, kv.val);
    }
    if Cut(es, p) && Lookup(kvs, k).Some? {
      var kv := KV(k, Lookup(kvs, k).value);
      LookupMember(kvs, k, kv.val);
      DroppedExact(kvs, id, gid, es, kv);
    }
  }

  lemma BatchBelow(es: seq<Entry>, p: Pos)
    requires es != [] && Ascending(es) && LastPos(es).index < MAX_UINT64
    ensures InBatch(es, p) ==> Before(p, NextPos(LastPos(es)))
    ensures !InBatch(es, p) ==> (Before(p, NextPos(LastPos(es))) <==> Before(p, LastPos(es)))
  {
  }
}
