/** What `Store` and `Entries` mean for a Raft log. */
module WalLaws {
  import opened Bytes
  import opened Seqs
  import opened OrderedStore
  import opened WalKeys
  import opened Wal

  // ---------- Store refines "put the batch, drop what is above it" ----------

  /** A key of the group's range that holds something after `Store` is an entry key. */
  lemma OwnKeyShape(kvs: Kvs, id: uint64, gid: uint32, c: EntryCodec, snap: Option<bytes>, hard: Option<bytes>, es: seq<Entry>, s: set<Entry>, k: bytes)
    requires Holds(kvs, id, gid, c, s) && Untagged(gid) && HasPrefix(k, Prefix(id, gid))
    requires Lookup(Stored(kvs, id, gid, c, snap, hard, es), k).Some?
    ensures exists p :: k == EntryKey(id, gid, p)
  {
    hide After, Stored, Dropped, EntryKey, Prefix, SnapshotKey, HardStateKey, Lookup, SortedKvs;
    if forall p :: k != EntryKey(id, gid, p) {
      TagsApart(id, gid, gid);
      StoredLookup(kvs, id, gid, c, snap, hard, es, k);
      AfterTags(id, gid, snap, hard, k, Lookup(kvs, k));
      AfterOthers(EntryOps(id, gid, c, es), k, Lookup(kvs, k));
      AfterDeletes(Dropped(kvs, id, gid, es), k, Lookup(kvs, k));
      assert Lookup(kvs, k).Some?;
      LookupMember(kvs, k, Lookup(kvs, k).value);
    }
  }

  /** The group's entries after a batch, whatever its last position. */
  lemma StoreRefines(kvs: Kvs, id: uint64, gid: uint32, c: EntryCodec, snap: Option<bytes>, hard: Option<bytes>, es: seq<Entry>, s: set<Entry>)
    requires Holds(kvs, id, gid, c, s) && Untagged(gid) && Ascending(es)
    ensures Holds(Stored(kvs, id, gid, c, snap, hard, es), id, gid, c, Written(s, es))
  {
    hide Stored, EntryKey, Prefix, SortedKvs, Lookup, Before, Cut;
    var kvs', s' := Stored(kvs, id, gid, c, snap, hard, es), Written(s, es);
    StoredLookup(kvs, id, gid, c, snap, hard, es, []);
    WrittenUnique(s, es);
    forall kv | kv in kvs' && HasPrefix(kv.key, Prefix(id, gid))
      ensures exists e :: e in s' && kv == KV(EntryKey(id, gid, e.pos), c.enc(e))
    {
      LookupMember(kvs', kv.key, kv.val);
      OwnKeyShape(kvs, id, gid, c, snap, hard, es, s, kv.key);
      var p :| kv.key == EntryKey(id, gid, p);
      StoredOwn(kvs, id, gid, c, snap, hard, es, p);
      HeldLookup(kvs, id, gid, c, s, p);
      if InBatch(es, p) {
        var i :| 0 <= i < |es| && es[i].pos == p;
        assert es[i] in s';
      } else {
        var e :| e in s && e.pos == p && Lookup(kvs, kv.key) == Some(c.enc(e));
        assert e in s';
      }
    }
    forall e | e in s' ensures KV(EntryKey(id, gid, e.pos), c.enc(e)) in kvs' {
      StoredOwn(kvs, id, gid, c, snap, hard, es, e.pos);
      HeldLookup(kvs, id, gid, c, s, e.pos);
      LookupMember(kvs', EntryKey(id, gid, e.pos), c.enc(e));
      if e in es {
        var i :| 0 <= i < |es| && es[i] == e;
        assert es[i].pos == e.pos;
      }
    }
  }

  /** An entry key holds the encoding of the group's entry at that position. */
  lemma HeldLookup(kvs: Kvs, id: uint64, gid: uint32, c: EntryCodec, s: set<Entry>, p: Pos)
    requires Holds(kvs, id, gid, c, s)
    ensures Lookup(kvs, EntryKey(id, gid, p)).Some? <==> HasPos(s, p)
    ensures forall e :: e in s && e.pos == p ==> Lookup(kvs, EntryKey(id, gid, p)) == Some(c.enc(e))
  {
    hide EntryKey, Prefix, SortedKvs, Lookup;
    var k := EntryKey(id, gid, p);
    EntryKeyPrefix(id, gid, p, gid);
    forall e | e in s && e.pos == p ensures Lookup(kvs, k) == Some(c.enc(e)) { LookupMember(kvs, k, c.enc(e)); }
    if Lookup(kvs, k).Some? {
      LookupMember(kvs, k, Lookup(kvs, k).value);
      var e :| e in s && KV(k, Lookup(kvs, k).value) == KV(EntryKey(id, gid, e.pos), c.enc(e));
      EntryKeyOrder(id, gid, e.pos, p);
    }
  }

  lemma BatchMember(es: seq<Entry>, e: Entry)
    ensures e in es ==> InBatch(es, e.pos)
  {
  }

  lemma WrittenUnique(s: set<Entry>, es: seq<Entry>)
    requires OnePerPos(s) && Ascending(es)
    ensures OnePerPos(Written(s, es))
  {
  }

  /** If a range reads the same before and after, it holds the same entries. */
  lemma SameRange(kvs: Kvs, kvs': Kvs, id: uint64, gid: uint32, c: EntryCodec, s: set<Entry>)
    requires Holds(kvs, id, gid, c, s) && SortedKvs(kvs')
    requires forall k :: HasPrefix(k, Prefix(id, gid)) ==> Lookup(kvs', k) == Lookup(kvs, k)
    ensures Holds(kvs', id, gid, c, s)
  {
    hide EntryKey, Prefix, SortedKvs, Lookup;
    forall kv | kv in kvs' && HasPrefix(kv.key, Prefix(id, gid))
      ensures exists e :: e in s && kv == KV(EntryKey(id, gid, e.pos), c.enc(e))
    {
      LookupMember(kvs', kv.key, kv.val);
      LookupMember(kvs, kv.key, kv.val);
    }
    forall e | e in s ensures KV(EntryKey(id, gid, e.pos), c.enc(e)) in kvs' {
      EntryKeyPrefix(id, gid, e.pos, gid);
      LookupMember(kvs, EntryKey(id, gid, e.pos), c.enc(e));
      LookupMember(kvs', EntryKey(id, gid, e.pos), c.enc(e));
    }
  }

  /** Other groups, and a group that is given no entries, keep exactly what they had. */
  lemma StoreFrames(kvs: Kvs, id: uint64, gid: uint32, c: EntryCodec, snap: Option<bytes>, hard: Option<bytes>, es: seq<Entry>, other: uint32, s: set<Entry>)
    requires Holds(kvs, id, other, c, s) && Untagged(other) && (other != gid || es == [])
    ensures Holds(Stored(kvs, id, gid, c, snap, hard, es), id, other, c, s)
  {
    hide After, Stored, EntryKey, Prefix, SnapshotKey, HardStateKey, Lookup, SortedKvs, Dropped;
    var kvs' := Stored(kvs, id, gid, c, snap, hard, es);
    StoredLookup(kvs, id, gid, c, snap, hard, es, []);
    TagsApart(id, other, gid);
    forall k | HasPrefix(k, Prefix(id, other)) ensures Lookup(kvs', k) == Lookup(kvs, k) {
      StoredLookup(kvs, id, gid, c, snap, hard, es, k);
      AfterTags(id, gid, snap, hard, k, Lookup(kvs, k));
      forall op | op in EntryOps(id, gid, c, es) ensures op.key != k {
        var i :| 0 <= i < |es| && op == EntryOps(id, gid, c, es)[i];
        EntryKeyPrefix(id, gid, es[i].pos, other);
      }
      AfterOthers(EntryOps(id, gid, c, es), k, Lookup(kvs, k));
      forall kv | kv in Dropped(kvs, id, gid, es) ensures kv.key != k {
        DroppedExact(kvs, id, gid, es, kv);
        if other != gid { PrefixApart(id, gid, other, kv.key); }
      }
      AfterDeletes(Dropped(kvs, id, gid, es), k, Lookup(kvs, k));
    }
    SameRange(kvs, kvs', id, other, c, s);
  }

  lemma PrefixApart(id: uint64, gid: uint32, other: uint32, k: bytes)
    requires HasPrefix(k, Prefix(id, gid)) && other != gid
    ensures !HasPrefix(k, Prefix(id, other))
  {
    hide EntryKey, Prefix;
    EntryKeyPrefix(id, gid, Pos(0, 0), gid);
    EntryKeyPrefix(id, gid, Pos(0, 0), other);
  }

  lemma TagKeysApart(id: uint64, a: uint32, b: uint32)
    ensures SnapshotKey(id, a) != HardStateKey(id, b)
    ensures a != b ==> SnapshotKey(id, a) != SnapshotKey(id, b) && HardStateKey(id, a) != HardStateKey(id, b)
  {
    hide BigEndian;
    assert SnapshotKey(id, a)[8] == 0x73 && HardStateKey(id, b)[8] == 0x68;
    assert SnapshotKey(id, a)[10..] == BigEndian(a, 4) && SnapshotKey(id, b)[10..] == BigEndian(b, 4);
    assert HardStateKey(id, a)[10..] == BigEndian(a, 4) && HardStateKey(id, b)[10..] == BigEndian(b, 4);
    Pow256Widths();
    if BigEndian(a, 4) == BigEndian(b, 4) { BigEndianInjective(a, b, 4); }
  }

  /** The snapshot and hard state that `Store` leaves behind, for every group. */
  lemma StoreTags(kvs: Kvs, id: uint64, gid: uint32, c: EntryCodec, snap: Option<bytes>, hard: Option<bytes>, es: seq<Entry>, other: uint32)
    requires SortedKvs(kvs) && Untagged(gid)
    ensures var kvs' := Stored(kvs, id, gid, c, snap, hard, es);
      && Lookup(kvs', SnapshotKey(id, other)) == (if other == gid && snap.Some? then snap else Lookup(kvs, SnapshotKey(id, other)))
      && Lookup(kvs', HardStateKey(id, other)) == (if other == gid && hard.Some? then hard else Lookup(kvs, HardStateKey(id, other)))
  {
    hide Stored, EntryKey, Prefix, SnapshotKey, HardStateKey, Lookup, SortedKvs, Dropped, Untagged;
    TagsApart(id, gid, other);
    TagKeysApart(id, other, gid);
    TagKeysApart(id, gid, other);
    TagKeysApart(id, gid, gid);
    forall k | k in {SnapshotKey(id, other), HardStateKey(id, other)}
      ensures Lookup(Stored(kvs, id, gid, c, snap, hard, es), k) == After(TagOps(id, gid, snap, hard), k, Lookup(kvs, k))
    {
      var v := After(TagOps(id, gid, snap, hard), k, Lookup(kvs, k));
      StoredLookup(kvs, id, gid, c, snap, hard, es, k);
      AfterOthers(EntryOps(id, gid, c, es), k, v);
      forall kv | kv in Dropped(kvs, id, gid, es) ensures kv.key != k { DroppedExact(kvs, id, gid, es, kv); }
      AfterDeletes(Dropped(kvs, id, gid, es), k, v);
    }
    TagOpsAfter(id, gid, snap, hard, SnapshotKey(id, other), Lookup(kvs, SnapshotKey(id, other)));
    TagOpsAfter(id, gid, snap, hard, HardStateKey(id, other), Lookup(kvs, HardStateKey(id, other)));
  }

  lemma TagOpsAfter(id: uint64, gid: uint32, snap: Option<bytes>, hard: Option<bytes>, k: bytes, v: Option<bytes>)
    ensures After(TagOps(id, gid, snap, hard), k, v) ==
      if hard.Some? && k == HardStateKey(id, gid) then hard
      else if snap.Some? && k == SnapshotKey(id, gid) then snap else v
  {
    hide HardStateKey, SnapshotKey;
    var a := if snap.Some? then [PutOp(SnapshotKey(id, gid), snap.value)] else [];
    var b := if hard.Some? then [PutOp(HardStateKey(id, gid), hard.value)] else [];
    AfterConcat(a, b, k, v);
  }

  // ---------- Entries ----------

  function Decode(kvs: Kvs, c: EntryCodec): Option<seq<Entry>> {
    if kvs == [] then Some([])
    else match c.dec(kvs[0].val)
      case None => None
      case Some(e) =>
        match Decode(kvs[1..], c)
        case None => None
        case Some(es) => Some([e] + es)
  }

  /** `Entries` on the store; `None` is an entry that does not decode. */
  function Entries(kvs: Kvs, id: uint64, gid: uint32, c: EntryCodec, from: Pos): Option<seq<Entry>> {
    Decode(Scan(kvs, EntryKey(id, gid, from), Prefix(id, gid)), c)
  }

  /** The part of a log from a position on. */
  function SuffixFrom(log: seq<Entry>, from: Pos): seq<Entry> {
    if log == [] then [] else if Before(log[0].pos, from) then SuffixFrom(log[1..], from) else log
  }

  lemma {:induction false} SuffixFromExact(log: seq<Entry>, from: Pos, e: Entry)
    requires Ascending(log)
    ensures e in SuffixFrom(log, from) <==> e in log && !Before(e.pos, from)
    ensures Ascending(SuffixFrom(log, from))
  {
    if log != [] {
      assert log == [log[0]] + log[1..];
      if Before(log[0].pos, from) {
        SuffixFromExact(log[1..], from, e);
      } else if e in log {
        var i :| 0 <= i < |log| && log[i] == e;
        assert i > 0 ==> Before(log[0].pos, log[i].pos);
      }
    }
  }

  function Pairs(id: uint64, gid: uint32, c: EntryCodec, log: seq<Entry>): (r: Kvs)
    ensures |r| == |log| && forall i :: 0 <= i < |log| ==> r[i] == KV(EntryKey(id, gid, log[i].pos), c.enc(log[i]))
  {
    seq(|log|, i requires 0 <= i < |log| => KV(EntryKey(id, gid, log[i].pos), c.enc(log[i])))
  }

  lemma {:induction false} DecodePairs(id: uint64, gid: uint32, c: EntryCodec, log: seq<Entry>)
    requires CodecOk(c)
    ensures Decode(Pairs(id, gid, c, log), c) == Some(log)
  {
    hide EntryKey;
    if log != [] {
      assert Pairs(id, gid, c, log)[1..] == Pairs(id, gid, c, log[1..]);
      DecodePairs(id, gid, c, log[1..]);
      assert log == [log[0]] + log[1..];
    }
  }

  lemma PairsSorted(id: uint64, gid: uint32, c: EntryCodec, log: seq<Entry>)
    requires Ascending(log)
    ensures SortedKvs(Pairs(id, gid, c, log))
  {
    hide EntryKey, LexLess;
    var r := Pairs(id, gid, c, log);
    forall i, j | 0 <= i < j < |r| ensures LexLess(r[i].key, r[j].key) {
      EntryKeyOrder(id, gid, log[i].pos, log[j].pos);
    }
  }

  /** If the store holds exactly the entries of a log, reading from a position returns the log's suffix. */
  lemma EntriesExact(kvs: Kvs, id: uint64, gid: uint32, c: EntryCodec, log: seq<Entry>, from: Pos)
    requires CodecOk(c) && Ascending(log) && Holds(kvs, id, gid, c, SetOf(log))
    ensures Entries(kvs, id, gid, c, from) == Some(SuffixFrom(log, from))
  {
    hide EntryKey, Prefix, Scan, SortedKvs, SuffixFrom, CodecOk, Before, LexLess;
    var start := EntryKey(id, gid, from);
    var scan, suffix := Scan(kvs, start, Prefix(id, gid)), SuffixFrom(log, from);
    EntryKeyPrefix(id, gid, from, gid);
    SuffixFromExact(log, from, Entry(from, []));
    PairsSorted(id, gid, c, suffix);
    ScanSorted(kvs, start, Prefix(id, gid));
    forall kv ensures kv in scan <==> kv in Pairs(id, gid, c, suffix) {
      ScanExact(kvs, start, Prefix(id, gid), kv);
      if kv in scan {
        var e :| e in log && kv == KV(EntryKey(id, gid, e.pos), c.enc(e));
        EntryKeyOrder(id, gid, e.pos, from);
        SuffixFromExact(log, from, e);
        var i :| 0 <= i < |suffix| && suffix[i] == e;
        assert Pairs(id, gid, c, suffix)[i] == kv;
      }
      if kv in Pairs(id, gid, c, suffix) {
        var i :| 0 <= i < |suffix| && Pairs(id, gid, c, suffix)[i] == kv;
        var e := suffix[i];
        SuffixFromExact(log, from, e);
        EntryKeyOrder(id, gid, e.pos, from);
        EntryKeyPrefix(id, gid, e.pos, gid);
      }
    }
    SortedUnique(scan, Pairs(id, gid, c, suffix));
    DecodePairs(id, gid, c, suffix);
  }

  lemma ScanSorted(kvs: Kvs, start: bytes, prefix: bytes)
    requires SortedKvs(kvs)
    ensures SortedKvs(Scan(kvs, start, prefix))
  {
    ScanAtSorted(kvs, SeekPos(kvs, start), prefix);
  }

  // ---------- Runs of the log that all groups share ----------

  datatype Batch = Batch(gid: uint32, snap: Option<bytes>, hard: Option<bytes>, es: seq<Entry>)

  function StoreAll(kvs: Kvs, id: uint64, c: EntryCodec, bs: seq<Batch>): Kvs
    decreases |bs|
  {
    if bs == [] then kvs
    else StoreAll(Stored(kvs, id, bs[0].gid, c, bs[0].snap, bs[0].hard, bs[0].es), id, c, bs[1..])
  }

  /** The entries given to group `g`, batch by batch. */
  function BatchesOf(bs: seq<Batch>, g: uint32): seq<seq<Entry>> {
    if bs == [] then []
    else (if bs[0].gid == g then [bs[0].es] else []) + BatchesOf(bs[1..], g)
  }

  ghost function RunSet(s: set<Entry>, ess: seq<seq<Entry>>): set<Entry>
    decreases |ess|
  {
    if ess == [] then s else RunSet(Written(s, ess[0]), ess[1..])
  }

  function Concat(ess: seq<seq<Entry>>): seq<Entry> {
    if ess == [] then [] else ess[0] + Concat(ess[1..])
  }

  /** One batch of the run, seen from group `g`. */
  lemma StoreStep(kvs: Kvs, id: uint64, g: uint32, c: EntryCodec, s: set<Entry>, b: Batch)
    requires Untagged(g) && Holds(kvs, id, g, c, s) && (b.gid == g ==> Ascending(b.es))
    ensures Holds(Stored(kvs, id, b.gid, c, b.snap, b.hard, b.es), id, g, c, if b.gid == g then Written(s, b.es) else s)
  {
    hide Stored, Holds, Untagged, Ascending, Written;
    if b.gid == g {
      StoreRefines(kvs, id, g, c, b.snap, b.hard, b.es, s);
    } else {
      StoreFrames(kvs, id, b.gid, c, b.snap, b.hard, b.es, g, s);
    }
  }

  /**
   Every run of `Store`, with the batches of all groups interleaved and
   overwriting or not: each group's entries are those of the run of its own
   batches alone.
   */
  lemma {:induction false} RunRefines(kvs: Kvs, id: uint64, g: uint32, c: EntryCodec, s: set<Entry>, bs: seq<Batch>)
    requires Untagged(g) && Holds(kvs, id, g, c, s)
    requires forall b :: b in bs && b.gid == g ==> Ascending(b.es)
    ensures Holds(StoreAll(kvs, id, c, bs), id, g, c, RunSet(s, BatchesOf(bs, g)))
    decreases |bs|
  {
    hide Stored, Holds, Untagged, Ascending, Written;
    if bs != [] {
      var b, rest := bs[0], BatchesOf(bs[1..], g);
      StoreStep(kvs, id, g, c, s, b);
      RunRefines(Stored(kvs, id, b.gid, c, b.snap, b.hard, b.es), id, g, c, if b.gid == g then Written(s, b.es) else s, bs[1..]);
      assert ([b.es] + rest)[1..] == rest && [] + rest == rest;
    }
  }

  /**
   In every run in which the batches of `g` extend the log of `g`, whatever
   happens to other groups in between: the store holds exactly that log, and
   `Entries` reads any suffix of it.
   */
  lemma ExtendingRun(kvs: Kvs, id: uint64, g: uint32, c: EntryCodec, log: seq<Entry>, bs: seq<Batch>)
    requires CodecOk(c) && Untagged(g) && Holds(kvs, id, g, c, SetOf(log))
    requires Ascending(log + Concat(BatchesOf(bs, g)))
    requires forall e :: e in Concat(BatchesOf(bs, g)) ==> e.pos.index < MAX_UINT64
    ensures Holds(StoreAll(kvs, id, c, bs), id, g, c, SetOf(log + Concat(BatchesOf(bs, g))))
    ensures forall from :: Entries(StoreAll(kvs, id, c, bs), id, g, c, from) == Some(SuffixFrom(log + Concat(BatchesOf(bs, g)), from))
  {
    hide StoreAll, Holds, Entries, SuffixFrom, CodecOk, Untagged, RunSet;
    var ess := BatchesOf(bs, g);
    forall b | b in bs && b.gid == g ensures Ascending(b.es) {
      BatchOf(bs, b);
      PartAscending(log, ess, b.es);
    }
    RunRefines(kvs, id, g, c, SetOf(log), bs);
    ExtendingSet(log, ess);
    forall from { EntriesExact(StoreAll(kvs, id, c, bs), id, g, c, log + Concat(ess), from); }
  }

  lemma {:induction false} BatchOf(bs: seq<Batch>, b: Batch)
    requires b in bs
    ensures b.es in BatchesOf(bs, b.gid)
  {
    if bs[0] != b { BatchOf(bs[1..], b); }
  }

  lemma {:induction false} PartAscending(log: seq<Entry>, ess: seq<seq<Entry>>, es: seq<Entry>)
    requires es in ess && Ascending(log + Concat(ess))
    ensures Ascending(es)
    decreases |ess|
  {
    assert log + Concat(ess) == log + ess[0] + Concat(ess[1..]);
    AscendingSplit(log, ess[0], Concat(ess[1..]));
    if ess[0] != es { PartAscending(log + ess[0], ess[1..], es); }
  }

  /** Batches that extend the log drop nothing. */
  lemma {:induction false} ExtendingSet(log: seq<Entry>, ess: seq<seq<Entry>>)
    requires Ascending(log + Concat(ess)) && forall e :: e in Concat(ess) ==> e.pos.index < MAX_UINT64
    ensures RunSet(SetOf(log), ess) == SetOf(log + Concat(ess))
    decreases |ess|
  {
    hide Ascending, Written;
    if ess == [] {
      assert log + Concat(ess) == log;
    } else {
      var es := ess[0];
      assert log + Concat(ess) == (log + es) + Concat(ess[1..]);
      AscendingSplit(log, es, Concat(ess[1..]));
      assert es != [] ==> es[|es| - 1] in Concat(ess);
      ExtendingPut(log, es);
      ExtendingSet(log + es, ess[1..]);
    }
  }

  lemma AscendingSplit(a: seq<Entry>, b: seq<Entry>, d: seq<Entry>)
    requires Ascending(a + b + d)
    ensures Ascending(a + b) && Ascending(b)
  {
    var all := a + b + d;
    forall i, j | 0 <= i < j < |a + b| ensures Before((a + b)[i].pos, (a + b)[j].pos) {
      assert (a + b)[i] == all[i] && (a + b)[j] == all[j];
    }
    forall i, j | 0 <= i < j < |b| ensures Before(b[i].pos, b[j].pos) {
      assert b[i] == all[|a| + i] && b[j] == all[|a| + j];
    }
  }

  /** A batch above the whole log drops nothing and replaces nothing. */
  lemma ExtendingPut(log: seq<Entry>, es: seq<Entry>)
    requires Ascending(log + es) && (es != [] ==> LastPos(es).index < MAX_UINT64)
    ensures Written(SetOf(log), es) == SetOf(log + es)
  {
    var all := log + es;
    forall e | e in log ensures !Cut(es, e.pos) && !InBatch(es, e.pos) {
      var i :| 0 <= i < |log| && log[i] == e;
      assert es != [] ==> all[i] == e && all[|all| - 1] == es[|es| - 1];
      forall j | 0 <= j < |es| ensures es[j].pos != e.pos {
        assert all[|log| + j] == es[j] && Before(all[i].pos, all[|log| + j].pos);
      }
    }
    forall e | e in es ensures !Cut(es, e.pos) {
      var j :| 0 <= j < |es| && es[j] == e;
      assert all[|log| + j] == e && all[|all| - 1] == es[|es| - 1];
    }
  }
}
