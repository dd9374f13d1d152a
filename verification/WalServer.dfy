/** `raftwal.Wal`: the loops of `Store` and `Entries`. */
module WalServer {
  import opened Bytes
  import opened OrderedStore
  import opened WalKeys
  import opened Wal
  import opened WalLaws

  /** The puts of the entries, and the position of the last one. */
  method PutEntries(id: uint64, gid: uint32, codec: EntryCodec, es: seq<Entry>) returns (b: seq<BatchOp>, p: Pos)
    ensures b == EntryOps(id, gid, codec, es) && p == LastPos(es)
  {
    hide EntryKey;
    b, p := [], Pos(0, 0);
    for k := 0 to |es|
      invariant p == LastPos(es[..k])
      invariant b == EntryOps(id, gid, codec, es)[..k]
    {
      p := es[k].pos;
      b := b + [PutOp(EntryKey(id, gid, es[k].pos), codec.enc(es[k]))];
    }
    assert es[..|es|] == es;
  }

  /** The deletions: an iterator from `start` while the prefix holds. */
  method DeleteFrom(wals: Kvs, start: bytes, prefix: bytes) returns (b: seq<BatchOp>)
    ensures b == DelOps(Scan(wals, start, prefix))
  {
    hide HasPrefix, LexLess;
    b := [];
    var itr: nat := SeekPos(wals, start);
    ghost var done: Kvs := [];
    while itr < |wals| && HasPrefix(wals[itr].key, prefix)
      invariant itr <= |wals|
      invariant Scan(wals, start, prefix) == done + ScanAt(wals, itr, prefix)
      invariant b == DelOps(done)
    {
      assert ScanAt(wals, itr, prefix) == [wals[itr]] + ScanAt(wals, itr + 1, prefix);
      b := b + [DelOp(wals[itr].key)];
      done := done + [wals[itr]];
      itr := itr + 1;
    }
    assert done + [] == done;
  }

  class WriteAheadLog {
    const id: uint64
    const codec: EntryCodec
    var wals: Kvs

    constructor (id: uint64, codec: EntryCodec, wals: Kvs)
      ensures this.id == id && this.codec == codec && this.wals == wals
    {
      this.id := id;
      this.codec := codec;
      this.wals := wals;
    }

    /** `Store`: one batch with the snapshot, the hard state, the entries and the deletions, written at once. */
    method Store(gid: uint32, snap: Option<bytes>, hard: Option<bytes>, es: seq<Entry>)
      requires SortedKvs(wals)
      modifies this
      ensures SortedKvs(wals) && wals == Stored(old(wals), id, gid, codec, snap, hard, es)
    {
      hide Scan, EntryKey, SortedKvs, Write, DelOps, EntryOps;
      var b: seq<BatchOp> := [];
      if snap.Some? {
        b := b + [PutOp(SnapshotKey(id, gid), snap.value)];
      }
      if hard.Some? {
        b := b + [PutOp(HardStateKey(id, gid), hard.value)];
      }
      assert b == TagOps(id, gid, snap, hard);
      var puts, last := PutEntries(id, gid, codec, es);
      b := b + puts;
      if last.term > 0 || last.index > 0 {
        var dels := DeleteFrom(wals, EntryKey(id, gid, NextPos(last)), Prefix(id, gid));
        b := b + dels;
      } else {
        assert b + DelOps([]) == b;
      }
      StoredLookup(wals, id, gid, codec, snap, hard, es, []);
      wals := Write(wals, b);
    }

    /** `Entries` */
    method Read(gid: uint32, from: Pos) returns (r: Option<seq<Entry>>)
      ensures r == Entries(wals, id, gid, codec, from)
    {
      hide EntryKey, Prefix, Decode, HasPrefix, LexLess, ScanAt;
      var start := EntryKey(id, gid, from);
      var prefix := Prefix(id, gid);
      var itr: nat := SeekPos(wals, start);
      var es: seq<Entry> := [];
      PrependNothing(Entries(wals, id, gid, codec, from));
      while itr < |wals| && HasPrefix(wals[itr].key, prefix)
        invariant itr <= |wals|
        invariant Entries(wals, id, gid, codec, from) == Prepend(es, Decode(ScanAt(wals, itr, prefix), codec))
      {
        DecodeStep(wals, itr, prefix, codec, es);
        var e := codec.dec(wals[itr].val);
        if e.None? {
          return None;
        }
        es := es + [e.value];
        itr := itr + 1;
      }
      DecodeEnd(wals, itr, prefix, codec, es);
      return Some(es);
    }
  }

  ghost function Prepend(es: seq<Entry>, r: Option<seq<Entry>>): Option<seq<Entry>> {
    if r.None? then None else Some(es + r.value)
  }

  lemma PrependNothing(r: Option<seq<Entry>>)
    ensures Prepend([], r) == r
  {
    if r.Some? { assert [] + r.value == r.value; }
  }

  lemma DecodeStep(s: Kvs, i: nat, prefix: bytes, c: EntryCodec, es: seq<Entry>)
    requires i < |s| && HasPrefix(s[i].key, prefix)
    ensures var e := c.dec(s[i].val);
      Prepend(es, Decode(ScanAt(s, i, prefix), c))
      == if e.None? then None else Prepend(es + [e.value], Decode(ScanAt(s, i + 1, prefix), c))
  {
    hide HasPrefix;
    var rest := ScanAt(s, i + 1, prefix);
    assert ScanAt(s, i, prefix) == [s[i]] + rest;
    assert ([s[i]] + rest)[1..] == rest;
    var e, r := c.dec(s[i].val), Decode(rest, c);
    if e.Some? && r.Some? {
      assert es + ([e.value] + r.value) == (es + [e.value]) + r.value;
    }
  }

  lemma DecodeEnd(s: Kvs, i: nat, prefix: bytes, c: EntryCodec, es: seq<Entry>)
    requires i <= |s| && (i == |s| || !HasPrefix(s[i].key, prefix))
    ensures Prepend(es, Decode(ScanAt(s, i, prefix), c)) == Some(es)
  {
    assert es + [] == es;
  }
}
