/** Keys of the write-ahead log (`raftwal/wal.go`). */
module WalKeys {
  import opened Bytes

  /** Where a Raft entry stands. */
  datatype Pos = Pos(term: uint64, index: uint64)

  predicate Before(p: Pos, q: Pos) {
    p.term < q.term || (p.term == q.term && p.index < q.index)
  }

  function Prefix(id: uint64, gid: uint32): (r: bytes)
    ensures |r| == 12
  {
    BigEndian(id, 8) + BigEndian(gid, 4)
  }

  function EntryKey(id: uint64, gid: uint32, p: Pos): (r: bytes)
    ensures |r| == 28
  {
    Prefix(id, gid) + (BigEndian(p.term, 8) + BigEndian(p.index, 8))
  }

  function SnapshotKey(id: uint64, gid: uint32): (r: bytes)
    ensures |r| == 14
  {
    BigEndian(id, 8) + [0x73, 0x73] + BigEndian(gid, 4)
  }

  function HardStateKey(id: uint64, gid: uint32): (r: bytes)
    ensures |r| == 14
  {
    BigEndian(id, 8) + [0x68, 0x73] + BigEndian(gid, 4)
  }

  /** The upper half of the group id does not spell one of the tags "ss" and "hs". */
  predicate Untagged(gid: uint32) {
    gid / 65536 != 0x7373 && gid / 65536 != 0x6873
  }

  /** What stands in which bytes of an entry key. */
  lemma EntryKeyLayout(id: uint64, gid: uint32, p: Pos)
    ensures var k := EntryKey(id, gid, p);
      && FromBigEndian(k[..8]) == id && FromBigEndian(k[8..12]) == gid
      && FromBigEndian(k[12..20]) == p.term && FromBigEndian(k[20..]) == p.index
  {
    var k := EntryKey(id, gid, p);
    Pow256Widths();
    BigEndianRoundTrip(id, 8);
    BigEndianRoundTrip(gid, 4);
    BigEndianRoundTrip(p.term, 8);
    BigEndianRoundTrip(p.index, 8);
    assert k[..8] == BigEndian(id, 8) && k[8..12] == BigEndian(gid, 4);
    assert k[12..20] == BigEndian(p.term, 8) && k[20..] == BigEndian(p.index, 8);
  }

  /** And of the other two keys: the tag stands before the group. */
  lemma TagKeyLayout(id: uint64, gid: uint32)
    ensures var s, h := SnapshotKey(id, gid), HardStateKey(id, gid);
      && FromBigEndian(s[..8]) == FromBigEndian(h[..8]) == id && FromBigEndian(s[10..]) == FromBigEndian(h[10..]) == gid
      && s[8] as char == 's' && s[9] as char == 's' && h[8] as char == 'h' && h[9] as char == 's'
  {
    var s, h := SnapshotKey(id, gid), HardStateKey(id, gid);
    Pow256Widths();
    BigEndianRoundTrip(id, 8);
    BigEndianRoundTrip(gid, 4);
    assert s[..8] == BigEndian(id, 8) == h[..8];
    assert s[10..] == BigEndian(gid, 4) == h[10..];
  }

  /** Within a group the keys order as (term, index). */
  lemma EntryKeyOrder(id: uint64, gid: uint32, p: Pos, q: Pos)
    ensures LexLess(EntryKey(id, gid, p), EntryKey(id, gid, q)) <==> Before(p, q)
    ensures EntryKey(id, gid, p) == EntryKey(id, gid, q) <==> p == q
  {
    Pow256Widths();
    var pt, pi, qt, qi := BigEndian(p.term, 8), BigEndian(p.index, 8), BigEndian(q.term, 8), BigEndian(q.index, 8);
    LexPrefix(Prefix(id, gid), pt + pi, qt + qi);
    LexBlocks(pt, qt, pi, qi);
    BigEndianOrder(p.term, q.term, 8);
    BigEndianOrder(p.index, q.index, 8);
    if pt == qt { BigEndianInjective(p.term, q.term, 8); }
    if EntryKey(id, gid, p) == EntryKey(id, gid, q) {
      assert pt + pi == EntryKey(id, gid, p)[12..] && qt + qi == EntryKey(id, gid, q)[12..];
      assert pt == (pt + pi)[..8] && qt == (qt + qi)[..8];
      assert pi == (pt + pi)[8..] && qi == (qt + qi)[8..];
      BigEndianInjective(p.index, q.index, 8);
    }
  }

  /** An entry key has the prefix of its own group only. */
  lemma EntryKeyPrefix(id: uint64, gid: uint32, p: Pos, gid': uint32)
    ensures HasPrefix(EntryKey(id, gid, p), Prefix(id, gid')) <==> gid == gid'
  {
    assert EntryKey(id, gid, p)[..12] == Prefix(id, gid);
    if Prefix(id, gid) == Prefix(id, gid') {
      assert Prefix(id, gid)[8..] == BigEndian(gid, 4) && Prefix(id, gid')[8..] == BigEndian(gid', 4);
      Pow256Widths();
      BigEndianInjective(gid, gid', 4);
    }
  }

  lemma UpperHalf(gid: uint32)
    ensures BigEndian(gid, 4)[..2] == BigEndian(gid / 65536, 2)
  {
    assert BigEndian(gid, 4) == BigEndian(gid / 256, 3) + [gid % 256];
    assert BigEndian(gid / 256, 3) == BigEndian(gid / 256 / 256, 2) + [gid / 256 % 256];
    assert gid / 256 / 256 == gid / 65536;
  }

  lemma TagBytes()
    ensures BigEndian(0x7373, 2) == [0x73, 0x73]
    ensures BigEndian(0x6873, 2) == [0x68, 0x73]
  {
    assert BigEndian(0x73, 1) == [0x73] && BigEndian(0x68, 1) == [0x68];
  }

  /** Snapshot and hard-state keys stay out of the range of an untagged group, and are never entry keys. */
  lemma TagsApart(id: uint64, gid: uint32, other: uint32)
    requires Untagged(gid)
    ensures !HasPrefix(SnapshotKey(id, other), Prefix(id, gid))
    ensures !HasPrefix(HardStateKey(id, other), Prefix(id, gid))
  {
    var ss, hs, p := SnapshotKey(id, other), HardStateKey(id, other), Prefix(id, gid);
    UpperHalf(gid);
    TagBytes();
    assert p[8..10] == BigEndian(gid, 4)[..2];
    assert Pow256(2) == 65536;
    if HasPrefix(ss, p) {
      assert ss[8..10] == [0x73, 0x73] && ss[..12][8..10] == p[8..10];
      BigEndianInjective(gid / 65536, 0x7373, 2);
    }
    if HasPrefix(hs, p) {
      assert hs[8..10] == [0x68, 0x73] && hs[..12][8..10] == p[8..10];
      BigEndianInjective(gid / 65536, 0x6873, 2);
    }
  }

  /** A key made of a tag and a group id has the prefix of a group id whose upper half is the tag. */
  lemma TagCollides(id: uint64, tag: nat, low: nat)
    requires tag < 65536 && low < 65536
    ensures HasPrefix(BigEndian(id, 8) + BigEndian(tag, 2) + BigEndian(low * 65536, 4), Prefix(id, tag * 65536 + low))
  {
    hide BigEndian;
    var gid, other := tag * 65536 + low, low * 65536;
    UpperHalf(gid);
    UpperHalf(other);
    LowerHalf(tag, low);
    var k, p := BigEndian(id, 8) + BigEndian(tag, 2) + BigEndian(other, 4), Prefix(id, gid);
    assert gid / 65536 == tag && other / 65536 == low;
    assert BigEndian(gid, 4) == BigEndian(gid, 4)[..2] + BigEndian(gid, 4)[2..];
    assert BigEndian(other, 4) == BigEndian(other, 4)[..2] + BigEndian(other, 4)[2..];
    assert p == BigEndian(id, 8) + BigEndian(tag, 2) + BigEndian(low, 2);
    assert k == BigEndian(id, 8) + BigEndian(tag, 2) + (BigEndian(low, 2) + BigEndian(other, 4)[2..]);
    assert k[..12] == p;
  }

  /** The range of a group is free of snapshot and hard-state keys if and only if the group is untagged. */
  lemma TagsApartIff(id: uint64, gid: uint32)
    ensures (forall other: uint32 :: !HasPrefix(SnapshotKey(id, other), Prefix(id, gid)) && !HasPrefix(HardStateKey(id, other), Prefix(id, gid)))
       <==> Untagged(gid)
  {
    hide BigEndian, HasPrefix, Prefix;
    if Untagged(gid) {
      forall other: uint32
        ensures !HasPrefix(SnapshotKey(id, other), Prefix(id, gid)) && !HasPrefix(HardStateKey(id, other), Prefix(id, gid))
      {
        TagsApart(id, gid, other);
      }
    } else {
      var low := gid % 65536;
      var other: uint32 := low * 65536;
      TagBytes();
      TagCollides(id, gid / 65536, low);
      assert gid == gid / 65536 * 65536 + low;
      assert HasPrefix(SnapshotKey(id, other), Prefix(id, gid)) || HasPrefix(HardStateKey(id, other), Prefix(id, gid));
    }
  }

  lemma BigEndianStep(v: nat, n: nat)
    ensures BigEndian(v, n + 1) == BigEndian(v / 256, n) + [v % 256]
  {
  }

  /** Dividing by 256 leaves the upper part alone. */
  lemma DivLow(high: nat, low: nat)
    ensures (high * 65536 + low) / 256 == high * 256 + low / 256 && (high * 65536 + low) % 256 == low % 256
    ensures (high * 256 + low / 256) % 256 == low / 256 % 256
  {
  }

  lemma LowerHalf(high: nat, low: nat)
    requires low < 65536
    ensures BigEndian(high * 65536 + low, 4)[2..] == BigEndian(low, 2)
  {
    hide BigEndian;
    var gid := high * 65536 + low;
    DivLow(high, low);
    BigEndianStep(gid, 3);
    BigEndianStep(gid / 256, 2);
    BigEndianStep(low, 1);
    BigEndianStep(low / 256, 0);
    var upper := BigEndian(gid / 256 / 256, 2);
    assert BigEndian(gid, 4) == upper + [low / 256 % 256] + [low % 256];
    assert BigEndian(low, 2) == BigEndian(low / 256 / 256, 0) + [low / 256 % 256] + [low % 256];
  }
}
