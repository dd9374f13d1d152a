/**
 Catching up with a leader (`worker/predicate.go`): the follower sends its keys
 with their checksums, the leader streams every pair the follower lacks or has
 with another checksum, and the follower writes the stream in batches.
 */
module ShardSync {
  import opened Bytes
  import opened Codec
  import opened CodecLaws
  import opened CodecBuffers
  import Lists
  import opened OrderedStore
  import GoSort

  datatype KC = KC(key: bytes, checksum: bytes)

  /** The checksum inside a stored posting list; `None` when the bytes do not parse, which is fatal. */
  function ChecksumOf(val: bytes): Option<bytes> {
    match ParsePostingList(val, 0, EMPTY_LIST)
    case Ok(pl) => Some(pl.checksum)
    case Err(_) => None
  }

  ghost predicate Parses(s: Kvs) {
    forall i :: 0 <= i < |s| ==> ChecksumOf(s[i].val).Some?
  }

  /** The follower must be sent `kv`. */
  predicate Needed(follower: Kvs, kv: KV) {
    match Lookup(follower, kv.key)
    case None => true
    case Some(v) => ChecksumOf(v) != ChecksumOf(kv.val)
  }

  function Stream(leader: Kvs, follower: Kvs): Kvs {
    if leader == [] then []
    else (if Needed(follower, leader[0]) then [leader[0]] else []) + Stream(leader[1..], follower)
  }

  /** Writing pairs in order. */
  function PutOps(s: Kvs): (r: seq<BatchOp>)
    ensures |r| == |s| && forall i :: 0 <= i < |s| ==> r[i] == PutOp(s[i].key, s[i].val)
  {
    seq(|s|, i requires 0 <= i < |s| => PutOp(s[i].key, s[i].val))
  }

  function PutAll(store: Kvs, s: Kvs): Kvs {
    Write(store, PutOps(s))
  }

  // ---------- generateGroup ----------

  method GenerateGroup(kvs: Kvs) returns (r: Option<seq<KC>>)
    ensures r.Some? <==> Parses(kvs)
    ensures r.Some? ==> |r.value| == |kvs|
    ensures r.Some? ==> forall i :: 0 <= i < |kvs| ==> r.value[i] == KC(kvs[i].key, ChecksumOf(kvs[i].val).value)
    ensures r.Some? ==> forall i :: 0 <= i < |kvs| ==>
              ParsePostingList(kvs[i].val, 0, EMPTY_LIST).Ok? && r.value[i].checksum == ParsePostingList(kvs[i].val, 0, EMPTY_LIST).value.checksum
  {
    hide ParsePostingList;
    var keys: seq<KC> := [];
    for i := 0 to |kvs|
      invariant |keys| == i
      invariant forall k :: 0 <= k < i ==> ChecksumOf(kvs[k].val).Some? && keys[k] == KC(kvs[k].key, ChecksumOf(kvs[k].val).value)
    {
      var pl := UnmarshalPostingList(kvs[i].val);
      if pl.Err? {
        assert ChecksumOf(kvs[i].val).None?;
        return None;
      }
      keys := keys + [KC(kvs[i].key, pl.value.checksum)];
    }
    r := Some(keys);
  }

  // ---------- PredicateData ----------

  /** What the binary search for a key finds in the keys of a sorted store. */
  method SearchKey(ghost follower: Kvs, keys: seq<KC>, k: bytes) returns (idx: nat)
    requires SortedKvs(follower) && |keys| == |follower|
    requires forall i :: 0 <= i < |keys| ==> keys[i].key == follower[i].key
    ensures idx <= |keys|
    ensures idx < |keys| && keys[idx].key == k ==> Lookup(follower, k) == Some(follower[idx].val)
    ensures !(idx < |keys| && keys[idx].key == k) ==> Lookup(follower, k) == None
  {
    var f := i requires 0 <= i < |keys| => LexLeq(k, keys[i].key);
    forall i, j | 0 <= i < j < |keys| && f(i) ensures f(j) {
      if k != keys[i].key { LexTransitive(k, keys[i].key, keys[j].key); }
    }
    idx := GoSort.Search(|keys|, f);
    if idx < |keys| && keys[idx].key == k {
      LookupMember(follower, k, follower[idx].val);
    } else if Lookup(follower, k).Some? {
      LookupMember(follower, k, Lookup(follower, k).value);
      var j :| 0 <= j < |follower| && follower[j] == KV(k, Lookup(follower, k).value);
      assert f(j);
      assert f(idx);
      assert idx < j;
      LexAsymmetric(keys[idx].key, keys[j].key);
    }
  }

  /** `PredicateData` against the keys of `follower`; `None` is a leader value that does not parse. */
  method PredicateData(leader: Kvs, ghost follower: Kvs, keys: seq<KC>) returns (r: Option<Kvs>)
    requires SortedKvs(follower) && Parses(follower) && |keys| == |follower|
    requires forall i :: 0 <= i < |keys| ==> keys[i] == KC(follower[i].key, ChecksumOf(follower[i].val).value)
    ensures r.Some? <==> Parses(leader)
    ensures r.Some? ==> r.value == Stream(leader, follower)
  {
    hide ParsePostingList, LexLess, Lookup, SortedKvs;
    var sent: Kvs := [];
    for i := 0 to |leader|
      invariant forall k :: 0 <= k < i ==> ChecksumOf(leader[k].val).Some?
      invariant sent + Stream(leader[i..], follower) == Stream(leader, follower)
    {
      var kv := leader[i];
      assert leader[i..][0] == kv && leader[i..][1..] == leader[i + 1..];
      var pl := UnmarshalPostingList(kv.val);
      if pl.Err? {
        assert ChecksumOf(leader[i].val).None?;
        return None;
      }
      var idx := SearchKey(follower, keys, kv.key);
      var skip := false;
      if idx < |keys| {
        var t := keys[idx];
        skip := pl.value.checksum == t.checksum && kv.key == t.key;
      }
      assert skip <==> !Needed(follower, kv);
      if !skip {
        assert (sent + [kv]) + Stream(leader[i + 1..], follower) == sent + Stream(leader[i..], follower);
        sent := sent + [kv];
      }
    }
    r := Some(sent);
  }

  // ---------- writeBatch ----------

  const BATCH_BYTES: nat := 32 * 1048576

  function SizeOf(s: Kvs): nat {
    if s == [] then 0 else SizeOf(s[..|s| - 1]) + |s[|s| - 1].key| + |s[|s| - 1].val|
  }

  lemma {:induction false} WriteConcat(store: Kvs, a: seq<BatchOp>, b: seq<BatchOp>)
    ensures Write(store, a + b) == Write(Write(store, a), b)
    decreases |a|
  {
    hide Put, Delete;
    if a == [] {
      assert a + b == b;
    } else {
      assert (a + b)[1..] == a[1..] + b;
      WriteConcat(if a[0].PutOp? then Put(store, a[0].key, a[0].val) else Delete(store, a[0].key), a[1..], b);
    }
  }

  lemma PutAllConcat(store: Kvs, a: Kvs, b: Kvs)
    ensures PutAll(store, a + b) == PutAll(PutAll(store, a), b)
  {
    hide Write;
    assert PutOps(a + b) == PutOps(a) + PutOps(b);
    WriteConcat(store, PutOps(a), PutOps(b));
  }

  /** Only the empty key with the empty value weighs nothing, and it comes first in a sorted stream. */
  lemma WeightlessTail(kvs: Kvs, f: nat)
    requires SortedKvs(kvs) && f < |kvs| && SizeOf(kvs[f..]) == 0
    ensures kvs == [KV([], [])]
  {
    assert |kvs| > 1 ==> LexLess(kvs[0].key, kvs[|kvs| - 1].key);
    var t := kvs[f..];
    assert t[|t| - 1].key == [] && t[|t| - 1].val == [];
    assert kvs[|kvs| - 1] == t[|t| - 1];
  }

  /** The stream that `writeBatch` loses: it ends with a batch that weighs nothing. */
  predicate Lost(stream: Kvs) {
    stream == [KV([], [])]
  }

  /** `writeBatch`: flush whenever the batch reaches 32 MB, and once more at the end if it weighs anything. */
  method WriteBatch(pstore: Kvs, kvs: Kvs) returns (r: Kvs)
    requires SortedKvs(kvs)
    ensures r == if Lost(kvs) then pstore else PutAll(pstore, kvs)
  {
    hide SortedKvs, PutAll, SizeOf;
    r := pstore;
    var wb: Kvs := [];
    var batchSize := 0;
    ghost var flushed: nat := 0;
    PutNothing(pstore);
    for i := 0 to |kvs|
      invariant flushed <= i && wb == kvs[flushed..i] && batchSize == SizeOf(wb)
      invariant r == PutAll(pstore, kvs[..flushed])
      invariant flushed > 0 ==> SizeOf(kvs[..flushed]) > 0
    {
      var kv := kvs[i];
      SizeSnoc(wb, kv);
      wb := wb + [kv];
      batchSize := batchSize + |kv.key| + |kv.val|;
      if batchSize >= BATCH_BYTES {
        PutAllConcat(pstore, kvs[..flushed], wb);
        assert kvs[..flushed] + wb == kvs[..i + 1];
        SizeConcat(kvs[..flushed], wb);
        r := PutAll(r, wb);
        flushed := i + 1;
        batchSize := 0;
        wb := [];
        PutNothing(pstore);
      }
    }
    assert kvs[..flushed] + wb == kvs;
    if batchSize > 0 {
      PutAllConcat(pstore, kvs[..flushed], wb);
      r := PutAll(r, wb);
      SizeConcat(kvs[..flushed], wb);
    } else if flushed < |kvs| {
      assert kvs[flushed..] == wb;
      WeightlessTail(kvs, flushed);
      assert flushed == 0;
    } else {
      assert kvs[..flushed] == kvs;
    }
    LostWeight();
  }

  lemma LostWeight()
    ensures SizeOf([KV([], [])]) == 0
  {
    assert [KV([], [])][..0] == [];
  }

  lemma PutNothing(store: Kvs)
    ensures PutAll(store, []) == store
    ensures SizeOf([]) == 0
  {
  }

  lemma SizeSnoc(s: Kvs, kv: KV)
    ensures SizeOf(s + [kv]) == SizeOf(s) + |kv.key| + |kv.val|
  {
    assert (s + [kv])[..|s|] == s;
  }

  lemma {:induction false} SizeConcat(a: Kvs, b: Kvs)
    ensures SizeOf(a + b) == SizeOf(a) + SizeOf(b)
    decreases |b|
  {
    if b == [] {
      assert a + b == a;
    } else {
      var t, kv := b[..|b| - 1], b[|b| - 1];
      SizeConcat(a, t);
      assert a + b == (a + t) + [kv];
      SizeSnoc(a + t, kv);
    }
  }

  // ---------- The exchange ----------

  lemma {:induction false} StreamExact(leader: Kvs, follower: Kvs, kv: KV)
    requires SortedKvs(leader)
    ensures kv in Stream(leader, follower) <==> kv in leader && Needed(follower, kv)
    ensures SortedKvs(Stream(leader, follower))
  {
    hide Needed, SortedKvs;
    if leader != [] {
      SortedTail(leader);
      StreamExact(leader[1..], follower, kv);
      assert leader == [leader[0]] + leader[1..];
    }
    StreamSorted(leader, follower);
  }

  lemma {:induction false} StreamAbove(leader: Kvs, follower: Kvs, k: bytes)
    requires AllAbove(leader, k)
    ensures AllAbove(Stream(leader, follower), k)
  {
    hide LexLess, Needed;
    if leader != [] { StreamAbove(leader[1..], follower, k); }
  }

  lemma {:induction false} StreamSorted(leader: Kvs, follower: Kvs)
    requires SortedKvs(leader)
    ensures SortedKvs(Stream(leader, follower))
  {
    hide LexLess, Needed, AllAbove;
    if leader != [] {
      SortedTail(leader);
      StreamSorted(leader[1..], follower);
      StreamAbove(leader[1..], follower, leader[0].key);
      SortedCons(leader[0], Stream(leader[1..], follower));
      assert [] + Stream(leader[1..], follower) == Stream(leader[1..], follower);
    }
  }

  /** Writing a sorted list of pairs: its pairs win, everything else stays. */
  lemma {:induction false} PutAllLookup(store: Kvs, s: Kvs, k: bytes)
    requires SortedKvs(store) && SortedKvs(s)
    ensures SortedKvs(PutAll(store, s))
    ensures Lookup(PutAll(store, s), k) == if Lookup(s, k).Some? then Lookup(s, k) else Lookup(store, k)
  {
    WriteLaw(store, PutOps(s));
    AfterPuts(s, k, Lookup(store, k));
  }

  lemma {:induction false} AfterPuts(s: Kvs, k: bytes, v: Option<bytes>)
    requires SortedKvs(s)
    ensures After(PutOps(s), k, v) == if Lookup(s, k).Some? then Lookup(s, k) else v
    decreases |s|
  {
    if s != [] {
      SortedTail(s);
      assert PutOps(s)[1..] == PutOps(s[1..]);
      AfterPuts(s[1..], k, if s[0].key == k then Some(s[0].val) else v);
      if s[0].key == k { LookupBelow(s[1..], k); }
    }
  }

  /** How an exchange ends. */
  datatype Ending =
    | Whole                                      // the stream is read to its end and written
    | StreamFails(received: nat)                 // reading fails: everything read before is written
    | Cancelled(sent: nat)                       // the context is done with one more pair in hand
    | WriteFails(flushed: nat, received: nat)    // a batch cannot be written: only the batches before it are

  ghost predicate Possible(e: Ending, stream: Kvs) {
    match e
    case Whole => true
    case StreamFails(n) => n <= |stream|
    case Cancelled(n) => n < |stream|
    case WriteFails(m, n) => m < n <= |stream|
  }

  /** How many pairs end up in the follower's store. */
  function Kept(e: Ending, n: nat): nat {
    match e
    case Whole => n
    case StreamFails(received) => received
    case Cancelled(sent) => sent
    case WriteFails(flushed, _) => flushed
  }

  /** The count that is returned: a pair is counted before it is handed on. */
  function Counted(e: Ending, n: nat): nat {
    match e
    case Whole => n
    case StreamFails(received) => received
    case Cancelled(sent) => sent + 1
    case WriteFails(_, received) => received
  }

  /**
   `populateShard`: the follower's store after the exchange and the count
   returned; `None` when a stored value does not parse.
   */
  method PopulateShard(leader: Kvs, follower: Kvs, e: Ending) returns (r: Option<(Kvs, nat)>)
    requires SortedKvs(leader) && SortedKvs(follower) && Possible(e, Stream(leader, follower))
    ensures r.Some? <==> Parses(leader) && Parses(follower)
    ensures r.Some? ==> var s := Stream(leader, follower);
      Kept(e, |s|) <= |s| && r.value == (Received(follower, s[..Kept(e, |s|)]), Counted(e, |s|))
    ensures r.Some? && e.Whole? ==> r.value == (Synced(leader, follower), |Stream(leader, follower)|)
    ensures r.Some? && e.StreamFails? ==> r.value == (Received(follower, Stream(leader, follower)[..e.received]), e.received)
    ensures r.Some? && e.Cancelled? ==> r.value == (Received(follower, Stream(leader, follower)[..e.sent]), e.sent + 1)
    ensures r.Some? && e.WriteFails? ==> r.value == (Received(follower, Stream(leader, follower)[..e.flushed]), e.received)
  {
    hide SortedKvs, Parses, Stream, PutAll, ChecksumOf, Lost;
    var keys := GenerateGroup(follower);
    if keys.None? {
      return None;
    }
    var stream := PredicateData(leader, follower, keys.value);
    if stream.None? {
      return None;
    }
    StreamExact(leader, follower, KV([], []));
    var kvs, count := [], 0;
    while count < |stream.value| && !(e.StreamFails? && count == e.received)
      invariant count <= |stream.value| && kvs == stream.value[..count]
      invariant e.StreamFails? ==> count <= e.received
      invariant e.Cancelled? ==> count <= e.sent
      invariant e.WriteFails? ==> count < e.received
    {
      var kv := stream.value[count];
      count := count + 1;
      if (e.Cancelled? && count > e.sent) || (e.WriteFails? && count == e.received) {
        break;
      }
      kvs := kvs + [kv];
    }
    var written := if e.WriteFails? then kvs[..e.flushed] else kvs;
    assert written == stream.value[..Kept(e, |stream.value|)];
    assert e.Whole? ==> written == stream.value;
    SortedPrefix(stream.value, |written|);
    var out := WriteBatch(follower, written);
    r := Some((out, count));
  }

  lemma SortedPrefix(s: Kvs, n: nat)
    requires SortedKvs(s) && n <= |s|
    ensures SortedKvs(s[..n])
  {
  }

  /** The follower's store after it has received these pairs. */
  function Received(follower: Kvs, s: Kvs): Kvs {
    if Lost(s) then follower else PutAll(follower, s)
  }

  function Synced(leader: Kvs, follower: Kvs): Kvs {
    Received(follower, Stream(leader, follower))
  }

  /**
   After an exchange: every leader key that was missing at the follower or had
   another checksum there holds the leader's bytes, and every other follower
   key is unchanged; unless all there was to send was an empty key with an
   empty value.
   */
  lemma SyncedLookup(leader: Kvs, follower: Kvs, k: bytes)
    requires SortedKvs(leader) && SortedKvs(follower) && !Lost(Stream(leader, follower))
    ensures SortedKvs(Synced(leader, follower))
    ensures Lookup(Synced(leader, follower), k) ==
      var v := Lookup(leader, k);
      if v.Some? && Needed(follower, KV(k, v.value)) then v else Lookup(follower, k)
  {
    hide SortedKvs, PutAll, Stream, Lookup, Needed;
    var s, v := Stream(leader, follower), Lookup(leader, k);
    StreamExact(leader, follower, KV(k, []));
    PutAllLookup(follower, s, k);
    if Lookup(s, k).Some? {
      var w := Lookup(s, k).value;
      LookupMember(s, k, w);
      StreamExact(leader, follower, KV(k, w));
      LookupMember(leader, k, w);
    } else if v.Some? {
      LookupMember(leader, k, v.value);
      LookupMember(s, k, v.value);
      StreamExact(leader, follower, KV(k, v.value));
    }
  }

  /** Every pair that was sent is there afterwards, exactly when the stream is not that one pair. */
  lemma LosslessIff(leader: Kvs, follower: Kvs)
    requires SortedKvs(leader) && SortedKvs(follower)
    ensures (forall kv :: kv in Stream(leader, follower) ==> Lookup(Synced(leader, follower), kv.key) == Some(kv.val))
       <==> !Lost(Stream(leader, follower))
  {
    hide SortedKvs, PutAll, Stream, Lookup, ChecksumOf, Synced;
    var s := Stream(leader, follower);
    if !Lost(s) {
      forall kv | kv in s ensures Lookup(Synced(leader, follower), kv.key) == Some(kv.val) {
        StreamExact(leader, follower, kv);
        LookupMember(leader, kv.key, kv.val);
        SyncedLookup(leader, follower, kv.key);
      }
    } else {
      SyncedLost(leader, follower);
      assert s[0] in s;
      StreamExact(leader, follower, s[0]);
    }
  }

  lemma SyncedLost(leader: Kvs, follower: Kvs)
    requires Lost(Stream(leader, follower))
    ensures Synced(leader, follower) == follower
  {
  }

  /** Under a leader key the follower ends with the leader's bytes if and only if it had them, or had none, or had others with another checksum. */
  lemma SyncedKeyIff(leader: Kvs, follower: Kvs, k: bytes)
    requires SortedKvs(leader) && SortedKvs(follower) && !Lost(Stream(leader, follower)) && Lookup(leader, k).Some?
    ensures Lookup(Synced(leader, follower), k) == Lookup(leader, k) <==>
      Lookup(follower, k) == Lookup(leader, k) || Needed(follower, KV(k, Lookup(leader, k).value))
  {
    hide SortedKvs, Stream, Lookup, Synced, Needed, Lost;
    SyncedLookup(leader, follower, k);
  }

  /**
   The same in terms of the stored bytes alone: the leader's bytes arrive under
   a key that the follower lacks or holds with another digest, and the
   follower's bytes stay under a key that it holds with the same digest.
   */
  lemma SyncedByDigest(leader: Kvs, follower: Kvs, k: bytes, v: bytes)
    requires SortedKvs(leader) && SortedKvs(follower) && Lookup(leader, k) == Some(v)
    ensures Lookup(follower, k) == None && (k != [] || v != []) ==> Lookup(Synced(leader, follower), k) == Some(v)
    ensures forall w :: Lookup(follower, k) == Some(w) ==>
      match (ParsePostingList(v, 0, EMPTY_LIST), ParsePostingList(w, 0, EMPTY_LIST))
      case (Ok(pl), Ok(ql)) =>
        && (pl.checksum != ql.checksum && (k != [] || v != []) ==> Lookup(Synced(leader, follower), k) == Some(v))
        && (pl.checksum == ql.checksum ==> Lookup(Synced(leader, follower), k) == Some(w))
      case _ => true
  {
    hide SortedKvs, Stream, Lookup, ParsePostingList, PutAll;
    var s := Stream(leader, follower);
    if Lost(s) {
      SyncedLost(leader, follower);
      StreamExact(leader, follower, KV(k, v));
      LookupMember(leader, k, v);
      assert KV(k, v) in s ==> KV(k, v) == s[0];
    } else {
      SyncedLookup(leader, follower, k);
    }
  }

  /** Committed lists: the follower ends with the leader's list if and only if it had that list or the digests differ. */
  lemma CommittedSyncedIff(ps: seq<Posting>, qs: seq<Posting>, md5: bytes -> bytes, leader: Kvs, follower: Kvs, k: bytes)
    requires SortedKvs(leader) && SortedKvs(follower) && k != []
    requires |EncodePostingList(Lists.Stamped(ps, md5))| < TWO_63 && |EncodePostingList(Lists.Stamped(qs, md5))| < TWO_63
    requires Lookup(leader, k) == Some(EncodePostingList(Lists.Stamped(ps, md5)))
    requires Lookup(follower, k) == Some(EncodePostingList(Lists.Stamped(qs, md5)))
    ensures Lookup(Synced(leader, follower), k) == Lookup(leader, k)
       <==> ps == qs || md5(Lists.ChecksumInput(ps, 0)) != md5(Lists.ChecksumInput(qs, 0))
  {
    hide SortedKvs, Synced, Lookup, ParsePostingList, EncodePostingList, Lists.ChecksumInput;
    var a, b := EncodePostingList(Lists.Stamped(ps, md5)), EncodePostingList(Lists.Stamped(qs, md5));
    PostingListRoundTrip(Lists.Stamped(ps, md5));
    PostingListRoundTrip(Lists.Stamped(qs, md5));
    if a == b { EncodingInjective(Lists.Stamped(ps, md5), Lists.Stamped(qs, md5)); }
    SyncedByDigest(leader, follower, k, a);
  }

  /** Lists that differ only in what the digest does not see: the exchange does not see the difference, and it stays. */
  lemma UnseenUnsynced(ps: seq<Posting>, qs: seq<Posting>, md5: bytes -> bytes, k: bytes)
    requires Lists.SameSeen(ps, qs) && ps != qs
    requires |EncodePostingList(Lists.Stamped(ps, md5))| < TWO_63 && |EncodePostingList(Lists.Stamped(qs, md5))| < TWO_63
    ensures var a, b := EncodePostingList(Lists.Stamped(ps, md5)), EncodePostingList(Lists.Stamped(qs, md5));
      a != b && Synced([KV(k, a)], [KV(k, b)]) == [KV(k, b)]
  {
    hide EncodePostingList, ParsePostingList, Lists.ChecksumInput;
    var a, b := EncodePostingList(Lists.Stamped(ps, md5)), EncodePostingList(Lists.Stamped(qs, md5));
    Lists.ChecksumBlind(ps, qs, 0);
    PostingListRoundTrip(Lists.Stamped(ps, md5));
    PostingListRoundTrip(Lists.Stamped(qs, md5));
    if a == b { EncodingInjective(Lists.Stamped(ps, md5), Lists.Stamped(qs, md5)); }
    assert Stream([KV(k, a)], [KV(k, b)]) == [] by { assert [KV(k, a)][1..] == []; }
    assert PutOps([]) == [];
  }

  /** Nothing is lost from a leader without an empty key, and no key of Dgraph is empty. */
  lemma NothingLost(leader: Kvs, follower: Kvs, n: nat)
    requires SortedKvs(leader) && n <= |Stream(leader, follower)| && forall kv :: kv in leader ==> kv.key != []
    ensures !Lost(Stream(leader, follower)) && !Lost(Stream(leader, follower)[..n])
  {
    hide SortedKvs, Stream;
    var s := Stream(leader, follower);
    StreamExact(leader, follower, KV([], []));
    LostMember(s, n);
  }

  lemma LostMember(s: Kvs, n: nat)
    requires n <= |s|
    ensures Lost(s) || Lost(s[..n]) ==> KV([], []) in s
  {
    if Lost(s[..n]) { assert s[0] == s[..n][0]; }
  }

  /** One pair that is lost: the empty key with no value. */
  lemma LostExample()
    ensures SortedKvs([KV([], [])]) && Lost(Stream([KV([], [])], [])) && Synced([KV([], [])], []) == []
  {
    assert [KV([], [])][1..] == [];
  }

  /**
   An exchange that breaks off in any way loses nothing: the next full one
   leaves the follower as an unbroken one would have.
   */
  lemma BrokenThenSynced(leader: Kvs, follower: Kvs, e: Ending, k: bytes)
    requires SortedKvs(leader) && SortedKvs(follower) && Possible(e, Stream(leader, follower))
    requires forall kv :: kv in leader ==> kv.key != []
    ensures var s := Stream(leader, follower); var half := Received(follower, s[..Kept(e, |s|)]);
      Lookup(Synced(leader, half), k) == Lookup(Synced(leader, follower), k)
  {
    hide SortedKvs, Stream, Lookup, PutAll, Lost, Synced;
    var s := Stream(leader, follower);
    var n := Kept(e, |s|);
    NothingLost(leader, follower, n);
    NothingLost(leader, Received(follower, s[..n]), 0);
    PrefixThenSynced(leader, follower, n, k);
  }

  lemma PrefixThenSynced(leader: Kvs, follower: Kvs, n: nat, k: bytes)
    requires SortedKvs(leader) && SortedKvs(follower) && n <= |Stream(leader, follower)|
    requires var s := Stream(leader, follower); var half := Received(follower, s[..n]);
      !Lost(s) && !Lost(s[..n]) && !Lost(Stream(leader, half))
    ensures var half := Received(follower, Stream(leader, follower)[..n]);
      Lookup(Synced(leader, half), k) == Lookup(Synced(leader, follower), k)
  {
    hide SortedKvs, Stream, Lookup, PutAll, Needed, Lost;
    var s := Stream(leader, follower);
    var half := Received(follower, s[..n]);
    StreamExact(leader, follower, KV([], []));
    SortedPrefix(s, n);
    PutAllLookup(follower, s[..n], k);
    SyncedLookup(leader, follower, k);
    SyncedLookup(leader, half, k);
    if Lookup(s[..n], k).Some? {
      var v := Lookup(s[..n], k).value;
      LookupMember(s[..n], k, v);
      assert KV(k, v) in s;
      StreamExact(leader, follower, KV(k, v));
      LookupMember(leader, k, v);
    }
    if Lookup(leader, k).Some? { NeededSame(half, follower, k, Lookup(leader, k).value); }
  }

  /** Whether a pair is needed depends on what the follower has under its key. */
  lemma NeededSame(a: Kvs, b: Kvs, k: bytes, v: bytes)
    ensures Lookup(a, k) == Lookup(b, k) ==> Needed(a, KV(k, v)) == Needed(b, KV(k, v))
    ensures Lookup(a, k) == Some(v) ==> !Needed(a, KV(k, v))
  {
  }

  /** A second exchange with the same leader has nothing to send. */
  lemma SyncedTwice(leader: Kvs, follower: Kvs)
    requires SortedKvs(leader) && SortedKvs(follower) && !Lost(Stream(leader, follower))
    ensures Stream(leader, Synced(leader, follower)) == []
  {
    hide SortedKvs, PutAll, Stream, Lookup, Synced, ChecksumOf;
    var f' := Synced(leader, follower);
    SyncedLookup(leader, follower, []);
    var again := Stream(leader, f');
    assert |again| > 0 ==> again[0] in again;
    forall kv ensures kv !in again {
      StreamExact(leader, f', kv);
      LookupMember(leader, kv.key, kv.val);
      SyncedLookup(leader, follower, kv.key);
    }
  }
}
