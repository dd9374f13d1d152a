/**
 `posting.List`: the object around the two layers, with its lazily loaded
 buffer, its dirty mark and the store it is committed to.
 */
module Lists {
  import opened Bytes
  import opened Codec
  import opened CodecLaws
  import opened CodecBuffers
  import opened PostingLayers
  import opened PostingUpdate
  import opened UidOrder
  import opened Edges
  import PostingQueries

  datatype MutationResult = Retry | ZeroValueId | Done(changed: bool)
  datatype CommitResult = Clean | Committed | Panicked

  /** The posting store: RocksDB as a map. */
  class Store {
    var data: map<bytes, bytes>

    constructor (data: map<bytes, bytes>)
      ensures this.data == data
    {
      this.data := data;
    }
  }

  function StoredList(data: map<bytes, bytes>, key: bytes): Result<PostingList> {
    if key in data && data[key] != [] then ParsePostingList(data[key], 0, EMPTY_LIST) else Ok(EMPTY_LIST)
  }

  ghost predicate Loadable(data: map<bytes, bytes>, key: bytes) {
    StoredList(data, key).Ok? && Sorted(StoredList(data, key).value.postings)
  }

  /** The bytes that `commit` feeds to the digest. */
  function ChecksumInput(ps: seq<Posting>, count: nat): bytes {
    if ps == [] then []
    else Varint(2 * count) + Varint(ps[0].uid) + ps[0].value + ps[0].lbl + ChecksumInput(ps[1..], count + 1)
  }

  /** One more posting: its number in the zigzag form of `PutVarint`, its uid, its value and its label. */
  lemma {:induction false} ChecksumSnoc(ps: seq<Posting>, p: Posting, count: nat)
    ensures ChecksumInput(ps + [p], count)
         == ChecksumInput(ps, count) + (Varint(2 * (count + |ps|)) + Varint(p.uid) + p.value + p.lbl)
    decreases |ps|
  {
    hide Varint;
    if ps == [] {
      assert ps + [p] == [p] && [p][1..] == [];
      assert ChecksumInput([p][1..], count + 1) == [];
    } else {
      assert (ps + [p])[1..] == ps[1..] + [p];
      ChecksumSnoc(ps[1..], p, count + 1);
    }
  }

  /** What the callback of `commit` feeds to the digest. */
  method DigestInput(ps: seq<Posting>) returns (h: bytes)
    ensures h == ChecksumInput(ps, 0)
  {
    hide ChecksumInput, Varint;
    h := [];
    NoChecksum();
    for count := 0 to |ps|
      invariant h == ChecksumInput(ps[..count], 0)
    {
      var p := ps[count];
      assert ps[..count + 1] == ps[..count] + [p];
      ChecksumSnoc(ps[..count], p, 0);
      h := h + (Varint(2 * count) + Varint(p.uid) + p.value + p.lbl);
    }
    assert ps[..|ps|] == ps;
  }

  lemma NoChecksum()
    ensures ChecksumInput([], 0) == []
  {
  }

  /** Two postings byte by byte. */
  lemma ChecksumBytes()
    ensures ChecksumInput([Posting(5, [0x61], 7, [0x62], 0, 0), Posting(300, [], 0, [0x63], 0, 0)], 0)
         == [0, 5, 0x61, 0x62, 2, 0xac, 0x02, 0x63]
  {
    hide ChecksumInput;
    var p, q := Posting(5, [0x61], 7, [0x62], 0, 0), Posting(300, [], 0, [0x63], 0, 0);
    NoChecksum();
    ChecksumSnoc([], p, 0);
    ChecksumSnoc([p], q, 0);
    assert [] + [p] == [p] && [p] + [q] == [p, q];
    assert Varint(300) == [0xac, 0x02];
  }

  lemma VarintHead(v: nat, x: bytes)
    ensures (Varint(v) + x)[0] == if v < 128 then v else v % 128 + 128
    ensures (Varint(v) + x)[1..] == if v < 128 then x else Varint(v / 128) + x
    ensures v == 128 * (v / 128) + v % 128
  {
  }

  /** A varint can be told from what follows it. */
  lemma {:induction false} VarintPrefixFree(u: nat, w: nat, x: bytes, y: bytes)
    requires Varint(u) + x == Varint(w) + y
    ensures u == w && x == y
  {
    hide Varint;
    VarintHead(u, x);
    VarintHead(w, y);
    if u >= 128 { VarintPrefixFree(u / 128, w / 128, x, y); }
  }

  /**
   The digest sees neither the type of a posting nor where its value ends: the
   inputs of two single postings are equal exactly when the uids and the
   values followed by the labels are.
   */
  lemma ChecksumSingle(p: Posting, q: Posting)
    ensures ChecksumInput([p], 0) == ChecksumInput([q], 0) <==> p.uid == q.uid && p.value + p.lbl == q.value + q.lbl
  {
    hide Varint;
    ChecksumOne(p);
    ChecksumOne(q);
    if ChecksumInput([p], 0) == ChecksumInput([q], 0) {
      VarintPrefixFree(0, 0, Varint(p.uid) + (p.value + p.lbl), Varint(q.uid) + (q.value + q.lbl));
      VarintPrefixFree(p.uid, q.uid, p.value + p.lbl, q.value + q.lbl);
    }
  }

  /** Two lists that differ only in what the digest does not see (type, commit and operation) have the same input. */
  lemma {:induction false} ChecksumBlind(ps: seq<Posting>, qs: seq<Posting>, count: nat)
    requires SameSeen(ps, qs)
    ensures ChecksumInput(ps, count) == ChecksumInput(qs, count)
  {
    hide Varint;
    if ps != [] { ChecksumBlind(ps[1..], qs[1..], count + 1); }
  }

  predicate SameSeen(ps: seq<Posting>, qs: seq<Posting>) {
    |ps| == |qs| && forall i :: 0 <= i < |ps| ==> ps[i].uid == qs[i].uid && ps[i].value == qs[i].value && ps[i].lbl == qs[i].lbl
  }

  /**
   Lists whose postings have values and labels of the same total lengths: the
   inputs are equal exactly when all uids, and all values followed by labels, are.
   */
  lemma {:induction false} ChecksumAligned(ps: seq<Posting>, qs: seq<Posting>, count: nat)
    requires |ps| == |qs| && forall i :: 0 <= i < |ps| ==> |ps[i].value + ps[i].lbl| == |qs[i].value + qs[i].lbl|
    ensures ChecksumInput(ps, count) == ChecksumInput(qs, count) <==>
      forall i :: 0 <= i < |ps| ==> ps[i].uid == qs[i].uid && ps[i].value + ps[i].lbl == qs[i].value + qs[i].lbl
    decreases |ps|
  {
    hide Varint;
    if ps != [] {
      var p, q, x, y := ps[0], qs[0], ChecksumInput(ps[1..], count + 1), ChecksumInput(qs[1..], count + 1);
      ChecksumAligned(ps[1..], qs[1..], count + 1);
      ChecksumHead(ps, count);
      ChecksumHead(qs, count);
      if ChecksumInput(ps, count) == ChecksumInput(qs, count) {
        VarintPrefixFree(2 * count, 2 * count, Varint(p.uid) + (p.value + p.lbl + x), Varint(q.uid) + (q.value + q.lbl + y));
        VarintPrefixFree(p.uid, q.uid, p.value + p.lbl + x, q.value + q.lbl + y);
        SameSplit(p.value + p.lbl, x, q.value + q.lbl, y);
        forall i | 0 <= i < |ps| ensures ps[i].uid == qs[i].uid && ps[i].value + ps[i].lbl == qs[i].value + qs[i].lbl {
          if i > 0 { assert ps[i] == ps[1..][i - 1] && qs[i] == qs[1..][i - 1]; }
        }
      }
    }
  }

  lemma SameSplit(a: bytes, x: bytes, b: bytes, y: bytes)
    requires |a| == |b| && a + x == b + y
    ensures a == b && x == y
  {
    assert a == (a + x)[..|a|] && b == (b + y)[..|b|];
    assert x == (a + x)[|a|..] && y == (b + y)[|b|..];
  }

  lemma ChecksumHead(ps: seq<Posting>, count: nat)
    requires ps != []
    ensures ChecksumInput(ps, count)
         == Varint(2 * count) + (Varint(ps[0].uid) + (ps[0].value + ps[0].lbl + ChecksumInput(ps[1..], count + 1)))
  {
    hide Varint;
  }

  /** Without that it is not: one posting whose label looks like a second posting. */
  lemma ChecksumConfuses()
    ensures ChecksumInput([Posting(1, [], 0, [2, 5], 0, SET)], 0)
         == ChecksumInput([Posting(1, [], 0, [], 0, SET), Posting(5, [], 0, [], 0, SET)], 0)
  {
    var p, q, r := Posting(1, [], 0, [2, 5], 0, SET), Posting(1, [], 0, [], 0, SET), Posting(5, [], 0, [], 0, SET);
    assert [p][1..] == [] && [q, r][1..] == [r] && [r][1..] == [];
    assert ChecksumInput([r], 1) == [2, 5];
  }

  lemma ChecksumOne(p: Posting)
    ensures ChecksumInput([p], 0) == Varint(0) + (Varint(p.uid) + (p.value + p.lbl))
  {
    hide Varint;
    assert ChecksumInput([p][1..], 1) == [];
  }

  /** A single layer means its own postings. */
  lemma AloneView(l: seq<Posting>, v: View)
    requires Sorted(l)
    requires forall u: uint64 :: Holds(l, u) <==> u in v
    requires forall p :: p in l ==> p.uid in v && v[p.uid] == ContentOf(p)
    ensures ViewOf(l, []) == v
  {
    forall u: uint64
      ensures u in ViewOf(l, []) <==> u in v
      ensures u in v ==> ViewOf(l, [])[u] == v[u]
    {
      ViewOfAt(l, [], u);
    }
    hide ViewOf;
    assert ViewOf(l, []).Keys == v.Keys;
  }

  /** Writing out the listing and reading it back as the only layer gives the same view. */
  lemma ListingReloads(pl: seq<Posting>, ml: seq<Posting>)
    requires Sorted(pl) && Sorted(ml)
    ensures Sorted(Listing(pl, ml, 0))
    ensures ViewOf(Listing(pl, ml, 0), []) == ViewOf(pl, ml)
  {
    hide ViewOf, Listing;
    ListingExact(pl, ml, 0);
    ListingIsView(pl, ml, 0);
    ViewNonzero(pl, ml);
    AloneView(Listing(pl, ml, 0), ViewOf(pl, ml));
  }

  lemma ViewNonzero(pl: seq<Posting>, ml: seq<Posting>)
    requires Sorted(pl) && Sorted(ml)
    ensures 0 !in ViewOf(pl, ml)
  {
    ViewOfAt(pl, ml, 0);
  }

  lemma {:induction false} UntilAll(ps: seq<Posting>, f: Posting -> bool)
    requires forall p :: f(p)
    ensures Until(ps, f) == ps
  {
    if ps != [] { UntilAll(ps[1..], f); }
  }

  /** A list with its digest, as `commit` stores it. */
  function Stamped(ps: seq<Posting>, md5: bytes -> bytes): PostingList {
    PostingList(ps, md5(ChecksumInput(ps, 0)), 0)
  }

  /** The message that `commit` builds: everything visible, with its digest. */
  ghost function Final(pl: seq<Posting>, ml: seq<Posting>, md5: bytes -> bytes): PostingList {
    Stamped(Listing(pl, ml, 0), md5)
  }

  /** No buffer can hold the message. */
  ghost predicate TooLong(pl: seq<Posting>, ml: seq<Posting>, md5: bytes -> bytes) {
    |EncodePostingList(Final(pl, ml, md5))| >= TWO_63
  }

  /** The bytes that `commit` stores: they alone reproduce the view. */
  method Serialise(pl: seq<Posting>, ml: seq<Posting>, md5: bytes -> bytes) returns (data: Option<bytes>)
    requires Sorted(pl) && Sorted(ml)
    ensures data.None? <==> TooLong(pl, ml, md5)
    ensures data.Some? ==> data.value == EncodePostingList(Final(pl, ml, md5))
    ensures data.Some? ==>
      var r := ParsePostingList(data.value, 0, EMPTY_LIST);
      && r.Ok? && Sorted(r.value.postings) && ViewOf(r.value.postings, []) == ViewOf(pl, ml)
      && r.value.checksum == md5(ChecksumInput(r.value.postings, 0)) && r.value.commit == 0
      && data.value == EncodePostingList(Stamped(r.value.postings, md5))
  {
    var all := Iterate(pl, ml, 0, p => true);
    UntilAll(Listing(pl, ml, 0), p => true);
    ListingReloads(pl, ml);
    hide ViewOf, ParsePostingList, Listing, Until, ChecksumInput;
    var h := DigestInput(all);
    var final := PostingList(all, md5(h), 0);
    var size := SizePostingList(final);
    if size >= TWO_63 {
      return None;
    }
    var bs := MarshalPostingList(final);
    PostingListRoundTrip(final);
    data := Some(bs);
  }

  class List {
    const key: bytes
    const pstore: Store
    var pbuffer: Option<PostingList>
    var mlayer: seq<Posting>
    var dirtyTs: int
    var deleteMe: bool

    ghost function Immutable(): seq<Posting>
      reads this, pstore
    {
      var s := StoredList(pstore.data, key);
      if s.Ok? then s.value.postings else []
    }

    ghost predicate Valid()
      reads this, pstore
    {
      && Loadable(pstore.data, key)
      && (pbuffer.Some? ==> pbuffer.value == StoredList(pstore.data, key).value)
      && Layered(Immutable(), mlayer)
      && (mlayer != [] ==> dirtyTs != 0)
    }

    /** What the list means. */
    ghost function Contents(): View
      reads this, pstore
    {
      ViewOf(Immutable(), mlayer)
    }

    /** A list opened on a store means what the stored bytes mean. */
    constructor (key: bytes, pstore: Store)
      requires Loadable(pstore.data, key)
      ensures Valid() && this.key == key && this.pstore == pstore && mlayer == [] && !deleteMe
      ensures Contents() == ViewOf(StoredList(pstore.data, key).value.postings, [])
    {
      this.key := key;
      this.pstore := pstore;
      pbuffer := None;
      mlayer := [];
      dirtyTs := 0;
      deleteMe := false;
    }

    /** `getPostingList`: load on first use. */
    method GetPostingList() returns (pl: PostingList)
      requires Valid()
      modifies this`pbuffer
      ensures Valid()
      ensures pl == StoredList(pstore.data, key).value && pl.postings == Immutable()
    {
      hide Layered, ParsePostingList;
      if pbuffer.None? {
        pl := EMPTY_LIST;
        if key in pstore.data && pstore.data[key] != [] {
          var r := UnmarshalPostingList(pstore.data[key]);
          pl := r.value;
        }
        pbuffer := Some(pl);
      } else {
        pl := pbuffer.value;
      }
    }

    /** `AddMutation`; `now` is the clock. */
    method AddMutation(t: Edge, op: uint32, now: int) returns (r: MutationResult)
      requires Valid() && (op == SET || op == DEL) && now != 0
      modifies this`pbuffer, this`mlayer, this`dirtyTs
      ensures Valid()
      ensures r.Retry? <==> deleteMe
      ensures r.ZeroValueId? <==> !deleteMe && EdgeUid(t) == 0
      ensures Contents() == if r.Done? then Apply(old(Contents()), EdgeUid(t), EdgeContent(t), op) else old(Contents())
      ensures r.Done? ==> (r.changed <==> Contents() != old(Contents()))
      ensures !deleteMe && t.value.Some? && t.value.value != [] ==>
        var v, c := old(Contents()), Content(t.value.value, t.valueType, t.lbl);
        && r.Done?
        && (op == SET ==> Contents() == v[MAX_UINT64 := c])
        && (op == DEL ==> Contents() == if MAX_UINT64 in v && v[MAX_UINT64] == c then v - {MAX_UINT64} else v)
      ensures !deleteMe && (t.value == None || t.value == Some([])) && t.valueId != 0 ==>
        var v, c := old(Contents()), Content([], t.valueType, t.lbl);
        && r.Done?
        && (op == SET ==> Contents() == v[t.valueId := c])
        && (op == DEL ==> Contents() == if t.valueId in v && v[t.valueId] == c then v - {t.valueId} else v)
    {
      hide ViewOf, Layered, StoredList;
      if deleteMe {
        return Retry;
      }
      var uid := EdgeUid(t);
      if uid == 0 {
        return ZeroValueId;
      }
      var mpost := Posting(uid, EdgeBytes(t), t.valueType, t.lbl, 0, op);
      var pl := GetPostingList();
      var changed;
      mlayer, changed := UpdateLayer(pl.postings, mlayer, mpost);
      if |mlayer| > 0 {
        dirtyTs := now;
      }
      return Done(changed);
    }

    /** `commit`: rewrite the stored bytes, then drop the mutations. */
    method Commit(md5: bytes -> bytes) returns (r: CommitResult)
      requires Valid()
      modifies this`pbuffer, this`mlayer, this`dirtyTs, pstore
      ensures Valid() && Contents() == old(Contents())
      ensures r.Clean? <==> old(mlayer) == []
      ensures r.Panicked? <==> old(mlayer) != [] && TooLong(old(Immutable()), old(mlayer), md5)
      ensures r.Panicked? ==> mlayer == old(mlayer) && dirtyTs == old(dirtyTs) && pstore.data == old(pstore.data)
      ensures r.Committed? ==> key in pstore.data && pstore.data[key] == EncodePostingList(Final(old(Immutable()), old(mlayer), md5))
      ensures r.Committed? ==>
        var pl := ParsePostingList(pstore.data[key], 0, EMPTY_LIST);
        && pl.Ok? && pl.value.checksum == md5(ChecksumInput(pl.value.postings, 0)) && pl.value.commit == 0
        && pstore.data[key] == EncodePostingList(Stamped(pl.value.postings, md5))
      ensures !r.Panicked? ==> mlayer == [] && dirtyTs == 0
      ensures r.Clean? ==> pstore.data == old(pstore.data)
      ensures pstore.data - {key} == old(pstore.data) - {key}
    {
      hide ViewOf, Sorted, ParsePostingList, Final, TooLong, EncodePostingList, ChecksumInput, Stamped;
      if mlayer == [] {
        dirtyTs := 0;
        return Clean;
      }
      var pl := GetPostingList();
      var data := Serialise(pl.postings, mlayer, md5);
      if data.None? {
        return Panicked;
      }
      ghost var before := pstore.data;
      pstore.data := pstore.data[key := data.value];
      assert pstore.data - {key} == before - {key};
      pbuffer := None;
      dirtyTs := 0;
      mlayer := [];
      StoredAfterCommit(pstore.data, key);
      LayeredAlone(Immutable());
      return Committed;
    }

    /** `CommitIfDirty`: it never leaves a pending change behind. */
    method CommitIfDirty(md5: bytes -> bytes) returns (r: CommitResult)
      requires Valid()
      modifies this`pbuffer, this`mlayer, this`dirtyTs, pstore
      ensures Valid() && Contents() == old(Contents())
      ensures r.Panicked? <==> old(mlayer) != [] && TooLong(old(Immutable()), old(mlayer), md5)
      ensures r.Panicked? ==> mlayer == old(mlayer) && pstore.data == old(pstore.data)
      ensures !r.Panicked? ==> mlayer == []
      ensures !r.Panicked? ==> Contents() == ViewOf(StoredList(pstore.data, key).value.postings, [])
      ensures pstore.data - {key} == old(pstore.data) - {key}
    {
      hide ViewOf, Layered, StoredList, Final, TooLong;
      if dirtyTs == 0 {
        return Clean;
      }
      r := Commit(md5);
    }

    /** `Length` on the object */
    method Length(afterUid: uint64) returns (count: int)
      requires Valid()
      modifies this`pbuffer
      ensures Valid()
      ensures Contents() == old(Contents()) && count == |set u | u in Contents() && u > afterUid|
    {
      hide ViewOf, StoredList;
      var pl := GetPostingList();
      count := PostingLayers.Length(pl.postings, mlayer, afterUid);
    }

    /** `Uids` on the object; `None` is the out-of-range read */
    method Uids(after: uint64, intersect: Option<seq<uint64>>) returns (r: Option<seq<uint64>>)
      requires Valid() && (intersect.Some? ==> Ordered(intersect.value))
      modifies this`pbuffer
      ensures Valid() && Contents() == old(Contents())
      ensures r.None? <==> PostingQueries.Overruns(Contents(), after, intersect)
      ensures r.Some? ==> Increasing(r.value)
      ensures r.Some? ==> forall u: uint64 :: u in r.value <==>
                u in Contents() && after < u < MAX_UINT64 && PostingQueries.Wanted(intersect, u)
    {
      hide ViewOf, StoredList, PostingQueries.Overruns;
      var pl := GetPostingList();
      r := PostingQueries.Uids(pl.postings, mlayer, after, intersect);
    }

    /** `Value` on the object */
    method Value() returns (r: Option<(bytes, byte)>)
      requires Valid()
      modifies this`pbuffer
      ensures Valid() && Contents() == old(Contents())
      ensures r == PostingQueries.ValueOf(Contents())
    {
      hide ViewOf, StoredList;
      var pl := GetPostingList();
      r := PostingQueries.Value(pl.postings, mlayer);
    }

    /** One step of a run; `flag` holds the answer of a mutation. */
    method Do(s: Step, md5: bytes -> bytes) returns (panicked: bool, flag: seq<bool>)
      requires Valid() && !deleteMe && s.Legal()
      modifies this`pbuffer, this`mlayer, this`dirtyTs, pstore
      ensures Valid()
      ensures panicked ==> mlayer != [] && TooLong(Immutable(), mlayer, md5)
      ensures !panicked ==> Contents() == StepView(old(Contents()), s) && flag == StepFlag(old(Contents()), s)
      ensures pstore.data - {key} == old(pstore.data) - {key}
    {
      hide ViewOf, Layered, StoredList, Apply, Final, TooLong;
      panicked, flag := false, [];
      match s {
        case Mutate(t, op, now) =>
          var r := AddMutation(t, op, now);
          flag := [r.changed];
        case CommitStep =>
          var r := CommitIfDirty(md5);
          panicked := r.Panicked?;
      }
    }

    /** Every run of mutations and commits refines the same run on a plain map. */
    method Run(steps: seq<Step>, md5: bytes -> bytes) returns (panicked: bool, flags: seq<bool>)
      requires Valid() && !deleteMe
      requires forall s :: s in steps ==> s.Legal()
      modifies this`pbuffer, this`mlayer, this`dirtyTs, pstore
      ensures Valid()
      ensures panicked ==> mlayer != [] && TooLong(Immutable(), mlayer, md5)
      ensures !panicked ==> Contents() == RunView(old(Contents()), steps) && flags == RunFlags(old(Contents()), steps)
      ensures pstore.data - {key} == old(pstore.data) - {key}
    {
      hide Valid, Contents, StepView, StepFlag, Immutable, TooLong;
      ghost var start := Contents();
      flags := [];
      panicked := false;
      for k := 0 to |steps|
        invariant Valid() && !deleteMe
        invariant RunView(start, steps) == RunView(Contents(), steps[k..])
        invariant RunFlags(start, steps) == flags + RunFlags(Contents(), steps[k..])
        invariant pstore.data - {key} == old(pstore.data) - {key}
      {
        assert steps[k..][0] == steps[k] && steps[k..][1..] == steps[k + 1..];
        var flag;
        panicked, flag := Do(steps[k], md5);
        if panicked {
          return;
        }
        flags := flags + flag;
      }
    }
  }

  datatype Step = Mutate(t: Edge, op: uint32, now: int) | CommitStep {
    predicate Legal() {
      Mutate? ==> EdgeUid(t) != 0 && (op == SET || op == DEL) && now != 0
    }
  }

  ghost function StepView(view: View, s: Step): View {
    if s.Mutate? then Apply(view, EdgeUid(s.t), EdgeContent(s.t), s.op) else view
  }

  ghost function StepFlag(view: View, s: Step): seq<bool> {
    if s.Mutate? then [StepView(view, s) != view] else []
  }

  ghost function RunView(view: View, steps: seq<Step>): View
    decreases |steps|
  {
    if steps == [] then view else RunView(StepView(view, steps[0]), steps[1..])
  }

  /** Whether each mutation of the run changes the map. */
  ghost function RunFlags(view: View, steps: seq<Step>): seq<bool>
    decreases |steps|
  {
    if steps == [] then []
    else StepFlag(view, steps[0]) + RunFlags(StepView(view, steps[0]), steps[1..])
  }

  /** No bytes at all stand for the empty list, so a list committed while empty reads back too. */
  lemma StoredAfterCommit(data: map<bytes, bytes>, key: bytes)
    requires key in data
    ensures StoredList(data, key) == ParsePostingList(data[key], 0, EMPTY_LIST)
  {
  }

  lemma LayeredAlone(ps: seq<Posting>)
    requires Sorted(ps)
    ensures Layered(ps, [])
  {
  }
}
