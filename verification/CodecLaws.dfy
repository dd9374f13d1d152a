/** Unmarshalling inverts marshalling, for every message a Go slice can hold. */
module CodecLaws {
  import opened Bytes
  import opened Seqs
  import opened Codec

  lemma AtWhole(d: bytes)
    ensures At(d, 0, d)
  {
    assert d[0..|d|] == d;
  }

  function Pow128(n: nat): (r: nat)
    ensures r > 0
  {
    if n == 0 then 1 else 128 * Pow128(n - 1)
  }

  lemma {:induction false} VarintLength(v: nat, n: nat)
    requires n > 0 && v < Pow128(n)
    ensures |Varint(v)| <= n
  {
    if v >= 128 {
      assert n > 1;
      VarintLength(v / 128, n - 1);
    }
  }

  lemma VarintFits(v: uint64)
    ensures |Varint(v)| <= 10
  {
    assert Pow128(2) == 16384;
    assert Pow128(4) == 128 * (128 * Pow128(2));
    assert Pow128(6) == 128 * (128 * Pow128(4));
    assert Pow128(8) == 128 * (128 * Pow128(6));
    assert Pow128(10) == 128 * (128 * Pow128(8));
    VarintLength(v, 10);
  }

  lemma VarintSmall(v: nat)
    requires v < 128
    ensures Varint(v) == [v]
  {
  }

  lemma VarintLarge(v: nat)
    requires v >= 128
    ensures Varint(v) == [v % 128 + 128] + Varint(v / 128)
    ensures v == v % 128 + 128 * (v / 128) && (v % 128 + 128) % 128 == v % 128
  {
  }

  lemma AtByte(d: bytes, i: nat, b: byte)
    requires At(d, i, [b])
    ensures i < |d| && d[i] == b
  {
    assert d[i..i + 1][0] == b;
  }

  /** Reading a varint that was written with at most ten bytes yields its value. */
  lemma {:induction false} ReadVarintAt(d: bytes, i: nat, v: nat, k: nat)
    requires At(d, i, Varint(v)) && k + |Varint(v)| <= 10
    ensures ReadVarint(d, i, k) == Ok((v, i + |Varint(v)|))
    decreases 10 - k
  {
    hide Varint, At;
    if v < 128 {
      VarintSmall(v);
      AtByte(d, i, v);
    } else {
      VarintLarge(v);
      var head: byte := v % 128 + 128;
      AtSplit(d, i, [head], Varint(v / 128));
      AtByte(d, i, head);
      ReadVarintAt(d, i + 1, v / 128, k + 1);
    }
  }

  lemma ReadTagAt(d: bytes, i: nat, tag: byte)
    requires At(d, i, [tag]) && 8 <= tag < 128 && tag % 8 != 4
    ensures ReadTag(d, i) == Ok(Tag(tag / 8, tag % 8, i + 1))
  {
    hide ReadVarint, At, Varint;
    VarintSmall(tag);
    ReadVarintAt(d, i, tag, 0);
  }

  lemma {:induction false} FromLittleEndianInverts(v: nat, n: nat)
    requires v < Pow256(n)
    ensures FromLittleEndian(LittleEndian(v, n)) == v
  {
    if n > 0 {
      FromLittleEndianInverts(v / 256, n - 1);
      assert LittleEndian(v, n)[1..] == LittleEndian(v / 256, n - 1);
    }
  }

  lemma ReadLengthAt(d: bytes, i: nat, s: bytes)
    requires At(d, i, Varint(|s|) + s) && |d| < TWO_63
    ensures ReadLength(d, i) == Ok((i + |Varint(|s|)|, i + |Varint(|s|)| + |s|))
    ensures d[i + |Varint(|s|)|..i + |Varint(|s|)| + |s|] == s
  {
    hide ReadVarint, Varint;
    AtSplit(d, i, Varint(|s|), s);
    VarintFits(|s|);
    ReadVarintAt(d, i, |s|, 0);
  }

  lemma VarintFieldAt(d: bytes, i: nat, tag: byte, v: uint64)
    requires v != 0 && At(d, i, VarintField(tag, v)) && 8 <= tag < 128 && tag % 8 != 4
    ensures ReadTag(d, i) == Ok(Tag(tag / 8, tag % 8, i + 1))
    ensures ReadVarint(d, i + 1, 0) == Ok((v, i + |VarintField(tag, v)|))
  {
    AtSplit(d, i, [tag], Varint(v));
    ReadTagAt(d, i, tag);
    VarintFits(v);
    ReadVarintAt(d, i + 1, v, 0);
  }

  lemma BytesFieldAt(d: bytes, i: nat, tag: byte, s: bytes)
    requires s != [] && At(d, i, BytesField(tag, s)) && |d| < TWO_63 && 8 <= tag < 128 && tag % 8 != 4
    ensures ReadTag(d, i) == Ok(Tag(tag / 8, tag % 8, i + 1))
    ensures ReadLength(d, i + 1) == Ok((i + 1 + |Varint(|s|)|, i + |BytesField(tag, s)|))
    ensures d[i + 1 + |Varint(|s|)|..i + |BytesField(tag, s)|] == s
  {
    hide ReadTag, ReadLength, ReadVarint, Varint, At;
    assert BytesField(tag, s) == [tag] + (Varint(|s|) + s);
    AtSplit(d, i, [tag], Varint(|s|) + s);
    ReadTagAt(d, i, tag);
    ReadLengthAt(d, i + 1, s);
  }

  // ---------- Posting: one lemma per field ----------

  lemma ParseUnfold(d: bytes, i: nat, m: Posting, m': Posting, next: nat)
    requires i < next <= |d| && PostingField(d, i, m) == Ok((m', next))
    ensures ParsePosting(d, i, m) == ParsePosting(d, next, m')
  {
    hide PostingField;
  }

  lemma UidStep(d: bytes, i: nat, uid: uint64, m: Posting)
    requires At(d, i, UidField(uid)) && m.uid == 0
    ensures ParsePosting(d, i, m) == ParsePosting(d, i + |UidField(uid)|, m.(uid := uid))
  {
    hide ParsePosting, ReadTag;
    if uid != 0 {
      AtSplit(d, i, [0x09], LittleEndian(uid, 8));
      ReadTagAt(d, i, 0x09);
      Pow256Widths();
      FromLittleEndianInverts(uid, 8);
      ParseUnfold(d, i, m, m.(uid := uid), i + 9);
    }
  }

  lemma ValueStep(d: bytes, i: nat, value: bytes, m: Posting)
    requires At(d, i, BytesField(0x12, value)) && |d| < TWO_63 && m.value == []
    ensures ParsePosting(d, i, m) == ParsePosting(d, i + |BytesField(0x12, value)|, m.(value := value))
  {
    hide ParsePosting, ReadTag, ReadLength;
    if value != [] {
      BytesFieldAt(d, i, 0x12, value);
      ParseUnfold(d, i, m, m.(value := value), i + |BytesField(0x12, value)|);
    }
  }

  lemma LabelStep(d: bytes, i: nat, lbl: bytes, m: Posting)
    requires At(d, i, BytesField(0x22, lbl)) && |d| < TWO_63 && m.lbl == []
    ensures ParsePosting(d, i, m) == ParsePosting(d, i + |BytesField(0x22, lbl)|, m.(lbl := lbl))
  {
    hide ParsePosting, ReadTag, ReadLength;
    if lbl != [] {
      BytesFieldAt(d, i, 0x22, lbl);
      ParseUnfold(d, i, m, m.(lbl := lbl), i + |BytesField(0x22, lbl)|);
    }
  }

  lemma ValTypeStep(d: bytes, i: nat, v: uint32, m: Posting)
    requires At(d, i, VarintField(0x18, v)) && m.valType == 0
    ensures ParsePosting(d, i, m) == ParsePosting(d, i + |VarintField(0x18, v)|, m.(valType := v))
  {
    hide ParsePosting, ReadTag, ReadVarint;
    if v != 0 {
      VarintFieldAt(d, i, 0x18, v);
      ParseUnfold(d, i, m, m.(valType := v), i + |VarintField(0x18, v)|);
    }
  }

  lemma CommitStep(d: bytes, i: nat, v: uint64, m: Posting)
    requires At(d, i, VarintField(0x28, v)) && m.commit == 0
    ensures ParsePosting(d, i, m) == ParsePosting(d, i + |VarintField(0x28, v)|, m.(commit := v))
  {
    hide ParsePosting, ReadTag, ReadVarint;
    if v != 0 {
      VarintFieldAt(d, i, 0x28, v);
      ParseUnfold(d, i, m, m.(commit := v), i + |VarintField(0x28, v)|);
    }
  }

  lemma OpStep(d: bytes, i: nat, v: uint32, m: Posting)
    requires At(d, i, VarintField(0x60, v)) && m.op == 0
    ensures ParsePosting(d, i, m) == ParsePosting(d, i + |VarintField(0x60, v)|, m.(op := v))
  {
    hide ParsePosting, ReadTag, ReadVarint;
    if v != 0 {
      VarintFieldAt(d, i, 0x60, v);
      ParseUnfold(d, i, m, m.(op := v), i + |VarintField(0x60, v)|);
    }
  }

  /** `Unmarshal(Marshal(p)) == p`. */
  lemma PostingRoundTrip(p: Posting)
    requires |EncodePosting(p)| < TWO_63
    ensures ParsePosting(EncodePosting(p), 0, EMPTY_POSTING) == Ok(p)
  {
    hide PostingField, At, UidField, BytesField, VarintField;
    var d := EncodePosting(p);
    var uid, value, valType, lbl, commit, op :=
      UidField(p.uid), BytesField(0x12, p.value), VarintField(0x18, p.valType),
      BytesField(0x22, p.lbl), VarintField(0x28, p.commit), VarintField(0x60, p.op);
    AtWhole(d);
    AtSplit(d, 0, uid + value + valType + lbl + commit, op);
    AtSplit(d, 0, uid + value + valType + lbl, commit);
    AtSplit(d, 0, uid + value + valType, lbl);
    AtSplit(d, 0, uid + value, valType);
    AtSplit(d, 0, uid, value);
    var i := |uid|;
    UidStep(d, 0, p.uid, EMPTY_POSTING);
    ValueStep(d, i, p.value, Posting(p.uid, [], 0, [], 0, 0));
    ValTypeStep(d, i + |value|, p.valType, Posting(p.uid, p.value, 0, [], 0, 0));
    i := i + |value| + |valType|;
    LabelStep(d, i, p.lbl, Posting(p.uid, p.value, p.valType, [], 0, 0));
    CommitStep(d, i + |lbl|, p.commit, Posting(p.uid, p.value, p.valType, p.lbl, 0, 0));
    OpStep(d, i + |lbl| + |commit|, p.op, Posting(p.uid, p.value, p.valType, p.lbl, p.commit, 0));
  }

  // ---------- PostingList ----------

  lemma ParseListUnfold(d: bytes, i: nat, m: PostingList, m': PostingList, next: nat)
    requires i < next <= |d| && PostingListField(d, i, m) == Ok((m', next))
    ensures ParsePostingList(d, i, m) == ParsePostingList(d, next, m')
  {
    hide PostingListField;
  }

  lemma NestedStep(d: bytes, i: nat, p: Posting, m: PostingList)
    requires At(d, i, EncodeNested(p)) && |d| < TWO_63
    ensures ParsePostingList(d, i, m)
         == ParsePostingList(d, i + |EncodeNested(p)|, m.(postings := m.postings + [p]))
  {
    hide ParsePostingList, ReadTag, ReadLength, ParsePosting, EncodePosting;
    var e := EncodePosting(p);
    assert EncodeNested(p) == [0x0a] + (Varint(|e|) + e);
    AtSplit(d, i, [0x0a], Varint(|e|) + e);
    ReadTagAt(d, i, 0x0a);
    ReadLengthAt(d, i + 1, e);
    PostingRoundTrip(p);
    ParseListUnfold(d, i, m, m.(postings := m.postings + [p]), i + |EncodeNested(p)|);
  }

  lemma {:induction false} PostingsStep(d: bytes, i: nat, ps: seq<Posting>, m: PostingList)
    requires At(d, i, EncodePostings(ps)) && |d| < TWO_63
    ensures ParsePostingList(d, i, m)
         == ParsePostingList(d, i + |EncodePostings(ps)|, m.(postings := m.postings + ps))
    decreases |ps|
  {
    hide ParsePostingList, EncodeNested;
    if ps == [] {
      assert m.postings + ps == m.postings;
    } else {
      AtSplit(d, i, EncodeNested(ps[0]), EncodePostings(ps[1..]));
      NestedStep(d, i, ps[0], m);
      var m' := m.(postings := m.postings + [ps[0]]);
      PostingsStep(d, i + |EncodeNested(ps[0])|, ps[1..], m');
      assert m'.postings + ps[1..] == m.postings + ps;
    }
  }

  lemma ChecksumStep(d: bytes, i: nat, s: bytes, m: PostingList)
    requires At(d, i, BytesField(0x12, s)) && |d| < TWO_63
    ensures ParsePostingList(d, i, m)
         == ParsePostingList(d, i + |BytesField(0x12, s)|, m.(checksum := if s == [] then m.checksum else s))
  {
    hide ParsePostingList, ReadTag, ReadLength, ParsePosting;
    if s != [] {
      BytesFieldAt(d, i, 0x12, s);
      ParseListUnfold(d, i, m, m.(checksum := s), i + |BytesField(0x12, s)|);
    }
  }

  lemma ListCommitStep(d: bytes, i: nat, v: uint64, m: PostingList)
    requires At(d, i, VarintField(0x18, v))
    ensures ParsePostingList(d, i, m)
         == ParsePostingList(d, i + |VarintField(0x18, v)|, m.(commit := if v == 0 then m.commit else v))
  {
    hide ParsePostingList, ReadTag, ReadVarint, ParsePosting;
    if v != 0 {
      VarintFieldAt(d, i, 0x18, v);
      ParseListUnfold(d, i, m, m.(commit := v), i + |VarintField(0x18, v)|);
    }
  }

  /** Reading the message `pl` when `m` has been read already: postings are appended, the last checksum and commit win. */
  function MergedList(m: PostingList, pl: PostingList): PostingList {
    PostingList(m.postings + pl.postings,
                if pl.checksum == [] then m.checksum else pl.checksum,
                if pl.commit == 0 then m.commit else pl.commit)
  }

  lemma ListStep(d: bytes, i: nat, pl: PostingList, m: PostingList)
    requires At(d, i, EncodePostingList(pl)) && |d| < TWO_63
    ensures ParsePostingList(d, i, m) == ParsePostingList(d, i + |EncodePostingList(pl)|, MergedList(m, pl))
  {
    hide ParsePostingList, At, EncodePostings, BytesField, VarintField;
    var ps, ck, commit := EncodePostings(pl.postings), BytesField(0x12, pl.checksum), VarintField(0x18, pl.commit);
    AtSplit(d, i, ps + ck, commit);
    AtSplit(d, i, ps, ck);
    PostingsStep(d, i, pl.postings, m);
    var m1 := m.(postings := m.postings + pl.postings);
    ChecksumStep(d, i + |ps|, pl.checksum, m1);
    ListCommitStep(d, i + |ps| + |ck|, pl.commit, m1.(checksum := if pl.checksum == [] then m.checksum else pl.checksum));
  }

  /** `Unmarshal(Marshal(pl)) == pl`, nested postings included. */
  lemma PostingListRoundTrip(pl: PostingList)
    requires |EncodePostingList(pl)| < TWO_63
    ensures ParsePostingList(EncodePostingList(pl), 0, EMPTY_LIST) == Ok(pl)
  {
    hide PostingListField, At, EncodePostingList;
    AtWhole(EncodePostingList(pl));
    ListStep(EncodePostingList(pl), 0, pl, EMPTY_LIST);
    assert EMPTY_LIST.postings + pl.postings == pl.postings;
  }

  /** Distinct messages have distinct bytes. */
  lemma EncodingInjective(a: PostingList, b: PostingList)
    requires |EncodePostingList(a)| < TWO_63 && EncodePostingList(a) == EncodePostingList(b)
    ensures a == b
  {
    hide ParsePostingList;
    PostingListRoundTrip(a);
    PostingListRoundTrip(b);
  }

  /** Two messages one behind the other read as their merge. */
  lemma ConcatMerges(a: PostingList, b: PostingList)
    requires |EncodePostingList(a)| + |EncodePostingList(b)| < TWO_63
    ensures ParsePostingList(EncodePostingList(a) + EncodePostingList(b), 0, EMPTY_LIST) == Ok(MergedList(a, b))
  {
    hide PostingListField, At, EncodePostingList;
    var d := EncodePostingList(a) + EncodePostingList(b);
    AtWhole(d);
    AtSplit(d, 0, EncodePostingList(a), EncodePostingList(b));
    ListStep(d, 0, a, EMPTY_LIST);
    assert EMPTY_LIST.postings + a.postings == a.postings;
    ListStep(d, |EncodePostingList(a)|, b, a);
  }

  // ---------- Fields of a later version ----------

  /** The payload of a field, by wire type. */
  datatype Payload = Number(v: uint64) | Eight(s: bytes) | Delimited(s: bytes) | Four(s: bytes) {
    predicate Ok() {
      match this
      case Number(_) => true
      case Eight(s) => |s| == 8
      case Delimited(s) => true
      case Four(s) => |s| == 4
    }

    function Wire(): nat {
      match this
      case Number(_) => 0
      case Eight(_) => 1
      case Delimited(_) => 2
      case Four(_) => 5
    }

    function Bytes(): bytes {
      match this
      case Number(v) => Varint(v)
      case Delimited(s) => Varint(|s|) + s
      case Eight(s) => s
      case Four(s) => s
    }
  }

  /** The largest field number there is (Protocol Buffers Language Guide, section "Assigning Field Numbers"). */
  const MAX_FIELD: nat := 0x1fff_ffff

  function FieldBytes(field: nat, p: Payload): bytes {
    Varint(8 * field + p.Wire()) + p.Bytes()
  }

  /** The tag of a field with any number. */
  lemma FieldTagAt(d: bytes, i: nat, field: nat, wire: nat)
    requires 0 < field <= MAX_FIELD && wire < 8 && wire != 4 && At(d, i, Varint(8 * field + wire))
    ensures ReadVarint(d, i, 0) == Ok((8 * field + wire, i + |Varint(8 * field + wire)|))
    ensures ReadTag(d, i) == Ok(Tag(field, wire, i + |Varint(8 * field + wire)|))
  {
    hide ReadVarint, Varint, At;
    var w := 8 * field + wire;
    VarintFits(w);
    ReadVarintAt(d, i, w, 0);
    assert w % TWO_64 == w && w / 8 == field && w % 8 == wire;
  }

  lemma AtSuffix(d: bytes, i: nat, s: bytes)
    requires At(d, i, s)
    ensures At(d[i..], 0, s)
  {
    assert d[i..][0..|s|] == d[i..i + |s|];
  }

  lemma SkipsField(d: bytes, i: nat, field: nat, p: Payload)
    requires 0 < field <= MAX_FIELD && p.Ok() && At(d, i, FieldBytes(field, p)) && |d| < TWO_63
    ensures SkipField(d, i) == Ok(i + |FieldBytes(field, p)|)
    ensures ReadTag(d, i).Ok? && ReadTag(d, i).value.field == field
  {
    hide At, ReadVarint, ReadTag, Varint, SkipTypes;
    AtSuffix(d, i, FieldBytes(field, p));
    AtSplit(d, i, Varint(8 * field + p.Wire()), p.Bytes());
    FieldTagAt(d, i, field, p.Wire());
    AtFits(d, i, FieldBytes(field, p));
    SkipsTypes(d[i..], field, p);
  }

  lemma AtFits(d: bytes, i: nat, s: bytes)
    requires At(d, i, s)
    ensures i + |s| <= |d|
  {
  }

  lemma SkipsTypes(e: bytes, field: nat, p: Payload)
    requires 0 < field <= MAX_FIELD && p.Ok() && At(e, 0, FieldBytes(field, p)) && |e| < TWO_63
    ensures SkipTypes(e) == Ok(|FieldBytes(field, p)|)
  {
    hide At, ReadVarint, ReadTag, Varint;
    var n := |Varint(8 * field + p.Wire())|;
    AtFits(e, 0, FieldBytes(field, p));
    AtSplit(e, 0, Varint(8 * field + p.Wire()), p.Bytes());
    FieldTagAt(e, 0, field, p.Wire());
    assert (8 * field + p.Wire()) % 8 == p.Wire();
    match p {
      case Number(v) =>
        VarintFits(v);
        ReadVarintAt(e, n, v, 0);
      case Delimited(s) =>
        AtSplit(e, n, Varint(|s|), s);
        VarintFits(|s|);
        ReadVarintAt(e, n, |s|, 0);
      case _ =>
    }
  }

  /** An unknown field of a list is passed over. */
  lemma UnknownInList(d: bytes, i: nat, field: nat, p: Payload, m: PostingList)
    requires 3 < field <= MAX_FIELD && p.Ok() && At(d, i, FieldBytes(field, p)) && |d| < TWO_63
    ensures ParsePostingList(d, i, m) == ParsePostingList(d, i + |FieldBytes(field, p)|, m)
  {
    hide At, ReadTag, SkipField, ParsePostingList, FieldBytes;
    SkipsField(d, i, field, p);
    AtFits(d, i, FieldBytes(field, p));
    ParseListUnfold(d, i, m, m, i + |FieldBytes(field, p)|);
  }

  lemma UnknownInPosting(d: bytes, i: nat, field: nat, p: Payload, m: Posting)
    requires 5 < field <= MAX_FIELD && field != 12 && p.Ok() && At(d, i, FieldBytes(field, p)) && |d| < TWO_63
    ensures ParsePosting(d, i, m) == ParsePosting(d, i + |FieldBytes(field, p)|, m)
  {
    hide At, ReadTag, SkipField, ParsePosting, FieldBytes;
    SkipsField(d, i, field, p);
    AtFits(d, i, FieldBytes(field, p));
    ParseUnfold(d, i, m, m, i + |FieldBytes(field, p)|);
  }

  /** What a later version adds between two parts of a message changes nothing. */
  lemma LaterVersionReads(a: PostingList, field: nat, p: Payload, b: PostingList)
    requires 3 < field <= MAX_FIELD && p.Ok()
    requires |EncodePostingList(a)| + |FieldBytes(field, p)| + |EncodePostingList(b)| < TWO_63
    ensures ParsePostingList(EncodePostingList(a) + FieldBytes(field, p) + EncodePostingList(b), 0, EMPTY_LIST) == Ok(MergedList(a, b))
  {
    hide PostingListField, At, EncodePostingList, FieldBytes;
    var ea, f, eb := EncodePostingList(a), FieldBytes(field, p), EncodePostingList(b);
    var d := ea + f + eb;
    AtWhole(d);
    AtSplit(d, 0, ea + f, eb);
    AtSplit(d, 0, ea, f);
    ListStep(d, 0, a, EMPTY_LIST);
    assert EMPTY_LIST.postings + a.postings == a.postings;
    UnknownInList(d, |ea|, field, p, a);
    ListStep(d, |ea| + |f|, b, a);
  }

  // ---------- The bytes themselves ----------

  /** A posting byte by byte: field numbers, wire types and lengths. */
  lemma PostingBytes()
    ensures EncodePosting(Posting(258, [0x61], 300, [0x62], 3, 1))
         == [0x09, 2, 1, 0, 0, 0, 0, 0, 0, 0x12, 1, 0x61, 0x18, 0xac, 0x02, 0x22, 1, 0x62, 0x28, 3, 0x60, 1]
  {
    hide LittleEndian, BytesField, VarintField;
    LittleEndianExample();
    OneByteField(0x12, 0x61);
    OneByteField(0x22, 0x62);
    SmallField(0x28, 3);
    SmallField(0x60, 1);
    assert VarintField(0x18, 300) == [0x18, 0xac, 0x02] by { NumberExample(); }
  }

  /** And a list with one posting. */
  lemma PostingListBytes()
    ensures EncodePostingList(PostingList([Posting(0, [0x61], 0, [], 0, 0)], [0x63], 5))
         == [0x0a, 3, 0x12, 1, 0x61, 0x12, 1, 0x63, 0x18, 5]
  {
    hide BytesField, VarintField, EncodePosting;
    var p := Posting(0, [0x61], 0, [], 0, 0);
    assert EncodePosting(p) == [0x12, 1, 0x61] by { ValueOnly(p); }
    VarintSmall(3);
    assert [p][1..] == [];
    OneByteField(0x12, 0x63);
    SmallField(0x18, 5);
  }

  lemma ValueOnly(p: Posting)
    requires p == Posting(0, [0x61], 0, [], 0, 0)
    ensures EncodePosting(p) == [0x12, 1, 0x61]
  {
    hide BytesField;
    OneByteField(0x12, 0x61);
    assert BytesField(0x22, []) == [] by { NoField(0x22); }
  }

  lemma NoField(tag: byte)
    ensures BytesField(tag, []) == []
  {
  }

  lemma OneByteField(tag: byte, b: byte)
    ensures BytesField(tag, [b]) == [tag, 1, b]
  {
  }

  lemma SmallField(tag: byte, v: nat)
    requires 0 < v < 128
    ensures VarintField(tag, v) == [tag, v]
  {
  }

  lemma NumberExample()
    ensures VarintField(0x18, 300) == [0x18, 0xac, 0x02]
  {
  }

  lemma LittleEndianExample()
    ensures LittleEndian(258, 8) == [2, 1, 0, 0, 0, 0, 0, 0]
  {
    LittleEndianZeros(6);
    assert LittleEndian(258, 8) == [2] + LittleEndian(1, 7);
    assert LittleEndian(1, 7) == [1] + LittleEndian(0, 6);
    assert LittleEndian(0, 6) == [0, 0, 0, 0, 0, 0];
  }

  lemma {:induction false} LittleEndianZeros(n: nat)
    ensures LittleEndian(0, n) == seq(n, _ => 0)
  {
    if n > 0 { LittleEndianZeros(n - 1); }
  }
}
