/**
 The generated `Size`, `MarshalTo`, `Marshal` and `Unmarshal` as the loops they
 are: a cursor running over a byte buffer. Each is proved against the
 encoding and parsing functions of `Codec`.
 */
module CodecBuffers {
  import opened Bytes
  import opened Codec
  import opened CodecLaws

  /** `s` with `t` written over it at `off`. */
  ghost function Splice(s: bytes, off: nat, t: bytes): bytes
    requires off + |t| <= |s|
  {
    s[..off] + t + s[off + |t|..]
  }

  lemma SpliceNothing(s: bytes, off: nat)
    requires off <= |s|
    ensures Splice(s, off, []) == s
  {
  }

  lemma SpliceAppend(s: bytes, off: nat, t: bytes, u: bytes)
    requires off + |t| + |u| <= |s|
    ensures Splice(Splice(s, off, t), off + |t|, u) == Splice(s, off, t + u)
  {
  }

  // ---------- Size ----------

  /** `sovTypes` */
  method SizeVarint(x: nat) returns (n: nat)
    ensures n == |Varint(x)|
  {
    n := 1;
    var v: nat := x / 128;
    while v != 0
      invariant v == 0 ==> n == |Varint(x)|
      invariant v != 0 ==> n + |Varint(v)| == |Varint(x)|
    {
      n := n + 1;
      v := v / 128;
    }
  }

  lemma PostingSize(p: Posting)
    ensures |EncodePosting(p)| ==
      |UidField(p.uid)| + |BytesField(0x12, p.value)| + |VarintField(0x18, p.valType)|
      + |BytesField(0x22, p.lbl)| + |VarintField(0x28, p.commit)| + |VarintField(0x60, p.op)|
  {
    hide UidField, BytesField, VarintField;
  }

  method SizePosting(p: Posting) returns (n: nat)
    ensures n == |EncodePosting(p)|
  {
    hide EncodePosting, Varint, LittleEndian;
    PostingSize(p);
    n := 0;
    if p.uid != 0 {
      n := n + 9;
    }
    if |p.value| > 0 {
      var k := SizeVarint(|p.value|);
      n := n + 1 + |p.value| + k;
    }
    if p.valType != 0 {
      var k := SizeVarint(p.valType);
      n := n + 1 + k;
    }
    if |p.lbl| > 0 {
      var k := SizeVarint(|p.lbl|);
      n := n + 1 + |p.lbl| + k;
    }
    if p.commit != 0 {
      var k := SizeVarint(p.commit);
      n := n + 1 + k;
    }
    if p.op != 0 {
      var k := SizeVarint(p.op);
      n := n + 1 + k;
    }
  }

  lemma {:induction false} EncodePostingsSnoc(ps: seq<Posting>, p: Posting)
    ensures EncodePostings(ps + [p]) == EncodePostings(ps) + EncodeNested(p)
  {
    hide EncodeNested;
    if ps == [] {
      assert ps + [p] == [p];
      assert EncodePostings([p]) == EncodeNested(p) + EncodePostings([]);
    } else {
      assert (ps + [p])[1..] == ps[1..] + [p];
      EncodePostingsSnoc(ps[1..], p);
    }
  }

  method SizePostingList(pl: PostingList) returns (n: nat)
    ensures n == |EncodePostingList(pl)|
  {
    hide EncodePosting, Varint;
    n := 0;
    for j := 0 to |pl.postings|
      invariant n == |EncodePostings(pl.postings[..j])|
    {
      var l := SizePosting(pl.postings[j]);
      var k := SizeVarint(l);
      n := n + 1 + l + k;
      EncodePostingsSnoc(pl.postings[..j], pl.postings[j]);
      assert pl.postings[..j + 1] == pl.postings[..j] + [pl.postings[j]];
    }
    assert pl.postings[..|pl.postings|] == pl.postings;
    if |pl.checksum| > 0 {
      var k := SizeVarint(|pl.checksum|);
      n := n + 1 + |pl.checksum| + k;
    }
    if pl.commit != 0 {
      var k := SizeVarint(pl.commit);
      n := n + 1 + k;
    }
  }

  // ---------- MarshalTo ----------

  method PutByte(data: array<byte>, i: nat, b: byte) returns (next: nat)
    requires i < data.Length
    modifies data
    ensures next == i + 1
    ensures data[..] == Splice(old(data[..]), i, [b])
  {
    data[i] := b;
    next := i + 1;
    assert data[..] == old(data[..])[i := b];
  }

  /** `copy(data[i:], s)` for a buffer with room for all of `s` */
  method PutBytes(data: array<byte>, i: nat, s: bytes) returns (next: nat)
    requires i + |s| <= data.Length
    modifies data
    ensures next == i + |s|
    ensures data[..] == Splice(old(data[..]), i, s)
  {
    forall k | 0 <= k < |s| {
      data[i + k] := s[k];
    }
    next := i + |s|;
    assert data[..] == Splice(old(data[..]), i, s);
  }

  /** `encodeVarintTypes` */
  method EncodeVarint(data: array<byte>, offset: nat, v: nat) returns (next: nat)
    requires offset + |Varint(v)| <= data.Length
    modifies data
    ensures next == offset + |Varint(v)|
    ensures data[..] == Splice(old(data[..]), offset, Varint(v))
  {
    hide Splice;
    ghost var before := data[..];
    ghost var written: bytes := [];
    SpliceNothing(before, offset);
    var w := v;
    next := offset;
    while w >= 128
      invariant Varint(v) == written + Varint(w)
      invariant next == offset + |written|
      invariant data[..] == Splice(before, offset, written)
    {
      next := PutByte(data, next, w % 128 + 128);
      SpliceAppend(before, offset, written, [w % 128 + 128]);
      written := written + [w % 128 + 128];
      w := w / 128;
    }
    next := PutByte(data, next, w);
    SpliceAppend(before, offset, written, [w]);
  }

  /** `encodeFixed64Types` */
  method EncodeFixed64(data: array<byte>, offset: nat, v: nat) returns (next: nat)
    requires offset + 8 <= data.Length
    modifies data
    ensures next == offset + 8
    ensures data[..] == Splice(old(data[..]), offset, LittleEndian(v, 8))
  {
    hide Splice;
    ghost var before := data[..];
    ghost var written: bytes := [];
    var w: nat := v;
    next := offset;
    SpliceNothing(before, offset);
    for k := 0 to 8
      invariant |written| == k && next == offset + k
      invariant LittleEndian(v, 8) == written + LittleEndian(w, 8 - k)
      invariant data[..] == Splice(before, offset, written)
    {
      next := PutByte(data, next, w % 256);
      SpliceAppend(before, offset, written, [w % 256]);
      assert LittleEndian(w, 8 - k) == [w % 256] + LittleEndian(w / 256, 7 - k);
      written := written + [w % 256];
      w := w / 256;
    }
    assert written + LittleEndian(w, 0) == written;
  }

  method PutVarintField(data: array<byte>, i: nat, tag: byte, v: nat) returns (next: nat)
    requires i + |VarintField(tag, v)| <= data.Length
    modifies data
    ensures next == i + |VarintField(tag, v)|
    ensures data[..] == Splice(old(data[..]), i, VarintField(tag, v))
  {
    next := i;
    if v != 0 {
      ghost var before := data[..];
      next := PutByte(data, next, tag);
      next := EncodeVarint(data, next, v);
      SpliceAppend(before, i, [tag], Varint(v));
    }
  }

  method PutBytesField(data: array<byte>, i: nat, tag: byte, s: bytes) returns (next: nat)
    requires i + |BytesField(tag, s)| <= data.Length
    modifies data
    ensures next == i + |BytesField(tag, s)|
    ensures data[..] == Splice(old(data[..]), i, BytesField(tag, s))
  {
    hide Varint, Splice;
    next := i;
    SpliceNothing(data[..], i);
    if |s| > 0 {
      ghost var before := data[..];
      next := PutByte(data, next, tag);
      next := EncodeVarint(data, next, |s|);
      SpliceAppend(before, i, [tag], Varint(|s|));
      next := PutBytes(data, next, s);
      SpliceAppend(before, i, [tag] + Varint(|s|), s);
    }
  }

  method PutUidField(data: array<byte>, i: nat, uid: nat) returns (next: nat)
    requires i + |UidField(uid)| <= data.Length
    modifies data
    ensures next == i + |UidField(uid)|
    ensures data[..] == Splice(old(data[..]), i, UidField(uid))
  {
    next := i;
    if uid != 0 {
      ghost var before := data[..];
      next := PutByte(data, next, 0x09);
      next := EncodeFixed64(data, next, uid);
      SpliceAppend(before, i, [0x09], LittleEndian(uid, 8));
    }
  }

  /** `Posting.MarshalTo(data[off:])` */
  method MarshalPostingTo(data: array<byte>, off: nat, p: Posting) returns (next: nat)
    requires off + |EncodePosting(p)| <= data.Length
    modifies data
    ensures next == off + |EncodePosting(p)|
    ensures data[..] == Splice(old(data[..]), off, EncodePosting(p))
  {
    hide UidField, BytesField, VarintField, Splice;
    ghost var s := data[..];
    next := PutUidField(data, off, p.uid);
    next := PutBytesField(data, next, 0x12, p.value);
    ghost var w := UidField(p.uid) + BytesField(0x12, p.value);
    SpliceAppend(s, off, UidField(p.uid), BytesField(0x12, p.value));
    next := PutVarintField(data, next, 0x18, p.valType);
    SpliceAppend(s, off, w, VarintField(0x18, p.valType));
    w := w + VarintField(0x18, p.valType);
    next := PutBytesField(data, next, 0x22, p.lbl);
    SpliceAppend(s, off, w, BytesField(0x22, p.lbl));
    w := w + BytesField(0x22, p.lbl);
    next := PutVarintField(data, next, 0x28, p.commit);
    SpliceAppend(s, off, w, VarintField(0x28, p.commit));
    w := w + VarintField(0x28, p.commit);
    next := PutVarintField(data, next, 0x60, p.op);
    SpliceAppend(s, off, w, VarintField(0x60, p.op));
  }

  method MarshalNestedTo(data: array<byte>, off: nat, p: Posting) returns (next: nat)
    requires off + |EncodeNested(p)| <= data.Length
    modifies data
    ensures next == off + |EncodeNested(p)|
    ensures data[..] == Splice(old(data[..]), off, EncodeNested(p))
  {
    hide EncodePosting, Varint, Splice;
    ghost var s := data[..];
    next := PutByte(data, off, 0x0a);
    var size := SizePosting(p);
    next := EncodeVarint(data, next, size);
    SpliceAppend(s, off, [0x0a], Varint(size));
    next := MarshalPostingTo(data, next, p);
    SpliceAppend(s, off, [0x0a] + Varint(size), EncodePosting(p));
  }

  /** `PostingList.MarshalTo` into the start of `data` */
  method MarshalPostingListTo(data: array<byte>, pl: PostingList) returns (next: nat)
    requires |EncodePostingList(pl)| <= data.Length
    modifies data
    ensures next == |EncodePostingList(pl)|
    ensures data[..] == Splice(old(data[..]), 0, EncodePostingList(pl))
  {
    hide EncodeNested, BytesField, VarintField, Splice;
    ghost var s := data[..];
    next := 0;
    SpliceNothing(s, 0);
    for j := 0 to |pl.postings|
      invariant next == |EncodePostings(pl.postings[..j])|
      invariant next + |EncodePostings(pl.postings[j..])| == |EncodePostings(pl.postings)|
      invariant data[..] == Splice(s, 0, EncodePostings(pl.postings[..j]))
    {
      assert pl.postings[j..][1..] == pl.postings[j + 1..];
      next := MarshalNestedTo(data, next, pl.postings[j]);
      EncodePostingsSnoc(pl.postings[..j], pl.postings[j]);
      SpliceAppend(s, 0, EncodePostings(pl.postings[..j]), EncodeNested(pl.postings[j]));
      assert pl.postings[..j + 1] == pl.postings[..j] + [pl.postings[j]];
    }
    assert pl.postings[..|pl.postings|] == pl.postings;
    next := PutBytesField(data, next, 0x12, pl.checksum);
    SpliceAppend(s, 0, EncodePostings(pl.postings), BytesField(0x12, pl.checksum));
    next := PutVarintField(data, next, 0x18, pl.commit);
    SpliceAppend(s, 0, EncodePostings(pl.postings) + BytesField(0x12, pl.checksum), VarintField(0x18, pl.commit));
  }

  /** `PostingList.Marshal`: the buffer of `Size()` bytes is filled exactly. */
  method MarshalPostingList(pl: PostingList) returns (out: bytes)
    ensures out == EncodePostingList(pl)
  {
    hide EncodePostingList;
    var size := SizePostingList(pl);
    var data := new byte[size](_ => 0);
    var n := MarshalPostingListTo(data, pl);
    assert n == size;
    out := data[..n];
    assert out == data[..];
  }

  // ---------- Unmarshal ----------

  /** A varint result with `value` accumulated below it and a weight of `scale`. */
  ghost function Shifted(r: Result<(nat, nat)>, value: nat, scale: nat): Result<(nat, nat)> {
    if r.Err? then r else Ok((value + scale * r.value.0, r.value.1))
  }

  lemma ShiftGroup(scale: nat, low: nat, high: nat)
    ensures scale * (low + 128 * high) == scale * low + scale * 128 * high
  {
  }

  lemma VarintContinues(d: bytes, i: nat, k: nat, value: nat, scale: nat)
    requires k < 10 && i < |d| && d[i] >= 128
    ensures Shifted(ReadVarint(d, i, k), value, scale)
         == Shifted(ReadVarint(d, i + 1, k + 1), value + scale * (d[i] % 128), scale * 128)
  {
    var rest := ReadVarint(d, i + 1, k + 1);
    if rest.Ok? {
      ShiftGroup(scale, d[i] % 128, rest.value.0);
    }
  }

  lemma VarintEnds(d: bytes, i: nat, k: nat)
    requires k <= 10
    ensures k == 10 ==> ReadVarint(d, i, k) == Err(IntOverflow)
    ensures k < 10 && i >= |d| ==> ReadVarint(d, i, k) == Err(UnexpectedEof)
    ensures k < 10 && i < |d| && d[i] < 128 ==> ReadVarint(d, i, k) == Ok((d[i], i + 1))
  {
  }

  /** The varint loop that the generated code repeats for every field. */
  method DecodeVarint(d: bytes, start: nat) returns (r: Result<(nat, nat)>)
    ensures r == ReadVarint(d, start, 0)
  {
    hide ReadVarint;
    var value: nat, scale: nat, i: nat, k: nat := 0, 1, start, 0;
    while true
      invariant k <= 10
      invariant ReadVarint(d, start, 0) == Shifted(ReadVarint(d, i, k), value, scale)
      decreases 10 - k
    {
      VarintEnds(d, i, k);
      if k == 10 {
        return Err(IntOverflow);
      }
      if i >= |d| {
        return Err(UnexpectedEof);
      }
      var b := d[i];
      i := i + 1;
      if b < 128 {
        return Ok((value + scale * b, i));
      }
      VarintContinues(d, i - 1, k, value, scale);
      value := value + scale * (b % 128);
      scale := scale * 128;
      k := k + 1;
    }
  }

  method DecodeLength(d: bytes, i: nat) returns (r: Result<(nat, nat)>)
    ensures r == ReadLength(d, i)
  {
    hide ReadVarint;
    var w := DecodeVarint(d, i);
    if w.Err? {
      return Err(w.error);
    }
    var n, start := Signed64(w.value.0), w.value.1;
    if n < 0 {
      return Err(InvalidLength);
    }
    if start + n >= TWO_63 {
      return Err(Panic);
    }
    if start + n > |d| {
      return Err(UnexpectedEof);
    }
    return Ok((start, start + n));
  }

  method DecodeTag(d: bytes, i: nat) returns (r: Result<Tag>)
    ensures r == ReadTag(d, i)
  {
    hide ReadVarint;
    var w := DecodeVarint(d, i);
    if w.Err? {
      return Err(w.error);
    }
    var wire := w.value.0 % TWO_64;
    var field := Signed32(wire / 8);
    if wire % 8 == 4 {
      return Err(EndGroup);
    }
    if field <= 0 {
      return Err(IllegalTag);
    }
    return Ok(Tag(field, wire % 8, w.value.1));
  }

  method DecodePostingField(d: bytes, i: nat, m: Posting) returns (r: Result<(Posting, nat)>)
    requires i <= |d|
    ensures r == PostingField(d, i, m)
  {
    hide ReadVarint, ReadTag, ReadLength, SkipField;
    var tag := DecodeTag(d, i);
    if tag.Err? {
      return Err(tag.error);
    }
    var t := tag.value;
    if t.field == 1 {
      if t.wireType != 1 {
        return Err(WrongWireType);
      }
      if t.next + 8 > |d| {
        return Err(UnexpectedEof);
      }
      return Ok((m.(uid := ReadFixed64(d[t.next..t.next + 8])), t.next + 8));
    } else if t.field == 2 || t.field == 4 {
      if t.wireType != 2 {
        return Err(WrongWireType);
      }
      var len := DecodeLength(d, t.next);
      if len.Err? {
        return Err(len.error);
      }
      var s := d[len.value.0..len.value.1];
      return Ok((if t.field == 2 then m.(value := s) else m.(lbl := s), len.value.1));
    } else if t.field == 3 || t.field == 12 {
      if t.wireType != 0 {
        return Err(WrongWireType);
      }
      var w := DecodeVarint(d, t.next);
      if w.Err? {
        return Err(w.error);
      }
      var v := w.value.0 % TWO_32;
      return Ok((if t.field == 3 then m.(valType := v) else m.(op := v), w.value.1));
    } else if t.field == 5 {
      if t.wireType != 0 {
        return Err(WrongWireType);
      }
      var w := DecodeVarint(d, t.next);
      if w.Err? {
        return Err(w.error);
      }
      return Ok((m.(commit := w.value.0 % TWO_64), w.value.1));
    }
    var skip := SkipField(d, i);
    if skip.Err? {
      return Err(skip.error);
    }
    return Ok((m, skip.value));
  }

  /** `Posting.Unmarshal` */
  method UnmarshalPosting(d: bytes) returns (r: Result<Posting>)
    ensures r == ParsePosting(d, 0, EMPTY_POSTING)
  {
    hide PostingField;
    var i, m := 0, EMPTY_POSTING;
    while i < |d|
      invariant i <= |d|
      invariant ParsePosting(d, 0, EMPTY_POSTING) == ParsePosting(d, i, m)
    {
      var step := DecodePostingField(d, i, m);
      if step.Err? {
        return Err(step.error);
      }
      ParseUnfold(d, i, m, step.value.0, step.value.1);
      m, i := step.value.0, step.value.1;
    }
    return Ok(m);
  }

  method DecodeListField(d: bytes, i: nat, m: PostingList) returns (r: Result<(PostingList, nat)>)
    requires i <= |d|
    ensures r == PostingListField(d, i, m)
  {
    hide ReadVarint, ReadTag, ReadLength, SkipField, ParsePosting;
    var tag := DecodeTag(d, i);
    if tag.Err? {
      return Err(tag.error);
    }
    var t := tag.value;
    if t.field == 1 || t.field == 2 {
      if t.wireType != 2 {
        return Err(WrongWireType);
      }
      var len := DecodeLength(d, t.next);
      if len.Err? {
        return Err(len.error);
      }
      var s := d[len.value.0..len.value.1];
      if t.field == 2 {
        return Ok((m.(checksum := s), len.value.1));
      }
      var p := UnmarshalPosting(s);
      if p.Err? {
        return Err(p.error);
      }
      return Ok((m.(postings := m.postings + [p.value]), len.value.1));
    } else if t.field == 3 {
      if t.wireType != 0 {
        return Err(WrongWireType);
      }
      var w := DecodeVarint(d, t.next);
      if w.Err? {
        return Err(w.error);
      }
      return Ok((m.(commit := w.value.0 % TWO_64), w.value.1));
    }
    var skip := SkipField(d, i);
    if skip.Err? {
      return Err(skip.error);
    }
    return Ok((m, skip.value));
  }

  /** `PostingList.Unmarshal` */
  method UnmarshalPostingList(d: bytes) returns (r: Result<PostingList>)
    ensures r == ParsePostingList(d, 0, EMPTY_LIST)
  {
    hide PostingListField;
    var i, m := 0, EMPTY_LIST;
    while i < |d|
      invariant i <= |d|
      invariant ParsePostingList(d, 0, EMPTY_LIST) == ParsePostingList(d, i, m)
    {
      var step := DecodeListField(d, i, m);
      if step.Err? {
        return Err(step.error);
      }
      ParseListUnfold(d, i, m, step.value.0, step.value.1);
      m, i := step.value.0, step.value.1;
    }
    return Ok(m);
  }
}
