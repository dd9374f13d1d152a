/**
 The wire format of posting lists (`posting/types/types.pb.go`): base-128
 varints, fixed64 uids and length-delimited, nested messages.

 `EncodePosting` and `EncodePostingList` say which bytes a message has; the
 `Parse*` functions follow the generated `Unmarshal` on arbitrary bytes,
 including every error it returns and the slice-bounds panics it can run into
 when a length makes a 64-bit index wrap around.
 */
module Codec {
  import opened Bytes

  datatype Posting = Posting(uid: uint64, value: bytes, valType: uint32, lbl: bytes, commit: uint64, op: uint32)
  datatype PostingList = PostingList(postings: seq<Posting>, checksum: bytes, commit: uint64)

  const EMPTY_POSTING: Posting := Posting(0, [], 0, [], 0, 0)
  const EMPTY_LIST: PostingList := PostingList([], [], 0)

  datatype Error =
    | UnexpectedEof | IntOverflow | InvalidLength
    | EndGroup | IllegalTag | WrongWireType | IllegalWireType
    | Panic

  datatype Result<+T> = Ok(value: T) | Err(error: Error)

  // ---------- Encoding ----------

  function Varint(v: nat): (r: bytes)
    ensures |r| > 0
  {
    if v < 128 then [v] else [v % 128 + 128] + Varint(v / 128)
  }

  function LittleEndian(v: nat, n: nat): (r: bytes)
    ensures |r| == n
  {
    if n == 0 then [] else [v % 256] + LittleEndian(v / 256, n - 1)
  }

  function UidField(uid: nat): bytes {
    if uid == 0 then [] else [0x09] + LittleEndian(uid, 8)
  }

  function VarintField(tag: byte, v: nat): bytes {
    if v == 0 then [] else [tag] + Varint(v)
  }

  function BytesField(tag: byte, s: bytes): bytes {
    if s == [] then [] else [tag] + Varint(|s|) + s
  }

  function EncodePosting(p: Posting): bytes {
    UidField(p.uid) + BytesField(0x12, p.value) + VarintField(0x18, p.valType)
    + BytesField(0x22, p.lbl) + VarintField(0x28, p.commit) + VarintField(0x60, p.op)
  }

  function EncodeNested(p: Posting): bytes {
    [0x0a] + Varint(|EncodePosting(p)|) + EncodePosting(p)
  }

  function EncodePostings(ps: seq<Posting>): bytes {
    if ps == [] then [] else EncodeNested(ps[0]) + EncodePostings(ps[1..])
  }

  function EncodePostingList(pl: PostingList): bytes {
    EncodePostings(pl.postings) + BytesField(0x12, pl.checksum) + VarintField(0x18, pl.commit)
  }

  // ---------- Decoding ----------

  /** Two's complement readings of an unsigned 64- or 32-bit word. */
  function Signed64(w: nat): int {
    var t := w % TWO_64; if t < TWO_63 then t else t - TWO_64
  }

  function Signed32(w: nat): int {
    var t := w % TWO_32; if t < TWO_31 then t else t - TWO_32
  }

  /**
   The varint whose `k`-th byte is `d[i]`, and the index after it. The result
   is not truncated yet: the callers reduce it to their own width, which gives
   the value that or-ing the shifted groups of seven bits into a word gives.
   */
  function ReadVarint(d: bytes, i: nat, k: nat): (r: Result<(nat, nat)>)
    requires k <= 10
    ensures r.Ok? ==> i < r.value.1 <= |d|
    decreases 10 - k
  {
    if k == 10 then Err(IntOverflow)
    else if i >= |d| then Err(UnexpectedEof)
    else if d[i] < 128 then Ok((d[i] as nat, i + 1))
    else
      match ReadVarint(d, i + 1, k + 1)
      case Err(e) => Err(e)
      case Ok((v, next)) => Ok((d[i] % 128 + 128 * v, next))
  }

  datatype Tag = Tag(field: int, wireType: int, next: nat)

  function ReadTag(d: bytes, i: nat): (r: Result<Tag>)
    ensures r.Ok? ==> i < r.value.next <= |d|
  {
    match ReadVarint(d, i, 0)
    case Err(e) => Err(e)
    case Ok((w, next)) =>
      var wire := w % TWO_64;
      var field := Signed32(wire / 8);
      if wire % 8 == 4 then Err(EndGroup)
      else if field <= 0 then Err(IllegalTag)
      else Ok(Tag(field, wire % 8, next))
  }

  /** A length prefix at `i`: the bounds of the payload. */
  function ReadLength(d: bytes, i: nat): (r: Result<(nat, nat)>)
    ensures r.Ok? ==> i < r.value.0 <= r.value.1 <= |d|
  {
    match ReadVarint(d, i, 0)
    case Err(e) => Err(e)
    case Ok((w, start)) =>
      var n := Signed64(w);
      if n < 0 then Err(InvalidLength)
      else if start + n >= TWO_63 then Err(Panic)
      else if start + n > |d| then Err(UnexpectedEof)
      else Ok((start, start + n))
  }

  /** Number of bytes of the field that starts `d` (`skipTypes`); -1 for an index that wrapped. */
  function SkipTypes(d: bytes): (r: Result<int>)
    ensures r.Ok? ==> r.value != 0
    decreases |d|, 1
  {
    if d == [] then Err(Panic) else
    match ReadVarint(d, 0, 0)
    case Err(e) => Err(e)
    case Ok((w, j)) =>
      match w % 8
      case 0 => (match ReadVarint(d, j, 0) case Err(e) => Err(e) case Ok((_, next)) => Ok(next))
      case 1 => Ok(j + 8)
      case 2 =>
        (match ReadVarint(d, j, 0)
         case Err(e) => Err(e)
         case Ok((len, start)) =>
           var n := Signed64(len);
           if n < 0 then Err(InvalidLength)
           else if start + n >= TWO_63 then Ok(-1)
           else Ok(start + n))
      case 3 => (match SkipGroup(d, j) case Err(e) => Err(e) case Ok(next) => Ok(next))
      case 4 => Ok(j)
      case 5 => Ok(j + 4)
      case _ => Err(IllegalWireType)
  }

  function SkipGroup(d: bytes, i: nat): (r: Result<nat>)
    requires i > 0
    ensures r.Ok? ==> r.value > 0
    decreases |d|, 0, |d| - i
  {
    match ReadVarint(d, i, 0)
    case Err(e) => Err(e)
    case Ok((w, j)) =>
      if w % 8 == 4 then Ok(j) else
      match SkipTypes(d[i..])
      case Err(e) => Err(e)
      case Ok(n) => if n < 0 || i + n >= TWO_63 then Err(Panic) else SkipGroup(d, i + n)
  }

  /** An unknown field at `i`: the index after it. */
  function SkipField(d: bytes, i: nat): (r: Result<nat>)
    requires i <= |d|
    ensures r.Ok? ==> i < r.value <= |d|
  {
    match SkipTypes(d[i..])
    case Err(e) => Err(e)
    case Ok(n) =>
      if n < 0 then Err(InvalidLength)
      else if i + n >= TWO_63 then Err(Panic)
      else if i + n > |d| then Err(UnexpectedEof)
      else Ok(i + n)
  }

  function FromLittleEndian(s: bytes): (v: nat) {
    if s == [] then 0 else s[0] + 256 * FromLittleEndian(s[1..])
  }

  lemma {:induction false} FromLittleEndianBound(s: bytes)
    ensures FromLittleEndian(s) < Pow256(|s|)
  {
    if s != [] { FromLittleEndianBound(s[1..]); }
  }

  function ReadFixed64(s: bytes): (v: uint64)
    requires |s| == 8
  {
    FromLittleEndianBound(s); Pow256Widths();
    FromLittleEndian(s)
  }

  function VarintOf(d: bytes, i: nat, width: nat): (r: Result<(nat, nat)>)
    requires width > 0
    ensures r.Ok? ==> r.value.0 < width && i < r.value.1 <= |d|
  {
    match ReadVarint(d, i, 0)
    case Err(e) => Err(e)
    case Ok((w, next)) => Ok((w % width, next))
  }

  /** One round of the loop of `Posting.Unmarshal`. */
  function PostingField(d: bytes, i: nat, m: Posting): (r: Result<(Posting, nat)>)
    requires i <= |d|
    ensures r.Ok? ==> i < r.value.1 <= |d|
  {
    match ReadTag(d, i)
    case Err(e) => Err(e)
    case Ok(t) =>
      if t.field == 1 then
        if t.wireType != 1 then Err(WrongWireType)
        else if t.next + 8 > |d| then Err(UnexpectedEof)
        else Ok((m.(uid := ReadFixed64(d[t.next..t.next + 8])), t.next + 8))
      else if t.field == 2 || t.field == 4 then
        if t.wireType != 2 then Err(WrongWireType) else
        match ReadLength(d, t.next)
        case Err(e) => Err(e)
        case Ok((lo, hi)) =>
          Ok((if t.field == 2 then m.(value := d[lo..hi]) else m.(lbl := d[lo..hi]), hi))
      else if t.field == 3 || t.field == 12 then
        if t.wireType != 0 then Err(WrongWireType) else
        match VarintOf(d, t.next, TWO_32)
        case Err(e) => Err(e)
        case Ok((v, next)) => Ok((if t.field == 3 then m.(valType := v) else m.(op := v), next))
      else if t.field == 5 then
        if t.wireType != 0 then Err(WrongWireType) else
        match VarintOf(d, t.next, TWO_64)
        case Err(e) => Err(e)
        case Ok((v, next)) => Ok((m.(commit := v), next))
      else
        match SkipField(d, i)
        case Err(e) => Err(e)
        case Ok(next) => Ok((m, next))
  }

  function ParsePosting(d: bytes, i: nat, m: Posting): (r: Result<Posting>)
    requires i <= |d|
    decreases |d| - i
  {
    if i == |d| then Ok(m) else
    match PostingField(d, i, m)
    case Err(e) => Err(e)
    case Ok((m', next)) => ParsePosting(d, next, m')
  }

  /** One round of the loop of `PostingList.Unmarshal`. */
  function PostingListField(d: bytes, i: nat, m: PostingList): (r: Result<(PostingList, nat)>)
    requires i <= |d|
    ensures r.Ok? ==> i < r.value.1 <= |d|
  {
    match ReadTag(d, i)
    case Err(e) => Err(e)
    case Ok(t) =>
      if t.field == 1 || t.field == 2 then
        if t.wireType != 2 then Err(WrongWireType) else
        match ReadLength(d, t.next)
        case Err(e) => Err(e)
        case Ok((lo, hi)) =>
          if t.field == 2 then Ok((m.(checksum := d[lo..hi]), hi)) else
          match ParsePosting(d[lo..hi], 0, EMPTY_POSTING)
          case Err(e) => Err(e)
          case Ok(p) => Ok((m.(postings := m.postings + [p]), hi))
      else if t.field == 3 then
        if t.wireType != 0 then Err(WrongWireType) else
        match VarintOf(d, t.next, TWO_64)
        case Err(e) => Err(e)
        case Ok((v, next)) => Ok((m.(commit := v), next))
      else
        match SkipField(d, i)
        case Err(e) => Err(e)
        case Ok(next) => Ok((m, next))
  }

  function ParsePostingList(d: bytes, i: nat, m: PostingList): (r: Result<PostingList>)
    requires i <= |d|
    decreases |d| - i
  {
    if i == |d| then Ok(m) else
    match PostingListField(d, i, m)
    case Err(e) => Err(e)
    case Ok((m', next)) => ParsePostingList(d, next, m')
  }
}
