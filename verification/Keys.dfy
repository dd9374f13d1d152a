/**
 Keys of posting lists and tokens of the index (`posting/list.go`,
 `types/index.go`): the data list of (attribute, uid) lives under
 `attr|uid`, the index list of (attribute, token) under `attr:token`.
 */
module Keys {
  import opened Bytes

  const BAR: byte := 0x7c    // '|'
  const COLON: byte := 0x3a  // ':'

  /** `posting.Key`, once the attribute is bytes (see `RuneKeys`) */
  function DataKey(attr: bytes, uid: uint64): bytes {
    attr + [BAR] + BigEndian(uid, 8)
  }

  /** `types.IndexKey` */
  function IndexKey(attr: bytes, token: bytes): bytes {
    attr + [COLON] + token
  }

  predicate PlainAttr(attr: bytes) {
    |attr| > 0 && BAR !in attr && COLON !in attr
  }

  /** Position of the first separator. */
  function FirstSeparator(k: bytes): nat {
    if k == [] || k[0] == BAR || k[0] == COLON then 0 else 1 + FirstSeparator(k[1..])
  }

  lemma {:induction false} FirstSeparatorAt(a: bytes, x: byte, s: bytes)
    requires BAR !in a && COLON !in a && x in {BAR, COLON}
    ensures FirstSeparator(a + [x] + s) == |a|
  {
    if a == [] {
      assert (a + [x] + s)[0] == x;
    } else {
      assert (a + [x] + s)[1..] == a[1..] + [x] + s;
      FirstSeparatorAt(a[1..], x, s);
    }
  }

  /** A key determines the plain attribute, the separator and the rest. */
  lemma SameAttr(a: bytes, x: byte, s: bytes, b: bytes, y: byte, t: bytes)
    requires PlainAttr(a) && PlainAttr(b) && x in {BAR, COLON} && y in {BAR, COLON}
    requires a + [x] + s == b + [y] + t
    ensures a == b && x == y && s == t
  {
    var k := a + [x] + s;
    FirstSeparatorAt(a, x, s);
    FirstSeparatorAt(b, y, t);
    assert a == k[..|a|] == b;
    assert x == k[|a|] == y;
    assert s == k[|a| + 1..] == t;
  }

  /** The keys byte by byte: the attribute, '|' or ':', and the uid in eight big-endian bytes or the token. */
  lemma KeyLayout(attr: bytes, uid: uint64, token: bytes)
    ensures var d := DataKey(attr, uid);
      |d| == |attr| + 9 && d[..|attr|] == attr && d[|attr|] as char == '|' && FromBigEndian(d[|attr| + 1..]) == uid
    ensures var k := IndexKey(attr, token);
      |k| == |attr| + |token| + 1 && k[..|attr|] == attr && k[|attr|] as char == ':' && k[|attr| + 1..] == token
  {
    Pow256Widths();
    BigEndianRoundTrip(uid, 8);
    assert DataKey(attr, uid)[|attr| + 1..] == BigEndian(uid, 8);
  }

  /** What follows the attribute always has nine bytes. */
  lemma DataKeyInjective(a: bytes, u: uint64, b: bytes, w: uint64)
    requires DataKey(a, u) == DataKey(b, w)
    ensures a == b && u == w
  {
    var k := DataKey(a, u);
    assert a == k[..|k| - 9] == b;
    assert BigEndian(u, 8) == k[|k| - 8..] == BigEndian(w, 8);
    Pow256Widths();
    BigEndianInjective(u, w, 8);
  }

  lemma IndexKeyInjective(a: bytes, s: bytes, b: bytes, t: bytes)
    requires PlainAttr(a) && PlainAttr(b) && IndexKey(a, s) == IndexKey(b, t)
    ensures a == b && s == t
  {
    SameAttr(a, COLON, s, b, COLON, t);
  }

  /** Data lists and index lists never share a key. */
  lemma KeysDisjoint(a: bytes, u: uint64, b: bytes, t: bytes)
    requires PlainAttr(a) && PlainAttr(b)
    ensures DataKey(a, u) != IndexKey(b, t)
  {
    if DataKey(a, u) == IndexKey(b, t) {
      SameAttr(a, BAR, BigEndian(u, 8), b, COLON, t);
    }
  }

  function IndexOfByte(s: bytes, b: byte): (i: nat)
    ensures i <= |s| && (i < |s| ==> s[i] == b) && forall k :: 0 <= k < i ==> s[k] != b
  {
    if s == [] || s[0] == b then 0 else 1 + IndexOfByte(s[1..], b)
  }

  /** `TokenFromKey`: what follows the first ':'; `None` is its failed assertion. */
  function TokenFromKey(key: bytes): Option<bytes> {
    var i := IndexOfByte(key, COLON);
    if i == |key| then None else Some(key[i + 1..])
  }

  lemma TokenRoundTrip(attr: bytes, token: bytes)
    requires PlainAttr(attr)
    ensures TokenFromKey(IndexKey(attr, token)) == Some(token)
  {
    ColonAt(attr, token);
    assert IndexKey(attr, token)[|attr| + 1..] == token;
  }

  lemma {:induction false} ColonAt(attr: bytes, rest: bytes)
    requires COLON !in attr
    ensures IndexOfByte(IndexKey(attr, rest), COLON) == |attr|
  {
    if attr == [] {
      assert IndexKey(attr, rest)[0] == COLON;
    } else {
      assert IndexKey(attr, rest)[1..] == IndexKey(attr[1..], rest);
      ColonAt(attr[1..], rest);
    }
  }

  /** `IntIndex`, `DateIndex`: the big-endian two's complement of a 32-bit key. */
  function IntToken(v: int32): (t: bytes)
    ensures |t| == 4
  {
    BigEndian(if v < 0 then v + TWO_32 else v, 4)
  }

  /** Read back as an unsigned number, the token is the key modulo 2^32. */
  lemma IntTokenValue(v: int32)
    ensures FromBigEndian(IntToken(v)) == (v + TWO_32) % TWO_32
  {
    Pow256Widths();
    BigEndianRoundTrip(if v < 0 then v + TWO_32 else v, 4);
  }

  lemma IntTokenInjective(v: int32, w: int32)
    requires IntToken(v) == IntToken(w)
    ensures v == w
  {
    Pow256Widths();
    BigEndianInjective(if v < 0 then v + TWO_32 else v, if w < 0 then w + TWO_32 else w, 4);
  }

  /** Byte order of tokens agrees with the order of the keys exactly when the two keys have the same sign. */
  lemma IntTokenOrder(v: int32, w: int32)
    requires v != w
    ensures (LexLess(IntToken(v), IntToken(w)) <==> v < w) <==> (v < 0 <==> w < 0)
  {
    Pow256Widths();
    BigEndianOrder(if v < 0 then v + TWO_32 else v, if w < 0 then w + TWO_32 else w, 4);
  }
}
