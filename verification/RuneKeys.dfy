/**
 How `posting.Key` turns the characters of an attribute into bytes: it keeps the
 low byte of every character, at the place where the character begins.
 */
module RuneKeys {
  import opened Bytes
  import opened Keys

  /** A Unicode code point that UTF-8 can encode. */
  type Rune = c: nat | c < 0xD800 || 0xE000 <= c < 0x110000

  /** Its length in UTF-8. */
  function Width(ch: Rune): (n: nat)
    ensures 0 < n <= 4
  {
    if ch < 0x80 then 1 else if ch < 0x800 then 2 else if ch < 0x10000 then 3 else 4
  }

  function Zeros(n: nat): bytes {
    if n == 0 then [] else [0] + Zeros(n - 1)
  }

  function OneRune(ch: Rune): bytes {
    [ch % 256] + Zeros(Width(ch) - 1)
  }

  function RuneBytes(attr: seq<Rune>): bytes {
    if attr == [] then [] else OneRune(attr[0]) + RuneBytes(attr[1..])
  }

  lemma {:induction false} RuneBytesConcat(a: seq<Rune>, b: seq<Rune>)
    ensures RuneBytes(a + b) == RuneBytes(a) + RuneBytes(b)
  {
    hide OneRune;
    if a == [] {
      assert a + b == b;
    } else {
      RuneBytesConcat(a[1..], b);
      assert (a + b)[1..] == a[1..] + b;
      assert OneRune(a[0]) + (RuneBytes(a[1..]) + RuneBytes(b)) == (OneRune(a[0]) + RuneBytes(a[1..])) + RuneBytes(b);
    }
  }

  lemma RuneBytesOne(c: Rune)
    ensures RuneBytes([c]) == OneRune(c)
  {
    hide OneRune;
    assert [c][1..] == [];
  }

  /** One-byte characters are copied as they are. */
  lemma {:induction false} RuneBytesPlain(attr: seq<Rune>)
    requires forall i :: 0 <= i < |attr| ==> attr[i] < 0x80
    ensures RuneBytes(attr) == attr
  {
    if attr != [] {
      RuneBytesPlain(attr[1..]);
      assert attr == [attr[0]] + attr[1..];
    }
  }

  // ---------- When a key is unique ----------

  /** One-byte characters only, and no NUL but at the start. */
  predicate Unmistakable(a: seq<Rune>) {
    forall i :: 0 <= i < |a| ==> a[i] < 0x80 && (i > 0 ==> a[i] != 0)
  }

  /** No other key of the data lists is the key of `a`. */
  ghost predicate UniqueKey(a: seq<Rune>) {
    forall b: seq<Rune>, u: uint64, w: uint64 :: DataKey(RuneBytes(a), u) == DataKey(RuneBytes(b), w) ==> a == b && u == w
  }

  lemma RuneBytesLength(b: seq<Rune>)
    requires b != []
    ensures |RuneBytes(b)| >= Width(b[0]) && RuneBytes(b)[0] == b[0] % 256
    ensures Width(b[0]) == 1 ==> RuneBytes(b)[1..] == RuneBytes(b[1..])
    ensures Width(b[0]) > 1 ==> |RuneBytes(b)| > 1 && RuneBytes(b)[1] == 0
  {
    ZerosLength(Width(b[0]) - 1);
  }

  lemma {:induction false} ZerosLength(n: nat)
    ensures |Zeros(n)| == n && (n > 0 ==> Zeros(n)[0] == 0)
  {
    if n > 0 { ZerosLength(n - 1); }
  }

  /** The bytes of an unmistakable attribute come from no other. */
  lemma {:induction false} BytesUnique(a: seq<Rune>, b: seq<Rune>)
    requires Unmistakable(a) && RuneBytes(a) == RuneBytes(b)
    ensures a == b
    decreases |a|
  {
    hide RuneBytes;
    RuneBytesPlain(a);
    RuneBytesPlain(a[..0]);
    if b != [] {
      RuneBytesLength(b);
      RuneBytesLength(a);
      assert |a| > 1 ==> a[1] != 0;
      BytesUnique(a[1..], b[1..]);
      assert a == [a[0]] + a[1..] && b == [b[0]] + b[1..];
    }
  }

  /** Another character of the same width with the same low byte. */
  function Twin(c: Rune): Rune
    requires c >= 0x80
  {
    if c < 0x180 || 0x800 <= c < 0x900 || 0xE000 <= c < 0xE100 || 0x10000 <= c < 0x10100 then c + 0x100 else c - 0x100
  }

  lemma TwinLaw(c: Rune)
    requires c >= 0x80
    ensures Twin(c) != c && Width(Twin(c)) == Width(c) && Twin(c) % 256 == c % 256
  {
  }

  /** Replacing a part by one with the same bytes. */
  lemma SwapPart(x: seq<Rune>, p: seq<Rune>, q: seq<Rune>, y: seq<Rune>)
    requires RuneBytes(p) == RuneBytes(q)
    ensures RuneBytes(x + p + y) == RuneBytes(x + q + y)
  {
    RuneBytesConcat(x + p, y);
    RuneBytesConcat(x, p);
    RuneBytesConcat(x + q, y);
    RuneBytesConcat(x, q);
  }

  /** Every other attribute has a double. */
  lemma HasDouble(a: seq<Rune>) returns (b: seq<Rune>)
    requires !Unmistakable(a)
    ensures b != a && RuneBytes(b) == RuneBytes(a)
  {
    if i :| 0 <= i < |a| && a[i] >= 0x80 {
      b := WideDouble(a, i);
    } else {
      var i :| 0 < i < |a| && a[i] == 0;
      b := NulDouble(a, i);
    }
  }

  lemma WideDouble(a: seq<Rune>, i: nat) returns (b: seq<Rune>)
    requires i < |a| && a[i] >= 0x80
    ensures b != a && RuneBytes(b) == RuneBytes(a)
  {
    hide RuneBytes, Zeros, Width, Twin;
    var c := Twin(a[i]);
    TwinLaw(a[i]);
    RuneBytesOne(a[i]);
    RuneBytesOne(c);
    SwapPart(a[..i], [a[i]], [c], a[i + 1..]);
    assert a == a[..i] + [a[i]] + a[i + 1..];
    b := a[..i] + [c] + a[i + 1..];
    assert b[i] != a[i];
  }

  lemma NulDouble(a: seq<Rune>, i: nat) returns (b: seq<Rune>)
    requires 0 < i < |a| && a[i] == 0 && a[i - 1] < 0x80
    ensures b != a && RuneBytes(b) == RuneBytes(a)
  {
    hide RuneBytes;
    var c: Rune := 0x100 + a[i - 1];
    NulTwin(a[i - 1]);
    SwapPart(a[..i - 1], [a[i - 1], 0], [c], a[i + 1..]);
    assert a == a[..i - 1] + [a[i - 1], 0] + a[i + 1..];
    b := a[..i - 1] + [c] + a[i + 1..];
    assert |b| < |a|;
  }

  lemma NulTwin(c: Rune)
    requires c < 0x80
    ensures RuneBytes([0x100 + c]) == RuneBytes([c, 0])
  {
    hide RuneBytes;
    RuneBytesPlain([c, 0]);
    RuneBytesOne(0x100 + c);
    ZerosLength(1);
  }

  /** The key of an attribute and a uid is unique if and only if the attribute is unmistakable. */
  lemma UniqueKeyIff(a: seq<Rune>)
    ensures UniqueKey(a) <==> Unmistakable(a)
  {
    hide RuneBytes, DataKey;
    if Unmistakable(a) {
      forall b: seq<Rune>, u: uint64, w: uint64 | DataKey(RuneBytes(a), u) == DataKey(RuneBytes(b), w) ensures a == b && u == w {
        DataKeyInjective(RuneBytes(a), u, RuneBytes(b), w);
        BytesUnique(a, b);
      }
    } else {
      var b := HasDouble(a);
      assert DataKey(RuneBytes(a), 0) == DataKey(RuneBytes(b), 0);
    }
  }

  /** U+0161, U+0261 and "a" followed by NUL have the same key for every uid. */
  lemma KeyCollision(uid: uint64)
    ensures DataKey(RuneBytes([0x161]), uid) == DataKey(RuneBytes([0x261]), uid) == DataKey(RuneBytes([0x61, 0]), uid)
  {
    RuneBytesOne(0x161);
    RuneBytesOne(0x261);
    RuneBytesPlain([0x61, 0]);
  }
}
