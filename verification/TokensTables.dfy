/** `TokensTable` (`posting/index.go`): the sorted table of tokens that an attribute has ever been indexed under. */
module TokensTables {
  import opened Bytes
  import GoSort

  ghost predicate SortedTokens(ks: seq<bytes>) {
    forall i, j :: 0 <= i < j < |ks| ==> LexLess(ks[i], ks[j])
  }

  /** `ks` with `s` inserted where it belongs, unless it is there already. */
  function Insert(ks: seq<bytes>, s: bytes): seq<bytes> {
    if ks == [] || LexLess(s, ks[0]) then [s] + ks
    else if ks[0] == s then ks
    else [ks[0]] + Insert(ks[1..], s)
  }

  lemma {:induction false} InsertLaw(ks: seq<bytes>, s: bytes)
    requires SortedTokens(ks)
    ensures SortedTokens(Insert(ks, s))
    ensures forall t :: t in Insert(ks, s) <==> t in ks || t == s
  {
    if ks != [] {
      LexTrichotomy(s, ks[0]);
      if LexLess(s, ks[0]) {
        forall j | 0 < j < |ks| ensures LexLess(s, ks[j]) { LexTransitive(s, ks[0], ks[j]); }
      } else if ks[0] != s {
        InsertLaw(ks[1..], s);
        var r := Insert(ks[1..], s);
        forall j | 0 <= j < |r| ensures LexLess(ks[0], r[j]) {
          assert r[j] in r;
        }
        assert Insert(ks, s) == [ks[0]] + r;
        assert ks == [ks[0]] + ks[1..];
      }
    }
  }

  lemma InsertFirst(ks: seq<bytes>, s: bytes)
    requires ks == [] || LexLeq(s, ks[0])
    ensures Insert(ks, s) == if ks != [] && ks[0] == s then ks else [s] + ks
  {
    if ks != [] && ks[0] == s && LexLess(s, ks[0]) { LexAsymmetric(s, ks[0]); }
  }

  lemma InsertLater(ks: seq<bytes>, s: bytes)
    requires ks != [] && LexLess(ks[0], s)
    ensures Insert(ks, s) == [ks[0]] + Insert(ks[1..], s)
  {
    LexAsymmetric(ks[0], s);
  }

  lemma {:induction false} InsertAt(ks: seq<bytes>, s: bytes, i: nat)
    requires i <= |ks|
    requires forall k :: 0 <= k < i ==> LexLess(ks[k], s)
    requires i < |ks| ==> LexLeq(s, ks[i])
    ensures i < |ks| && ks[i] == s ==> Insert(ks, s) == ks
    ensures !(i < |ks| && ks[i] == s) ==> Insert(ks, s) == ks[..i] + [s] + ks[i..]
  {
    hide LexLess, LexLeq, Insert;
    if i == 0 {
      InsertFirst(ks, s);
      assert ks[..0] + [s] + ks[0..] == [s] + ks;
    } else {
      InsertLater(ks, s);
      var rest := ks[1..];
      InsertAt(rest, s, i - 1);
      assert ks == [ks[0]] + rest;
      assert ks[..i] == [ks[0]] + rest[..i - 1] && ks[i..] == rest[i - 1..];
      assert [ks[0]] + (rest[..i - 1] + [s] + rest[i - 1..]) == ([ks[0]] + rest[..i - 1]) + [s] + rest[i - 1..];
    }
  }

  /** The first index whose token is at least `s` (`sort.SearchStrings`). */
  method SearchTokens(ks: seq<bytes>, s: bytes) returns (i: nat)
    requires SortedTokens(ks)
    ensures i <= |ks|
    ensures forall k :: 0 <= k < i ==> LexLess(ks[k], s)
    ensures forall k :: i <= k < |ks| ==> LexLeq(s, ks[k])
  {
    var f := k requires 0 <= k < |ks| => LexLeq(s, ks[k]);
    forall j, k | 0 <= j < k < |ks| && f(j) ensures f(k) {
      if s != ks[j] { LexTransitive(s, ks[j], ks[k]); }
    }
    i := GoSort.Search(|ks|, f);
    forall k | 0 <= k < i ensures LexLess(ks[k], s) {
      assert !f(k);
      LexTrichotomy(s, ks[k]);
    }
    forall k | i <= k < |ks| ensures LexLeq(s, ks[k]) { assert f(k); }
  }

  class TokensTable {
    var key: seq<bytes>

    constructor ()
      ensures key == []
    {
      key := [];
    }

    /** `Get`: position of a token, or -1. */
    method Get(s: bytes) returns (i: int)
      requires SortedTokens(key)
      ensures i == -1 <==> s !in key
      ensures i != -1 ==> 0 <= i < |key| && key[i] == s
    {
      i := SearchTokens(key, s);
      if i < |key| && key[i] == s {
        return;
      }
      assert s !in key by {
        if k :| 0 <= k < |key| && key[k] == s {
          if k < i { LexAsymmetric(key[k], s); } else { LexAsymmetric(key[i], key[k]); }
        }
      }
      i := -1;
    }

    /** `Add`: makes room by shifting, one slot at a time. */
    method Add(s: bytes)
      requires SortedTokens(key)
      modifies this
      ensures key == Insert(old(key), s) && SortedTokens(key)
    {
      var i := SearchTokens(key, s);
      InsertAt(key, s, i);
      InsertLaw(key, s);
      if i < |key| && key[i] == s {
        return;
      }
      ghost var ks := key;
      key := key + [[]];
      var j := |key| - 1;
      while j > i
        invariant i <= j < |key| == |ks| + 1
        invariant forall k :: 0 <= k < j ==> key[k] == ks[k]
        invariant forall k :: j < k < |key| ==> key[k] == ks[k - 1]
      {
        key := key[j := key[j - 1]];
        j := j - 1;
      }
      key := key[i := s];
      assert key == ks[..i] + [s] + ks[i..];
    }

    /** `push`: appends a token that is above all others. */
    method Push(s: bytes)
      requires SortedTokens(key) && forall t :: t in key ==> LexLess(t, s)
      modifies this
      ensures key == old(key) + [s] && SortedTokens(key)
    {
      key := key + [s];
    }

    /** `GetFirst`: the least token, or the empty string. */
    method GetFirst() returns (t: bytes)
      requires SortedTokens(key)
      ensures key == [] ==> t == []
      ensures key != [] ==> t == key[0] && t in key && forall s :: s in key ==> LexLeq(t, s)
    {
      if |key| == 0 {
        return [];
      }
      return key[0];
    }

    /** `GetNext`: the least token above `s`, or the empty string. */
    method GetNext(s: bytes) returns (t: bytes)
      requires SortedTokens(key)
      ensures t == Next(key, s)
    {
      var ks := key;
      var above := k requires 0 <= k < |ks| => LexLess(s, ks[k]);
      forall j, k | 0 <= j < k < |ks| && above(j) ensures above(k) {
        LexTransitive(s, ks[j], ks[k]);
      }
      var i := GoSort.Search(|ks|, above);
      forall k | 0 <= k < i ensures !LexLess(s, ks[k]) { assert !above(k); }
      assert i < |ks| ==> above(i);
      NextAt(ks, s, i);
      if i < |ks| {
        return ks[i];
      }
      return [];
    }
  }

  function Next(ks: seq<bytes>, s: bytes): bytes {
    if ks == [] then [] else if LexLess(s, ks[0]) then ks[0] else Next(ks[1..], s)
  }

  lemma {:induction false} NextAt(ks: seq<bytes>, s: bytes, i: nat)
    requires i <= |ks| && (forall k :: 0 <= k < i ==> !LexLess(s, ks[k])) && (i < |ks| ==> LexLess(s, ks[i]))
    ensures Next(ks, s) == if i < |ks| then ks[i] else []
  {
    if i > 0 { NextAt(ks[1..], s, i - 1); }
  }

  /** From the token at `i`, the next one is the token at `i + 1`: walking with `GetNext` visits the whole table in order. */
  lemma NextOf(ks: seq<bytes>, i: nat)
    requires SortedTokens(ks) && i < |ks|
    ensures Next(ks, ks[i]) == if i + 1 < |ks| then ks[i + 1] else []
  {
    forall k | 0 <= k <= i ensures !LexLess(ks[i], ks[k]) {
      if LexLess(ks[i], ks[k]) { LexAsymmetric(ks[i], ks[k]); }
    }
    NextAt(ks, ks[i], i + 1);
  }
}
