/** Orders on lists of uids. */
module UidOrder {
  import opened Bytes

  ghost predicate Increasing(s: seq<uint64>) {
    forall i, j :: 0 <= i < j < |s| ==> s[i] < s[j]
  }

  ghost predicate Ordered(s: seq<uint64>) {
    forall i, j :: 0 <= i < j < |s| ==> s[i] <= s[j]
  }

  /** An increasing list is determined by its elements. */
  lemma {:induction false} IncreasingUnique(s: seq<uint64>, t: seq<uint64>)
    requires Increasing(s) && Increasing(t)
    requires forall u: uint64 :: u in s <==> u in t
    ensures s == t
  {
    assert |s| > 0 ==> s[0] in t;
    assert |t| > 0 ==> t[0] in s;
    if s != [] {
      assert s[0] == t[0];
      forall u: uint64 ensures u in s[1..] <==> u in t[1..] {
        assert u in s <==> u == s[0] || u in s[1..];
        assert u in t <==> u == t[0] || u in t[1..];
        assert s[0] !in s[1..] && t[0] !in t[1..];
      }
      IncreasingUnique(s[1..], t[1..]);
      assert s == [s[0]] + s[1..] && t == [t[0]] + t[1..];
    }
  }
}
