/** `IntersectSorted` and `IntersectWith` (`algo/uidlist.go`). */
module IntersectLists {
  import opened Bytes
  import opened UidOrder
  import opened UidLists

  /** The first list of least length: the one that is scanned. */
  ghost predicate Shortest(lists: seq<seq<uint64>>, m: nat) {
    && m < |lists|
    && (forall i :: 0 <= i < |lists| ==> |lists[m]| <= |lists[i]|)
    && (forall i :: 0 <= i < m ==> |lists[m]| < |lists[i]|)
  }

  method FindShortest(lists: seq<seq<uint64>>) returns (m: nat)
    requires |lists| > 0
    ensures Shortest(lists, m)
  {
    m := 0;
    var minLen := |lists[0]|;
    for i := 1 to |lists|
      invariant m < i && minLen == |lists[m]|
      invariant forall k :: 0 <= k < i ==> |lists[m]| <= |lists[k]|
      invariant forall k :: 0 <= k < m ==> |lists[m]| < |lists[k]|
    {
      if |lists[i]| < minLen {
        minLen := |lists[i]|;
        m := i;
      }
    }
  }

  /** Everything before the cursors is below `val`. */
  ghost predicate Passed(lists: seq<seq<uint64>>, lptrs: seq<nat>, val: uint64) {
    && |lptrs| == |lists|
    && (forall j :: 0 <= j < |lists| ==> lptrs[j] <= |lists[j]|)
    && (forall j, p :: 0 <= j < |lists| && 0 <= p < lptrs[j] ==> lists[j][p] < val)
  }

  lemma PassedUp(lists: seq<seq<uint64>>, lptrs: seq<nat>, val: uint64, val': uint64)
    requires Passed(lists, lptrs, val) && val <= val'
    ensures Passed(lists, lptrs, val')
  {
  }

  /** One cursor run forward to `val`: the cursor then tells whether `val` is in the list. */
  method Seek(l: seq<uint64>, start: nat, val: uint64) returns (p: nat, found: bool)
    requires Ordered(l) && start <= |l| && forall q :: 0 <= q < start ==> l[q] < val
    ensures start <= p <= |l| && forall q :: 0 <= q < p ==> l[q] < val
    ensures found <==> val in l
  {
    p := start;
    while p < |l| && l[p] < val
      invariant start <= p <= |l|
      invariant forall q :: 0 <= q < p ==> l[q] < val
    {
      p := p + 1;
    }
    found := !(p >= |l| || l[p] > val);
  }

  /** Is `val`, an element of list `m`, in all the other lists? The cursors of the lists after a miss stay behind. */
  method InOthers(lists: seq<seq<uint64>>, m: nat, val: uint64, lptrs: seq<nat>) returns (lptrs': seq<nat>, all: bool)
    requires AllOrdered(lists) && m < |lists| && val in lists[m] && Passed(lists, lptrs, val)
    ensures Passed(lists, lptrs', val)
    ensures all <==> InAll(lists, val)
  {
    lptrs', all := lptrs, true;
    for j := 0 to |lists|
      invariant Passed(lists, lptrs', val)
      invariant forall i :: 0 <= i < j ==> val in lists[i]
    {
      if j != m {
        assert Ordered(lists[j]);
        var p, found := Seek(lists[j], lptrs'[j], val);
        lptrs' := lptrs'[j := p];
        if !found {
          all := false;
          return;
        }
      }
    }
  }

  /** `IntersectSorted`: the intersection of the lists, in increasing order. */
  method IntersectSorted(lists: seq<seq<uint64>>) returns (output: seq<uint64>)
    requires AllOrdered(lists)
    requires forall m: nat :: Shortest(lists, m) ==> Increasing(lists[m])
    ensures Increasing(output)
    ensures lists == [] ==> output == []
    ensures lists != [] ==> forall u: uint64 :: u in output <==> InAll(lists, u)
  {
    hide Ordered, Shortest, InAll, Passed, AllOrdered;
    output := [];
    if |lists| == 0 {
      return;
    }
    var m := FindShortest(lists);
    var short := lists[m];
    var lptrs: seq<nat> := seq(|lists|, _ => 0);
    PassedStart(lists, lptrs);
    for i := 0 to |short|
      invariant Increasing(output)
      invariant forall k :: 0 <= k < |output| ==> output[k] in short[..i]
      invariant forall u: uint64 :: u in output <==> u in short[..i] && InAll(lists, u)
      invariant if i == 0 then Passed(lists, lptrs, 0) else Passed(lists, lptrs, short[i - 1])
    {
      var val := short[i];
      assert short[..i + 1] == short[..i] + [val];
      PassedUp(lists, lptrs, if i == 0 then 0 else short[i - 1], val);
      var all;
      lptrs, all := InOthers(lists, m, val, lptrs);
      if all {
        output := output + [val];
      }
    }
    assert short[..|short|] == short;
    forall u: uint64 ensures u in output <==> InAll(lists, u) {
      InAllAt(lists, m, u);
    }
  }

  lemma PassedStart(lists: seq<seq<uint64>>, lptrs: seq<nat>)
    requires |lptrs| == |lists| && forall j :: 0 <= j < |lptrs| ==> lptrs[j] == 0
    ensures Passed(lists, lptrs, 0)
  {
  }

  lemma InAllAt(lists: seq<seq<uint64>>, m: nat, u: uint64)
    requires m < |lists|
    ensures InAll(lists, u) ==> u in lists[m]
  {
  }

  /** The elements of `s` that are in `v`, in the order of `s`. */
  function Common(s: seq<uint64>, v: seq<uint64>): seq<uint64> {
    if s == [] then []
    else Common(s[..|s| - 1], v) + if s[|s| - 1] in v then [s[|s| - 1]] else []
  }

  /** The compacted list is the intersection, and stays sorted. */
  lemma {:induction false} CommonLaw(s: seq<uint64>, v: seq<uint64>)
    ensures |Common(s, v)| <= |s|
    ensures forall u: uint64 :: u in Common(s, v) <==> u in s && u in v
    ensures Increasing(s) ==> Increasing(Common(s, v))
  {
    if s != [] {
      var t := s[..|s| - 1];
      CommonLaw(t, v);
      assert s == t + [s[|s| - 1]];
      assert forall k :: 0 <= k < |Common(t, v)| ==> Common(t, v)[k] in t;
    }
  }

  lemma {:induction false} CommonOrdered(s: seq<uint64>, v: seq<uint64>)
    requires Ordered(s)
    ensures Ordered(Common(s, v))
  {
    if s != [] {
      var t := s[..|s| - 1];
      CommonOrdered(t, v);
      CommonLaw(t, v);
      assert forall k :: 0 <= k < |Common(t, v)| ==> Common(t, v)[k] in t;
    }
  }

  /** `IntersectWith`: compacts `u` in place, reading and writing the same slice; the result is its first `n` elements. */
  method IntersectWith(u: array<uint64>, v: seq<uint64>) returns (n: nat)
    requires Ordered(u[..]) && Ordered(v)
    modifies u
    ensures n <= u.Length && u[..n] == Common(old(u[..]), v)
  {
    n := 0;
    var k := 0;
    ghost var s := u[..];
    for i := 0 to u.Length
      invariant n <= i && u[..n] == Common(s[..i], v)
      invariant u[i..] == s[i..]
      invariant 0 <= k <= |v|
      invariant i < u.Length ==> forall q :: 0 <= q < k ==> v[q] < s[i]
    {
      assert s[i] == s[i..][0] == u[i];
      var uid := u[i];
      while k < |v| && v[k] < uid
        invariant 0 <= k <= |v|
        invariant forall q :: 0 <= q < k ==> v[q] < uid
      {
        k := k + 1;
      }
      assert s[..i + 1][..i] == s[..i];
      assert uid in v <==> k < |v| && v[k] == uid;
      if k < |v| && v[k] == uid {
        u[n] := uid;
        n := n + 1;
        assert u[..n] == Common(s[..i], v) + [uid];
      }
      assert u[i + 1..] == s[i + 1..] by {
        assert s[i + 1..] == s[i..][1..];
      }
    }
    assert s[..u.Length] == s;
  }
}
