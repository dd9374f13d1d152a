/** Facts about sequences and sets that several models use. */
module Seqs {
  /** `d` holds `s` at index `i`. */
  predicate At<T(==)>(d: seq<T>, i: nat, s: seq<T>) {
    i + |s| <= |d| && d[i..i + |s|] == s
  }

  lemma AtSplit<T>(d: seq<T>, i: nat, s: seq<T>, t: seq<T>)
    ensures At(d, i, s + t) <==> At(d, i, s) && At(d, i + |s|, t)
  {
    if At(d, i, s + t) {
      assert d[i..i + |s|] == (s + t)[..|s|] == s;
      assert d[i + |s|..i + |s| + |t|] == (s + t)[|s|..] == t;
    }
    if At(d, i, s) && At(d, i + |s|, t) {
      assert d[i..i + |s + t|] == d[i..i + |s|] + d[i + |s|..i + |s| + |t|];
    }
  }

  ghost function SetOf<T>(s: seq<T>): set<T> {
    set x | x in s
  }

  ghost predicate Distinct<T>(s: seq<T>) {
    forall i, j :: 0 <= i < j < |s| ==> s[i] != s[j]
  }

  lemma {:induction false} DistinctSize<T>(s: seq<T>)
    requires Distinct(s)
    ensures |SetOf(s)| == |s|
  {
    if s == [] {
      assert SetOf(s) == {};
    } else {
      DistinctSize(s[1..]);
      assert s[0] !in SetOf(s[1..]);
      assert SetOf(s) == SetOf(s[1..]) + {s[0]};
    }
  }

  lemma SubsetSize<T>(x: set<T>, y: set<T>)
    requires x <= y
    ensures |x| <= |y|
    ensures x != y ==> |x| < |y|
  {
    assert y == x + (y - x);
    if x != y {
      var e :| e in y - x;
      assert |y - x| > 0;
    }
  }
}
