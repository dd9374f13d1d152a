/**
 The heap of `algo/heap.go` under Go's `container/heap`: sift-up and sift-down
 on a slice, ordered by `val`.
 */
module UidHeap {
  import opened Bytes

  datatype Elem = Elem(val: uint64, listIdx: nat)

  function Parent(j: nat): nat
    requires j > 0
  {
    (j - 1) / 2
  }

  /** The parent of `j` does not exceed it. */
  predicate Fits(a: seq<Elem>, j: nat)
    requires 0 < j < |a|
  {
    a[Parent(j)].val <= a[j].val
  }

  ghost predicate HeapOrdered(a: seq<Elem>) {
    forall j :: 0 < j < |a| ==> Fits(a, j)
  }

  /** The elements below `i` respect the parent of `i`. */
  ghost predicate Bridges(a: seq<Elem>, i: nat) {
    0 < i < |a| ==> forall c :: 0 < c < |a| && Parent(c) == i ==> a[Parent(i)].val <= a[c].val
  }

  /** Heap order everywhere except around position `i`. */
  ghost predicate OrderedBut(a: seq<Elem>, i: nat) {
    && (forall j :: 0 < j < |a| && j != i && Parent(j) != i ==> Fits(a, j))
    && Bridges(a, i)
  }

  function Swap(a: seq<Elem>, i: nat, j: nat): (b: seq<Elem>)
    requires i < |a| && j < |a|
    ensures |b| == |a|
    ensures multiset(b) == multiset(a)
  {
    a[i := a[j]][j := a[i]]
  }

  /** The root of a heap is a least element. */
  lemma {:induction false} RootLeast(a: seq<Elem>, k: nat)
    requires HeapOrdered(a) && k < |a|
    ensures a[0].val <= a[k].val
  {
    if k > 0 {
      assert Fits(a, k);
      RootLeast(a, Parent(k));
    }
  }

  /** Only the pair above `j` may be out of order. */
  ghost predicate Rising(b: seq<Elem>, j: nat) {
    (forall k :: 0 < k < |b| && k != j ==> Fits(b, k)) && Bridges(b, j)
  }

  lemma RiseStep(b: seq<Elem>, j: nat)
    requires 0 < j < |b| && Rising(b, j) && b[j].val < b[Parent(j)].val
    ensures Rising(Swap(b, Parent(j), j), Parent(j))
  {
    var i, b' := Parent(j), Swap(b, Parent(j), j);
    assert b'[i] == b[j] && b'[j] == b[i];
    forall k | 0 < k < |b'| && k != i ensures Fits(b', k) {
      assert k != j ==> Fits(b, k);
    }
    if i > 0 {
      assert Fits(b, i);
      forall c | 0 < c < |b'| && Parent(c) == i ensures b'[Parent(i)].val <= b'[c].val {
        assert c != j ==> Fits(b, c);
      }
    }
  }

  /** `up` */
  method Up(a: seq<Elem>, j0: nat) returns (b: seq<Elem>)
    requires j0 < |a| && Rising(a, j0)
    ensures HeapOrdered(b) && multiset(b) == multiset(a)
  {
    b := a;
    var j: nat := j0;
    while j > 0 && b[j].val < b[Parent(j)].val
      invariant j < |b| == |a| && multiset(b) == multiset(a)
      invariant Rising(b, j)
    {
      RiseStep(b, j);
      b := Swap(b, Parent(j), j);
      j := Parent(j);
    }
  }

  /** While sifting `i0` down: order holds except below `i`, and above `i0` as long as nothing moved. */
  ghost predicate Sifting(b: seq<Elem>, i: nat, i0: nat) {
    && (forall k :: 0 < k < |b| && Parent(k) != i && !(k == i && i == i0) ==> Fits(b, k))
    && Bridges(b, i)
  }

  /** `j` is the child of `i` that `down` compares with. */
  ghost predicate LeastChild(b: seq<Elem>, i: nat, j: nat) {
    && i < j < |b| && Parent(j) == i
    && forall k :: 0 < k < |b| && Parent(k) == i ==> b[j].val <= b[k].val
  }

  lemma SiftStep(b: seq<Elem>, i: nat, j: nat, i0: nat)
    requires Sifting(b, i, i0) && LeastChild(b, i, j) && b[j].val < b[i].val
    ensures Sifting(Swap(b, i, j), j, i0)
  {
  }

  lemma SiftStart(a: seq<Elem>, i0: nat)
    requires OrderedBut(a, i0)
    ensures Sifting(a, i0, i0)
  {
  }

  lemma Children(b: seq<Elem>, i: nat, j: nat)
    requires i < |b| && 2 * i + 1 < |b|
    requires j == if 2 * i + 2 < |b| && b[2 * i + 2].val < b[2 * i + 1].val then 2 * i + 2 else 2 * i + 1
    ensures LeastChild(b, i, j)
  {
    assert forall k :: 0 < k < |b| && Parent(k) == i ==> k == 2 * i + 1 || k == 2 * i + 2;
  }

  /** Nothing below `i` is smaller: the sifting is over. */
  lemma SiftStop(b: seq<Elem>, i: nat, i0: nat)
    requires i0 <= i < |b| && Sifting(b, i, i0)
    requires 2 * i + 1 >= |b| || exists j: nat :: LeastChild(b, i, j) && b[i].val <= b[j].val
    ensures i > i0 || i0 == 0 ==> HeapOrdered(b)
    ensures forall k :: 0 < k < |b| && k != i0 ==> Fits(b, k)
  {
  }

  /** `down`: the subtree of `i0` becomes ordered; if nothing moved only the pair above `i0` may still be wrong. */
  method Down(a: seq<Elem>, i0: nat) returns (b: seq<Elem>, moved: bool)
    requires i0 < |a| && OrderedBut(a, i0)
    ensures |b| == |a| && multiset(b) == multiset(a)
    ensures moved || i0 == 0 ==> HeapOrdered(b)
    ensures !moved ==> b == a && forall j :: 0 < j < |b| && j != i0 ==> Fits(b, j)
  {
    hide *;
    b := a;
    var i: nat := i0;
    SiftStart(a, i0);
    while 2 * i + 1 < |b|
      invariant i0 <= i < |b| == |a| && multiset(b) == multiset(a)
      invariant Sifting(b, i, i0)
      invariant i == i0 ==> b == a
    {
      var j: nat := 2 * i + 1;
      if j + 1 < |b| && b[j + 1].val < b[j].val {
        j := j + 1;
      }
      Children(b, i, j);
      if b[i].val <= b[j].val {
        break;
      }
      SiftStep(b, i, j, i0);
      b := Swap(b, i, j);
      i := j;
    }
    moved := i > i0;
    SiftStop(b, i, i0);
  }

  class Heap {
    var a: seq<Elem>

    constructor ()
      ensures a == [] && HeapOrdered(a)
    {
      a := [];
    }

    /** `heap.Push` */
    method Push(e: Elem)
      requires HeapOrdered(a)
      modifies this
      ensures HeapOrdered(a) && multiset(a) == multiset(old(a)) + multiset{e}
    {
      ghost var before := a;
      a := a + [e];
      forall j | 0 < j < |a| && j != |a| - 1 ensures Fits(a, j) {
        assert Fits(before, j);
      }
      a := Up(a, |a| - 1);
    }

    /** `heap.Pop` */
    method Pop() returns (e: Elem)
      requires HeapOrdered(a) && |a| > 0
      modifies this
      ensures HeapOrdered(a) && e == old(a)[0]
      ensures multiset(a) == multiset(old(a)) - multiset{e}
    {
      var n := |a| - 1;
      ghost var before := a;
      var b := Swap(a, 0, n);
      e := b[n];
      var rest := b[..n];
      assert b == rest + [e];
      if n > 0 {
        assert OrderedBut(rest, 0) by {
          forall j | 0 < j < n && Parent(j) != 0 ensures Fits(rest, j) {
            assert Fits(before, j);
          }
        }
        var moved;
        rest, moved := Down(rest, 0);
      }
      a := rest;
    }

    /** `heap.Fix` after position `i` was overwritten with `e` */
    method Replace(i: nat, e: Elem)
      requires HeapOrdered(a) && i < |a|
      modifies this
      ensures HeapOrdered(a) && multiset(a) == multiset(old(a)) - multiset{old(a)[i]} + multiset{e}
    {
      ghost var before := a;
      a := a[i := e];
      assert OrderedBut(a, i) by {
        forall j | 0 < j < |a| && j != i && Parent(j) != i ensures Fits(a, j) {
          assert Fits(before, j);
        }
        if i > 0 {
          assert Fits(before, i);
          forall c | 0 < c < |a| && Parent(c) == i ensures a[Parent(i)].val <= a[c].val {
            assert Fits(before, c);
          }
        }
      }
      var b, moved := Down(a, i);
      if !moved {
        BridgesUp(before, b, i);
        b := Up(b, i);
      }
      a := b;
    }
  }

  lemma BridgesUp(before: seq<Elem>, b: seq<Elem>, i: nat)
    requires HeapOrdered(before) && i < |before| == |b| && forall k :: 0 <= k < |b| && k != i ==> b[k] == before[k]
    ensures Bridges(b, i)
  {
    if i > 0 {
      assert Fits(before, i);
      forall c | 0 < c < |b| && Parent(c) == i ensures b[Parent(i)].val <= b[c].val {
        assert Fits(before, c);
      }
    }
  }
}
