/** Set operations on sorted uid lists (`algo/uidlist.go`). */
module UidLists {
  import opened Bytes
  import opened UidOrder
  import opened UidHeap

  /** `u` is in some list. */
  predicate InSome(lists: seq<seq<uint64>>, u: uint64) {
    exists i :: 0 <= i < |lists| && u in lists[i]
  }

  /** `u` is in every list. */
  predicate InAll(lists: seq<seq<uint64>>, u: uint64) {
    forall i :: 0 <= i < |lists| ==> u in lists[i]
  }

  ghost predicate AllOrdered(lists: seq<seq<uint64>>) {
    forall i :: 0 <= i < |lists| ==> Ordered(lists[i])
  }

  // ---------- MergeSorted ----------

  /** How many elements of each list have been consumed. */
  type Cursors = seq<nat>

  ghost predicate CursorsOk(lists: seq<seq<uint64>>, c: Cursors) {
    |c| == |lists| && forall i :: 0 <= i < |lists| ==> c[i] <= |lists[i]|
  }

  /** The current head of every list that is not exhausted. */
  ghost function Heads(lists: seq<seq<uint64>>, c: Cursors): set<Elem>
    requires CursorsOk(lists, c)
  {
    set i | 0 <= i < |lists| && c[i] < |lists[i]| :: Elem(lists[i][c[i]], i)
  }

  ghost function Remaining(lists: seq<seq<uint64>>, c: Cursors): nat
    requires CursorsOk(lists, c)
  {
    if lists == [] then 0 else |lists[0]| - c[0] + Remaining(lists[1..], c[1..])
  }

  lemma {:induction false} RemainingStep(lists: seq<seq<uint64>>, c: Cursors, k: nat)
    requires CursorsOk(lists, c) && k < |lists| && c[k] < |lists[k]|
    ensures CursorsOk(lists, c[k := c[k] + 1])
    ensures Remaining(lists, c[k := c[k] + 1]) == Remaining(lists, c) - 1
  {
    var c' := c[k := c[k] + 1];
    if k == 0 {
      assert c'[1..] == c[1..];
    } else {
      assert c'[1..] == c[1..][k - 1 := c[1..][k - 1] + 1];
      RemainingStep(lists[1..], c[1..], k - 1);
    }
  }

  /** Consuming the head of list `k` replaces that head by the next element, if there is one. */
  lemma HeadsStep(lists: seq<seq<uint64>>, c: Cursors, k: nat)
    requires CursorsOk(lists, c) && k < |lists| && c[k] < |lists[k]|
    ensures CursorsOk(lists, c[k := c[k] + 1])
    ensures var rest := Heads(lists, c) - {Elem(lists[k][c[k]], k)};
            if c[k] + 1 < |lists[k]| then
              && Elem(lists[k][c[k] + 1], k) !in rest
              && Heads(lists, c[k := c[k] + 1]) == rest + {Elem(lists[k][c[k] + 1], k)}
            else Heads(lists, c[k := c[k] + 1]) == rest
  {
  }

  /** The output so far: increasing, and exactly the values consumed; nothing left is below its last value. */
  ghost predicate Merged(lists: seq<seq<uint64>>, c: Cursors, out: seq<uint64>)
    requires CursorsOk(lists, c)
  {
    && Increasing(out)
    && (forall u: uint64 :: u in out <==> exists i :: 0 <= i < |lists| && u in lists[i][..c[i]])
    && (out != [] ==> forall i, p :: 0 <= i < |lists| && c[i] <= p < |lists[i]| ==> lists[i][p] >= out[|out| - 1])
  }

  /** A least head is a lower bound of everything left. */
  lemma LeastHead(lists: seq<seq<uint64>>, c: Cursors, v: uint64)
    requires CursorsOk(lists, c) && AllOrdered(lists)
    requires forall e :: e in Heads(lists, c) ==> v <= e.val
    ensures forall i, p :: 0 <= i < |lists| && c[i] <= p < |lists[i]| ==> v <= lists[i][p]
  {
    forall i, p | 0 <= i < |lists| && c[i] <= p < |lists[i]| ensures v <= lists[i][p] {
      assert Elem(lists[i][c[i]], i) in Heads(lists, c);
      assert Ordered(lists[i]);
    }
  }

  lemma MergedStep(lists: seq<seq<uint64>>, c: Cursors, out: seq<uint64>, k: nat)
    requires CursorsOk(lists, c) && AllOrdered(lists) && Merged(lists, c, out)
    requires k < |lists| && c[k] < |lists[k]|
    requires forall i, p :: 0 <= i < |lists| && c[i] <= p < |lists[i]| ==> lists[k][c[k]] <= lists[i][p]
    ensures CursorsOk(lists, c[k := c[k] + 1])
    ensures var v := lists[k][c[k]];
            Merged(lists, c[k := c[k] + 1], AddUnique(out, v))
  {
    var v, c' := lists[k][c[k]], c[k := c[k] + 1];
    var out' := AddUnique(out, v);
    assert lists[k][..c[k] + 1] == lists[k][..c[k]] + [v];
    forall u: uint64 ensures u in out' <==> exists i :: 0 <= i < |lists| && u in lists[i][..c'[i]] {
      if u in out {
        var i :| 0 <= i < |lists| && u in lists[i][..c[i]];
        assert u in lists[i][..c'[i]];
      }
      if u == v {
        assert u in lists[k][..c'[k]];
      }
      if i :| 0 <= i < |lists| && u in lists[i][..c'[i]] {
        assert u in lists[i][..c[i]] || u == v;
      }
    }
    assert out != [] ==> v >= out[|out| - 1];
  }

  lemma MergedStart(lists: seq<seq<uint64>>, c: Cursors)
    requires CursorsOk(lists, c) && forall i :: 0 <= i < |c| ==> c[i] == 0
    ensures Merged(lists, c, [])
  {
  }

  lemma HeadPresent(lists: seq<seq<uint64>>, c: Cursors, i: nat)
    requires CursorsOk(lists, c) && i < |lists|
    ensures c[i] < |lists[i]| ==> Heads(lists, c) != {}
  {
    if c[i] < |lists[i]| {
      assert Elem(lists[i][c[i]], i) in Heads(lists, c);
    }
  }

  /** With no head left everything has been consumed. */
  lemma MergedDone(lists: seq<seq<uint64>>, c: Cursors, a: seq<Elem>, out: seq<uint64>)
    requires CursorsOk(lists, c) && Merged(lists, c, out) && |a| == 0 && multiset(a) == multiset(Heads(lists, c))
    ensures Increasing(out)
    ensures forall u: uint64 :: u in out <==> InSome(lists, u)
  {
    var h := Heads(lists, c);
    assert h == {} by { assert forall e :: e in h <==> e in multiset(a); }
    forall i | 0 <= i < |lists| ensures lists[i][..c[i]] == lists[i] {
      HeadPresent(lists, c, i);
    }
    forall u: uint64 ensures u in out <==> InSome(lists, u) {
      if InSome(lists, u) {
        var i :| 0 <= i < |lists| && u in lists[i];
        assert u in lists[i][..c[i]];
      }
    }
  }

  lemma MultisetInsert(s: set<Elem>, e: Elem)
    requires e !in s
    ensures multiset(s + {e}) == multiset(s) + multiset{e}
  {
  }

  lemma MultisetRemove(s: set<Elem>, e: Elem)
    requires e in s
    ensures multiset(s - {e}) == multiset(s) - multiset{e}
  {
  }

  /** The same step on the multiset that the heap holds. */
  lemma HeapStep(lists: seq<seq<uint64>>, c: Cursors, k: nat)
    requires CursorsOk(lists, c) && k < |lists| && c[k] < |lists[k]|
    ensures CursorsOk(lists, c[k := c[k] + 1])
    ensures var rest := multiset(Heads(lists, c)) - multiset{Elem(lists[k][c[k]], k)};
            multiset(Heads(lists, c[k := c[k] + 1]))
            == if c[k] + 1 < |lists[k]| then rest + multiset{Elem(lists[k][c[k] + 1], k)} else rest
  {
    HeadsStep(lists, c, k);
    var h, top := Heads(lists, c), Elem(lists[k][c[k]], k);
    assert top in h;
    hide Heads;
    MultisetRemove(h, top);
    if c[k] + 1 < |lists[k]| {
      MultisetInsert(h - {top}, Elem(lists[k][c[k] + 1], k));
    }
  }

  /** The elements of heap `a` once its top has moved on from element `i` of list `l`. */
  ghost function Consumed(a: seq<Elem>, l: seq<uint64>, i: nat): multiset<Elem>
    requires |a| > 0
  {
    multiset(a) - multiset{a[0]} + if i + 1 < |l| then multiset{Elem(l[i + 1], a[0].listIdx)} else multiset{}
  }

  /** Move on in the list on top of the heap: pop it if it is exhausted, else fix the top in place. */
  method Consume(h: Heap, l: seq<uint64>, i: nat) returns (next: nat)
    requires HeapOrdered(h.a) && |h.a| > 0 && i < |l|
    modifies h
    ensures HeapOrdered(h.a)
    ensures multiset(h.a) == Consumed(old(h.a), l, i)
    ensures next == if i + 1 < |l| then i + 1 else i
  {
    hide HeapOrdered;
    if i >= |l| - 1 {
      next := i;
      var _ := h.Pop();
    } else {
      next := i + 1;
      h.Replace(0, Elem(l[next], h.a[0].listIdx));
    }
  }

  /** The loop invariant: the heap holds exactly the heads, the output exactly what was consumed. */
  ghost predicate Merging(lists: seq<seq<uint64>>, c: Cursors, idx: seq<nat>, heap: multiset<Elem>, out: seq<uint64>) {
    && CursorsOk(lists, c) && |idx| == |lists|
    && (forall i :: 0 <= i < |lists| && c[i] < |lists[i]| ==> idx[i] == c[i])
    && heap == multiset(Heads(lists, c))
    && Merged(lists, c, out)
  }

  function AddUnique(out: seq<uint64>, v: uint64): seq<uint64> {
    if out == [] || v != out[|out| - 1] then out + [v] else out
  }

  /** One round: the top of the heap is consumed. */
  lemma MergingStep(lists: seq<seq<uint64>>, c: Cursors, idx: seq<nat>, a: seq<Elem>, out: seq<uint64>)
    requires AllOrdered(lists) && HeapOrdered(a) && |a| > 0 && Merging(lists, c, idx, multiset(a), out)
    ensures var k := a[0].listIdx;
      && k < |lists| == |idx| == |c| && idx[k] < |lists[k]|
      && CursorsOk(lists, c) && CursorsOk(lists, c[k := c[k] + 1])
      && Remaining(lists, c[k := c[k] + 1]) < Remaining(lists, c)
      && var next := idx[k] + 1 < |lists[k]|;
         Merging(lists, c[k := c[k] + 1], idx[k := if next then idx[k] + 1 else idx[k]],
                 Consumed(a, lists[k], idx[k]),
                 AddUnique(out, a[0].val))
  {
    hide Merged, Heads, HeapOrdered, AllOrdered;
    HeapTop(lists, c, a);
    var k := a[0].listIdx;
    MergedStep(lists, c, out, k);
    HeapStep(lists, c, k);
    RemainingStep(lists, c, k);
  }

  lemma MergingStart(lists: seq<seq<uint64>>, idx: seq<nat>, heap: multiset<Elem>)
    requires |idx| == |lists| && forall i :: 0 <= i < |idx| ==> idx[i] == 0
    requires CursorsOk(lists, idx) && heap == multiset(Heads(lists, idx))
    ensures Merging(lists, idx, idx, heap, [])
  {
    MergedStart(lists, idx);
  }

  /** Append `v` unless it repeats the last value. */
  method Emit(output: seq<uint64>, last: uint64, v: uint64) returns (output': seq<uint64>, last': uint64)
    requires output != [] ==> last == output[|output| - 1]
    ensures output' == AddUnique(output, v)
    ensures output' != [] && last' == output'[|output'| - 1]
  {
    output', last' := output, last;
    if |output| == 0 || v != last {
      output' := output + [v];
      last' := v;
    }
  }

  /** `MergeSorted`: the union of the lists, in increasing order. */
  method MergeSorted(lists: seq<seq<uint64>>) returns (output: seq<uint64>)
    requires AllOrdered(lists)
    ensures Increasing(output)
    ensures forall u: uint64 :: u in output <==> InSome(lists, u)
  {
    hide *;
    if |lists| == 0 {
      NoLists(lists);
      return [];
    }
    var h := FirstHeads(lists);
    // One cursor per list, at the element that is in the heap.
    var idx: seq<nat> := seq(|lists|, _ => 0);
    ghost var c: Cursors := idx;
    var last: uint64 := 0;
    output := [];
    MergingStart(lists, idx, multiset(h.a));
    while |h.a| > 0
      invariant fresh(h) && HeapOrdered(h.a) && CursorsOk(lists, c)
      invariant Merging(lists, c, idx, multiset(h.a), output)
      invariant output != [] ==> last == output[|output| - 1]
      decreases Remaining(lists, c)
    {
      var me := h.a[0];
      var k := me.listIdx;
      MergingStep(lists, c, idx, h.a, output);
      output, last := Emit(output, last, me.val);
      var next := Consume(h, lists[k], idx[k]);
      idx := idx[k := next];
      c := c[k := c[k] + 1];
    }
    MergingDone(lists, c, idx, h.a, output);
  }

  lemma NoLists(lists: seq<seq<uint64>>)
    requires |lists| == 0
    ensures Increasing([]) && forall u: uint64 :: !InSome(lists, u)
  {
  }

  lemma MergingDone(lists: seq<seq<uint64>>, c: Cursors, idx: seq<nat>, a: seq<Elem>, out: seq<uint64>)
    requires Merging(lists, c, idx, multiset(a), out) && |a| == 0
    ensures Increasing(out)
    ensures forall u: uint64 :: u in out <==> InSome(lists, u)
  {
    MergedDone(lists, c, a, out);
  }

  /** The heap before the loop: the first element of every non-empty list. */
  method FirstHeads(lists: seq<seq<uint64>>) returns (h: Heap)
    ensures fresh(h) && HeapOrdered(h.a)
    ensures forall c: Cursors :: |c| == |lists| && (forall i :: 0 <= i < |c| ==> c[i] == 0) ==>
              CursorsOk(lists, c) && multiset(h.a) == multiset(Heads(lists, c))
  {
    h := new Heap();
    hide HeapOrdered;
    ghost var done: set<Elem> := {};
    for i := 0 to |lists|
      invariant fresh(h) && HeapOrdered(h.a) && multiset(h.a) == multiset(done)
      invariant done == set k | 0 <= k < i && 0 < |lists[k]| :: Elem(lists[k][0], k)
    {
      if |lists[i]| > 0 {
        MultisetInsert(done, Elem(lists[i][0], i));
        h.Push(Elem(lists[i][0], i));
        done := done + {Elem(lists[i][0], i)};
      }
    }
    forall c: Cursors | |c| == |lists| && (forall i :: 0 <= i < |c| ==> c[i] == 0)
      ensures CursorsOk(lists, c) && multiset(h.a) == multiset(Heads(lists, c))
    {
      assert done == Heads(lists, c);
    }
  }

  /** The top of the heap is the head of its list and a lower bound of everything left. */
  lemma HeapTop(lists: seq<seq<uint64>>, c: Cursors, a: seq<Elem>)
    requires CursorsOk(lists, c) && AllOrdered(lists)
    requires HeapOrdered(a) && |a| > 0 && multiset(a) == multiset(Heads(lists, c))
    ensures var k := a[0].listIdx;
      && k < |lists| && c[k] < |lists[k]| && a[0] == Elem(lists[k][c[k]], k)
      && forall i, p :: 0 <= i < |lists| && c[i] <= p < |lists[i]| ==> lists[k][c[k]] <= lists[i][p]
  {
    assert a[0] in multiset(a);
    forall e | e in Heads(lists, c) ensures a[0].val <= e.val {
      assert e in multiset(a);
      var j :| 0 <= j < |a| && a[j] == e;
      RootLeast(a, j);
    }
    LeastHead(lists, c, a[0].val);
  }
}
