/** `List.Uids` and `List.Value`: what a reader gets from the two layers. */
module PostingQueries {
  import opened Bytes
  import opened Codec
  import opened PostingLayers
  import opened UidOrder

  /** `task.List.Size()`: the wire size of a packed fixed64 list. */
  function WireSize(n: nat): nat {
    if n == 0 then 0 else 1 + |Varint(8 * n)| + 8 * n
  }

  function NotValue(p: Posting): bool {
    p.uid != MAX_UINT64
  }

  /** The value posting has the largest uid, so stopping at it skips nothing. */
  lemma {:induction false} UntilValue(ps: seq<Posting>)
    requires Sorted(ps)
    ensures Until(ps, NotValue) == ps
  {
    if ps != [] {
      SortedTail(ps);
      UntilValue(ps[1..]);
      assert |ps| > 1 ==> ps[0].uid < ps[1].uid;
    }
  }

  predicate Wanted(intersect: Option<seq<uint64>>, u: uint64) {
    intersect.None? || u in intersect.value
  }

  /** A uid edge of the view above the last element of a non-empty intersect list. */
  ghost predicate Overruns(view: View, after: uint64, intersect: Option<seq<uint64>>) {
    && intersect.Some? && |intersect.value| > 0
    && exists u :: u in view && after < u < MAX_UINT64 && u > intersect.value[|intersect.value| - 1]
  }

  /**
   `Uids`, with the bound of the source: the cursor is compared with the wire
   size of the intersect list, so once it has run off the end the next read is
   out of range. `None` is that panic; it happens exactly when the view
   overruns the list, and otherwise the answer is the sorted intersection.
   */
  method Uids(pl: seq<Posting>, ml: seq<Posting>, after: uint64, intersect: Option<seq<uint64>>)
    returns (r: Option<seq<uint64>>)
    requires Sorted(pl) && Sorted(ml)
    requires intersect.Some? ==> Ordered(intersect.value)
    ensures r.None? <==> Overruns(ViewOf(pl, ml), after, intersect)
    ensures r.Some? ==> Increasing(r.value)
    ensures r.Some? ==> forall u: uint64 :: u in r.value <==>
              u in ViewOf(pl, ml) && after < u < MAX_UINT64 && Wanted(intersect, u)
  {
    var visited := Iterate(pl, ml, after, NotValue);
    ListingExact(pl, ml, after);
    UntilValue(Listing(pl, ml, after));
    ListingIsView(pl, ml, after);
    r := IntersectVisited(visited, intersect);
    OverrunsVisited(visited, ViewOf(pl, ml), after, intersect);
    hide ViewOf, Listing, Until, Overruns, PastEnd;
  }

  lemma OverrunsVisited(visited: seq<Posting>, view: View, after: uint64, intersect: Option<seq<uint64>>)
    requires forall u: uint64 :: Holds(visited, u) <==> u in view && u > after
    ensures Overruns(view, after, intersect) <==> intersect.Some? && PastEnd(visited, intersect.value)
  {
    if intersect.Some? && PastEnd(visited, intersect.value) {
      var k :| 0 <= k < |visited| && visited[k].uid != MAX_UINT64
        && visited[k].uid > intersect.value[|intersect.value| - 1];
      assert Holds(visited, visited[k].uid);
    }
    if Overruns(view, after, intersect) {
      var u :| u in view && after < u < MAX_UINT64 && u > intersect.value[|intersect.value| - 1];
      assert Holds(visited, u);
    }
  }

  /** A uid edge among `visited` above the last element of a non-empty list. */
  ghost predicate PastEnd(visited: seq<Posting>, uids: seq<uint64>) {
    |uids| > 0 && exists k :: 0 <= k < |visited| && visited[k].uid != MAX_UINT64 && visited[k].uid > uids[|uids| - 1]
  }

  /** The callback of `Uids`, run over the postings it is given. */
  method IntersectVisited(visited: seq<Posting>, intersect: Option<seq<uint64>>) returns (r: Option<seq<uint64>>)
    requires Sorted(visited)
    requires intersect.Some? ==> Ordered(intersect.value)
    ensures r.None? <==> intersect.Some? && PastEnd(visited, intersect.value)
    ensures r.Some? ==> Increasing(r.value)
    ensures r.Some? ==> forall u: uint64 :: u in r.value <==>
              Holds(visited, u) && u != MAX_UINT64 && Wanted(intersect, u)
  {
    var result: seq<uint64> := [];
    var cursor := 0;
    for k := 0 to |visited|
      invariant Increasing(result)
      invariant forall i :: 0 <= i < |result| && k < |visited| ==> result[i] < visited[k].uid
      invariant forall u: uint64 :: u in result <==>
                  Holds(visited[..k], u) && u != MAX_UINT64 && Wanted(intersect, u)
      invariant intersect.Some? ==> 0 <= cursor <= |intersect.value|
      invariant intersect.Some? && k < |visited| ==> forall i :: 0 <= i < cursor ==> intersect.value[i] < visited[k].uid
      invariant intersect.Some? && |intersect.value| > 0 ==>
                  forall i :: 0 <= i < k && visited[i].uid != MAX_UINT64 ==>
                    visited[i].uid <= intersect.value[|intersect.value| - 1]
    {
      var uid := visited[k].uid;
      HoldsSnoc(visited, k);
      var take := uid != MAX_UINT64;
      if take && intersect.Some? {
        var uids := intersect.value;
        while cursor < |uids| && uids[cursor] < uid
          invariant 0 <= cursor <= |uids|
          invariant forall i :: 0 <= i < cursor ==> uids[i] < uid
        {
          cursor := cursor + 1;
        }
        if cursor >= WireSize(|uids|) {
          take := false;
        } else if cursor >= |uids| {
          return None;
        } else if uids[cursor] > uid {
          take := false;
        }
        assert take <==> uid in uids;
      }
      if take {
        result := result + [uid];
      }
    }
    assert visited[..|visited|] == visited;
    return Some(result);
  }

  lemma HoldsSnoc(ps: seq<Posting>, k: nat)
    requires k < |ps|
    ensures forall u: uint64 :: Holds(ps[..k + 1], u) <==> Holds(ps[..k], u) || u == ps[k].uid
  {
  }

  /** `Value`: the content under the value uid; the type is cut to a byte. */
  method Value(pl: seq<Posting>, ml: seq<Posting>) returns (r: Option<(bytes, byte)>)
    requires Sorted(pl) && Sorted(ml)
    ensures r == ValueOf(ViewOf(pl, ml))
  {
    var visited := Iterate(pl, ml, MAX_UINT64 - 1, _ => false);
    var l := Listing(pl, ml, MAX_UINT64 - 1);
    ListingIsView(pl, ml, MAX_UINT64 - 1);
    hide ViewOf, Listing;
    assert visited == if l == [] then [] else [l[0]];
    r := None;
    if |visited| > 0 && visited[0].uid == MAX_UINT64 {
      r := Some((visited[0].value, visited[0].valType % 256));
    }
    if l != [] {
      assert Holds(l, l[0].uid);
    } else {
      assert !Holds(l, MAX_UINT64);
    }
  }

  function ValueOf(view: View): Option<(bytes, byte)> {
    if MAX_UINT64 in view then Some((view[MAX_UINT64].value, view[MAX_UINT64].valType % 256)) else None
  }

  /** Two uid edges and an intersect list that make `Uids` read past the end of the list; with the second uid in it, it does not. */
  lemma UidsOverrunExample()
    ensures var pl := [Posting(1, [], 0, [], 0, SET), Posting(2, [], 0, [], 0, SET)];
      && Sorted(pl) && Overruns(ViewOf(pl, []), 0, Some([1]))
      && !Overruns(ViewOf(pl, []), 0, Some([1, 2])) && !Overruns(ViewOf(pl, []), 0, Some([]))
  {
    hide Overruns;
    var pl := [Posting(1, [], 0, [], 0, SET), Posting(2, [], 0, [], 0, SET)];
    assert pl[0].uid == 1 && pl[1].uid == 2;
    forall u: uint64 ensures u in ViewOf(pl, []) <==> u == 1 || u == 2 { ViewOfAt(pl, [], u); }
    OverrunsOnly(ViewOf(pl, []));
  }

  lemma OverrunsOnly(view: View)
    requires view.Keys == {1, 2}
    ensures Overruns(view, 0, Some([1])) && !Overruns(view, 0, Some([1, 2])) && !Overruns(view, 0, Some([]))
  {
    assert 2 in view;
  }
}
