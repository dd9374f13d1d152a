/**
 A posting list seen as two sorted layers (`posting/list.go`): the immutable
 postings `pl` and the mutations `ml` above them.

 The meaning of the two layers is `View`, a plain map from uid to content.
 `Merge` is the listing that iteration produces; everything the list answers
 (iteration, length, uids, value) is related to `View` here.
 */
module PostingLayers {
  import opened Bytes
  import opened Codec
  import GoSort

  const SET: uint32 := 1
  const DEL: uint32 := 2
  const ADD: uint32 := 3

  datatype Content = Content(value: bytes, valType: uint32, lbl: bytes)
  type View = map<uint64, Content>

  function ContentOf(p: Posting): Content {
    Content(p.value, p.valType, p.lbl)
  }

  /** `samePosting` */
  predicate SamePosting(a: Posting, b: Posting) {
    a.uid == b.uid && a.valType == b.valType && a.value == b.value && a.lbl == b.lbl
  }

  ghost predicate Sorted(ps: seq<Posting>) {
    && (forall i :: 0 <= i < |ps| ==> ps[i].uid > 0)
    && (forall i, j :: 0 <= i < j < |ps| ==> ps[i].uid < ps[j].uid)
  }

  ghost predicate Holds(ps: seq<Posting>, u: uint64) {
    exists i :: 0 <= i < |ps| && ps[i].uid == u
  }

  /** The posting of `u`, for a layer that holds one. */
  ghost function Find(ps: seq<Posting>, u: uint64): (p: Posting)
    requires Holds(ps, u)
    ensures p in ps && p.uid == u
  {
    var i :| 0 <= i < |ps| && ps[i].uid == u; ps[i]
  }

  /** Add marks exactly the uids that the immutable layer lacks. */
  ghost predicate OpsMatch(pl: seq<Posting>, ml: seq<Posting>) {
    forall i :: 0 <= i < |ml| ==>
      && (ml[i].op == SET || ml[i].op == DEL || ml[i].op == ADD)
      && (ml[i].op == ADD <==> !Holds(pl, ml[i].uid))
  }

  ghost predicate Layered(pl: seq<Posting>, ml: seq<Posting>) {
    Sorted(pl) && Sorted(ml) && OpsMatch(pl, ml)
  }

  /** What the two layers say about `u`. */
  ghost function Logical(pl: seq<Posting>, ml: seq<Posting>, u: uint64): Option<Content> {
    if Holds(ml, u) then
      if Find(ml, u).op == DEL then None else Some(ContentOf(Find(ml, u)))
    else if Holds(pl, u) then Some(ContentOf(Find(pl, u)))
    else None
  }

  ghost function UidSet(ps: seq<Posting>): set<uint64> {
    set p | p in ps :: p.uid
  }

  ghost function ViewOf(pl: seq<Posting>, ml: seq<Posting>): View {
    map u | u in UidSet(pl) + UidSet(ml) && Logical(pl, ml, u).Some? :: Logical(pl, ml, u).value
  }

  lemma HoldsUidSet(ps: seq<Posting>, u: uint64)
    ensures Holds(ps, u) <==> u in UidSet(ps)
  {
    if Holds(ps, u) { assert Find(ps, u) in ps; }
  }

  lemma ViewOfAt(pl: seq<Posting>, ml: seq<Posting>, u: uint64)
    ensures u in ViewOf(pl, ml) <==> Logical(pl, ml, u).Some?
    ensures u in ViewOf(pl, ml) ==> ViewOf(pl, ml)[u] == Logical(pl, ml, u).value
  {
    HoldsUidSet(pl, u);
    HoldsUidSet(ml, u);
  }

  lemma FindUnique(ps: seq<Posting>, p: Posting)
    requires Sorted(ps) && p in ps
    ensures Holds(ps, p.uid) && Find(ps, p.uid) == p
  {
  }

  // ---------- The specification of one mutation ----------

  /** Set overwrites; Del removes on a full match of the content. */
  function Apply(view: View, u: uint64, c: Content, op: uint32): View {
    if op == SET then view[u := c]
    else if u in view && view[u] == c then view - {u}
    else view
  }

  // ---------- Listing ----------

  function Emit(p: Posting): seq<Posting> {
    if p.op == DEL then [] else [p]
  }

  /** What iterating over both layers visits. */
  function Merge(pl: seq<Posting>, ml: seq<Posting>): seq<Posting>
    decreases |pl| + |ml|
  {
    if pl == [] && ml == [] then []
    else if ml == [] || (pl != [] && pl[0].uid < ml[0].uid) then [pl[0]] + Merge(pl[1..], ml)
    else if pl == [] || ml[0].uid < pl[0].uid then Emit(ml[0]) + Merge(pl, ml[1..])
    else Emit(ml[0]) + Merge(pl[1..], ml[1..])
  }

  lemma SortedTail(ps: seq<Posting>)
    requires Sorted(ps) && ps != []
    ensures Sorted(ps[1..])
    ensures forall u: uint64 :: Holds(ps, u) <==> u == ps[0].uid || Holds(ps[1..], u)
    ensures forall u: uint64 :: Holds(ps[1..], u) ==> u > ps[0].uid && Find(ps[1..], u) == Find(ps, u)
    ensures Find(ps, ps[0].uid) == ps[0]
  {
  }

  /** `p` is the visible posting of its uid. */
  ghost predicate Visible(pl: seq<Posting>, ml: seq<Posting>, p: Posting) {
    if Holds(ml, p.uid) then p == Find(ml, p.uid) && p.op != DEL
    else Holds(pl, p.uid) && p == Find(pl, p.uid)
  }

  /** The listing holds exactly the visible postings. */
  lemma {:induction false} MergeExact(pl: seq<Posting>, ml: seq<Posting>, p: Posting)
    requires Sorted(pl) && Sorted(ml)
    ensures p in Merge(pl, ml) <==> Visible(pl, ml, p)
    decreases |pl| + |ml|
  {
    if pl != [] { SortedTail(pl); }
    if ml != [] { SortedTail(ml); }
    if pl == [] && ml == [] {
    } else if ml == [] || (pl != [] && pl[0].uid < ml[0].uid) {
      MergeExact(pl[1..], ml, p);
      assert Merge(pl, ml) == [pl[0]] + Merge(pl[1..], ml);
    } else if pl == [] || ml[0].uid < pl[0].uid {
      MergeExact(pl, ml[1..], p);
      assert Merge(pl, ml) == Emit(ml[0]) + Merge(pl, ml[1..]);
    } else {
      MergeExact(pl[1..], ml[1..], p);
      assert Merge(pl, ml) == Emit(ml[0]) + Merge(pl[1..], ml[1..]);
    }
  }

  ghost predicate AllAbove(ps: seq<Posting>, b: int) {
    forall i :: 0 <= i < |ps| ==> ps[i].uid > b
  }

  lemma SortedCons(p: Posting, ps: seq<Posting>, b: int)
    requires b < p.uid && 0 < p.uid && Sorted(ps) && AllAbove(ps, p.uid)
    ensures Sorted([p] + ps) && AllAbove([p] + ps, b)
  {
  }

  lemma HeadBounds(ps: seq<Posting>, b: int)
    requires Sorted(ps) && (ps == [] || ps[0].uid > b)
    ensures AllAbove(ps, b)
    ensures ps != [] ==> Sorted(ps[1..]) && AllAbove(ps[1..], ps[0].uid) && ps[0].uid > 0
  {
  }

  lemma MergeUnfold(pl: seq<Posting>, ml: seq<Posting>)
    ensures pl == [] && ml == [] ==> Merge(pl, ml) == []
    ensures pl != [] && (ml == [] || pl[0].uid < ml[0].uid) ==> Merge(pl, ml) == [pl[0]] + Merge(pl[1..], ml)
    ensures ml != [] && !(pl != [] && pl[0].uid < ml[0].uid) ==>
      Merge(pl, ml) == Emit(ml[0]) + Merge(if pl == [] || ml[0].uid < pl[0].uid then pl else pl[1..], ml[1..])
  {
  }

  lemma EmitSorted(p: Posting, ps: seq<Posting>, b: int)
    requires b < p.uid && 0 < p.uid && Sorted(ps) && AllAbove(ps, p.uid)
    ensures Sorted(Emit(p) + ps) && AllAbove(Emit(p) + ps, b)
  {
    SortedCons(p, ps, b);
    assert [] + ps == ps;
  }

  lemma {:induction false} MergeIsSorted(pl: seq<Posting>, ml: seq<Posting>, b: nat)
    requires Sorted(pl) && Sorted(ml) && (pl == [] || pl[0].uid > b) && (ml == [] || ml[0].uid > b)
    ensures Sorted(Merge(pl, ml)) && AllAbove(Merge(pl, ml), b)
    decreases |pl| + |ml|
  {
    hide Sorted, AllAbove, Merge, Emit;
    HeadBounds(pl, b);
    HeadBounds(ml, b);
    MergeUnfold(pl, ml);
    if pl != [] && (ml == [] || pl[0].uid < ml[0].uid) {
      HeadAbove(pl[1..], pl[0].uid);
      MergeIsSorted(pl[1..], ml, pl[0].uid);
      SortedCons(pl[0], Merge(pl[1..], ml), b);
    } else if ml != [] {
      HeadAbove(ml[1..], ml[0].uid);
      var pl' := if pl == [] || ml[0].uid < pl[0].uid then pl else pl[1..];
      if pl' != pl { HeadAbove(pl[1..], pl[0].uid); }
      MergeIsSorted(pl', ml[1..], ml[0].uid);
      EmitSorted(ml[0], Merge(pl', ml[1..]), b);
    }
  }

  lemma HeadAbove(ps: seq<Posting>, b: int)
    requires AllAbove(ps, b)
    ensures ps != [] ==> ps[0].uid > b
  {
  }

  /** Adds minus deletes. */
  function Delta(ml: seq<Posting>): int {
    if ml == [] then 0
    else (if ml[0].op == ADD then 1 else if ml[0].op == DEL then -1 else 0) + Delta(ml[1..])
  }

  lemma {:induction false} OpsMatchTail(pl: seq<Posting>, ml: seq<Posting>)
    requires Layered(pl, ml) && ml != []
    ensures OpsMatch(pl, ml[1..])
    ensures pl != [] && pl[0].uid <= ml[0].uid ==> OpsMatch(pl[1..], ml[1..])
    ensures pl != [] && pl[0].uid < ml[0].uid ==> OpsMatch(pl[1..], ml)
  {
    if pl != [] { SortedTail(pl); }
  }

  /** The number of postings follows from the operation marks alone. */
  lemma {:induction false} MergeLength(pl: seq<Posting>, ml: seq<Posting>)
    requires Layered(pl, ml)
    ensures |Merge(pl, ml)| == |pl| + Delta(ml)
    decreases |pl| + |ml|
  {
    if pl != [] { SortedTail(pl); }
    if ml != [] { SortedTail(ml); OpsMatchTail(pl, ml); }
    if pl == [] && ml == [] {
    } else if ml == [] || (pl != [] && pl[0].uid < ml[0].uid) {
      MergeLength(pl[1..], ml);
    } else if pl == [] || ml[0].uid < pl[0].uid {
      MergeLength(pl, ml[1..]);
    } else {
      MergeLength(pl[1..], ml[1..]);
    }
  }

  // ---------- Iteration after a uid ----------

  ghost function Suffix(ps: seq<Posting>, after: uint64): seq<Posting> {
    if ps == [] || ps[0].uid > after then ps else Suffix(ps[1..], after)
  }

  lemma {:induction false} SuffixAt(ps: seq<Posting>, after: uint64, k: nat)
    requires k <= |ps|
    requires forall i :: 0 <= i < k ==> ps[i].uid <= after
    requires k < |ps| ==> ps[k].uid > after
    ensures Suffix(ps, after) == ps[k..]
  {
    if k > 0 {
      SuffixAt(ps[1..], after, k - 1);
    }
  }

  lemma {:induction false} SuffixExact(ps: seq<Posting>, after: uint64)
    requires Sorted(ps)
    ensures Sorted(Suffix(ps, after)) && AllAbove(Suffix(ps, after), after)
    ensures forall u: uint64 :: Holds(Suffix(ps, after), u) <==> Holds(ps, u) && u > after
    ensures forall u: uint64 :: Holds(Suffix(ps, after), u) ==> Find(Suffix(ps, after), u) == Find(ps, u)
  {
    if ps != [] {
      SortedTail(ps);
      if ps[0].uid <= after {
        SuffixExact(ps[1..], after);
      }
    }
  }

  /** What iteration after `after` visits when nothing stops it. */
  ghost function Listing(pl: seq<Posting>, ml: seq<Posting>, after: uint64): seq<Posting> {
    Merge(Suffix(pl, after), Suffix(ml, after))
  }

  /** It visits exactly the visible postings above `after`, once each and in increasing order. */
  lemma ListingExact(pl: seq<Posting>, ml: seq<Posting>, after: uint64)
    requires Sorted(pl) && Sorted(ml)
    ensures Sorted(Listing(pl, ml, after))
    ensures forall p :: p in Listing(pl, ml, after) <==> Visible(pl, ml, p) && p.uid > after
  {
    SuffixExact(pl, after);
    SuffixExact(ml, after);
    MergeIsSorted(Suffix(pl, after), Suffix(ml, after), after);
    forall p ensures p in Listing(pl, ml, after) <==> Visible(pl, ml, p) && p.uid > after {
      MergeExact(Suffix(pl, after), Suffix(ml, after), p);
    }
  }

  /** The listing is the view, restricted to the uids above `after`. */
  lemma ListingIsView(pl: seq<Posting>, ml: seq<Posting>, after: uint64)
    requires Sorted(pl) && Sorted(ml)
    ensures forall u: uint64 :: Holds(Listing(pl, ml, after), u) <==> u in ViewOf(pl, ml) && u > after
    ensures forall p :: p in Listing(pl, ml, after) ==>
              p.uid in ViewOf(pl, ml) && ViewOf(pl, ml)[p.uid] == ContentOf(p)
  {
    ListingExact(pl, ml, after);
    forall u: uint64 ensures Holds(Listing(pl, ml, after), u) <==> u in ViewOf(pl, ml) && u > after {
      ViewOfAt(pl, ml, u);
      if u in ViewOf(pl, ml) && u > after {
        var p := if Holds(ml, u) then Find(ml, u) else Find(pl, u);
        assert Visible(pl, ml, p);
        FindUnique(Listing(pl, ml, after), p);
      }
    }
    forall p | p in Listing(pl, ml, after)
      ensures p.uid in ViewOf(pl, ml) && ViewOf(pl, ml)[p.uid] == ContentOf(p)
    {
      ViewOfAt(pl, ml, p.uid);
    }
  }

  lemma SuffixLayered(pl: seq<Posting>, ml: seq<Posting>, after: uint64)
    requires Layered(pl, ml)
    ensures Layered(Suffix(pl, after), Suffix(ml, after))
  {
    SuffixExact(pl, after);
    SuffixExact(ml, after);
    var sl, sm := Suffix(pl, after), Suffix(ml, after);
    forall i | 0 <= i < |sm|
      ensures sm[i].op == SET || sm[i].op == DEL || sm[i].op == ADD
      ensures sm[i].op == ADD <==> !Holds(sl, sm[i].uid)
    {
      FindUnique(sm, sm[i]);
      assert Find(ml, sm[i].uid) in ml;
    }
  }

  /** The Add and Del marks above `after` give the number of postings visited. */
  lemma ListingDelta(pl: seq<Posting>, ml: seq<Posting>, after: uint64)
    requires Layered(pl, ml)
    ensures |Listing(pl, ml, after)| == |Suffix(pl, after)| + Delta(Suffix(ml, after))
  {
    SuffixLayered(pl, ml, after);
    MergeLength(Suffix(pl, after), Suffix(ml, after));
  }

  /** The number of postings visited is the size of the view above `after`. */
  lemma ListingCount(pl: seq<Posting>, ml: seq<Posting>, after: uint64)
    requires Sorted(pl) && Sorted(ml)
    ensures |Listing(pl, ml, after)| == |set u | u in ViewOf(pl, ml) && u > after|
  {
    var l, v := Listing(pl, ml, after), ViewOf(pl, ml);
    hide Listing, ViewOf;
    ListingExact(pl, ml, after);
    ListingIsView(pl, ml, after);
    forall u: uint64 ensures u in UidSet(l) <==> u in v && u > after {
      HoldsUidSet(l, u);
    }
    assert UidSet(l) == set u | u in v && u > after;
    UidSetSize(l);
  }

  lemma {:induction false} UidSetSize(ps: seq<Posting>)
    requires Sorted(ps)
    ensures |UidSet(ps)| == |ps|
  {
    if ps == [] {
      assert UidSet(ps) == {};
    } else {
      SortedTail(ps);
      UidSetSize(ps[1..]);
      HoldsUidSet(ps[1..], ps[0].uid);
      forall u: uint64 ensures u in UidSet(ps) <==> u in {ps[0].uid} + UidSet(ps[1..]) {
        HoldsUidSet(ps, u);
        HoldsUidSet(ps[1..], u);
      }
      assert UidSet(ps) == {ps[0].uid} + UidSet(ps[1..]);
    }
  }

  /** The visited prefix: everything up to and including the first posting the callback stops at. */
  function Until(ps: seq<Posting>, cont: Posting -> bool): seq<Posting> {
    if ps == [] then []
    else if cont(ps[0]) then [ps[0]] + Until(ps[1..], cont)
    else [ps[0]]
  }

  method FirstAfter(ps: seq<Posting>, after: uint64) returns (k: nat)
    requires Sorted(ps)
    ensures k <= |ps| && Suffix(ps, after) == ps[k..]
  {
    k := 0;
    if after > 0 {
      var above := idx requires 0 <= idx < |ps| => after < ps[idx].uid;
      k := GoSort.Search(|ps|, above);
      forall i | 0 <= i < k ensures ps[i].uid <= after { assert !above(i); }
      assert k < |ps| ==> above(k);
    }
    SuffixAt(ps, after, k);
  }

  /** What is still to be visited when the cursors stand at `i` and `j`. */
  ghost function Ahead(pl: seq<Posting>, i: nat, ml: seq<Posting>, j: nat, f: Posting -> bool): seq<Posting>
    requires i <= |pl| && j <= |ml|
  {
    Until(Merge(pl[i..], ml[j..]), f)
  }

  lemma VisitImmutable(pl: seq<Posting>, i: nat, ml: seq<Posting>, j: nat, f: Posting -> bool)
    requires i < |pl| && j <= |ml| && (j == |ml| || pl[i].uid < ml[j].uid)
    ensures Ahead(pl, i, ml, j, f) == [pl[i]] + if f(pl[i]) then Ahead(pl, i + 1, ml, j, f) else []
  {
    assert pl[i..][1..] == pl[i + 1..];
  }

  lemma VisitMutation(pl: seq<Posting>, i: nat, ml: seq<Posting>, j: nat, f: Posting -> bool)
    requires i <= |pl| && j < |ml| && (i == |pl| || ml[j].uid <= pl[i].uid)
    ensures var i' := if i < |pl| && ml[j].uid == pl[i].uid then i + 1 else i;
            Ahead(pl, i, ml, j, f) ==
              if ml[j].op == DEL then Ahead(pl, i', ml, j + 1, f)
              else [ml[j]] + if f(ml[j]) then Ahead(pl, i', ml, j + 1, f) else []
  {
    assert ml[j..][1..] == ml[j + 1..];
    assert i < |pl| ==> pl[i..][1..] == pl[i + 1..];
    var i' := if i < |pl| && ml[j].uid == pl[i].uid then i + 1 else i;
    var rest := Merge(pl[i'..], ml[j + 1..]);
    assert Merge(pl[i..], ml[j..]) == Emit(ml[j]) + rest;
    assert [] + rest == rest;
    assert ([ml[j]] + rest)[1..] == rest;
  }

  lemma AppendOne(s: seq<Posting>, p: Posting, rest: seq<Posting>)
    ensures s + ([p] + rest) == (s + [p]) + rest
    ensures s + ([p] + []) == s + [p]
  {
  }

  /** `iterate`: the two cursors, the zero-uid sentinel and the five-way switch. */
  method Iterate(pl: seq<Posting>, ml: seq<Posting>, afterUid: uint64, f: Posting -> bool)
    returns (visited: seq<Posting>)
    requires Sorted(pl) && Sorted(ml)
    ensures visited == Until(Listing(pl, ml, afterUid), f)
  {
    hide Sorted, Merge, Until, Listing, Ahead, Suffix;
    var pidx: nat := FirstAfter(pl, afterUid);
    var midx: nat := FirstAfter(ml, afterUid);
    visited := [];
    var cont := true;
    ghost var all := Ahead(pl, pidx, ml, midx, f);
    AheadOfAll(pl, pidx, ml, midx, afterUid, f);
    while cont
      invariant pidx <= |pl| && midx <= |ml|
      invariant cont ==> all == visited + Ahead(pl, pidx, ml, midx, f)
      invariant !cont ==> all == visited
      decreases cont, |pl| - pidx + |ml| - midx
    {
      var pp := if pidx < |pl| then pl[pidx] else EMPTY_POSTING;
      var mp := if midx < |ml| then ml[midx] else EMPTY_POSTING;
      assert (pidx == |pl| || pp.uid > 0) && (midx == |ml| || mp.uid > 0) by { SortedNonzero(pl); SortedNonzero(ml); }
      if pp.uid == 0 && mp.uid == 0 {
        NothingAhead(pl, ml, f);
        cont := false;
      } else if mp.uid == 0 || (pp.uid > 0 && pp.uid < mp.uid) {
        VisitImmutable(pl, pidx, ml, midx, f);
        AppendOne(visited, pp, Ahead(pl, pidx + 1, ml, midx, f));
        visited := visited + [pp];
        cont := f(pp);
        pidx := pidx + 1;
      } else if pp.uid == 0 || (mp.uid > 0 && mp.uid < pp.uid) {
        VisitMutation(pl, pidx, ml, midx, f);
        if mp.op != DEL {
          AppendOne(visited, mp, Ahead(pl, pidx, ml, midx + 1, f));
          visited := visited + [mp];
          cont := f(mp);
        }
        midx := midx + 1;
      } else if pp.uid == mp.uid {
        VisitMutation(pl, pidx, ml, midx, f);
        if mp.op != DEL {
          AppendOne(visited, mp, Ahead(pl, pidx + 1, ml, midx + 1, f));
          visited := visited + [mp];
          cont := f(mp);
        }
        pidx := pidx + 1;
        midx := midx + 1;
      } else {
        assert false;
      }
    }
  }

  lemma AheadOfAll(pl: seq<Posting>, i: nat, ml: seq<Posting>, j: nat, after: uint64, f: Posting -> bool)
    requires i <= |pl| && j <= |ml| && Suffix(pl, after) == pl[i..] && Suffix(ml, after) == ml[j..]
    ensures Ahead(pl, i, ml, j, f) == Until(Listing(pl, ml, after), f)
  {
  }

  lemma SortedNonzero(ps: seq<Posting>)
    requires Sorted(ps)
    ensures forall i :: 0 <= i < |ps| ==> ps[i].uid > 0
  {
  }

  lemma NothingAhead(pl: seq<Posting>, ml: seq<Posting>, f: Posting -> bool)
    ensures Ahead(pl, |pl|, ml, |ml|, f) == []
  {
  }

  /** `Length`: counts Adds and Dels only. */
  method Length(pl: seq<Posting>, ml: seq<Posting>, afterUid: uint64) returns (count: int)
    requires Layered(pl, ml)
    ensures count == |Listing(pl, ml, afterUid)|
    ensures count == |set u | u in ViewOf(pl, ml) && u > afterUid|
  {
    var pidx: nat := FirstAfter(pl, afterUid);
    var midx: nat := FirstAfter(ml, afterUid);
    count := |pl| - pidx;
    for i := midx to |ml|
      invariant count + Delta(ml[i..]) == |pl| - pidx + Delta(ml[midx..])
    {
      assert ml[i..][1..] == ml[i + 1..];
      if ml[i].op == ADD {
        count := count + 1;
      } else if ml[i].op == DEL {
        count := count - 1;
      }
    }
    ListingDelta(pl, ml, afterUid);
    ListingCount(pl, ml, afterUid);
  }
}
