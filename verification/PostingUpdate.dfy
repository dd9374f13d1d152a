/** `updateMutationLayer`: one Set or Del against the two layers refines one step on the view. */
module PostingUpdate {
  import opened Bytes
  import opened Codec
  import opened PostingLayers
  import GoSort

  /** `new` is `old` except that the posting of `u` is now `q`. */
  ghost predicate Replaces(old': seq<Posting>, new': seq<Posting>, u: uint64, q: Option<Posting>) {
    && Sorted(old') && Sorted(new')
    && (forall p :: p in new' <==> (p in old' && p.uid != u) || q == Some(p))
    && (q.Some? ==> q.value.uid == u)
  }

  lemma ReplacesFind(ml: seq<Posting>, ml': seq<Posting>, u: uint64, q: Option<Posting>, w: uint64)
    requires Replaces(ml, ml', u, q)
    ensures w != u ==> (Holds(ml', w) <==> Holds(ml, w))
    ensures w != u && Holds(ml, w) ==> Find(ml', w) == Find(ml, w)
    ensures Holds(ml', u) <==> q.Some?
    ensures q.Some? ==> Find(ml', u) == q.value
  {
  }

  /** Replacing one mutation changes the view at its uid only. */
  lemma ReplacesView(pl: seq<Posting>, ml: seq<Posting>, ml': seq<Posting>, u: uint64, q: Option<Posting>)
    requires Sorted(pl) && Replaces(ml, ml', u, q)
    requires q.None? ==> !Holds(pl, u)
    ensures ViewOf(pl, ml') ==
            if q.Some? && q.value.op != DEL then ViewOf(pl, ml)[u := ContentOf(q.value)] else ViewOf(pl, ml) - {u}
  {
    hide ViewOf, Replaces;
    var v := if q.Some? && q.value.op != DEL then ViewOf(pl, ml)[u := ContentOf(q.value)] else ViewOf(pl, ml) - {u};
    forall w: uint64
      ensures w in ViewOf(pl, ml') <==> w in v
      ensures w in v ==> ViewOf(pl, ml')[w] == v[w]
    {
      ReplacesFind(ml, ml', u, q, w);
      ViewOfAt(pl, ml, w);
      ViewOfAt(pl, ml', w);
    }
    assert ViewOf(pl, ml').Keys == v.Keys;
  }

  lemma ReplacesOps(pl: seq<Posting>, ml: seq<Posting>, ml': seq<Posting>, u: uint64, q: Option<Posting>)
    requires Layered(pl, ml) && Replaces(ml, ml', u, q)
    requires q.Some? ==> q.value.op == SET || q.value.op == DEL || q.value.op == ADD
    requires q.Some? ==> (q.value.op == ADD <==> !Holds(pl, u))
    ensures Layered(pl, ml')
  {
  }

  // ---------- The three edits of the slice ----------

  lemma InsertReplaces(ml: seq<Posting>, k: nat, p: Posting)
    requires Sorted(ml) && k <= |ml| && p.uid > 0
    requires forall i :: 0 <= i < k ==> ml[i].uid < p.uid
    requires forall i :: k <= i < |ml| ==> p.uid < ml[i].uid
    ensures Replaces(ml, ml[..k] + [p] + ml[k..], p.uid, Some(p))
  {
    assert ml == ml[..k] + ml[k..];
  }

  lemma UpdateReplaces(ml: seq<Posting>, k: nat, p: Posting)
    requires Sorted(ml) && k < |ml| && ml[k].uid == p.uid
    ensures Replaces(ml, ml[k := p], p.uid, Some(p))
  {
    var ml' := ml[k := p];
    forall x ensures x in ml' <==> (x in ml && x.uid != p.uid) || x == p {
      if x in ml && x.uid != p.uid {
        var i :| 0 <= i < |ml| && ml[i] == x;
        assert ml'[i] == x;
      }
      if x in ml' {
        var i :| 0 <= i < |ml'| && ml'[i] == x;
        assert i != k ==> ml[i] == x && ml[i].uid != ml[k].uid;
      }
      assert ml'[k] == p;
    }
  }

  lemma RemoveReplaces(ml: seq<Posting>, k: nat)
    requires Sorted(ml) && k < |ml|
    ensures Replaces(ml, ml[..k] + ml[k + 1..], ml[k].uid, None)
  {
  }

  method SearchUid(ps: seq<Posting>, uid: uint64) returns (k: nat)
    requires Sorted(ps)
    ensures k <= |ps|
    ensures forall i :: 0 <= i < k ==> ps[i].uid < uid
    ensures forall i :: k <= i < |ps| ==> uid <= ps[i].uid
  {
    var reached := idx requires 0 <= idx < |ps| => uid <= ps[idx].uid;
    k := GoSort.Search(|ps|, reached);
    forall i | 0 <= i < k ensures ps[i].uid < uid { assert !reached(i); }
    forall i | k <= i < |ps| ensures uid <= ps[i].uid { assert reached(i); }
  }

  /** What the layers say about `u`, when `k` is where `u` would stand in `ps`. */
  lemma HoldsAt(ps: seq<Posting>, u: uint64, k: nat)
    requires Sorted(ps) && k <= |ps|
    requires forall i :: 0 <= i < k ==> ps[i].uid < u
    requires forall i :: k <= i < |ps| ==> u <= ps[i].uid
    ensures Holds(ps, u) <==> k < |ps| && ps[k].uid == u
    ensures Holds(ps, u) ==> Find(ps, u) == ps[k]
  {
  }

  /**
   `updateMutationLayer`. The new layers mean exactly what the specification
   says, and the flag is true exactly when the view changed. Uid by uid: Set
   leaves value, type and label of the posting, Del takes the uid out if and
   only if it is there with the same value, type and label, and no other uid is
   touched.
   */
  method UpdateLayer(pl: seq<Posting>, ml: seq<Posting>, mpost: Posting) returns (ml': seq<Posting>, changed: bool)
    requires Layered(pl, ml) && mpost.uid > 0 && (mpost.op == SET || mpost.op == DEL)
    ensures Layered(pl, ml')
    ensures ViewOf(pl, ml') == Apply(ViewOf(pl, ml), mpost.uid, ContentOf(mpost), mpost.op)
    ensures mpost.op == SET ==>
      ViewOf(pl, ml') == ViewOf(pl, ml)[mpost.uid := Content(mpost.value, mpost.valType, mpost.lbl)]
    ensures mpost.op == DEL ==>
      (changed <==> mpost.uid in ViewOf(pl, ml) && ViewOf(pl, ml)[mpost.uid] == Content(mpost.value, mpost.valType, mpost.lbl))
    ensures mpost.op == DEL && changed ==> ViewOf(pl, ml') == ViewOf(pl, ml) - {mpost.uid}
    ensures changed <==> ViewOf(pl, ml') != ViewOf(pl, ml)
    ensures !changed ==> ml' == ml
  {
    var u := mpost.uid;
    ViewOfAt(pl, ml, u);
    var midx := SearchUid(ml, u);
    HoldsAt(ml, u, midx);
    hide ViewOf;

    if midx < |ml| && ml[midx].uid == u {
      var oldPost := ml[midx];
      var msame := SamePosting(oldPost, mpost);
      if msame && ((mpost.op == DEL) == (oldPost.op == DEL)) {
        return ml, false;
      }
      if !msame && mpost.op == DEL {
        return ml, false;
      }
      var post := mpost;
      if oldPost.op == ADD {
        if mpost.op == DEL {
          RemoveReplaces(ml, midx);
          ml' := ml[..midx] + ml[midx + 1..];
          ReplacesOps(pl, ml, ml', u, None);
          ReplacesView(pl, ml, ml', u, None);
          return ml', true;
        }
        post := mpost.(op := ADD);
      }
      UpdateReplaces(ml, midx, post);
      ml' := ml[midx := post];
      ReplacesOps(pl, ml, ml', u, Some(post));
      ReplacesView(pl, ml, ml', u, Some(post));
      return ml', true;
    }

    var pidx := SearchUid(pl, u);
    HoldsAt(pl, u, pidx);
    var uidFound, psame := false, false;
    if pidx < |pl| {
      uidFound := u == pl[pidx].uid;
      if uidFound {
        psame := SamePosting(pl[pidx], mpost);
      }
    }
    var post := mpost;
    if mpost.op == SET {
      if psame {
        return ml, false;
      }
      if !uidFound {
        post := mpost.(op := ADD);
      }
    } else if !psame {
      return ml, false;
    }
    InsertReplaces(ml, midx, post);
    ml' := ml[..midx] + [post] + ml[midx..];
    ReplacesOps(pl, ml, ml', u, Some(post));
    ReplacesView(pl, ml, ml', u, Some(post));
    changed := true;
  }
}
