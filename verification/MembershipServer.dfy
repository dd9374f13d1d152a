/**
 `groupi`: the object that holds the table, with the loops of
 `applyMembershipUpdate`, `MembershipUpdateAfter` and `syncMemberships`.
 Each is proved against the functions the gossip theorems speak about.
 */
module MembershipServer {
  import opened Bytes
  import opened Membership
  import opened MembershipGossip

  datatype Update = Update(members: seq<Member>, lastUpdate: nat)

  /**
   The loop that removes a node. Ranging over a slice keeps the old length and
   the old backing array, so after a removal the cursor runs over entries that
   are no longer part of the list; `arr` is that array and `len` the length of
   the list it now holds.
   */
  method RemoveNode(list: seq<Server>, id: nat) returns (r: seq<Server>)
    requires WellFormed(list)
    ensures r == Without(list, id)
  {
    r := list;
    while true
      invariant WellFormed(r)
      invariant r == list || (r == Without(list, id) && !Has(r, id))
      decreases |r|
    {
      var found := false;
      var arr, len := r, |r|;
      ghost var at := IndexOf(r, id);
      assert at < |r| ==> Has(r, r[at].nodeId);
      for i := 0 to |arr|
        invariant |arr| == |r|
        invariant !found ==> arr == r && len == |r| && i <= at
        invariant found ==> at < i && at < |r| && len == |r| - 1 && arr == r[at := r[|r| - 1]]
      {
        assert found ==> arr[i] == r[i] && r[at].nodeId == id;
        if arr[i].nodeId == id {
          found := true;
          arr := arr[i := arr[len - 1]];
          len := len - 1;
        }
      }
      WithoutKeeps(r, id);
      r := arr[..len];
      if !found {
        break;
      }
    }
    WithoutKeeps(list, id);
  }

  /** The inner loop of `MembershipUpdateAfter`. */
  method Newer(gid: nat, list: seq<Server>, ridx: nat, start: nat) returns (members: seq<Member>, maxIdx: nat)
    requires start >= ridx
    ensures members == NewerIn(gid, list, ridx)
    ensures maxIdx == Max(start, MaxIdxIn(list, ridx))
  {
    members, maxIdx := [], start;
    for i := 0 to |list|
      invariant members + NewerIn(gid, list[i..], ridx) == NewerIn(gid, list, ridx)
      invariant maxIdx >= ridx && Max(maxIdx, MaxIdxIn(list[i..], ridx)) == Max(start, MaxIdxIn(list, ridx))
    {
      assert list[i..][1..] == list[i + 1..];
      var s := list[i];
      if s.raftIdx > ridx {
        if s.raftIdx > maxIdx {
          maxIdx := s.raftIdx;
        }
        assert (members + [MemberOf(gid, s)]) + NewerIn(gid, list[i + 1..], ridx)
            == members + NewerIn(gid, list[i..], ridx);
        members := members + [MemberOf(gid, s)];
      }
    }
  }

  lemma ReplyStep(all: All, order: seq<nat>, k: nat, r: nat, top: nat, members: seq<Member>)
    requires k < |order| && top >= r
    ensures var list := ListIn(all, order[k]);
      && members + Reply(all, order[k..], r)
         == (members + NewerIn(order[k], list, r)) + Reply(all, order[k + 1..], r)
      && Max(top, MaxIdx(all, order[k..], r)) == Max(Max(top, MaxIdxIn(list, r)), MaxIdx(all, order[k + 1..], r))
      && Max(top, MaxIdxIn(list, r)) >= r
  {
    hide NewerIn, MaxIdxIn;
    assert order[k..][0] == order[k] && order[k..][1..] == order[k + 1..];
  }

  lemma ReplyBounds(all: All, order: seq<nat>, r: nat)
    ensures MaxIdx(all, order, r) >= r
    ensures Max(r, MaxIdx(all, order[0..], r)) == MaxIdx(all, order, r)
    ensures [] + Reply(all, order[0..], r) == Reply(all, order, r)
    ensures forall top: nat :: top >= r ==> Max(top, MaxIdx(all, order[|order|..], r)) == top
    ensures Reply(all, order[|order|..], r) == []
  {
    MaxIdxLaw(all, order, r);
    assert order[0..] == order;
  }

  class Groups {
    var all: All
    var lastUpdate: nat

    constructor ()
      ensures all == map[] && lastUpdate == 0
    {
      all := map[];
      lastUpdate := 0;
    }

    /** `applyMembershipUpdate` */
    method ApplyMembershipUpdate(raftIdx: nat, mm: Member)
      requires TableOk(all)
      modifies this`all
      ensures TableOk(all) && all == Apply(old(all), raftIdx, mm)
    {
      hide Has, Get, SameRecord, LeaderOf, Without;
      var update := Server(mm.id, mm.addr, mm.leader, raftIdx);
      var sl := if mm.group in all then all[mm.group] else [];
      UpdateListLaw(sl, update, 0);
      var list := RemoveNode(sl, update.nodeId);
      list := list + [update];
      var last := |list| - 1;
      if update.leader {
        list := list[0 := list[last]][last := list[0]];
      }
      ghost var led := list;
      for i := 1 to |list|
        invariant |list| == |led|
        invariant forall k :: 0 <= k < |led| ==> list[k] == if 1 <= k < i then led[k].(leader := false) else led[k]
      {
        list := list[i := list[i].(leader := false)];
      }
      assert list == Demote(led);
      all := all[mm.group := list];
    }

    /** `MembershipUpdateAfter`; `order` is the order in which the map happens to be ranged over. */
    method MembershipUpdateAfter(ridx: nat, order: seq<nat>) returns (out: Update)
      ensures out.members == Reply(all, order, ridx)
      ensures out.lastUpdate == MaxIdx(all, order, ridx)
    {
      hide *;
      var maxIdx, members := ridx, [];
      ReplyBounds(all, order, ridx);
      for k := 0 to |order|
        invariant members + Reply(all, order[k..], ridx) == Reply(all, order, ridx)
        invariant maxIdx >= ridx && Max(maxIdx, MaxIdx(all, order[k..], ridx)) == MaxIdx(all, order, ridx)
      {
        var gid := order[k];
        var newer, top := Newer(gid, ListIn(all, gid), ridx, maxIdx);
        ReplyStep(all, order, k, ridx, maxIdx, members);
        members, maxIdx := members + newer, top;
      }
      ReplyBounds(all, order, ridx);
      return Update(members, maxIdx);
    }

    /** `TouchLastUpdate` */
    method TouchLastUpdate(u: nat)
      modifies this`lastUpdate
      ensures lastUpdate == Max(old(lastUpdate), u)
    {
      if lastUpdate < u {
        lastUpdate := u;
      }
    }

    /** The part of `syncMemberships` that follows the reply. */
    method ApplyReply(update: Update)
      requires TableOk(all) && OncePerNode(update.members)
      modifies this
      ensures TableOk(all) && all == ApplyMembers(old(all), update.lastUpdate, update.members)
      ensures lastUpdate == if update.members == [] then old(lastUpdate) else Max(old(lastUpdate), update.lastUpdate)
    {
      var lu := 0;
      ghost var start := all;
      for i := 0 to |update.members|
        invariant TableOk(all)
        invariant ApplyMembers(all, update.lastUpdate, update.members[i..]) == ApplyMembers(start, update.lastUpdate, update.members)
        invariant lu == if i == 0 then 0 else update.lastUpdate
        invariant lastUpdate == old(lastUpdate)
      {
        assert update.members[i..][1..] == update.members[i + 1..];
        ApplyMembershipUpdate(update.lastUpdate, update.members[i]);
        if lu < update.lastUpdate {
          lu := update.lastUpdate;
        }
      }
      TouchLastUpdate(lu);
    }

    /** One whole exchange with a replica of group zero is one `Pull`. */
    method SyncMemberships(zero: Groups, order: seq<nat>)
      requires zero != this && TableOk(all) && TableOk(zero.all) && VisitOrder(zero.all, order)
      modifies this
      ensures TableOk(all)
      ensures Follower(all, lastUpdate) == Pull(Follower(old(all), old(lastUpdate)), zero.all, order)
    {
      var update := zero.MembershipUpdateAfter(lastUpdate, order);
      ReplyOnce(zero.all, order, lastUpdate);
      ApplyReply(update);
    }

    /** `Leader`: the head of the list, whether or not it is marked as a leader. */
    method Leader(group: nat) returns (r: (nat, string))
      requires TableOk(all)
      ensures group !in all ==> r == (0, "")
      ensures group in all ==> Has(all[group], r.0) && AddrIn(all, group, r.0) == Some(r.1)
      ensures group in all ==> |all[group]| > 0 && r == (all[group][0].nodeId, all[group][0].addr)
      ensures LeaderIn(all, group).Some? ==> r.0 == LeaderIn(all, group).value
    {
      if group !in all {
        return (0, "");
      }
      GetUnique(all[group], 0);
      return (all[group][0].nodeId, all[group][0].addr);
    }
  }
}
