/**
 Membership tables (`worker/groups.go`). A server keeps, per group, a list of
 servers in which only the first entry may be marked as the leader.
 `UpdateList` is the effect of one membership update on such a list; the laws
 below say what it does to the addresses, the raft indices and the leader.
 */
module Membership {
  import opened Bytes

  datatype Server = Server(nodeId: nat, addr: string, leader: bool, raftIdx: nat)
  datatype Member = Member(group: nat, id: nat, addr: string, leader: bool)

  /** group id to servers */
  type All = map<nat, seq<Server>>

  ghost predicate Has(sl: seq<Server>, n: nat) {
    exists i :: 0 <= i < |sl| && sl[i].nodeId == n
  }

  ghost function Get(sl: seq<Server>, n: nat): (s: Server)
    requires Has(sl, n)
    ensures s in sl && s.nodeId == n
  {
    var i :| 0 <= i < |sl| && sl[i].nodeId == n; sl[i]
  }

  /** One entry per node, and nobody but the head leads. */
  ghost predicate WellFormed(sl: seq<Server>) {
    && (forall i, j :: 0 <= i < j < |sl| ==> sl[i].nodeId != sl[j].nodeId)
    && (forall i :: 1 <= i < |sl| ==> !sl[i].leader)
  }

  function LeaderOf(sl: seq<Server>): Option<nat> {
    if |sl| > 0 && sl[0].leader then Some(sl[0].nodeId) else None
  }

  // ---------- One update on one list ----------

  /** Index of the entry of node `n`, or the length of the list. */
  function IndexOf(sl: seq<Server>, n: nat): (i: nat)
    ensures i <= |sl|
    ensures i < |sl| ==> sl[i].nodeId == n
    ensures forall k :: 0 <= k < i ==> sl[k].nodeId != n
  {
    if sl == [] || sl[0].nodeId == n then 0 else 1 + IndexOf(sl[1..], n)
  }

  /** Swap-remove: the last entry takes the place of the removed one. */
  function Without(sl: seq<Server>, n: nat): (r: seq<Server>)
    ensures |r| <= |sl|
  {
    var i := IndexOf(sl, n);
    if i == |sl| then sl else sl[i := sl[|sl| - 1]][..|sl| - 1]
  }

  function Append(sl: seq<Server>, update: Server): (r: seq<Server>)
    ensures |r| == |sl| + 1
  {
    var a := sl + [update];
    if update.leader then a[0 := update][|sl| := a[0]] else a
  }

  function Demote(sl: seq<Server>): (r: seq<Server>)
    ensures |r| == |sl|
    ensures forall i :: 0 <= i < |sl| ==> r[i] == if i == 0 then sl[i] else sl[i].(leader := false)
  {
    seq(|sl|, i requires 0 <= i < |sl| => if i == 0 then sl[i] else sl[i].(leader := false))
  }

  function UpdateList(sl: seq<Server>, update: Server): seq<Server> {
    Demote(Append(Without(sl, update.nodeId), update))
  }

  lemma GetUnique(sl: seq<Server>, i: nat)
    requires WellFormed(sl) && i < |sl|
    ensures Has(sl, sl[i].nodeId) && Get(sl, sl[i].nodeId) == sl[i]
  {
  }

  lemma WithoutKeeps(sl: seq<Server>, n: nat)
    requires WellFormed(sl)
    ensures WellFormed(Without(sl, n)) && !Has(Without(sl, n), n)
    ensures forall s :: s in Without(sl, n) <==> s in sl && s.nodeId != n
    ensures LeaderOf(Without(sl, n)) == if LeaderOf(sl) == Some(n) then None else LeaderOf(sl)
  {
    var i, r := IndexOf(sl, n), Without(sl, n);
    if i < |sl| {
      forall s ensures s in r <==> s in sl && s.nodeId != n {
        if s in sl && s.nodeId != n {
          var k :| 0 <= k < |sl| && sl[k] == s;
          assert k != i;
          assert if k == |sl| - 1 then r[i] == s else r[k] == s;
        }
      }
    }
  }

  lemma AppendKeeps(sl: seq<Server>, update: Server)
    requires WellFormed(sl) && !Has(sl, update.nodeId)
    ensures WellFormed(Demote(Append(sl, update)))
    ensures LeaderOf(Demote(Append(sl, update))) == if update.leader then Some(update.nodeId) else LeaderOf(sl)
  {
  }

  /** Who heads the list afterwards, whether or not it leads: a removed head is replaced by the last entry. */
  lemma HeadLaw(sl: seq<Server>, update: Server)
    requires WellFormed(sl)
    ensures var r := UpdateList(sl, update);
      |r| > 0 && r[0].nodeId ==
        if update.leader || sl == [] || (|sl| == 1 && sl[0].nodeId == update.nodeId) then update.nodeId
        else if sl[0].nodeId == update.nodeId then sl[|sl| - 1].nodeId
        else sl[0].nodeId
  {
  }

  /** `t` carries the address and index of `s`. */
  predicate SameRecord(s: Server, t: Server) {
    s.nodeId == t.nodeId && s.addr == t.addr && s.raftIdx == t.raftIdx
  }

  lemma AppendRecords(sl: seq<Server>, update: Server, s: Server)
    requires s in sl || s == update
    ensures exists t :: t in Demote(Append(sl, update)) && SameRecord(s, t)
  {
    var a, r := Append(sl, update), Demote(Append(sl, update));
    assert s in a by {
      if s in sl {
        var k :| 0 <= k < |sl| && sl[k] == s;
        assert if k == 0 && update.leader then a[|sl|] == s else a[k] == s;
      } else {
        assert if update.leader then a[0] == s else a[|sl|] == s;
      }
    }
    var k :| 0 <= k < |a| && a[k] == s;
    assert r[k] in r && SameRecord(s, r[k]);
  }

  lemma AppendOrigins(sl: seq<Server>, update: Server, t: Server)
    requires t in Demote(Append(sl, update))
    ensures SameRecord(update, t) || exists s :: s in sl && SameRecord(s, t)
  {
    var a, r := Append(sl, update), Demote(Append(sl, update));
    var k :| 0 <= k < |r| && r[k] == t;
    assert a[k] == update || a[k] in sl;
    assert SameRecord(a[k], t);
  }

  /** One update: the node's own record is replaced, every other record and the order-zero leader rule are kept. */
  lemma UpdateListLaw(sl: seq<Server>, update: Server, n: nat)
    requires WellFormed(sl)
    ensures WellFormed(UpdateList(sl, update)) && |UpdateList(sl, update)| > 0
    ensures Has(UpdateList(sl, update), n) <==> n == update.nodeId || Has(sl, n)
    ensures n == update.nodeId ==> SameRecord(Get(UpdateList(sl, update), n), update)
    ensures n != update.nodeId && Has(sl, n) ==> SameRecord(Get(UpdateList(sl, update), n), Get(sl, n))
    ensures LeaderOf(UpdateList(sl, update)) ==
            if update.leader then Some(update.nodeId)
            else if LeaderOf(sl) == Some(update.nodeId) then None else LeaderOf(sl)
  {
    var w, r := Without(sl, update.nodeId), UpdateList(sl, update);
    WithoutKeeps(sl, update.nodeId);
    AppendKeeps(w, update);
    hide Without, Append, Demote;
    if Has(r, n) {
      AppendOrigins(w, update, Get(r, n));
      if n != update.nodeId {
        var s :| s in w && SameRecord(s, Get(r, n));
        assert s in sl;
        var i :| 0 <= i < |sl| && sl[i] == s;
        GetUnique(sl, i);
      }
    }
    if n == update.nodeId || Has(sl, n) {
      var s := if n == update.nodeId then update else Get(sl, n);
      AppendRecords(w, update, s);
      var t :| t in r && SameRecord(s, t);
      var i :| 0 <= i < |r| && r[i] == t;
      GetUnique(r, i);
    }
  }

  // ---------- Tables ----------

  function ListIn(all: All, g: nat): seq<Server> {
    if g in all then all[g] else []
  }

  ghost function AddrIn(all: All, g: nat, n: nat): Option<string> {
    if Has(ListIn(all, g), n) then Some(Get(ListIn(all, g), n).addr) else None
  }

  ghost function IdxIn(all: All, g: nat, n: nat): Option<nat> {
    if Has(ListIn(all, g), n) then Some(Get(ListIn(all, g), n).raftIdx) else None
  }

  function LeaderIn(all: All, g: nat): Option<nat> {
    LeaderOf(ListIn(all, g))
  }

  ghost predicate TableOk(all: All) {
    forall g :: g in all ==> WellFormed(all[g]) && |all[g]| > 0
  }

  function ServerOf(idx: nat, mm: Member): Server {
    Server(mm.id, mm.addr, mm.leader, idx)
  }

  /** `applyMembershipUpdate` on the table. */
  function Apply(all: All, idx: nat, mm: Member): All {
    all[mm.group := UpdateList(ListIn(all, mm.group), ServerOf(idx, mm))]
  }

  /** What one update does to the leader of group `g`. */
  function LeadStep(prev: Option<nat>, mm: Member, g: nat): Option<nat> {
    if mm.group != g then prev
    else if mm.leader then Some(mm.id)
    else if prev == Some(mm.id) then None
    else prev
  }

  lemma ApplyLaw(all: All, idx: nat, mm: Member, g: nat, n: nat)
    requires TableOk(all)
    ensures TableOk(Apply(all, idx, mm))
    ensures AddrIn(Apply(all, idx, mm), g, n) == if mm.group == g && mm.id == n then Some(mm.addr) else AddrIn(all, g, n)
    ensures IdxIn(Apply(all, idx, mm), g, n) == if mm.group == g && mm.id == n then Some(idx) else IdxIn(all, g, n)
    ensures LeaderIn(Apply(all, idx, mm), g) == LeadStep(LeaderIn(all, g), mm, g)
  {
    UpdateListLaw(ListIn(all, mm.group), ServerOf(idx, mm), n);
  }

  // ---------- The leader after a sequence of updates ----------

  function LeadFold(prev: Option<nat>, ms: seq<Member>, g: nat): Option<nat>
    decreases |ms|
  {
    if ms == [] then prev else LeadFold(LeadStep(prev, ms[0], g), ms[1..], g)
  }

  /** After position `i` nothing in `g` takes the lead away from `n`. */
  predicate Undisturbed(ms: seq<Member>, i: int, g: nat, n: nat) {
    forall j :: 0 <= j < |ms| && i < j && ms[j].group == g ==> !ms[j].leader && ms[j].id != n
  }

  /** Position `i` holds the claim that makes `n` the leader of `g`. */
  predicate Claims(ms: seq<Member>, i: int, g: nat, n: nat) {
    0 <= i < |ms| && ms[i].group == g && ms[i].id == n && ms[i].leader && Undisturbed(ms, i, g, n)
  }

  /** `n` leads `g` exactly when its last claim has not been disturbed since. */
  lemma {:induction false} LeadFoldLaw(prev: Option<nat>, ms: seq<Member>, g: nat, n: nat)
    ensures LeadFold(prev, ms, g) == Some(n) <==>
            (exists i :: Claims(ms, i, g, n)) || (prev == Some(n) && Undisturbed(ms, -1, g, n))
    decreases |ms|
  {
    if ms == [] {
      assert forall i :: !Claims(ms, i, g, n);
    } else {
      var t := ms[1..];
      LeadFoldLaw(LeadStep(prev, ms[0], g), t, g, n);
      assert forall i :: 0 <= i ==> (Undisturbed(ms, i, g, n) <==> Undisturbed(t, i - 1, g, n)) by {
        assert forall j :: 0 <= j < |t| ==> t[j] == ms[j + 1];
        forall i | 0 <= i && Undisturbed(t, i - 1, g, n) ensures Undisturbed(ms, i, g, n) {
          forall j | 0 <= j < |ms| && i < j && ms[j].group == g ensures !ms[j].leader && ms[j].id != n {
            assert t[j - 1] == ms[j];
          }
        }
      }
      if i :| Claims(ms, i, g, n) {
        assert i > 0 ==> t[i - 1] == ms[i] && Claims(t, i - 1, g, n);
        assert i == 0 ==> Undisturbed(t, -1, g, n);
      }
      if i :| Claims(t, i, g, n) {
        assert ms[i + 1] == t[i] && Claims(ms, i + 1, g, n);
      }
      assert Undisturbed(ms, -1, g, n) <==>
             Undisturbed(t, -1, g, n) && (ms[0].group == g ==> !ms[0].leader && ms[0].id != n) by {
        assert forall j :: 0 <= j < |t| ==> t[j] == ms[j + 1];
        assert Undisturbed(t, -1, g, n) <==> Undisturbed(ms, 0, g, n);
      }
      if ms[0].group == g && ms[0].leader && ms[0].id == n && Undisturbed(t, -1, g, n) {
        assert Claims(ms, 0, g, n);
      }
    }
  }
}
