/**
 Membership gossip as a transition system (`worker/groups.go`). Group zero
 agrees on a log of membership updates; each of its replicas has applied some
 prefix. Every other server pulls "everything after raft index r" from any
 replica, ahead or behind, and applies what it is sent.
 */
module MembershipGossip {
  import opened Bytes
  import opened Membership

  datatype Entry = Entry(index: nat, mm: Member)
  type Log = seq<Entry>

  ghost predicate LogOk(log: Log) {
    && (forall i :: 0 <= i < |log| ==> log[i].index > 0)
    && (forall i, j :: 0 <= i < j < |log| ==> log[i].index < log[j].index)
  }

  // ---------- Reference: what a log prefix says ----------

  /** Position of the last entry about node `n` of group `g` among the first `k`; -1 if there is none. */
  function LastAbout(log: Log, k: nat, g: nat, n: nat): (i: int)
    requires k <= |log|
    ensures -1 <= i < k
    ensures i >= 0 ==> log[i].mm.group == g && log[i].mm.id == n
    ensures forall j :: i < j < k ==> !(log[j].mm.group == g && log[j].mm.id == n)
  {
    if k == 0 then -1
    else if log[k - 1].mm.group == g && log[k - 1].mm.id == n then k - 1
    else LastAbout(log, k - 1, g, n)
  }

  function AddrAt(log: Log, k: nat, g: nat, n: nat): Option<string>
    requires k <= |log|
  {
    var i := LastAbout(log, k, g, n);
    if i < 0 then None else Some(log[i].mm.addr)
  }

  /** Entry `i` made `n` the leader of `g`, and up to position `k` nothing took that back. */
  predicate LeadsSince(log: Log, i: nat, k: nat, g: nat, n: nat)
    requires i < k <= |log|
  {
    && log[i].mm.group == g && log[i].mm.id == n && log[i].mm.leader
    && forall j :: i < j < k && log[j].mm.group == g ==> !log[j].mm.leader && log[j].mm.id != n
  }

  ghost predicate LeadsAt(log: Log, k: nat, g: nat, n: nat)
    requires k <= |log|
  {
    exists i :: 0 <= i < k && LeadsSince(log, i, k, g, n)
  }

  /** Number of entries with an index of at most `r`. */
  function CountUpTo(log: Log, r: nat): (k: nat)
    ensures k <= |log|
  {
    if log == [] then 0
    else if log[|log| - 1].index <= r then |log|
    else CountUpTo(log[..|log| - 1], r)
  }

  lemma {:induction false} CountUpToLaw(log: Log, r: nat)
    requires LogOk(log)
    ensures forall i :: 0 <= i < |log| ==> (i < CountUpTo(log, r) <==> log[i].index <= r)
  {
    if log != [] && log[|log| - 1].index > r {
      CountUpToLaw(log[..|log| - 1], r);
    }
  }

  // ---------- A replica of group zero ----------

  /** The table of a replica that has applied the first `k` entries. */
  function Replica(log: Log, k: nat): All
    requires k <= |log|
  {
    if k == 0 then map[] else Apply(Replica(log, k - 1), log[k - 1].index, log[k - 1].mm)
  }

  function Members(log: Log, k: nat): (ms: seq<Member>)
    requires k <= |log|
    ensures |ms| == k && forall i :: 0 <= i < k ==> ms[i] == log[i].mm
  {
    if k == 0 then [] else Members(log, k - 1) + [log[k - 1].mm]
  }

  lemma {:induction false} LeadFoldSnoc(prev: Option<nat>, ms: seq<Member>, mm: Member, g: nat)
    ensures LeadFold(prev, ms + [mm], g) == LeadStep(LeadFold(prev, ms, g), mm, g)
    decreases |ms|
  {
    if ms == [] {
      assert ms + [mm] == [mm];
      assert LeadFold(LeadStep(prev, mm, g), [mm][1..], g) == LeadStep(prev, mm, g);
    } else {
      assert (ms + [mm])[1..] == ms[1..] + [mm];
      LeadFoldSnoc(LeadStep(prev, ms[0], g), ms[1..], mm, g);
    }
  }

  lemma {:induction false} ReplicaFold(log: Log, k: nat, g: nat, n: nat)
    requires k <= |log|
    ensures TableOk(Replica(log, k))
    ensures AddrIn(Replica(log, k), g, n) == AddrAt(log, k, g, n)
    ensures IdxIn(Replica(log, k), g, n)
         == if LastAbout(log, k, g, n) < 0 then None else Some(log[LastAbout(log, k, g, n)].index)
    ensures LeaderIn(Replica(log, k), g) == LeadFold(None, Members(log, k), g)
  {
    hide Apply;
    if k > 0 {
      ReplicaFold(log, k - 1, g, n);
      ApplyLaw(Replica(log, k - 1), log[k - 1].index, log[k - 1].mm, g, n);
      LeadFoldSnoc(None, Members(log, k - 1), log[k - 1].mm, g);
    }
  }

  /** A replica names exactly the leader that its log prefix has. */
  lemma ReplicaLeader(log: Log, k: nat, g: nat, n: nat)
    requires k <= |log|
    ensures LeaderIn(Replica(log, k), g) == Some(n) <==> LeadsAt(log, k, g, n)
  {
    ReplicaFold(log, k, g, n);
    var ms := Members(log, k);
    LeadFoldLaw(None, ms, g, n);
    if i :| Claims(ms, i, g, n) {
      assert LeadsSince(log, i, k, g, n);
    }
    if i :| 0 <= i < k && LeadsSince(log, i, k, g, n) {
      assert Claims(ms, i, g, n);
    }
  }

  // ---------- The reply to "after r" ----------

  function MemberOf(g: nat, s: Server): Member {
    Member(g, s.nodeId, s.addr, s.leader)
  }

  function NewerIn(g: nat, sl: seq<Server>, r: nat): seq<Member> {
    if sl == [] then []
    else (if sl[0].raftIdx <= r then [] else [MemberOf(g, sl[0])]) + NewerIn(g, sl[1..], r)
  }

  /** The members of the reply, when the groups are visited in the given order. */
  function Reply(all: All, order: seq<nat>, r: nat): seq<Member> {
    if order == [] then [] else NewerIn(order[0], ListIn(all, order[0]), r) + Reply(all, order[1..], r)
  }

  /** An order in which ranging over the map may visit the groups. */
  ghost predicate VisitOrder(all: All, order: seq<nat>) {
    && (forall g :: g in all <==> g in order)
    && (forall i, j :: 0 <= i < j < |order| ==> order[i] != order[j])
  }

  lemma {:induction false} NewerInExact(g: nat, sl: seq<Server>, r: nat, m: Member)
    ensures m in NewerIn(g, sl, r) <==> exists i :: 0 <= i < |sl| && sl[i].raftIdx > r && m == MemberOf(g, sl[i])
  {
    if sl != [] {
      NewerInExact(g, sl[1..], r, m);
      if i :| 0 <= i < |sl| && sl[i].raftIdx > r && m == MemberOf(g, sl[i]) {
        assert i > 0 ==> sl[1..][i - 1] == sl[i];
      }
      if i :| 0 <= i < |sl[1..]| && sl[1..][i].raftIdx > r && m == MemberOf(g, sl[1..][i]) {
        assert sl[i + 1] == sl[1..][i];
      }
    }
  }

  lemma {:induction false} ReplyExact(all: All, order: seq<nat>, r: nat, m: Member)
    ensures m in Reply(all, order, r) <==> m.group in order && m in NewerIn(m.group, ListIn(all, m.group), r)
  {
    if order != [] {
      ReplyExact(all, order[1..], r, m);
      assert order == [order[0]] + order[1..];
      if m in NewerIn(order[0], ListIn(all, order[0]), r) {
        NewerInExact(order[0], ListIn(all, order[0]), r, m);
      }
    }
  }

  /** A node's record is sent exactly when it is newer than `r`, and then with its address. */
  lemma ReplyRecords(all: All, order: seq<nat>, r: nat, m: Member)
    requires TableOk(all) && VisitOrder(all, order) && m in Reply(all, order, r)
    ensures IdxIn(all, m.group, m.id).Some? && IdxIn(all, m.group, m.id).value > r
    ensures AddrIn(all, m.group, m.id) == Some(m.addr)
    ensures m.leader ==> LeaderIn(all, m.group) == Some(m.id)
  {
    ReplyExact(all, order, r, m);
    var sl := ListIn(all, m.group);
    NewerInExact(m.group, sl, r, m);
    var i :| 0 <= i < |sl| && sl[i].raftIdx > r && m == MemberOf(m.group, sl[i]);
    GetUnique(sl, i);
  }

  lemma ReplyComplete(all: All, order: seq<nat>, r: nat, g: nat, n: nat)
    requires TableOk(all) && VisitOrder(all, order)
    requires IdxIn(all, g, n).Some? && IdxIn(all, g, n).value > r
    ensures exists m :: m in Reply(all, order, r) && m.group == g && m.id == n
    ensures LeaderIn(all, g) == Some(n) ==>
              exists m :: m in Reply(all, order, r) && m.group == g && m.id == n && m.leader
  {
    var sl := ListIn(all, g);
    var s := Get(sl, n);
    var m := MemberOf(g, s);
    var i :| 0 <= i < |sl| && sl[i] == s;
    NewerInExact(g, sl, r, m);
    ReplyExact(all, order, r, m);
    assert m in Reply(all, order, r);
    if LeaderIn(all, g) == Some(n) {
      GetUnique(sl, 0);
      assert m.leader;
    }
  }

  /** No node is sent twice. */
  ghost predicate OncePerNode(ms: seq<Member>) {
    forall i, j :: 0 <= i < j < |ms| ==> !(ms[i].group == ms[j].group && ms[i].id == ms[j].id)
  }

  lemma {:induction false} NewerInOnce(g: nat, sl: seq<Server>, r: nat)
    requires forall i, j :: 0 <= i < j < |sl| ==> sl[i].nodeId != sl[j].nodeId
    ensures OncePerNode(NewerIn(g, sl, r))
  {
    if sl != [] {
      NewerInOnce(g, sl[1..], r);
      forall m | m in NewerIn(g, sl[1..], r) ensures m.id != sl[0].nodeId {
        NewerInExact(g, sl[1..], r, m);
        var i :| 0 <= i < |sl[1..]| && sl[1..][i].raftIdx > r && m == MemberOf(g, sl[1..][i]);
        assert sl[i + 1] == sl[1..][i];
      }
    }
  }

  lemma OnceConcat(a: seq<Member>, b: seq<Member>)
    requires OncePerNode(a) && OncePerNode(b)
    requires forall x, y :: x in a && y in b ==> x.group != y.group
    ensures OncePerNode(a + b)
  {
  }

  lemma {:induction false} ReplyOnce(all: All, order: seq<nat>, r: nat)
    requires TableOk(all)
    requires forall i, j :: 0 <= i < j < |order| ==> order[i] != order[j]
    ensures OncePerNode(Reply(all, order, r))
  {
    if order != [] {
      var a, b := NewerIn(order[0], ListIn(all, order[0]), r), Reply(all, order[1..], r);
      NewerInOnce(order[0], ListIn(all, order[0]), r);
      ReplyOnce(all, order[1..], r);
      forall x, y | x in a && y in b ensures x.group != y.group {
        NewerInExact(order[0], ListIn(all, order[0]), r, x);
        ReplyExact(all, order[1..], r, y);
      }
      OnceConcat(a, b);
    }
  }

  // ---------- Applying a reply ----------

  function ApplyMembers(all: All, idx: nat, ms: seq<Member>): All
    decreases |ms|
  {
    if ms == [] then all else ApplyMembers(Apply(all, idx, ms[0]), idx, ms[1..])
  }

  lemma {:induction false} ApplyMembersLaw(all: All, idx: nat, ms: seq<Member>, g: nat, n: nat)
    requires TableOk(all) && OncePerNode(ms)
    ensures TableOk(ApplyMembers(all, idx, ms))
    ensures forall m :: m in ms && m.group == g && m.id == n ==> AddrIn(ApplyMembers(all, idx, ms), g, n) == Some(m.addr)
    ensures (forall m :: m in ms ==> !(m.group == g && m.id == n)) ==>
              AddrIn(ApplyMembers(all, idx, ms), g, n) == AddrIn(all, g, n)
    ensures LeaderIn(ApplyMembers(all, idx, ms), g) == LeadFold(LeaderIn(all, g), ms, g)
    decreases |ms|
  {
    hide Apply, AddrIn, LeaderIn, TableOk, LeadStep;
    if ms != [] {
      ApplyLaw(all, idx, ms[0], g, n);
      ApplyMembersLaw(Apply(all, idx, ms[0]), idx, ms[1..], g, n);
      assert ms == [ms[0]] + ms[1..];
      assert forall m :: m in ms[1..] ==> !(m.group == ms[0].group && m.id == ms[0].id);
    }
  }

  // ---------- A pulling server ----------

  datatype Follower = Follower(all: All, lastUpdate: nat)

  function MaxIdx(all: All, order: seq<nat>, r: nat): nat {
    if order == [] then r else Max(MaxIdxIn(ListIn(all, order[0]), r), MaxIdx(all, order[1..], r))
  }

  function MaxIdxIn(sl: seq<Server>, r: nat): nat {
    if sl == [] then r else Max(sl[0].raftIdx, MaxIdxIn(sl[1..], r))
  }

  function Max(a: nat, b: nat): nat {
    if a < b then b else a
  }

  /** `syncMemberships` against one replica: request, reply, apply, touch. */
  function Pull(f: Follower, replica: All, order: seq<nat>): Follower {
    var ms := Reply(replica, order, f.lastUpdate);
    var lu := MaxIdx(replica, order, f.lastUpdate);
    Follower(ApplyMembers(f.all, lu, ms), if ms == [] then f.lastUpdate else Max(f.lastUpdate, lu))
  }

  lemma {:induction false} MaxIdxInLaw(sl: seq<Server>, r: nat)
    ensures MaxIdxIn(sl, r) >= r
    ensures forall i :: 0 <= i < |sl| ==> sl[i].raftIdx <= MaxIdxIn(sl, r)
    ensures MaxIdxIn(sl, r) == r || exists i :: 0 <= i < |sl| && sl[i].raftIdx == MaxIdxIn(sl, r)
  {
    if sl != [] {
      MaxIdxInLaw(sl[1..], r);
      assert forall i :: 0 < i < |sl| ==> sl[i] == sl[1..][i - 1];
      if MaxIdxIn(sl[1..], r) > r {
        var i :| 0 <= i < |sl[1..]| && sl[1..][i].raftIdx == MaxIdxIn(sl[1..], r);
        assert sl[i + 1].raftIdx == MaxIdxIn(sl[1..], r);
      }
    }
  }

  /** Some record has this index. */
  ghost predicate Carries(all: All, order: seq<nat>, idx: nat) {
    exists g, i :: g in order && 0 <= i < |ListIn(all, g)| && ListIn(all, g)[i].raftIdx == idx
  }

  lemma {:induction false} MaxIdxLaw(all: All, order: seq<nat>, r: nat)
    ensures MaxIdx(all, order, r) >= r
    ensures forall g, i :: g in order && 0 <= i < |ListIn(all, g)| ==> ListIn(all, g)[i].raftIdx <= MaxIdx(all, order, r)
    ensures MaxIdx(all, order, r) == r || Carries(all, order, MaxIdx(all, order, r))
  {
    if order != [] {
      var sl := ListIn(all, order[0]);
      MaxIdxInLaw(sl, r);
      MaxIdxLaw(all, order[1..], r);
      assert order == [order[0]] + order[1..];
      var a, b := MaxIdxIn(sl, r), MaxIdx(all, order[1..], r);
      if a >= b && a > r {
        var i :| 0 <= i < |sl| && sl[i].raftIdx == a;
        assert Carries(all, order, a);
      } else if b > a {
        var g, i :| g in order[1..] && 0 <= i < |ListIn(all, g)| && ListIn(all, g)[i].raftIdx == b;
        assert g in order;
      }
    }
  }

  /** Every raft index in a replica is the index of an applied entry. */
  lemma ReplicaIdx(log: Log, k: nat, g: nat, i: nat)
    requires k <= |log| && LogOk(log) && i < |ListIn(Replica(log, k), g)|
    ensures var p := LastAbout(log, k, g, ListIn(Replica(log, k), g)[i].nodeId);
            p >= 0 && ListIn(Replica(log, k), g)[i].raftIdx == log[p].index
  {
    var sl := ListIn(Replica(log, k), g);
    ReplicaFold(log, k, g, sl[i].nodeId);
    GetUnique(sl, i);
  }

  /** The reply's index is that of the last entry the replica has applied, unless the caller is ahead of it. */
  lemma ReplyIndex(log: Log, k: nat, order: seq<nat>, r: nat)
    requires k <= |log| && LogOk(log) && VisitOrder(Replica(log, k), order)
    ensures MaxIdx(Replica(log, k), order, r) == if k > 0 && log[k - 1].index > r then log[k - 1].index else r
  {
    hide Replica, MaxIdx, LeadFold, LeaderIn, AddrAt, TableOk;
    var all := Replica(log, k);
    var top := MaxIdx(all, order, r);
    MaxIdxLaw(all, order, r);
    if top > r {
      var g, i :| g in order && 0 <= i < |ListIn(all, g)| && ListIn(all, g)[i].raftIdx == top;
      ReplicaIdx(log, k, g, i);
    }
    if k > 0 {
      var mm := log[k - 1].mm;
      ReplicaFold(log, k, mm.group, mm.id);
      assert LastAbout(log, k, mm.group, mm.id) == k - 1;
      var sl := ListIn(all, mm.group);
      var s := Get(sl, mm.id);
      var i :| 0 <= i < |sl| && sl[i] == s;
      assert s.raftIdx == log[k - 1].index;
      assert mm.group in order;
    }
  }

  /** The reply about one node, in terms of the log: sent iff its last entry is newer than `r`. */
  lemma ReplyAbout(log: Log, k: nat, order: seq<nat>, r: nat, g: nat, n: nat)
    requires k <= |log| && LogOk(log) && VisitOrder(Replica(log, k), order)
    ensures var ms, i := Reply(Replica(log, k), order, r), LastAbout(log, k, g, n);
      && ((exists m :: m in ms && m.group == g && m.id == n) <==> i >= 0 && log[i].index > r)
      && (forall m :: m in ms && m.group == g && m.id == n ==> AddrAt(log, k, g, n) == Some(m.addr))
      && (forall m :: m in ms && m.group == g && m.leader ==> LeaderIn(Replica(log, k), g) == Some(m.id))
      && (LeaderIn(Replica(log, k), g) == Some(n) && i >= 0 && log[i].index > r ==>
            exists m :: m in ms && m.group == g && m.id == n && m.leader)
  {
    var all := Replica(log, k);
    ReplicaFold(log, k, g, n);
    hide Replica, Reply;
    var ms, i := Reply(all, order, r), LastAbout(log, k, g, n);
    forall m | m in ms
      ensures IdxIn(all, m.group, m.id).Some? && IdxIn(all, m.group, m.id).value > r
      ensures AddrIn(all, m.group, m.id) == Some(m.addr)
      ensures m.leader ==> LeaderIn(all, m.group) == Some(m.id)
    {
      ReplyRecords(all, order, r, m);
    }
    if i >= 0 && log[i].index > r {
      ReplyComplete(all, order, r, g, n);
    }
  }

  /** What a pull leaves as the address of a node. */
  lemma PullAddr(f: Follower, log: Log, k: nat, order: seq<nat>, g: nat, n: nat)
    requires k <= |log| && LogOk(log) && VisitOrder(Replica(log, k), order) && TableOk(f.all)
    requires AddrIn(f.all, g, n) == AddrAt(log, CountUpTo(log, f.lastUpdate), g, n)
    requires CountUpTo(log, f.lastUpdate) <= k
    ensures AddrIn(Pull(f, Replica(log, k), order).all, g, n) == AddrAt(log, k, g, n)
  {
    var r := f.lastUpdate;
    var all, kr := Replica(log, k), CountUpTo(log, r);
    ReplyAbout(log, k, order, r, g, n);
    ReplicaFold(log, k, g, n);
    ReplyOnce(all, order, r);
    ApplyMembersLaw(f.all, MaxIdx(all, order, r), Reply(all, order, r), g, n);
    CountUpToLaw(log, r);
    hide Replica, Reply, ApplyMembers, MaxIdx;
    var i := LastAbout(log, k, g, n);
    if i < kr {
      LastAboutStable(log, kr, k, g, n);
    }
  }

  lemma {:induction false} LastAboutStable(log: Log, j: nat, k: nat, g: nat, n: nat)
    requires j <= k <= |log| && LastAbout(log, k, g, n) < j
    ensures LastAbout(log, j, g, n) == LastAbout(log, k, g, n)
  {
    if j < k { LastAboutStable(log, j, k - 1, g, n); }
  }

  /**
   What a pull leaves as the leader of a group, exactly: the leader of the
   replica's log prefix if it has one; otherwise the one named before, unless
   the reply speaks about that node.
   */
  lemma PullLeader(f: Follower, log: Log, k: nat, order: seq<nat>, g: nat)
    requires k <= |log| && LogOk(log) && VisitOrder(Replica(log, k), order) && TableOk(f.all)
    requires CountUpTo(log, f.lastUpdate) <= k
    requires forall n: nat :: LeadsAt(log, CountUpTo(log, f.lastUpdate), g, n) ==> LeaderIn(f.all, g) == Some(n)
    ensures var now, was := LeaderIn(Replica(log, k), g), LeaderIn(f.all, g);
      LeaderIn(Pull(f, Replica(log, k), order).all, g) ==
        if now.Some? then now
        else if was.Some? && LastAbout(log, k, g, was.value) >= CountUpTo(log, f.lastUpdate) then None
        else was
  {
    var r := f.lastUpdate;
    var all, kr := Replica(log, k), CountUpTo(log, r);
    var now, was := LeaderIn(all, g), LeaderIn(f.all, g);
    var ms := Reply(all, order, r);
    ReplicaFold(log, k, g, 0);
    ReplyOnce(all, order, r);
    ApplyMembersLaw(f.all, MaxIdx(all, order, r), ms, g, 0);
    CountUpToLaw(log, r);
    assert LeaderIn(Pull(f, all, order).all, g) == LeadFold(was, ms, g);
    if now.Some? {
      PullNamed(log, k, order, r, g, now.value, was);
    } else {
      PullUnnamed(log, k, order, r, g, was);
    }
  }

  lemma VisitOnce(all: All, order: seq<nat>, r: nat)
    requires TableOk(all) && VisitOrder(all, order)
    ensures OncePerNode(Reply(all, order, r))
  {
    ReplyOnce(all, order, r);
  }

  lemma PullNamed(log: Log, k: nat, order: seq<nat>, r: nat, g: nat, n: nat, was: Option<nat>)
    requires k <= |log| && LogOk(log) && VisitOrder(Replica(log, k), order)
    requires CountUpTo(log, r) <= k && LeaderIn(Replica(log, k), g) == Some(n)
    requires LeadsAt(log, CountUpTo(log, r), g, n) ==> was == Some(n)
    ensures LeadFold(was, Reply(Replica(log, k), order, r), g) == Some(n)
  {
    hide Replica, Reply, LeadFold, LastAbout, CountUpTo, AddrAt, AddrIn, LeaderIn, VisitOrder;
    var all, kr, ms := Replica(log, k), CountUpTo(log, r), Reply(Replica(log, k), order, r);
    CountUpToLaw(log, r);
    ReplicaFold(log, k, g, n);
    ReplicaLeader(log, k, g, n);
    ReplyAbout(log, k, order, r, g, n);
    VisitOnce(all, order, r);
    LeadFoldLaw(was, ms, g, n);
    var p :| 0 <= p < k && LeadsSince(log, p, k, g, n);
    assert LastAbout(log, k, g, n) == p;
    if p >= kr {
      var m :| m in ms && m.group == g && m.id == n && m.leader;
      var i :| 0 <= i < |ms| && ms[i] == m;
      forall j | 0 <= j < |ms| && i < j && ms[j].group == g ensures !ms[j].leader && ms[j].id != n {
        assert ms[j] in ms;
      }
      assert Claims(ms, i, g, n);
    } else {
      assert LeadsSince(log, p, kr, g, n);
      forall j | 0 <= j < |ms| && ms[j].group == g ensures !ms[j].leader && ms[j].id != n {
        assert ms[j] in ms;
      }
      assert Undisturbed(ms, -1, g, n);
    }
  }

  lemma PullUnnamed(log: Log, k: nat, order: seq<nat>, r: nat, g: nat, was: Option<nat>)
    requires k <= |log| && LogOk(log) && VisitOrder(Replica(log, k), order)
    requires CountUpTo(log, r) <= k && LeaderIn(Replica(log, k), g).None?
    ensures LeadFold(was, Reply(Replica(log, k), order, r), g) ==
      if was.Some? && LastAbout(log, k, g, was.value) >= CountUpTo(log, r) then None else was
  {
    var kr, ms := CountUpTo(log, r), Reply(Replica(log, k), order, r);
    CountUpToLaw(log, r);
    var led := LeadFold(was, ms, g);
    forall n: nat ensures led == Some(n) <==> was == Some(n) && LastAbout(log, k, g, n) < kr {
      ReplyAbout(log, k, order, r, g, n);
      LeadFoldLaw(was, ms, g, n);
      hide Replica, Reply, LeadFold;
      forall i ensures !Claims(ms, i, g, n) {
        assert 0 <= i < |ms| ==> ms[i] in ms;
      }
      if LastAbout(log, k, g, n) >= kr {
        var m :| m in ms && m.group == g && m.id == n;
        var j :| 0 <= j < |ms| && ms[j] == m;
        assert !Undisturbed(ms, -1, g, n);
      } else {
        forall j | 0 <= j < |ms| && ms[j].group == g ensures !ms[j].leader && ms[j].id != n {
          assert ms[j] in ms;
        }
      }
    }
    if was.Some? {
      assert led == Some(was.value) <==> LastAbout(log, k, g, was.value) < kr;
    }
  }
}
