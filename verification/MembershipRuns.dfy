/** Safety of membership gossip over whole runs. */
module MembershipRuns {
  import opened Bytes
  import opened Membership
  import opened MembershipGossip

  /** Group zero's log, its replicas with their progress, and the pulling servers. */
  datatype Cluster = Cluster(log: Log, applied: map<nat, nat>, tables: map<nat, All>, followers: map<nat, Follower>)

  datatype Action =
    | Agree(entry: Entry)                                  // group zero commits an update
    | Advance(replica: nat)                                // a replica applies its next entry
    | Sync(follower: nat, replica: nat, order: seq<nat>)   // a server pulls from a replica

  ghost predicate Init(c: Cluster) {
    && c.log == [] && c.applied.Keys == c.tables.Keys
    && (forall i :: i in c.tables ==> c.applied[i] == 0 && c.tables[i] == map[])
    && (forall j :: j in c.followers ==> c.followers[j] == Follower(map[], 0))
  }

  ghost predicate Next(c: Cluster, a: Action, c': Cluster) {
    match a
    case Agree(e) =>
      LogOk(c.log + [e]) && c' == c.(log := c.log + [e])
    case Advance(i) =>
      && i in c.tables && i in c.applied && c.applied[i] < |c.log|
      && var e := c.log[c.applied[i]];
         c' == c.(applied := c.applied[i := c.applied[i] + 1], tables := c.tables[i := Apply(c.tables[i], e.index, e.mm)])
    case Sync(j, i, order) =>
      && j in c.followers && i in c.tables && VisitOrder(c.tables[i], order)
      && c' == c.(followers := c.followers[j := Pull(c.followers[j], c.tables[i], order)])
  }

  /**
   A server with `lastUpdate` r holds exactly the addresses of the log prefix up
   to r, and names the leader of every group that has one there.
   */
  ghost predicate Tracks(f: Follower, log: Log) {
    && TableOk(f.all)
    && (forall g: nat, n: nat :: AddrIn(f.all, g, n) == AddrAt(log, CountUpTo(log, f.lastUpdate), g, n))
    && (forall g: nat, n: nat :: LeadsAt(log, CountUpTo(log, f.lastUpdate), g, n) ==> LeaderIn(f.all, g) == Some(n))
  }

  function LastIndex(log: Log): nat {
    if log == [] then 0 else log[|log| - 1].index
  }

  ghost predicate ReplicaOk(c: Cluster, i: nat) {
    i in c.tables && i in c.applied && c.applied[i] <= |c.log| && c.tables[i] == Replica(c.log, c.applied[i])
  }

  ghost predicate FollowerOk(c: Cluster, j: nat) {
    j in c.followers && c.followers[j].lastUpdate <= LastIndex(c.log) && Tracks(c.followers[j], c.log)
  }

  ghost predicate Inv(c: Cluster) {
    && LogOk(c.log)
    && (forall i :: i in c.tables ==> ReplicaOk(c, i))
    && (forall j :: j in c.followers ==> FollowerOk(c, j))
  }

  // ---------- Agreeing on one more entry leaves prefixes alone ----------

  lemma {:induction false} ReplicaPrefix(log: Log, e: Entry, k: nat)
    requires k <= |log|
    ensures Replica(log + [e], k) == Replica(log, k)
  {
    hide Apply;
    if k > 0 { ReplicaPrefix(log, e, k - 1); }
  }

  lemma {:induction false} LastAboutPrefix(log: Log, e: Entry, k: nat, g: nat, n: nat)
    requires k <= |log|
    ensures LastAbout(log + [e], k, g, n) == LastAbout(log, k, g, n)
  {
    if k > 0 { LastAboutPrefix(log, e, k - 1, g, n); }
  }

  lemma TracksAgree(f: Follower, log: Log, e: Entry)
    requires LogOk(log + [e]) && f.lastUpdate <= LastIndex(log) && Tracks(f, log)
    ensures Tracks(f, log + [e])
  {
    hide AddrIn, LeaderIn;
    var log' := log + [e];
    var k := CountUpTo(log, f.lastUpdate);
    assert log'[..|log'| - 1] == log;
    assert log != [] ==> log'[|log| - 1].index < log'[|log|].index;
    assert CountUpTo(log', f.lastUpdate) == k;
    forall g: nat, n: nat ensures AddrIn(f.all, g, n) == AddrAt(log', k, g, n) {
      LastAboutPrefix(log, e, k, g, n);
    }
    forall g: nat, n: nat | LeadsAt(log', k, g, n) ensures LeaderIn(f.all, g) == Some(n) {
      var i :| 0 <= i < k && LeadsSince(log', i, k, g, n);
      assert LeadsSince(log, i, k, g, n) by {
        forall j | i < j < k && log[j].mm.group == g ensures !log[j].mm.leader && log[j].mm.id != n {
          assert log'[j] == log[j];
        }
      }
    }
  }

  // ---------- Pulling ----------

  /** A replica that is not ahead sends nothing. */
  lemma PullBehind(f: Follower, log: Log, k: nat, order: seq<nat>)
    requires k <= |log| && LogOk(log) && VisitOrder(Replica(log, k), order)
    requires k <= CountUpTo(log, f.lastUpdate)
    ensures Pull(f, Replica(log, k), order) == f
  {
    var ms := Reply(Replica(log, k), order, f.lastUpdate);
    CountUpToLaw(log, f.lastUpdate);
    assert |ms| > 0 ==> ms[0] in ms;
    forall m ensures m !in ms {
      ReplyAbout(log, k, order, f.lastUpdate, m.group, m.id);
    }
  }

  /** A replica that is ahead brings the server to the last entry it has applied. */
  lemma PullAhead(f: Follower, log: Log, k: nat, order: seq<nat>)
    requires k <= |log| && LogOk(log) && VisitOrder(Replica(log, k), order)
    requires CountUpTo(log, f.lastUpdate) < k
    ensures Pull(f, Replica(log, k), order).lastUpdate == log[k - 1].index
    ensures CountUpTo(log, log[k - 1].index) == k
  {
    var r, mm := f.lastUpdate, log[k - 1].mm;
    CountUpToLaw(log, r);
    CountUpToLaw(log, log[k - 1].index);
    ReplyIndex(log, k, order, r);
    ReplyAbout(log, k, order, r, mm.group, mm.id);
    assert LastAbout(log, k, mm.group, mm.id) == k - 1;
    var ms := Reply(Replica(log, k), order, r);
    hide Replica, Reply, MaxIdx, ApplyMembers;
    var m :| m in ms && m.group == mm.group && m.id == mm.id;
    assert ms != [];
    assert CountUpTo(log, log[k - 1].index) == k by {
      var c := CountUpTo(log, log[k - 1].index);
      assert k < |log| ==> log[k].index > log[k - 1].index;
      assert c > k - 1;
    }
  }

  lemma PullTracks(f: Follower, log: Log, k: nat, order: seq<nat>)
    requires k <= |log| && LogOk(log) && VisitOrder(Replica(log, k), order)
    requires Tracks(f, log)
    ensures Tracks(Pull(f, Replica(log, k), order), log)
    ensures f.lastUpdate <= LastIndex(log) ==> Pull(f, Replica(log, k), order).lastUpdate <= LastIndex(log)
  {
    hide Replica, Pull, VisitOrder, AddrIn, AddrAt, LeaderIn, TableOk, CountUpTo;
    if k <= CountUpTo(log, f.lastUpdate) {
      PullBehind(f, log, k, order);
    } else {
      var f' := Pull(f, Replica(log, k), order);
      PullAhead(f, log, k, order);
      PullTable(f, log, k, order);
      assert log[k - 1].index <= LastIndex(log);
      forall g: nat, n: nat ensures AddrIn(f'.all, g, n) == AddrAt(log, k, g, n) {
        PullAddr(f, log, k, order, g, n);
      }
      forall g: nat, n: nat | LeadsAt(log, k, g, n) ensures LeaderIn(f'.all, g) == Some(n) {
        ReplicaLeader(log, k, g, n);
        PullLeader(f, log, k, order, g);
      }
    }
  }

  lemma PullTable(f: Follower, log: Log, k: nat, order: seq<nat>)
    requires k <= |log| && LogOk(log) && VisitOrder(Replica(log, k), order) && TableOk(f.all)
    ensures TableOk(Pull(f, Replica(log, k), order).all)
  {
    var all, r := Replica(log, k), f.lastUpdate;
    ReplicaFold(log, k, 0, 0);
    ReplyOnce(all, order, r);
    ApplyMembersLaw(f.all, MaxIdx(all, order, r), Reply(all, order, r), 0, 0);
  }

  // ---------- The invariant ----------

  lemma InitInv(c: Cluster)
    requires Init(c)
    ensures Inv(c)
  {
  }

  lemma NextInv(c: Cluster, a: Action, c': Cluster)
    requires Inv(c) && Next(c, a, c')
    ensures Inv(c')
  {
    hide Tracks, Pull, Apply, VisitOrder, LogOk;
    match a {
      case Agree(e) =>
        AgreeOk(c, e);
        forall i | i in c'.tables ensures ReplicaOk(c', i) {
          assert ReplicaOk(c, i);
          ReplicaPrefix(c.log, e, c.applied[i]);
        }
      case Advance(i) =>
        forall h | h in c'.tables ensures ReplicaOk(c', h) {
          assert h != i ==> ReplicaOk(c, h);
          assert ReplicaOk(c, i);
        }
        forall j | j in c'.followers ensures FollowerOk(c', j) {
          assert FollowerOk(c, j);
        }
      case Sync(j, i, order) =>
        assert ReplicaOk(c, i);
        forall h | h in c'.followers ensures FollowerOk(c', h) {
          assert FollowerOk(c, h);
          if h == j { PullTracks(c.followers[j], c.log, c.applied[i], order); }
        }
        forall h | h in c'.tables ensures ReplicaOk(c', h) {
          assert ReplicaOk(c, h);
        }
    }
  }

  lemma AgreeOk(c: Cluster, e: Entry)
    requires Inv(c) && LogOk(c.log + [e])
    ensures forall j :: j in c.followers ==> FollowerOk(c.(log := c.log + [e]), j)
  {
    forall j | j in c.followers ensures FollowerOk(c.(log := c.log + [e]), j) {
      assert FollowerOk(c, j);
      TracksAgree(c.followers[j], c.log, e);
      assert c.log != [] ==> (c.log + [e])[|c.log| - 1].index < (c.log + [e])[|c.log|].index;
    }
  }

  ghost predicate Run(trace: seq<Cluster>, actions: seq<Action>) {
    && |trace| == |actions| + 1 && Init(trace[0])
    && forall i :: 0 <= i < |actions| ==> Next(trace[i], actions[i], trace[i + 1])
  }

  lemma {:induction false} RunInv(trace: seq<Cluster>, actions: seq<Action>, i: nat)
    requires Run(trace, actions) && i < |trace|
    ensures Inv(trace[i])
  {
    if i == 0 {
      InitInv(trace[0]);
    } else {
      RunInv(trace, actions, i - 1);
      assert Next(trace[i - 1], actions[i - 1], trace[i]);
      NextInv(trace[i - 1], actions[i - 1], trace[i]);
    }
  }

  /**
   In every state of every run, whatever the interleaving, every pulling server
   agrees with the log prefix up to its `lastUpdate`: on all addresses, and on
   the leader of every group that has one.
   */
  lemma RunSafe(trace: seq<Cluster>, actions: seq<Action>, i: nat, j: nat, g: nat, n: nat)
    requires Run(trace, actions) && i < |trace| && j in trace[i].followers
    ensures var c := trace[i]; var f := c.followers[j]; var k := CountUpTo(c.log, f.lastUpdate);
      && AddrIn(f.all, g, n) == AddrAt(c.log, k, g, n)
      && (LeadsAt(c.log, k, g, n) ==> LeaderIn(f.all, g) == Some(n))
  {
    RunInv(trace, actions, i);
    assert FollowerOk(trace[i], j);
  }

  /** In the same runs a replica's own table is the reading of the prefix it has applied, leaders both ways. */
  lemma RunReplicas(trace: seq<Cluster>, actions: seq<Action>, i: nat, h: nat, g: nat, n: nat)
    requires Run(trace, actions) && i < |trace| && h in trace[i].tables
    ensures var c := trace[i];
      && h in c.applied && c.applied[h] <= |c.log|
      && AddrIn(c.tables[h], g, n) == AddrAt(c.log, c.applied[h], g, n)
      && (LeaderIn(c.tables[h], g) == Some(n) <==> LeadsAt(c.log, c.applied[h], g, n))
  {
    RunInv(trace, actions, i);
    assert ReplicaOk(trace[i], h);
    ReplicaFold(trace[i].log, trace[i].applied[h], g, n);
    ReplicaLeader(trace[i].log, trace[i].applied[h], g, n);
  }

  /**
   The converse for followers fails: after "1 leads; 2 leads; 2 steps down" a
   server that pulled after the first entry and after the third still names 1.
   */
  lemma StaleLeader(log: Log, f: Follower, g: nat, order: seq<nat>)
    requires log == [Entry(1, Member(g, 1, "a", true)), Entry(2, Member(g, 2, "b", true)), Entry(3, Member(g, 2, "b", false))]
    requires VisitOrder(Replica(log, 3), order)
    requires f.lastUpdate == 1 && Tracks(f, log)
    ensures LeaderIn(Pull(f, Replica(log, 3), order).all, g) == Some(1)
    ensures forall n: nat :: !LeadsAt(log, 3, g, n)
  {
    assert log[2].index > 1 && log[1].index > 1 && log[0].index == 1;
    CountUpToLaw(log, 1);
    assert CountUpTo(log, 1) == 1;
    assert LeadsSince(log, 0, 1, g, 1);
    assert LeadsAt(log, 1, g, 1);
    forall n: nat ensures !LeadsAt(log, 3, g, n) {
      assert forall i :: 0 <= i < 3 ==> !LeadsSince(log, i, 3, g, n) by {
        assert log[1].mm.leader && log[2].mm.id == 2;
      }
    }
    var now := LeaderIn(Replica(log, 3), g);
    if now.Some? { ReplicaLeader(log, 3, g, now.value); }
    PullLeader(f, log, 3, order, g);
    LastAboutStale(log, g);
  }

  lemma LastAboutStale(log: Log, g: nat)
    requires log == [Entry(1, Member(g, 1, "a", true)), Entry(2, Member(g, 2, "b", true)), Entry(3, Member(g, 2, "b", false))]
    ensures LastAbout(log, 3, g, 1) == 0
  {
    assert log[0].mm.id == 1 && log[1].mm.id == 2 && log[2].mm.id == 2;
    assert LastAbout(log, 1, g, 1) == 0;
    assert LastAbout(log, 2, g, 1) == 0;
  }

  // ---------- The same as a run from the start ----------

  function StaleEntry(g: nat, i: nat): Entry {
    Entry(i + 1, if i == 0 then Member(g, 1, "a", true) else Member(g, 2, "b", i == 1))
  }

  function StaleLog(g: nat): Log {
    [StaleEntry(g, 0), StaleEntry(g, 1), StaleEntry(g, 2)]
  }

  /** One replica and one follower, which pulls after the first entry and after the third. */
  function StaleActions(g: nat): seq<Action> {
    [Agree(StaleEntry(g, 0)), Advance(0), Sync(0, 0, [g]), Agree(StaleEntry(g, 1)), Agree(StaleEntry(g, 2)),
     Advance(0), Advance(0), Sync(0, 0, [g])]
  }

  function StaleFollower(g: nat, pulls: nat): Follower {
    var f1 := Pull(Follower(map[], 0), Replica(StaleLog(g), 1), [g]);
    if pulls == 0 then Follower(map[], 0) else if pulls == 1 then f1 else Pull(f1, Replica(StaleLog(g), 3), [g])
  }

  function StaleCluster(g: nat, entries: nat, applied: nat, pulls: nat): Cluster
    requires entries <= 3 && applied <= 3
  {
    Cluster(StaleLog(g)[..entries], map[0 := applied], map[0 := Replica(StaleLog(g), applied)], map[0 := StaleFollower(g, pulls)])
  }

  function StaleTrace(g: nat): seq<Cluster> {
    [StaleCluster(g, 0, 0, 0), StaleCluster(g, 1, 0, 0), StaleCluster(g, 1, 1, 0), StaleCluster(g, 1, 1, 1),
     StaleCluster(g, 2, 1, 1), StaleCluster(g, 3, 1, 1), StaleCluster(g, 3, 2, 1), StaleCluster(g, 3, 3, 1), StaleCluster(g, 3, 3, 2)]
  }

  lemma StaleAgree(g: nat, n: nat, applied: nat, pulls: nat)
    requires n < 3 && applied <= 3
    ensures Next(StaleCluster(g, n, applied, pulls), Agree(StaleEntry(g, n)), StaleCluster(g, n + 1, applied, pulls))
  {
    hide Replica, StaleFollower;
    var log := StaleLog(g);
    assert log[..n + 1] == log[..n] + [StaleEntry(g, n)];
  }

  lemma StaleAdvance(g: nat, n: nat, k: nat, pulls: nat)
    requires k < n <= 3
    ensures Next(StaleCluster(g, n, k, pulls), Advance(0), StaleCluster(g, n, k + 1, pulls))
  {
    hide StaleFollower, Apply;
    var log := StaleLog(g);
    assert log[..n][k] == log[k];
  }

  lemma StaleOrder(g: nat, k: nat)
    requires 0 < k <= 3
    ensures VisitOrder(Replica(StaleLog(g), k), [g])
  {
    var log := StaleLog(g);
    assert Replica(log, 0) == map[];
    assert Replica(log, 1).Keys == {g};
    assert k > 1 ==> Replica(log, 2).Keys == {g};
    assert k > 2 ==> Replica(log, 3).Keys == {g};
  }

  lemma StaleSync(g: nat, n: nat, k: nat, pulls: nat)
    requires 0 < k <= 3 && n <= 3 && pulls < 2 && k == (if pulls == 0 then 1 else 3)
    ensures Next(StaleCluster(g, n, k, pulls), Sync(0, 0, [g]), StaleCluster(g, n, k, pulls + 1))
  {
    hide Replica, Pull, VisitOrder;
    StaleOrder(g, k);
  }

  lemma StaleIsRun(g: nat)
    ensures Run(StaleTrace(g), StaleActions(g))
  {
    hide Next, StaleFollower, StaleCluster, StaleEntry;
    StaleAgree(g, 0, 0, 0);
    StaleAdvance(g, 1, 0, 0);
    StaleSync(g, 1, 1, 0);
    StaleAgree(g, 1, 1, 1);
    StaleAgree(g, 2, 1, 1);
    StaleAdvance(g, 3, 1, 1);
    StaleAdvance(g, 3, 2, 1);
    StaleSync(g, 3, 3, 1);
    assert Init(StaleCluster(g, 0, 0, 0)) by { StaleInit(g); }
  }

  lemma StaleInit(g: nat)
    ensures Init(StaleCluster(g, 0, 0, 0))
  {
  }

  /** A run after which a follower that has seen the whole log names a leader although the log has none. */
  lemma StaleRun(g: nat)
    ensures Run(StaleTrace(g), StaleActions(g))
    ensures var c := StaleTrace(g)[8];
      && 0 in c.followers && LeaderIn(c.followers[0].all, g) == Some(1)
      && CountUpTo(c.log, c.followers[0].lastUpdate) == |c.log| && forall n: nat :: !LeadsAt(c.log, |c.log|, g, n)
  {
    hide Run, Replica, Pull, VisitOrder, LeadsAt, Tracks, LeaderIn, LastIndex, LogOk;
    var log := StaleLog(g);
    StaleIsRun(g);
    RunInv(StaleTrace(g), StaleActions(g), 7);
    assert FollowerOk(StaleTrace(g)[7], 0);
    assert log[..3] == log;
    StaleOrder(g, 1);
    StaleOrder(g, 3);
    StaleCounts(g);
    PullAhead(Follower(map[], 0), log, 1, [g]);
    StaleLeader(log, StaleFollower(g, 1), g, [g]);
    PullAhead(StaleFollower(g, 1), log, 3, [g]);
  }

  lemma StaleCounts(g: nat)
    ensures LogOk(StaleLog(g)) && CountUpTo(StaleLog(g), 0) == 0 && CountUpTo(StaleLog(g), 1) == 1
  {
    var log := StaleLog(g);
    assert log[0].index == 1 && log[1].index == 2 && log[2].index == 3;
    CountUpToLaw(log, 0);
    CountUpToLaw(log, 1);
  }
}
