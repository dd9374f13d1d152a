/** Runs of `Store` that rewrite the tail of a Raft log. */
module WalRaft {
  import opened Bytes
  import opened Seqs
  import opened OrderedStore
  import opened WalKeys
  import opened Wal
  import opened WalLaws

  /** A Raft log: indices go up by one, terms do not go down. */
  ghost predicate RaftLog(log: seq<Entry>) {
    forall i, j :: 0 <= i < j < |log| ==>
      log[j].pos.index == log[i].pos.index + (j - i) && log[i].pos.term <= log[j].pos.term
  }

  /** The entries that a Raft node keeps when `es` arrives: those before its first index. */
  function Kept(log: seq<Entry>, first: uint64): seq<Entry> {
    if log == [] || log[0].pos.index >= first then [] else [log[0]] + Kept(log[1..], first)
  }

  lemma {:induction false} KeptExact(log: seq<Entry>, first: uint64, e: Entry)
    requires RaftLog(log)
    ensures e in Kept(log, first) <==> e in log && e.pos.index < first
  {
    if log != [] {
      assert log == [log[0]] + log[1..];
      if log[0].pos.index < first {
        KeptExact(log[1..], first, e);
      } else if e in log {
        var i :| 0 <= i < |log| && log[i] == e;
        assert i > 0 ==> log[i].pos.index == log[0].pos.index + i;
      }
    }
  }

  /** `es` can follow what is kept of `log`. */
  ghost predicate Follows(log: seq<Entry>, es: seq<Entry>) {
    && es != [] && RaftLog(log) && RaftLog(es)
    && forall i :: 0 <= i < |log| && log[i].pos.index < es[0].pos.index ==> log[i].pos.term <= es[0].pos.term
  }

  /** An overwritten entry whose key is neither rewritten nor above the batch. */
  ghost predicate Stale(log: seq<Entry>, es: seq<Entry>, e: Entry)
    requires es != []
  {
    e in log && e.pos.index >= es[0].pos.index && Before(e.pos, LastPos(es)) && !InBatch(es, e.pos)
  }

  lemma KeptBefore(log: seq<Entry>, es: seq<Entry>, e: Entry)
    requires Follows(log, es) && e in log && e.pos.index < es[0].pos.index
    ensures Before(e.pos, LastPos(es)) && !InBatch(es, e.pos)
  {
  }

  /** The log of the Raft node after a batch. */
  function Overwrite(log: seq<Entry>, es: seq<Entry>): seq<Entry> {
    if es == [] then log else Kept(log, es[0].pos.index) + es
  }

  lemma OverwriteExact(log: seq<Entry>, es: seq<Entry>, e: Entry)
    requires es != [] && RaftLog(log)
    ensures e in Overwrite(log, es) <==> (e in log && e.pos.index < es[0].pos.index) || e in es
  {
    KeptExact(log, es[0].pos.index, e);
  }

  ghost function StaleSet(log: seq<Entry>, es: seq<Entry>): set<Entry>
    requires es != []
  {
    set e | e in log && Stale(log, es, e)
  }

  predicate Survives(es: seq<Entry>, e: Entry)
    requires es != []
  {
    Before(e.pos, LastPos(es)) && forall i :: 0 <= i < |es| ==> es[i].pos != e.pos
  }

  /** What a batch leaves when the store holds the log and `r` besides: the new log, what it makes stale, and what survives of `r`. */
  ghost function StepResidue(log: seq<Entry>, r: set<Entry>, es: seq<Entry>): set<Entry> {
    if es == [] then r else StaleSet(log, es) + set e | e in r && Survives(es, e)
  }

  /** A batch that a Raft node may store next; without entries it only carries a snapshot or a hard state. */
  ghost predicate NextBatch(log: seq<Entry>, es: seq<Entry>) {
    es == [] || (Follows(log, es) && Proper(es))
  }

  lemma StepExact(log: seq<Entry>, r: set<Entry>, es: seq<Entry>)
    requires NextBatch(log, es)
    ensures Written(SetOf(log) + r, es) == SetOf(Overwrite(log, es)) + StepResidue(log, r, es)
  {
    hide Written, PutAndDrop, Overwrite, Follows, Stale;
    if es == [] {
      EmptyBatch(SetOf(log) + r);
      OverwriteNothing(log);
    } else {
      FollowsFacts(log, es);
      WrittenProper(SetOf(log) + r, es);
      forall e ensures e in PutAndDrop(SetOf(log) + r, es) <==> e in SetOf(Overwrite(log, es)) + StepResidue(log, r, es) {
        StepMember(log, r, es, e);
      }
    }
  }

  lemma EmptyBatch(s: set<Entry>)
    ensures Written(s, []) == s
  {
    assert forall e :: e in s ==> !InBatch([], e.pos) && !Cut([], e.pos);
  }

  lemma OverwriteNothing(log: seq<Entry>)
    ensures Overwrite(log, []) == log
  {
  }

  lemma FollowsFacts(log: seq<Entry>, es: seq<Entry>)
    requires Follows(log, es)
    ensures es != [] && RaftLog(log) && RaftLog(es) && Ascending(es)
  {
  }

  lemma StepMember(log: seq<Entry>, r: set<Entry>, es: seq<Entry>, e: Entry)
    requires Follows(log, es)
    ensures e in PutAndDrop(SetOf(log) + r, es) <==> e in SetOf(Overwrite(log, es)) + StepResidue(log, r, es)
  {
    hide Overwrite, Follows, Before, LastPos;
    FollowsFacts(log, es);
    OverwriteExact(log, es, e);
    BatchMember(es, e);
    if e in log && e.pos.index < es[0].pos.index { KeptBefore(log, es, e); }
  }

  /** After one batch the store holds exactly the new Raft log if and only if no overwritten entry is stale: deletion removes only what is above the batch. */
  lemma RaftExact(log: seq<Entry>, es: seq<Entry>)
    requires Follows(log, es) && Proper(es)
    ensures Written(SetOf(log), es) == SetOf(Overwrite(log, es)) <==> forall e :: !Stale(log, es, e)
  {
    hide Written, Overwrite, Follows;
    StepExact(log, {}, es);
    assert SetOf(log) + {} == SetOf(log);
    FollowsFacts(log, es);
    forall e | Stale(log, es, e) ensures e in StaleSet(log, es) && e !in Overwrite(log, es) { StaleOutside(log, es, e); }
    if forall e :: !Stale(log, es, e) {
      assert StepResidue(log, {}, es) == {};
    }
  }

  lemma StaleOutside(log: seq<Entry>, es: seq<Entry>, e: Entry)
    requires Follows(log, es) && Stale(log, es, e)
    ensures e !in Overwrite(log, es)
  {
    OverwriteExact(log, es, e);
    BatchMember(es, e);
  }

  /** The classic case: a new leader overwrites index 2, and the old entry stays in the WAL. */
  lemma StaleExample(a: bytes, b: bytes, d: bytes)
    ensures var log := [Entry(Pos(1, 1), a), Entry(Pos(1, 2), b)]; var es := [Entry(Pos(2, 2), d)];
            && Follows(log, es) && Stale(log, es, Entry(Pos(1, 2), b))
            && Entry(Pos(1, 2), b) in Written(SetOf(log), es)
  {
    var log := [Entry(Pos(1, 1), a), Entry(Pos(1, 2), b)];
    assert log[1] in log;
  }

  // ---------- Runs ----------

  function LogAfter(log: seq<Entry>, ess: seq<seq<Entry>>): seq<Entry>
    decreases |ess|
  {
    if ess == [] then log else LogAfter(Overwrite(log, ess[0]), ess[1..])
  }

  ghost function Residue(log: seq<Entry>, r: set<Entry>, ess: seq<seq<Entry>>): set<Entry>
    decreases |ess|
  {
    if ess == [] then r else Residue(Overwrite(log, ess[0]), StepResidue(log, r, ess[0]), ess[1..])
  }

  /** Every batch may follow the log that the batches before it leave. */
  ghost predicate RaftRun(log: seq<Entry>, ess: seq<seq<Entry>>)
    decreases |ess|
  {
    ess == [] || (NextBatch(log, ess[0]) && RaftRun(Overwrite(log, ess[0]), ess[1..]))
  }

  /** What the store holds after any run of batches in Raft order: the log, and the stale entries that no later batch has cut off or written over. */
  lemma {:induction false} RunHolds(log: seq<Entry>, r: set<Entry>, ess: seq<seq<Entry>>)
    requires RaftRun(log, ess)
    ensures RunSet(SetOf(log) + r, ess) == SetOf(LogAfter(log, ess)) + Residue(log, r, ess)
    decreases |ess|
  {
    hide NextBatch, Written, Overwrite, StepResidue;
    if ess != [] {
      StepExact(log, r, ess[0]);
      RunHolds(Overwrite(log, ess[0]), StepResidue(log, r, ess[0]), ess[1..]);
    }
  }

  /** Terms never go down, not even where a batch overwrites. */
  ghost predicate TermsRise(log: seq<Entry>, ess: seq<seq<Entry>>)
    decreases |ess|
  {
    ess == [] ||
    (&& (ess[0] != [] ==> forall i :: 0 <= i < |log| ==> log[i].pos.term <= ess[0][0].pos.term)
     && TermsRise(Overwrite(log, ess[0]), ess[1..]))
  }

  /** No batch of the run leaves a stale entry. */
  ghost predicate NoStale(log: seq<Entry>, ess: seq<seq<Entry>>)
    decreases |ess|
  {
    ess == [] ||
    ((ess[0] != [] ==> forall e :: !Stale(log, ess[0], e)) && NoStale(Overwrite(log, ess[0]), ess[1..]))
  }

  /** `e` is not in the log and has a lower term than its last entry. */
  ghost predicate Outdated(log: seq<Entry>, e: Entry) {
    log != [] && e.pos.term < LastPos(log).term && e !in log
  }

  lemma StaleOutdated(log: seq<Entry>, es: seq<Entry>, e: Entry)
    requires Follows(log, es) && Stale(log, es, e)
    requires forall i :: 0 <= i < |log| ==> log[i].pos.term <= es[0].pos.term
    ensures Outdated(Overwrite(log, es), e)
  {
    StaleOutside(log, es, e);
    LastOfOverwrite(log, es);
    var first := es[0].pos;
    if e.pos.term == LastPos(es).term {
      var k := e.pos.index - first.index;
      assert k < |es| && es[k].pos == e.pos by { assert es[|es| - 1].pos.index == first.index + (|es| - 1); }
    }
  }

  lemma LastOfOverwrite(log: seq<Entry>, es: seq<Entry>)
    requires es != []
    ensures Overwrite(log, es) != [] && LastPos(Overwrite(log, es)) == LastPos(es)
  {
  }

  lemma OutdatedStep(log: seq<Entry>, es: seq<Entry>, e: Entry)
    requires Follows(log, es) && Outdated(log, e)
    requires forall i :: 0 <= i < |log| ==> log[i].pos.term <= es[0].pos.term
    ensures Outdated(Overwrite(log, es), e) && Survives(es, e)
  {
    LastOfOverwrite(log, es);
    OverwriteExact(log, es, e);
    assert log[|log| - 1].pos.term <= es[0].pos.term;
    forall i | 0 <= i < |es| ensures es[i].pos.term > e.pos.term { assert i > 0 ==> es[0].pos.term <= es[i].pos.term; }
  }

  /** An outdated entry is never dropped and never comes back into the log. */
  lemma {:induction false} OutdatedStays(log: seq<Entry>, r: set<Entry>, ess: seq<seq<Entry>>, e: Entry)
    requires RaftRun(log, ess) && TermsRise(log, ess) && Outdated(log, e) && e in r
    ensures e in Residue(log, r, ess) && e !in LogAfter(log, ess)
    decreases |ess|
  {
    hide Overwrite, Follows, Outdated, Survives, StaleSet;
    if ess == [] {
      OutdatedOut(log, e);
    } else {
      if ess[0] == [] { OverwriteNothing(log); } else { OutdatedStep(log, ess[0], e); }
      OutdatedStays(Overwrite(log, ess[0]), StepResidue(log, r, ess[0]), ess[1..], e);
    }
  }

  lemma OutdatedOut(log: seq<Entry>, e: Entry)
    requires Outdated(log, e)
    ensures e !in log
  {
  }

  /**
   Over every run of batches in Raft order whose terms never go down: the store
   holds exactly the Raft log if and only if no batch left a stale entry.
   */
  lemma {:induction false} RaftRunExact(log: seq<Entry>, ess: seq<seq<Entry>>)
    requires RaftRun(log, ess) && TermsRise(log, ess)
    ensures RunSet(SetOf(log), ess) == SetOf(LogAfter(log, ess)) <==> NoStale(log, ess)
    decreases |ess|
  {
    hide Overwrite, Follows, Written, Stale, Outdated, Residue;
    if ess != [] {
      var es := ess[0];
      var log' := Overwrite(log, es);
      if es == [] {
        OverwriteNothing(log);
        EmptyBatch(SetOf(log));
        RaftRunExact(log', ess[1..]);
      } else if e :| Stale(log, es, e) {
        StaleRemains(log, ess, e);
      } else {
        RaftExact(log, es);
        RaftRunExact(log', ess[1..]);
      }
    }
  }

  lemma StaleRemains(log: seq<Entry>, ess: seq<seq<Entry>>, e: Entry)
    requires RaftRun(log, ess) && TermsRise(log, ess) && ess != [] && ess[0] != [] && Stale(log, ess[0], e)
    ensures RunSet(SetOf(log), ess) != SetOf(LogAfter(log, ess))
  {
    hide Overwrite, Follows, Outdated, Written;
    var es := ess[0];
    StaleOutdated(log, es, e);
    assert e in StepResidue(log, {}, es);
    OutdatedStays(Overwrite(log, es), StepResidue(log, {}, es), ess[1..], e);
    RunHolds(log, {}, ess);
    assert SetOf(log) + {} == SetOf(log);
    assert e in RunSet(SetOf(log), ess);
  }

  ghost predicate CutOffEntries(e1: Entry, e2: Entry, e3: Entry, e4: Entry) {
    e1.pos == Pos(1, 1) && e2.pos == Pos(3, 2) && e3.pos == Pos(2, 2) && e4.pos == Pos(4, 3)
  }

  lemma CutOffLogs(e1: Entry, e2: Entry, e3: Entry, e4: Entry)
    requires CutOffEntries(e1, e2, e3, e4)
    ensures Overwrite([e1, e2], [e3, e4]) == [e1, e3, e4]
    ensures Overwrite([e1, e3, e4], [e3]) == [e1, e3]
  {
    assert [e1, e2][1..] == [e2] && [e1, e3, e4][1..] == [e3, e4];
    assert Kept([e2], 2) == [] && Kept([e3, e4], 2) == [];
    assert [e1] + [] + [e3, e4] == [e1, e3, e4] && [e1] + [] + [e3] == [e1, e3];
  }

  lemma CutOffRun(e1: Entry, e2: Entry, e3: Entry, e4: Entry)
    requires CutOffEntries(e1, e2, e3, e4)
    ensures RaftRun([e1, e2], [[e3, e4], [e3]]) && LogAfter([e1, e2], [[e3, e4], [e3]]) == [e1, e3]
  {
    hide Overwrite;
    CutOffLogs(e1, e2, e3, e4);
    assert [[e3, e4], [e3]][1..] == [[e3]] && [[e3]][1..] == [];
    assert RaftRun([e1, e3], []) && LogAfter([e1, e3], []) == [e1, e3];
    assert NextBatch([e1, e3, e4], [e3]);
    assert RaftRun([e1, e3, e4], [[e3]]) && LogAfter([e1, e3, e4], [[e3]]) == [e1, e3];
    assert NextBatch([e1, e2], [e3, e4]);
  }

  lemma CutOffResidue(e1: Entry, e2: Entry, e3: Entry, e4: Entry)
    requires CutOffEntries(e1, e2, e3, e4)
    ensures Stale([e1, e2], [e3, e4], e2) && Residue([e1, e2], {}, [[e3, e4], [e3]]) == {}
  {
    hide Overwrite;
    CutOffLogs(e1, e2, e3, e4);
    assert [[e3, e4], [e3]][1..] == [[e3]] && [[e3]][1..] == [];
    assert [e1, e2][1] == e2;
    var r := StepResidue([e1, e2], {}, [e3, e4]);
    assert r <= {e2};
    assert InBatch([e3], e3.pos) by { assert [e3][0].pos == e3.pos; }
    assert StepResidue([e1, e3, e4], r, [e3]) == {};
    assert Residue([e1, e3, e4], r, [[e3]]) == Residue([e1, e3], {}, []);
  }

  /** Without that a later batch can cut a stale entry off again: (3, 2) is stale after the first batch and gone after the second. */
  lemma CutOffLater(a: bytes)
    ensures var e1, e2, e3, e4 := Entry(Pos(1, 1), a), Entry(Pos(3, 2), a), Entry(Pos(2, 2), a), Entry(Pos(4, 3), a);
      var log, ess := [e1, e2], [[e3, e4], [e3]];
      && RaftRun(log, ess) && Stale(log, ess[0], e2) && RunSet(SetOf(log), ess) == SetOf(LogAfter(log, ess))
  {
    hide RaftRun, Stale, RunSet, LogAfter, Residue;
    var e1, e2, e3, e4 := Entry(Pos(1, 1), a), Entry(Pos(3, 2), a), Entry(Pos(2, 2), a), Entry(Pos(4, 3), a);
    CutOffRun(e1, e2, e3, e4);
    CutOffResidue(e1, e2, e3, e4);
    RunHolds([e1, e2], {}, [[e3, e4], [e3]]);
    assert SetOf([e1, e2]) + {} == SetOf([e1, e2]);
  }

  // ---------- In the store ----------

  /** A store holds one set of entries for a group. */
  lemma HoldsUnique(kvs: Kvs, id: uint64, gid: uint32, c: EntryCodec, s: set<Entry>, t: set<Entry>)
    requires CodecOk(c) && Holds(kvs, id, gid, c, s) && Holds(kvs, id, gid, c, t)
    ensures s == t
  {
    hide EntryKey, Prefix, SortedKvs, OnePerPos;
    forall e ensures e in s <==> e in t {
      HoldsMember(kvs, id, gid, c, s, e);
      HoldsMember(kvs, id, gid, c, t, e);
    }
  }

  lemma HoldsMember(kvs: Kvs, id: uint64, gid: uint32, c: EntryCodec, s: set<Entry>, e: Entry)
    requires CodecOk(c) && Holds(kvs, id, gid, c, s)
    ensures e in s <==> KV(EntryKey(id, gid, e.pos), c.enc(e)) in kvs
  {
    hide EntryKey, Prefix, SortedKvs, OnePerPos;
    EntryKeyPrefix(id, gid, e.pos, gid);
    if KV(EntryKey(id, gid, e.pos), c.enc(e)) in kvs {
      var f :| f in s && KV(EntryKey(id, gid, e.pos), c.enc(e)) == KV(EntryKey(id, gid, f.pos), c.enc(f));
      assert c.dec(c.enc(e)) == Some(e) && c.dec(c.enc(f)) == Some(f);
    }
  }

  /**
   In every run of `Store` with the batches of all groups interleaved, in which
   the batches of `g` follow each other in Raft order and their terms never go
   down: the store holds exactly the Raft log of `g` if and only if none of its
   batches left a stale entry.
   */
  lemma StoreRunExact(kvs: Kvs, id: uint64, g: uint32, c: EntryCodec, log: seq<Entry>, bs: seq<Batch>)
    requires CodecOk(c) && Untagged(g) && Holds(kvs, id, g, c, SetOf(log))
    requires RaftRun(log, BatchesOf(bs, g)) && TermsRise(log, BatchesOf(bs, g))
    ensures Holds(StoreAll(kvs, id, c, bs), id, g, c, SetOf(LogAfter(log, BatchesOf(bs, g)))) <==> NoStale(log, BatchesOf(bs, g))
  {
    hide StoreAll, Holds, CodecOk, Untagged, RunSet, RaftRun, TermsRise, NoStale, LogAfter, BatchesOf;
    var ess := BatchesOf(bs, g);
    var held, raft := RunSet(SetOf(log), ess), SetOf(LogAfter(log, ess));
    forall b | b in bs && b.gid == g ensures Ascending(b.es) {
      BatchOf(bs, b);
      RunAscending(log, ess, b.es);
    }
    RunRefines(kvs, id, g, c, SetOf(log), bs);
    RaftRunExact(log, ess);
    if Holds(StoreAll(kvs, id, c, bs), id, g, c, raft) {
      HoldsUnique(StoreAll(kvs, id, c, bs), id, g, c, held, raft);
    }
  }

  lemma {:induction false} RunAscending(log: seq<Entry>, ess: seq<seq<Entry>>, es: seq<Entry>)
    requires RaftRun(log, ess) && es in ess
    ensures Ascending(es)
    decreases |ess|
  {
    hide Overwrite, Follows;
    if ess[0] == es {
      if es != [] { FollowsFacts(log, es); }
    } else {
      RunAscending(Overwrite(log, ess[0]), ess[1..], es);
    }
  }
}
