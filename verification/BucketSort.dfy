/**
 Sorting by an indexed attribute (`worker/sort.go`): rows of uids are sorted
 bucket by bucket, where the buckets are the index lists of the tokens in
 token order; offset and count are applied on the way, and the walk stops
 as soon as every row has enough.
 */
module BucketSort {
  import opened Bytes
  import opened Seqs
  import opened Codec
  import opened PostingLayers
  import PostingQueries
  import opened UidOrder
  import UidLists
  import opened TokensTables

  /**
   An attribute as the sort sees it: its token table, the two layers of every
   index list, whether a uid's value can be read, and the order of the values.
   */
  datatype Attribute = Attribute(
    table: seq<bytes>,
    layers: bytes -> (seq<Posting>, seq<Posting>),
    readable: uint64 -> bool,
    rank: uint64 -> int)

  ghost predicate AttributeOk(a: Attribute) {
    && SortedTokens(a.table) && [] !in a.table
    && (forall t {:trigger a.layers(t)} :: Sorted(a.layers(t).0) && Sorted(a.layers(t).1))
  }

  ghost function BucketView(a: Attribute, token: bytes): View {
    ViewOf(a.layers(token).0, a.layers(token).1)
  }

  // ---------- Sorting one bucket ----------

  ghost predicate Ranked(a: Attribute, s: seq<uint64>) {
    forall i, j :: 0 <= i < j < |s| ==> a.rank(s[i]) <= a.rank(s[j])
  }

  predicate AllReadable(a: Attribute, s: seq<uint64>) {
    forall i :: 0 <= i < |s| ==> a.readable(s[i])
  }

  /** The order in which a bucket comes out: by value if all values can be read, otherwise as it was. */
  ghost predicate InOrder(a: Attribute, s: seq<uint64>) {
    if AllReadable(a, s) then Ranked(a, s) else Increasing(s)
  }

  function InsertRanked(a: Attribute, u: uint64, s: seq<uint64>): seq<uint64> {
    if s == [] || a.rank(u) <= a.rank(s[0]) then [u] + s else [s[0]] + InsertRanked(a, u, s[1..])
  }

  function SortRanked(a: Attribute, s: seq<uint64>): seq<uint64> {
    if s == [] then [] else InsertRanked(a, s[0], SortRanked(a, s[1..]))
  }

  lemma {:induction false} InsertRankedKeeps(a: Attribute, u: uint64, s: seq<uint64>)
    ensures multiset(InsertRanked(a, u, s)) == multiset(s) + multiset{u}
  {
    if s != [] && a.rank(u) > a.rank(s[0]) {
      InsertRankedKeeps(a, u, s[1..]);
      assert s == [s[0]] + s[1..];
    }
  }

  lemma RankedCons(a: Attribute, u: uint64, s: seq<uint64>)
    requires Ranked(a, s) && forall w: uint64 :: w in s ==> a.rank(u) <= a.rank(w)
    ensures Ranked(a, [u] + s)
  {
  }

  lemma {:induction false} InsertRankedLaw(a: Attribute, u: uint64, s: seq<uint64>)
    requires Ranked(a, s)
    ensures Ranked(a, InsertRanked(a, u, s))
  {
    if s == [] || a.rank(u) <= a.rank(s[0]) {
      RankedCons(a, u, s);
    } else {
      InsertRankedLaw(a, u, s[1..]);
      InsertRankedKeeps(a, u, s[1..]);
      var r := InsertRanked(a, u, s[1..]);
      forall w: uint64 | w in r ensures a.rank(s[0]) <= a.rank(w) {
        assert w in multiset(r);
        assert w == u || w in s[1..];
      }
      RankedCons(a, s[0], r);
    }
  }

  lemma {:induction false} SortRankedLaw(a: Attribute, s: seq<uint64>)
    ensures Ranked(a, SortRanked(a, s)) && multiset(SortRanked(a, s)) == multiset(s)
  {
    if s != [] {
      SortRankedLaw(a, s[1..]);
      InsertRankedLaw(a, s[0], SortRanked(a, s[1..]));
      InsertRankedKeeps(a, s[0], SortRanked(a, s[1..]));
      assert s == [s[0]] + s[1..];
    }
  }

  /**
   `sortByValue`: a permutation in the order of the values, equal values in any
   order; an error while reading a value leaves the list as it is.
   */
  method SortByValue(a: Attribute, ul: seq<uint64>) returns (r: seq<uint64>)
    requires Increasing(ul)
    ensures multiset(r) == multiset(ul) && InOrder(a, r)
  {
    for i := 0 to |ul|
      invariant forall j :: 0 <= j < i ==> a.readable(ul[j])
    {
      if !a.readable(ul[i]) {
        return ul;
      }
    }
    SortRankedLaw(a, ul);
    r := SortRanked(a, ul);
    SameReadable(a, ul, r);
  }

  lemma SameReadable(a: Attribute, s: seq<uint64>, t: seq<uint64>)
    requires multiset(s) == multiset(t)
    ensures AllReadable(a, s) ==> AllReadable(a, t)
  {
    forall i | AllReadable(a, s) && 0 <= i < |t| ensures a.readable(t[i]) {
      assert t[i] in multiset(t);
      assert t[i] in s;
    }
  }

  lemma PermutationKeeps(s: seq<uint64>, t: seq<uint64>)
    requires multiset(s) == multiset(t) && Distinct(s)
    ensures |t| == |s| && Distinct(t) && forall u: uint64 :: u in t <==> u in s
  {
    forall u: uint64 ensures u in t <==> u in s { assert u in multiset(s) <==> u in multiset(t); }
    assert |multiset(s)| == |s| && |multiset(t)| == |t|;
    DistinctCount(s);
    forall i, j | 0 <= i < j < |t| ensures t[i] != t[j] {
      if t[i] == t[j] { TwiceCount(t, i, j); }
    }
  }

  lemma {:induction false} DistinctCount(s: seq<uint64>)
    requires Distinct(s)
    ensures forall u: uint64 :: multiset(s)[u] <= 1
  {
    if s != [] {
      DistinctCount(s[1..]);
      assert s == [s[0]] + s[1..];
      assert s[0] !in s[1..];
    }
  }

  lemma TwiceCount(t: seq<uint64>, i: nat, j: nat)
    requires i < j < |t| && t[i] == t[j]
    ensures multiset(t)[t[i]] >= 2
  {
    assert t == t[..i] + [t[i]] + t[i + 1..j] + [t[j]] + t[j + 1..];
  }

  // ---------- Windows ----------

  function Min(x: int, y: int): int {
    if x < y then x else y
  }

  /** `s[offset : offset + count]`, cut to the list. */
  function Window(s: seq<uint64>, offset: nat, count: nat): seq<uint64> {
    s[Min(offset, |s|)..Min(offset + count, |s|)]
  }

  /** A window element by element: from the offset on, `count` elements or as many as there are. */
  lemma WindowElements(s: seq<uint64>, offset: nat, count: nat)
    ensures var w := Window(s, offset, count);
      && (forall i :: 0 <= i < |w| ==> offset + i < |s| && w[i] == s[offset + i])
      && |w| == if offset + count <= |s| then count else if offset <= |s| then |s| - offset else 0
  {
  }

  /** A window that is not full reaches to the end of the list. */
  lemma WindowOpen(s: seq<uint64>, t: seq<uint64>, offset: nat, count: nat)
    requires offset < |s + t| && |Window(s, offset, count)| < count
    ensures
      var skip := if offset > |s| then offset - |s| else 0;
      var room := count - |Window(s, offset, count)|;
      Window(s + t, offset, count) == Window(s, offset, count) + t[skip..][..Min(room, |t| - skip)]
  {
    var skip := if offset > |s| then offset - |s| else 0;
    var taken := Min(count - |Window(s, offset, count)|, |t| - skip);
    assert t[skip..][..taken] == t[skip..skip + taken];
    if offset > |s| {
      assert Window(s, offset, count) == [];
      assert (s + t)[offset..offset + taken] == t[skip..skip + taken];
    } else {
      assert Window(s, offset, count) == s[offset..];
      assert (s + t)[offset..|s| + taken] == s[offset..] + t[..taken];
    }
  }

  /** Appending a bucket appends what its part of the window is. */
  lemma WindowAppend(s: seq<uint64>, t: seq<uint64>, offset: nat, count: nat)
    ensures |s + t| <= offset ==> Window(s + t, offset, count) == []
    ensures |s| <= offset ==> Window(s, offset, count) == []
    ensures |Window(s, offset, count)| == count ==> Window(s + t, offset, count) == Window(s, offset, count)
    ensures offset < |s + t| && |Window(s, offset, count)| < count ==>
      var skip := if offset > |s| then offset - |s| else 0;
      var room := count - |Window(s, offset, count)|;
      Window(s + t, offset, count) == Window(s, offset, count) + t[skip..][..Min(room, |t| - skip)]
  {
    if |Window(s, offset, count)| == count {
      assert Window(s + t, offset, count) == Window(s, offset, count);
    } else if offset < |s + t| {
      WindowOpen(s, t, offset, count);
    }
  }

  // ---------- One row, bucket by bucket ----------

  /** The uids of a row that are in bucket `k`. */
  ghost function BucketSet(a: Attribute, row: seq<uint64>, k: nat): set<uint64>
    requires k < |a.table|
  {
    set u | u in row && u < MAX_UINT64 && u in BucketView(a, a.table[k])
  }

  ghost predicate IsBucketRow(a: Attribute, row: seq<uint64>, k: nat, s: seq<uint64>)
    requires k < |a.table|
  {
    Distinct(s) && SetOf(s) == BucketSet(a, row, k)
  }

  /** The first `k` buckets of a row, one behind the other, each in its order. */
  ghost predicate FullUpTo(a: Attribute, row: seq<uint64>, k: nat, full: seq<uint64>)
    requires k <= |a.table|
    decreases k
  {
    if k == 0 then full == []
    else exists n ::
      0 <= n <= |full| && FullUpTo(a, row, k - 1, full[..n]) && IsBucketRow(a, row, k - 1, full[n..]) && InOrder(a, full[n..])
  }

  /** `intersectedList`: the offset still to skip and the output so far. */
  datatype Progress = Progress(offset: int, ulist: seq<uint64>)

  function NonNegative(x: int): nat {
    if x < 0 then 0 else x
  }

  function ProgressOf(full: seq<uint64>, offset: int, count: nat): Progress {
    Progress(if offset < 0 then offset else NonNegative(offset - |full|), Window(full, NonNegative(offset), count))
  }

  ghost predicate RowOk(a: Attribute, row: seq<uint64>, offset: int, count: nat, k: nat, il: Progress)
    requires k <= |a.table|
  {
    exists full :: FullUpTo(a, row, k, full) && il == ProgressOf(full, offset, count)
  }

  lemma RowStart(a: Attribute, row: seq<uint64>, offset: int, count: nat)
    ensures RowOk(a, row, offset, count, 0, Progress(offset, []))
  {
    var full: seq<uint64> := [];
    assert FullUpTo(a, row, 0, full);
    assert ProgressOf(full, offset, count) == Progress(offset, []);
  }

  /** The next bucket goes at the end. */
  lemma FullStep(a: Attribute, row: seq<uint64>, k: nat, full: seq<uint64>, s: seq<uint64>)
    requires k < |a.table| && FullUpTo(a, row, k, full) && IsBucketRow(a, row, k, s) && InOrder(a, s)
    ensures FullUpTo(a, row, k + 1, full + s)
  {
    hide IsBucketRow, InOrder;
    assert (full + s)[..|full|] == full && (full + s)[|full|..] == s;
  }

  lemma FullNothing(a: Attribute, row: seq<uint64>, full: seq<uint64>)
    requires FullUpTo(a, row, 0, full)
    ensures full == []
  {
  }

  /** Where the last bucket begins. */
  lemma FullSplit(a: Attribute, row: seq<uint64>, k: nat, full: seq<uint64>) returns (n: nat)
    requires 0 < k <= |a.table| && FullUpTo(a, row, k, full)
    ensures n <= |full| && full == full[..n] + full[n..]
    ensures FullUpTo(a, row, k - 1, full[..n]) && IsBucketRow(a, row, k - 1, full[n..]) && InOrder(a, full[n..])
  {
    hide IsBucketRow, InOrder;
    n :| 0 <= n <= |full| && FullUpTo(a, row, k - 1, full[..n]) && IsBucketRow(a, row, k - 1, full[n..]) && InOrder(a, full[n..]);
  }

  // ---------- The code's step on one row ----------

  /** What `intersectBucket` does to a row that still has room, given the bucket in value order. */
  function StepRow(il: Progress, count: nat, s: seq<uint64>): Progress
    requires |il.ulist| < count
  {
    if il.offset >= |s| then Progress(il.offset - |s|, il.ulist)
    else
      var skip := NonNegative(il.offset);
      var n := Min(count - |il.ulist|, |s| - skip);
      Progress(if il.offset > 0 then 0 else il.offset, il.ulist + s[skip..][..n])
  }

  lemma StepRowExact(full: seq<uint64>, s: seq<uint64>, offset: int, count: nat)
    requires |ProgressOf(full, offset, count).ulist| < count
    ensures StepRow(ProgressOf(full, offset, count), count, s) == ProgressOf(full + s, offset, count)
  {
    WindowAppend(full, s, NonNegative(offset), count);
  }

  lemma RowStep(a: Attribute, row: seq<uint64>, offset: int, count: nat, k: nat, il: Progress, s: seq<uint64>)
    requires k < |a.table|
    requires RowOk(a, row, offset, count, k, il) && |il.ulist| < count
    requires IsBucketRow(a, row, k, s) && InOrder(a, s)
    ensures RowOk(a, row, offset, count, k + 1, StepRow(il, count, s))
  {
    hide FullUpTo, IsBucketRow, InOrder, ProgressOf, StepRow;
    var full :| FullUpTo(a, row, k, full) && il == ProgressOf(full, offset, count);
    FullStep(a, row, k, full, s);
    StepRowExact(full, s, offset, count);
  }

  /** A bucket in its order exists for every row, whether or not the code computes it. */
  lemma BucketRow(a: Attribute, row: seq<uint64>, k: nat) returns (s: seq<uint64>)
    requires k < |a.table| && Ordered(row)
    ensures IsBucketRow(a, row, k, s) && InOrder(a, s)
  {
    var t := PickBucket(a, row, k);
    if AllReadable(a, t) {
      SortRankedLaw(a, t);
      s := SortRanked(a, t);
      PermutationKeeps(t, s);
      SameReadable(a, t, s);
    } else {
      s := t;
    }
  }

  lemma {:induction false} PickBucket(a: Attribute, row: seq<uint64>, k: nat) returns (s: seq<uint64>)
    requires k < |a.table| && Ordered(row)
    ensures IsBucketRow(a, row, k, s) && Increasing(s)
  {
    hide BucketView;
    s := [];
    if row != [] {
      var u := row[0];
      var rest := PickBucket(a, row[1..], k);
      s := rest;
      if u !in rest && u < MAX_UINT64 && u in BucketView(a, a.table[k]) {
        forall i | 0 <= i < |rest| ensures u < rest[i] {
          assert rest[i] in SetOf(rest);
          assert rest[i] in BucketSet(a, row[1..], k);
        }
        s := [u] + rest;
      }
      forall w ensures w in SetOf(s) <==> w in BucketSet(a, row, k) {
        assert w in row <==> w == u || w in row[1..];
        assert w in SetOf(rest) <==> w in BucketSet(a, row[1..], k);
      }
    }
    assert SetOf(s) == BucketSet(a, row, k);
  }

  lemma FilledExact(full: seq<uint64>, s: seq<uint64>, offset: int, count: nat)
    requires |ProgressOf(full, offset, count).ulist| >= count > 0
    ensures ProgressOf(full + s, offset, count) == ProgressOf(full, offset, count)
  {
    WindowAppend(full, s, NonNegative(offset), count);
  }

  lemma RowFilledStep(a: Attribute, row: seq<uint64>, offset: int, count: nat, k: nat, il: Progress)
    requires k < |a.table| && Ordered(row)
    requires RowOk(a, row, offset, count, k, il) && |il.ulist| >= count > 0
    ensures RowOk(a, row, offset, count, k + 1, il)
  {
    hide FullUpTo, IsBucketRow, InOrder, ProgressOf, Ordered;
    var full :| FullUpTo(a, row, k, full) && il == ProgressOf(full, offset, count);
    var s := BucketRow(a, row, k);
    FullStep(a, row, k, full, s);
    FilledExact(full, s, offset, count);
  }

  /** A full row is not changed by the buckets that are left. */
  lemma {:induction false} RowDone(a: Attribute, row: seq<uint64>, offset: int, count: nat, k: nat, il: Progress)
    requires k <= |a.table| && Ordered(row)
    requires RowOk(a, row, offset, count, k, il) && |il.ulist| >= count > 0
    ensures RowOk(a, row, offset, count, |a.table|, il)
    decreases |a.table| - k
  {
    hide RowOk, Ordered;
    if k < |a.table| {
      RowFilledStep(a, row, offset, count, k, il);
      RowDone(a, row, offset, count, k + 1, il);
    }
  }

  // ---------- When a row is full, and when reading a bucket panics ----------

  /** How many uids of the row the first `k` buckets hold. */
  ghost function ReachedCount(a: Attribute, row: seq<uint64>, k: nat): nat
    requires k <= |a.table|
  {
    if k == 0 then 0 else ReachedCount(a, row, k - 1) + |BucketSet(a, row, k - 1)|
  }

  lemma {:induction false} FullLength(a: Attribute, row: seq<uint64>, k: nat, full: seq<uint64>)
    requires k <= |a.table| && FullUpTo(a, row, k, full)
    ensures |full| == ReachedCount(a, row, k)
    decreases k
  {
    hide FullUpTo, BucketSet, InOrder;
    if k == 0 {
      FullNothing(a, row, full);
    } else {
      var n := FullSplit(a, row, k, full);
      FullLength(a, row, k - 1, full[..n]);
      DistinctSize(full[n..]);
    }
  }

  lemma RowFilledIff(a: Attribute, row: seq<uint64>, offset: int, count: nat, k: nat, il: Progress)
    requires k <= |a.table| && count > 0
    requires RowOk(a, row, offset, count, k, il)
    ensures |il.ulist| <= count
    ensures |il.ulist| == count <==> ReachedCount(a, row, k) >= NonNegative(offset) + count
  {
    hide FullUpTo, ReachedCount;
    var full :| FullUpTo(a, row, k, full) && il == ProgressOf(full, offset, count);
    FullLength(a, row, k, full);
  }

  /** Reading bucket `k` for this row runs off the end of the row: the row is not full yet, and the bucket overruns it. */
  ghost predicate Stuck(a: Attribute, row: seq<uint64>, offset: int, count: nat, k: nat)
    requires k < |a.table|
  {
    ReachedCount(a, row, k) < NonNegative(offset) + count && PostingQueries.Overruns(BucketView(a, a.table[k]), 0, Some(row))
  }

  lemma {:induction false} ReachedGrows(a: Attribute, row: seq<uint64>, k: nat, m: nat)
    requires k <= m <= |a.table|
    ensures ReachedCount(a, row, k) <= ReachedCount(a, row, m)
    decreases m
  {
    hide BucketSet;
    if k < m { ReachedGrows(a, row, k, m - 1); }
  }

  // ---------- The code ----------

  /** The bucket cut to a row; `None` is the panic in `Uids`. */
  method ReadBucket(a: Attribute, row: seq<uint64>, token: bytes, ghost k: nat) returns (r: Option<seq<uint64>>)
    requires AttributeOk(a) && Ordered(row)
    requires k < |a.table| && a.table[k] == token
    ensures r.None? <==> PostingQueries.Overruns(BucketView(a, token), 0, Some(row))
    ensures r.Some? ==> IsBucketRow(a, row, k, r.value) && Increasing(r.value)
  {
    hide PostingQueries.Overruns, ViewOf, LexLess;
    r := PostingQueries.Uids(a.layers(token).0, a.layers(token).1, 0, Some(row));
    if r.Some? {
      forall u: uint64 ensures u in r.value <==> u in BucketSet(a, row, k) { ViewPositive(a, token, u); }
      assert SetOf(r.value) == BucketSet(a, row, k);
    }
  }

  lemma ViewPositive(a: Attribute, token: bytes, u: uint64)
    requires AttributeOk(a)
    ensures u in BucketView(a, token) ==> u > 0
  {
    ViewOfAt(a.layers(token).0, a.layers(token).1, u);
  }

  lemma SortedBucket(a: Attribute, row: seq<uint64>, k: nat, s: seq<uint64>, t: seq<uint64>)
    requires k < |a.table| && IsBucketRow(a, row, k, s) && multiset(s) == multiset(t)
    ensures IsBucketRow(a, row, k, t) && |t| == |s|
  {
    PermutationKeeps(s, t);
    assert SetOf(s) == SetOf(t);
  }

  /** Applies what is left of the offset, then copies as much as still fits. */
  method AppendSlack(il: Progress, count: nat, sorted: seq<uint64>) returns (r: Progress)
    requires |il.ulist| < count && il.offset < |sorted|
    ensures r == StepRow(il, count, sorted)
  {
    var result, offset, ulist := sorted, il.offset, il.ulist;
    var n: nat := |result|;
    if offset > 0 {
      result := result[offset..n];
      offset := 0;
      n := |result|;
    }
    assert result == sorted[NonNegative(il.offset)..];
    var slack := count - |ulist|;
    if slack < n {
      n := slack;
    }
    for j := 0 to n
      invariant ulist == il.ulist + result[..j]
    {
      ulist := ulist + [result[j]];
    }
    r := Progress(offset, ulist);
  }

  lemma SameLength(a: Attribute, row: seq<uint64>, k: nat, s: seq<uint64>, t: seq<uint64>)
    requires k < |a.table| && IsBucketRow(a, row, k, s) && IsBucketRow(a, row, k, t)
    ensures |s| == |t|
  {
    DistinctSize(s);
    DistinctSize(t);
  }

  /** One row of `intersectBucket`; `None` is the panic in `Uids`. */
  method IntersectRow(a: Attribute, row: seq<uint64>, count: nat, il: Progress, token: bytes, ghost offset: int, ghost k: nat)
    returns (r: Option<Progress>)
    requires AttributeOk(a) && Ordered(row) && count > 0
    requires k < |a.table| && a.table[k] == token
    requires RowOk(a, row, offset, count, k, il)
    ensures r.None? <==> Stuck(a, row, offset, count, k)
    ensures r.Some? ==> RowOk(a, row, offset, count, k + 1, r.value)
  {
    hide RowOk, IsBucketRow, InOrder, BucketView, PostingQueries.Overruns, ReachedCount, Ordered, SortedTokens, Sorted, Increasing;
    RowFilledIff(a, row, offset, count, k, il);
    if |il.ulist| >= count {
      RowFilledStep(a, row, offset, count, k, il);
      return Some(il);
    }
    var read := ReadBucket(a, row, token, k);
    if read.None? {
      return None;
    }
    var result := read.value;
    var n := |result|;
    if il.offset >= n {
      ghost var block := BucketRow(a, row, k);
      SameLength(a, row, k, result, block);
      RowStep(a, row, offset, count, k, il, block);
      return Some(Progress(il.offset - n, il.ulist));
    }
    var sorted := SortByValue(a, result);
    SortedBucket(a, row, k, result, sorted);
    RowStep(a, row, offset, count, k, il, sorted);
    var next := AppendSlack(il, count, sorted);
    r := Some(next);
  }

  ghost predicate RowsOk(a: Attribute, rows: seq<seq<uint64>>, offset: int, count: nat, k: nat, out: seq<Progress>)
    requires k <= |a.table|
  {
    |out| == |rows| && forall i :: 0 <= i < |rows| ==> RowOk(a, rows[i], offset, count, k, out[i])
  }

  ghost predicate AnyStuck(a: Attribute, rows: seq<seq<uint64>>, offset: int, count: nat, k: nat)
    requires k < |a.table|
  {
    exists i :: 0 <= i < |rows| && Stuck(a, rows[i], offset, count, k)
  }

  /** `intersectBucket`: feeds one bucket to every row that still has room; `done` when no row has. */
  method IntersectBucket(a: Attribute, rows: seq<seq<uint64>>, count: nat, before: seq<Progress>, token: bytes,
                         ghost offset: int, ghost k: nat)
    returns (ok: bool, done: bool, out: seq<Progress>)
    requires AttributeOk(a) && UidLists.AllOrdered(rows) && count > 0
    requires k < |a.table| && a.table[k] == token
    requires RowsOk(a, rows, offset, count, k, before)
    ensures ok <==> !AnyStuck(a, rows, offset, count, k)
    ensures ok ==> RowsOk(a, rows, offset, count, k + 1, out)
    ensures ok ==> (done <==> forall i :: 0 <= i < |rows| ==> |out[i].ulist| >= count)
  {
    hide AttributeOk, RowOk, Stuck, Ordered;
    out, done := before, false;
    for i := 0 to |rows|
      invariant |out| == |rows|
      invariant forall j :: 0 <= j < i ==> RowOk(a, rows[j], offset, count, k + 1, out[j]) && !Stuck(a, rows[j], offset, count, k)
      invariant forall j :: i <= j < |rows| ==> out[j] == before[j]
    {
      var il := IntersectRow(a, rows[i], count, out[i], token, offset, k);
      if il.None? {
        return false, false, out;
      }
      out := out[i := il.value];
    }
    ok := true;
    for i := 0 to |rows|
      invariant forall j :: 0 <= j < i ==> |out[j].ulist| >= count
    {
      if |out[i].ulist| < count {
        return;
      }
    }
    done := true;
  }

  /** Some row is read past its end before it is full. */
  ghost predicate Panics(a: Attribute, rows: seq<seq<uint64>>, offset: int, count: nat) {
    exists k :: 0 <= k < |a.table| && AnyStuck(a, rows, offset, count, k)
  }

  /** The window of all buckets of the row, one behind the other. */
  ghost predicate IsWindow(a: Attribute, row: seq<uint64>, offset: int, count: nat, r: seq<uint64>) {
    exists full :: FullUpTo(a, row, |a.table|, full) && r == Window(full, NonNegative(offset), count)
  }

  lemma RowEnd(a: Attribute, row: seq<uint64>, offset: int, count: nat, il: Progress)
    requires RowOk(a, row, offset, count, |a.table|, il)
    ensures IsWindow(a, row, offset, count, il.ulist)
  {
    hide FullUpTo, Window;
  }

  lemma NoneStuckLater(a: Attribute, rows: seq<seq<uint64>>, offset: int, count: nat, k: nat, out: seq<Progress>)
    requires k <= |a.table| && count > 0 && RowsOk(a, rows, offset, count, k, out)
    requires forall i :: 0 <= i < |rows| ==> |out[i].ulist| >= count
    ensures forall m :: k <= m < |a.table| ==> !AnyStuck(a, rows, offset, count, m)
  {
    hide RowOk, ReachedCount, PostingQueries.Overruns, BucketView;
    forall m, i | k <= m < |a.table| && 0 <= i < |rows| ensures !Stuck(a, rows[i], offset, count, m) {
      RowFilledIff(a, rows[i], offset, count, k, out[i]);
      ReachedGrows(a, rows[i], k, m);
    }
  }

  /**
   `processSort`: every row comes out as the window
   `[offset, offset + count)` of its buckets one behind the other, although the
   walk stops early. `None` is the panic.
   */
  method ProcessSort(a: Attribute, table: TokensTable, rows: seq<seq<uint64>>, offset: int, count: nat)
    returns (r: Option<seq<seq<uint64>>>)
    requires AttributeOk(a) && UidLists.AllOrdered(rows) && count > 0 && table.key == a.table
    ensures r.None? <==> Panics(a, rows, offset, count)
    ensures r.Some? ==> |r.value| == |rows|
    ensures r.Some? ==> forall i :: 0 <= i < |rows| ==> IsWindow(a, rows[i], offset, count, r.value[i])
  {
    hide RowOk, AnyStuck, IsWindow, BucketView, Sorted, SortedTokens;
    var out := seq(|rows|, _ => Progress(offset, []));
    forall i | 0 <= i < |rows| ensures RowOk(a, rows[i], offset, count, 0, out[i]) {
      RowStart(a, rows[i], offset, count);
    }
    var token := table.GetFirst();
    ghost var k := 0;
    var done := false;
    while |token| > 0 && !done
      invariant k <= |a.table| && RowsOk(a, rows, offset, count, k, out)
      invariant token == if k < |a.table| then a.table[k] else []
      invariant forall m :: 0 <= m < k ==> !AnyStuck(a, rows, offset, count, m)
      invariant done ==> forall i :: 0 <= i < |rows| ==> |out[i].ulist| >= count
      decreases |a.table| - k
    {
      var ok;
      ok, done, out := IntersectBucket(a, rows, count, out, token, offset, k);
      if !ok {
        return None;
      }
      NextOf(a.table, k);
      token := table.GetNext(token);
      k := k + 1;
    }
    assert k < |a.table| ==> a.table[k] in a.table;
    if done { NoneStuckLater(a, rows, offset, count, k, out); }
    var lists: seq<seq<uint64>> := [];
    for i := 0 to |out|
      invariant |lists| == i
      invariant forall j :: 0 <= j < i ==> IsWindow(a, rows[j], offset, count, lists[j])
    {
      if done { RowDone(a, rows[i], offset, count, k, out[i]); }
      RowEnd(a, rows[i], offset, count, out[i]);
      lists := lists + [out[i].ulist];
    }
    r := Some(lists);
  }

  // ---------- When every uid comes once ----------

  /** No uid of the row is in two buckets. */
  ghost predicate OneBucket(a: Attribute, row: seq<uint64>, k: nat)
    requires k <= |a.table|
  {
    forall i, j :: 0 <= i < j < k ==> BucketSet(a, row, i) !! BucketSet(a, row, j)
  }

  lemma {:induction false} FullMembers(a: Attribute, row: seq<uint64>, k: nat, full: seq<uint64>, u: uint64)
    requires k <= |a.table| && FullUpTo(a, row, k, full)
    ensures u in full <==> exists j :: 0 <= j < k && u in BucketSet(a, row, j)
    decreases k
  {
    hide FullUpTo, BucketSet, InOrder;
    if k == 0 {
      FullNothing(a, row, full);
    } else {
      var n := FullSplit(a, row, k, full);
      FullMembers(a, row, k - 1, full[..n], u);
      assert u in full[n..] <==> u in SetOf(full[n..]);
    }
  }

  /** A sorted row lists each uid once if and only if no uid of the row is in two buckets. */
  lemma {:induction false} OnceIff(a: Attribute, row: seq<uint64>, k: nat, full: seq<uint64>)
    requires k <= |a.table| && FullUpTo(a, row, k, full)
    ensures Distinct(full) <==> OneBucket(a, row, k)
    decreases k
  {
    hide FullUpTo, BucketSet, InOrder;
    if k == 0 {
      FullNothing(a, row, full);
    } else {
      var n := FullSplit(a, row, k, full);
      var x, y := full[..n], full[n..];
      OnceIff(a, row, k - 1, x);
      forall u ensures u in x <==> exists j :: 0 <= j < k - 1 && u in BucketSet(a, row, j) { FullMembers(a, row, k - 1, x, u); }
      forall u ensures u in y <==> u in BucketSet(a, row, k - 1) { assert u in y <==> u in SetOf(y); }
      DistinctConcat(x, y);
      assert OneBucket(a, row, k) <==> OneBucket(a, row, k - 1) && forall j :: 0 <= j < k - 1 ==> BucketSet(a, row, j) !! BucketSet(a, row, k - 1);
    }
  }

  lemma DistinctConcat(x: seq<uint64>, y: seq<uint64>)
    ensures Distinct(x + y) <==> Distinct(x) && Distinct(y) && forall u :: u in x ==> u !in y
  {
    var z := x + y;
    if Distinct(z) {
      forall i, j | 0 <= i < j < |x| ensures x[i] != x[j] { assert z[i] == x[i] && z[j] == x[j]; }
      forall i, j | 0 <= i < j < |y| ensures y[i] != y[j] { assert z[|x| + i] == y[i] && z[|x| + j] == y[j]; }
      forall u | u in x ensures u !in y {
        var i :| 0 <= i < |x| && x[i] == u;
        forall j | 0 <= j < |y| ensures y[j] != u { assert z[i] == x[i] && z[|x| + j] == y[j]; }
      }
    }
    if Distinct(x) && Distinct(y) && forall u :: u in x ==> u !in y {
      forall i, j | 0 <= i < j < |z| ensures z[i] != z[j] {
        assert i < |x| ==> z[i] in x;
        assert j >= |x| ==> z[j] in y;
      }
    }
  }

  // ---------- A uid with two tokens ----------

  function TwoTokenList(t: bytes): (seq<Posting>, seq<Posting>) {
    (if t == [0x61] || t == [0x62] then [Posting(1, [], 0, [0x69, 0x64, 0x78], 0, SET)] else [], [])
  }

  /** Uid 1 is listed under the tokens "a" and "b". */
  function TwoTokens(): Attribute {
    Attribute([[0x61], [0x62]], TwoTokenList, u => true, u => u)
  }

  lemma TwoTokenView(t: bytes, u: uint64)
    ensures Sorted(TwoTokenList(t).0) && Sorted(TwoTokenList(t).1)
    ensures u in BucketView(TwoTokens(), t) <==> u == 1 && (t == [0x61] || t == [0x62])
  {
    hide ViewOf;
    var l := TwoTokenList(t).0;
    ViewOfAt(l, [], u);
    assert Holds(l, u) <==> l != [] && l[0].uid == u;
  }

  /** The sort of that one uid does not panic, and gives it twice. */
  lemma TwiceExample()
    ensures var a := TwoTokens();
      && AttributeOk(a) && !Panics(a, [[1]], 0, 2)
      && forall r :: IsWindow(a, [1], 0, 2, r) ==> r == [1, 1]
  {
    hide BucketView, TwoTokenList, ReachedCount, FullUpTo, Sorted;
    var a := TwoTokens();
    forall t ensures Sorted(a.layers(t).0) && Sorted(a.layers(t).1) { TwoTokenView(t, 0); }
    forall k: nat | k < |a.table| ensures !AnyStuck(a, [[1]], 0, 2, k) {
      forall u: uint64 ensures u in BucketView(a, a.table[k]) ==> u <= 1 { TwoTokenView(a.table[k], u); }
    }
    forall r | IsWindow(a, [1], 0, 2, r) ensures r == [1, 1] {
      var full :| FullUpTo(a, [1], 2, full) && r == Window(full, 0, 2);
      TwiceFull(full);
    }
  }

  lemma TwiceFull(full: seq<uint64>)
    requires FullUpTo(TwoTokens(), [1], 2, full)
    ensures full == [1, 1]
  {
    hide FullUpTo, BucketSet, InOrder, TwoTokenList;
    var a := TwoTokens();
    var n := FullSplit(a, [1], 2, full);
    var m := FullSplit(a, [1], 1, full[..n]);
    FullNothing(a, [1], full[..n][..m]);
    TwiceBlock(0, full[..n][m..]);
    TwiceBlock(1, full[n..]);
  }

  lemma TwiceBlock(k: nat, s: seq<uint64>)
    requires k < 2 && IsBucketRow(TwoTokens(), [1], k, s)
    ensures s == [1]
  {
    hide BucketView, TwoTokenList;
    var a := TwoTokens();
    forall u: uint64 ensures u in BucketSet(a, [1], k) <==> u == 1 { TwoTokenView(a.table[k], u); }
    assert 1 in SetOf(s);
    DistinctSize(s);
    assert SetOf(s) == {1};
  }
}
