/** Pagination of a uid matrix (`query/query.go`). */
module Pagination {
  import opened Bytes
  import opened UidOrder
  import opened UidLists
  import opened IntersectLists

  /** Go's remainder, which truncates towards zero. */
  function GoRemainder(a: int, n: int): int
    requires n > 0
  {
    if a >= 0 then a % n else -((-a) % n)
  }

  /** `pageRange`; `None` is the division by zero of a negative count on an empty list. */
  function PageRange(offset: int, count: int, n: nat): Option<(int, int)> {
    if count == 0 && offset == 0 then Some((0, n))
    else if count < 0 then
      if n == 0 then None else Some((GoRemainder(GoRemainder(n + count, n) + n, n), n))
    else
      var start := if offset < 0 then 0 else offset;
      if count == 0 then Some((start, n)) else Some((start, if start + count > n then n else start + count))
  }

  /** The bounds can be used for slicing a list of length `n`. */
  predicate Sliceable(range: Option<(int, int)>, n: nat) {
    range.Some? && 0 <= range.value.0 <= range.value.1 <= n
  }

  /** Paging panics exactly on a negative count with an empty list, or an offset beyond the end without a negative count. */
  lemma SliceableIff(offset: int, count: int, n: nat)
    ensures Sliceable(PageRange(offset, count, n), n) <==> if count < 0 then n > 0 else offset <= n
  {
    if count < 0 && n > 0 { BackStart(count, n); }
  }

  /** What the parameters ask for: the last `-count` elements, or `count` (all, if zero) elements after `offset`. */
  function Page<T>(s: seq<T>, offset: int, count: int): seq<T> {
    if count < 0 then s[if -count > |s| then 0 else |s| + count..]
    else
      var start := if offset < 0 then 0 else if offset > |s| then |s| else offset;
      s[start..if count == 0 || start + count > |s| then |s| else start + count]
  }

  function Slice<T>(s: seq<T>, offset: int, count: int): seq<T>
    requires Sliceable(PageRange(offset, count, |s|), |s|)
  {
    var range := PageRange(offset, count, |s|).value;
    s[range.0..range.1]
  }

  /** A page element by element: from the offset on, or counted from the end. */
  lemma PageElements<T>(s: seq<T>, offset: int, count: int)
    ensures count < 0 ==> var p := Page(s, offset, count);
      |p| == (if -count < |s| then -count else |s|) && forall i :: 0 <= i < |p| ==> p[i] == s[|s| - |p| + i]
    ensures count >= 0 && 0 <= offset ==> var p := Page(s, offset, count);
      && (forall i :: 0 <= i < |p| ==> offset + i < |s| && p[i] == s[offset + i])
      && (|p| == count > 0 || |p| == (if offset < |s| then |s| - offset else 0)) && (count > 0 ==> |p| <= count)
    ensures count >= 0 && offset < 0 ==> Page(s, offset, count) == Page(s, 0, count)
  {
  }

  /** For `0 <= g < n`, adding `n` does not change the remainder. */
  lemma SmallRemainder(g: int, n: int)
    requires 0 <= g < n
    ensures (g + n) % n == g
  {
    RemainderUnique(g + n, n, 1, g);
  }

  lemma DivRemainder(b: int, n: int)
    requires n > 0
    ensures b == (b / n) * n + b % n && 0 <= b % n < n
  {
  }

  lemma MultipleApart(d: int, n: int)
    requires n > 0
    ensures d > 0 ==> d * n >= n
    ensures d < 0 ==> d * n <= -n
  {
  }

  lemma RemainderUnique(a: int, n: int, q: int, r: int)
    requires n > 0 && 0 <= r < n && a == q * n + r
    ensures a % n == r
  {
    DivRemainder(a, n);
    MultipleApart(a / n - q, n);
    assert (a / n) * n - q * n == (a / n - q) * n;
  }

  lemma BackQuotient(count: int, n: int, q: int, m: int)
    requires n > 0 && 0 <= m < n && -(n + count) == q * n + m
    ensures count % n == if m == 0 then 0 else n - m
  {
    assert (-q - 1) * n == -(q * n) - n;
    assert (-q - 2) * n == -(q * n) - 2 * n;
    if m == 0 { RemainderUnique(count, n, -q - 1, 0); } else { RemainderUnique(count, n, -q - 2, n - m); }
  }

  /** The start for a negative count is `count` modulo `n`. */
  lemma BackStart(count: int, n: int)
    requires count < 0 < n
    ensures GoRemainder(GoRemainder(n + count, n) + n, n) == count % n
  {
    if n + count >= 0 {
      RemainderUnique(n + count, n, 0, n + count);
      RemainderUnique(count, n, -1, n + count);
      SmallRemainder(n + count, n);
    } else {
      var b := -(n + count);
      DivRemainder(b, n);
      BackQuotient(count, n, b / n, b % n);
      if b % n == 0 { SmallRemainder(0, n); } else { RemainderUnique(n - b % n, n, 0, n - b % n); }
    }
  }

  /** The list is long enough for the count, or its length divides the count. */
  predicate Fits(count: int, n: nat) {
    -count <= n || (n > 0 && count % n == 0)
  }

  /**
   The slice is the page asked for, except that a negative count larger than
   the list wraps around: then it is right only when the length divides the count.
   */
  lemma SliceIsPageIff<T>(s: seq<T>, offset: int, count: int)
    requires Sliceable(PageRange(offset, count, |s|), |s|)
    ensures Slice(s, offset, count) == Page(s, offset, count) <==> Fits(count, |s|)
  {
    if count < 0 {
      BackStart(count, |s|);
      var start := count % |s|;
      if -count <= |s| {
        if -count == |s| { RemainderUnique(count, |s|, -1, 0); } else { RemainderUnique(count, |s|, -1, |s| + count); }
      } else {
        assert Page(s, offset, count) == s;
        assert |Slice(s, offset, count)| == |s| - start;
        if start == 0 { assert Slice(s, offset, count) == s; }
      }
    }
  }

  /** Asking for the last four of three gives one. */
  lemma WrapExample<T>(x: T, y: T, z: T)
    ensures Slice([x, y, z], 0, -4) == [z] && Page([x, y, z], 0, -4) == [x, y, z]
  {
  }

  // ---------- applyPagination ----------

  ghost predicate PagePanics(matrix: seq<seq<uint64>>, dest: seq<uint64>, offset: int, count: int) {
    exists i :: 0 <= i < |matrix| && RowPanics(matrix[i], dest, offset, count)
  }

  predicate RowPanics(row: seq<uint64>, dest: seq<uint64>, offset: int, count: int) {
    var n := |Common(row, dest)|;
    if count < 0 then n == 0 else offset > n
  }

  /** A row after paging: cut to the destination uids, then sliced. */
  ghost predicate RowPaged(row: seq<uint64>, dest: seq<uint64>, offset: int, count: int, r: seq<uint64>) {
    var cut := Common(row, dest);
    && Ordered(r)
    && (Fits(count, |cut|) ==> r == Page(cut, offset, count))
    && (count < 0 && |cut| > 0 ==> r == cut[count % |cut|..])
  }

  lemma SlicedRow(row: seq<uint64>, dest: seq<uint64>, offset: int, count: int)
    requires Ordered(row) && !RowPanics(row, dest, offset, count)
    ensures Sliceable(PageRange(offset, count, |Common(row, dest)|), |Common(row, dest)|)
    ensures RowPaged(row, dest, offset, count, Slice(Common(row, dest), offset, count))
  {
    hide GoRemainder, Page, Fits, Common;
    var cut := Common(row, dest);
    CommonOrdered(row, dest);
    SliceableIff(offset, count, |cut|);
    SliceIsPageIff(cut, offset, count);
    if count < 0 { BackStart(count, |cut|); }
  }

  /** Only common uids, and all of them when neither offset nor count cut any off. */
  lemma SlicedMembers(row: seq<uint64>, dest: seq<uint64>, offset: int, count: int)
    requires Sliceable(PageRange(offset, count, |Common(row, dest)|), |Common(row, dest)|)
    ensures var r := Slice(Common(row, dest), offset, count);
      && (forall u: uint64 :: u in r ==> u in row && u in dest)
      && (offset <= 0 <= count && (count == 0 || |r| < count) ==> forall u: uint64 :: u in row && u in dest ==> u in r)
  {
    hide Common, GoRemainder;
    var cut := Common(row, dest);
    CommonLaw(row, dest);
    if offset <= 0 <= count && (count == 0 || |Slice(cut, offset, count)| < count) {
      assert Slice(cut, offset, count) == cut;
    }
  }

  /** One row of `applyPagination`: intersects in place, then slices. */
  method PageRow(row: seq<uint64>, dest: seq<uint64>, offset: int, count: int) returns (r: Option<seq<uint64>>)
    requires Ordered(row) && Ordered(dest)
    ensures r.None? <==> RowPanics(row, dest, offset, count)
    ensures r.Some? ==> RowPaged(row, dest, offset, count, r.value)
    ensures r.Some? ==> forall u: uint64 :: u in r.value ==> u in row && u in dest
    ensures r.Some? && offset <= 0 <= count && (count == 0 || |r.value| < count) ==>
              forall u: uint64 :: u in row && u in dest ==> u in r.value
  {
    hide RowPaged, GoRemainder, Common, Ordered;
    var l := new uint64[|row|](i requires 0 <= i < |row| => row[i]);
    assert l[..] == row;
    var n := IntersectWith(l, dest);
    SliceableIff(offset, count, n);
    var range := PageRange(offset, count, n);
    if !Sliceable(range, n) {
      return None;
    }
    SlicedRow(row, dest, offset, count);
    SlicedMembers(row, dest, offset, count);
    assert l[..n][range.value.0..range.value.1] == l[range.value.0..range.value.1];
    r := Some(l[range.value.0..range.value.1]);
  }

  /**
   `applyPagination`: pages every row and merges the rows into the new
   destination list. `None` is the failed assertion that there is one row per
   source uid, or a panic in one of the rows.
   */
  method ApplyPagination(src: seq<uint64>, matrix: seq<seq<uint64>>, dest: seq<uint64>, offset: int, count: int)
    returns (r: Option<(seq<seq<uint64>>, seq<uint64>)>)
    requires AllOrdered(matrix) && Ordered(dest)
    ensures count == 0 && offset == 0 ==> r == Some((matrix, dest))
    ensures r.None? <==> (count != 0 || offset != 0) && (|src| != |matrix| || PagePanics(matrix, dest, offset, count))
    ensures r.Some? ==> |r.value.0| == |matrix|
    ensures r.Some? && (count != 0 || offset != 0) ==> forall i :: 0 <= i < |matrix| ==> RowPaged(matrix[i], dest, offset, count, r.value.0[i])
    ensures r.Some? && (count != 0 || offset != 0) ==> Increasing(r.value.1) && forall u: uint64 :: u in r.value.1 <==> InSome(r.value.0, u)
  {
    if count == 0 && offset == 0 {
      return Some((matrix, dest));
    }
    if |src| != |matrix| {
      return None;
    }
    var rows: seq<seq<uint64>> := [];
    for i := 0 to |matrix|
      invariant |rows| == i
      invariant forall j :: 0 <= j < i ==> RowPaged(matrix[j], dest, offset, count, rows[j]) && !RowPanics(matrix[j], dest, offset, count)
    {
      var row := PageRow(matrix[i], dest, offset, count);
      if row.None? {
        return None;
      }
      rows := rows + [row.value];
    }
    assert AllOrdered(rows);
    var merged := MergeSorted(rows);
    r := Some((rows, merged));
  }
}
