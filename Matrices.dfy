/** Resource vectors and process matrices, and the facts about column sums that
    the safety check and the request path rely on. */
module Matrices {

  /** One count per resource type; the index is the resource type. */
  type Vector = seq<int>

  /** One resource vector per process; the row index is the process. */
  type Matrix = seq<Vector>

  /** Every row of m has exactly r entries. */
  predicate Rows(m: Matrix, r: nat)
  {
    forall i :: 0 <= i < |m| ==> |m[i]| == r
  }

  /** No entry of m is negative. */
  predicate NonNegative(m: Matrix)
  {
    forall i, j :: 0 <= i < |m| && 0 <= j < |m[i]| ==> m[i][j] >= 0
  }

  /** A need row fits into a work vector when no entry of it exceeds the
      matching entry of work. */
  predicate Fits(row: Vector, work: Vector)
    requires |row| == |work|
  {
    forall j :: 0 <= j < |row| ==> row[j] <= work[j]
  }

  /** No process index occurs twice in s. */
  predicate Distinct(s: seq<nat>)
  {
    forall a, b :: 0 <= a < b < |s| ==> s[a] != s[b]
  }

  /** Every index in s names one of n processes. */
  predicate Below(s: seq<nat>, n: nat)
  {
    forall a :: 0 <= a < |s| ==> s[a] < n
  }

  /** Every element of t also occurs in u. */
  predicate Within(t: seq<nat>, u: seq<nat>)
  {
    forall x :: x in t ==> x in u
  }

  /** s lists each of the processes 0..n-1 exactly once. */
  predicate IsPermutation(s: seq<nat>, n: nat)
  {
    |s| == n && Distinct(s) && Below(s, n)
  }

  /** u with its element at position idx taken out. */
  function Without(u: seq<nat>, idx: nat): (v: seq<nat>)
    requires idx < |u|
    ensures |v| == |u| - 1
    ensures forall a :: 0 <= a < |v| ==> v[a] == (if a < idx then u[a] else u[a + 1])
  {
    u[..idx] + u[idx + 1..]
  }

  /** The sum of column k over the rows of m named by s, in the order of s. */
  function RowSum(m: Matrix, r: nat, s: seq<nat>, k: nat): int
    requires Rows(m, r) && Below(s, |m|) && k < r
  {
    if s == [] then 0 else RowSum(m, r, s[..|s| - 1], k) + m[s[|s| - 1]][k]
  }

  /** The sum of column k over all rows of m: for an allocation matrix, the
      number of instances of resource k held by some process. */
  function ColumnSum(m: Matrix, r: nat, k: nat): int
    requires Rows(m, r) && k < r
  {
    if m == [] then 0 else ColumnSum(m[..|m| - 1], r, k) + m[|m| - 1][k]
  }

  lemma RowSumAppend(m: Matrix, r: nat, s: seq<nat>, x: nat, k: nat)
    requires Rows(m, r) && Below(s, |m|) && x < |m| && k < r
    ensures Below(s + [x], |m|)
    ensures RowSum(m, r, s + [x], k) == RowSum(m, r, s, k) + m[x][k]
  {
    assert (s + [x])[..|s|] == s;
  }

  /** Taking one row out of the sum lowers it by exactly that row's entry. */
  lemma {:induction false} RowSumWithout(m: Matrix, r: nat, u: seq<nat>, idx: nat, k: nat)
    requires Rows(m, r) && Below(u, |m|) && idx < |u| && k < r
    ensures Below(Without(u, idx), |m|)
    ensures RowSum(m, r, u, k) == RowSum(m, r, Without(u, idx), k) + m[u[idx]][k]
    decreases |u|
  {
    var last := |u| - 1;
    var front := u[..last];
    if idx == last {
      assert Without(u, idx) == front;
    } else {
      RowSumWithout(m, r, front, idx, k);
      assert Without(u, idx) == Without(front, idx) + [u[last]];
      RowSumAppend(m, r, Without(front, idx), u[last], k);
    }
  }

  /** Removing an element of t from u keeps the rest of a distinct t within u. */
  lemma WithinWithout(t: seq<nat>, u: seq<nat>, idx: nat)
    requires Distinct(t) && |t| > 0 && Within(t, u) && idx < |u| && u[idx] == t[|t| - 1]
    ensures Distinct(t[..|t| - 1]) && Within(t[..|t| - 1], Without(u, idx))
  {
    var front := t[..|t| - 1];
    forall y | y in front ensures y in Without(u, idx) {
      var a :| 0 <= a < |front| && front[a] == y;
      assert t[a] == y && y != t[|t| - 1];
      assert y in t;
      var b :| 0 <= b < |u| && u[b] == y;
      assert b != idx;
      if b < idx {
        assert Without(u, idx)[b] == y;
      } else {
        assert Without(u, idx)[b - 1] == y;
      }
    }
  }

  /** A sequence without repetitions that lies within u is no longer than u. */
  lemma {:induction false} DistinctWithinLength(t: seq<nat>, u: seq<nat>)
    requires Distinct(t) && Within(t, u)
    ensures |t| <= |u|
    decreases |t|
  {
    if t != [] {
      var x := t[|t| - 1];
      assert x in t;
      var idx :| 0 <= idx < |u| && u[idx] == x;
      WithinWithout(t, u, idx);
      DistinctWithinLength(t[..|t| - 1], Without(u, idx));
    }
  }

  /** The processes 0..n-1 in ascending order. */
  function Range(n: nat): (s: seq<nat>)
    ensures |s| == n && forall a :: 0 <= a < n ==> s[a] == a
  {
    seq(n, a => a)
  }

  /** Pigeonhole: a sequence of distinct indices below n has at most n entries. */
  lemma DistinctBelowLength(s: seq<nat>, n: nat)
    requires Distinct(s) && Below(s, n)
    ensures |s| <= n
  {
    forall x | x in s ensures x in Range(n) {
      assert Range(n)[x] == x;
    }
    DistinctWithinLength(s, Range(n));
  }

  /** With no negative entries, the sum over a distinct sub-collection of rows
      does not exceed the sum over a distinct collection containing it. */
  lemma {:induction false} RowSumWithin(m: Matrix, r: nat, t: seq<nat>, u: seq<nat>, k: nat)
    requires Rows(m, r) && NonNegative(m) && k < r
    requires Below(t, |m|) && Below(u, |m|) && Distinct(t) && Within(t, u)
    ensures RowSum(m, r, t, k) <= RowSum(m, r, u, k)
    decreases |u|
  {
    if t == [] {
      RowSumNonNegative(m, r, u, k);
    } else {
      var x := t[|t| - 1];
      assert x in t;
      var idx :| 0 <= idx < |u| && u[idx] == x;
      WithinWithout(t, u, idx);
      RowSumWithout(m, r, u, idx, k);
      RowSumWithin(m, r, t[..|t| - 1], Without(u, idx), k);
    }
  }

  lemma {:induction false} RowSumNonNegative(m: Matrix, r: nat, u: seq<nat>, k: nat)
    requires Rows(m, r) && NonNegative(m) && Below(u, |m|) && k < r
    ensures RowSum(m, r, u, k) >= 0
    decreases |u|
  {
    if u != [] {
      RowSumNonNegative(m, r, u[..|u| - 1], k);
    }
  }

  /** Two distinct collections of the same rows, in any order, have the same sum. */
  lemma {:induction false} RowSumReorder(m: Matrix, r: nat, t: seq<nat>, u: seq<nat>, k: nat)
    requires Rows(m, r) && k < r
    requires Below(t, |m|) && Below(u, |m|) && Distinct(t) && Within(t, u) && |t| == |u|
    ensures RowSum(m, r, t, k) == RowSum(m, r, u, k)
    decreases |u|
  {
    if t != [] {
      var x := t[|t| - 1];
      assert x in t;
      var idx :| 0 <= idx < |u| && u[idx] == x;
      WithinWithout(t, u, idx);
      RowSumWithout(m, r, u, idx, k);
      RowSumReorder(m, r, t[..|t| - 1], Without(u, idx), k);
    }
  }

  lemma {:induction false} RowSumRange(m: Matrix, r: nat, n: nat, k: nat)
    requires Rows(m, r) && k < r && n <= |m|
    ensures Below(Range(n), |m|)
    ensures RowSum(m, r, Range(n), k) == ColumnSum(m[..n], r, k)
    decreases n
  {
    if n > 0 {
      assert Range(n)[..n - 1] == Range(n - 1);
      assert m[..n][..n - 1] == m[..n - 1];
      RowSumRange(m, r, n - 1, k);
    }
  }

  /** Summing a column over the rows in any order that names every process
      exactly once gives the column's total. */
  lemma PermutationSum(m: Matrix, r: nat, s: seq<nat>, k: nat)
    requires Rows(m, r) && k < r && IsPermutation(s, |m|)
    ensures RowSum(m, r, s, k) == ColumnSum(m, r, k)
  {
    forall x | x in s ensures x in Range(|m|) {
      assert Range(|m|)[x] == x;
    }
    RowSumReorder(m, r, s, Range(|m|), k);
    RowSumRange(m, r, |m|, k);
    assert m[..|m|] == m;
  }

  /** Replacing one row changes a column total by the difference of the rows. */
  lemma {:induction false} ColumnSumUpdate(m: Matrix, r: nat, p: nat, row: Vector, k: nat)
    requires Rows(m, r) && p < |m| && |row| == r && k < r
    ensures Rows(m[p := row], r)
    ensures ColumnSum(m[p := row], r, k) == ColumnSum(m, r, k) - m[p][k] + row[k]
    decreases |m|
  {
    var last := |m| - 1;
    var m' := m[p := row];
    if p == last {
      assert m'[..last] == m[..last];
    } else {
      assert m'[..last] == m[..last][p := row];
      ColumnSumUpdate(m[..last], r, p, row, k);
    }
  }
}
