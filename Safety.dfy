/** The Banker's safety check: a greedy fixed-point search for an order in
    which every process can obtain its remaining need, finish, and hand back
    what it holds. */
module Safety {
  import opened Matrices
  import NeedMatrix

  /** Outcome of a safety check: the finishing order found, or none. */
  datatype SafetyResult = Safe(order: seq<nat>) | Unsafe

  /** available has R entries; allocation and need both have one row of R
      entries per process. */
  predicate Shaped(available: Vector, allocation: Matrix, need: Matrix)
  {
    |need| == |allocation| && Rows(allocation, |available|) && Rows(need, |available|)
  }

  /** The work vector once the processes in order have finished: available
      plus everything those processes held. */
  function Work(available: Vector, allocation: Matrix, order: seq<nat>): (work: Vector)
    requires Rows(allocation, |available|) && Below(order, |allocation|)
    ensures |work| == |available|
  {
    seq(|available|, k requires 0 <= k < |available| =>
      available[k] + RowSum(allocation, |available|, order, k))
  }

  /** order names distinct processes, and each of them, when its turn came,
      needed no more than the work left by those before it. */
  predicate GrantOrder(available: Vector, allocation: Matrix, need: Matrix, order: seq<nat>)
    requires Shaped(available, allocation, need)
  {
    Distinct(order) && Below(order, |need|) &&
    forall a :: 0 <= a < |order| ==>
      Below(order[..a], |need|) &&
      Fits(need[order[a]], Work(available, allocation, order[..a]))
  }

  /** A safe sequence: a grant order in which every process finishes. */
  predicate IsSafeSequence(available: Vector, allocation: Matrix, need: Matrix, s: seq<nat>)
    requires Shaped(available, allocation, need)
  {
    GrantOrder(available, allocation, need, s) && |s| == |need|
  }

  /** Finishing one more process adds exactly its allocation row to work. */
  lemma WorkAppend(available: Vector, allocation: Matrix, order: seq<nat>, i: nat)
    requires Rows(allocation, |available|) && Below(order, |allocation|) && i < |allocation|
    ensures Below(order + [i], |allocation|)
    ensures forall k :: 0 <= k < |available| ==>
              Work(available, allocation, order + [i])[k] ==
              Work(available, allocation, order)[k] + allocation[i][k]
  {
    forall k | 0 <= k < |available|
      ensures Work(available, allocation, order + [i])[k] ==
              Work(available, allocation, order)[k] + allocation[i][k]
    {
      RowSumAppend(allocation, |available|, order, i, k);
    }
  }

  /** An unfinished process that fits into the current work extends a grant order. */
  lemma GrantOrderAppend(available: Vector, allocation: Matrix, need: Matrix, order: seq<nat>, i: nat)
    requires Shaped(available, allocation, need) && Below(order, |need|) && i < |need|
    requires i !in order && Fits(need[i], Work(available, allocation, order))
    ensures GrantOrder(available, allocation, need, order) ==>
            GrantOrder(available, allocation, need, order + [i])
  {
    var next := order + [i];
    assert next[..|order|] == order;
    forall a | 0 <= a < |order| ensures next[..a] == order[..a] {
    }
  }

  /** One pass of the search: scan processes i, i+1, ... in ascending order,
      granting each unfinished process whose need fits into the current work. */
  function Scan(available: Vector, allocation: Matrix, need: Matrix, order: seq<nat>, i: nat): (next: seq<nat>)
    requires Shaped(available, allocation, need) && Below(order, |need|) && i <= |need|
    ensures Below(next, |need|)
    ensures |order| <= |next| && next[..|order|] == order
    decreases |need| - i
  {
    if i == |need| then order
    else if i !in order && Fits(need[i], Work(available, allocation, order)) then
      var next := Scan(available, allocation, need, order + [i], i + 1);
      assert next[..|order|] == next[..|order| + 1][..|order|];
      next
    else
      Scan(available, allocation, need, order, i + 1)
  }

  /** A pass only ever extends a grant order: every process it appends fits
      into the work left by those before it. */
  lemma {:induction false} ScanGrantOrder(available: Vector, allocation: Matrix, need: Matrix, order: seq<nat>, i: nat)
    requires Shaped(available, allocation, need) && i <= |need|
    requires GrantOrder(available, allocation, need, order)
    ensures GrantOrder(available, allocation, need, Scan(available, allocation, need, order, i))
    decreases |need| - i
  {
    if i < |need| {
      if i !in order && Fits(need[i], Work(available, allocation, order)) {
        GrantOrderAppend(available, allocation, need, order, i);
        ScanGrantOrder(available, allocation, need, order + [i], i + 1);
      } else {
        ScanGrantOrder(available, allocation, need, order, i + 1);
      }
    }
  }

  /** Scan takes one step: it either grants process i or passes it by. */
  lemma ScanStep(available: Vector, allocation: Matrix, need: Matrix, order: seq<nat>, i: nat)
    requires Shaped(available, allocation, need) && Below(order, |need|) && i < |need|
    ensures Scan(available, allocation, need, order, i) ==
            if i !in order && Fits(need[i], Work(available, allocation, order))
            then Scan(available, allocation, need, order + [i], i + 1)
            else Scan(available, allocation, need, order, i + 1)
  {
  }

  /** A pass that grants nothing leaves every unfinished process from i on
      needing more than the current work. */
  lemma {:induction false} ScanStuck(available: Vector, allocation: Matrix, need: Matrix, order: seq<nat>, i: nat)
    requires Shaped(available, allocation, need) && Below(order, |need|) && i <= |need|
    requires |Scan(available, allocation, need, order, i)| == |order|
    ensures forall j :: i <= j < |need| && j !in order ==>
              !Fits(need[j], Work(available, allocation, order))
    decreases |need| - i
  {
    if i < |need| {
      if i !in order && Fits(need[i], Work(available, allocation, order)) {
        assert false;
      }
      ScanStuck(available, allocation, need, order, i + 1);
    }
  }

  /** When every unfinished process needs more than the work on hand, no safe
      sequence exists at all, provided no allocation entry is negative: any
      candidate sequence, at its first process not yet finished, would offer
      that process no more work than is on hand now. */
  lemma StuckUnsafe(available: Vector, allocation: Matrix, need: Matrix, done: seq<nat>)
    requires Shaped(available, allocation, need)
    requires Distinct(done) && Below(done, |need|) && |done| < |need|
    requires forall j :: 0 <= j < |need| && j !in done ==>
               !Fits(need[j], Work(available, allocation, done))
    ensures NonNegative(allocation) ==>
            forall s :: !IsSafeSequence(available, allocation, need, s)
  {
    if NonNegative(allocation) {
      forall s ensures !IsSafeSequence(available, allocation, need, s) {
        if IsSafeSequence(available, allocation, need, s) {
          var k := 0;
          while k < |s| && s[k] in done
            invariant 0 <= k <= |s|
            invariant forall a :: 0 <= a < k ==> s[a] in done
          {
            k := k + 1;
          }
          if k == |s| {
            DistinctWithinLength(s, done);
            assert false;
          }
          var before := s[..k];
          assert Within(before, done);
          assert Fits(need[s[k]], Work(available, allocation, before));
          forall j | 0 <= j < |available|
            ensures Work(available, allocation, before)[j] <= Work(available, allocation, done)[j]
          {
            RowSumWithin(allocation, |available|, before, done, j);
          }
          assert false;
        }
      }
    }
  }

  /** The outer loop of the search, from the processes already finished in
      order: stop with Safe once every process has finished, with Unsafe after
      a pass that grants nothing. */
  function Passes(available: Vector, allocation: Matrix, need: Matrix, order: seq<nat>): (r: SafetyResult)
    requires Shaped(available, allocation, need) && GrantOrder(available, allocation, need, order)
    ensures r.Safe? ==> IsSafeSequence(available, allocation, need, r.order) &&
                        |order| <= |r.order| && r.order[..|order|] == order
    ensures r.Unsafe? && NonNegative(allocation) ==>
              forall s :: !IsSafeSequence(available, allocation, need, s)
    decreases |need| - |order|
  {
    if |order| >= |need| then
      DistinctBelowLength(order, |need|);
      Safe(order)
    else
      var next := Scan(available, allocation, need, order, 0);
      ScanGrantOrder(available, allocation, need, order, 0);
      if |next| == |order| then
        ScanStuck(available, allocation, need, order, 0);
        StuckUnsafe(available, allocation, need, order);
        Unsafe
      else
        var r := Passes(available, allocation, need, next);
        assert r.Safe? ==> r.order[..|order|] == r.order[..|next|][..|order|];
        r
  }

  /** The verdict of the safety check on a state, with the exact finishing
      order it reports. */
  function Analyze(available: Vector, allocation: Matrix, need: Matrix): (r: SafetyResult)
    requires Shaped(available, allocation, need)
    ensures r.Safe? ==> IsSafeSequence(available, allocation, need, r.order)
    ensures r.Unsafe? && NonNegative(allocation) ==>
              forall s :: !IsSafeSequence(available, allocation, need, s)
    ensures |need| == 0 ==> r == Safe([])
  {
    Passes(available, allocation, need, [])
  }

  /** When every process has finished, work holds everything that was
      available plus everything any process held. */
  lemma FinalWork(available: Vector, allocation: Matrix, need: Matrix, s: seq<nat>, k: nat)
    requires Shaped(available, allocation, need) && k < |available|
    requires IsSafeSequence(available, allocation, need, s)
    ensures Work(available, allocation, s)[k] ==
            available[k] + ColumnSum(allocation, |available|, k)
  {
    PermutationSum(allocation, |available|, s, k);
  }

  /** With no negative allocation, the check answers Safe exactly when some
      safe sequence exists. */
  lemma SafeIffSafeSequenceExists(available: Vector, allocation: Matrix, need: Matrix)
    requires Shaped(available, allocation, need) && NonNegative(allocation)
    ensures Analyze(available, allocation, need).Safe? <==>
            exists s :: IsSafeSequence(available, allocation, need, s)
  {
    var r := Analyze(available, allocation, need);
    if r.Safe? {
      assert IsSafeSequence(available, allocation, need, r.order);
    }
  }

  /** Whether need row fits into work, checked entry by entry and stopping at
      the first entry that exceeds work. */
  method RowFits(row: Vector, work: array<int>) returns (fits: bool)
    requires |row| == work.Length
    ensures fits == Fits(row, work[..])
  {
    var j := 0;
    while j < work.Length
      invariant 0 <= j <= work.Length
      invariant forall j' :: 0 <= j' < j ==> row[j'] <= work[j']
    {
      if row[j] > work[j] {
        break;
      }
      j := j + 1;
    }
    fits := j == work.Length;
  }

  /** A finishing process hands back its allocation row: work grows by it in place. */
  method Release(work: array<int>, row: Vector)
    requires |row| == work.Length
    modifies work
    ensures forall k :: 0 <= k < work.Length ==> work[k] == old(work[k]) + row[k]
  {
    var k := 0;
    while k < work.Length
      invariant 0 <= k <= work.Length
      invariant forall k' :: 0 <= k' < k ==> work[k'] == old(work[k']) + row[k']
      invariant forall k' :: k <= k' < work.Length ==> work[k'] == old(work[k'])
    {
      work[k] := work[k] + row[k];
      k := k + 1;
    }
  }

  /** One outer pass of the safety loop: processes 0..P-1 in ascending order;
      each unfinished one whose need row fits into work releases its
      allocation into work, is marked finished and is appended to the order,
      so later indices of the same pass see the larger work. found tells
      whether the pass finished anybody. */
  method Pass(available: Vector, allocation: Matrix, need: Matrix,
              work: array<int>, finish: array<bool>, order: seq<nat>, count: nat)
    returns (next: seq<nat>, newCount: nat, found: bool)
    requires Shaped(available, allocation, need) && Below(order, |need|)
    requires count == |order|
    requires work.Length == |available| && forall k :: 0 <= k < |available| ==> work[k] == Work(available, allocation, order)[k]
    requires finish.Length == |need| && forall p :: 0 <= p < |need| ==> (finish[p] <==> p in order)
    modifies work, finish
    ensures next == Scan(available, allocation, need, order, 0) && newCount == |next|
    ensures found <==> |next| > |order|
    ensures forall k :: 0 <= k < |available| ==> work[k] == Work(available, allocation, next)[k]
    ensures forall p :: 0 <= p < |need| ==> (finish[p] <==> p in next)
  {
    next, newCount, found := order, count, false;
    var i := 0;
    while i < |need|
      invariant 0 <= i <= |need| && newCount == |next|
      invariant Below(next, |need|)
      invariant forall k :: 0 <= k < |available| ==> work[k] == Work(available, allocation, next)[k]
      invariant forall p :: 0 <= p < |need| ==> (finish[p] <==> p in next)
      invariant Scan(available, allocation, need, next, i) == Scan(available, allocation, need, order, 0)
      invariant if found then |next| > |order| else next == order
    {
      ghost var current := Work(available, allocation, next);
      assert work[..] == current;
      var fits := false;
      if !finish[i] {
        fits := RowFits(need[i], work);
      }
      assert fits == (i !in next && Fits(need[i], current));
      ScanStep(available, allocation, need, next, i);
      if fits {
        Release(work, allocation[i]);
        WorkAppend(available, allocation, next, i);
        next := next + [i];
        finish[i] := true;
        newCount := newCount + 1;
        found := true;
      }
      i := i + 1;
    }
  }

  /** The safety loop: work starts as a copy of available and finish as all
      false; outer passes run while some process is unfinished, and a pass
      that finishes nobody ends the check as Unsafe. passes counts the outer
      passes run. */
  method SafetyCheck(available: Vector, allocation: Matrix, need: Matrix)
    returns (r: SafetyResult, ghost passes: nat)
    requires Shaped(available, allocation, need)
    ensures r == Analyze(available, allocation, need)
    ensures passes <= |need|
  {
    var work := new int[|available|](k requires 0 <= k < |available| => available[k]);
    var finish := new bool[|need|](_ => false);
    var order: seq<nat> := [];
    var count := 0;
    passes := 0;
    while count < |need|
      invariant fresh(work) && fresh(finish)
      invariant count == |order| <= |need| && passes <= count
      invariant GrantOrder(available, allocation, need, order)
      invariant work.Length == |available|
      invariant forall k :: 0 <= k < |available| ==> work[k] == Work(available, allocation, order)[k]
      invariant finish.Length == |need|
      invariant forall p :: 0 <= p < |need| ==> (finish[p] <==> p in order)
      invariant Passes(available, allocation, need, order) == Analyze(available, allocation, need)
      decreases |need| - count
    {
      var found;
      ScanGrantOrder(available, allocation, need, order, 0);
      order, count, found := Pass(available, allocation, need, work, finish, order, count);
      passes := passes + 1;
      if !found {
        r := Unsafe;
        return;
      }
      DistinctBelowLength(order, |need|);
    }
    r := Safe(order);
  }

  /** The direct safety check as the handler is written: it derives the new
      need from max and allocation and hands it back to be stored, but the
      loop runs against the need matrix held before the call, which may be
      stale. On Unsafe the reported sequence is cleared. */
  method CalculateSafeSequence(available: Vector, allocation: Matrix, max: Matrix, need: Matrix)
    returns (isSafe: bool, sequence: seq<nat>, newNeed: Matrix)
    requires Shaped(available, allocation, need) && NeedMatrix.SameShape(allocation, max)
    ensures newNeed == NeedMatrix.CalculateNeedMatrix(allocation, max)
    ensures isSafe <==> Analyze(available, allocation, need).Safe?
    ensures isSafe ==> sequence == Analyze(available, allocation, need).order &&
                       IsSafeSequence(available, allocation, need, sequence)
    ensures !isSafe ==> sequence == []
  {
    newNeed := NeedMatrix.CalculateNeedMatrix(allocation, max);
    var r, _ := SafetyCheck(available, allocation, need);
    if r.Safe? {
      isSafe, sequence := true, r.order;
    } else {
      isSafe, sequence := false, [];
    }
  }
}
