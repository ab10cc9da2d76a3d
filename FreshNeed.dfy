/** The direct safety check reads the need matrix held before the check
    started, not the one it has just recomputed from max and allocation.
    This module shows an input on which the two differ, and the check with
    the need derived immediately before the loop reads it. */
module FreshNeed {
  import opened Matrices
  import opened Safety
  import NeedMatrix

  /** A single process that needs nothing more finishes at once. */
  lemma ZeroNeedIsSafe()
    ensures Shaped([0], [[0]], [[0]])
    ensures Analyze([0], [[0]], [[0]]) == Safe([0])
  {
    assert Work([0], [[0]], []) == [0];
    calc {
      Scan([0], [[0]], [[0]], [], 0);
    == { assert Fits([0], [0]); ScanStep([0], [[0]], [[0]], [], 0); assert [] + [0] == [0]; }
      Scan([0], [[0]], [[0]], [0], 1);
    ==
      [0];
    }
    ScanGrantOrder([0], [[0]], [[0]], [], 0);
  }

  /** A single process that needs one instance when none is available never
      finishes. */
  lemma UnitNeedIsUnsafe()
    ensures Shaped([0], [[0]], [[1]])
    ensures Analyze([0], [[0]], [[1]]) == Unsafe
  {
    assert Work([0], [[0]], []) == [0];
    assert !Fits([1], [0]) by {
      assert [1][0] > [0][0];
    }
    ScanStep([0], [[0]], [[1]], [], 0);
    assert Scan([0], [[0]], [[1]], [], 0) == Scan([0], [[0]], [[1]], [], 1) == [];
  }

  /** After the matrices are sized, need is all zeros. One process holds
      nothing of a single resource, none is available, and its maximum is
      then set to one. The loop still reads the zero need and reports the
      state safe; against the need derived from max, the process can never
      obtain its one instance and the state is unsafe. */
  lemma StaleNeedCounterexample()
    ensures NeedMatrix.CalculateNeedMatrix([[0]], [[1]]) == [[1]]
    ensures Analyze([0], [[0]], [[0]]) == Safe([0])
    ensures Analyze([0], [[0]], [[1]]) == Unsafe
  {
    var derived := NeedMatrix.CalculateNeedMatrix([[0]], [[1]]);
    assert derived[0] == [1];
    ZeroNeedIsSafe();
    UnitNeedIsUnsafe();
  }

  /** The direct check as evidently intended: need is derived from max and
      allocation immediately before the safety loop reads it. The verdict and
      the reported order are those of the check on the derived need, so a
      Safe verdict certifies a safe sequence for the declared maxima, and with
      no negative allocation an Unsafe verdict means none exists. */
  method CalculateSafeSequenceFresh(available: Vector, allocation: Matrix, max: Matrix)
    returns (isSafe: bool, sequence: seq<nat>, newNeed: Matrix)
    requires Rows(allocation, |available|) && NeedMatrix.SameShape(allocation, max)
    ensures newNeed == NeedMatrix.CalculateNeedMatrix(allocation, max)
    ensures Shaped(available, allocation, newNeed)
    ensures isSafe <==> Analyze(available, allocation, newNeed).Safe?
    ensures isSafe ==> sequence == Analyze(available, allocation, newNeed).order &&
                       IsSafeSequence(available, allocation, newNeed, sequence)
    ensures !isSafe ==> sequence == [] &&
                        (NonNegative(allocation) ==>
                           forall s :: !IsSafeSequence(available, allocation, newNeed, s))
  {
    newNeed := NeedMatrix.CalculateNeedMatrix(allocation, max);
    var r, _ := SafetyCheck(available, allocation, newNeed);
    if r.Safe? {
      isSafe, sequence := true, r.order;
    } else {
      isSafe, sequence := false, [];
    }
  }
}
