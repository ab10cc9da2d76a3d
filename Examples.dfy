/** The classic five-process, three-resource instance, worked through the model. */
module Examples {
  import opened Matrices
  import opened Safety
  import NeedMatrix

  const Available: Vector := [3, 3, 2]
  const Allocation: Matrix := [[0, 1, 0], [2, 0, 0], [3, 0, 2], [2, 1, 1], [0, 0, 2]]
  const Max: Matrix := [[7, 5, 3], [3, 2, 2], [9, 0, 2], [2, 2, 2], [4, 3, 3]]
  const Need: Matrix := [[7, 4, 3], [1, 2, 2], [6, 0, 0], [0, 1, 1], [4, 3, 1]]

  /** Need derivation on the instance gives the familiar need matrix. */
  lemma TextbookNeed()
    ensures NeedMatrix.SameShape(Allocation, Max)
    ensures NeedMatrix.CalculateNeedMatrix(Allocation, Max) == Need
  {
    var derived := NeedMatrix.CalculateNeedMatrix(Allocation, Max);
    forall i | 0 <= i < 5 ensures derived[i] == Need[i] {
    }
  }

  /** The work on hand after some of the instance's processes have finished. */
  lemma TextbookWork()
    ensures Shaped(Available, Allocation, Need)
    ensures Work(Available, Allocation, []) == [3, 3, 2]
    ensures Work(Available, Allocation, [1]) == [5, 3, 2]
    ensures Work(Available, Allocation, [1, 3]) == [7, 4, 3]
    ensures Work(Available, Allocation, [1, 3, 4]) == [7, 4, 5]
    ensures Work(Available, Allocation, [1, 3, 4, 0]) == [7, 5, 5]
  {
    assert [1, 3][..1] == [1];
    assert [1, 3, 4][..2] == [1, 3];
    assert [1, 3, 4, 0][..3] == [1, 3, 4];
  }

  /** The first pass finishes processes 1, 3 and 4, in that order; 0 and 2
      must wait. */
  lemma TextbookFirstPass()
    ensures Shaped(Available, Allocation, Need)
    ensures Scan(Available, Allocation, Need, [], 0) == [1, 3, 4]
  {
    TextbookWork();
    calc {
      Scan(Available, Allocation, Need, [], 0);
    == { assert Need[0][0] > 3; ScanStep(Available, Allocation, Need, [], 0); }
      Scan(Available, Allocation, Need, [], 1);
    == { assert Fits(Need[1], [3, 3, 2]); ScanStep(Available, Allocation, Need, [], 1); assert [] + [1] == [1]; }
      Scan(Available, Allocation, Need, [1], 2);
    == { assert Need[2][0] > 5; ScanStep(Available, Allocation, Need, [1], 2); }
      Scan(Available, Allocation, Need, [1], 3);
    == { assert Fits(Need[3], [5, 3, 2]); ScanStep(Available, Allocation, Need, [1], 3); assert [1] + [3] == [1, 3]; }
      Scan(Available, Allocation, Need, [1, 3], 4);
    == { assert Fits(Need[4], [7, 4, 3]); ScanStep(Available, Allocation, Need, [1, 3], 4); assert [1, 3] + [4] == [1, 3, 4]; }
      Scan(Available, Allocation, Need, [1, 3, 4], 5);
    ==
      [1, 3, 4];
    }
  }

  /** The second pass finishes process 0 and then process 2. */
  lemma TextbookSecondPass()
    ensures Shaped(Available, Allocation, Need)
    ensures Scan(Available, Allocation, Need, [1, 3, 4], 0) == [1, 3, 4, 0, 2]
  {
    TextbookWork();
    calc {
      Scan(Available, Allocation, Need, [1, 3, 4], 0);
    == { assert Fits(Need[0], [7, 4, 5]); ScanStep(Available, Allocation, Need, [1, 3, 4], 0); assert [1, 3, 4] + [0] == [1, 3, 4, 0]; }
      Scan(Available, Allocation, Need, [1, 3, 4, 0], 1);
    == { assert [1, 3, 4, 0][0] == 1; }
      Scan(Available, Allocation, Need, [1, 3, 4, 0], 2);
    == { assert Fits(Need[2], [7, 5, 5]); ScanStep(Available, Allocation, Need, [1, 3, 4, 0], 2); assert [1, 3, 4, 0] + [2] == [1, 3, 4, 0, 2]; }
      Scan(Available, Allocation, Need, [1, 3, 4, 0, 2], 3);
    == { assert [1, 3, 4, 0, 2][1] == 3; }
      Scan(Available, Allocation, Need, [1, 3, 4, 0, 2], 4);
    == { assert [1, 3, 4, 0, 2][2] == 4; }
      Scan(Available, Allocation, Need, [1, 3, 4, 0, 2], 5);
    ==
      [1, 3, 4, 0, 2];
    }
  }

  /** The safety check on the instance reports the order 1, 3, 4, 0, 2. */
  lemma TextbookInstance()
    ensures Shaped(Available, Allocation, Need)
    ensures Analyze(Available, Allocation, Need) == Safe([1, 3, 4, 0, 2])
  {
    TextbookFirstPass();
    TextbookSecondPass();
    ScanGrantOrder(Available, Allocation, Need, [], 0);
    ScanGrantOrder(Available, Allocation, Need, [1, 3, 4], 0);
    assert Passes(Available, Allocation, Need, []) == Passes(Available, Allocation, Need, [1, 3, 4]);
  }

  /** Two processes each holding one instance of a single resource and each
      needing one more, with nothing available: the first pass grants
      nobody, so the check answers Unsafe, and no safe sequence exists. */
  lemma DeadlockInstance()
    ensures Shaped([0], [[1], [1]], [[1], [1]])
    ensures Analyze([0], [[1], [1]], [[1], [1]]) == Unsafe
    ensures forall s :: !IsSafeSequence([0], [[1], [1]], [[1], [1]], s)
  {
    var available, allocation, need := [0], [[1], [1]], [[1], [1]];
    assert Work(available, allocation, []) == [0];
    calc {
      Scan(available, allocation, need, [], 0);
    == { assert need[0][0] > 0; ScanStep(available, allocation, need, [], 0); }
      Scan(available, allocation, need, [], 1);
    == { assert need[1][0] > 0; ScanStep(available, allocation, need, [], 1); }
      Scan(available, allocation, need, [], 2);
    ==
      [];
    }
    assert NonNegative(allocation);
  }
}
