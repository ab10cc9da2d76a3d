/** Derivation of the need matrix: what each process may still claim. */
module NeedMatrix {
  import opened Matrices

  /** a and b have the same number of rows, and matching rows the same length. */
  predicate SameShape(a: Matrix, b: Matrix)
  {
    |a| == |b| && forall i :: 0 <= i < |a| ==> |a[i]| == |b[i]|
  }

  /** need = max - allocation, entry by entry; the result takes its shape from
      allocation, whose rows the source maps over. */
  function CalculateNeedMatrix(allocation: Matrix, max: Matrix): (need: Matrix)
    requires SameShape(allocation, max)
    ensures SameShape(need, allocation)
    ensures forall i, j :: 0 <= i < |need| && 0 <= j < |need[i]| ==>
              allocation[i][j] + need[i][j] == max[i][j]
  {
    seq(|allocation|, i requires 0 <= i < |allocation| =>
      seq(|allocation[i]|, j requires 0 <= j < |allocation[i]| => max[i][j] - allocation[i][j]))
  }

  /** The derived need has no negative entry exactly when no process holds
      more than its declared maximum. */
  lemma NeedNonNegativeIff(allocation: Matrix, max: Matrix)
    requires SameShape(allocation, max)
    ensures NonNegative(CalculateNeedMatrix(allocation, max)) <==>
            forall i, j :: 0 <= i < |allocation| && 0 <= j < |allocation[i]| ==>
              allocation[i][j] <= max[i][j]
  {
    var need := CalculateNeedMatrix(allocation, max);
    if NonNegative(need) {
      forall i, j | 0 <= i < |allocation| && 0 <= j < |allocation[i]|
        ensures allocation[i][j] <= max[i][j]
      {
        assert need[i][j] >= 0;
      }
    }
  }

  /** A need matrix derived from max is the only one that, added to
      allocation, gives back max. */
  lemma NeedUnique(allocation: Matrix, max: Matrix, need: Matrix)
    requires SameShape(allocation, max) && SameShape(need, allocation)
    requires forall i, j :: 0 <= i < |need| && 0 <= j < |need[i]| ==>
               allocation[i][j] + need[i][j] == max[i][j]
    ensures need == CalculateNeedMatrix(allocation, max)
  {
    var derived := CalculateNeedMatrix(allocation, max);
    forall i | 0 <= i < |need| ensures need[i] == derived[i] {
      assert |need[i]| == |derived[i]|;
    }
  }
}
