/** Evaluation of one process's resource request: bound check, provisional
    grant, safety check of the provisional state, and commit on success. */
module Request {
  import opened Matrices
  import opened Safety
  import NeedMatrix

  /** The resource-accounting state a request is evaluated against. */
  datatype Snapshot = Snapshot(available: Vector, allocation: Matrix, need: Matrix)

  /** DeniedBound: the request exceeds the process's need or what is
      available for some resource (the two reasons are not told apart);
      DeniedUnsafe: granting it would leave no safe sequence; Granted: the
      state to adopt. */
  datatype RequestResult = DeniedBound | DeniedUnsafe | Granted(state: Snapshot)

  /** A request by process p, one entry per resource type, against a state of
      matching shape. */
  predicate WellFormed(p: nat, request: Vector, s: Snapshot)
  {
    Shaped(s.available, s.allocation, s.need) && p < |s.need| && |request| == |s.available|
  }

  /** The request asks, for every resource, for no more than the process
      still needs and no more than is available. */
  predicate WithinBounds(request: Vector, needRow: Vector, available: Vector)
    requires |needRow| == |request| && |available| == |request|
  {
    forall j :: 0 <= j < |request| ==> request[j] <= needRow[j] && request[j] <= available[j]
  }

  /** The state after provisionally granting the request: it leaves available,
      joins row p of allocation and leaves row p of need. */
  function Provisional(p: nat, request: Vector, s: Snapshot): (t: Snapshot)
    requires WellFormed(p, request, s)
    ensures WellFormed(p, request, t) && |t.need| == |s.need|
    ensures forall j :: 0 <= j < |request| ==>
              t.available[j] == s.available[j] - request[j] &&
              t.allocation[p][j] == s.allocation[p][j] + request[j] &&
              t.need[p][j] == s.need[p][j] - request[j]
    ensures forall q :: 0 <= q < |s.need| && q != p ==>
              t.allocation[q] == s.allocation[q] && t.need[q] == s.need[q]
  {
    var n := |request|;
    Snapshot(
      seq(n, j requires 0 <= j < n => s.available[j] - request[j]),
      s.allocation[p := seq(n, j requires 0 <= j < n => s.allocation[p][j] + request[j])],
      s.need[p := seq(n, j requires 0 <= j < n => s.need[p][j] - request[j])])
  }

  /** A provisional grant only moves instances from available to process p:
      available + allocation[p] and allocation[p] + need[p] keep their values
      per resource, and so does available plus the column total of allocation. */
  lemma ProvisionalConserves(p: nat, request: Vector, s: Snapshot, k: nat)
    requires WellFormed(p, request, s) && k < |request|
    ensures var t := Provisional(p, request, s);
            t.available[k] + t.allocation[p][k] == s.available[k] + s.allocation[p][k] &&
            t.allocation[p][k] + t.need[p][k] == s.allocation[p][k] + s.need[p][k] &&
            t.available[k] + ColumnSum(t.allocation, |request|, k) ==
            s.available[k] + ColumnSum(s.allocation, |request|, k)
  {
    var t := Provisional(p, request, s);
    assert t.allocation == s.allocation[p := t.allocation[p]];
    ColumnSumUpdate(s.allocation, |request|, p, t.allocation[p], k);
  }

  /** If need was derived from max before the grant, the provisional need is
      still the one derived from max and the provisional allocation. */
  lemma ProvisionalKeepsNeedDerived(p: nat, request: Vector, s: Snapshot, max: Matrix)
    requires WellFormed(p, request, s) && NeedMatrix.SameShape(s.allocation, max)
    requires s.need == NeedMatrix.CalculateNeedMatrix(s.allocation, max)
    ensures NeedMatrix.SameShape(Provisional(p, request, s).allocation, max)
    ensures Provisional(p, request, s).need ==
            NeedMatrix.CalculateNeedMatrix(Provisional(p, request, s).allocation, max)
  {
    var t := Provisional(p, request, s);
    forall i, j | 0 <= i < |t.need| && 0 <= j < |t.need[i]|
      ensures t.allocation[i][j] + t.need[i][j] == max[i][j]
    {
      assert s.allocation[i][j] + s.need[i][j] == max[i][j];
    }
    NeedMatrix.NeedUnique(t.allocation, max, t.need);
  }

  /** A request within bounds, with no negative entry, leaves no negative
      entry in available, in allocation or in the process's need row. */
  lemma ProvisionalNonNegative(p: nat, request: Vector, s: Snapshot)
    requires WellFormed(p, request, s) && WithinBounds(request, s.need[p], s.available)
    requires NonNegative(s.allocation) && forall j :: 0 <= j < |request| ==> request[j] >= 0
    ensures var t := Provisional(p, request, s);
            NonNegative(t.allocation) &&
            (forall j :: 0 <= j < |request| ==> t.available[j] >= 0 && t.need[p][j] >= 0)
  {
    var t := Provisional(p, request, s);
    forall i, j | 0 <= i < |t.allocation| && 0 <= j < |t.allocation[i]|
      ensures t.allocation[i][j] >= 0
    {
      if i != p {
        assert t.allocation[i] == s.allocation[i];
      }
    }
  }

  /** The bound check: resource by resource, stopping at the first resource
      where the request exceeds the process's need or what is available. */
  method CheckBounds(request: Vector, needRow: Vector, available: Vector) returns (ok: bool)
    requires |needRow| == |request| && |available| == |request|
    ensures ok == WithinBounds(request, needRow, available)
  {
    var i := 0;
    while i < |request|
      invariant 0 <= i <= |request|
      invariant forall j :: 0 <= j < i ==> request[j] <= needRow[j] && request[j] <= available[j]
    {
      if request[i] > needRow[i] || request[i] > available[i] {
        return false;
      }
      i := i + 1;
    }
    return true;
  }

  /** The provisional grant, computed on copies of available and of row p of
      allocation and need, updated resource by resource.

      In the source the copies of allocation and need are shallow, so the
      updates of row p reach the caller's rows even when the request is then
      denied as unsafe; this model gives value semantics instead and does not
      reproduce that leak. */
  method ProvisionalGrant(p: nat, request: Vector, s: Snapshot) returns (t: Snapshot)
    requires WellFormed(p, request, s)
    ensures t == Provisional(p, request, s)
  {
    var resources := |request|;
    var tempAvailable, tempAllocationRow, tempNeedRow := s.available, s.allocation[p], s.need[p];
    var i := 0;
    while i < resources
      invariant 0 <= i <= resources
      invariant |tempAvailable| == |tempAllocationRow| == |tempNeedRow| == resources
      invariant forall j :: 0 <= j < i ==> tempAvailable[j] == s.available[j] - request[j]
      invariant forall j :: 0 <= j < i ==> tempAllocationRow[j] == s.allocation[p][j] + request[j]
      invariant forall j :: 0 <= j < i ==> tempNeedRow[j] == s.need[p][j] - request[j]
      invariant forall j :: i <= j < resources ==> tempAvailable[j] == s.available[j]
      invariant forall j :: i <= j < resources ==> tempAllocationRow[j] == s.allocation[p][j]
      invariant forall j :: i <= j < resources ==> tempNeedRow[j] == s.need[p][j]
    {
      tempAvailable := tempAvailable[i := tempAvailable[i] - request[i]];
      tempAllocationRow := tempAllocationRow[i := tempAllocationRow[i] + request[i]];
      tempNeedRow := tempNeedRow[i := tempNeedRow[i] - request[i]];
      i := i + 1;
    }
    t := Snapshot(tempAvailable, s.allocation[p := tempAllocationRow], s.need[p := tempNeedRow]);
    ghost var u := Provisional(p, request, s);
    assert tempAvailable == u.available;
    assert tempAllocationRow == u.allocation[p] && tempNeedRow == u.need[p];
    assert s.allocation[p := u.allocation[p]] == u.allocation;
    assert s.need[p := u.need[p]] == u.need;
  }

  /** Evaluates a request by process p: the bound check first, before
      anything changes; then the provisional grant; then the safety check of
      the provisional state, which is committed only if it is safe. */
  method RequestResources(p: nat, request: Vector, s: Snapshot) returns (r: RequestResult)
    requires WellFormed(p, request, s)
    ensures r.DeniedBound? <==> !WithinBounds(request, s.need[p], s.available)
    ensures r.DeniedUnsafe? <==>
              WithinBounds(request, s.need[p], s.available) &&
              var t := Provisional(p, request, s);
              Analyze(t.available, t.allocation, t.need).Unsafe?
    ensures r.Granted? ==>
              r.state == Provisional(p, request, s) &&
              Analyze(r.state.available, r.state.allocation, r.state.need).Safe?
  {
    var ok := CheckBounds(request, s.need[p], s.available);
    if !ok {
      return DeniedBound;
    }
    var t := ProvisionalGrant(p, request, s);
    var verdict, _ := SafetyCheck(t.available, t.allocation, t.need);
    if verdict.Unsafe? {
      r := DeniedUnsafe;
    } else {
      r := Granted(t);
    }
  }
}
