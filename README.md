# Banker's algorithm: need derivation, safety check, request evaluation

This project models the deadlock-avoidance engine of a Banker's-algorithm
teaching application (a single React component, `bankers_algo/src/App.js`).
A fixed set of P processes competes for R resource types. The state is the
`available` vector, the `allocation` matrix (what each process holds) and the
`need` matrix (what each process may still claim, `max - allocation`). The
engine has three parts.

- **Need derivation** (`NeedMatrix.CalculateNeedMatrix`): `need[i][j] = max[i][j] - allocation[i][j]`.
- **Safety check** (`Safety.SafetyCheck`): the greedy fixed-point search.
  - `work` starts as a copy of `available` and `finish` as all false.
  - Each outer pass scans the processes in ascending index order.
  - An unfinished process whose need row fits into `work` releases its allocation into `work` at once, is marked finished and is appended to the sequence. Later indices of the same pass see the larger `work`.
  - A pass that finishes nobody ends the check as `Unsafe`.
- **Request evaluation** (`Request.RequestResources`):
  - a bound check, resource by resource, against the process's need and against `available`;
  - a provisional grant;
  - the same safety check on the provisional state;
  - a commit of the provisional state only if that check answers `Safe`.

The safety loop is written once, over arrays (`work`, `finish`), and both the
direct check and the request path call it. Its result is tied to a functional
specification, `Safety.Analyze`. `Safety.Analyze` reproduces the exact
finishing order: ascending index within a pass, grants visible to later
indices of the same pass. The following are proved about it:

- a `Safe` order is a safe sequence. It names every process exactly once, and each process, at its turn, needed no more than the work left by those before it.
- an `Unsafe` verdict means that no safe sequence exists at all, provided no allocation entry is negative.
- at most P outer passes run.
- once every process has finished, work equals `available` plus the column totals of `allocation`.
- a grant only moves instances from `available` to the requesting process. Per resource, `available + allocation[p]`, `allocation[p] + need[p]` and `available` plus the allocation total are all preserved.

Modules: `Matrices` (vectors, matrices, column sums and the counting lemmas
they need), `NeedMatrix`, `Safety`, `Request`, `Examples` (the classic
five-process instance and a deadlock) and `FreshNeed` (see Findings).

Notes on what the code does, which the model follows:

- **Bound check.** The code checks both bounds, need and available, in one loop and reports one message for either (bankers_algo/src/App.js:75-79). The model has a single `DeniedBound` result and does not tell the two reasons apart.
- **Denial and state.** A bound denial returns before anything is copied or written (bankers_algo/src/App.js:75-79). On the unsafe-denial path (bankers_algo/src/App.js:118-121), row p of allocation and need has already been changed in place through shallow copies (bankers_algo/src/App.js:84-90); see "Left out".
- **Stale need.** The direct check schedules the new need (bankers_algo/src/App.js:36) but its loop reads the need held before the call (bankers_algo/src/App.js:48). `Safety.CalculateSafeSequence` models this as written; see Findings.
- **Shapes.** The code never checks that the dimensions agree or that the process index is in range. The model states these as preconditions (`Safety.Shaped`, `Request.WellFormed`, `NeedMatrix.SameShape`).

## Model

| member | source | states |
|---|---|---|
| `NeedMatrix.CalculateNeedMatrix` | bankers_algo/src/App.js:28-33 | the result has allocation's shape, and for every i, j, allocation[i][j] + need[i][j] == max[i][j] |
| `NeedMatrix.NeedNonNegativeIff` | bankers_algo/src/App.js:29-31 | the derived need has no negative entry exactly when no process holds more than its maximum (both directions) |
| `NeedMatrix.NeedUnique` | bankers_algo/src/App.js:29-31 | any matrix of allocation's shape that adds to allocation to give max is the derived need |
| `Safety.WorkAppend` | bankers_algo/src/App.js:51-53 | finishing process i raises work by exactly allocation[i], resource by resource |
| `Safety.GrantOrderAppend` | bankers_algo/src/App.js:45-57 | appending an unfinished process whose need row fits into the current work keeps the sequence a valid grant order |
| `Safety.Scan` | bankers_algo/src/App.js:44-60 | one pass only appends to the sequence: the old sequence is a prefix of the new one, and every index is below P |
| `Safety.ScanGrantOrder` | bankers_algo/src/App.js:44-60 | every process a pass appends had need[i][j] <= work[j] for all j when it was chosen, and no index is appended twice |
| `Safety.ScanStuck` | bankers_algo/src/App.js:44-61 | after a pass that finishes nobody, every unfinished process needs more than the current work for some resource |
| `Safety.StuckUnsafe` | bankers_algo/src/App.js:61-64 | in that situation, with no negative allocation, no safe sequence exists |
| `Safety.Passes` | bankers_algo/src/App.js:42-68 | from a valid grant order, a Safe result extends it to a full safe sequence, and an Unsafe result (with non-negative allocation) means no safe sequence exists |
| `Safety.Analyze` | bankers_algo/src/App.js:35-68 | Safe carries a safe sequence: a permutation of 0..P-1 in which each process fits into the work left by those before it; Unsafe (with non-negative allocation) means none exists; with P = 0 the result is Safe with the empty sequence |
| `Safety.FinalWork` | bankers_algo/src/App.js:37-53 | after a full safe sequence, work[k] == available[k] + the sum over all processes of allocation[i][k] |
| `Safety.SafeIffSafeSequenceExists` | bankers_algo/src/App.js:42-68 | with non-negative allocation, the check answers Safe exactly when some safe sequence exists |
| `Safety.RowFits` | bankers_algo/src/App.js:46-50 | the early-exit scan over resources answers true exactly when the need row fits into work |
| `Safety.Release` | bankers_algo/src/App.js:51-53 | work[k] grows by allocation[i][k] for every k, in place |
| `Safety.Pass` | bankers_algo/src/App.js:43-60 | one outer pass over the arrays yields exactly the functional pass Scan; work and finish end matching the new sequence, count is its length, and found tells whether it grew |
| `Safety.SafetyCheck` | bankers_algo/src/App.js:37-66 | the array-based loop returns exactly Analyze(available, allocation, need) and runs at most P outer passes |
| `Safety.CalculateSafeSequence` | bankers_algo/src/App.js:35-69 | the handler as written: the new need it returns for storing is max - allocation, while isSafe and the sequence are Analyze's verdict and order on the need held before the call; on Safe the sequence is a safe sequence for that need, on Unsafe it is cleared to [] |
| `Request.Provisional` | bankers_algo/src/App.js:87-91 | available'[j] = available[j] - request[j], allocation'[p][j] = allocation[p][j] + request[j], need'[p][j] = need[p][j] - request[j]; every other row is unchanged |
| `Request.ProvisionalConserves` | bankers_algo/src/App.js:87-91 | available + allocation[p], allocation[p] + need[p], and available plus the allocation column total are preserved per resource |
| `Request.ProvisionalKeepsNeedDerived` | bankers_algo/src/App.js:87-91 | if need was max - allocation before the grant, it still is after it |
| `Request.ProvisionalNonNegative` | bankers_algo/src/App.js:75-91 | a non-negative request within bounds leaves available, allocation and need[p] without negative entries |
| `Request.CheckBounds` | bankers_algo/src/App.js:75-80 | the loop passes exactly when request[j] <= need[p][j] and request[j] <= available[j] for every j |
| `Request.ProvisionalGrant` | bankers_algo/src/App.js:82-91 | the copies updated resource by resource form exactly the provisional state |
| `Request.RequestResources` | bankers_algo/src/App.js:71-129 | DeniedBound exactly when some resource exceeds need or available; DeniedUnsafe exactly when within bounds and the provisional state is Unsafe; Granted carries the provisional state, which the safety check finds Safe |
| `Examples.TextbookNeed` | bankers_algo/src/App.js:29-31 | the classic instance's max and allocation give the need matrix [[7,4,3],[1,2,2],[6,0,0],[0,1,1],[4,3,1]] |
| `Examples.TextbookWork` | bankers_algo/src/App.js:51-53 | the work vectors of the classic instance after processes 1, 3, 4 and 0 finish |
| `Examples.TextbookFirstPass` | bankers_algo/src/App.js:44-60 | the first pass of the classic instance finishes 1, 3, 4 |
| `Examples.TextbookSecondPass` | bankers_algo/src/App.js:44-60 | the second pass finishes 0, then 2 |
| `Examples.TextbookInstance` | bankers_algo/src/App.js:35-68 | the classic instance is Safe with sequence [1, 3, 4, 0, 2] |
| `Examples.DeadlockInstance` | bankers_algo/src/App.js:61-64 | two processes each waiting for the other's instance: Unsafe, and no safe sequence exists |
| `FreshNeed.ZeroNeedIsSafe` | bankers_algo/src/App.js:42-68 | a single process that needs nothing finishes at once |
| `FreshNeed.UnitNeedIsUnsafe` | bankers_algo/src/App.js:42-68 | a single process needing an instance when none is available makes the state Unsafe |
| `FreshNeed.StaleNeedCounterexample` | bankers_algo/src/App.js:35-48 | an input on which the check against the stale need answers Safe but the need derived from max gives Unsafe |
| `FreshNeed.CalculateSafeSequenceFresh` | bankers_algo/src/App.js:35-69 | the handler as intended: the new need is max - allocation, and isSafe and the sequence are Analyze's verdict and ascending-index order on that need; Safe certifies a safe sequence for the declared maxima, and Unsafe (non-negative allocation) means none exists |

## Left out

- React state hooks, `useEffect` and the asynchronous `setState` semantics (bankers_algo/src/App.js:5-18): state is passed in and returned as values.
- `initializeMatrices` (bankers_algo/src/App.js:20-26) sizes and zero-fills the matrices. The model only requires that the dimensions agree.
- All rendering and input handlers (bankers_algo/src/App.js:131-259), including `parseInt` of raw text and its possible `NaN`.
- The `alert` calls (bankers_algo/src/App.js:77, 119, 128) become the results `DeniedBound`, `DeniedUnsafe` and `Granted`.
- JavaScript numbers are modelled as unbounded integers. Floating-point precision loss above 2^53 is not modelled.
- Shallow-copy aliasing (bankers_algo/src/App.js:84-85, 89-90) is not modelled. `tempAllocation` and `tempNeed` copy only the outer array. So the updates of row p change the caller's rows in place, even when the request is then denied as unsafe (118-121). The comment at line 82 says the allocation is temporary, so the model gives the evidently intended value semantics: the new state is returned only on a grant. The source does not guarantee that an unsafe denial leaves allocation and need unchanged, and the model does not claim it.
- `Safety.StuckUnsafe`, `Safety.Passes`, `Safety.Analyze`: the claim that an Unsafe verdict means no safe sequence exists assumes no negative allocation entry. With negative entries (possible only through unchecked input), releasing an allocation can shrink work, and the greedy order is then not complete.
- `Safety.SafetyCheck`: the bound of at most P outer passes is stated on a ghost out-parameter that counts the passes. The source keeps no such counter.

## Findings

| source | as written | input that shows it | evidently intended | confidence | as-written member | corrected member |
|---|---|---|---|---|---|---|
| bankers_algo/src/App.js:35-48 | `calculateNeedMatrix()` at line 36 only schedules the new need with `setNeed`. The loop at line 48 reads the `need` held before the call, so the check runs against a stale need. | After sizing, need is all zeros. Take one process, one resource, available [0], allocation [[0]], then set max to [[1]] and check. The check answers Safe with [0], but the need derived from max, [[1]], gives Unsafe. | The check runs against max - allocation computed immediately before the loop. | medium; not executed | `Safety.CalculateSafeSequence`, with `FreshNeed.StaleNeedCounterexample` | `FreshNeed.CalculateSafeSequenceFresh` |
