# Claim2Kernel: a verified model of its numerical and policy core

Claim2Kernel admits a GPU kernel for a request only under a certified profile. This project models the
parts of the system whose correctness is a theorem rather than a single branch, and proves those theorems:

- **The regularised zero-forcing precoder** in its sequential specification (`RzfAlgorithm`), its oracle
  (`RzfReference`), the CUDA kernel with its barriers and strided threads (`Schedule`, `CudaTile`,
  `Reductions`, `CudaKernel`) and the halving reduction of the Mojo kernel (`Reductions`). Complex numbers are
  pairs of exact reals, a non-finite input is a tagged case, and the square root is a parameter `sq` with
  the hypothesis `IsSqrt(sq)`: positive arguments have positive roots that square back, and the root of zero
  is zero. `Cholesky`, `Solves`, `PivotForms` and `RegularizedGram` hold the mathematics all of them share.
- **The out-of-distribution guard**: the Go matrix gate (`OodGate`), the quadratic form it protects
  (`OodForm`, `Semidefinite`), the region it admits (`OodRegion`), and the gate and the guard together as the planner
  uses them (`GuardRegion`, `GuardExamples`).
- **The calibration statistics** of `c2k_stats.py`: order statistics, split-conformal bounds, binomial tails,
  tolerance limits and ridge regression, all stated by counting or in exact reals.
- **The lifecycle checker** (`StateCheck`), its meaning as a predicate over the whole history
  (`StateHistory`, `Lifecycle`), exactly what it reports for every event (`LifecycleReports`), and shuffles of
  unrelated traces (`Interleaving`).
- **The planner** (`Reasons`, `Profiles`, `Planner`, `Evaluation`, `Admission`, `Selection`): one decision for
  every map iteration order, admitted exactly when every condition holds, and a selection independent of
  catalog order. `Reporting` and `BudgetReporting` say for every reason code and field exactly when it is
  reported, and `RuntimeEvidence` which phase reads the request and which the evidence.
- **Version ordering** (`Texts`, `Semver`, `VersionRange`, `MojoWindow`).

Code that updates state is modelled by methods over arrays or, for the planner's decision, by a class; each is
proved equal to a specification function, and the properties are lemmas about that function. The threads of
the CUDA kernel are scheduled by a demonic choice: between two barriers any thread may take its next loop
iteration, so every result holds for every order.

Facts about the code that the proofs made exact:

- The factorisation never fails on a regularised Gram matrix: every pivot is at least `alpha`, so in exact
  arithmetic the status is OK exactly for finite inputs.
- The matrix gate reads `a[j][i]` before it has checked the length of row `j`. `PositiveDefiniteSymmetric` says
  exactly which ragged matrices make that index out of range, and `RaggedMatrixPanics` gives one.
- `compare` is transitive and gives 0 only for equal versions, on all versions, so ranges are convex whatever they
  name. It is antisymmetric exactly for versions that do not clash: the same release, with pre-releases whose first
  differing identifiers both read as the same int64. Clashing versions, such as 1.0.0-01 and 1.0.0-1, are each
  after the other.
- The matrix gate reads the lower triangle and allows a tolerated asymmetry, so it accepts matrices with negative
  scores: `AcceptedUnsound` gives one. What an accepted guard promises depends on the factorisation of the symmetric
  part of its matrix. If no pivot is negative and a zero pivot leaves nothing below it, the guard is sound; exactly
  then INVALID_OOD_SCORE never fires, and exactly then whatever lies between two admitted feature maps is admitted.
  If all pivots are positive it is strict, and exactly then every deviation from the mean scores positively. An
  accepted and exactly symmetric matrix makes a strict guard; `AcceptedFlat` is sound and not strict.
- The Go range `>=1.0.0b2,<1.1.0` and the Python window disagree on the pre-releases of 1.1.0 and nowhere else
  on canonical 1.x versions whose three numbers fit in an int64: the comment in the script says they are outside,
  the Go order accepts them. Beyond int64 the Go program reports an error. Pre-release numbers beyond int64 are
  compared as text, which misorders some of them but no version against the window.
- The lifecycle checker compares the device at the admission and at the dispatch only. In a valid trace the device
  was the same all the time in between exactly when no update in between named another one, and a valid trace can
  contain such an update and its undoing. And two profiles may share a contract digest, so a valid trace can
  dispatch under a revoked one; it does so exactly when the digest was revoked through another profile.
- OOD_FEATURE_MISSING is never a reason: the guard is judged only when every model feature is available. And runtime
  evidence replaces a request's observations or versions as a whole, never entry by entry.
- The Mojo halving reduction is exact for powers of two and for no other thread count.

## Model
| member | source | states |
|---|---|---|
| RegularizedGram.PivotAtLeastAlpha | kernels/rzf/rzf_algorithm.py:115-123 | for every channel of any shape or rank and every alpha above zero, each Cholesky pivot of the regularised Gram is at least alpha |
| RzfReference.StatusOkIffFinite | kernels/rzf/rzf_algorithm.py:109-123 | a batch element gets status OK exactly when its slice is finite; NOT_POSITIVE_DEFINITE never occurs in exact arithmetic |
| Cholesky.FactorReproduces | kernels/rzf/rzf_algorithm.py:154-175 | with positive pivots the factor is lower triangular with a real non-zero diagonal and L times its adjoint is the matrix |
| Cholesky.PartialFactor | kernels/rzf/rzf_algorithm.py:162-174 | after j columns the factored part reproduces the leading block up to the next pivot |
| Solves.ForwardSolves | kernels/rzf/rzf_algorithm.py:182-187 | forward substitution solves L y = rhs |
| Solves.BackwardSolves | kernels/rzf/rzf_algorithm.py:188-193 | backward substitution solves the adjoint system |
| Solves.SolveCorrect | kernels/rzf/rzf_algorithm.py:178-194 | the two substitutions together solve A x = rhs whenever A is L times its adjoint |
| RegularizedGram.SolutionUnique | kernels/rzf/rzf_reference.py:15-17 | the regularised system has at most one solution |
| RzfReference.CholeskySolves | kernels/rzf/rzf_algorithm.py:125-128 | column by column the Cholesky solution satisfies A X = H |
| RzfReference.SolvedUnique | kernels/rzf/rzf_reference.py:17 | any two solutions of A X = H agree on every entry |
| RzfReference.OracleAgrees | kernels/rzf/rzf_reference.py:15-20 | the Cholesky precoder equals the oracle's, whatever linear solver the oracle uses |
| RzfReference.PrecoderEquation | kernels/rzf/rzf_algorithm.py:115-134 | the precoder W of a finite channel G satisfies W (G G^H + alpha I) = s G^H for one factor 0 < s <= 1/tiny; its Frobenius norm is at most 1, and is 1 unless s is 1/tiny |
| RzfReference.UnnormalisedInverts | kernels/rzf/rzf_algorithm.py:130 | the unnormalised precoder satisfies W A = adjoint of H |
| RzfReference.PrecoderNorm | kernels/rzf/rzf_algorithm.py:131-134 | the normalised precoder has Frobenius norm at most 1, and exactly 1 when and only when the norm of X is at least tiny |
| RzfAlgorithm.ValidateShape | kernels/rzf/rzf_algorithm.py:57-65 | which shapes and alphas are accepted, and which error the others raise |
| RzfAlgorithm.Gram | kernels/rzf/rzf_algorithm.py:139-151 | the loops fill the array with H times its adjoint |
| RzfAlgorithm.CholeskyFactor | kernels/rzf/rzf_algorithm.py:154-175 | the in-place loops compute the factor, and the flag is true exactly when every pivot is positive |
| RzfAlgorithm.SolveSpd | kernels/rzf/rzf_algorithm.py:178-194 | the substitution loops compute the solution function |
| RzfAlgorithm.PrecodeBatch | kernels/rzf/rzf_algorithm.py:109-134 | one batch element's status and precoder, status 1 exactly when an entry is not finite, zeros unless the status is 0, all other elements untouched |
| RzfAlgorithm.RzfPrecoderCholesky | kernels/rzf/rzf_algorithm.py:68-136 | the whole function: errors exactly for bad shapes; an element with a non-finite entry has status 1 and a precoder of zeros, every other one status 0 and the precoder that PrecoderEquation determines |
| Schedule.AdvanceDone | kernels/cuda/rzf_cuda.cu:72-75 | a strided thread's step completes exactly its next item, which no thread had done before |
| Schedule.AllDone | kernels/cuda/rzf_cuda.cu:84-92 | when no thread has an item left below the limit, every item below it is done |
| CudaKernel.FiniteScan | kernels/cuda/rzf_cuda.cu:70-77 | in every interleaving the shared flag ends set exactly when some entry is non-finite |
| CudaKernel.GramPhase | kernels/cuda/rzf_cuda.cu:84-93 | in every interleaving the flat tile ends holding the regularised Gram |
| CudaTile.FlatInjective | kernels/cuda/rzf_cuda.cu:98-107 | distinct cells have distinct flat indices |
| CudaTile.HoldsRowMajor | kernels/cuda/rzf_cuda.cu:118-138 | a flat array holds a matrix exactly when element e is cell (e / width, e % width) |
| CudaKernel.StoresRowMajor | kernels/cuda/rzf_cuda.cu:70-77 | the kernel's input holds a channel exactly when entry e is that of user e / N and antenna e % N |
| CudaTile.TileCholesky | kernels/cuda/rzf_cuda.cu:95-110 | the in-place factorisation leaves L in the lower triangle and the untouched Gram above it, and fails exactly when a pivot is not positive |
| CudaTile.TileSolve | kernels/cuda/rzf_cuda.cu:124-133 | the solves depend on the tile's lower triangle only, whatever the upper triangle holds |
| CudaKernel.ColumnsPhase | kernels/cuda/rzf_cuda.cu:118-138 | in every interleaving W is the unnormalised precoder, each thread holds the squares of its own columns, and each element was written once, by thread n modulo the block size |
| CudaKernel.StridedTotal | kernels/cuda/rzf_cuda.cu:120-144 | the per-thread partial sums add up to the sum over all columns |
| Reductions.TreeReduce | kernels/cuda/rzf_cuda.cu:144-150 | for every thread count, a power of two or not, slot 0 ends with the exact sum |
| Reductions.RoundRaceFree | kernels/cuda/rzf_cuda.cu:146-150 | within a round no thread writes a slot that another one reads or writes |
| CudaKernel.RescalePhase | kernels/cuda/rzf_cuda.cu:158-162 | in every interleaving each element is scaled once, by the thread that stored it |
| CudaKernel.ZeroFill | kernels/cuda/rzf_cuda.cu:78-82 | in every interleaving the fail-closed store zeroes every element, element e once, by thread e modulo the block size |
| CudaKernel.RzfKernel | kernels/cuda/rzf_cuda.cu:52-163 | for every U, N and block size up to 256 the kernel's status and W are those of the sequential specification: status 1 exactly when some input is not finite, and W all zeros unless the status is 0; every element of an accepted W is stored once and rescaled once, both by thread n modulo the block size, and every element of a rejected one is zeroed once, by its flat index modulo the block size |
| Reductions.HalvingReduce | kernels/mojo/rzf_kernel.mojo:206-214 | slot 0 ends with the halved sum of the slots |
| Reductions.HalvingExactIff | kernels/mojo/rzf_kernel.mojo:206-214 | the halved sum is the sum for all inputs exactly when the thread count is a power of two |
| OodGate.PositiveDefiniteSymmetric | pkg/contract/validate.go:538-574 | accepts exactly the near-symmetric finite square matrices whose pivots exceed the tolerance; indexes out of range exactly on the stated ragged matrices |
| OodGate.RaggedMatrixPanics | pkg/contract/validate.go:543-548 | a ragged matrix on which the symmetry test reads past a row |
| OodGate.NoPanicWhenSquare | pkg/contract/validate.go:543-548 | a square matrix never does that |
| OodGate.NearlySymmetricIff | pkg/contract/validate.go:543-552 | the symmetry test passes exactly on square finite matrices no mirrored entries of which differ by more than the tolerance and more than the tolerance times either magnitude |
| PivotForms.FormIsNorm | pkg/contract/validate.go:557-572 | the quadratic form is the squared norm of the adjoint factor applied to the vector |
| PivotForms.PivotWitness | pkg/contract/validate.go:559-566 | each pivot is the value of the form on a vector with a unit component |
| OodForm.ScoreIsNorm | pkg/planner/planner.go:299-303 | for a symmetric matrix with positive pivots the score is the squared norm of the projected deviation |
| OodForm.ScoreSymm | pkg/planner/planner.go:299-303 | a matrix and its symmetric part give the same scores |
| OodForm.DefiniteScoreIsNorm | pkg/planner/planner.go:299-303 | with positive pivots of the symmetric part the score is the squared norm of its factor applied to the deviation, for every matrix |
| OodForm.PositiveIffDefinite | pkg/planner/planner.go:299-307 | for every matrix, symmetric or not, scores are positive for all non-zero deviations if and only if the symmetric part has positive pivots |
| OodForm.ScorePositive | pkg/planner/planner.go:299-307 | with positive pivots of the symmetric part the score is positive for every non-zero deviation |
| OodForm.SymmetricDefiniteIff | pkg/contract/validate.go:557-572 | on an exactly symmetric matrix that condition is the gate's own pivots being positive |
| Semidefinite.NonNegativeIffSemiDefinite | pkg/planner/planner.go:299-307 | for every matrix, no deviation scores negatively if and only if the factorisation of the symmetric part meets no negative pivot and no zero pivot with something left below it |
| Semidefinite.ScoresGiveColumns | pkg/planner/planner.go:299-303 | without negative scores every column factors in order and what remains after it has no negative scores either |
| OodForm.AcceptedIff | pkg/contract/validate.go:538-574 | every matrix is accepted if and only if it is finite, square, nearly symmetric and the form of its lower triangle exceeds the tolerance on every vector whose last non-zero component is 1 |
| OodForm.LowerScoreIsSum | pkg/contract/validate.go:557-566 | that form is the double sum in which each pair of positions takes the entry on or below the diagonal |
| OodForm.AcceptedIffFormAbove | pkg/contract/validate.go:553-573 | for an exactly symmetric matrix that form is the score |
| OodForm.GateComplete | pkg/contract/validate.go:553-573 | every exactly symmetric matrix whose form exceeds tolerance times the squared norm is accepted |
| OodForm.NearScoreBound | pkg/planner/planner.go:299-307 | for a nearly symmetric matrix the score is at least the squared norm less the tolerance times the weighted products of deviations |
| OodForm.AcceptedIsNear | pkg/contract/validate.go:543-573 | acceptance by the gate provides the hypotheses of that bound |
| OodRegion.RegionConvexIff | pkg/planner/planner.go:281-311 | with a threshold of at least zero and some positive score, the admitted region is convex if and only if no deviation scores negatively |
| OodRegion.AdmittedRegionConvex | pkg/planner/planner.go:281-311 | when the symmetric part factors in order the admitted region is convex |
| OodRegion.AdmittedRegionSymmetric | pkg/planner/planner.go:281-311 | the admitted region of any matrix is symmetric about the mean |
| GuardRegion.NeverInvalidIff | pkg/planner/planner.go:304-307 | with distinct feature names a required guard never rejects with INVALID_OOD_SCORE if and only if it is sound: the symmetric part of its matrix factors in order |
| GuardRegion.AdmitsBetweenIff | pkg/planner/planner.go:281-311 | a guard the gate accepts admits whatever lies between two admitted feature maps if and only if it is sound |
| GuardRegion.StrictIff | pkg/planner/planner.go:299-307 | a required guard scores every deviation from the mean positively if and only if it is strict: the symmetric part has positive pivots; and then it is sound |
| GuardRegion.SymmetricIsStrict | pkg/contract/validate.go:484-486 | a guard whose matrix the gate accepts and is exactly symmetric is strict |
| GuardExamples.AcceptedUnsound | pkg/planner/planner.go:304-307 | a guard the gate accepts that is not sound: it refuses a feature map with INVALID_OOD_SCORE although it admits two it lies between |
| GuardExamples.AcceptedFlat | pkg/contract/validate.go:538-574 | a guard the gate accepts that is sound and not strict |
| GuardRegion.SoundGuardNeverInvalid | pkg/planner/planner.go:304-307 | a sound guard's score is never negative and INVALID_OOD_SCORE is never its reason |
| GuardRegion.BetweenAdmitted | pkg/planner/planner.go:281-311 | features between two feature maps that a sound guard admits are admitted |
| GuardRegion.MirroredAdmitted | pkg/planner/planner.go:281-311 | reflecting the features in the mean does not change admission |
| OrderStatistics.OrderStatCounts | tools/calibration/c2k_stats.py:80 | fewer than k elements lie below the k-th smallest and at least k at or below it |
| OrderStatistics.OrderStatAtLeast | tools/calibration/c2k_stats.py:80 | the k-th smallest is at least v exactly when fewer than k elements are below v |
| OrderStatistics.OrderStatIff | tools/calibration/c2k_stats.py:80 | the k-th smallest is the one element with fewer than k positions below it and at least k at or below it |
| Conformal.ConformalRank | tools/calibration/c2k_stats.py:59-74 | the rank is the ceiling of (n+1) times coverage, refused exactly when that exceeds n |
| Conformal.SplitConformalIff | tools/calibration/c2k_stats.py:77-80 | a bound is returned exactly for finite non-empty values, a coverage inside (0, 1) and enough values for it; it is the value at the reported rank, which is the ceiling of (n+1) times coverage |
| Conformal.LeaveOneOutCoverage | tools/calibration/c2k_stats.py:59-80 | for any n+1 scores, ties included, the leave-one-out choices covered by the bound of the other n are exactly as many as the scores at or below the rank-th smallest of all, so at least (n+1) times coverage of them |
| Conformal.CoveredIff | tools/calibration/c2k_stats.py:77-80 | a score is covered by the bound computed from the others exactly when it is at or below the rank-th smallest of all |
| Conformal.ClampKeepsCoverage | tools/calibration/calibrate.py:84-85 | clamping the bound at zero never covers fewer |
| Binomial.ChooseFactorial | tools/calibration/c2k_stats.py:94-98 | the recursive binomial coefficient is the quotient of factorials the code takes through lgamma |
| Binomial.MassSum | tools/calibration/c2k_stats.py:93-103 | the sum of the masses up to k equals the tail function |
| Binomial.TailFull | tools/calibration/c2k_stats.py:90-91 | all masses together sum to 1 |
| Binomial.TailRises | tools/calibration/c2k_stats.py:83-103 | the distribution function rises in k |
| Binomial.TailFalls | tools/calibration/c2k_stats.py:83-103 | and falls in p |
| Binomial.TailLast | tools/calibration/c2k_stats.py:112-114 | at k = n - 1 it is 1 minus content to the n |
| Binomial.BinomialCdf | tools/calibration/c2k_stats.py:83-103 | the loop computes the distribution function and fails exactly on the listed arguments |
| Tolerance.ToleranceRank | tools/calibration/c2k_stats.py:106-118 | returns the least rank that meets the confidence test and fails exactly when 1 minus content to the n, plus the slack, is below the confidence |
| Tolerance.ToleranceUpper | tools/calibration/c2k_stats.py:121-127 | succeeds exactly on finite non-empty values and valid probabilities that meet that test; the bound is the order statistic at the rank and the reported confidence is the tail there |
| Tolerance.RankMonotone | tools/calibration/c2k_stats.py:106-118 | the rank does not decrease in content or in confidence |
| Tolerance.LowCard | tools/calibration/c2k_stats.py:83-103 | the number of n-fold samples with at most k draws from a set is the binomial tail times the number of samples |
| Tolerance.SamplesIff | tools/calibration/c2k_stats.py:106-107 | the samples counted are all n-fold index sequences |
| Tolerance.HitsArePositions | tools/calibration/c2k_stats.py:106-107 | the hits counted are the positions that hold a bad index |
| Tolerance.ToleranceGuarantee | tools/calibration/c2k_stats.py:106-127 | for every finite population, among all n-fold samples with replacement at least a fraction confidence less the slack have a rank-th smallest value at or above a content fraction of the population |
| Ridge.UniqueMinimiser | tools/calibration/c2k_stats.py:52-53 | a solution of the normal equations is the unique global minimiser of the penalised squared error |
| Ridge.PredictionsAgree | tools/calibration/c2k_stats.py:47-56 | the prediction in original units equals the standardised prediction at every x |
| Ridge.FitMinimises | tools/calibration/c2k_stats.py:47-56 | the returned coefficients, rescaled, are that minimiser |
| RidgeOriginal.CentredSum | tools/calibration/c2k_stats.py:47-51 | centred values sum to zero |
| RidgeOriginal.StandardisedColumn | tools/calibration/c2k_stats.py:47-50 | a standardised column sums to zero; its squares sum to n - 1 when its sample deviation exceeds 1e-12, and otherwise it is the column less its mean |
| Ridge.FitRidge | tools/calibration/c2k_stats.py:38-56 | a result is returned only for finite inputs of matching size at least 2 and a finite positive ridge penalty |
| RidgeSolver.NormalDefinite | tools/calibration/c2k_stats.py:52 | the normal matrix is symmetric and positive definite for every input and every positive penalty |
| RidgeSolver.CholeskySolverLaw | tools/calibration/c2k_stats.py:53 | a Cholesky solver solves every symmetric positive definite system, so it meets the law asked of the solver everywhere |
| RidgeSolver.CholeskyIsLawful | tools/calibration/c2k_stats.py:52-53 | so the hypothesis of the next three rows holds of it for all inputs |
| RidgeSolver.FitRidgeSucceedsIff | tools/calibration/c2k_stats.py:38-56 | with a solver that solves the system it is given when that is symmetric positive definite, fit_ridge succeeds if and only if there are at least two rows, as many responses, all finite, and the penalty is finite and positive; the solver never raises |
| RidgeSolver.FitRidgeIsOptimal | tools/calibration/c2k_stats.py:25-56 | with such a solver the fitted model is the unique minimiser and predicts, at every point, the mean response plus the standardised contribution |
| RidgeOriginal.FitRidgeOriginal | tools/calibration/c2k_stats.py:38-56 | in the original units the returned intercept and coefficients are the unique minimiser, over all intercepts and coefficients, of the squared errors plus the penalty on each coefficient times its column's sample deviation, or 1; the intercept is not penalised |
| StateCheck.Check | pkg/statecheck/statecheck.go:61-171 | the loop reports the violations of the step functions in order and is valid exactly when there are none; a nil trace is one violation |
| LifecycleReports.PublishReported | pkg/statecheck/statecheck.go:76-92 | a publication is reported for exactly: missing fields, a bad bound, an active profile (NoStaleProfileReuse), or an inactive profile under a revoked digest (NoPerformanceResurrection) |
| LifecycleReports.RevokeReported | pkg/statecheck/statecheck.go:93-101 | a revocation is reported exactly when its profile was never published |
| LifecycleReports.DeviceReported | pkg/statecheck/statecheck.go:102-113 | a device update is reported exactly when its profile was never published or it names no device |
| LifecycleReports.AdmitReported | pkg/statecheck/statecheck.go:114-132 | an admission is reported for exactly: an inactive profile (NoUncertifiedDispatch), or else no request, a bad budget, or a request that is live |
| LifecycleReports.UnadmittedReported | pkg/statecheck/statecheck.go:133-138 | a dispatch of a request that is not live is reported exactly as NoUncertifiedDispatch |
| LifecycleReports.DispatchReported | pkg/statecheck/statecheck.go:139-159 | any other dispatch is reported for exactly: a bad bound, an inactive profile, or each of the four differences from what was admitted under its own rule, independently |
| LifecycleReports.OtherReported | pkg/statecheck/statecheck.go:160-169 | a completion is reported exactly when its request is not live, an unknown event always |
| LifecycleReports.FindingCount | pkg/statecheck/statecheck.go:75-169 | a compared dispatch has as many findings as differences, every other event at most one |
| LifecycleReports.ReportedOnce | pkg/statecheck/statecheck.go:66-74 | no violation is reported twice and they come in the order of the events |
| StateHistory.StateAgrees | pkg/statecheck/statecheck.go:63-65 | the three maps hold exactly the current publications, live admissions and revoked digests of the history |
| StateHistory.LatestPublishIff | pkg/statecheck/statecheck.go:76-92 | a profile's current publication is the last well-formed one that found it unpublished or revoked |
| StateHistory.LatestDeviceIff | pkg/statecheck/statecheck.go:102-113 | its device was set by that, or by the last update since that names one |
| StateHistory.LatestAdmitIff | pkg/statecheck/statecheck.go:114-132 | a live request's admission is the last well-formed one that found the profile active and the request not live |
| Lifecycle.SilentIffOk | pkg/statecheck/statecheck.go:75-168 | an event is reported nothing for exactly when a predicate over the earlier history holds of it |
| Lifecycle.ValidIffAllOk | pkg/statecheck/statecheck.go:61-171 | a trace is valid exactly when every event satisfies that predicate |
| Lifecycle.PrefixViolations | pkg/statecheck/statecheck.go:74-170 | the violations of a prefix are a prefix of the violations of the trace |
| Lifecycle.NoRevocationBeforeDispatch | pkg/statecheck/statecheck.go:85-101 | in a valid trace a dispatched request's profile was not revoked between its admission and the dispatch, republication included |
| Lifecycle.RevokedDigestDispatchIff | pkg/statecheck/statecheck.go:132-150 | in a valid trace a dispatched digest is revoked exactly when it was revoked through another profile |
| Lifecycle.NoDispatchUnderRevokedDigest | pkg/statecheck/statecheck.go:89-150 | with distinct digests per profile no dispatch happens under a revoked digest |
| Lifecycle.SharedDigestIsDispatched | pkg/statecheck/statecheck.go:133-150 | without that hypothesis a valid trace does dispatch under a revoked digest |
| Lifecycle.DeviceKeptIff | pkg/statecheck/statecheck.go:102-153 | in a valid trace the device of a dispatched request's profile was the dispatch's device at every moment since the admission if and only if no device update in between named another |
| Lifecycle.ChangeAndBackIsValid | pkg/statecheck/statecheck.go:102-153 | a valid trace with an admission, a device change, its undoing and the dispatch |
| Lifecycle.DeviceChangeAndBackIsForgotten | pkg/statecheck/statecheck.go:102-113 | after any trace a device update directly followed by its undoing is not reported and leaves the state as it was |
| Interleaving.ShuffleViolations | pkg/statecheck/statecheck.go:61-171 | a shuffle of two traces without common profiles, requests or published digests reports the two lists of violations merged at their shuffled positions |
| Interleaving.ShuffleValidIff | pkg/statecheck/statecheck.go:61-171 | and is valid exactly when both traces are |
| Planner.Decision.Reject | pkg/planner/planner.go:52-55 | appends the reason and keeps admissible equivalent to having no reason |
| Planner.ValidateInputs | pkg/planner/planner.go:143-193 | appends exactly the reasons of unknown, missing and non-conforming inputs and false relations, in loop order |
| Planner.ValidateInterference | pkg/planner/planner.go:194-210 | appends exactly the reasons of the interference envelope |
| Planner.ValidateVersions | pkg/planner/planner.go:211-227 | appends exactly the reasons of the version ranges |
| Planner.ModelFeatures | pkg/planner/planner.go:236-280 | resolves the union of the latency and OOD features and reports success exactly when all are available |
| Evaluation.ComputeScore | pkg/planner/planner.go:299-303 | the running double loop computes the quadratic form |
| Evaluation.ValidateOod | pkg/planner/planner.go:281-311 | the guard's reasons, score and threshold in every branch |
| Evaluation.ValidateDra | pkg/planner/planner.go:312-333 | appends exactly the reasons of the device metadata |
| Evaluation.Evaluate | pkg/planner/planner.go:57-141 | the whole decision, reasons sorted, equals its specification for the given iteration orders |
| Reasons.StableSortSpec | pkg/planner/planner.go:134-139 | the sort orders by code and field, keeps reasons of equal keys in order and loses none |
| Reasons.SortedUnique | pkg/planner/planner.go:134-139 | a stable sort is determined: two sorted lists that agree key by key are equal |
| Reasons.SortedIff | pkg/planner/planner.go:134-139 | sorted means: by the text of the code, and by field where the codes are the same, in byte order |
| Reasons.IterationOrder | pkg/planner/planner.go:144-183 | a loop over a map whose reasons carry the key's field appends the same reasons, key by key, in every order |
| Admission.EvaluateDeterministic | pkg/planner/planner.go:57-141 | for a valid profile and request the decision, ordered reasons included, is the same for every iteration order of every map |
| Admission.AdmissibleIff | pkg/planner/planner.go:57-141 | a request is admitted exactly when it meets every condition, stated by quantifiers over the profile, the request and the observations and versions in force, and exactly when there is no reason |
| RuntimeEvidence.RuntimeAdmission | pkg/planner/planner.go:88-102 | what is admitted at runtime conforms in the observations and versions that the evidence carries |
| RuntimeEvidence.EvidenceReplaces | pkg/planner/planner.go:88-98 | a map in the runtime evidence decides as if the request had carried it |
| RuntimeEvidence.RequestNotRead | pkg/planner/planner.go:88-98 | with both maps in the evidence the request's own are never read |
| RuntimeEvidence.PlanIgnoresEvidence | pkg/planner/planner.go:88-98 | a plan does not depend on the evidence |
| Reporting.PresenceReported | pkg/planner/planner.go:144-156 | UNKNOWN_INPUT and MISSING_INPUT are reported for exactly the undeclared inputs and the required inputs not given |
| Reporting.ValuesReported | pkg/planner/planner.go:157-180 | INPUT_TYPE_MISMATCH, INPUT_OUT_OF_RANGE and UNSEEN_CATEGORY are reported for exactly the inputs of the wrong type, outside the range, or outside the categories |
| Reporting.RelationsReported | pkg/planner/planner.go:183-192 | RELATION_VIOLATION is reported exactly when a relation between two given numbers is false |
| Reporting.InterferenceReported | pkg/planner/planner.go:194-210 | the three interference codes are reported for exactly the unknown, missing and out-of-envelope observations in force: the evidence's at runtime when it has any, otherwise the request's |
| Reporting.VersionsReported | pkg/planner/planner.go:211-227 | the three version codes are reported for exactly the components whose version in force is missing, unreadable or outside its range |
| Reporting.PreambleReported | pkg/planner/planner.go:77-86 | PROFILE_MISMATCH and STALE_CERTIFICATE are reported exactly for another required profile and a stale certificate |
| Reporting.NumericalReported | pkg/planner/planner.go:228-235 | the two numerical codes are reported exactly when the certified bound exceeds the budget and the observed error the bound |
| Reporting.ReasonsSorted | pkg/planner/planner.go:134-139 | the reasons of a decision are in the order of code and field |
| BudgetReporting.ModelsReported | pkg/planner/planner.go:236-280 | MODEL_FEATURE_MISSING and INVALID_MODEL_FEATURE are reported for exactly the features of either model that are not given as numbers, and that have neither prefix |
| BudgetReporting.LatencyFigures | pkg/planner/planner.go:106-114 | with every feature given, the prediction is the intercept plus the sum of coefficient times feature, the bound adds residual, I/O and jitter, and the margin is deadline less safety margin less bound |
| BudgetReporting.LatencyReported | pkg/planner/planner.go:109-119 | and the three latency codes are reported exactly for a negative prediction, a negative bound, and a bound beyond the deadline less the safety margin |
| BudgetReporting.GuardFigures | pkg/planner/planner.go:296-303 | with every feature given, the score is the double sum over the deviations from the mean and the inverse covariance |
| BudgetReporting.GuardReported | pkg/planner/planner.go:304-310 | and a required guard reports INVALID_OOD_SCORE exactly for a negative score and OOD_REJECTED exactly for one above the threshold |
| BudgetReporting.BudgetSkipped | pkg/planner/planner.go:104-121 | with a feature missing neither budget is judged and the figures stay zero |
| BudgetReporting.OodFeatureNeverMissing | pkg/planner/planner.go:287-293 | OOD_FEATURE_MISSING is never reported |
| BudgetReporting.MetadataReported | pkg/planner/planner.go:123-133 | DRA_METADATA_REQUIRED and DRA_REQUEST_MISSING are reported exactly at runtime without metadata, and without a request of the name, gpu by default |
| BudgetReporting.DevicesReported | pkg/planner/planner.go:318-332 | the other device codes are reported exactly for a wrong number of devices of the first request with the name, and for an attribute that some device lacks or that fails an assertion on it |
| BudgetReporting.EarlyReturns | pkg/planner/planner.go:65-76 | an unknown phase, an invalid profile and an invalid request are each the only reason of their refusal |
| Profiles.FeatureMeans | pkg/planner/planner.go:253-272 | a feature is the number under its name in the inputs or the finite observation, by its prefix |
| Profiles.RelationsMean | pkg/planner/planner.go:187 | which of the five relations hold of two numbers in either order or equal |
| Profiles.DevicesForMeans | pkg/dra/metadata.go:306-313 | the devices are those of the first request with the name |
| Profiles.IntegersSatisfy | pkg/planner/planner.go:334-360 | which assertions an integer attribute passes against a number: by their order when it is exact as a float, none otherwise |
| Profiles.WordsSatisfy | pkg/planner/planner.go:334-380 | flags, strings and versions pass by equality with a value of their kind |
| Profiles.OtherKindsSatisfy | pkg/planner/planner.go:361-364 | against a value of another kind only inequality holds |
| Profiles.ListsSatisfy | pkg/dra/metadata.go:123-156 | a list passes exactly by containing a value of its kind |
| Selection.Select | pkg/planner/planner.go:397-424 | picks an admissible profile with the least latency bound, then the least name in byte order, then the least index; the first profile's rejection if none is admissible, and EMPTY_CATALOG for an empty catalog |
| Selection.SelectIgnoresOrder | pkg/planner/planner.go:397-424 | every permutation of a catalog of distinct names gives the same profile, and the same decision if and only if some profile is admissible, the catalog is empty or the first profiles get the same rejection |
| Texts.LessIff | pkg/planner/planner.go:411 | the string order is byte order: a proper prefix first, otherwise the first difference decides |
| Texts.SplitJoin | pkg/contract/semver.go:65 | splitting at a separator undoes joining with it |
| Texts.TrimPadded | pkg/contract/semver.go:16 | trimming drops the white space around a text and nothing else |
| Texts.SpacesAre | pkg/contract/semver.go:16 | white space is the 25 characters of Go's unicode.IsSpace |
| Semver.ParseIntReads | pkg/contract/semver.go:70-71 | a run of digits, with or without a sign, is read exactly when it is in range |
| Semver.ParseIntOnly | pkg/contract/semver.go:70-71 | and nothing else is |
| Semver.ComparePrerelease | pkg/contract/semver.go:64-96 | the loop computes the identifier-wise comparison |
| Semver.CompareIsPrecedence | pkg/contract/semver.go:33-96 | on canonical versions compare is the precedence of section 11 of Semantic Versioning 2.0.0 |
| Semver.PlainIsCanonical | pkg/contract/semver.go:64-96 | versions whose pre-release identifiers are letters and digits, their numbers without leading zeros and within int64, are canonical |
| Semver.CompareOrder | pkg/contract/semver.go:33-96 | on all versions compare is transitive, 0 means equal, and what is before a version has that version after it |
| Semver.AntisymmetricIff | pkg/contract/semver.go:33-96 | compare is antisymmetric on two versions if and only if they do not clash, and clashing versions are each after the other |
| Semver.CanonicalNeverClash | pkg/contract/semver.go:33-96 | canonical versions never clash, so on them compare is a total order |
| Semver.LeadingZeroBreaksOrder | pkg/contract/semver.go:70-80 | 1.0.0-01 and 1.0.0-1 clash |
| VersionRange.ParseRoundTrip | pkg/contract/semver.go:15-31 | printing a version and parsing it gives it back, a leading v and build metadata dropped, unless one of its three numbers exceeds int64, which is an error |
| VersionRange.ParseIff | pkg/contract/semver.go:13-31 | a text parses to a version exactly when, trimmed, it is that version written out, with an optional v before and build metadata behind, and its three numbers fit in an int64 |
| VersionRange.WordsAre | pkg/contract/semver.go:13 | pre-releases and build metadata are of letters, digits, hyphens and dots |
| VersionRange.NormalizeIff | pkg/contract/semver.go:141-150 | exactly the texts of x.y.z, tag, digits and a rest in one line are rewritten, a hyphen before the tag and a dot after it; all others are only trimmed |
| VersionRange.MatchVersionRange | pkg/contract/semver.go:101-135 | the comparator loop computes the match, errors included |
| VersionRange.ComparatorMeaning | pkg/contract/semver.go:115-131 | what each of the five operators, or none, before a version accepts, in terms of compare, white space anywhere around either |
| VersionRange.MatchAllIff | pkg/contract/semver.go:110-134 | a range accepts exactly the versions that every comparator accepts, and otherwise the first comparator that does not decides |
| VersionRange.RangeAccepts | pkg/contract/semver.go:101-135 | a range text of comparators separated by commas accepts a version text exactly when the version stands in the named order to every version named |
| VersionRange.WildcardAccepts | pkg/contract/semver.go:102-109 | an empty range and a star accept every version; a version text that is none is an error before that |
| VersionRange.ComparatorErrors | pkg/contract/semver.go:112-130 | a comparator is an error exactly when it is blank or names no version |
| VersionRange.RangeConvex | pkg/contract/semver.go:101-135 | the versions a range accepts form a convex set, for every range text and all versions |
| MojoWindow.NormalizeText | pkg/contract/semver.go:141-150 | the compact pre-release spelling is normalised to the spelling of Semantic Versioning |
| MojoWindow.NormalizeEmbedsOrder | pkg/contract/semver.go:137-150 | two normalised compact versions compare in the order of the Python keys, a, b, rc, final and numerically within a tag, if and only if they are not one release and tag with misordered numbers beyond int64 |
| MojoWindow.PowersMisordered | pkg/contract/semver.go:70-88 | beyond int64 every power of ten is misordered with its predecessor |
| MojoWindow.PythonReads | scripts/check_mojo_version.py:19-26 | the script reads a compact version as the key it denotes |
| MojoWindow.WindowsDifferOnUpperPrereleases | scripts/check_mojo_version.py:27-33 | on canonical 1.x versions the Go program fails exactly when x, y or z exceeds int64, and otherwise accepts what the Python window accepts and, besides, exactly the pre-releases of 1.1.0 |

## Left out
- Floating point: rounding, overflow and NaN propagation; all results are over exact reals, and a NaN or infinite input is one tagged case. The overflow a finite float32 channel can cause inside the factorisation is therefore not modelled.
- LeaveOneOutCoverage: the ceiling is that of the exact product, not of the rounded float product.
- BinomialCdf: sums exact masses instead of the log-sum-exp over lgamma, and so needs no clamp at 1.
- ToleranceGuarantee: is stated for the confidence less the code's slack of 1e-15, which the code adds to its test.
- FitRidge: the linear solver is a parameter that may raise; RidgeSolver assumes only that it solves the system it is given when that is symmetric positive definite.
- OracleAgrees: the oracle's solver is any X that solves the system; its shape errors are those of RzfPrecoderCholesky.
- RzfPrecoderCholesky: the deterministic flag and the order of summation do not matter in exact arithmetic and are not modelled, nor are data types.
- RzfKernel: interleaves whole loop iterations of threads between barriers, not single loads and stores; within an iteration a thread touches only its own cells, its own accumulator or an atomically set flag. One block is modelled; blocks share nothing.
- HalvingReduce: is the only part of the Mojo kernel modelled; its other phases repeat the CUDA kernel's on pairs of floats.
- Host code of both kernels, benchmarks and the array-library baselines.
- The other field checks of validateProfileBase, ValidateRequest, CertificateFresh, seals, signatures and digests: their errors are fields of the model's profiles and requests.
- The text of error and reason messages: a message carries the values it is built from. The texts of INVALID_PROFILE and INVALID_REQUEST list issues in map order in the code, so the determinism result says nothing about them.
- Evaluate: takes a profile and a request that exist; a nil profile is one INVALID_PROFILE and a nil request one INVALID_REQUEST. A required guard with a ragged matrix makes ValidateProfile index out of range in the code; the model has it as an invalid profile. Request numbers are finite reals, as the decoder guarantees. The phase and contract digest that a decision copies through are omitted.
- Check: message texts are constructors; the event limit and the strict decoding of Load are not modelled.
- WindowsDifferOnUpperPrereleases: the script's search for a version inside a longer text and its case folding are not modelled.
- DRA metadata decoding, artifact staging, launcher, command line, rendering, schemas and data loading.
