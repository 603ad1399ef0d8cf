# stereorecon in Dafny

stereorecon reconstructs 3-D scenes from sets of photographs. This project models its core and proves properties of the model. Each module below follows one part of the C++ sources.

**Keypoint matcher (`src/kmatcher`).**
- `IIDyn` holds the dense payoff-matrix kernels (`mult`, `simplexify`, `dot`, `scale`, `linear_comb`, `nash_error`, and their masked `_m` variants).
- `IIDyn` also holds the infection/immunisation dynamics `iidyn`, the replicator step `repdyn`, and the mask-driven cluster extractors `clustering` and `clustering_noreass`.
- `KMatcher` is the per-image-pair matcher `kmatcher2`. It picks the k nearest descriptor neighbours and builds the symmetric compatibility matrix with a zero diagonal. It perturbs a uniform population, then runs rounds that accept strategies above a population threshold and mask the strategies that collide with them. Output is written only when at least 17 matches survive.
- `KMatcherMain` holds the command-line checks of `main` and the order in which image pairs are matched.

**Stereo viewer (`src/stereoviewer`).**
- `StereoView` is the image store and the feature-tracking table: `add_feature`, `set_correspondence`, and the `correspondence` encoding. It also holds the keyfile, SIFT++ and match-file parsers.
- `TextStream` models the token reads those parsers make.
- `KeyfileWriter` models the keyfiles written for Bundler.
- `Vtk` models the VTK scene export.
- `Config` models the unit conversions and the keypoint colour rule.
- `GLScene` models the scene widget's angle normalisation, zoom and point-set arguments.
- `Maths`, `Misc` and `IO` model the prelude helpers: clamps and projections, `fresh_int`, `option`, `lazy`, `refcnt`, progress reporting, `trim_eol`, `ws_or_endl` and `run_sh`.

**Geometry containers (`cvlab`).**
- `Math3D` covers vectors, matrices, GCD/LCM and segment intersection.
- `Cloud3D` is the point cloud.
- `Mesh` covers the triangle mesh, its iterator and the spin-image settings.
- `KdTree` is the 3-d tree.

**Bundler tools (`src/bundler`).**
- `BundlerBase` is `BaseApp`'s match-index and reindexing bookkeeping.
- `BundleFiles` holds the list and bundle file readers the tools share.
- `RadialUndistort` and `Bundle2Pmvs` model the two command-line tools.

**Archived demo.** `MultiViewStereo` is the demo's image collection.

**Conventions of the model.**
- `double` and `float` are `real`.
- `exp`, `sqrt`, `sin`, `cos` and other library calls the code depends on are function parameters.
- The values `rand()` returns are an input sequence.
- Files are modelled as values: token sequences read by the parsers, and lines or records written by the writers.
- A thrown exception is a `Fail` or `Raised` value naming the exception class.
- An uninitialised value the code would read is `None`.
- Fixed-width wrap-around (`uint32_t`, `unsigned int`, `size_t`, `unsigned short`) is written out where the code relies on it.
- Where a comment or the documentation describes a behaviour differently from the code, the model follows the code. `mult_m` leaves the masked rows of `y` unwritten rather than zeroed. `mask[i] == true` in `iidyn.cpp` excludes strategy `i`, while `active_strategies[i] == true` in `main.cpp` keeps it.

## Model

| member | source | states |
|---|---|---|
| `IIDyn.NoMask` | src/kmatcher/iidyn.cpp:216-217 | the all-false mask of length `n`: the unmasked kernels are the masked ones with nothing excluded |
| `IIDyn.Diagonal` | src/kmatcher/iidyn.cpp:229 | `A[idx*(size+1)]` is the diagonal entry of row `idx` of the row-major matrix |
| `IIDyn.Row` | src/kmatcher/iidyn.cpp:256 | `A+idx*size` addresses a row of exactly `size` entries |
| `IIDyn.MatVec` | src/kmatcher/iidyn.cpp:9-17 | the product `A x` has one entry per row |
| `IIDyn.Clamp` | src/kmatcher/iidyn.cpp:37-41 | negative entries are replaced by 0, positionally, keeping the length |
| `IIDyn.ClampM` | src/kmatcher/iidyn.cpp:50-56 | the masked clamp keeps the length; masked entries are kept |
| `IIDyn.Divided` | src/kmatcher/iidyn.cpp:42-43 | division of every entry by a non-zero sum keeps the length |
| `IIDyn.DividedM` | src/kmatcher/iidyn.cpp:57-60 | division of the unmasked entries keeps the length |
| `IIDyn.Scaled` | src/kmatcher/iidyn.cpp:78-81 | scaling keeps the length (its total is `SumScaled`) |
| `IIDyn.ScaledM` | src/kmatcher/iidyn.cpp:88-92 | masked scaling keeps the length |
| `IIDyn.MulScaledBy` | src/kmatcher/iidyn.cpp:83-86 | `y[i]*x[i]*c` entrywise, same length as `y` |
| `IIDyn.Towards` | src/kmatcher/iidyn.cpp:94-97 | `alfa(x-y)+y` entrywise, same length as `y` |
| `IIDyn.TowardsM` | src/kmatcher/iidyn.cpp:99-103 | the same on unmasked entries, same length |
| `IIDyn.SumClampNonNegative` | src/kmatcher/iidyn.cpp:34-41 | the sum accumulated by `simplexify`'s first loop is never negative |
| `IIDyn.SumDivided` | src/kmatcher/iidyn.cpp:42-43 | dividing every entry by `c` divides the total by `c` |
| `IIDyn.SimplexifyIsSimplex` | src/kmatcher/iidyn.cpp:34-44 | when the clamped sum is non-zero, `simplexify` yields non-negative entries summing to 1 |
| `IIDyn.SumMClampNonNegative` | src/kmatcher/iidyn.cpp:46-56 | the masked sum of the clamped entries is never negative |
| `IIDyn.SumMDivided` | src/kmatcher/iidyn.cpp:57-60 | dividing the unmasked entries by `c` divides their total by `c` |
| `IIDyn.SimplexifyMIsSimplex` | src/kmatcher/iidyn.cpp:46-61 | `simplexify_m` leaves the unmasked entries non-negative with sum 1 when their clamped sum is non-zero |
| `IIDyn.SumMNoMask` | src/kmatcher/iidyn.cpp:70-76 | with no entry masked the masked sum is the plain sum |
| `IIDyn.InnerProductMNoMask` | src/kmatcher/iidyn.cpp:63-76 | with no entry masked `dot_m` equals `dot` |
| `IIDyn.InnerProductSymmetric` | src/kmatcher/iidyn.cpp:63-68 | `dot(x,y) == dot(y,x)`, so `dot(Ax,x)` in `selectStrategy` and `repdyn` is `x.Ax` |
| `IIDyn.NashGapNonNegative` | src/kmatcher/iidyn.cpp:105-117 | the Nash error, a sum of squares, is never negative |
| `IIDyn.NashGapMNonNegative` | src/kmatcher/iidyn.cpp:119-132 | the masked Nash error is never negative |
| `IIDyn.NashGapZeroAtEqualPayoffs` | src/kmatcher/iidyn.cpp:105-117 | at a population where every payoff equals the average payoff the Nash error is 0 |
| `IIDyn.SumScaled` | src/kmatcher/iidyn.cpp:78-81 | `scale` by `c` multiplies the total by `c` |
| `IIDyn.SumMulScaled` | src/kmatcher/iidyn.cpp:83-86 | after `mul_scaled(x,y,c)` the total of `y` is `c` times `dot(x,y)` |
| `IIDyn.ReplicatorStepSumsToOne` | src/kmatcher/iidyn.cpp:472-475 | one replicator step `x[i] *= Ax[i]/xAx` with `xAx = x.Ax != 0` leaves a population summing to 1 |
| `IIDyn.TowardsEnds` | src/kmatcher/iidyn.cpp:94-97 | `linear_comb` with `alfa = 0` leaves `y` unchanged and with `alfa = 1` copies `x` into `y` |
| `IIDyn.MaxPrefix` | src/kmatcher/iidyn.cpp:143-147 | the index found by the strict `>` scan is -1 or an unmasked index below the scanned bound |
| `IIDyn.MinPosPrefix` | src/kmatcher/iidyn.cpp:148-151 | the index found by the strict `<` scan over positive shares is -1 or an unmasked index with `x > 0` |
| `IIDyn.MaxPrefixIsFirstMax` | src/kmatcher/iidyn.cpp:143-147 | the scan yields -1 exactly when every entry is masked, and otherwise the FIRST index of the maximum unmasked payoff |
| `IIDyn.MinPosPrefixIsFirstMin` | src/kmatcher/iidyn.cpp:148-151 | the scan yields -1 exactly when no unmasked entry has positive share, and otherwise the first index of the minimum payoff among them |
| `IIDyn.Choose` | src/kmatcher/iidyn.cpp:155-163 | a picked strategy is an in-range unmasked index |
| `IIDyn.ChooseCases` | src/kmatcher/iidyn.cpp:155-163 | no strategy exactly when all are masked; otherwise `delta = Ax[idx] - xAx`, and the pick is the first maximum, or the first positive-share minimum with `delta < 0` when `xAx - min` exceeds `max - xAx` |
| `IIDyn.InnerProductBoundedByMax` | src/kmatcher/iidyn.cpp:153 | with non-negative shares, `x.Ax` is at most the largest payoff times the total share |
| `IIDyn.BestResponseGainNonNegative` | src/kmatcher/iidyn.cpp:155-159 | on the simplex the best response pays at least the average, so its `delta` is `>= 0` |
| `IIDyn.StepSize` | src/kmatcher/iidyn.cpp:229-251 | `delta >= 0` gives `mu` in [0,1] and no removal; `delta < 0` with `den < 0` gives `mu <= 0`; the strategy is removed exactly when `mu` was not replaced by `-delta/den`; undefined only for a worst response at a vertex with `den >= 0` (division by zero) |
| `IIDyn.Mult` | src/kmatcher/iidyn.cpp:9-17 | `y` becomes `A x` |
| `IIDyn.MultM` | src/kmatcher/iidyn.cpp:19-31 | unmasked rows of `y` become the masked row product; masked rows of `y` are left as they were (not zeroed) |
| `IIDyn.ClampSum` | src/kmatcher/iidyn.cpp:35-41 | the array becomes its clamp and the returned sum is the total of the clamped entries |
| `IIDyn.DivideAll` | src/kmatcher/iidyn.cpp:42-43 | every entry is divided by `c` |
| `IIDyn.Simplexify` | src/kmatcher/iidyn.cpp:34-44 | with a non-zero clamped sum, the array becomes the clamped entries over their sum and is a simplex point; the flag is false exactly when that sum is 0 on a non-empty array |
| `IIDyn.ClampSumM` | src/kmatcher/iidyn.cpp:47-56 | the unmasked entries are clamped and the returned sum is their total |
| `IIDyn.DivideAllM` | src/kmatcher/iidyn.cpp:57-60 | every unmasked entry is divided by `c` |
| `IIDyn.SimplexifyM` | src/kmatcher/iidyn.cpp:46-61 | masked entries are never written; unmasked ones are clamped and divided by their clamped sum when it is non-zero |
| `IIDyn.Dot` | src/kmatcher/iidyn.cpp:63-68 | returns the inner product |
| `IIDyn.DotM` | src/kmatcher/iidyn.cpp:70-76 | returns the inner product over the unmasked entries |
| `IIDyn.Scale` | src/kmatcher/iidyn.cpp:78-81 | every entry is multiplied by `c` |
| `IIDyn.ScaleM` | src/kmatcher/iidyn.cpp:88-92 | every unmasked entry is multiplied by `c`; masked entries are unchanged |
| `IIDyn.MulScaled` | src/kmatcher/iidyn.cpp:83-86 | `y[i]` becomes `y[i]*x[i]*c` for every `i` |
| `IIDyn.LinearComb` | src/kmatcher/iidyn.cpp:94-97 | `y[i]` becomes `alfa(x[i]-y[i])+y[i]` for every `i` |
| `IIDyn.LinearCombM` | src/kmatcher/iidyn.cpp:99-103 | the same on unmasked entries; masked entries are unchanged |
| `IIDyn.NashError` | src/kmatcher/iidyn.cpp:105-117 | returns the sum of the squared capped deviations `min(xAx-Ax[i], x[i])`, which is `>= 0` |
| `IIDyn.NashErrorM` | src/kmatcher/iidyn.cpp:119-132 | the same over the unmasked entries, `>= 0` |
| `IIDyn.ScanExtremes` | src/kmatcher/iidyn.cpp:143-152 | the single scan returns the first maximum and the first positive-share minimum of the unmasked payoffs |
| `IIDyn.SelectStrategy` | src/kmatcher/iidyn.cpp:134-169 | the selection is the rule `Choose` with `xAx = dot(Ax,x)`, and the returned error is the non-negative Nash error |
| `IIDyn.SelectStrategyM` | src/kmatcher/iidyn.cpp:171-208 | the same with the masked scan, `dot_m` and `nash_error_m` |
| `IIDyn.Iidyn` | src/kmatcher/iidyn.cpp:212-264 | the final population, iteration count and stop reason are exactly those of `IidynOf` on the starting population; the count is in [0, `max_iters`] (0 when `max_iters <= 0`); a converged stop happens before the cap; unless a value went non-finite the population ends on the simplex; for a symmetric `A` a converged stop means the Nash error of `x` against the true payoffs `A x` is below `toll*toll` |
| `IIDyn.NextStep` | src/kmatcher/iidyn.cpp:225-251 | returns the non-negative Nash error and exactly the strategy and step `Advance` specifies, or none where the source meets a non-finite value |
| `IIDyn.Advanced` | src/kmatcher/iidyn.cpp:252-256 | the population becomes `simplexify` of the moved population, the payoffs move by `linear_comb` towards row `idx`, and the flag is false exactly when the moved population's clamped sum is 0 |
| `IIDyn.Move` | src/kmatcher/iidyn.cpp:252-253 | the array becomes the moved population: scaled by `1-mu`, then entry `idx` zeroed or raised by `mu` |
| `IIDyn.Thresholded` | src/kmatcher/iidyn.cpp:325-327 | the post-threshold vector has one 0/1 entry per payoff |
| `IIDyn.ThresholdedSupport` | src/kmatcher/iidyn.cpp:325-327 | for a positive average payoff an entry is 1 exactly when its payoff exceeds 0.8 times the average, and 0 otherwise |
| `IIDyn.IidynMThreshold` | src/kmatcher/iidyn.cpp:324-327 | the population is overwritten by the thresholded payoffs against `dot_m(Ax,x)`; every entry ends 0 or 1 |
| `IIDyn.Repdyn` | src/kmatcher/iidyn.cpp:465-480 | the count never exceeds the loop bound and reaches it exactly on an iteration-cap stop; after a finite start on a non-empty population the shares sum to 1; a converged stop means the Nash error against `A x` is below `toll*toll`; with a non-negative `A` the population stays on the simplex |
| `IIDyn.SetM` | src/kmatcher/iidyn.cpp:368-372 | every unmasked entry becomes `c`; masked entries are unchanged |
| `IIDyn.Absorbed` | src/kmatcher/iidyn.cpp:396-405 | the mask after a round has the old mask's length |
| `IIDyn.NotJoining` | src/kmatcher/iidyn.cpp:397 | the entries excluded from the representative search have the mask's length |
| `IIDyn.FreeCountSet` | src/kmatcher/iidyn.cpp:398-404 | masking one unmasked entry decrements the unmasked count `n` by exactly one |
| `IIDyn.AbsorbedShrinksFree` | src/kmatcher/iidyn.cpp:396-405 | a round never unmasks an index and never increases `n`; `n` is unchanged exactly when the mask is unchanged |
| `IIDyn.FreeCountZero` | src/kmatcher/iidyn.cpp:385 | `n == 0` exactly when every strategy is masked, the loop's second exit |
| `IIDyn.RepresentativeIsFirstLargest` | src/kmatcher/iidyn.cpp:394-406 | the recorded representative is -1 exactly when nothing joins, and otherwise the first joining strategy of largest positive share |
| `IIDyn.AbsorbRound` | src/kmatcher/iidyn.cpp:391-405 | the mask becomes the round's absorbed mask, `n` counts its unmasked entries, and the returned index is the first largest joining strategy |
| `IIDyn.FreeCountNoMask` | src/kmatcher/iidyn.cpp:379-384 | the fresh all-false mask has `size` unmasked entries, so `n = size` starts right |
| `IIDyn.LabelRound` | src/kmatcher/iidyn.cpp:444-450 | the joining strategies are masked and labelled `tag`; every other label is unchanged; `n` counts the unmasked entries |
| `IIDyn.LabelledStep` | src/kmatcher/iidyn.cpp:444-450 | labelling the newly masked strategies with the round number keeps every label equal to the round that first masked it |
| `IIDyn.RoundsExtend` | src/kmatcher/iidyn.cpp:385-405 | a completed round extends a well-formed history of rounds |
| `IIDyn.ClusterRound` | src/kmatcher/iidyn.cpp:386-405 | a round starts from `1/n` on the unmasked strategies, runs the masked dynamics, masks the joining ones and returns the representative |
| `IIDyn.RecordClusterRound` | src/kmatcher/iidyn.cpp:385-407 | the same round appended to the recorded history |
| `IIDyn.Clustering` | src/kmatcher/iidyn.cpp:374-418 | returns at most `k` clusters (0 for `k <= 0`), records each round's representative in `clusters[r]` and nothing past them, and stopping before `k` means every strategy is masked |
| `IIDyn.Representatives` | src/kmatcher/iidyn.cpp:406 | one representative per recorded round |
| `IIDyn.ClusterStep` | src/kmatcher/iidyn.cpp:385-407 | a round appends exactly its representative to the recorded ones |
| `IIDyn.NoReassRound` | src/kmatcher/iidyn.cpp:433-450 | a `clustering_noreass` round: the masked dynamics from `1/n`, then the joining strategies are masked and relabelled |
| `IIDyn.Relabel` | src/kmatcher/iidyn.cpp:444-450 | labels of entries already masked or not joining, and entries past `size`, are unchanged |
| `IIDyn.NoReassStep` | src/kmatcher/iidyn.cpp:432-451 | a round extends both the round history and the labelling invariant |
| `IIDyn.RecordNoReassRound` | src/kmatcher/iidyn.cpp:432-451 | the same round appended to the recorded history |
| `IIDyn.ClearLabels` | src/kmatcher/iidyn.cpp:425-429 | the first `size` labels become 0; the rest are unchanged |
| `IIDyn.ClusteringNoReass` | src/kmatcher/iidyn.cpp:420-462 | returns rounds + 1, in [1, k+1]; every strategy is labelled 0 or the round (from 1) that absorbed it; stopping before `k` means every strategy is masked; labels past `size` are untouched |
| `IIDyn.SumUpdate` | src/kmatcher/iidyn.cpp:253 | overwriting one entry changes the total by the new value minus the old one |
| `IIDyn.EntryAtMostSum` | src/kmatcher/iidyn.cpp:241 | no share of a non-negative population exceeds the total, so a simplex share is in [0,1] |
| `IIDyn.InnerProductUpdate` | src/kmatcher/iidyn.cpp:63-68 | changing one entry of `v` changes `u.v` by the matching entry of `u` times the change |
| `IIDyn.InnerProductScaled` | src/kmatcher/iidyn.cpp:63-68 | `dot(u, c v) == c dot(u, v)` |
| `IIDyn.InnerProductNonNegative` | src/kmatcher/iidyn.cpp:63-68 | the inner product of two non-negative vectors is non-negative |
| `IIDyn.ReplicatorStepNonNegative` | src/kmatcher/iidyn.cpp:472-475 | with a non-negative payoff matrix, one replicator step from a non-negative population keeps every share non-negative |
| `IIDyn.Simplexified` | src/kmatcher/iidyn.cpp:34-44 | `simplexify` as a function keeps the length (`SimplexifyIsSimplex` states the simplex property) |
| `IIDyn.StepShare` | src/kmatcher/iidyn.cpp:229-251 | every step the step-size rule takes on a share in [0,1] has `mu <= 1`, keeps a kept share non-negative, and puts an extinguished share exactly where the mixture would |
| `IIDyn.MovedNonNegative` | src/kmatcher/iidyn.cpp:252-253 | an iteration from a simplex point with a safe step leaves no share negative |
| `IIDyn.MovedSum` | src/kmatcher/iidyn.cpp:252-253 | an iteration from a population summing to 1 reaches either the exact mixture `(1-mu) x + mu e_idx`, summing to 1, or a population summing to 0 (a vertex extinguishing itself) |
| `IIDyn.MixedSum` | src/kmatcher/iidyn.cpp:252-253 | the mixture `(1-mu) x + mu e_idx` of a population summing to 1 sums to 1 |
| `IIDyn.MixedPayoffAt` | src/kmatcher/iidyn.cpp:256 | the payoff of one strategy against the mixture is the matching entry of `linear_comb` of its payoffs against `e_idx` and against `x` |
| `IIDyn.SymmetricRow` | src/kmatcher/iidyn.cpp:256 | in a symmetric matrix entry `j` of row `i` is entry `i` of row `j` |
| `IIDyn.Column` | src/kmatcher/iidyn.cpp:256 | column `idx` of the row-major matrix has one entry per row |
| `IIDyn.SymmetricColumn` | src/kmatcher/iidyn.cpp:256 | in a symmetric matrix column `idx` is row `idx`, the one `linear_comb(A+idx*size, ...)` reads |
| `IIDyn.MixedPayoffs` | src/kmatcher/iidyn.cpp:256 | when column `idx` equals row `idx`, `linear_comb(A[idx], Ax, mu)` is exactly the payoff vector `A` times the mixture |
| `IIDyn.Advance` | src/kmatcher/iidyn.cpp:225-251 | a step, when one can be taken, picks a strategy index below `size` |
| `IIDyn.IidynLoop` | src/kmatcher/iidyn.cpp:223-259 | the loop keeps the population and payoff vector at length `size` |
| `IIDyn.IidynLoopAdvance` | src/kmatcher/iidyn.cpp:225-258 | an iteration below the cap and above the tolerance that finds a step continues the loop from the moved, simplexified population, or stops non-finite when its clamped sum is 0 |
| `IIDyn.IidynLoopHalts` | src/kmatcher/iidyn.cpp:223-227 | the loop stops at the cap when `niter >= max_iters`, and as converged when below the cap the Nash error is under the squared tolerance |
| `IIDyn.IidynLoopStuck` | src/kmatcher/iidyn.cpp:225-251 | where no step can be taken the loop stops non-finite without moving |
| `IIDyn.IidynOf` | src/kmatcher/iidyn.cpp:212-220 | `iidyn` as a function: simplexify, compute `A x`, square the tolerance, loop; the population keeps its length |
| `IIDyn.IidynLoopConverged` | src/kmatcher/iidyn.cpp:223-227 | a converged stop leaves a population whose Nash error against the maintained payoffs is below `tol2` |
| `IIDyn.IidynLoopSimplex` | src/kmatcher/iidyn.cpp:223-259 | starting on the simplex, the loop ends on the simplex unless it stopped non-finite |
| `IIDyn.IidynLoopPayoffs` | src/kmatcher/iidyn.cpp:229-258 | with a symmetric `A`, starting on the simplex with `ax = A x`, the payoff vector updated by `linear_comb` is still `A x` at every finite stop |
| `IIDyn.AdvanceSafe` | src/kmatcher/iidyn.cpp:225-251 | every step the loop takes from a simplex point picks an index below `size` and is safe: `mu <= 1`, a kept share stays non-negative, an extinguished share lands where the mixture puts it |
| `IIDyn.MixedStep` | src/kmatcher/iidyn.cpp:252-256 | for a symmetric `A`, a safe step from a simplex point that does not empty the population lands on the simplex, `simplexify` leaves it alone, and `linear_comb` turns `A x` into `A` times the new point |
| `IIDyn.IidynOfSound` | src/kmatcher/iidyn.cpp:212-264 | `iidyn` ends on the simplex unless it stopped non-finite, and for a symmetric `A` it stops as converged only where the true Nash error against `A x` is below `toll*toll` |
| `KMatcher.SquaredDistance` | src/kmatcher/main.cpp:169-175 | the accumulated squared descriptor difference is never negative |
| `KMatcher.Distances` | src/kmatcher/main.cpp:166-178 | one distance per feature of `f2` |
| `KMatcher.DescriptorDistance` | src/kmatcher/main.cpp:168-177 | the inner loop returns `sqrt` of the squared descriptor distance |
| `KMatcher.Neighbours` | src/kmatcher/main.cpp:161-189 | fails with `runtime_error` exactly when `min(|f2|, k)` is 0; otherwise returns that many distinct indices of `f2`, ordered by non-decreasing distance, none farther than any index left out |
| `KMatcher.SelectStep` | src/kmatcher/main.cpp:180-188 | taking the nearest index not yet taken keeps the prefix nearest first |
| `KMatcher.SelectNearest` | src/kmatcher/main.cpp:180-188 | returns `nn` indices nearest first, a result the sort-then-truncate of the source can give |
| `KMatcher.NearestFree` | src/kmatcher/main.cpp:180 | returns an index not yet taken whose distance is no larger than that of any other index not taken |
| `KMatcher.Associate` | src/kmatcher/main.cpp:377-404 | the strategy keeps its source and target indices |
| `KMatcher.OwnTransformExact` | src/kmatcher/main.cpp:386-403 | a strategy's rotation, scaling and translation carry its source point exactly onto its target point, whatever `sin` and `cos` return |
| `KMatcher.ErrorOrders` | src/kmatcher/main.cpp:210-215 | the two operand orders of the cross error compute the same value |
| `KMatcher.CompatibilitySymmetric` | src/kmatcher/main.cpp:194-221 | `getCompatibility(a1,a2) == getCompatibility(a2,a1)`: swapping the strategies swaps the two cross errors inside the max |
| `KMatcher.Block` | src/kmatcher/main.cpp:365-369 | the targets of a block of `k` strategies |
| `KMatcher.FillBlock` | src/kmatcher/main.cpp:361-370 | block `i` gets source `i` and the neighbours of feature `i` as targets, extending the laid-out prefix by one block |
| `KMatcher.TargetBlock` | src/kmatcher/main.cpp:361-370 | one turn of the feature loop: `neighbours` of feature `i` throws `runtime_error` exactly when `k` or `|to|` is 0; otherwise its nearest-first result becomes the targets of block `i`, extending the laid-out prefix by one block |
| `KMatcher.WriteBlock` | src/kmatcher/main.cpp:366-369 | entries `base..base+k-1` get source `i` and targets `neighs`, in order; every other entry is unchanged |
| `KMatcher.FillBlockDone` | src/kmatcher/main.cpp:365-369 | a written block extends the laid-out prefix by one block |
| `KMatcher.Layout` | src/kmatcher/main.cpp:354-404 | fails (the exception of `neighbours`) exactly when there are features to match and `k` or `|to|` is 0; otherwise there are `k*|from|` strategies, strategy `i*k+j` pairs feature `i` with its `j`-th nearest neighbour, and each carries its transform |
| `KMatcher.LayoutDone` | src/kmatcher/main.cpp:377-404 | computing the transforms keeps the layout of sources and targets |
| `KMatcher.Transforms` | src/kmatcher/main.cpp:377-404 | every strategy keeps its source and target and gets the transform computed from its two features |
| `KMatcher.CompatMatrix` | src/kmatcher/main.cpp:374-413 | the payoff matrix has `n*n` cells |
| `KMatcher.CompatMatrixSymmetric` | src/kmatcher/main.cpp:194-197 | the filled matrix is symmetric with a zero diagonal |
| `KMatcher.FilledStep` | src/kmatcher/main.cpp:409-411 | handling pair `(i,j)` sets cells `(i,j)` and `(j,i)` and no other |
| `KMatcher.FilledMatrix` | src/kmatcher/main.cpp:406-413 | the matrix while the fill loops are at pair `(i,j)` has `n*n` cells |
| `KMatcher.FillStart` | src/kmatcher/main.cpp:374-375 | before the fill loops the matrix is all zero |
| `KMatcher.FillCell` | src/kmatcher/main.cpp:409-411 | pair `(i,j)` changes exactly the two mirrored cells |
| `KMatcher.FillPair` | src/kmatcher/main.cpp:409-411 | the two stores of pair `(i,j)` move the fill state to `(i,j+1)` |
| `KMatcher.FillNextRow` | src/kmatcher/main.cpp:406-407 | finishing row `i` is starting row `i+1` at column `i+2` |
| `KMatcher.FillDone` | src/kmatcher/main.cpp:406-413 | after the last row the filled matrix is the full compatibility matrix |
| `KMatcher.FillRow` | src/kmatcher/main.cpp:407-412 | the inner fill loop fills row `i` of the upper triangle and its mirror |
| `KMatcher.FillCompatibility` | src/kmatcher/main.cpp:374-413 | returns a fresh matrix equal to the compatibility matrix |
| `KMatcher.Perturb` | src/kmatcher/main.cpp:415-430 | the loop computes exactly `PerturbOf(n, draws)`: the uniform population `1/n` with each draw moving `percent % 5` percent of the share at `first % n` onto it, taken from the share at `second % n`; the total stays exactly 1 |
| `KMatcher.Uniform` | src/kmatcher/main.cpp:420-421 | the starting population has one share per strategy |
| `KMatcher.Nudged` | src/kmatcher/main.cpp:425-429 | one perturbation step keeps the population length |
| `KMatcher.Transfer` | src/kmatcher/main.cpp:427-429 | adding `tmp` to one entry and taking it from another keeps the length |
| `KMatcher.NudgedAll` | src/kmatcher/main.cpp:423-430 | the perturbation steps applied in order keep the length |
| `KMatcher.PerturbOf` | src/kmatcher/main.cpp:415-430 | the perturbed population has one share per strategy (`PerturbOfSum` gives its total) |
| `KMatcher.NudgedAllStep` | src/kmatcher/main.cpp:423-430 | applying the draws from `i` on is applying draw `i`, then the draws from `i+1` on |
| `KMatcher.TransferSum` | src/kmatcher/main.cpp:427-429 | moving `tmp` from one entry to another (possibly the same) keeps the total |
| `KMatcher.NudgedSum` | src/kmatcher/main.cpp:425-429 | one perturbation step keeps the total |
| `KMatcher.NudgedAllSum` | src/kmatcher/main.cpp:423-430 | any number of perturbation steps keep the total |
| `KMatcher.PerturbOfSum` | src/kmatcher/main.cpp:415-430 | the perturbed uniform population sums to exactly 1, whatever the draws |
| `KMatcher.MaxOf` | src/kmatcher/main.cpp:478 | the value `max_element` points to is an entry and bounds every entry |
| `KMatcher.Above` | src/kmatcher/main.cpp:479-483 | the selected indices lie below the scanned bound |
| `KMatcher.AboveExactly` | src/kmatcher/main.cpp:479-483 | the selection is increasing and holds exactly the indices whose share exceeds the threshold |
| `KMatcher.OverThreshold` | src/kmatcher/main.cpp:480-483 | the loop returns the selection, every index in range |
| `KMatcher.GoodStrategies` | src/kmatcher/main.cpp:478-483 | returns the increasing list of strategies whose share exceeds the largest share times the quality threshold |
| `KMatcher.HitSome` | src/kmatcher/main.cpp:236-285 | a strategy is hit exactly when its source is in the source box, or its target in the target box, of some accepted strategy |
| `KMatcher.Hits` | src/kmatcher/main.cpp:236-285 | one hit flag per strategy |
| `KMatcher.Survive` | src/kmatcher/main.cpp:259 | deactivation only flips active flags from true to false |
| `KMatcher.Kill` | src/kmatcher/main.cpp:247-259 | one flag per strategy for the strategies deactivated now |
| `KMatcher.Cleared` | src/kmatcher/main.cpp:254-258 | the matrix with the crosses of the dead strategies zeroed keeps its `n*n` cells |
| `KMatcher.ClearedSymmetric` | src/kmatcher/main.cpp:254-258 | zeroing full rows and columns keeps the matrix symmetric and zeroes every named cross |
| `KMatcher.ClearedAt` | src/kmatcher/main.cpp:254-258 | a cell is zero if its row or column is dead, otherwise unchanged |
| `KMatcher.ClearedTwice` | src/kmatcher/main.cpp:245-284 | clearing two sets in turn clears their union |
| `KMatcher.ZeroCross` | src/kmatcher/main.cpp:254-258 | zeroes exactly row `i` and column `i`; every other cell is unchanged |
| `KMatcher.Upto` | src/kmatcher/main.cpp:245 | the flags of the strategies the box loop has passed keep the length |
| `KMatcher.CrossCleared` | src/kmatcher/main.cpp:254-258 | zeroing the cross of `i` is clearing with `i` the only dead strategy |
| `KMatcher.ClearStep` | src/kmatcher/main.cpp:245-261 | one step of a box loop extends the deactivation and the clearing by strategy `i` |
| `KMatcher.ClearStart` | src/kmatcher/main.cpp:245 | before a box loop nothing is deactivated or cleared |
| `KMatcher.UptoAll` | src/kmatcher/main.cpp:245 | after the whole loop every strategy has been passed |
| `KMatcher.ClearBox` | src/kmatcher/main.cpp:245-261 | one box loop deactivates every still active strategy in the box and zeroes its row and column; nothing else changes |
| `KMatcher.SourceBox` | src/kmatcher/main.cpp:240-252 | one flag per strategy for the open source box of half-side `radius` |
| `KMatcher.TargetBox` | src/kmatcher/main.cpp:263-275 | one flag per strategy for the open target box |
| `KMatcher.HitsExtend` | src/kmatcher/main.cpp:236-286 | one more accepted strategy adds its source box and target box to the hits |
| `KMatcher.TwoBoxes` | src/kmatcher/main.cpp:245-284 | the source loop then the target loop deactivate and clear what one loop over both boxes would |
| `KMatcher.Strategies` | src/kmatcher/main.cpp:238 | one strategy index per record |
| `KMatcher.DeleteFeatureFromMatch` | src/kmatcher/main.cpp:226-287 | the active flags become those not hit by the records from `start` on, and exactly the crosses of the strategies deactivated now are zeroed; untouched strategies lie outside every box |
| `KMatcher.Not` | src/kmatcher/main.cpp:436 | the inactive flags keep the length |
| `KMatcher.MaskedStep` | src/kmatcher/main.cpp:511-519 | a masking step keeps the matrix symmetric and the row and column of every inactive strategy zero |
| `KMatcher.RoundRecords` | src/kmatcher/main.cpp:487-490 | round `r` records one `(r, i)` pair per selected strategy, in order |
| `KMatcher.KeptExactly` | src/kmatcher/main.cpp:485-529 | a record survives exactly when its round selected at least `min_good_strategies`; records come in round order and at most one group per round is counted |
| `KMatcher.MatchLines` | src/kmatcher/main.cpp:536-552 | nothing is written below 17 matches; otherwise the image pair, the count, and one `a b` keypoint-index line per match |
| `KMatcher.GroupLines` | src/kmatcher/main.cpp:540-551 | the `.grp` lines are the match lines with the round appended to each match line |
| `KMatcher.PlayedExtend` | src/kmatcher/main.cpp:442-531 | appending a round to a trace keeps every recorded round valid |
| `KMatcher.RoundKept` | src/kmatcher/main.cpp:442-531 | a recorded round stays a valid round of any trace that extends the trace it was recorded in |
| `KMatcher.StepMasked` | src/kmatcher/main.cpp:511-519 | a round keeps the matrix symmetric and the crosses of inactive strategies zero |
| `KMatcher.NoneDead` | src/kmatcher/main.cpp:436 | with every strategy active there is no cross to be zero |
| `KMatcher.PlayedMaskedStep` | src/kmatcher/main.cpp:442-531 | the symmetry and zero-cross invariant passes from one round to the next |
| `KMatcher.PlayedMasked` | src/kmatcher/main.cpp:406-413 | along the whole round loop the matrix stays symmetric and every inactive strategy's row and column stay zero |
| `KMatcher.PlayedConverged` | src/kmatcher/main.cpp:445-463 | every round whose dynamics converged reached a population whose Nash error against the round's matrix is below the squared termination threshold |
| `KMatcher.DynamicsConverged` | src/kmatcher/main.cpp:445-463 | `iidyn` from the perturbed population on a symmetric matrix converges only at a Nash error below the squared termination threshold |
| `KMatcher.PlayedMonotone` | src/kmatcher/main.cpp:259 | a strategy, once inactive, stays inactive |
| `KMatcher.PlayedAppend` | src/kmatcher/main.cpp:442-531 | a trace extended by one valid round is a trace |
| `KMatcher.AppendShaped` | src/kmatcher/main.cpp:442-531 | appending a round keeps the trace's shape and every earlier round unchanged |
| `KMatcher.AppendRound` | src/kmatcher/main.cpp:442-531 | the appended round is a valid round of the extended trace |
| `KMatcher.RunDynamics` | src/kmatcher/main.cpp:445-463 | the population and stop reason are exactly those of `iidyn` started from `perturbed` on the current matrix; the population is a simplex point unless a step was non-finite; the average payoff is `x·A·x` |
| `KMatcher.SelectAndMask` | src/kmatcher/main.cpp:478-519 | records `(iter, i)` for exactly the strategies over `max·quality`; unless this is the last iteration it masks around them, otherwise matrix and flags are unchanged |
| `KMatcher.StepOf` | src/kmatcher/main.cpp:442-531 | a round that ran the dynamics and then stopped, or selected and masked, is a valid round |
| `KMatcher.PlayRound` | src/kmatcher/main.cpp:442-520 | one round stops the loop (no selection) exactly when the average payoff is below the threshold; otherwise it records its selection and masks |
| `KMatcher.KeptAppend` | src/kmatcher/main.cpp:521-529 | a round below `min_good_strategies` adds no record and no group; otherwise its records and one group |
| `KMatcher.SizeSub` | src/kmatcher/main.cpp:509 | `size_t` subtraction: the exact difference when it is not negative, the difference plus 2^64 when it is |
| `KMatcher.StratCountsExactly` | src/kmatcher/main.cpp:527 | the `.strats` list has exactly one count per accepted round, each below 2^64 |
| `KMatcher.StratCountsAppend` | src/kmatcher/main.cpp:509-529 | a round below `min_good_strategies` adds no count; otherwise it adds `n` minus the records held right after its own were appended |
| `KMatcher.Tally` | src/kmatcher/main.cpp:509-529 | the end of a round: the kept records, the group count and the `.strats` counts become those of the rounds so far with this one appended |
| `KMatcher.RecordRound` | src/kmatcher/main.cpp:442-531 | one round appended to the trace, with the records it keeps |
| `KMatcher.RoundLoop` | src/kmatcher/main.cpp:442-531 | the loop runs at most `max_iterations` rounds, stops at the first payoff below the threshold, and returns exactly the records, the group count and the `.strats` counts of the rounds with enough strategies |
| `KMatcher.Kmatcher2` | src/kmatcher/main.cpp:346-569 | fails exactly when no neighbour can be asked for; otherwise the layout, the population `PerturbOf(n, draws)` of total 1, a valid finished round loop whose every round runs `iidyn` from it, the kept records and group count, the match and `.grp` lines gated at 17, and one `.strats` count per group |
| `KMatcherMain.ArgsAcceptedRange` | src/kmatcher/main.cpp:582-589 | the usage check accepts exactly 10 to 12 arguments, program name included |
| `KMatcherMain.ReferenceImage` | src/kmatcher/main.cpp:607-608 | the reference image is `argv[10]` exactly when 11 arguments are given, and -1 (all-vs-all) otherwise |
| `KMatcherMain.PairsUpToExactly` | src/kmatcher/main.cpp:653-654 | `PairsUpTo(n, r)`, the first `r` rows of the schedule, holds exactly the pairs `a < b` with `a < r`, in lexicographic order, `r(2n-r-1)/2` of them |
| `KMatcherMain.PairsUpToMembers` | src/kmatcher/main.cpp:653-654 | the first `r` rows of the schedule hold a pair `(a, b)` exactly when `a < r` and `a < b < n` |
| `KMatcherMain.PairsUpToOrdered` | src/kmatcher/main.cpp:653-654 | the pairs of the first `r` rows come in lexicographic order |
| `KMatcherMain.PairsUpToCount` | src/kmatcher/main.cpp:653-654 | the first `r` rows hold `r(2n-r-1)/2` pairs |
| `KMatcherMain.AllVsAllExactly` | src/kmatcher/main.cpp:653-665 | `AllVsAll(n)`, the all-vs-all schedule, lists each unordered image pair once, `n(n-1)/2` pairs |
| `KMatcherMain.OneVsAll` | src/kmatcher/main.cpp:626-634 | every one-vs-all pair has the reference as first image and a different second image |
| `KMatcherMain.OneVsAllMembers` | src/kmatcher/main.cpp:626-627 | every image but the reference is matched against it |
| `KMatcherMain.OneVsAllOrdered` | src/kmatcher/main.cpp:626-634 | each once, in increasing order: `n-1` pairs for a reference inside the list |
| `KMatcherMain.Schedule` | src/kmatcher/main.cpp:618-668 | `main` hands `kmatcher2` the one-vs-all schedule when a reference is given and the all-vs-all schedule otherwise |
| `KMatcherMain.RowPairs` | src/kmatcher/main.cpp:654 | row `i` of the schedule holds `(i, j)` for `j = i+1 .. n-1`, in order |
| `KMatcherMain.MgrpLines` | src/kmatcher/main.cpp:651-665 | the `.mgrp` file has one four-number line per scheduled pair |
| `KMatcherMain.MgrpLinesAt` | src/kmatcher/main.cpp:660-662 | line `k` is `i j n_matches n_groups` for pair `k`, with the kept matches and accepted groups of its result |
| `KMatcherMain.MgrpAllVsAll` | src/kmatcher/main.cpp:651-665 | in an all-vs-all run over `n` images the `.mgrp` file has `n(n-1)/2` lines, line `k` starting with the images of pair `k`, `a < b < n`, every such pair scheduled |
| `StereoView.Original` | src/stereoviewer/stereoview.h:87-91 | an original correspondence keeps its corner and group, is original, and has no error |
| `StereoView.Tracked` | src/stereoviewer/stereoview.h:93-97 | a tracked correspondence keeps its corner and group; with no error or an error `e >= 0` it is not original and its error is the one given |
| `StereoView.Error` | src/stereoviewer/stereoview.h:98-99 | an error is never negative, and for a correspondence that is not original it is the stored one |
| `StereoView.TrackedNegativeIsOriginal` | src/stereoviewer/stereoview.h:93-99 | a tracked correspondence given a negative error reads back as original with no error: the -1 encoding cannot tell them apart |
| `StereoView.ShownImage` | src/stereoviewer/stereoview.h:130-135 | the unscaled image unless a size is given that is smaller in width or in height, in which case the scaled one |
| `StereoView.IndexOf` | src/stereoviewer/stereoview.h:157-165 | the position found holds the id and no earlier position does; none means no entry holds it |
| `StereoView.FindByImageId` | src/stereoviewer/stereoview.h:157-165 | returns the first entry with the id and fails with `invalid_argument` exactly when there is none |
| `StereoView.IndexOfUnique` | src/stereoviewer/stereoview.h:157-165 | with distinct ids the search finds the one entry carrying the id |
| `StereoView.KeypointsReplaced` | src/stereoviewer/stereoview.cpp:339-358 | replacing an image's keypoints by keypoints without features keeps ids distinct, sizes equal, slot counts and feature ids in range |
| `StereoView.Padded` | src/stereoviewer/stereoview.h:699-703 | an image other than the feature's own gets one empty slot appended, the feature's own image is left alone; id, keypoints and feature ids always kept |
| `StereoView.AdvanceFeature` | src/stereoviewer/stereoview.h:622 | `n` steps from `begin_by_image` the iterator's `feature()` is `n` more than at the start, on the same image |
| `StereoView.ReadFloatsAdapted` | src/stereoviewer/stereoview.cpp:350-355 | the descriptor loop yields exactly `n` adapted values |
| `StereoView.ReadUIntsAdapted` | src/stereoviewer/stereoview.cpp:405-410 | the SIFT++ descriptor loop yields exactly `n` adapted values |
| `StereoView.KeyfileKeypoint` | src/stereoviewer/stereoview.cpp:343-355 | a keypoint read from a keyfile has no feature yet |
| `StereoView.SiftKeypoint` | src/stereoviewer/stereoview.cpp:398-410 | a keypoint read from a SIFT++ file has no feature yet |
| `StereoView.KeypointFieldOrder` | src/stereoviewer/stereoview.cpp:346-348 | the generic keyfile stores `y` from the first number and `x` from the second, SIFT++ (line 401) the other way round; scale and rotation are adapted |
| `StereoView.KeyfileKeypoints` | src/stereoviewer/stereoview.cpp:341-360 | at most the announced count is stored, and the completion flag holds exactly when all of them are |
| `StereoView.SiftKeypoints` | src/stereoviewer/stereoview.cpp:390-412 | at most the line count is stored; the reading ends quietly or with a `runtime_error` |
| `StereoView.KeyfileLoopStep` | src/stereoviewer/stereoview.cpp:357-358 | one turn keeps what is stored so far followed by what the rest of the loop stores |
| `StereoView.SiftLoopStep` | src/stereoviewer/stereoview.cpp:392-411 | one turn on a good stream keeps the same |
| `StereoView.LoopsUnassigned` | src/stereoviewer/stereoview.cpp:343-358 | both parsers store keypoints without features |
| `StereoView.KeyfileHeader` | src/stereoviewer/stereoview.cpp:326-328 | the header is read from the start of the file's tokens |
| `StereoView.FloatsLoopStep` | src/stereoviewer/stereoview.cpp:350-355 | one descriptor turn appends one adapted value |
| `StereoView.UIntsLoopStep` | src/stereoviewer/stereoview.cpp:405-410 | one SIFT++ descriptor turn appends one adapted value |
| `StereoView.ReadDescriptorFloats` | src/stereoviewer/stereoview.cpp:350-355 | the loop reads the `dim` adapted descriptor values |
| `StereoView.ReadDescriptorUInts` | src/stereoviewer/stereoview.cpp:405-410 | the loop reads the `dim` adapted unsigned values |
| `StereoView.ReadKeyfileKeypoint` | src/stereoviewer/stereoview.cpp:343-355 | reads one keyfile keypoint, `y` first |
| `StereoView.ReadSiftKeypoint` | src/stereoviewer/stereoview.cpp:398-410 | reads one SIFT++ keypoint, `x` first |
| `StereoView.ReadKeyfileKeypoints` | src/stereoviewer/stereoview.cpp:341-360 | the loop stores the keypoints read until the stream is not good after one, which is then not stored |
| `StereoView.ReadSiftKeypoints` | src/stereoviewer/stereoview.cpp:390-412 | the loop checks the stream before each keypoint and stores every keypoint read |
| `StereoView.ReadSiftKeypointsChecked` | src/stereoviewer/stereoview.cpp:390-412 | the loop with the stream also checked after each keypoint stores exactly the keypoints `SiftKeypointsChecked` describes |
| `StereoView.ReadUIntsSticky` | src/stereoviewer/stereoview.cpp:405-410 | a stream that is not good stays as it is through a descriptor read |
| `StereoView.ReadUIntsAdvance` | src/stereoviewer/stereoview.cpp:405-410 | a descriptor read that stays good consumed exactly its values |
| `StereoView.ReadUIntsNumerals` | src/stereoviewer/stereoview.cpp:405-410 | over numerals that are all present a descriptor read stays good and consumes exactly its values |
| `StereoView.SiftKeypointAtEnd` | src/stereoviewer/stereoview.cpp:398-401 | a keypoint read at the end of the stream leaves it past its end with zero coordinates |
| `StereoView.SiftKeypointGood` | src/stereoviewer/stereoview.cpp:398-410 | a keypoint read that stays good consumed exactly one line of `4 + dim` tokens |
| `StereoView.SiftKeypointComplete` | src/stereoviewer/stereoview.cpp:398-410 | a complete line is read in full |
| `StereoView.SiftReadLines` | src/stereoviewer/stereoview.cpp:398-410 | the SIFT++ reading step reads whole lines, gives the origin at the end, and never less than a line while good |
| `StereoView.LinesThenBlank` | src/stereoviewer/stereoview.cpp:384-412 | `m` complete lines with a larger line count store `m + 1` keypoints, the last at the origin |
| `StereoView.SiftppBlankLineAddsKeypoint` | src/stereoviewer/stereoview.cpp:384-412 | a file of `m` keypoint lines counted as more lines (a trailing blank line) stores a phantom `(m+1)`-th keypoint at the origin |
| `StereoView.SiftKeypointsChecked` | src/stereoviewer/stereoview.cpp:390-412 | with the stream checked after each read as `parse_keyfile` does: at most `n` keypoints, a keypoint read past the end not stored, ending quietly or with a `runtime_error` |
| `StereoView.CheckedFits` | src/stereoviewer/stereoview.cpp:390-412 | with the stream checked after each read, every keypoint stored came from a complete line |
| `StereoView.SiftppCheckedReadsWholeLines` | src/stereoviewer/stereoview.cpp:390-412 | with the stream checked after each read, every keypoint stored from a SIFT++ file came from a complete line |
| `StereoView.LinesChecked` | src/stereoviewer/stereoview.cpp:390-412 | with the stream checked after each read, `m` complete lines store exactly `m` keypoints |
| `StereoView.SiftppCheckedKeepsLines` | src/stereoviewer/stereoview.cpp:384-412 | with the stream checked after each read, a file of `m` complete lines stores exactly `m` keypoints, whatever the line count |
| `StereoView.ExtendedRefl` | src/stereoviewer/stereoview.h:694-720 | every table extends itself |
| `StereoView.ExtendedTrans` | src/stereoviewer/stereoview.h:694-720 | extending is transitive |
| `StereoView.PadAll` | src/stereoviewer/stereoview.h:699-703 | every image padded for a feature of image `imgid` |
| `StereoView.FeatureAdded` | src/stereoviewer/stereoview.h:694-710 | after `add_feature` every other image is padded by one empty slot and the feature's image gets its original corner and the feature id |
| `StereoView.FeatureAddedEach` | src/stereoviewer/stereoview.h:699-708 | images that agree with `add_feature` one by one are its result |
| `StereoView.FeatureAddedKeeps` | src/stereoviewer/stereoview.h:694-710 | adding a feature numbered `|origins|` keeps the table consistent, extends it, and keeps every feature recorded as originating at an image holding its original corner |
| `StereoView.Assigned` | src/stereoviewer/stereoview.cpp:529-530 | a keypoint without a feature gets feature number `|origins|`, originating at its image with its corner as original; the table stays consistent and extended |
| `StereoView.KeypointAssigned` | src/stereoviewer/stereoview.cpp:529-530 | storing a fresh feature of its own image in a keypoint that had none keeps the table consistent and extended |
| `StereoView.CorrespondenceSet` | src/stereoviewer/stereoview.h:712-720 | only slot `fid` of the chosen image changes; every other image and slot is unchanged |
| `StereoView.CorrespondenceSetKeeps` | src/stereoviewer/stereoview.h:712-720 | setting a slot keeps the table consistent and extends it |
| `StereoView.PairStep` | src/stereoviewer/stereoview.cpp:529-531 | the left keypoint gets a feature unless it has one (a new one only then), and that feature's slot in the right image becomes the tracked right keypoint |
| `StereoView.GroupOf` | src/stereoviewer/stereoview.cpp:519-525 | a group is read only in group mode |
| `StereoView.MatchPair` | src/stereoviewer/stereoview.cpp:511-531 | an index out of range or a stream not good after the match is a `runtime_error` with the table unchanged; a match stored leaves the stream good; the table always stays consistent and extended |
| `StereoView.MatchPairs` | src/stereoviewer/stereoview.cpp:509-532 | the first failing match ends a set, the matches before it stored, the table kept consistent |
| `StereoView.MatchSet` | src/stereoviewer/stereoview.cpp:481-533 | a stream past its end stops quietly; a corrupt stream, an image index out of range or a set without the reference image ends the reading with an error, `invalid_argument` leaving the table unchanged; the reading goes on only after a set read in full |
| `StereoView.MatchSets` | src/stereoviewer/stereoview.cpp:479-535 | the outer loop ends at the first set that stops the reading, with `runtime_error`, `invalid_argument` or quietly; the table stays consistent and extended |
| `StereoView.ToSize` | src/stereoviewer/stereoview.cpp:475 | conversion to a 64-bit `size_t` wraps negative values |
| `StereoView.ExpectedMatchSets` | src/stereoviewer/stereoview.cpp:475 | `n - 1` sets with a reference image (wrapping for no image) and `n(n-1)/2` otherwise |
| `StereoView.FeatureReused` | src/stereoviewer/stereoview.cpp:529-531 | a left keypoint matched again reuses its feature and no feature is added |
| `StereoView.MatchSetsStopAtEnd` | src/stereoviewer/stereoview.cpp:484-488 | a stream already at its end stops quietly with the table unchanged |
| `StereoView.NoImagesNoMatches` | src/stereoviewer/stereoview.cpp:475-494 | with no image the expected count wraps to `SIZE_MAX`, yet every set names an image out of range, so the table is unchanged |
| `StereoView.Viewer.constructor` | src/stereoviewer/stereoview.h:195 | a new viewer stores no image and no feature |
| `StereoView.Viewer.Width` | src/stereoviewer/stereoview.cpp:28-31 | 0 for an empty store; in a valid store every stored image has this width |
| `StereoView.Viewer.Height` | src/stereoviewer/stereoview.cpp:33-36 | 0 for an empty store; in a valid store every stored image has this height |
| `StereoView.Viewer.Count` | src/stereoviewer/stereoview.cpp:38-41 | the number of stored images |
| `StereoView.Viewer.IsEmpty` | src/stereoviewer/stereoview.cpp:43-46 | true exactly when no image is stored |
| `StereoView.Viewer.Clear` | src/stereoviewer/stereoview.cpp:22-26 | no image and no feature left; the rescale size is kept |
| `StereoView.Viewer.AddImage` | src/stereoviewer/stereoview.cpp:53-60 | an image of another size than the stored ones is an `invalid_argument` with nothing changed; any other, and any image into an empty store, is appended under the next `fresh_int`, which is returned |
| `StereoView.Viewer.RemoveImage` | src/stereoviewer/stereoview.cpp:95-98 | drops the first entry with the id, or raises `invalid_argument` when there is none |
| `StereoView.Viewer.GetImage` | src/stereoviewer/stereoview.cpp:48-51 | the stored image as shown at the rescale size, or `invalid_argument` |
| `StereoView.Viewer.CorrespondenceAt` | src/stereoviewer/stereoview.h:547-550 | the slot `fid` of the image with the id, or failure when no image has it |
| `StereoView.Viewer.AddFeature` | src/stereoviewer/stereoview.h:694-710 | appends `imgid` to `origins`, returns the new last index of `origins`, pads every other image by one empty slot and gives this image its original corner and the feature id |
| `StereoView.Viewer.SetCorrespondence` | src/stereoviewer/stereoview.h:712-720 | slot `fid` of image `imgid` becomes a tracked correspondence and nothing else changes; a missing image is an `invalid_argument` |
| `StereoView.Viewer.Consistent` | src/stereoviewer/stereoview.h:694-720 | holds exactly when ids are distinct and every image has the same size, as many slots as features, and keypoint feature ids in range |
| `StereoView.Viewer.ParseKeyfile` | src/stereoviewer/stereoview.cpp:315-362 | a short or corrupt header, or a descriptor dimension other than 128, is a `runtime_error` before anything changes, a missing image an `invalid_argument`; otherwise the image's keypoints are replaced by those read, `y` before `x`, a keypoint after which the stream is not good being dropped with a `runtime_error` |
| `StereoView.Viewer.ParseSiftppKeyfile` | src/stereoviewer/stereoview.cpp:364-413 | a missing image is an `invalid_argument`; otherwise the image's keypoints are replaced by one per counted line, `x` before `y`, stopping quietly at the end of the stream and keeping the keypoint read there; the table stays consistent |
| `StereoView.Viewer.ParseSiftppKeyfileChecked` | src/stereoviewer/stereoview.cpp:364-413 | the corrected parser: as `parse_siftpp_keyfile`, but a keypoint whose reading ran past the end is not stored; the table stays consistent |
| `StereoView.Viewer.FeatureOf` | src/stereoviewer/stereoview.cpp:529-530 | the feature the left keypoint has, or a new one from `add_feature`, which the keypoint then holds |
| `StereoView.Viewer.StoreMatch` | src/stereoviewer/stereoview.cpp:529-531 | one keypoint match stored as `PairStep` describes |
| `StereoView.Viewer.StorePair` | src/stereoviewer/stereoview.cpp:511-531 | one match read and stored as `MatchPair` describes |
| `StereoView.Viewer.StoreMatchSet` | src/stereoviewer/stereoview.cpp:509-532 | the inner loop stores the matches of one set as `MatchPairs` describes |
| `StereoView.Viewer.StoreSet` | src/stereoviewer/stereoview.cpp:481-534 | one match set read and stored as `MatchSet` describes |
| `StereoView.Viewer.ParseKeypointMatchesFile` | src/stereoviewer/stereoview.cpp:465-535 | reads up to the expected number of match sets (`n - 1` or `n(n-1)/2`), stopping at the first that ends the reading; the table stays consistent |
| `KeyfileWriter.ChunksShape` | src/stereoviewer/stereoview.cpp:451-455 | the descriptor is broken into lines of twenty values, only the last one shorter and none empty, as many as it takes |
| `KeyfileWriter.ChunksFlatten` | src/stereoviewer/stereoview.cpp:451-455 | the descriptor lines hold exactly the values, in order |
| `KeyfileWriter.ChunksSnoc` | src/stereoviewer/stereoview.cpp:451-455 | one more value opens a new line exactly when the last line is full, and otherwise extends it |
| `KeyfileWriter.KeypointLines` | src/stereoviewer/stereoview.cpp:449-456 | a keypoint takes eight lines: `y x scale rotation` and seven descriptor lines |
| `KeyfileWriter.KeypointsLines` | src/stereoviewer/stereoview.cpp:447-458 | the keypoints take eight lines each |
| `KeyfileWriter.KeyfileShape` | src/stereoviewer/stereoview.cpp:446-458 | a keyfile is one header line and eight lines per keypoint: four numbers, six lines of twenty descriptor values and a last line of eight |
| `KeyfileWriter.WriteKeypoint` | src/stereoviewer/stereoview.cpp:449-456 | the loop writes the keypoint's lines with a break before every twentieth descriptor value, as the line layout says |
| `KeyfileWriter.WriteKeyfile` | src/stereoviewer/stereoview.cpp:446-458 | the loop writes the header line and the keypoints' lines |
| `KeyfileWriter.KeyfileOf` | src/stereoviewer/stereoview.cpp:433-446 | an image gets a keyfile exactly when it is stored and has keypoints, and the keyfile carries its id |
| `KeyfileWriter.Keyfiles` | src/stereoviewer/stereoview.cpp:432-462 | one keyfile per image asked for, in order; an image not stored or without keypoints is an `invalid_argument` that ends the writing, and the writing completes exactly when every image got its keyfile |
| `KeyfileWriter.ListedIds` | src/stereoviewer/stereoview.cpp:460 | the list file names the keyfiles written, in order |
| `KeyfileWriter.WriteImageKeyfile` | src/stereoviewer/stereoview.cpp:434-458 | writes one image's keyfile as `KeyfileOf` gives it, or raises `invalid_argument` exactly when it gives none |
| `KeyfileWriter.GenerateKeyfiles` | src/stereoviewer/stereoview.cpp:419-463 | writes the keyfiles and the list file as `Keyfiles` and `ListedIds` describe |
| `KeyfileWriter.Printed` | src/stereoviewer/stereoview.cpp:446-455 | a number printed reads back as a number of the same value |
| `KeyfileWriter.PrintedNumbers` | src/stereoviewer/stereoview.cpp:446-455 | printed values read back as numbers of those values, in order |
| `KeyfileWriter.ReadPrintedFloats` | src/stereoviewer/stereoview.cpp:350-355 | reading printed values as floats gives them back adapted, consuming exactly them |
| `KeyfileWriter.KeypointValues` | src/stereoviewer/stereoview.cpp:449-455 | the numbers of a keypoint's lines are `y x scale rotation` and the 128 descriptor values as printed |
| `KeyfileWriter.Reread` | src/stereoviewer/stereoview.cpp:343-355 | a keypoint read back keeps its position, has its scale and rotation adapted, its descriptor printed then adapted, and no feature |
| `KeyfileWriter.RereadAll` | src/stereoviewer/stereoview.cpp:341-360 | every keypoint read back as `Reread` says |
| `KeyfileWriter.ReadPrintedKeypoint` | src/stereoviewer/stereoview.cpp:343-355 | `parse_keyfile` reads one keypoint from its printed numbers, `y` before `x`, consuming exactly them |
| `KeyfileWriter.ReadWrittenKeypoints` | src/stereoviewer/stereoview.cpp:341-360 | the keypoint loop reads all written keypoints back, as `RereadAll` says, and completes |
| `KeyfileWriter.KeyfileRoundTrip` | src/stereoviewer/stereoview.cpp:419-463 | a keyfile `generate_keyfiles` writes is read back by `parse_keyfile` (lines 315-362): the header announces the count and dimension 128, and every keypoint comes back with its position, its adapted scale and rotation and its printed, adapted descriptor |
| `Vtk.Positions` | src/stereoviewer/stereoview.cpp:984-992 | the point coordinates, one per point, in order |
| `Vtk.Corners` | src/stereoviewer/stereoview.cpp:994-1002 | three coordinates per triangle |
| `Vtk.CornersAt` | src/stereoviewer/stereoview.cpp:994-1002 | coordinate `3k + j` is corner `j` of triangle `k` |
| `Vtk.VertexCells` | src/stereoviewer/stereoview.cpp:1004-1012 | one `VERTICES` cell per point |
| `Vtk.PolygonCells` | src/stereoviewer/stereoview.cpp:1014-1023 | one `POLYGONS` cell per triangle |
| `Vtk.PointColors` | src/stereoviewer/stereoview.cpp:1027-1036 | one colour per point |
| `Vtk.White` | src/stereoviewer/stereoview.cpp:1037-1043 | one white colour per corner |
| `Vtk.VtkWellFormed` | src/stereoviewer/stereoview.cpp:972-1045 | while the `uint32_t` polygon counter does not wrap, the counts `VtkOf` writes (`POINTS`, `VERTICES`, `POLYGONS`, `POINT_DATA`) agree with the contents and every cell index is a point |
| `Vtk.VerticesOk` | src/stereoviewer/stereoview.cpp:1004-1012 | the `VERTICES` block: `n` cells, `2n` numbers, each cell a point in range |
| `Vtk.PolygonsOk` | src/stereoviewer/stereoview.cpp:1014-1023 | the `POLYGONS` block without wrap: `t` cells, `4t` numbers, each index a point in range |
| `Vtk.VtkGeometry` | src/stereoviewer/stereoview.cpp:972-1045 | vertex cell `k` is point `k`, and the three indices of polygon `k` name the corners of triangle `k` |
| `Vtk.PolygonCorner` | src/stereoviewer/stereoview.cpp:972-1045 | index `j` of polygon `k` is a valid point index naming corner `j` of triangle `k` |
| `Vtk.WritePositions` | src/stereoviewer/stereoview.cpp:984-992 | the loop writes the point coordinates |
| `Vtk.WriteCorners` | src/stereoviewer/stereoview.cpp:994-1002 | the loop writes the triangle corners |
| `Vtk.WriteVertexCells` | src/stereoviewer/stereoview.cpp:1004-1012 | the loop writes the `VERTICES` cells |
| `Vtk.WritePolygonCells` | src/stereoviewer/stereoview.cpp:1014-1023 | the loop writes the `POLYGONS` cells with its `uint32_t` counter |
| `Vtk.WriteColors` | src/stereoviewer/stereoview.cpp:1026-1043 | the loops write each point's colour, then white three times per triangle |
| `Vtk.VtkScene.constructor` | src/stereoviewer/stereoview.h:488-499 | a new scene has no point and no triangle |
| `Vtk.VtkScene.AddPoints` | src/stereoviewer/stereoview.h:501-504 | the points go after those already there; the triangles are unchanged |
| `Vtk.VtkScene.AddTriangle` | src/stereoviewer/stereoview.h:506-509 | one more triangle at the end; the points are unchanged |
| `Vtk.VtkScene.Save` | src/stereoviewer/stereoview.cpp:972-1045 | the file written is the VTK layout of the scene's points and triangles, whose counts and cell indices `VtkWellFormed` and `VtkGeometry` show consistent |
| `Vtk.CorrectForBundler` | src/stereoviewer/stereoview.cpp:1047-1051 | `x` kept, `y` and `z` negated |
| `Vtk.CorrectTwice` | src/stereoviewer/stereoview.cpp:1047-1051 | the correction is its own inverse |
| `Vtk.CameraTriangles` | src/stereoviewer/stereoview.cpp:1068-1094 | six triangles per camera: the image rectangle as two triangles sharing a diagonal, and four faces from the camera centre |
| `Vtk.CamerasTriangles` | src/stereoviewer/stereoview.cpp:1066-1096 | six triangles per camera, camera after camera |
| `Vtk.CamerasTrianglesAt` | src/stereoviewer/stereoview.cpp:1066-1096 | triangle `6k + j` is triangle `j` of camera `k` |
| `Vtk.AddCamera` | src/stereoviewer/stereoview.cpp:1068-1094 | one turn of the camera loop appends the camera's six triangles and no point |
| `Vtk.SaveAsVtk` | src/stereoviewer/stereoview.cpp:1053-1099 | the file holds the points and six triangles per camera for the viewer's image size |
| `Vtk.SceneCounts` | src/stereoviewer/stereoview.cpp:1053-1099 | the exported scene is well formed, holds the points and eighteen corners per camera, and has polygons exactly when there is a camera, six per camera |
| `Vtk.SceneCentres` | src/stereoviewer/stereoview.cpp:1053-1099 | the last four polygons of each camera start at the camera's centre |
| `Vtk.SceneLayout` | src/stereoviewer/stereoview.cpp:1053-1099 | the exported scene holds the points and eighteen corners per camera, is well formed, has polygons exactly when there is a camera, six per camera, the last four of each meeting at its centre |
| `TextStream.ReadUInt` | src/stereoviewer/stereoview.cpp:324-327 | reading an unsigned number never moves backwards and stays within the tokens; a read that leaves the stream good consumed exactly one token from a good stream |
| `TextStream.ReadFloat` | src/stereoviewer/stereoview.cpp:346 | the same for a floating-point read, which also accepts signed and fractional numbers |
| `TextStream.ReadUIntNumerals` | src/stereoviewer/stereoview.cpp:292-304 | on a stream of numerals an unsigned read can run past the end but never reports corrupt data |
| `TextStream.ReadFloatNumerals` | src/stereoviewer/stereoview.cpp:292-304 | on a stream of numerals a floating-point read never reports corrupt data |
| `BundlerBase.GetMatchIndex` | src/bundler/src/BaseApp.cpp:130-134 | the pair of image indices, as given, for indices that fit an `unsigned long` |
| `BundlerBase.MatchIndexUnordered` | src/bundler/src/BaseApp.cpp:136-143 | the unordered index does not depend on the order of its arguments, and for non-negative indices holds both of them, the smaller first |
| `BundlerBase.NumMatchesSymmetric` | src/bundler/src/BaseApp.cpp:114-126 | the number of matches of two images does not depend on their order, and is the table's entry for the pair written smaller index first |
| `BundlerBase.CountKept` | src/bundler/src/BaseApp.cpp:179-185 | the number of images both adjusted and licensed, at most the number of images |
| `BundlerBase.RankOrdered` | src/bundler/src/BaseApp.cpp:179-185 | kept images are renumbered in their order, below the number kept |
| `BundlerBase.RankOnto` | src/bundler/src/BaseApp.cpp:179-185 | every new index below the number kept is taken by a kept image |
| `BundlerBase.Reindexed` | src/bundler/src/BaseApp.cpp:193-205 | the views left to a point are at most those it had |
| `BundlerBase.ReindexedViews` | src/bundler/src/BaseApp.cpp:193-205 | every view left refers to a kept image by its new index, and there are exactly as many as the views of kept images |
| `BundlerBase.ViewCounts` | src/bundler/src/BaseApp.cpp:189-191 | the view count of every point, in order |
| `BundlerBase.BaseApp.GetRegisteredCameraIndex` | src/bundler/src/BaseApp.cpp:85-102 | -1 exactly when `cam` is negative or there are no more than `cam` adjusted cameras; otherwise an adjusted image preceded by exactly `cam` adjusted ones |
| `BundlerBase.BaseApp.FindImageWithName` | src/bundler/src/BaseApp.cpp:158-168 | -1 exactly when no image has the name; otherwise the first image that has it |
| `BundlerBase.BaseApp.ReindexPoints` | src/bundler/src/BaseApp.cpp:170-210 | the images are unchanged, the original view counts are recorded in order, and every point keeps, in order, the views of adjusted and licensed images with their images renumbered |
| `BundlerBase.ReindexTable` | src/bundler/src/BaseApp.cpp:174-185 | a fresh array with each kept image's rank among the kept images |
| `BundlerBase.FilterViews` | src/bundler/src/BaseApp.cpp:193-205 | the inner loop erases the views of images not kept and renumbers the others, as `Reindexed` says |
| `BundleFiles.FindChar` | src/bundler/src/RadialUndistort.cpp:165 | the first position holding the character, `|s|` when none does: no earlier position holds it |
| `BundleFiles.Fgets` | src/bundler/src/RadialUndistort.cpp:161 | one `fgets` into a 256-byte buffer: a non-empty prefix of the rest, shorter than 256, with a newline at most as its last character |
| `BundleFiles.ListEntry` | src/bundler/src/RadialUndistort.cpp:162-168 | the name stored holds no space and no newline and is no longer than the chunk |
| `BundleFiles.ReadListFile` | src/bundler/src/RadialUndistort.cpp:156-172 | the loop appends one entry per `fgets` chunk, in order |
| `BundleFiles.ListRoundTrip` | src/bundler/src/RadialUndistort.cpp:156-172 | names without spaces or newlines, each shorter than the buffer, written one per line are read back as exactly those names |
| `BundleFiles.ReadListedLine` | src/bundler/src/RadialUndistort.cpp:161-168 | a written line is one chunk, yields its name, and the rest of the file follows it |
| `BundleFiles.ListEntriesPlain` | src/bundler/src/RadialUndistort.cpp:156-172 | every name read holds no space and no newline and is shorter than 256 characters |
| `BundleFiles.Reals` | src/bundler/src/RadialUndistort.cpp:88-91 | `%lf` reads the value of each number, in order |
| `BundleFiles.IntAt` | src/bundler/src/RadialUndistort.cpp:126 | `%d` succeeds exactly on an integer field |
| `BundleFiles.CountsAfterVersion` | src/bundler/src/RadialUndistort.cpp:58 | the counts read after a version line keep the version and take the two fields |
| `BundleFiles.ReadHeader` | src/bundler/src/RadialUndistort.cpp:48-69 | a first line not starting with `#` or `v` gives version 0.1 and the counts from that line; one starting with either takes the counts from the next two fields; the fields read stay within the file |
| `BundleFiles.ReadCamera` | src/bundler/src/RadialUndistort.cpp:77-110 | a camera read has nine rotation and three translation entries, distortion exactly from version 0.2 on, and took the focal fields and twelve more |
| `BundleFiles.ReadView` | src/bundler/src/RadialUndistort.cpp:130-134 | a view has an image position exactly from version 0.3 on, and takes at least one field |
| `BundleFiles.Repeat` | src/bundler/src/RadialUndistort.cpp:76-145 | `n` records read one after the other, none for a count that is not positive |
| `BundleFiles.RepeatStep` | src/bundler/src/RadialUndistort.cpp:76-145 | one turn of a record loop: the record read is kept and the loop goes on from where it ended |
| `BundleFiles.RepeatCons` | src/bundler/src/RadialUndistort.cpp:76-145 | a record followed by a run of records is a run one longer |
| `BundleFiles.ReadViews` | src/bundler/src/RadialUndistort.cpp:129-142 | the view loop reads the point's views in order |
| `BundleFiles.ReadPointHead` | src/bundler/src/RadialUndistort.cpp:117-126 | a point's position, colour and view count take seven fields |
| `BundleFiles.ReadPoint` | src/bundler/src/RadialUndistort.cpp:115-149 | a point read has as many views as its count says, none for a count that is not positive |
| `BundleFiles.ReadPointAt` | src/bundler/src/RadialUndistort.cpp:115-149 | the method reads a point as `ReadPoint` says, its views by the loop |
| `BundleFiles.PointsCounted` | src/bundler/src/RadialUndistort.cpp:114-150 | every point of a run of points read has its views counted |
| `RadialUndistort.Stored` | src/bundler/src/RadialUndistort.cpp:143-144 | a point keeps its position, colour and views, its z negated for files before version 0.3 |
| `RadialUndistort.KeptPoints` | src/bundler/src/RadialUndistort.cpp:146-148 | at most the points read are kept |
| `RadialUndistort.KeptPointsAre` | src/bundler/src/RadialUndistort.cpp:114-149 | the points kept are exactly those read with a view, each as `Stored` says, and all of them when every point has a view |
| `RadialUndistort.ReadBundleFile` | src/bundler/src/RadialUndistort.cpp:36-152 | the cameras as read (the flip of old versions only touches local copies, after the camera was filled) and the points with a view; an unopened or malformed file gives none |
| `RadialUndistort.ReadCameras` | src/bundler/src/RadialUndistort.cpp:76-110 | the camera loop reads the announced cameras in order, failing exactly when the record run does |
| `RadialUndistort.ReadPoints` | src/bundler/src/RadialUndistort.cpp:113-149 | the point loop reads the announced points and keeps those with a view, failing exactly when the record run does |
| `RadialUndistort.CamerasShaped` | src/bundler/src/RadialUndistort.cpp:76-110 | every camera read has a 3 by 3 rotation and a translation, and distortion exactly from version 0.2 on |
| `RadialUndistort.ReadBundleShape` | src/bundler/src/RadialUndistort.cpp:36-152 | one camera per count announced in the header (none for a negative count), each shaped as the version says, and only points with a view |
| `RadialUndistort.CountGood` | src/bundler/src/RadialUndistort.cpp:189-199 | the reconstructed cameras (non-zero focal length) are at most the cameras |
| `RadialUndistort.Remaps` | src/bundler/src/RadialUndistort.cpp:189-199 | the `remap` entry of every camera |
| `RadialUndistort.Remap` | src/bundler/src/RadialUndistort.cpp:187-199 | the loop fills a fresh `remap` array with every camera's entry and counts the reconstructed cameras |
| `RadialUndistort.RemapOrdered` | src/bundler/src/RadialUndistort.cpp:189-199 | a camera with zero focal length maps to -1; the reconstructed ones are numbered in their order, below their count |
| `RadialUndistort.RemapOnto` | src/bundler/src/RadialUndistort.cpp:189-199 | every index of the written file belongs to some reconstructed camera |
| `RadialUndistort.RealFields` | src/bundler/src/RadialUndistort.cpp:213-222 | the numbers printed with `%lf`, one field per value |
| `RadialUndistort.WriteBundleFile` | src/bundler/src/RadialUndistort.cpp:174-254 | the version 0.3 line, the counts of reconstructed cameras and of points, those cameras, and every point with its colour rounded and its views renumbered by `remap` |
| `RadialUndistort.WriteCameras` | src/bundler/src/RadialUndistort.cpp:209-223 | the camera loop writes the reconstructed cameras' fields, skipping the others |
| `RadialUndistort.WritePoints` | src/bundler/src/RadialUndistort.cpp:226-251 | the point loop writes every point's fields |
| `RadialUndistort.WriteViews` | src/bundler/src/RadialUndistort.cpp:240-248 | the view loop writes every view renumbered, with its position |
| `RadialUndistort.ReadBackViews` | src/bundler/src/RadialUndistort.cpp:240-248 | one view read back per view written |
| `RadialUndistort.ReadBackPoints` | src/bundler/src/RadialUndistort.cpp:226-251 | one point read back per point written |
| `RadialUndistort.ReadWrittenCamera` | src/bundler/src/RadialUndistort.cpp:213-222 | a camera written reads back as version 0.3 from its fifteen fields |
| `RadialUndistort.CameraReaderReadsCameras` | src/bundler/src/RadialUndistort.cpp:213-222 | the version 0.3 camera reader reads any camera written at any position back as the camera the reader sees |
| `RadialUndistort.CamerasStep` | src/bundler/src/RadialUndistort.cpp:209-223 | one camera of the block: a reconstructed one stands first and the rest follows its fifteen fields; a skipped one leaves the block as it is |
| `RadialUndistort.CamerasBackStep` | src/bundler/src/RadialUndistort.cpp:209-223 | a reconstructed camera at the head of the block is read first, before the rest of the block |
| `RadialUndistort.ReadCamerasBack` | src/bundler/src/RadialUndistort.cpp:209-223 | any reader of written cameras reads the camera block back as the reconstructed cameras, ending at the block's end |
| `RadialUndistort.ReadWrittenCameras` | src/bundler/src/RadialUndistort.cpp:209-223 | the camera block reads back, in `num_good_images` reads, as the reconstructed cameras, ending at its end |
| `RadialUndistort.GoodCamerasCount` | src/bundler/src/RadialUndistort.cpp:189-199 | as many cameras read back as were counted reconstructed |
| `RadialUndistort.ReadWrittenView` | src/bundler/src/RadialUndistort.cpp:247 | a view written reads back with its image renumbered, its key and its position, from four fields |
| `RadialUndistort.ReadWrittenViews` | src/bundler/src/RadialUndistort.cpp:240-248 | the views written read back renumbered, in order |
| `RadialUndistort.ReadWrittenPoint` | src/bundler/src/RadialUndistort.cpp:226-251 | a point written reads back from its own fields |
| `RadialUndistort.PointReaderReadsPoints` | src/bundler/src/RadialUndistort.cpp:226-251 | the version 0.3 point reader reads any point written at any position back from its own fields |
| `RadialUndistort.PointsFront` | src/bundler/src/RadialUndistort.cpp:226-251 | the first point's fields and record come before those of the rest |
| `RadialUndistort.ReadPointsBack` | src/bundler/src/RadialUndistort.cpp:226-251 | any reader of written points reads the point block back as the points written, in order, ending at the block's end |
| `RadialUndistort.ReadWrittenPoints` | src/bundler/src/RadialUndistort.cpp:226-251 | the point block reads back as the points written, in order |
| `RadialUndistort.WrittenHeader` | src/bundler/src/RadialUndistort.cpp:205-206 | the version line and counts written read back as version 0.3 with those counts |
| `RadialUndistort.BundleRoundTrip` | src/bundler/src/RadialUndistort.cpp:174-254 | reading the file `WriteBundleFile` wrote gives the reconstructed cameras in order with zero distortion, and the points with a view, their colours rounded and views renumbered by `remap` |
| `RadialUndistort.WrittenLayout` | src/bundler/src/RadialUndistort.cpp:205-251 | the written file has the version line, the two counts, the camera block after them and the point block after that |
| `RadialUndistort.ReadLaidOut` | src/bundler/src/RadialUndistort.cpp:174-254 | any file laid out that way, whatever the renumbering of the views, reads as the reconstructed cameras and the points with a view |
| `RadialUndistort.ReadBundleOf` | src/bundler/src/RadialUndistort.cpp:174-254 | a version 0.3 file whose header and two blocks read as given reads as those cameras and the points with a view |
| `RadialUndistort.RdName` | src/bundler/src/RadialUndistort.cpp:318 | the name with its last three characters replaced by `rd.jpg`; a name shorter than three keeps all of it, since the unsigned length wraps |
| `RadialUndistort.RdNameOfJpg` | src/bundler/src/RadialUndistort.cpp:318 | a `.jpg` name becomes its `.rd.jpg` name |
| `RadialUndistort.UndistortImages` | src/bundler/src/RadialUndistort.cpp:304-326 | the loop undistorts every image whose camera was reconstructed, into its `RdName`, and skips the others |
| `RadialUndistort.JobsAreGood` | src/bundler/src/RadialUndistort.cpp:304-326 | the images undistorted are as many as `WriteBundleFile` counts, each with a reconstructed camera and named by `RdName` |
| `RadialUndistort.ListedAreUndistorted` | src/bundler/src/RadialUndistort.cpp:328-341 | `list.rd.txt` names exactly the images that are undistorted, in order |
| `RadialUndistort.GoodNamesCameras` | src/bundler/src/RadialUndistort.cpp:333-339 | the list depends only on the cameras of the images named |
| `RadialUndistort.WriteNewFiles` | src/bundler/src/RadialUndistort.cpp:328-346 | `list.rd.txt` lists the images with a reconstructed camera, and `bundle.rd.out` is what `WriteBundleFile` writes |
| `RadialUndistort.NewListRoundTrip` | src/bundler/src/RadialUndistort.cpp:328-341 | what `WriteNewFiles` lists reads back through `ReadListFile` as the names of the images with a reconstructed camera, for names the list reader keeps whole |
| `Bundle2Pmvs.Kept` | src/bundler/src/Bundle2PMVS.cpp:100-104 | a camera keeps its focal length, rotation and translation; the distortion read is dropped |
| `Bundle2Pmvs.KeptCameras` | src/bundler/src/Bundle2PMVS.cpp:72-105 | one camera kept per camera read |
| `Bundle2Pmvs.SeenPoints` | src/bundler/src/Bundle2PMVS.cpp:108-135 | at most the points read are kept |
| `Bundle2Pmvs.ReadBundleFile` | src/bundler/src/Bundle2PMVS.cpp:40-138 | returns `ReadPmvsBundle` of the file: the cameras without distortion, the points with a view and the version; an unopened or malformed file gives none |
| `Bundle2Pmvs.ReadCameras` | src/bundler/src/Bundle2PMVS.cpp:72-105 | the camera loop keeps every camera read, failing exactly when the record run does |
| `Bundle2Pmvs.ReadPoints` | src/bundler/src/Bundle2PMVS.cpp:108-135 | the point loop reads and drops the views and keeps the points with a view, failing exactly when the record run does |
| `Bundle2Pmvs.SeenPointsAreKept` | src/bundler/src/Bundle2PMVS.cpp:108-135 | the points kept are those `RadialUndistort` keeps, with the same colour and position except the z that tool negates before version 0.3 |
| `Bundle2Pmvs.SameBundleAsRadialUndistort` | src/bundler/src/Bundle2PMVS.cpp:40-138 | this reader and `RadialUndistort`'s accept the same files and read the same cameras (here without distortion) and points |
| `Bundle2Pmvs.Pad4` | src/bundler/src/Bundle2PMVS.cpp:165 | `%04d` of a count is at least four decimal digits |
| `Bundle2Pmvs.ParseLeadingZeros` | src/bundler/src/Bundle2PMVS.cpp:165 | leading zeros do not change the number read |
| `Bundle2Pmvs.Pad4RoundTrip` | src/bundler/src/Bundle2PMVS.cpp:165 | a `%04d` name reads back as its count |
| `Bundle2Pmvs.Pad4Injective` | src/bundler/src/Bundle2PMVS.cpp:165 | different counts give different names, and equal ones the same |
| `Bundle2Pmvs.Pad4Length` | src/bundler/src/Bundle2PMVS.cpp:165 | below 10000 a name has exactly four digits |
| `Bundle2Pmvs.LastDot` | src/bundler/src/Bundle2PMVS.cpp:198 | the last `.` of a name that has one |
| `Bundle2Pmvs.Basename` | src/bundler/src/Bundle2PMVS.cpp:198-199 | a prefix of the name: up to its last `.`, or the whole name when it has none (`npos`) |
| `Bundle2Pmvs.CopiesUndistorted` | src/bundler/src/Bundle2PMVS.cpp:198-202 | for a `.jpg` image the script copies exactly the file `RadialUndistort` writes |
| `Bundle2Pmvs.Extrinsics` | src/bundler/src/Bundle2PMVS.cpp:181-184 | the 3 by 4 matrix of `R` beside `t`, twelve entries row by row |
| `Bundle2Pmvs.Projection` | src/bundler/src/Bundle2PMVS.cpp:186-189 | `P`, twelve entries row by row |
| `Bundle2Pmvs.ProjectionMaps` | src/bundler/src/Bundle2PMVS.cpp:170-189 | `P` takes a world point to `(f c.x - w/2 c.z, -(f c.y + h/2 c.z), -c.z)` in homogeneous coordinates, with `c` its camera coordinates |
| `Bundle2Pmvs.WritePMVS` | src/bundler/src/Bundle2PMVS.cpp:140-213 | one `CONTOUR` file per reconstructed camera, the copy lines `Script` gives for them, and a final count equal to `RadialUndistort`'s count of reconstructed cameras |
| `Bundle2Pmvs.WrittenCount` | src/bundler/src/Bundle2PMVS.cpp:161-206 | one file per reconstructed camera |
| `Bundle2Pmvs.TxtFor` | src/bundler/src/Bundle2PMVS.cpp:161-206 | reconstructed camera `i` gets the file numbered as `RadialUndistort` numbers it in `bundle.rd.out` |
| `Bundle2Pmvs.CopyFor` | src/bundler/src/Bundle2PMVS.cpp:198-203 | the copy lines of reconstructed camera `i` come at that same number |
| `Bundle2Pmvs.CopiesCount` | src/bundler/src/Bundle2PMVS.cpp:198-203 | two script lines per reconstructed camera |
| `Bundle2Pmvs.TxtNamesDistinct` | src/bundler/src/Bundle2PMVS.cpp:165 | different reconstructed cameras get files with different names |
| `Bundle2Pmvs.Run` | src/bundler/src/Bundle2PMVS.cpp:215-249 | exit status 1 exactly for a wrong argument count or an unreadable list file, else 0, with the files `WritePMVS` writes for what was read |
| `Bundle2Pmvs.CamerasWritable` | src/bundler/src/Bundle2PMVS.cpp:72-105 | every camera read has a 3 by 3 rotation and a translation of three |
| `Math3D.AddSubInverse` | src/stereoviewer/cvlab/cvlab/math3d.h:47-57 | adding and subtracting the same vector cancel, binary minus is adding the negation, and negating twice is the identity |
| `Math3D.DotSymmetric` | src/stereoviewer/cvlab/cvlab/math3d.h:294-297 | the dot product does not depend on the order of its factors |
| `Math3D.DotSelfNonNegative` | src/stereoviewer/cvlab/cvlab/math3d.h:294-297 | a vector's dot product with itself is its sum of squares, never negative, and zero exactly at the origin |
| `Math3D.CrossOrthogonal` | src/stereoviewer/cvlab/cvlab/math3d.h:310-316 | the cross product is orthogonal to both factors |
| `Math3D.CrossAntisymmetric` | src/stereoviewer/cvlab/cvlab/math3d.h:310-316 | swapping the factors negates the cross product |
| `Math3D.SquaredDist` | src/stereoviewer/cvlab/cvlab/math3d.cpp:7-12 | the squared length of the difference, never negative |
| `Math3D.SquaredDistSymmetric` | src/stereoviewer/cvlab/cvlab/math3d.cpp:7-12 | the squared distance does not depend on the order of the points |
| `Math3D.SquaredDistSelf` | src/stereoviewer/cvlab/cvlab/math3d.cpp:7-12 | a point is at squared distance 0 from itself |
| `Math3D.SquaredDistPositive` | src/stereoviewer/cvlab/cvlab/math3d.cpp:7-12 | distinct points are a positive squared distance apart |
| `Math3D.Dot2Symmetric` | src/stereoviewer/cvlab/cvlab/math3d.cpp:18-20 | the planar dot product does not depend on the order of its factors |
| `Math3D.Normalize` | src/stereoviewer/cvlab/cvlab/math3d.h:269-282 | with a zero magnitude the vector becomes zero and 0 is returned; otherwise the vector is divided by its magnitude, which is returned |
| `Math3D.ScaledDot` | src/stereoviewer/cvlab/cvlab/math3d.h:269-282 | the normalised vector's squared length times the squared divisor is the original squared length |
| `Math3D.NormalizedIsUnit` | src/stereoviewer/cvlab/cvlab/math3d.h:269-282 | with a true square root a nonzero vector normalises to unit length |
| `Math3D.Matrix.constructor` | src/stereoviewer/cvlab/cvlab/math3d.h:194 | `matrix(w, h)`: `w` by `h`, every cell zero |
| `Math3D.Matrix.At` | src/stereoviewer/cvlab/cvlab/math3d.h:199-200 | the cell at `row * width + col`, or `out_of_range` exactly when that is past the storage |
| `Math3D.Matrix.Set` | src/stereoviewer/cvlab/cvlab/math3d.h:196 | assignment through `operator()` changes that one cell and nothing else |
| `Math3D.Matrix.Identity` | src/stereoviewer/cvlab/cvlab/math3d.h:216-224 | a non-square matrix is a `runtime_error` and is left as it was; a square one gets ones on the diagonal and zeros elsewhere |
| `Math3D.Transpose` | src/stereoviewer/cvlab/cvlab/math3d.h:318-326 | the corrected `transpose`, looping over the rows then the columns of `m`: a fresh `height` by `width` matrix with `r(j, i) = m(i, j)` for every cell, whatever the shape |
| `Math3D.TransposeRow` | src/stereoviewer/cvlab/cvlab/math3d.h:323-324 | the inner loop fills column `i` of `r` from row `i` of `m`, keeping the earlier columns |
| `Math3D.SquareInBounds` | src/stereoviewer/cvlab/cvlab/math3d.h:318-326 | `transpose` as written stays in range on every square matrix |
| `Math3D.TransposeAsWrittenOutOfRange` | src/stereoviewer/cvlab/cvlab/math3d.h:318-326 | on a matrix of one row and two columns `transpose` as written reads `m(1, 0)`, cell 2 of 2 |
| `Math3D.TransposeAsWritten` | src/stereoviewer/cvlab/cvlab/math3d.h:318-326 | `transpose` as written, on the square matrices where it stays in range: `r(j, i) = m(i, j)` |
| `Math3D.TransposeTwice` | src/stereoviewer/cvlab/cvlab/math3d.h:318-326 | transposing twice gives the matrix back, for any shape |
| `Math3D.Rotate` | src/stereoviewer/cvlab/cvlab/math3d.h:247-252 | `p` becomes `rot * p`, reading `rot(0..2, 0..2)` |
| `Math3D.RotateTranslate` | src/stereoviewer/cvlab/cvlab/math3d.h:263-267 | `p` is rotated, then the translation is added |
| `Math3D.RotateByIdentity` | src/stereoviewer/cvlab/cvlab/math3d.h:247-252 | the 3 by 3 identity rotates nothing |
| `Math3D.CRem` | src/stereoviewer/cvlab/cvlab/math3d.cpp:211 | C's `%`: smaller in size than the divisor, with the sign of the dividend |
| `Math3D.CDivision` | src/stereoviewer/cvlab/cvlab/math3d.cpp:211 | the dividend is quotient times divisor plus C's remainder |
| `Math3D.GCDDividesBoth` | src/stereoviewer/cvlab/cvlab/math3d.cpp:208-212 | `Math3D.GCD(a, b)` divides both arguments |
| `Math3D.CommonDivisorDividesGCD` | src/stereoviewer/cvlab/cvlab/math3d.cpp:208-212 | every common divisor divides `GCD(a, b)`: it is a greatest one |
| `Math3D.GCDNonZero` | src/stereoviewer/cvlab/cvlab/math3d.cpp:208-212 | the GCD is zero exactly for two zero arguments |
| `Math3D.LCMCommonMultiple` | src/stereoviewer/cvlab/cvlab/math3d.cpp:214-216 | `Math3D.LCM(a, b)` is a multiple of both arguments when they are not both zero |
| `Math3D.IntersectSegments` | src/stereoviewer/cvlab/cvlab/math3d.cpp:184-206 | parallel lines give `(-1, -1)`, and any other result lies within both segments' x-ranges |
| `Cloud3D.Cloud.constructor` | src/stereoviewer/cvlab/cvlab/cloud3d.cpp:16 | a new cloud is empty |
| `Cloud3D.Cloud.FromPoints` | src/stereoviewer/cvlab/cvlab/cloud3d.cpp:37-39 | a cloud built from a vector holds exactly its points |
| `Cloud3D.Cloud.Clear` | src/stereoviewer/cvlab/cvlab/cloud3d.h:100-104 | the list emptied and the count reset; the cloud itself is returned |
| `Cloud3D.Cloud.NPoints` | src/stereoviewer/cvlab/cvlab/cloud3d.h:106-108 | the stored count, which in a valid cloud is the number of points |
| `Cloud3D.Cloud.AddPoint` | src/stereoviewer/cvlab/cvlab/cloud3d.cpp:45-48 | one point at the end, the count raised by one |
| `Cloud3D.Cloud.AssignPoints` | src/stereoviewer/cvlab/cvlab/cloud3d.cpp:24-29 | the old points replaced by the given ones, the count following |
| `Cloud3D.Cloud.AssignCloudAsWritten` | src/stereoviewer/cvlab/cvlab/cloud3d.cpp:31-35 | the count copied, the own list cleared, then the other list appended: assigning a cloud to itself leaves an empty list |
| `Cloud3D.Cloud.AssignCloud` | src/stereoviewer/cvlab/cvlab/cloud3d.cpp:31-35 | the corrected assignment: afterwards the cloud holds the other's points and count, self-assignment included |
| `Cloud3D.Cloud.Overlap` | src/stereoviewer/cvlab/cvlab/cloud3d.cpp:87-97 | the other cloud's points appended and the count re-read from the list |
| `Cloud3D.Cloud.OverlapPoints` | src/stereoviewer/cvlab/cvlab/cloud3d.cpp:99-107 | the points pushed one by one and the count raised by their number |
| `Cloud3D.Cloud.GetPointsVec` | src/stereoviewer/cvlab/cvlab/cloud3d.cpp:114-123 | a vector of `n_points` slots holding the points in list order |
| `Cloud3D.Cloud.GetBarycenter` | src/stereoviewer/cvlab/cvlab/cloud3d.cpp:66-79 | a `logic_error` on an empty cloud, otherwise the sum of the points divided by their number |
| `Cloud3D.BarycenterOfOne` | src/stereoviewer/cvlab/cvlab/cloud3d.cpp:66-79 | the barycenter of a single point is that point |
| `Cloud3D.SelfAssignmentLosesPoints` | src/stereoviewer/cvlab/cvlab/cloud3d.cpp:31-35 | assigning a one-point cloud to itself leaves a count of one over an empty list |
| `Cloud3D.SelfAssignmentKeepsPoints` | src/stereoviewer/cvlab/cvlab/cloud3d.cpp:31-35 | with the alias check the same assignment keeps the point |
| `Mesh.AddIncidence` | src/stereoviewer/cvlab/cvlab/mesh.cpp:601-606 | one more reference of vertex `v` to triangle `k`: its list gets `k` at the end, its `uint16_t` count grows by one modulo 2^16, and nothing else changes |
| `Mesh.References` | src/stereoviewer/cvlab/cvlab/mesh.cpp:600-606 | the references a triangle makes to a vertex: one per corner that is the vertex, so some exactly when it is a corner |
| `Mesh.Register` | src/stereoviewer/cvlab/cvlab/mesh.cpp:600-606 | a triangle registered at its three corners keeps the vertex count |
| `Mesh.RegisterInSteps` | src/stereoviewer/cvlab/cvlab/mesh.cpp:600-606 | the three single registrations `add_triangle` performs amount to `Register` |
| `Mesh.BumpsRegister` | src/stereoviewer/cvlab/cvlab/mesh.cpp:600-606 | the three conditional bumps of one vertex amount to its registration |
| `Mesh.RegisterKeepsPositions` | src/stereoviewer/cvlab/cvlab/mesh.cpp:600-606 | registering a triangle moves no vertex |
| `Mesh.RegisterKeepsIncidence` | src/stereoviewer/cvlab/cvlab/mesh.cpp:581-607 | registering a new triangle whose corners are vertices keeps the incidence bookkeeping: lists and triangles name each other |
| `Mesh.RegisterKeepsCounts` | src/stereoviewer/cvlab/cvlab/mesh.cpp:600-606 | registering keeps every count equal to its list length modulo 2^16 |
| `Mesh.RegisterKeepsListed` | src/stereoviewer/cvlab/cvlab/mesh.cpp:600-606 | every entry of a vertex's list, old or new, names a triangle that has the vertex as a corner |
| `Mesh.RegisterListsNew` | src/stereoviewer/cvlab/cvlab/mesh.cpp:600-606 | every triangle, old or new, has its corners among the vertices and is listed at each of them |
| `Mesh.MakeTriangle` | src/stereoviewer/cvlab/cvlab/mesh.cpp:583-597 | the triangle `add_triangle` builds holds the three corners and the cross-product normal |
| `Mesh.Positions` | src/stereoviewer/cvlab/cvlab/mesh.cpp:548-572 | one position per vertex |
| `Mesh.EdgeLengths` | src/stereoviewer/cvlab/cvlab/mesh.cpp:347-359 | three edge lengths per triangle |
| `Mesh.EdgeLengthsAt` | src/stereoviewer/cvlab/cvlab/mesh.cpp:351-357 | entries `3k`, `3k+1` and `3k+2` are `|p0 p1|`, `|p2 p1|` and `|p0 p2|` of triangle `k` |
| `Mesh.Sort` | src/stereoviewer/cvlab/cvlab/mesh.cpp:361 | `std::sort` gives a sorted permutation of the lengths |
| `Mesh.Median` | src/stereoviewer/cvlab/cvlab/mesh.cpp:363-366 | the median of a sorted run lies between its first and last value |
| `Mesh.MiddleValue` | src/stereoviewer/cvlab/cvlab/mesh.cpp:363-366 | the middle value for an odd count, the mean of the two middle values for an even one |
| `Mesh.MedianBetweenValues` | src/stereoviewer/cvlab/cvlab/mesh.cpp:334-369 | the resolution lies between two of the edge lengths |
| `Mesh.SortedEndsAreValues` | src/stereoviewer/cvlab/cvlab/mesh.cpp:361 | the smallest and largest sorted lengths occur among the lengths |
| `Mesh.MedianNonNegative` | src/stereoviewer/cvlab/cvlab/mesh.cpp:334-369 | with non-negative lengths the resolution is non-negative |
| `Mesh.FlippedVertices` | src/stereoviewer/cvlab/cvlab/mesh.cpp:643-645 | every vertex keeps everything but its normal, which is negated |
| `Mesh.FlippedTriangles` | src/stereoviewer/cvlab/cvlab/mesh.cpp:647-649 | every triangle keeps everything but its normal, which is negated |
| `Mesh.FlipTwice` | src/stereoviewer/cvlab/cvlab/mesh.cpp:642-650 | flipping twice restores every normal |
| `Mesh.FlipKeepsIncidence` | src/stereoviewer/cvlab/cvlab/mesh.cpp:642-650 | flipping keeps the incidence bookkeeping and each part of it |
| `Mesh.FillEdgeLengths` | src/stereoviewer/cvlab/cvlab/mesh.cpp:347-359 | the loop fills the vector of `3t` edge lengths as `EdgeLengths` lays them out |
| `Mesh.TriMesh.constructor` | src/stereoviewer/cvlab/cvlab/mesh.h:119 | an empty mesh with the cursor at 0 |
| `Mesh.TriMesh.NTris` | src/stereoviewer/cvlab/cvlab/mesh.h:122 | the number of triangles |
| `Mesh.TriMesh.PutVertices` | src/stereoviewer/cvlab/cvlab/mesh.cpp:548-572 | one vertex per point, in order, with no normal and no triangle; the triangles and the cursor are unchanged |
| `Mesh.TriMesh.AddTriangle` | src/stereoviewer/cvlab/cvlab/mesh.cpp:581-607 | `out_of_range` with no change exactly when a corner is not a vertex; otherwise the triangle is appended and its index registered at each corner, keeping the incidence bookkeeping |
| `Mesh.TriMesh.GetNextTriangle` | src/stereoviewer/cvlab/cvlab/mesh.cpp:293-307 | nothing exactly when the cursor is at the triangle count; otherwise the triangle under the cursor, which moves on by one |
| `Mesh.TriMesh.FirstTriangle` | src/stereoviewer/cvlab/cvlab/mesh.h:148 | the cursor rewound to 0, nothing else changed |
| `Mesh.TriMesh.ReadAll` | src/stereoviewer/cvlab/cvlab/mesh.cpp:293-307 | reading from a rewound cursor yields every triangle in order and leaves the cursor at the end |
| `Mesh.TriMesh.GetResolution` | src/stereoviewer/cvlab/cvlab/mesh.cpp:334-369 | 0 without triangles, otherwise the median of the sorted `3t` edge lengths |
| `Mesh.TriMesh.GetBarycenter` | src/stereoviewer/cvlab/cvlab/mesh.cpp:315-326 | a `logic_error` without vertices, otherwise the mean of the vertex positions |
| `Mesh.TriMesh.FlipNormals` | src/stereoviewer/cvlab/cvlab/mesh.cpp:642-650 | every vertex normal and every triangle normal negated, the bookkeeping kept |
| `Mesh.TriMesh.BeginByTriangle` | src/stereoviewer/cvlab/cvlab/mesh.h:137-139 | an iterator on this mesh at triangle 0 |
| `Mesh.TriMesh.EndByTriangle` | src/stereoviewer/cvlab/cvlab/mesh.h:141-145 | an iterator on this mesh at the triangle count |
| `Mesh.TriIterator.constructor` | src/stereoviewer/cvlab/cvlab/mesh.h:68 | an iterator on the mesh at index 0 |
| `Mesh.TriIterator.Next` | src/stereoviewer/cvlab/cvlab/mesh.h:81-86 | `out_of_range` with no move when already at the end, otherwise one step |
| `Mesh.TriIterator.Last` | src/stereoviewer/cvlab/cvlab/mesh.h:104 | the iterator brought one past the last triangle |
| `Mesh.BeginMeetsEnd` | src/stereoviewer/cvlab/cvlab/mesh.h:137-145 | the two ends meet exactly for a mesh without triangles, and stepping from the beginning reaches the end after one step per triangle |
| `Mesh.Max3` | src/stereoviewer/cvlab/cvlab/mesh.cpp:496-499 | the larger of three lengths: at least each of them and one of them |
| `Mesh.LongestEdge` | src/stereoviewer/cvlab/cvlab/mesh.cpp:496-499 | the cascaded comparison picks the longest of the three edges |
| `Mesh.Candidate` | src/stereoviewer/cvlab/cvlab/mesh.cpp:491-505 | at most one triangle per candidate |
| `Mesh.CandidateKept` | src/stereoviewer/cvlab/cvlab/mesh.cpp:491-509 | a candidate is kept, as `(a, b, d)`, exactly when its three samples exist and each of its edges is at most `maxEdge` long |
| `Mesh.CellTriangles` | src/stereoviewer/cvlab/cvlab/mesh.cpp:477-527 | at most two triangles per grid cell |
| `Mesh.CornerList` | src/stereoviewer/cvlab/cvlab/mesh.cpp:581-607 | one corner triple per triangle |
| `Mesh.Tessellate` | src/stereoviewer/cvlab/cvlab/mesh.cpp:473-529 | the tessellation loop keeps the vertices, and appends exactly the triangles of every grid cell, row by row, returning their number |
| `Mesh.TessellateRow` | src/stereoviewer/cvlab/cvlab/mesh.cpp:474-528 | one row of cells appends that row's triangles |
| `Mesh.TessellateCell` | src/stereoviewer/cvlab/cvlab/mesh.cpp:475-527 | one cell appends `(p0, p1, p3)` and then `(p1, p2, p3)` as each is kept |
| `Mesh.AddCandidate` | src/stereoviewer/cvlab/cvlab/mesh.cpp:491-509 | one candidate appends its triangle exactly when it is kept |
| `Mesh.AddKnownTriangle` | src/stereoviewer/cvlab/cvlab/mesh.cpp:581-607 | `add_triangle` on corners known to be vertices appends their triple and moves no vertex |
| `Mesh.SpinImage.constructor` | src/stereoviewer/cvlab/cvlab/mesh.h:186 | everything zero, no image |
| `Mesh.SpinImage.SetBinSize` | src/stereoviewer/cvlab/cvlab/mesh.h:200 | the bin size set, nothing else changed |
| `Mesh.SpinImage.SetSupportAngle` | src/stereoviewer/cvlab/cvlab/mesh.h:202 | degrees in, radians stored, nothing else changed |
| `Mesh.SpinImage.GetSupportAngle` | src/stereoviewer/cvlab/cvlab/mesh.h:212 | the stored angle back in degrees |
| `Mesh.SpinImage.SetImageWidth` | src/stereoviewer/cvlab/cvlab/mesh.h:204-208 | a fresh all-zero `w` by `w` image |
| `Mesh.SpinImage.GetSupportDistance` | src/stereoviewer/cvlab/cvlab/mesh.h:215 | 0 for a zero width, and never negative with a non-negative bin size |
| `Mesh.SupportAngleRoundTrip` | src/stereoviewer/cvlab/cvlab/mesh.h:202-212 | setting the support angle and reading it back gives the input |
| `KdTree.Compare` | src/stereoviewer/cvlab/cvlab/kdtree.h:130-149 | `compare` yields -1, 0 or 1, negative exactly when `o1` is below `o2` on the axis and positive exactly when above |
| `KdTree.CompareAntisymmetric` | src/stereoviewer/cvlab/cvlab/kdtree.h:130-149 | swapping the two points negates the comparison |
| `KdTree.SubAbove` | src/stereoviewer/cvlab/cvlab/kdtree.h:316-329 | nodes are pushed after their parents, so a subtree only holds pool slots at or after its top |
| `KdTree.SubParent` | src/stereoviewer/cvlab/cvlab/kdtree.h:316-329 | every member of a subtree other than its top has its parent in the subtree |
| `KdTree.SubNested` | src/stereoviewer/cvlab/cvlab/kdtree.h:316-329 | subtrees are transitive: the subtree of a member is inside the enclosing subtree |
| `KdTree.UnderRoot` | src/stereoviewer/cvlab/cvlab/kdtree.h:316-329 | every node of the pool is reachable from the root |
| `KdTree.SubtreesDisjoint` | src/stereoviewer/cvlab/cvlab/kdtree.h:320-326 | the left and right subtrees of a node have no node in common |
| `KdTree.PathRoot` | src/stereoviewer/cvlab/cvlab/kdtree.h:247-258 | the descent starts at the root with no side constraint violated |
| `KdTree.PathStepAt` | src/stereoviewer/cvlab/cvlab/kdtree.h:249-256 | each step of the descent keeps `p` on the correct side of every ancestor already passed |
| `KdTree.PathStep` | src/stereoviewer/cvlab/cvlab/kdtree.h:249-256 | stepping to the child `compare` selects keeps `p` on the correct side of all nodes on the path |
| `KdTree.Attach` | src/stereoviewer/cvlab/cvlab/kdtree.h:313-329 | attaching pushes exactly one node holding `p` and leaves the stored values of the others unchanged |
| `KdTree.AttachSub` | src/stereoviewer/cvlab/cvlab/kdtree.h:320-326 | the new node joins exactly those subtrees that contain the leaf it is linked below |
| `KdTree.AttachLinked` | src/stereoviewer/cvlab/cvlab/kdtree.h:313-329 | linking the new node into a free child slot (or as root of an empty tree) keeps the pool a well-formed tree: root on axis 0, every other node on the axis after its parent's, children linked back to their parents |
| `KdTree.AttachOrderedAt` | src/stereoviewer/cvlab/cvlab/kdtree.h:313-329 | attaching at the end of the descent keeps the order condition between every pair of nodes |
| `KdTree.AttachOrdered` | src/stereoviewer/cvlab/cvlab/kdtree.h:313-329 | attaching at the end of the descent keeps the k-d search-tree order |
| `KdTree.AttachPoints` | src/stereoviewer/cvlab/cvlab/kdtree.h:305-331 | adding a new position extends the stored positions by exactly that position and keeps them distinct |
| `KdTree.DistinctCount` | src/stereoviewer/cvlab/cvlab/kdtree.h:59-61 | with distinct positions, the number of positions equals the number of nodes |
| `KdTree.FindStep` | src/stereoviewer/cvlab/cvlab/kdtree.h:154-164 | in an ordered tree, a node holding `p`'s position below `t` (and not `t`) is below the child the search visits next |
| `KdTree.InBoxCoord` | src/stereoviewer/cvlab/cvlab/kdtree.h:287-289 | a point inside the box lies between its bounds on every axis |
| `KdTree.OrthoSearch` | src/stereoviewer/cvlab/cvlab/kdtree.h:263-300 | `orthoSearch` only returns indices of nodes in the pool |
| `KdTree.OrthoExact` | src/stereoviewer/cvlab/cvlab/kdtree.h:263-300 | the pruned search returns a node exactly when it is in the subtree and inside the box |
| `KdTree.ValuesAt` | src/stereoviewer/cvlab/cvlab/kdtree.h:112-114 | one value per found node, in order, the value stored at that node |
| `KdTree.BoxIsRadius` | src/stereoviewer/cvlab/cvlab/kdtree.h:81-86 | the box built by `neighbors` holds a point exactly when it is within `radius` of `mp` on every axis |
| `KdTree.WithDistances` | src/stereoviewer/cvlab/cvlab/kdtree.h:92-97 | each point keeps its data and gets its squared distance to `mp` in its `distance` slot |
| `KdTree.InsertByDistance` | src/stereoviewer/cvlab/cvlab/kdtree.h:99 | insertion adds exactly one copy of the point to the run |
| `KdTree.InsertByDistanceAbove` | src/stereoviewer/cvlab/cvlab/kdtree.h:99 | a lower bound on the distances of the run and of the point bounds the result |
| `KdTree.ConsByDistance` | src/stereoviewer/cvlab/cvlab/kdtree.h:126-128 | a point no farther than every point of an ordered run may be put in front of it |
| `KdTree.InsertByDistanceSorted` | src/stereoviewer/cvlab/cvlab/kdtree.h:99 | inserting into a run ordered by `compare_by_distance` keeps it ordered |
| `KdTree.SortByDistance` | src/stereoviewer/cvlab/cvlab/kdtree.h:99 | the sort yields a permutation of its input ordered by distance |
| `KdTree.KeptAreNearest` | src/stereoviewer/cvlab/cvlab/kdtree.h:101-104 | cutting an ordered run to `k` keeps points no farther than any dropped one |
| `KdTree.Range` | src/stereoviewer/cvlab/cvlab/kdtree.h:50 | `indices` starts as the identity `0 .. psize-1` |
| `KdTree.Shuffle` | src/stereoviewer/cvlab/cvlab/kdtree.h:47-57 | the swap loop leaves `indices` a permutation of `0 .. psize-1` |
| `KdTree.PermutationIndicesIn` | src/stereoviewer/cvlab/cvlab/kdtree.h:59-61 | every shuffled index is a valid index into `points`, so `points.at` never throws |
| `KdTree.PermutedPositions` | src/stereoviewer/cvlab/cvlab/kdtree.h:59-61 | inserting the points in shuffled order offers every input position to the tree |
| `KdTree.Tree.constructor` | src/stereoviewer/cvlab/cvlab/kdtree.h:42-63 | the built tree is valid, `length` counts its nodes, and it stores exactly the positions of the input points |
| `KdTree.Tree.Size` | src/stereoviewer/cvlab/cvlab/kdtree.h:65-67 | `size` is the number of distinct positions stored |
| `KdTree.Tree.GetNode` | src/stereoviewer/cvlab/cvlab/kdtree.h:151-167 | `get_node(p)` returns NULL exactly when `p`'s position is not stored, and otherwise a node holding that position |
| `KdTree.Tree.Contains` | src/stereoviewer/cvlab/cvlab/kdtree.h:169-174 | `contains` holds exactly when `p`'s position is stored |
| `KdTree.Tree.FindLeaf` | src/stereoviewer/cvlab/cvlab/kdtree.h:247-258 | the two-argument `get_node` returns NULL only for an empty tree, and otherwise the node whose free child slot on `p`'s side ends the descent |
| `KdTree.Tree.Add` | src/stereoviewer/cvlab/cvlab/kdtree.h:305-332 | `add` returns false and changes nothing when the position is stored; otherwise it attaches `p` at the end of the descent, keeping the tree valid |
| `KdTree.Tree.OrthogonalSearch` | src/stereoviewer/cvlab/cvlab/kdtree.h:109-115 | `result` is extended by the values of the nodes `orthoSearch` finds, in order |
| `KdTree.Tree.Neighbors` | src/stereoviewer/cvlab/cvlab/kdtree.h:77-107 | for `k == 0` the values in the box around `mp`; otherwise those values with distances filled in, sorted and cut to `k` |
| `KdTree.FillDistances` | src/stereoviewer/cvlab/cvlab/kdtree.h:92-97 | the loop fills each point's `distance` slot with its squared distance to `mp` |
| `KdTree.PushValues` | src/stereoviewer/cvlab/cvlab/kdtree.h:112-114 | the loop appends the value of every found node to `result`, in order |
| `KdTree.Nearest` | src/stereoviewer/cvlab/cvlab/kdtree.h:101-104 | the result has `k` points, or all of them when fewer were found |
| `KdTree.PermutationKeepsDistances` | src/stereoviewer/cvlab/cvlab/kdtree.h:99 | sorting does not break the distance slots filled in before it |
| `KdTree.NeighborsNearest` | src/stereoviewer/cvlab/cvlab/kdtree.h:90-106 | for `k > 0` the result is ordered by the true squared distance to `mp`, and no found point left out is nearer than one kept |
| `KdTree.SearchFindsBox` | src/stereoviewer/cvlab/cvlab/kdtree.h:109-115 | searching from the root finds exactly the stored nodes inside the box |
| `Maths.IsAboutDistance` | src/stereoviewer/prelude/maths.h:21-31 | `is_about(x, p, eps)` holds exactly when `x` is within `eps` of `p`, both ends inclusive |
| `Maths.Floor` | src/stereoviewer/prelude/maths.h:33-36 | `floor(x)` is the greatest integer not above `x` |
| `Maths.Ceil` | src/stereoviewer/prelude/maths.h:33-36 | `ceil(x)` is the least integer not below `x` |
| `Maths.Round` | src/stereoviewer/prelude/maths.h:33-36 | `round` gives the floor when the fractional part is at most one half and the ceiling otherwise, and is never more than one half away from `x` |
| `Maths.RoundHalfDown` | src/stereoviewer/prelude/maths.h:33-36 | halves round down: `round(n + 0.5) == n` |
| `Maths.Crop` | src/stereoviewer/prelude/maths.h:38-42 | `crop` lies in `[a, b]` when `a <= b`, is `x` when `x` is inside and `a` when `x` is below |
| `Maths.CropIdempotent` | src/stereoviewer/prelude/maths.h:38-42 | cropping twice is cropping once |
| `Maths.UpCrop` | src/stereoviewer/prelude/maths.h:44-48 | `upcrop` is the minimum of `x` and `top` |
| `Maths.DownCrop` | src/stereoviewer/prelude/maths.h:50-54 | `downcrop` is the maximum of `x` and `bottom` |
| `Maths.CropIsClamp` | src/stereoviewer/prelude/maths.h:38-54 | on a non-empty range `crop` equals `upcrop` after `downcrop` |
| `Maths.LinearProj` | src/stereoviewer/prelude/maths.h:86-90 | `linear_proj(a, b, 0) == a` and `linear_proj(a, b, 1) == b` |
| `Maths.Reproj` | src/stereoviewer/prelude/maths.h:101-105 | `reproj` sends `x0` to `y0` and `x1` to `y1` when `x0 != x1` |
| `Maths.ReprojIsLinearProj` | src/stereoviewer/prelude/maths.h:86-105 | `reproj` is `linear_proj` from `y0` to `y1` at the relative position of `x` in `[x0, x1]` |
| `Maths.ReprojOmo` | src/stereoviewer/prelude/maths.h:107-111 | `reproj_omo` is the identity when source and target ranges coincide and `reproj` otherwise |
| `Maths.ReprojIdentity` | src/stereoviewer/prelude/maths.h:101-111 | `reproj` of a range onto itself moves no point, so the shortcut in `reproj_omo` agrees with `reproj` |
| `Misc.FreshInts.constructor` | src/stereoviewer/prelude/misc.h:389 | the static counter of `fresh_int` starts at 0 |
| `Misc.FreshInts.Next` | src/stereoviewer/prelude/misc.h:387-391 | `fresh_int` returns the counter before the post-increment, and the `unsigned int` counter then advances by one modulo 2^32 |
| `Misc.FirstFreshInts` | src/stereoviewer/prelude/misc.h:387-391 | the first `k` calls in a run return 0, 1, ..., k-1, each one greater than the last |
| `Misc.SameId` | src/stereoviewer/prelude/misc.h:410-411 | two `unique_id_type` values are equal exactly when their wrapped values are equal |
| `Misc.Something` | src/stereoviewer/prelude/misc.h:610 | `something(d)` is the held value when there is one and `d` for none |
| `Misc.Map` | src/stereoviewer/prelude/misc.h:640-646 | `map` keeps none as none and turns `some(v)` into `some(f(v))` |
| `Misc.MapCompose` | src/stereoviewer/prelude/misc.h:640-646 | mapping `f` then `g` is mapping their composition |
| `Misc.OptionBox.Empty` | src/stereoviewer/prelude/misc.h:566 | a default `option` is none |
| `Misc.OptionBox.Of` | src/stereoviewer/prelude/misc.h:563 | `some(x)` holds a copy of `x` |
| `Misc.OptionBox.IsSome` | src/stereoviewer/prelude/misc.h:589-590 | `is_some` holds exactly when a value is held |
| `Misc.OptionBox.CopyAssign` | src/stereoviewer/prelude/misc.h:574-579 | copy assignment makes the box hold the other's value |
| `Misc.OptionBox.MoveAssign` | src/stereoviewer/prelude/misc.h:581-586 | move assignment transfers the value and leaves the source none |
| `Misc.Lazy.constructor` | src/stereoviewer/prelude/misc.h:668-671 | a new `lazy` caches nothing and has not called its generator |
| `Misc.Lazy.Force` | src/stereoviewer/prelude/misc.h:678-687 | `force` returns the cached value without calling the generator when one is cached; otherwise it calls the generator once and caches its value |
| `Misc.ForceTwice` | src/stereoviewer/prelude/misc.h:678-687 | two `force` calls evaluate the generator exactly once and both return its first value |
| `Misc.RefCnt.constructor` | src/stereoviewer/prelude/misc.h:515 | a new `refcnt` owns a fresh counter equal to 1 |
| `Misc.RefCnt.Count` | src/stereoviewer/prelude/misc.cpp:45-51 | `count` is the shared counter, or 0 for a handle without one |
| `Misc.RefCnt.Copy` | src/stereoviewer/prelude/misc.cpp:11-18 | `copy` shares the source's counter and increments it by one |
| `Misc.RefCnt.Move` | src/stereoviewer/prelude/misc.cpp:20-28 | `move` takes over the source's counter unchanged and leaves the source with none |
| `Misc.RefCnt.Unref` | src/stereoviewer/prelude/misc.cpp:30-43 | `unref` decrements the counter and disposes exactly when it reaches 0, then releases the counter; a handle without a counter is left alone |
| `Misc.RefCnt.CopyAssign` | src/stereoviewer/prelude/misc.h:519-524 | copy assignment releases the old counter and then shares the source's, incremented |
| `Misc.RefCnt.MoveAssign` | src/stereoviewer/prelude/misc.h:526-531 | move assignment releases the old counter and then takes over the source's, leaving the source with none |
| `Misc.SharedLifetime` | src/stereoviewer/prelude/misc.cpp:11-43 | with two handles on one object, the first release leaves count 1 and the second disposes the object exactly once |
| `IO.ProgressAdapter.constructor` | src/stereoviewer/prelude/io.h:108 | a new adapter has shown nothing and its `last_value` is the smallest positive double |
| `IO.ProgressAdapter.Update` | src/stereoviewer/prelude/io.h:112-119 | `update` shows the value and records it as `last_value` exactly when it lies outside `last_value ± resolution`; otherwise nothing changes |
| `IO.ProgressAdapter.Start` | src/stereoviewer/prelude/io.h:121 | `start` is `update(0.0)` |
| `IO.ProgressAdapter.Finish` | src/stereoviewer/prelude/io.h:122 | `finish` is `update(1.0)` |
| `IO.FreshStart` | src/stereoviewer/prelude/io.h:108-121 | a fresh adapter's `start` is suppressed exactly when its resolution is at least the smallest positive double |
| `IO.ComposedAdapter.constructor` | src/stereoviewer/prelude/io.h:134-136 | the composition holds the two given adapters |
| `IO.ComposedAdapter.Resolution` | src/stereoviewer/prelude/io.h:140 | the composed resolution is the smaller of the two |
| `IO.ComposedAdapter.Update` | src/stereoviewer/prelude/io.h:141 | an update reaches both adapters, each applying its own band |
| `IO.ProgressTracker.constructor` | src/stereoviewer/prelude/io.h:192-196 | the public tracker spans `[0, 1]` and starts its adapter |
| `IO.ProgressTracker.Sub` | src/stereoviewer/prelude/io.h:178-180 | the tracker behind `sub` shares the adapter and spans the given range |
| `IO.ProgressTracker.SetAt` | src/stereoviewer/prelude/io.h:200-210 | `set_at` forwards the position to the adapter's `update` |
| `IO.ProgressStepper.constructor` | src/stereoviewer/prelude/io.h:249-254 | `section(steps)` splits the range into `steps` equal increments and sets `every` to the resolution measured in increments, rounded, with the countdown full |
| `IO.ProgressStepper.AtEnds` | src/stereoviewer/prelude/io.h:230-233 | `at(0)` is the tracker's `from` and `at(steps)` is its `to` |
| `IO.ProgressStepper.Increment` | src/stereoviewer/prelude/io.h:274-278 | `++` advances `i` and reports `at(i)` exactly on every `every`-th increment (on every increment when `every <= 1`) |
| `IO.ProgressStepper.SkipIncrement` | src/stereoviewer/prelude/io.h:235-242 | the countdown reports `at(i)` and refills exactly when it reaches zero |
| `IO.ProgressStepper.Sub` | src/stereoviewer/prelude/io.h:280-283 | `sub(k)` spans `[at(i), at(i + k)]` on the same adapter |
| `IO.ProgressStepper.Destroy` | src/stereoviewer/prelude/io.h:269-272 | the destructor always reports `at(steps)`, whatever was skipped |
| `IO.Uendl` | src/stereoviewer/prelude/io.h:15 | `uendl` appends exactly one line feed to the stream |
| `IO.WsOrEndl` | src/stereoviewer/prelude/io.cpp:8-24 | `ws_or_endl` consumes only white space and line breaks and leaves the first other character unread |
| `IO.TrimmedEol` | src/stereoviewer/prelude/io.cpp:31-39 | a final line feed becomes NUL and so does a carriage return right before it; a line not ending in a line feed is unchanged, and no other character changes |
| `IO.TrimEolAsWritten` | src/stereoviewer/prelude/io.cpp:31-39 | `trim_eol` as written, given a length for which it stays in the buffer, trims as `TrimmedEol` says |
| `IO.EmptyLineReadsBeforeBuffer` | src/stereoviewer/prelude/io.cpp:80-82 | an empty line read as "\n" alone has length 1, for which `trim_eol` reads before the buffer |
| `IO.TrimEol` | src/stereoviewer/prelude/io.cpp:31-39 | `trim_eol` with the character before the line feed inspected only when there is one trims as `TrimmedEol` says, for every length from 1 |
| `IO.FileName` | src/stereoviewer/prelude/io.h:42 | the file name is the suffix of the path after its last `/` |
| `IO.SetCmd` | src/stereoviewer/prelude/io.h:35-43 | the `cmd` setter stores the command and renames the prompt after its file name, leaving the rest |
| `IO.RunSh` | src/stereoviewer/prelude/io.cpp:117-124 | `run_sh` runs `bash` with the original command as the first argument and keeps the original prompt |
| `IO.RunShRecoverable` | src/stereoviewer/prelude/io.cpp:117-124 | taking the first argument back as the command recovers the original configuration |
| `Config.NextBand` | src/stereoviewer/config.cpp:28-30 | the band used is never the previous one, stays in `[0, 11]`, and is the drawn band whenever that differs from the previous one |
| `Config.KeypointColors.constructor` | src/stereoviewer/config.cpp:26 | the function-local static `last_hue_band` starts at 0 |
| `Config.KeypointColors.Next` | src/stereoviewer/config.cpp:23-32 | `keypoint_color` records the band used, which differs from the previous one, and returns its hue with the drawn saturation and value |
| `Config.BandHue` | src/stereoviewer/config.cpp:31 | the hue of a band is 30 times the band, below 360 |
| `Config.KeypointColorRun` | src/stereoviewer/config.cpp:23-32 | over a run of calls every hue is a multiple of 30 below 360, the first is not 0, and no two consecutive hues are equal |
| `Config.DistinctBandsDistinctHues` | src/stereoviewer/config.cpp:31 | two bands give the same hue exactly when they are the same band |
| `Config.AdaptScale` | src/stereoviewer/config.cpp:59-97 | every detector's `adapt_scale` keeps the scale, and SURF's integer size stays integral |
| `Config.AdaptRotation` | src/stereoviewer/config.cpp:59-97 | SIFT and SIFT++ keep the angle, OpenCV's SURF converts degrees to radians as x/180·π, OpenSURF subtracts π |
| `Config.CvSurfRotationTurns` | src/stereoviewer/config.cpp:87 | OpenCV's SURF maps 0, 180 and 360 degrees to 0, π and 2π |
| `Config.OpenSurfRotationRange` | src/stereoviewer/config.cpp:96 | OpenSURF angles in `[0, 2π)` become `[-π, π)` |
| `Config.AdaptDescriptor` | src/stereoviewer/config.cpp:59-97 | every detector's `adapt_descriptor` is the identity |
| `Config.ToUnsignedShort` | src/stereoviewer/config.cpp:127 | the cast to `unsigned short` truncates toward zero into `[0, 65535]` |
| `Config.Decimal` | src/stereoviewer/config.cpp:127 | `%1` prints a non-empty run of decimal digits without a leading zero |
| `Config.DecimalRoundTrip` | src/stereoviewer/config.cpp:127 | `ParseDecimal` reads the printed digits back as the number printed |
| `Config.DecimalLength` | src/stereoviewer/config.cpp:127 | a number below 10^k prints in at most `k` digits |
| `Config.BundlerPrettyDescriptor` | src/stereoviewer/config.cpp:117-128 | `bundler::pretty_descriptor` prints at most five digits that read back as the value truncated to `unsigned short` |
| `GLScene.NormalAngleSpec` | src/stereoviewer/glscene.cpp:1071-1077 | the normalised angle lies in `[0, 5760]` (5760 itself is kept), differs from the input by whole turns, and leaves angles already in range alone |
| `GLScene.NormalAngleIdempotent` | src/stereoviewer/glscene.cpp:1071-1077 | normalising twice is normalising once |
| `GLScene.NormalizeAngle` | src/stereoviewer/glscene.cpp:1071-1077 | the two loops of `normalizeAngle` compute the normal angle |
| `GLScene.Zoomed` | src/stereoviewer/glscene.cpp:80-88 | `zoom(d)` widens the view volume by `2d` along each of its three extents |
| `GLScene.ZoomInverse` | src/stereoviewer/glscene.cpp:80-88 | `zoom(d)` followed by `zoom(-d)` restores the volume, and two zooms add up |
| `GLScene.Scene.constructor` | src/stereoviewer/glscene.cpp:21-45 | a new scene has rotations (2880, 0, 0), the initial view volume and no items |
| `GLScene.Scene.SetXRotation` | src/stereoviewer/glscene.cpp:56-62 | `setXRotation` stores the normalised angle, repaints only when it changes, and touches nothing else |
| `GLScene.Scene.SetYRotation` | src/stereoviewer/glscene.cpp:64-70 | the same for `setYRotation` |
| `GLScene.Scene.SetZRotation` | src/stereoviewer/glscene.cpp:72-78 | the same for `setZRotation` |
| `GLScene.Scene.Zoom` | src/stereoviewer/glscene.cpp:80-88 | `zoom` widens the view volume, repaints once, and touches nothing else |
| `GLScene.Scene.AddPointSet` | src/stereoviewer/glscene.cpp:723-746 | with `add_to_scene` the new item is appended and its index returned; otherwise the scene is unchanged and the display list's name is returned |
| `GLScene.Scene.AddColoredPointSet` | src/stereoviewer/glscene.cpp:757-784 | the coloured variant fails with `invalid_argument`, leaving the scene unchanged, exactly when the point and colour counts differ or either is empty; otherwise it behaves as the uncoloured one |
| `MultiViewStereo.Collection.constructor` | archive/demo/multiviewstereo.cpp:6-8 | a new collection is empty with size 0x0 |
| `MultiViewStereo.Collection.AddImage` | archive/demo/multiviewstereo.cpp:19-30 | an image is accepted exactly when the size is unset (0x0) or the image has the collection's size; the first one fixes the size; an accepted image is appended at the end; a refused one raises `invalid_argument` and changes nothing |
| `MultiViewStereo.Collection.ClearImages` | archive/demo/multiviewstereo.cpp:40-46 | `clearImages` resets the size to 0x0 and empties the list |
| `MultiViewStereo.Collection.TrackedFeatureLists` | archive/demo/multiviewstereo.cpp:69-78 | `getTrackedFeatures` raises `runtime_error` exactly when there are no images, and otherwise sets up one feature list per image |
| `MultiViewStereo.SizeIsFixed` | archive/demo/multiviewstereo.cpp:19-30 | after a first image of nonzero width, a second one is accepted exactly when it has the same size |

## Left out

- File and stream I/O: opening, closing and failing to open a file are not modelled. A file is the value read from it or written to it. Where the code reports an unreadable file, the model takes that as an input (`None`).
- Number formatting with `printf`, `fprintf`, `%lf` and `QString::arg` (six decimals, field widths) is not modelled. Written numbers are kept as values.
- `KeyfileWriter.Printed` and `KeyfileWriter.KeyfileRoundTrip`: `QTextStream`'s `<<` on a `double` prints six significant digits (stereoview.cpp:444-455), so `123.4567` is written as `123.457`. The model keeps printed numbers as values, and the round trip is exact only under that convention.
- `sscanf` and `fscanf` conversions are parameters (`scanReal`, `scanCounts`) or a sequence of already-typed fields. The C library's leniency about leading blanks and trailing text is not modelled.
- `QTextStream` is modelled as a sequence of tokens (`TextStream`). Line structure matters only where the parsers count lines.
- NUL bytes inside list files are not modelled. `fgets` is modelled with its 256-byte buffer, which reads at most 255 characters.
- A bundle file whose numbers run out or are malformed makes the code read indeterminate values. The model reports `None` for such a file instead of guessing those values.
- Floating-point rounding, NaN and infinities are not modelled: `double` and `float` are `real`. Where the code would divide by zero, the model has a flag or a precondition.
- `exp`, `sqrt`, `sin`, `cos`, `acos`, `iround` and `GetJPEGDimensions` are function parameters (`round` and `dims` in the bundler tools). Only the properties stated about them are assumed.
- `rand()` is an input sequence of draws.
- Threads, locks, `sync<>` wrappers and the mutex inside `refcnt` are not modelled. Every operation is sequential.
- Logging, progress printing and the Qt widgets and OpenGL rendering in `glscene.cpp` are not modelled. Only the scene's angle, zoom and point-set state is.
- `UndistortImage`'s pixel resampling is not modelled. `UndistortImages` is modelled only for its output names and the cameras it skips.
- `main` of `RadialUndistort.cpp` is not modelled. The functions it calls are.
- `run_cmd`, `temp_dir` and the process that `run_sh` starts are not modelled. Only `run_sh`'s rewriting of its arguments is.
- The kd-tree's `searchParent`, `findNearest` and `getNearest` (kdtree.h) are not modelled. They refer to a member `v` that the node type does not have, so they cannot be compiled as written.
- `KdTree.Shuffle`: the `uint32_t` truncation of the point count `psize` in the kd-tree constructor is not modelled; the count is exact.
- The kd-tree that `put_vertices` builds, `calc_normals`, and the PLY parsing in `load_range_from_ply` are not modelled. The tessellation rule that decides which grid triangles are added is.
- The tracking in `getTrackedFeatures` (archive/demo) is not modelled. Only its empty-collection check and the image-size rule are.
- `kmatcher::pretty_descriptor` and the copy of the second image at stereoview.cpp:508 are not modelled. The copy has no effect on the table.
- The move constructor of `progress_stepper`, which initialises `i` from itself, is not modelled.
- `KMatcher.Kmatcher2`: requires at least one feature in the first image, because `n_strategies - 1` underflows `size_t` otherwise. It also requires `arg__neighbours <= |f2|` when the second image has features, because `neighs[j]` is read out of range otherwise.
- `KMatcher.Neighbours`: among descriptors at equal distance, the order is the model's stable order, which `std::sort` does not promise.
- `KMatcherMain.Schedule`: requires the reference image to be in the list, because the code reads `keyfiles[img_base]`. With no reference image it requires at least one image, because `n_imgs - 1` underflows otherwise.
- `IIDyn.Repdyn`: the loop has no iteration cap in the code; a `fuel` bound stands in for it, and the model stops with `IterationCap` when the fuel runs out.
- `IIDyn.Iidyn`: the bound on the Nash error at a converged stop is stated against `A x` only for a symmetric `A`; for any other matrix the incrementally updated payoff vector the code tests is not `A x`. `kmatcher2` only runs the dynamics on symmetric matrices (`KMatcher.PlayedMasked`).
- `IIDyn.Repdyn`: the population is proved to stay non-negative, and so on the simplex, only for a non-negative payoff matrix; for other matrices the replicator step can produce negative shares and the model states only that they sum to 1.
- `IIDyn.IidynMThreshold`: `iidyn_m` is modelled only through the 0/1 vector its caller derives from it. The dynamics are a parameter.
- `Vtk.VtkScene.Save`: counts are proved only while the `uint32_t` counters do not wrap (fewer than 2^32 points and triangles, and `n + 3t` at most 2^32).
- `Vtk.SaveAsVtk`: requires every camera to be drawable (a non-zero focal length), which the code does not check.
- `Math3D.TransposeAsWritten`: requires a square matrix, because the as-written loop reads outside any other shape (see Findings).
- `Math3D.LCM`: `a * (b / GCD(a, b))` is computed in `int` and overflows for large arguments. The model computes the exact product.
- `Misc.RefCnt.CopyAssign` and `Misc.OptionBox.CopyAssign`: self-assignment (`x = x`) is a legal call in C++ but is not modelled; both require a different source object.
- `KMatcher.Params`: `neighbours`, `maxIterations` and `minGoodStrategies` are `size_t` values parsed by `atoi` (main.cpp:600-605). A negative argument wraps to a huge `size_t`; the model takes these parameters as `nat` and does not model that wrap.
- The `.exp` file (main.cpp:561-567) records `QTime` timings of each accepted round. Clocks are not modelled, so the timings are left out. The per-pair counts `kmatcher2` appends to the `.strats` stream, with nothing between pairs, are modelled (`KMatcher.StratCounts`).
- `KMatcher.StratCounts`: `kmatcher2` writes a pair's number of accepted rounds and then ` <count>` per round to the `.strats` stream (main.cpp:562-566), with no line break or separator before the next pair's number. The file therefore cannot be split back into pairs: a pair with counts [5] followed by a pair with none gives `1 50`, the same text as one pair with counts [50]. The model keeps each pair's counts as its own sequence and does not model that concatenation.
- `KMatcherMain.MgrpLines`: the `.mgrp` file is modelled from the pairs and the results `kmatcher2` returned for them. The loop in `main` that parses the key files and calls `kmatcher2` once per pair is not modelled as one method.
- `StereoView.ExpectedMatchSets`: `imgids.size()` is a `QVector` size, an `int`, so `size * (size - 1)` is computed in `int` and overflows beyond 46341 images. The model does not capture that overflow: it computes the exact product.

## Findings

| source | as written | input that shows it | evidently intended | confidence | as-written member | corrected member |
|---|---|---|---|---|---|---|
| src/stereoviewer/prelude/io.cpp:31-39 | `trim_eol` inspects `line[len-2]` after removing a final `\n` | the line `"\n"` returned for an empty line (io.cpp:80-82) has `len == 1`, so `line[-1]` is read | inspect the previous character only when `len >= 2` | not executed | `IO.TrimEolAsWritten`, `IO.EmptyLineReadsBeforeBuffer` | `IO.TrimEol` |
| src/stereoviewer/cvlab/cvlab/math3d.h:318-326 | `transpose` runs `i` over the width and `j` over the height, but reads `m(i, j)` with `i` as the row | a matrix with 1 row and 2 columns: `m(1, 0)` is cell 2 of a 2-cell matrix | a transpose that is correct for every shape | not executed | `Math3D.TransposeAsWritten`, `Math3D.TransposeAsWrittenOutOfRange` | `Math3D.Transpose`, `Math3D.TransposeTwice` |
| src/stereoviewer/cvlab/cvlab/cloud3d.cpp:31-35 | `assign` clears its own list before copying from the other cloud, so self-assignment copies nothing but keeps the count | a one-point cloud assigned to itself ends with count 1 and an empty list | self-assignment keeps the points | not executed | `Cloud3D.Cloud.AssignCloudAsWritten`, `Cloud3D.SelfAssignmentLosesPoints` | `Cloud3D.Cloud.AssignCloud`, `Cloud3D.SelfAssignmentKeepsPoints` |
| src/stereoviewer/stereoview.cpp:384-412 | `parse_siftpp_keyfile` counts lines and checks the stream only before each read, so a trailing blank line stores one more keypoint, never read, at the origin | a file of `m` complete keypoint lines followed by one blank line | store only keypoints that were read completely | not executed | `StereoView.SiftppBlankLineAddsKeypoint`, `StereoView.Viewer.ParseSiftppKeyfile` | `StereoView.SiftppCheckedKeepsLines`, `StereoView.Viewer.ParseSiftppKeyfileChecked` |
