# countpairs_wp in Dafny

A Dafny model of the projected pair-counting kernel `countpairs_wp` in
`xi_theory/wp/countpairs_wp.c`. For a periodic box of points the kernel
counts, per bin of projected separation `rp`, the pairs with line-of-sight
separation `0 <= dz < pimax`. Points are bucketed into a lattice of cells.
Each primary cell is compared with a block of neighbour cells, and
periodic wrap-around is handled by shifting the primary point by `±boxsize`.

The model covers:

- the choice of the refinement factors and the squared bin edges;
- decoding of the flat cell index `index1` into `(ix, iy, iz)`, with C's truncating `/` and `%`;
- the periodic neighbour enumeration: wrapped index `index2` and wrap offsets. The z search looks forward only;
- the pair filter and the three bin scans:
  - the scalar one-sided downward scan;
  - the two-sided scan of the tail loop that follows the vector groups;
  - the lane-mask loop of the vector build, which counts the set lanes per bin;
- the loop with `break` on `dz >= pimax`, and the vector loop over groups of NVEC points;
- the loops over primary points, neighbour visits and primary cells;
- the OpenMP reduction of the per-thread counters into `npair`, the serial copy, and the averaging of `rpavg`.

Modules, one file each:

| file | module | what |
|---|---|---|
| arith.dfy | Arith | C `/` and `%`, small multiplication and division facts |
| cellindex.dfy | CellIndex | mesh, flattening, decoding of `index1` |
| neighbours.dfy | Neighbours | refinement factors, axis wrap, the neighbour visits of a cell |
| counters.dfy | Counters | per-bin counters (`uint64_t` as `nat`) |
| edges.dfy | Edges | squared edges, bin membership, the one- and two-sided scans |
| pairs.dfy | Pairs | separations, acceptance, per-pair verdicts, the reference histogram |
| lanes.dfy | Lanes | lane masks, blending, the mask bin loop, one lane group |
| kernels.dfy | Kernels | the scalar and vector loops over one neighbour cell |
| driver.dfy | Driver | point, visit and cell loops of one thread |
| reduction.dfy | Reduction | thread reduction, schedule independence, averaging |
| wp.dfy | Wp | the whole kernel |

The reference against which the two builds are compared scans every point
of a neighbour cell, with `continue` in place of `break`. With increasing
edges it adds exactly the histogram "accepted pairs per bin" (`Pairs.Histogram`).

The kernel does not count each unordered pair once, and the model follows the code:

- When `rupp[0] == 0`, a point compared with itself (same cell, zero offset: `dz = 0`, `r2 = 0`) is counted in bin 1 (`Pairs.SelfPairIsCounted`).
- Two points with equal z pass the `dz < 0` test in both orders and are counted twice (`Pairs.EqualZPairCountedTwice`).

The `break` on `dz >= pimax` (lines 178 and 298) and the early exit of a lane group (lines 239-241) are only exact if each cell buffer is sorted by z. Nothing in `countpairs_wp.c` sorts the buffers, and the grid construction that fills them is not part of this model. So the model assumes sortedness: it is an explicit precondition of every agreement theorem. Without it the scalar `break` undercounts, and the scalar and vector builds can disagree; concrete inputs show both.

## Model

| member | source | states |
|---|---|---|
| Neighbours.ChooseRefine | xi_theory/wp/countpairs_wp.c:40-54 | x/y factor is 2; z factor is 2 exactly when `rmax >= pimax` and the build is not OpenMP with one thread, else 1 |
| Edges.SquaredEdgesIncreasing | xi_theory/wp/countpairs_wp.c:59-62 | squares of nonnegative strictly increasing edges are nonnegative and strictly increasing |
| Wp.SetupOf | xi_theory/wp/countpairs_wp.c:40-66 | the setup carries the factors chosen from `rmax = rupp[nbin-1]` and the build, the squares of `rupp`, `pimax` and `side = boxsize`; those factors keep every neighbour index in range for any mesh |
| Arith.CDiv | xi_theory/wp/countpairs_wp.c:122-123 | C quotient truncates toward zero: for `a >= 0`, `n*q <= a < n*q + n`; for `a < 0`, `n*q - n < a <= n*q` |
| Arith.CRem | xi_theory/wp/countpairs_wp.c:121 | C remainder: `a == n*CDiv(a,n) + r`, `r` in `[0,n)` for `a >= 0` and in `(-n,0]` for `a < 0` |
| CellIndex.Decode | xi_theory/wp/countpairs_wp.c:120-124 | the decoded cell lies in the mesh and re-flattens to `index1` (the assertion on line 124) |
| CellIndex.DecodeFlatten | xi_theory/wp/countpairs_wp.c:120-124 | decoding inverts flattening on every cell of the mesh |
| CellIndex.FlattenInjective | xi_theory/wp/countpairs_wp.c:152 | two cells of the mesh with the same flat index are equal |
| CellIndex.FlattenInRange | xi_theory/wp/countpairs_wp.c:152-153 | a cell of the mesh flattens into `[0, totncells)` |
| Neighbours.WrapAxis | xi_theory/wp/countpairs_wp.c:126-143 | for offsets within one period: wrapped index = raw index + `n*s`, `s` in {-1,0,1}, `s != 0` iff the raw index leaves `[0,n)` |
| Neighbours.WrapForward | xi_theory/wp/countpairs_wp.c:145-150 | same for z, with `s` in {-1,0}: nonzero iff `iz+iiz >= nz` |
| Neighbours.WrapAxisInRange | xi_theory/wp/countpairs_wp.c:126-143 | the wrapped index is in `[0,n)` for offsets `>= -b` when `n == 1` or `b <= n` |
| Neighbours.WrapAxisOutOfRange | xi_theory/wp/countpairs_wp.c:127 | the range condition is needed: `n = 2`, offset `-3` from cell 0 gives index `-1` |
| Neighbours.ChosenFactorsInRange | xi_theory/wp/countpairs_wp.c:41-53 | the chosen x/y factor meets the range condition for every mesh size |
| Neighbours.CellVisits | xi_theory/wp/countpairs_wp.c:126-150 | a cell has `(2b+1)^2 (bz+1)` neighbour visits |
| Neighbours.NeighboursMembers | xi_theory/wp/countpairs_wp.c:126-150 | a visit is enumerated iff it is the visit of an offset in `[-b,b] x [-b,b] x [0,bz]` |
| Neighbours.NeighboursInRange | xi_theory/wp/countpairs_wp.c:145-153 | every `index2` is in `[0, totncells)`; with `side >= 0` no z offset is positive |
| Neighbours.NeighbourVisit | xi_theory/wp/countpairs_wp.c:126-153 | for offsets within one period on every axis, `index2` of a cell of the mesh is in `[0, totncells)` |
| Neighbours.VisitUnwraps | xi_theory/wp/countpairs_wp.c:126-153 | `index2` decodes to the raw neighbour cell moved by whole periods, and the offset is `s*side` with the same signs |
| Neighbours.DegenerateWrapIsShort | xi_theory/wp/countpairs_wp.c:126-134 | with one cell per axis and offset `-2` the offset is one period while the raw shift is two |
| Neighbours.SelfVisitIncluded | xi_theory/wp/countpairs_wp.c:126-153 | the visits of a cell include the cell itself with zero offset |
| Pairs.Separation | xi_theory/wp/countpairs_wp.c:166-181 | `r2 >= 0` and `dz = z2 - z - off_z` |
| Pairs.ZSortedGivesDzSorted | xi_theory/wp/countpairs_wp.c:166-174 | a z-sorted neighbour cell gives nondecreasing `dz` for every primary point and offset |
| Pairs.ScalarVerdict | xi_theory/wp/countpairs_wp.c:175-197 | `break` iff `0 <= dz` and `pimax <= dz`; a bin is hit iff the pair is accepted; the bin hit holds `r2` |
| Pairs.TailVerdict | xi_theory/wp/countpairs_wp.c:295-313 | same three statements for the tail loop's two-sided scan |
| Pairs.TailVerdictMatchesScalar | xi_theory/wp/countpairs_wp.c:295-313 | the tail loop's verdict equals the scalar verdict on every pair, for any edges |
| Pairs.PairStep | xi_theory/wp/countpairs_wp.c:175-197 | counters change iff the pair is accepted; then exactly one bin `k` holding `r2` gains 1; bin 0 is untouched; the total grows by 1 |
| Pairs.PairStepBins | xi_theory/wp/countpairs_wp.c:189-197 | with increasing edges, bin `k` gains 1 iff the pair is accepted and `r2` is in `[sq[k-1], sq[k])` |
| Pairs.FullScan | xi_theory/wp/countpairs_wp.c:171-199 | visiting every pair: bin 0 untouched, no bin decreases, total grows by the number of accepted pairs |
| Pairs.FullScanIsHistogram | xi_theory/wp/countpairs_wp.c:171-199 | with increasing edges, visiting every pair adds exactly the per-bin count of accepted pairs |
| Pairs.FullScanBeyondPimax | xi_theory/wp/countpairs_wp.c:177-178 | pairs all at `dz >= pimax` change nothing and have an empty histogram |
| Pairs.SelfPairIsCounted | xi_theory/wp/countpairs_wp.c:175-197 | with `rupp[0] == 0` a point against itself unshifted is counted in bin 1 |
| Pairs.EqualZPairCountedTwice | xi_theory/wp/countpairs_wp.c:175-184 | an accepted pair with equal z is counted in both orders, in the same bin |
| Edges.ScanDown | xi_theory/wp/countpairs_wp.c:189-197 | the scan stops at the highest bin whose lower edge is `<= r2`; it finds none iff every lower edge exceeds `r2` |
| Edges.TailScanDown | xi_theory/wp/countpairs_wp.c:305-313 | the scan stops at the highest bin holding `r2`; it finds none iff no bin up to the start holds it |
| Edges.OneSidedMatchesTwoSided | xi_theory/wp/countpairs_wp.c:304-313 | for `r2` in `[sq[0], sq[nbin-1])` both scans find the same bin, and it holds `r2`, for any edges |
| Edges.ScanDownFindsTheBin | xi_theory/wp/countpairs_wp.c:189-197 | with increasing edges the bin found is the only bin holding `r2` |
| Lanes.WindowMatchesScalarTests | xi_theory/wp/countpairs_wp.c:237-243 | a lane of the window mask is set iff the scalar loop would neither skip that pair for `dz < 0` nor stop at it for `dz >= pimax` |
| Lanes.LaneGroup | xi_theory/wp/countpairs_wp.c:236-252 | the neighbour loop ends iff every lane has `dz >= pimax`, and then nothing is counted; no bin decreases; bin 0 untouched |
| Lanes.BlendedBandIsBin | xi_theory/wp/countpairs_wp.c:237-247 | after blending, a lane is in `[sq[k-1], sq[k])` iff its pair is accepted and in bin `k` |
| Lanes.PopCountIsCountInBin | xi_theory/wp/countpairs_wp.c:263-264 | the popcount of a mask of the accepted lanes of bin `k` is their number |
| Lanes.MaskBinLoop | xi_theory/wp/countpairs_wp.c:259-272 | the mask loop never decreases a bin and leaves bin 0 alone |
| Lanes.MaskBinLoopCountsBands | xi_theory/wp/countpairs_wp.c:259-272 | with increasing edges, the mask loop adds to every bin `k <= kbin` the lanes in `[sq[k-1], sq[k])`; the early exit skips only empty bins |
| Lanes.LaneGroupIsHistogram | xi_theory/wp/countpairs_wp.c:236-272 | with increasing edges, a lane group adds exactly the histogram of its accepted lanes |
| Lanes.LaneGroupMatchesScalar | xi_theory/wp/countpairs_wp.c:236-272 | with increasing edges, a lane group counts, bin for bin, what the scalar scan counts for the same lanes with `continue` |
| Lanes.MaskBinLoopUnorderedEdges | xi_theory/wp/countpairs_wp.c:259-272 | with edges `[0, 4, 2, 5]` and lanes `r2 = 3, 1` the mask loop counts the first lane in bins 3 and 1: the reassigned mask of line 268 is not a subset of the previous one |
| Lanes.LaneGroupOvercountsUnorderedEdges | xi_theory/wp/countpairs_wp.c:236-272 | the same lanes as a whole group give `[0, 2, 0, 1]` |
| Pairs.FullScanUnorderedEdges | xi_theory/wp/countpairs_wp.c:189-197 | the scalar scan puts the same two pairs in bins 3 and 1 only: `[0, 1, 0, 1]` |
| Kernels.FirstStop | xi_theory/wp/countpairs_wp.c:175-179 | index of the first pair with `0 <= dz` and `pimax <= dz`, none before it |
| Kernels.BreakScan | xi_theory/wp/countpairs_wp.c:171-199 | the loop with `break` never decreases a bin and leaves bin 0 alone |
| Kernels.BreakScanIsPrefixScan | xi_theory/wp/countpairs_wp.c:171-199 | the loop with `break` counts exactly the pairs before the first stopping pair |
| Kernels.BreakScanKindIrrelevant | xi_theory/wp/countpairs_wp.c:290-315 | the scalar loop and the tail loop count the same pairs |
| Kernels.BreakScanNeverOvercounts | xi_theory/wp/countpairs_wp.c:175-179 | `break` never counts more in any bin than visiting every pair |
| Kernels.BreakScanMatchesFullScan | xi_theory/wp/countpairs_wp.c:175-179 | with nondecreasing `dz`, `break` counts what visiting every pair counts |
| Kernels.BreakScanUndercountsUnsorted | xi_theory/wp/countpairs_wp.c:175-179 | unsorted input where `break` misses an accepted pair |
| Kernels.VectorScan | xi_theory/wp/countpairs_wp.c:219-315 | the vector loop never decreases a bin and leaves bin 0 alone |
| Kernels.VectorScanNeverOvercounts | xi_theory/wp/countpairs_wp.c:219-315 | with increasing edges, the vector loop never counts more in any bin than visiting every pair |
| Kernels.VectorScanOvercountsUnorderedEdges | xi_theory/wp/countpairs_wp.c:259-272 | increasing edges are needed: with edges `[0, 4, 2, 5]` the vector loop counts more in bin 1 than visiting every pair |
| Kernels.VectorScanMatchesFullScan | xi_theory/wp/countpairs_wp.c:219-315 | with nondecreasing `dz` and increasing edges the vector loop counts what visiting every pair counts |
| Kernels.ScalarAndVectorAgreeWhenSorted | xi_theory/wp/countpairs_wp.c:170-315 | with nondecreasing `dz` and increasing edges the scalar and vector loops agree bin for bin |
| Kernels.ScalarAndVectorDisagreeUnsorted | xi_theory/wp/countpairs_wp.c:237-242 | unsorted input where a lane group counts a pair the scalar loop misses |
| Driver.PointLoop | xi_theory/wp/countpairs_wp.c:160-168 | the loop over the primary points never decreases a bin and leaves bin 0 alone |
| Driver.VisitLoop | xi_theory/wp/countpairs_wp.c:126-321 | the loops over the neighbour offsets never decrease a bin and leave bin 0 alone |
| Driver.CellStep | xi_theory/wp/countpairs_wp.c:120-321 | one primary cell never decreases a bin and leaves bin 0 alone |
| Driver.CellLoop | xi_theory/wp/countpairs_wp.c:118-322 | the `index1` loop over a thread's cells never decreases a bin and leaves bin 0 alone |
| Driver.NeighbourVisitsInLattice | xi_theory/wp/countpairs_wp.c:152-154 | every neighbour visit of a cell of the mesh indexes the lattice |
| Driver.CellLoopTranslates | xi_theory/wp/countpairs_wp.c:120-322 | running cells on `c + d` gives the result on `c`, plus `d` |
| Driver.CellLoopConcat | xi_theory/wp/countpairs_wp.c:120 | running two lists of cells is running their concatenation |
| Driver.CellLoopMatchesReference | xi_theory/wp/countpairs_wp.c:120-322 | with z-sorted cells and increasing edges, either build counts what the reference counts over any list of cells |
| Driver.ScalarAndVectorBuildsAgree | xi_theory/wp/countpairs_wp.c:170-317 | with z-sorted cells and increasing edges, the scalar and vector builds give the same counters |
| Reduction.Reduce | xi_theory/wp/countpairs_wp.c:334-338 | bin `j` of the result is `npair[j]` plus the column sum of the thread rows |
| Reduction.ThreadCounts | xi_theory/wp/countpairs_wp.c:103-326 | one row of `nbin` counters per thread, each with bin 0 zero |
| Reduction.DeltaPermutes | xi_theory/wp/countpairs_wp.c:118-120 | what a list of cells adds depends only on the multiset of cells |
| Reduction.ReduceIsConcatenatedRun | xi_theory/wp/countpairs_wp.c:102-338 | reducing the thread rows into `npair` equals running all threads' cells on `npair` in turn |
| Reduction.ScheduleIrrelevant | xi_theory/wp/countpairs_wp.c:102-338 | for every dynamic schedule, the reduced counters are `npair` plus the serial count over all cells |
| Reduction.Average | xi_theory/wp/countpairs_wp.c:362-368 | a bin with pairs holds a value that times `npair[i]` is the sum; a bin without keeps its sum |
| Wp.SerialCounts | xi_theory/wp/countpairs_wp.c:94-322 | the serial cell loop over every `index1`, from zeroed counters: `nbin` bins, bin 0 zero |
| Wp.CountPairsIsSerial | xi_theory/wp/countpairs_wp.c:323-359 | without OpenMP `npair` becomes the serial count; with it, `npair` plus the serial count, whatever the schedule |
| Wp.CountPairsWp | xi_theory/wp/countpairs_wp.c:40-359 | the whole kernel: `nbin` counters; `npair[0]` keeps its incoming value with OpenMP and is 0 without; with OpenMP no bin of `npair` decreases |
| Wp.BuildsAgreeWhenSorted | xi_theory/wp/countpairs_wp.c:170-317 | with nonnegative increasing edges and z-sorted cells, the scalar build, the vector build and the reference give the same `npair` |

## Left out

- `gridlink` and the cell construction are not part of this model. The mesh and the lattice are inputs. Z-sortedness of each cell buffer is assumed, as an explicit precondition where it matters.
- The coverage invariant "every pair within `rpmax` and `pimax` is visited" is not stated. It depends on the unseen grid construction and on `nmesh >= 2*refine + 1`; `Neighbours.DegenerateWrapIsShort` shows what goes wrong on a one-cell axis.
- OpenMP is modelled as follows:
  - the dynamic schedule is an arbitrary split of the cells into per-thread lists;
  - thread ids, `omp_set_num_threads` and `matrix_calloc`/`matrix_free` are not modelled;
  - rows of threads that never ran stay zero, which is an empty cell list.
- AVX intrinsics are modelled as lane sequences of any length NVEC >= 1 with boolean masks; register width and alignment are not modelled.
- `DOUBLE` is exact `real`: no rounding, no NaN. `SQRT` and the `rpavg` sums (lines 186-194, 254-284, 302-310 and 340-357) are not modelled; only the final averaging is. In the vector build, lanes outside every bin add their distance into `rpavg[0]` (lines 256 and 280-284); `rpavg` is not modelled, so this is not stated.
- `uint64_t` counters are unbounded `nat`. The 32-bit `int` products of `index1`, `index2` and the mesh sizes are unbounded `int`. Overflow of either is not modelled.
- `free` of the lattice (lines 370-375) is not modelled: no memory model.
- Kernels.BreakScan: its own contract states only monotonicity and bin 0; the exact count is in `Kernels.BreakScanIsPrefixScan`.
- Wp.SetupOf: the mesh is an input rather than a result of the refinement factors, since the grid construction is not part of this model.
- Wp.CountPairsWp: its own contract states the length, bin 0 and monotonicity only. Its value is stated by `Wp.CountPairsIsSerial`, which reduces it to the serial count, and `Wp.BuildsAgreeWhenSorted`, which relates the builds.
- Driver.PointLoop, Driver.VisitLoop, Driver.CellStep, Driver.CellLoop: their own contracts state monotonicity and bin 0 only. What they count is stated relative to the reference by `Driver.CellLoopMatchesReference`, and for the reference per pair by `Pairs.FullScanIsHistogram`. No histogram over all pairs of the box is defined.
- Wp.SerialCounts: its own contract states the shape and bin 0 only. Its value is stated relative to the reference by `Driver.CellLoopMatchesReference`, and `Wp.CountPairsIsSerial` states how it becomes `npair`.
- Kernels.VectorScan, Lanes.MaskBinLoop: their own contracts state monotonicity and bin 0 only. The exact counts are in `Kernels.VectorScanMatchesFullScan` and `Lanes.MaskBinLoopCountsBands`.
- Reduction.ThreadCounts: its own contract states the shape and bin 0 only. What the rows add up to is in `Reduction.ReduceIsConcatenatedRun`.
