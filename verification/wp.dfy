/**
 `countpairs_wp` end to end: refinement factors and squared edges, then
 either the serial cell loop copied into `npair`, or the OpenMP threads
 reduced into `npair`. The mesh and the lattice of cell buffers come from
 the grid construction, which is not part of this model; the `break` on
 `dz >= pimax` is only exact when each buffer is sorted by z, and the
 agreement theorem below assumes it.
 */
module Wp {
  import opened Counters
  import opened Edges
  import opened CellIndex
  import opened Neighbours
  import opened Pairs
  import opened Driver
  import opened Reduction

  /** Compile-time choices: OpenMP with `numthreads`, and the scalar or the vector kernel. */
  datatype Build = Build(omp: bool, numthreads: int, kernel: Kernel)

  /** The shared state of the cell loop, as the top of the kernel sets it up. */
  function SetupOf(rupp: seq<real>, pimax: real, boxsize: real, build: Build, m: Mesh, lattice: seq<seq<Point>>): (s: Setup)
    requires |rupp| >= 1 && build.kernel.Valid() && m.Valid() && |lattice| == m.TotalCells()
    ensures s.Valid() && s.kernel == build.kernel && s.lattice == lattice
    ensures s.sq == SquaredEdges(rupp) && s.pimax == pimax && s.side == boxsize && s.m == m
    ensures s.f == ChooseRefine(rupp[|rupp| - 1], pimax, build.omp, build.numthreads)
  {
    var f := ChooseRefine(rupp[|rupp| - 1], pimax, build.omp, build.numthreads);
    ChosenFactorsInRange(rupp[|rupp| - 1], pimax, build.omp, build.numthreads, m.nx);
    ChosenFactorsInRange(rupp[|rupp| - 1], pimax, build.omp, build.numthreads, m.ny);
    Setup(build.kernel, SquaredEdges(rupp), pimax, m, boxsize, f, lattice)
  }

  /**
   Without OpenMP `npair` is overwritten with the single thread's counts;
   with OpenMP each thread's counts are added into `npair` as given.
   */
  function CountPairsWp(npair: Counts, rupp: seq<real>, pimax: real, boxsize: real, build: Build,
                        m: Mesh, lattice: seq<seq<Point>>, schedule: seq<seq<int>>): (r: Counts)
    requires |rupp| >= 1 && |npair| == |rupp|
    requires build.kernel.Valid() && m.Valid() && |lattice| == m.TotalCells()
    requires build.omp ==> |schedule| == build.numthreads
                           && IsSchedule(SetupOf(rupp, pimax, boxsize, build, m, lattice), schedule)
    ensures |r| == |rupp|
    ensures r[0] == if build.omp then npair[0] else 0
    ensures build.omp ==> AtMost(npair, r)
  {
    var s := SetupOf(rupp, pimax, boxsize, build, m, lattice);
    if build.omp then
      ColumnSumZero(ThreadCounts(s, schedule), 0);
      Reduce(npair, ThreadCounts(s, schedule))
    else
      CellRangeInMesh(s);
      CellLoop(Zeros(|rupp|), s, CellRange(m.TotalCells()))
  }

  /** What one thread counts over every cell, in index order, from zero. */
  function SerialCounts(s: Setup): (r: Counts)
    requires s.Valid()
    ensures |r| == |s.sq| && r[0] == 0
  {
    CellRangeInMesh(s);
    CellLoop(Zeros(|s.sq|), s, CellRange(s.m.TotalCells()))
  }

  /**
   The result is the serial count, added to the incoming `npair` under
   OpenMP, whichever way the dynamic schedule split the cells.
   */
  lemma CountPairsIsSerial(npair: Counts, rupp: seq<real>, pimax: real, boxsize: real, build: Build,
                           m: Mesh, lattice: seq<seq<Point>>, schedule: seq<seq<int>>)
    requires |rupp| >= 1 && |npair| == |rupp|
    requires build.kernel.Valid() && m.Valid() && |lattice| == m.TotalCells()
    requires build.omp ==> |schedule| == build.numthreads
                           && IsSchedule(SetupOf(rupp, pimax, boxsize, build, m, lattice), schedule)
    ensures var serial := SerialCounts(SetupOf(rupp, pimax, boxsize, build, m, lattice));
            CountPairsWp(npair, rupp, pimax, boxsize, build, m, lattice, schedule)
            == if build.omp then Add(npair, serial) else serial
  {
    if build.omp {
      ScheduleIrrelevant(npair, SetupOf(rupp, pimax, boxsize, build, m, lattice), schedule);
    }
  }

  /**
   With nonnegative increasing edges and every cell sorted by z, the scalar
   build, the vector build and the reference that visits every pair give
   the same counters.
   */
  lemma BuildsAgreeWhenSorted(npair: Counts, rupp: seq<real>, pimax: real, boxsize: real, omp: bool, numthreads: int,
                              nvec: nat, m: Mesh, lattice: seq<seq<Point>>, schedule: seq<seq<int>>)
    requires |rupp| >= 1 && |npair| == |rupp| && NonNegative(rupp) && StrictlyIncreasing(rupp) && nvec >= 1
    requires m.Valid() && |lattice| == m.TotalCells() && forall i :: 0 <= i < |lattice| ==> ZSorted(lattice[i])
    requires omp ==> |schedule| == numthreads
                     && IsSchedule(SetupOf(rupp, pimax, boxsize, Build(omp, numthreads, Reference), m, lattice), schedule)
    ensures var reference := CountPairsWp(npair, rupp, pimax, boxsize, Build(omp, numthreads, Reference), m, lattice, schedule);
            && CountPairsWp(npair, rupp, pimax, boxsize, Build(omp, numthreads, Scalar), m, lattice, schedule) == reference
            && CountPairsWp(npair, rupp, pimax, boxsize, Build(omp, numthreads, Vector(nvec)), m, lattice, schedule) == reference
  {
    var sr := SetupOf(rupp, pimax, boxsize, Build(omp, numthreads, Reference), m, lattice);
    var ss := SetupOf(rupp, pimax, boxsize, Build(omp, numthreads, Scalar), m, lattice);
    var sv := SetupOf(rupp, pimax, boxsize, Build(omp, numthreads, Vector(nvec)), m, lattice);
    assert ss == sr.WithKernel(Scalar) && sv == sr.WithKernel(Vector(nvec));
    assert ss.WithKernel(Reference) == sr && sv.WithKernel(Reference) == sr;
    assert IsSchedule(sr, schedule) <==> IsSchedule(ss, schedule);
    assert IsSchedule(sr, schedule) <==> IsSchedule(sv, schedule);
    SquaredEdgesIncreasing(rupp);
    CellRangeInMesh(sr);
    CellLoopMatchesReference(Zeros(|rupp|), ss, CellRange(m.TotalCells()));
    CellLoopMatchesReference(Zeros(|rupp|), sv, CellRange(m.TotalCells()));
    CountPairsIsSerial(npair, rupp, pimax, boxsize, Build(omp, numthreads, Reference), m, lattice, schedule);
    CountPairsIsSerial(npair, rupp, pimax, boxsize, Build(omp, numthreads, Scalar), m, lattice, schedule);
    CountPairsIsSerial(npair, rupp, pimax, boxsize, Build(omp, numthreads, Vector(nvec)), m, lattice, schedule);
  }
}
