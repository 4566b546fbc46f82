/**
 The loops of `countpairs_wp` above the neighbour-cell kernel, for one
 thread: over the primary cells it is handed, over the neighbour visits of
 each, and over the points of the primary cell.
 */
module Driver {
  import opened Counters
  import opened Edges
  import opened CellIndex
  import opened Neighbours
  import opened Pairs
  import opened Kernels

  /**
   How the points of a neighbour cell are scanned: the scalar build, the
   vector build with NVEC lanes, or the reference that visits every pair
   (`continue` in place of `break`), against which both are compared.
   */
  datatype Kernel = Scalar | Vector(nvec: nat) | Reference {
    predicate Valid() {
      Vector? ==> nvec >= 1
    }
  }

  /**
   What every cell iteration shares: the kernel, the squared edges, `pimax`,
   the mesh and box size, the refinement factors, and the lattice of cells
   built by the grid construction, one point buffer per flat cell index.
   */
  datatype Setup = Setup(kernel: Kernel, sq: seq<real>, pimax: real, m: Mesh, side: real,
                         f: RefineFactors, lattice: seq<seq<Point>>) {
    predicate Valid() {
      && kernel.Valid()
      && |sq| >= 1
      && m.Valid()
      && |lattice| == m.TotalCells()
      && f.xy >= 0 && f.z >= 0
      && AxisInRange(m.nx, f.xy) && AxisInRange(m.ny, f.xy)
    }

    /** Every cell buffer is sorted by z. */
    predicate CellsSorted() {
      forall i :: 0 <= i < |lattice| ==> ZSorted(lattice[i])
    }

    function WithKernel(k: Kernel): Setup {
      Setup(k, sq, pimax, m, side, f, lattice)
    }
  }

  /** One primary point against one neighbour cell, with the chosen kernel. */
  function Scan(c: Counts, kernel: Kernel, sq: seq<real>, pimax: real, seps: seq<Sep>): (r: Counts)
    requires |c| == |sq| >= 1 && kernel.Valid()
    ensures |r| == |c| && r[0] == c[0] && AtMost(c, r)
  {
    match kernel
    case Scalar => BreakScan(c, OneSided, sq, pimax, seps)
    case Vector(nvec) => VectorScan(c, sq, pimax, seps, nvec)
    case Reference => FullScan(c, sq, pimax, seps)
  }

  /** The loop over the primary cell's points `k`, each shifted by the wrap offset. */
  function PointLoop(c: Counts, s: Setup, first: seq<Point>, off: Offset, second: seq<Point>): (r: Counts)
    requires s.Valid() && |c| == |s.sq|
    ensures |r| == |c| && r[0] == c[0] && AtMost(c, r)
    decreases |first|
  {
    if |first| == 0 then c
    else PointLoop(Scan(c, s.kernel, s.sq, s.pimax, Separations(first[0], off, second)), s, first[1..], off, second)
  }

  predicate VisitsInLattice(s: Setup, visits: seq<Visit>) {
    forall i :: 0 <= i < |visits| ==> 0 <= visits[i].index2 < |s.lattice|
  }

  /** The loops over `iix`, `iiy`, `iiz`: one point loop per neighbour visit. */
  function VisitLoop(c: Counts, s: Setup, first: seq<Point>, visits: seq<Visit>): (r: Counts)
    requires s.Valid() && |c| == |s.sq| && VisitsInLattice(s, visits)
    ensures |r| == |c| && r[0] == c[0] && AtMost(c, r)
    decreases |visits|
  {
    if |visits| == 0 then c
    else
      var v := visits[0];
      VisitLoop(PointLoop(c, s, first, v.off, s.lattice[v.index2]), s, first, visits[1..])
  }

  /** Every neighbour visit of a cell of the mesh lands in the lattice. */
  lemma NeighbourVisitsInLattice(s: Setup, index1: int)
    requires s.Valid() && 0 <= index1 < s.m.TotalCells()
    ensures VisitsInLattice(s, CellVisits(s.m, s.side, Decode(s.m, index1), s.f))
  {
    var visits := CellVisits(s.m, s.side, Decode(s.m, index1), s.f);
    NeighboursInRange(s.m, s.side, Decode(s.m, index1), s.f);
    assert forall i :: 0 <= i < |visits| ==> visits[i] in CellVisits(s.m, s.side, Decode(s.m, index1), s.f);
  }

  predicate CellsInMesh(s: Setup, cells: seq<int>) {
    forall i :: 0 <= i < |cells| ==> 0 <= cells[i] < s.m.TotalCells()
  }

  /**
   What one primary cell adds: its index is decoded, and every neighbour
   visit is scanned for every point of the cell.
   */
  function CellStep(c: Counts, s: Setup, index1: int): (r: Counts)
    requires s.Valid() && |c| == |s.sq| && 0 <= index1 < s.m.TotalCells()
    ensures |r| == |c| && r[0] == c[0] && AtMost(c, r)
  {
    NeighbourVisitsInLattice(s, index1);
    VisitLoop(c, s, s.lattice[index1], CellVisits(s.m, s.side, Decode(s.m, index1), s.f))
  }

  /** The `index1` loop over the cells handed to one thread, in the order handed. */
  function CellLoop(c: Counts, s: Setup, cells: seq<int>): (r: Counts)
    requires s.Valid() && |c| == |s.sq| && CellsInMesh(s, cells)
    ensures |r| == |c| && r[0] == c[0] && AtMost(c, r)
    decreases |cells|
  {
    if |cells| == 0 then c
    else CellLoop(CellStep(c, s, cells[0]), s, cells[1..])
  }

  /** `0, 1, ..., n-1`: the whole iteration space of the `index1` loop. */
  function CellRange(n: nat): (r: seq<int>)
    ensures |r| == n && forall i :: 0 <= i < n ==> r[i] == i
  {
    seq(n, i => i)
  }

  lemma CellRangeInMesh(s: Setup)
    requires s.Valid()
    ensures CellsInMesh(s, CellRange(s.m.TotalCells()))
  {
  }

  // Translation: every loop only adds to the counters it is given.

  lemma ScanTranslates(c: Counts, d: Counts, kernel: Kernel, sq: seq<real>, pimax: real, seps: seq<Sep>)
    requires |c| == |d| == |sq| >= 1 && kernel.Valid()
    ensures Scan(Add(c, d), kernel, sq, pimax, seps) == Add(Scan(c, kernel, sq, pimax, seps), d)
  {
    match kernel
    case Scalar => BreakScanTranslates(c, d, OneSided, sq, pimax, seps);
    case Vector(nvec) => VectorScanTranslates(c, d, sq, pimax, seps, nvec);
    case Reference => FullScanTranslates(c, d, sq, pimax, seps);
  }

  lemma {:induction false} PointLoopTranslates(c: Counts, d: Counts, s: Setup, first: seq<Point>, off: Offset, second: seq<Point>)
    requires s.Valid() && |c| == |d| == |s.sq|
    ensures PointLoop(Add(c, d), s, first, off, second) == Add(PointLoop(c, s, first, off, second), d)
    decreases |first|
  {
    if |first| > 0 {
      var seps := Separations(first[0], off, second);
      ScanTranslates(c, d, s.kernel, s.sq, s.pimax, seps);
      PointLoopTranslates(Scan(c, s.kernel, s.sq, s.pimax, seps), d, s, first[1..], off, second);
    }
  }

  lemma {:induction false} VisitLoopTranslates(c: Counts, d: Counts, s: Setup, first: seq<Point>, visits: seq<Visit>)
    requires s.Valid() && |c| == |d| == |s.sq| && VisitsInLattice(s, visits)
    ensures VisitLoop(Add(c, d), s, first, visits) == Add(VisitLoop(c, s, first, visits), d)
    decreases |visits|
  {
    if |visits| > 0 {
      var v := visits[0];
      PointLoopTranslates(c, d, s, first, v.off, s.lattice[v.index2]);
      VisitLoopTranslates(PointLoop(c, s, first, v.off, s.lattice[v.index2]), d, s, first, visits[1..]);
    }
  }

  lemma CellStepTranslates(c: Counts, d: Counts, s: Setup, index1: int)
    requires s.Valid() && |c| == |d| == |s.sq| && 0 <= index1 < s.m.TotalCells()
    ensures CellStep(Add(c, d), s, index1) == Add(CellStep(c, s, index1), d)
  {
    NeighbourVisitsInLattice(s, index1);
    VisitLoopTranslates(c, d, s, s.lattice[index1], CellVisits(s.m, s.side, Decode(s.m, index1), s.f));
  }

  lemma {:induction false} CellLoopTranslates(c: Counts, d: Counts, s: Setup, cells: seq<int>)
    requires s.Valid() && |c| == |d| == |s.sq| && CellsInMesh(s, cells)
    ensures CellLoop(Add(c, d), s, cells) == Add(CellLoop(c, s, cells), d)
    decreases |cells|
  {
    if |cells| > 0 {
      CellStepTranslates(c, d, s, cells[0]);
      CellLoopTranslates(CellStep(c, s, cells[0]), d, s, cells[1..]);
    }
  }

  lemma {:induction false} CellLoopConcat(c: Counts, s: Setup, a: seq<int>, b: seq<int>)
    requires s.Valid() && |c| == |s.sq| && CellsInMesh(s, a) && CellsInMesh(s, b)
    ensures CellsInMesh(s, a + b)
    ensures CellLoop(c, s, a + b) == CellLoop(CellLoop(c, s, a), s, b)
    decreases |a|
  {
    if |a| == 0 {
      assert a + b == b;
    } else {
      assert (a + b)[1..] == a[1..] + b;
      CellLoopConcat(CellStep(c, s, a[0]), s, a[1..], b);
    }
  }

  // Agreement of the kernels on z-sorted cells.

  lemma ScanMatchesReference(c: Counts, kernel: Kernel, sq: seq<real>, pimax: real, p: Point, off: Offset, second: seq<Point>)
    requires |c| == |sq| >= 1 && kernel.Valid() && StrictlyIncreasing(sq) && ZSorted(second)
    ensures Scan(c, kernel, sq, pimax, Separations(p, off, second)) == FullScan(c, sq, pimax, Separations(p, off, second))
  {
    var seps := Separations(p, off, second);
    ZSortedGivesDzSorted(p, off, second);
    match kernel
    case Scalar => BreakScanMatchesFullScan(c, OneSided, sq, pimax, seps);
    case Vector(nvec) => VectorScanMatchesFullScan(c, sq, pimax, seps, nvec);
    case Reference =>
  }

  lemma {:induction false} PointLoopMatchesReference(c: Counts, s: Setup, first: seq<Point>, off: Offset, second: seq<Point>)
    requires s.Valid() && |c| == |s.sq| && StrictlyIncreasing(s.sq) && ZSorted(second)
    ensures PointLoop(c, s, first, off, second) == PointLoop(c, s.WithKernel(Reference), first, off, second)
    decreases |first|
  {
    if |first| > 0 {
      ScanMatchesReference(c, s.kernel, s.sq, s.pimax, first[0], off, second);
      var c' := Scan(c, s.kernel, s.sq, s.pimax, Separations(first[0], off, second));
      PointLoopMatchesReference(c', s, first[1..], off, second);
    }
  }

  lemma {:induction false} VisitLoopMatchesReference(c: Counts, s: Setup, first: seq<Point>, visits: seq<Visit>)
    requires s.Valid() && |c| == |s.sq| && StrictlyIncreasing(s.sq) && s.CellsSorted()
    requires VisitsInLattice(s, visits)
    ensures VisitLoop(c, s, first, visits) == VisitLoop(c, s.WithKernel(Reference), first, visits)
    decreases |visits|
  {
    if |visits| > 0 {
      var v := visits[0];
      PointLoopMatchesReference(c, s, first, v.off, s.lattice[v.index2]);
      VisitLoopMatchesReference(PointLoop(c, s, first, v.off, s.lattice[v.index2]), s, first, visits[1..]);
    }
  }

  /**
   With every cell sorted by z and increasing edges, the scalar and the
   vector builds count, over any list of primary cells, exactly what the
   reference that visits every pair counts.
   */
  lemma {:induction false} CellLoopMatchesReference(c: Counts, s: Setup, cells: seq<int>)
    requires s.Valid() && |c| == |s.sq| && StrictlyIncreasing(s.sq) && s.CellsSorted()
    requires CellsInMesh(s, cells)
    ensures CellLoop(c, s, cells) == CellLoop(c, s.WithKernel(Reference), cells)
    decreases |cells|
  {
    if |cells| > 0 {
      var index1 := cells[0];
      NeighbourVisitsInLattice(s, index1);
      VisitLoopMatchesReference(c, s, s.lattice[index1], CellVisits(s.m, s.side, Decode(s.m, index1), s.f));
      CellLoopMatchesReference(CellStep(c, s, index1), s, cells[1..]);
    }
  }

  /** Consequently the two builds agree with each other. */
  lemma ScalarAndVectorBuildsAgree(c: Counts, s: Setup, nvec: nat, cells: seq<int>)
    requires s.Valid() && |c| == |s.sq| && StrictlyIncreasing(s.sq) && s.CellsSorted()
    requires nvec >= 1 && CellsInMesh(s, cells)
    ensures CellLoop(c, s.WithKernel(Scalar), cells) == CellLoop(c, s.WithKernel(Vector(nvec)), cells)
  {
    CellLoopMatchesReference(c, s.WithKernel(Scalar), cells);
    CellLoopMatchesReference(c, s.WithKernel(Vector(nvec)), cells);
    assert s.WithKernel(Scalar).WithKernel(Reference) == s.WithKernel(Vector(nvec)).WithKernel(Reference);
  }
}
