/**
 The OpenMP reduction: each thread counts the cells the dynamic schedule
 hands it into its own zeroed `local_npair`, the rows are copied into
 `all_npairs`, and after the parallel region they are added into `npair`
 thread by thread. The schedule is arbitrary, so the result is stated for
 every split of the cells into per-thread lists.
 */
module Reduction {
  import opened Counters
  import opened Driver

  /** Sum of column `j` over the first rows. */
  function ColumnSum(rows: seq<Counts>, j: nat): nat
    requires forall t :: 0 <= t < |rows| ==> j < |rows[t]|
  {
    if |rows| == 0 then 0 else rows[0][j] + ColumnSum(rows[1..], j)
  }

  /** A column that is zero in every row sums to zero. */
  lemma {:induction false} ColumnSumZero(rows: seq<Counts>, j: nat)
    requires forall t :: 0 <= t < |rows| ==> j < |rows[t]| && rows[t][j] == 0
    ensures ColumnSum(rows, j) == 0
    decreases |rows|
  {
    if |rows| > 0 {
      ColumnSumZero(rows[1..], j);
    }
  }

  predicate RowsOfWidth(rows: seq<Counts>, n: nat) {
    forall t :: 0 <= t < |rows| ==> |rows[t]| == n
  }

  /** `npair[j] += all_npairs[i][j]` for every thread `i` in order, then every bin `j`. */
  function Reduce(npair: Counts, rows: seq<Counts>): (r: Counts)
    requires RowsOfWidth(rows, |npair|)
    ensures |r| == |npair|
    ensures forall j :: 0 <= j < |npair| ==> r[j] == npair[j] + ColumnSum(rows, j)
    decreases |rows|
  {
    if |rows| == 0 then npair
    else Reduce(Add(npair, rows[0]), rows[1..])
  }

  /** The cell lists of all threads, one after the other. */
  function Concat(lists: seq<seq<int>>): seq<int> {
    if |lists| == 0 then [] else lists[0] + Concat(lists[1..])
  }

  /**
   A dynamic schedule of the `index1` loop: every thread gets cells of the
   mesh, and together the threads get every cell exactly once.
   */
  predicate IsSchedule(s: Setup, schedule: seq<seq<int>>) {
    && s.Valid()
    && (forall t :: 0 <= t < |schedule| ==> CellsInMesh(s, schedule[t]))
    && multiset(Concat(schedule)) == multiset(CellRange(s.m.TotalCells()))
  }

  /** Thread `t`'s `local_npair`: zeroed, then its cells, in the order it got them. */
  function ThreadCounts(s: Setup, schedule: seq<seq<int>>): (rows: seq<Counts>)
    requires s.Valid() && forall t :: 0 <= t < |schedule| ==> CellsInMesh(s, schedule[t])
    ensures |rows| == |schedule| && RowsOfWidth(rows, |s.sq|)
    ensures forall t :: 0 <= t < |rows| ==> rows[t][0] == 0
  {
    seq(|schedule|, t requires 0 <= t < |schedule| => CellLoop(Zeros(|s.sq|), s, schedule[t]))
  }

  /** What a list of cells adds to any counters. */
  function Delta(s: Setup, cells: seq<int>): (d: Counts)
    requires s.Valid() && CellsInMesh(s, cells)
    ensures |d| == |s.sq|
  {
    CellLoop(Zeros(|s.sq|), s, cells)
  }

  lemma CellLoopIsDelta(c: Counts, s: Setup, cells: seq<int>)
    requires s.Valid() && |c| == |s.sq| && CellsInMesh(s, cells)
    ensures CellLoop(c, s, cells) == Add(c, Delta(s, cells))
  {
    CellLoopTranslates(Zeros(|s.sq|), c, s, cells);
    AddZerosLeft(c);
    AddCommutes(Delta(s, cells), c);
  }

  lemma DeltaConcat(s: Setup, a: seq<int>, b: seq<int>)
    requires s.Valid() && CellsInMesh(s, a) && CellsInMesh(s, b)
    ensures CellsInMesh(s, a + b)
    ensures Delta(s, a + b) == Add(Delta(s, a), Delta(s, b))
  {
    CellLoopConcat(Zeros(|s.sq|), s, a, b);
    CellLoopIsDelta(Delta(s, a), s, b);
  }

  /** Taking out one occurrence of `x` from both sides keeps two lists permutations of each other. */
  lemma RemoveOne(a: seq<int>, b1: seq<int>, x: int, b2: seq<int>)
    requires |a| >= 1 && a[0] == x && multiset(a) == multiset(b1 + [x] + b2)
    ensures multiset(a[1..]) == multiset(b1 + b2)
  {
    assert a == [x] + a[1..];
    assert multiset(a) == multiset{x} + multiset(a[1..]);
    assert b1 + [x] + b2 == b1 + ([x] + b2);
    assert multiset(b1 + [x] + b2) == multiset(b1) + multiset{x} + multiset(b2);
    assert multiset(b1 + b2) == multiset(b1) + multiset(b2);
    forall y
      ensures multiset(a[1..])[y] == multiset(b1 + b2)[y]
    {
      assert multiset(a)[y] == multiset{x}[y] + multiset(a[1..])[y];
    }
  }

  /** The pieces of a list of mesh cells around position `j` are lists of mesh cells. */
  lemma SplitInMesh(s: Setup, b: seq<int>, j: int)
    requires CellsInMesh(s, b) && 0 <= j < |b|
    ensures CellsInMesh(s, b[..j]) && CellsInMesh(s, [b[j]]) && CellsInMesh(s, b[j + 1..])
    ensures b == b[..j] + [b[j]] + b[j + 1..]
  {
  }

  /** Splitting off the first cell of a list. */
  lemma DeltaFront(s: Setup, a: seq<int>)
    requires s.Valid() && CellsInMesh(s, a) && |a| >= 1
    ensures CellsInMesh(s, [a[0]]) && CellsInMesh(s, a[1..])
    ensures Delta(s, a) == Add(Delta(s, [a[0]]), Delta(s, a[1..]))
  {
    SplitInMesh(s, a, 0);
    assert a == [a[0]] + a[1..];
    DeltaConcat(s, [a[0]], a[1..]);
  }

  /** Splitting off the cell at position `j` of a list. */
  lemma DeltaPick(s: Setup, b: seq<int>, j: int)
    requires s.Valid() && CellsInMesh(s, b) && 0 <= j < |b|
    ensures CellsInMesh(s, [b[j]]) && CellsInMesh(s, b[..j] + b[j + 1..])
    ensures Delta(s, b) == Add(Delta(s, [b[j]]), Delta(s, b[..j] + b[j + 1..]))
  {
    var b1, x, b2 := b[..j], b[j], b[j + 1..];
    SplitInMesh(s, b, j);
    DeltaConcat(s, b1, [x]);
    DeltaConcat(s, b1 + [x], b2);
    DeltaConcat(s, b1, b2);
    AddSwapFront(Delta(s, b1), Delta(s, [x]), Delta(s, b2));
  }

  /** The order in which cells are visited does not matter: only which cells, how often. */
  lemma {:induction false} DeltaPermutes(s: Setup, a: seq<int>, b: seq<int>)
    requires s.Valid() && CellsInMesh(s, a) && CellsInMesh(s, b)
    requires multiset(a) == multiset(b)
    ensures Delta(s, a) == Delta(s, b)
    decreases |a|
  {
    if |a| == 0 {
      assert |b| == |multiset(b)| == 0;
    } else {
      assert a[0] in multiset(b);
      var j :| 0 <= j < |b| && b[j] == a[0];
      assert b == b[..j] + [b[j]] + b[j + 1..];
      RemoveOne(a, b[..j], a[0], b[j + 1..]);
      DeltaFront(s, a);
      DeltaPick(s, b, j);
      DeltaPermutes(s, a[1..], b[..j] + b[j + 1..]);
    }
  }

  /** Reducing the thread rows into `npair` is running every thread's cells on `npair` in turn. */
  lemma {:induction false} ReduceIsConcatenatedRun(npair: Counts, s: Setup, schedule: seq<seq<int>>)
    requires s.Valid() && |npair| == |s.sq|
    requires forall t :: 0 <= t < |schedule| ==> CellsInMesh(s, schedule[t])
    ensures CellsInMesh(s, Concat(schedule))
    ensures Reduce(npair, ThreadCounts(s, schedule)) == CellLoop(npair, s, Concat(schedule))
    decreases |schedule|
  {
    if |schedule| > 0 {
      var rows := ThreadCounts(s, schedule);
      assert rows[1..] == ThreadCounts(s, schedule[1..]);
      ReduceIsConcatenatedRun(Add(npair, rows[0]), s, schedule[1..]);
      CellLoopIsDelta(npair, s, schedule[0]);
      CellLoopConcat(npair, s, schedule[0], Concat(schedule[1..]));
    }
  }

  /**
   Whatever the schedule, the reduced counters are `npair` plus what one
   thread counts over all cells in index order.
   */
  lemma ScheduleIrrelevant(npair: Counts, s: Setup, schedule: seq<seq<int>>)
    requires IsSchedule(s, schedule) && |npair| == |s.sq|
    ensures Reduce(npair, ThreadCounts(s, schedule))
         == Add(npair, CellLoop(Zeros(|s.sq|), s, CellRange(s.m.TotalCells())))
  {
    var all := CellRange(s.m.TotalCells());
    ReduceIsConcatenatedRun(npair, s, schedule);
    CellLoopIsDelta(npair, s, Concat(schedule));
    DeltaPermutes(s, Concat(schedule), all);
  }

  /**
   `rpavg[i] /= npair[i]` where `npair[i] > 0`: a bin with pairs holds the
   mean of its sum, a bin without pairs keeps its sum.
   */
  function Average(rpavg: seq<real>, npair: Counts): (r: seq<real>)
    requires |rpavg| == |npair|
    ensures |r| == |rpavg|
    ensures forall i :: 0 <= i < |r| && npair[i] > 0 ==> r[i] * (npair[i] as real) == rpavg[i]
    ensures forall i :: 0 <= i < |r| && npair[i] == 0 ==> r[i] == rpavg[i]
  {
    seq(|rpavg|, i requires 0 <= i < |rpavg| => if npair[i] > 0 then rpavg[i] / (npair[i] as real) else rpavg[i])
  }
}
