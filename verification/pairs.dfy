/**
 One pair of points: its separations, the acceptance filter, the per-pair
 verdict of the scalar and of the tail loop, and the reference count of a
 neighbour cell that scans every point (`continue` in place of `break`).
 */
module Pairs {
  import opened Counters
  import opened Edges
  import opened Neighbours

  datatype Point = Point(x: real, y: real, z: real)

  /** Line-of-sight separation `dz` and squared projected separation `r2` of one pair. */
  datatype Sep = Sep(dz: real, r2: real)

  lemma SquareNonNegative(a: real)
    ensures a * a >= 0.0
  {
    if a < 0.0 {
      assert a * a == (-a) * (-a);
      PositiveProduct(-a, -a);
    } else if a > 0.0 {
      PositiveProduct(a, a);
    }
  }

  /**
   Separation of neighbour point `q` from primary point `p`, with the wrap
   offset added to the primary point: `dz = z2 - (z + off_z)` and
   `r2 = dx*dx + dy*dy`.
   */
  function Separation(p: Point, off: Offset, q: Point): (s: Sep)
    ensures s.r2 >= 0.0
    ensures s.dz == q.z - p.z - off.z
  {
    var dx := q.x - (p.x + off.x);
    var dy := q.y - (p.y + off.y);
    SquareNonNegative(dx);
    SquareNonNegative(dy);
    Sep(q.z - (p.z + off.z), dx * dx + dy * dy)
  }

  /** Separations of one primary point from every point of a neighbour cell, in cell order. */
  function Separations(p: Point, off: Offset, cell: seq<Point>): (seps: seq<Sep>)
    ensures |seps| == |cell|
    ensures forall i :: 0 <= i < |cell| ==> seps[i] == Separation(p, off, cell[i])
  {
    seq(|cell|, i requires 0 <= i < |cell| => Separation(p, off, cell[i]))
  }

  /** A cell buffer sorted by z, ascending. */
  predicate ZSorted(cell: seq<Point>) {
    forall i, j :: 0 <= i < j < |cell| ==> cell[i].z <= cell[j].z
  }

  predicate DzSorted(seps: seq<Sep>) {
    forall i, j :: 0 <= i < j < |seps| ==> seps[i].dz <= seps[j].dz
  }

  lemma ZSortedGivesDzSorted(p: Point, off: Offset, cell: seq<Point>)
    requires ZSorted(cell)
    ensures DzSorted(Separations(p, off, cell))
  {
  }

  /** The pair filter: `0 <= dz < pimax` and `rupp[0]^2 <= r2 < rupp[nbin-1]^2`. */
  predicate Accepted(sq: seq<real>, pimax: real, s: Sep)
    requires |sq| >= 1
  {
    0.0 <= s.dz < pimax && sq[0] <= s.r2 < sq[|sq| - 1]
  }

  /** What one iteration of a neighbour loop does with a pair. */
  datatype Verdict =
    | Reject        // `continue`: the pair is skipped
    | Stop          // `break`: `dz >= pimax` ends the loop over the neighbour cell
    | Hit(kbin: nat) // bin `kbin` is incremented

  /** The scalar path: `dz` tests, the `[rpmin^2, rpmax^2)` window, then the one-sided scan. */
  function ScalarVerdict(sq: seq<real>, pimax: real, s: Sep): (v: Verdict)
    requires |sq| >= 1
    ensures v.Stop? <==> 0.0 <= s.dz && pimax <= s.dz
    ensures v.Hit? <==> Accepted(sq, pimax, s)
    ensures v.Hit? ==> InBin(sq, s.r2, v.kbin)
  {
    if s.dz < 0.0 then Reject
    else if s.dz >= pimax then Stop
    else if s.r2 >= sq[|sq| - 1] || s.r2 < sq[0] then Reject
    else
      OneSidedMatchesTwoSided(sq, s.r2);
      match ScanDown(sq, s.r2, |sq| - 1)
      case Found(k) => Hit(k)
      case NotFound => Reject
  }

  /** The tail loop after the vector groups: the same tests, then the two-sided scan. */
  function TailVerdict(sq: seq<real>, pimax: real, s: Sep): (v: Verdict)
    requires |sq| >= 1
    ensures v.Stop? <==> 0.0 <= s.dz && pimax <= s.dz
    ensures v.Hit? <==> Accepted(sq, pimax, s)
    ensures v.Hit? ==> InBin(sq, s.r2, v.kbin)
  {
    if s.dz < 0.0 then Reject
    else if s.dz >= pimax then Stop
    else if s.r2 < sq[|sq| - 1] && s.r2 >= sq[0] then
      OneSidedMatchesTwoSided(sq, s.r2);
      match TailScanDown(sq, s.r2, |sq| - 1)
      case Found(k) => Hit(k)
      case NotFound => Reject
    else Reject
  }

  /** The two scans give the same verdict on every pair, whatever the edges. */
  lemma TailVerdictMatchesScalar(sq: seq<real>, pimax: real, s: Sep)
    requires |sq| >= 1
    ensures TailVerdict(sq, pimax, s) == ScalarVerdict(sq, pimax, s)
  {
    if 0.0 <= s.dz < pimax && sq[0] <= s.r2 < sq[|sq| - 1] {
      OneSidedMatchesTwoSided(sq, s.r2);
    }
  }

  /** Applies a verdict to the counters. */
  function Record(c: Counts, v: Verdict): (r: Counts)
    requires v.Hit? ==> v.kbin < |c|
  {
    if v.Hit? then Bump(c, v.kbin, 1) else c
  }

  /** A hit adds one to the total and changes the counters; anything else leaves them as they are. */
  lemma RecordChanges(c: Counts, v: Verdict)
    requires v.Hit? ==> v.kbin < |c|
    ensures Total(Record(c, v)) == Total(c) + (if v.Hit? then 1 else 0)
    ensures Record(c, v) != c <==> v.Hit?
  {
    if v.Hit? {
      TotalBump(c, v.kbin, 1);
      assert Bump(c, v.kbin, 1)[v.kbin] != c[v.kbin];
    }
  }

  /**
   One iteration of the scalar neighbour loop with `continue` in place of
   `break`: some bin is incremented exactly when the pair is accepted, that
   bin holds `r2`, bin 0 never moves and the total grows by one.
   */
  function PairStep(c: Counts, sq: seq<real>, pimax: real, s: Sep): (r: Counts)
    requires |c| == |sq| >= 1
    ensures |r| == |c| && r[0] == c[0]
    ensures r != c <==> Accepted(sq, pimax, s)
    ensures Total(r) == Total(c) + (if Accepted(sq, pimax, s) then 1 else 0)
    ensures Accepted(sq, pimax, s) ==> exists k :: InBin(sq, s.r2, k) && r == Bump(c, k, 1)
  {
    var v := ScalarVerdict(sq, pimax, s);
    RecordChanges(c, v);
    Record(c, v)
  }

  /** With increasing edges the accepted pair lands in the one bin holding `r2`, and nowhere else. */
  lemma PairStepBins(c: Counts, sq: seq<real>, pimax: real, s: Sep)
    requires |c| == |sq| >= 1 && StrictlyIncreasing(sq)
    ensures forall k :: 0 <= k < |c| ==>
              PairStep(c, sq, pimax, s)[k] == c[k] + (if Accepted(sq, pimax, s) && InBin(sq, s.r2, k) then 1 else 0)
  {
    var r := PairStep(c, sq, pimax, s);
    if Accepted(sq, pimax, s) {
      var k :| InBin(sq, s.r2, k) && r == Bump(c, k, 1);
      forall j | InBin(sq, s.r2, j)
        ensures j == k
      {
        InBinUnique(sq, s.r2, j, k);
      }
    }
  }

  /** Number of accepted pairs. */
  function AcceptedCount(sq: seq<real>, pimax: real, seps: seq<Sep>): nat
    requires |sq| >= 1
  {
    if |seps| == 0 then 0
    else (if Accepted(sq, pimax, seps[0]) then 1 else 0) + AcceptedCount(sq, pimax, seps[1..])
  }

  /** Number of accepted pairs whose `r2` lies in bin `k`. */
  function CountInBin(sq: seq<real>, pimax: real, seps: seq<Sep>, k: int): nat
    requires |sq| >= 1
  {
    if |seps| == 0 then 0
    else (if Accepted(sq, pimax, seps[0]) && InBin(sq, seps[0].r2, k) then 1 else 0)
         + CountInBin(sq, pimax, seps[1..], k)
  }

  /** The reference histogram: per bin, the accepted pairs that fall in it. */
  function Histogram(sq: seq<real>, pimax: real, seps: seq<Sep>): Counts
    requires |sq| >= 1
  {
    seq(|sq|, k => CountInBin(sq, pimax, seps, k))
  }

  /**
   The neighbour loop scanning every point (`continue` in place of `break`):
   bin 0 never moves, no bin decreases, and the total grows by exactly the
   number of accepted pairs.
   */
  function FullScan(c: Counts, sq: seq<real>, pimax: real, seps: seq<Sep>): (r: Counts)
    requires |c| == |sq| >= 1
    ensures |r| == |c| && r[0] == c[0]
    ensures AtMost(c, r)
    ensures Total(r) == Total(c) + AcceptedCount(sq, pimax, seps)
    decreases |seps|
  {
    if |seps| == 0 then c
    else FullScan(PairStep(c, sq, pimax, seps[0]), sq, pimax, seps[1..])
  }

  /** With increasing edges, scanning every point adds exactly the reference histogram. */
  lemma {:induction false} FullScanIsHistogram(c: Counts, sq: seq<real>, pimax: real, seps: seq<Sep>)
    requires |c| == |sq| >= 1 && StrictlyIncreasing(sq)
    ensures FullScan(c, sq, pimax, seps) == Add(c, Histogram(sq, pimax, seps))
    decreases |seps|
  {
    if |seps| == 0 {
      assert Histogram(sq, pimax, seps) == Zeros(|c|);
      AddZerosRight(c);
    } else {
      var c' := PairStep(c, sq, pimax, seps[0]);
      PairStepBins(c, sq, pimax, seps[0]);
      FullScanIsHistogram(c', sq, pimax, seps[1..]);
      var h, h' := Histogram(sq, pimax, seps), Histogram(sq, pimax, seps[1..]);
      assert forall k :: 0 <= k < |c| ==> c'[k] + h'[k] == c[k] + h[k];
    }
  }

  lemma {:induction false} FullScanConcat(c: Counts, sq: seq<real>, pimax: real, a: seq<Sep>, b: seq<Sep>)
    requires |c| == |sq| >= 1
    ensures FullScan(c, sq, pimax, a + b) == FullScan(FullScan(c, sq, pimax, a), sq, pimax, b)
    decreases |a|
  {
    if |a| == 0 {
      assert a + b == b;
    } else {
      assert (a + b)[1..] == a[1..] + b;
      FullScanConcat(PairStep(c, sq, pimax, a[0]), sq, pimax, a[1..], b);
    }
  }

  /** Pairs that are all beyond `pimax` change nothing. */
  lemma {:induction false} FullScanBeyondPimax(c: Counts, sq: seq<real>, pimax: real, seps: seq<Sep>)
    requires |c| == |sq| >= 1
    requires forall i :: 0 <= i < |seps| ==> seps[i].dz >= pimax
    ensures FullScan(c, sq, pimax, seps) == c
    ensures Histogram(sq, pimax, seps) == Zeros(|sq|)
    decreases |seps|
  {
    if |seps| > 0 {
      FullScanBeyondPimax(c, sq, pimax, seps[1..]);
      assert Histogram(sq, pimax, seps) == Histogram(sq, pimax, seps[1..]);
    }
  }

  /** Counting commutes with adding a fixed accumulator: the scan only adds to its input. */
  lemma {:induction false} FullScanTranslates(c: Counts, d: Counts, sq: seq<real>, pimax: real, seps: seq<Sep>)
    requires |c| == |d| == |sq| >= 1
    ensures FullScan(Add(c, d), sq, pimax, seps) == Add(FullScan(c, sq, pimax, seps), d)
    decreases |seps|
  {
    if |seps| > 0 {
      PairStepTranslates(c, d, sq, pimax, seps[0]);
      FullScanTranslates(PairStep(c, sq, pimax, seps[0]), d, sq, pimax, seps[1..]);
    }
  }

  lemma PairStepTranslates(c: Counts, d: Counts, sq: seq<real>, pimax: real, s: Sep)
    requires |c| == |d| == |sq| >= 1
    ensures PairStep(Add(c, d), sq, pimax, s) == Add(PairStep(c, sq, pimax, s), d)
  {
    var v := ScalarVerdict(sq, pimax, s);
    if v.Hit? {
      BumpAdd(c, d, v.kbin, 1);
    }
  }

  /**
   With `rupp[0] == 0` a point compared with itself (the same cell, zero
   offset) has `dz = 0` and `r2 = 0` and is counted in bin 1.
   */
  lemma SelfPairIsCounted(p: Point, sq: seq<real>, pimax: real)
    requires |sq| >= 2 && StrictlyIncreasing(sq) && sq[0] == 0.0 && pimax > 0.0
    ensures ScalarVerdict(sq, pimax, Separation(p, Offset(0.0, 0.0, 0.0), p)) == Hit(1)
  {
    var s := Separation(p, Offset(0.0, 0.0, 0.0), p);
    assert s == Sep(0.0, 0.0);
    assert sq[0] < sq[|sq| - 1];
    ScanDownFindsTheBin(sq, 0.0);
    assert InBin(sq, 0.0, 1);
  }

  /**
   Two points with equal z, unshifted, pass the `dz < 0` test in both orders:
   each order is counted, in the same bin.
   */
  lemma EqualZPairCountedTwice(p: Point, q: Point, sq: seq<real>, pimax: real)
    requires |sq| >= 1 && p.z == q.z
    requires Accepted(sq, pimax, Separation(p, Offset(0.0, 0.0, 0.0), q))
    ensures ScalarVerdict(sq, pimax, Separation(p, Offset(0.0, 0.0, 0.0), q)).Hit?
    ensures ScalarVerdict(sq, pimax, Separation(q, Offset(0.0, 0.0, 0.0), p))
         == ScalarVerdict(sq, pimax, Separation(p, Offset(0.0, 0.0, 0.0), q))
  {
    var zero := Offset(0.0, 0.0, 0.0);
    assert (q.x - p.x) * (q.x - p.x) == (p.x - q.x) * (p.x - q.x);
    assert (q.y - p.y) * (q.y - p.y) == (p.y - q.y) * (p.y - q.y);
    assert Separation(q, zero, p) == Separation(p, zero, q);
  }

  /** With the edges `[0, 4, 2, 5]` the downward scan puts `r2 = 3` in bin 3 and `r2 = 1` in bin 1. */
  lemma FullScanUnorderedEdges()
    ensures FullScan(Zeros(4), [0.0, 4.0, 2.0, 5.0], 1.0, [Sep(0.0, 3.0), Sep(0.0, 1.0)]) == [0, 1, 0, 1]
  {
    var sq, seps := [0.0, 4.0, 2.0, 5.0], [Sep(0.0, 3.0), Sep(0.0, 1.0)];
    assert ScanDown(sq, 3.0, 3) == Found(3);
    assert ScanDown(sq, 1.0, 3) == Found(1);
    assert Zeros(4) == [0, 0, 0, 0];
    assert PairStep([0, 0, 0, 0], sq, 1.0, seps[0]) == [0, 0, 0, 1];
    assert PairStep([0, 0, 0, 1], sq, 1.0, seps[1]) == [0, 1, 0, 1];
    assert seps[1..][1..] == [];
  }
}
