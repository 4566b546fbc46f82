/**
 The loop over the points of one neighbour cell, for one primary point: the
 scalar loop (one-sided bin scan, `break` on `dz >= pimax`), and the vector
 loop (lane groups of NVEC points, then a tail loop with the two-sided bin
 scan). Both are compared with the reference scan that visits every point.
 */
module Kernels {
  import opened Counters
  import opened Edges
  import opened Pairs
  import opened Lanes

  /** Which bin scan the loop uses: the scalar path's, or the vector tail loop's. */
  datatype BinScan = OneSided | TwoSided

  function VerdictOf(kind: BinScan, sq: seq<real>, pimax: real, s: Sep): (v: Verdict)
    requires |sq| >= 1
    ensures v.Hit? ==> InBin(sq, s.r2, v.kbin)
  {
    match kind
    case OneSided => ScalarVerdict(sq, pimax, s)
    case TwoSided => TailVerdict(sq, pimax, s)
  }

  /**
   A neighbour loop that ends at the first pair with `0 <= dz` and
   `pimax <= dz`: no bin decreases and bin 0 never moves.
   */
  function BreakScan(c: Counts, kind: BinScan, sq: seq<real>, pimax: real, seps: seq<Sep>): (r: Counts)
    requires |c| == |sq| >= 1
    ensures |r| == |c| && r[0] == c[0]
    ensures AtMost(c, r)
    decreases |seps|
  {
    if |seps| == 0 then c
    else
      var v := VerdictOf(kind, sq, pimax, seps[0]);
      if v.Stop? then c
      else BreakScan(Record(c, v), kind, sq, pimax, seps[1..])
  }

  /** Pair that ends the loop with `break`. */
  predicate Stops(pimax: real, s: Sep) {
    0.0 <= s.dz && pimax <= s.dz
  }

  /** Position of the first pair that ends the loop, or the length when none does. */
  function FirstStop(pimax: real, seps: seq<Sep>): (j: nat)
    ensures j <= |seps|
    ensures j < |seps| ==> Stops(pimax, seps[j])
    ensures forall i :: 0 <= i < j ==> !Stops(pimax, seps[i])
  {
    if |seps| == 0 then 0
    else if Stops(pimax, seps[0]) then 0
    else 1 + FirstStop(pimax, seps[1..])
  }

  /**
   The loop with `break` counts exactly the pairs before the first stopping
   pair, as the reference scan does on that prefix; the bin scan used does
   not matter.
   */
  lemma {:induction false} BreakScanIsPrefixScan(c: Counts, kind: BinScan, sq: seq<real>, pimax: real, seps: seq<Sep>)
    requires |c| == |sq| >= 1
    ensures BreakScan(c, kind, sq, pimax, seps) == FullScan(c, sq, pimax, seps[..FirstStop(pimax, seps)])
    decreases |seps|
  {
    var j := FirstStop(pimax, seps);
    if |seps| == 0 {
      assert seps[..j] == [];
    } else {
      TailVerdictMatchesScalar(sq, pimax, seps[0]);
      var v := VerdictOf(kind, sq, pimax, seps[0]);
      if v.Stop? {
        assert seps[..j] == [];
      } else {
        var c' := Record(c, v);
        assert c' == PairStep(c, sq, pimax, seps[0]);
        BreakScanIsPrefixScan(c', kind, sq, pimax, seps[1..]);
        assert seps[..j][0] == seps[0];
        assert seps[..j][1..] == seps[1..][..FirstStop(pimax, seps[1..])];
      }
    }
  }

  /** The scalar loop and the vector tail loop count the same pairs, whatever the edges. */
  lemma BreakScanKindIrrelevant(c: Counts, sq: seq<real>, pimax: real, seps: seq<Sep>)
    requires |c| == |sq| >= 1
    ensures BreakScan(c, OneSided, sq, pimax, seps) == BreakScan(c, TwoSided, sq, pimax, seps)
  {
    BreakScanIsPrefixScan(c, OneSided, sq, pimax, seps);
    BreakScanIsPrefixScan(c, TwoSided, sq, pimax, seps);
  }

  lemma FullScanMonotone(c: Counts, sq: seq<real>, pimax: real, a: seq<Sep>, b: seq<Sep>)
    requires |c| == |sq| >= 1
    ensures AtMost(FullScan(c, sq, pimax, a), FullScan(c, sq, pimax, a + b))
  {
    FullScanConcat(c, sq, pimax, a, b);
  }

  /** The loop with `break` never counts more, in any bin, than the reference scan. */
  lemma BreakScanNeverOvercounts(c: Counts, kind: BinScan, sq: seq<real>, pimax: real, seps: seq<Sep>)
    requires |c| == |sq| >= 1
    ensures AtMost(BreakScan(c, kind, sq, pimax, seps), FullScan(c, sq, pimax, seps))
  {
    var j := FirstStop(pimax, seps);
    BreakScanIsPrefixScan(c, kind, sq, pimax, seps);
    assert seps == seps[..j] + seps[j..];
    FullScanMonotone(c, sq, pimax, seps[..j], seps[j..]);
  }

  /**
   With the neighbour cell sorted by z, everything after the first stopping
   pair is beyond `pimax` as well, so `break` loses nothing.
   */
  lemma BreakScanMatchesFullScan(c: Counts, kind: BinScan, sq: seq<real>, pimax: real, seps: seq<Sep>)
    requires |c| == |sq| >= 1 && DzSorted(seps)
    ensures BreakScan(c, kind, sq, pimax, seps) == FullScan(c, sq, pimax, seps)
  {
    var j := FirstStop(pimax, seps);
    BreakScanIsPrefixScan(c, kind, sq, pimax, seps);
    assert seps == seps[..j] + seps[j..];
    FullScanConcat(c, sq, pimax, seps[..j], seps[j..]);
    if j < |seps| {
      var rest := seps[j..];
      assert forall i :: 0 <= i < |rest| ==> rest[i] == seps[j + i];
      FullScanBeyondPimax(FullScan(c, sq, pimax, seps[..j]), sq, pimax, rest);
    } else {
      assert seps[j..] == [];
    }
  }

  /**
   Without the z order, `break` undercounts: a pair beyond `pimax` ahead of
   an accepted pair hides it from the scalar loop.
   */
  lemma BreakScanUndercountsUnsorted()
    ensures var sq, seps := [0.0, 1.0], [Sep(2.0, 0.5), Sep(0.0, 0.5)];
            BreakScan(Zeros(2), OneSided, sq, 1.0, seps) == [0, 0]
            && FullScan(Zeros(2), sq, 1.0, seps) == [0, 1]
  {
    var sq, seps := [0.0, 1.0], [Sep(2.0, 0.5), Sep(0.0, 0.5)];
    assert InBin(sq, 0.5, 1);
    assert ScalarVerdict(sq, 1.0, seps[1]) == Hit(1);
    assert seps[1..][1..] == [];
  }

  /**
   The vector loop: while at least NVEC points remain, one lane group; a
   group with no lane under `pimax` ends the loop and skips the tail; the
   remaining points go through the tail loop with the two-sided scan.
   */
  function VectorScan(c: Counts, sq: seq<real>, pimax: real, seps: seq<Sep>, nvec: nat): (r: Counts)
    requires |c| == |sq| >= 1 && nvec >= 1
    ensures |r| == |c| && r[0] == c[0] && AtMost(c, r)
    decreases |seps|
  {
    if |seps| >= nvec then
      var g := LaneGroup(c, sq, pimax, seps[..nvec]);
      if g.stop then c
      else VectorScan(g.counts, sq, pimax, seps[nvec..], nvec)
    else BreakScan(c, TwoSided, sq, pimax, seps)
  }

  /** With increasing edges the vector loop never counts more, in any bin, than the reference scan. */
  lemma {:induction false} VectorScanNeverOvercounts(c: Counts, sq: seq<real>, pimax: real, seps: seq<Sep>, nvec: nat)
    requires |c| == |sq| >= 1 && nvec >= 1 && StrictlyIncreasing(sq)
    ensures AtMost(VectorScan(c, sq, pimax, seps, nvec), FullScan(c, sq, pimax, seps))
    decreases |seps|
  {
    if |seps| >= nvec {
      var g := LaneGroup(c, sq, pimax, seps[..nvec]);
      assert seps == seps[..nvec] + seps[nvec..];
      FullScanConcat(c, sq, pimax, seps[..nvec], seps[nvec..]);
      LaneGroupMatchesScalar(c, sq, pimax, seps[..nvec]);
      if g.stop {
        FullScanMonotone(c, sq, pimax, seps[..nvec], seps[nvec..]);
      } else {
        VectorScanNeverOvercounts(g.counts, sq, pimax, seps[nvec..], nvec);
      }
    } else {
      BreakScanNeverOvercounts(c, TwoSided, sq, pimax, seps);
    }
  }

  /**
   With the neighbour cell sorted by z and increasing edges, the vector loop
   counts exactly what the reference scan counts.
   */
  lemma {:induction false} VectorScanMatchesFullScan(c: Counts, sq: seq<real>, pimax: real, seps: seq<Sep>, nvec: nat)
    requires |c| == |sq| >= 1 && nvec >= 1 && StrictlyIncreasing(sq) && DzSorted(seps)
    ensures VectorScan(c, sq, pimax, seps, nvec) == FullScan(c, sq, pimax, seps)
    decreases |seps|
  {
    if |seps| >= nvec {
      var g := LaneGroup(c, sq, pimax, seps[..nvec]);
      if g.stop {
        assert seps[..nvec][nvec - 1] == seps[nvec - 1];
        assert forall i :: 0 <= i < |seps| ==> seps[i].dz >= pimax by {
          forall i | 0 <= i < |seps|
            ensures seps[i].dz >= pimax
          {
            if i >= nvec {
              assert seps[nvec - 1].dz <= seps[i].dz;
            } else {
              assert seps[..nvec][i] == seps[i];
            }
          }
        }
        FullScanBeyondPimax(c, sq, pimax, seps);
      } else {
        assert seps == seps[..nvec] + seps[nvec..];
        FullScanConcat(c, sq, pimax, seps[..nvec], seps[nvec..]);
        LaneGroupMatchesScalar(c, sq, pimax, seps[..nvec]);
        VectorScanMatchesFullScan(g.counts, sq, pimax, seps[nvec..], nvec);
      }
    } else {
      BreakScanMatchesFullScan(c, TwoSided, sq, pimax, seps);
    }
  }

  /** With sorted cells and increasing edges the scalar and the vector loop agree bin for bin. */
  lemma ScalarAndVectorAgreeWhenSorted(c: Counts, sq: seq<real>, pimax: real, seps: seq<Sep>, nvec: nat)
    requires |c| == |sq| >= 1 && nvec >= 1 && StrictlyIncreasing(sq) && DzSorted(seps)
    ensures BreakScan(c, OneSided, sq, pimax, seps) == VectorScan(c, sq, pimax, seps, nvec)
  {
    BreakScanMatchesFullScan(c, OneSided, sq, pimax, seps);
    VectorScanMatchesFullScan(c, sq, pimax, seps, nvec);
  }

  /**
   Increasing edges are needed for the vector loop: the mask loop takes the
   lanes left for bin `kbin - 1` as all lanes under `sq[kbin - 1]`, so with
   edges out of order a lane is counted in two bins.
   */
  lemma VectorScanOvercountsUnorderedEdges()
    ensures var sq, seps := [0.0, 4.0, 2.0, 5.0], [Sep(0.0, 3.0), Sep(0.0, 1.0)];
            && !StrictlyIncreasing(sq)
            && VectorScan(Zeros(4), sq, 1.0, seps, 2) == [0, 2, 0, 1]
            && FullScan(Zeros(4), sq, 1.0, seps) == [0, 1, 0, 1]
  {
    var sq, seps := [0.0, 4.0, 2.0, 5.0], [Sep(0.0, 3.0), Sep(0.0, 1.0)];
    assert sq[1] > sq[2];
    LaneGroupOvercountsUnorderedEdges();
    assert seps[..2] == seps && seps[2..] == [];
    FullScanUnorderedEdges();
  }

  /**
   Without the z order the two loops differ: a lane group counts its lanes
   under `pimax` even after a lane beyond it, where the scalar loop breaks.
   */
  lemma ScalarAndVectorDisagreeUnsorted()
    ensures var sq, seps := [0.0, 1.0], [Sep(2.0, 0.5), Sep(0.0, 0.5)];
            BreakScan(Zeros(2), OneSided, sq, 1.0, seps) == [0, 0]
            && VectorScan(Zeros(2), sq, 1.0, seps, 2) == [0, 1]
  {
    var sq, seps := [0.0, 1.0], [Sep(2.0, 0.5), Sep(0.0, 0.5)];
    BreakScanUndercountsUnsorted();
    assert seps[..2] == seps && seps[2..] == [];
    LaneGroupMatchesScalar(Zeros(2), sq, 1.0, seps);
  }

  lemma {:induction false} BreakScanTranslates(c: Counts, d: Counts, kind: BinScan, sq: seq<real>, pimax: real, seps: seq<Sep>)
    requires |c| == |d| == |sq| >= 1
    ensures BreakScan(Add(c, d), kind, sq, pimax, seps) == Add(BreakScan(c, kind, sq, pimax, seps), d)
    decreases |seps|
  {
    if |seps| > 0 {
      var v := VerdictOf(kind, sq, pimax, seps[0]);
      if !v.Stop? {
        if v.Hit? {
          BumpAdd(c, d, v.kbin, 1);
        }
        BreakScanTranslates(Record(c, v), d, kind, sq, pimax, seps[1..]);
      }
    }
  }

  lemma {:induction false} VectorScanTranslates(c: Counts, d: Counts, sq: seq<real>, pimax: real, seps: seq<Sep>, nvec: nat)
    requires |c| == |d| == |sq| >= 1 && nvec >= 1
    ensures VectorScan(Add(c, d), sq, pimax, seps, nvec) == Add(VectorScan(c, sq, pimax, seps, nvec), d)
    decreases |seps|
  {
    if |seps| >= nvec {
      LaneGroupTranslates(c, d, sq, pimax, seps[..nvec]);
      var g := LaneGroup(c, sq, pimax, seps[..nvec]);
      if !g.stop {
        VectorScanTranslates(g.counts, d, sq, pimax, seps[nvec..], nvec);
      }
    } else {
      BreakScanTranslates(c, d, TwoSided, sq, pimax, seps);
    }
  }
}
