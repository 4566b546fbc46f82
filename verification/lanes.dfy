/**
 The vector path for one group of NVEC neighbour points: lane masks for the
 `dz` window, rejected lanes blended to `rpmax^2`, and the downward bin loop
 that counts set lanes per bin while narrowing the mask of lanes left.
 */
module Lanes {
  import opened Counters
  import opened Edges
  import opened Pairs

  /** One comparison result per lane. */
  type Mask = seq<bool>

  /** The movemask test is nonzero: some lane is set. */
  predicate Any(m: Mask) {
    exists j :: 0 <= j < |m| && m[j]
  }

  /** Population count of the set lanes. */
  function PopCount(m: Mask): nat {
    if |m| == 0 then 0 else (if m[0] then 1 else 0) + PopCount(m[1..])
  }

  function And(a: Mask, b: Mask): (r: Mask)
    requires |a| == |b|
    ensures |r| == |a| && forall j :: 0 <= j < |a| ==> r[j] == (a[j] && b[j])
  {
    seq(|a|, j requires 0 <= j < |a| => a[j] && b[j])
  }

  /** Lane-wise `dist < e`. */
  function LessThan(dist: seq<real>, e: real): (r: Mask)
    ensures |r| == |dist| && forall j :: 0 <= j < |dist| ==> r[j] == (dist[j] < e)
  {
    seq(|dist|, j requires 0 <= j < |dist| => dist[j] < e)
  }

  /** Lane-wise `dist >= e`. */
  function AtLeast(dist: seq<real>, e: real): (r: Mask)
    ensures |r| == |dist| && forall j :: 0 <= j < |dist| ==> r[j] == (dist[j] >= e)
  {
    seq(|dist|, j requires 0 <= j < |dist| => dist[j] >= e)
  }

  /** Lanes in `[lo, hi)`. */
  function Band(dist: seq<real>, lo: real, hi: real): Mask {
    And(AtLeast(dist, lo), LessThan(dist, hi))
  }

  /** Lanes with `dz < pimax`. */
  function PimaxMask(lanes: seq<Sep>, pimax: real): (r: Mask)
    ensures |r| == |lanes| && forall j :: 0 <= j < |lanes| ==> r[j] == (lanes[j].dz < pimax)
  {
    seq(|lanes|, j requires 0 <= j < |lanes| => lanes[j].dz < pimax)
  }

  /** Lanes with `dz >= 0`, and-ed with the `pimax` mask. */
  function WindowMask(lanes: seq<Sep>, pimax: real): (r: Mask)
    ensures |r| == |lanes| && forall j :: 0 <= j < |lanes| ==> r[j] == (lanes[j].dz >= 0.0 && lanes[j].dz < pimax)
  {
    And(seq(|lanes|, j requires 0 <= j < |lanes| => lanes[j].dz >= 0.0), PimaxMask(lanes, pimax))
  }

  /**
   The window mask agrees lane by lane with the scalar path's `dz` tests: a
   lane is set exactly when the scalar loop would neither skip it (`dz < 0`)
   nor stop at it (`dz >= pimax`).
   */
  lemma WindowMatchesScalarTests(lanes: seq<Sep>, sq: seq<real>, pimax: real)
    requires |sq| >= 1
    ensures forall j :: 0 <= j < |lanes| ==>
              (WindowMask(lanes, pimax)[j] <==> !(lanes[j].dz < 0.0) && !ScalarVerdict(sq, pimax, lanes[j]).Stop?)
  {
  }

  /** Blend: a set lane keeps its `r2`, a cleared lane gets `fill`. */
  function Blend(lanes: seq<Sep>, mask: Mask, fill: real): seq<real>
    requires |mask| == |lanes|
  {
    seq(|lanes|, j requires 0 <= j < |lanes| => if mask[j] then lanes[j].r2 else fill)
  }

  /**
   The downward bin loop: bin `kbin` gets the number of lanes with
   `dist >= sq[kbin-1]` among those left; the lanes left for the next bin
   are those with `dist < sq[kbin-1]`; the loop ends when none is left.
   */
  function MaskBinLoop(c: Counts, dist: seq<real>, sq: seq<real>, kbin: int, left: Mask): (r: Counts)
    requires |c| == |sq| && kbin < |sq| && |left| == |dist|
    ensures |r| == |c| && AtMost(c, r)
    ensures |c| > 0 ==> r[0] == c[0]
    decreases kbin
  {
    if kbin < 1 then c
    else
      var binMask := And(AtLeast(dist, sq[kbin - 1]), left);
      var c' := Bump(c, kbin, PopCount(binMask));
      var left' := LessThan(dist, sq[kbin - 1]);
      if !Any(left') then c' else MaskBinLoop(c', dist, sq, kbin - 1, left')
  }

  /**
   With edges out of order the lanes left for the next bin are not a subset
   of those left before: lane `r2 = 1` skips bins 3 and 2 and is counted in
   bin 1 together with lane `r2 = 3`, already counted in bin 3.
   */
  lemma MaskBinLoopUnorderedEdges()
    ensures MaskBinLoop([0, 0, 0, 0], [3.0, 1.0], [0.0, 4.0, 2.0, 5.0], 3, [true, true]) == [0, 2, 0, 1]
  {
    var dist, sq := [3.0, 1.0], [0.0, 4.0, 2.0, 5.0];
    assert [true, false][1..] == [false] && [true, true][1..] == [true] && [false, false][1..] == [false];
    assert PopCount([true, false]) == 1 && PopCount([true, true]) == 2 && PopCount([false, false]) == 0;
    assert And(AtLeast(dist, 2.0), [true, true]) == [true, false];
    assert LessThan(dist, 2.0) == [false, true];
    assert And(AtLeast(dist, 4.0), [false, true]) == [false, false];
    assert LessThan(dist, 4.0) == [true, true];
    assert And(AtLeast(dist, 0.0), [true, true]) == [true, true];
    assert LessThan(dist, 0.0) == [false, false];
    assert MaskBinLoop([0, 0, 0, 1], dist, sq, 1, [true, true]) == [0, 2, 0, 1];
    assert MaskBinLoop([0, 0, 0, 1], dist, sq, 2, [false, true]) == [0, 2, 0, 1];
  }

  /** Outcome of one lane group: whether the neighbour loop ends here, and the counters. */
  datatype GroupResult = GroupResult(stop: bool, counts: Counts)

  /**
   One lane group: if no lane has `dz < pimax` the whole neighbour loop ends;
   otherwise lanes outside `0 <= dz < pimax` are blended to `rpmax^2`, and if
   some lane lies in `[rpmin^2, rpmax^2)` the bin loop runs.
   */
  function LaneGroup(c: Counts, sq: seq<real>, pimax: real, lanes: seq<Sep>): (g: GroupResult)
    requires |c| == |sq| >= 1
    ensures |g.counts| == |c| && g.counts[0] == c[0] && AtMost(c, g.counts)
    ensures g.stop <==> forall j :: 0 <= j < |lanes| ==> lanes[j].dz >= pimax
    ensures g.stop ==> g.counts == c
  {
    var top := |sq| - 1;
    if !Any(PimaxMask(lanes, pimax)) then GroupResult(true, c)
    else
      var dist := Blend(lanes, WindowMask(lanes, pimax), sq[top]);
      var left := LessThan(dist, sq[top]);
      var mask := And(AtLeast(dist, sq[0]), left);
      if !Any(mask) then GroupResult(false, c)
      else GroupResult(false, MaskBinLoop(c, dist, sq, top, left))
  }

  lemma {:induction false} PopCountNone(m: Mask)
    requires !Any(m)
    ensures PopCount(m) == 0
  {
    if |m| > 0 {
      assert forall j :: 0 <= j < |m[1..]| ==> m[1..][j] == m[j + 1];
      PopCountNone(m[1..]);
    }
  }

  /** A mask that marks exactly the accepted lanes of bin `k` counts them. */
  lemma {:induction false} PopCountIsCountInBin(m: Mask, lanes: seq<Sep>, sq: seq<real>, pimax: real, k: int)
    requires |sq| >= 1 && |m| == |lanes|
    requires forall j :: 0 <= j < |m| ==> (m[j] <==> Accepted(sq, pimax, lanes[j]) && InBin(sq, lanes[j].r2, k))
    ensures PopCount(m) == CountInBin(sq, pimax, lanes, k)
  {
    if |m| > 0 {
      PopCountIsCountInBin(m[1..], lanes[1..], sq, pimax, k);
    }
  }

  lemma {:induction false} CountInBinZero(sq: seq<real>, pimax: real, seps: seq<Sep>)
    requires |sq| >= 1
    ensures CountInBin(sq, pimax, seps, 0) == 0
  {
    if |seps| > 0 {
      CountInBinZero(sq, pimax, seps[1..]);
    }
  }

  /**
   After blending, the lanes of `[sq[k-1], sq[k])` are exactly the accepted
   pairs of bin `k`: a blended lane sits at `sq[nbin-1]`, above every bin.
   */
  lemma BlendedBandIsBin(lanes: seq<Sep>, dist: seq<real>, sq: seq<real>, pimax: real, k: int)
    requires StrictlyIncreasing(sq) && 1 <= k < |sq|
    requires dist == Blend(lanes, WindowMask(lanes, pimax), sq[|sq| - 1])
    ensures forall j :: 0 <= j < |lanes| ==>
              (Band(dist, sq[k - 1], sq[k])[j] <==> Accepted(sq, pimax, lanes[j]) && InBin(sq, lanes[j].r2, k))
  {
    forall j | 0 <= j < |lanes|
      ensures Band(dist, sq[k - 1], sq[k])[j] <==> Accepted(sq, pimax, lanes[j]) && InBin(sq, lanes[j].r2, k)
    {
      if InBin(sq, lanes[j].r2, k) {
        InBinWithinRange(sq, lanes[j].r2, k);
      }
      assert sq[k] <= sq[|sq| - 1];
    }
  }

  /** A band inside an empty band is empty. */
  lemma BandWithin(dist: seq<real>, lo: real, hi: real, a: real, b: real)
    requires a <= lo && hi <= b && !Any(Band(dist, a, b))
    ensures !Any(Band(dist, lo, hi))
  {
  }

  /** With no lane below `e`, every band under `e` is empty. */
  lemma BandBelowNone(dist: seq<real>, lo: real, hi: real, e: real)
    requires hi <= e && !Any(LessThan(dist, e))
    ensures !Any(Band(dist, lo, hi))
  {
  }

  /** What the bin loop entered at `kbin` adds to bin `k`: the lanes of `[sq[k-1], sq[k])` for `k <= kbin`. */
  function BandGain(dist: seq<real>, sq: seq<real>, kbin: int, k: int): nat
    requires k < |sq|
  {
    if 1 <= k <= kbin then PopCount(Band(dist, sq[k - 1], sq[k])) else 0
  }

  /**
   Invariant of the bin loop: entered at `kbin` with the lanes below
   `sq[kbin]` left, it adds to every bin `k <= kbin` the lanes of
   `[sq[k-1], sq[k])`; the early exit only skips bins that would get zero.
   */
  lemma {:induction false} MaskBinLoopCountsBands(c: Counts, dist: seq<real>, sq: seq<real>, kbin: int, left: Mask)
    requires |c| == |sq| && 0 <= kbin < |sq| && |left| == |dist| && StrictlyIncreasing(sq)
    requires kbin >= 1 ==> left == LessThan(dist, sq[kbin])
    ensures forall k :: 0 <= k < |c| ==> MaskBinLoop(c, dist, sq, kbin, left)[k] == c[k] + BandGain(dist, sq, kbin, k)
    decreases kbin
  {
    var r := MaskBinLoop(c, dist, sq, kbin, left);
    if kbin >= 1 {
      var binMask := And(AtLeast(dist, sq[kbin - 1]), left);
      assert binMask == Band(dist, sq[kbin - 1], sq[kbin]);
      var c' := Bump(c, kbin, PopCount(binMask));
      var left' := LessThan(dist, sq[kbin - 1]);
      if !Any(left') {
        assert r == c';
        forall k | 0 <= k < |c|
          ensures r[k] == c[k] + BandGain(dist, sq, kbin, k)
        {
          if 1 <= k < kbin {
            assert sq[k] <= sq[kbin - 1];
            BandBelowNone(dist, sq[k - 1], sq[k], sq[kbin - 1]);
            PopCountNone(Band(dist, sq[k - 1], sq[k]));
          }
        }
      } else {
        assert r == MaskBinLoop(c', dist, sq, kbin - 1, left');
        MaskBinLoopCountsBands(c', dist, sq, kbin - 1, left');
        forall k | 0 <= k < |c|
          ensures r[k] == c[k] + BandGain(dist, sq, kbin, k)
        {
          assert r[k] == c'[k] + BandGain(dist, sq, kbin - 1, k);
        }
      }
    } else {
      assert r == c;
      forall k | 0 <= k < |c|
        ensures r[k] == c[k] + BandGain(dist, sq, kbin, k)
      {
      }
    }
  }

  /** The blended bands count the reference histogram, bin by bin. */
  lemma BandsAreHistogram(lanes: seq<Sep>, dist: seq<real>, sq: seq<real>, pimax: real)
    requires StrictlyIncreasing(sq) && |sq| >= 1
    requires dist == Blend(lanes, WindowMask(lanes, pimax), sq[|sq| - 1])
    ensures forall k :: 0 <= k < |sq| ==> BandGain(dist, sq, |sq| - 1, k) == Histogram(sq, pimax, lanes)[k]
  {
    forall k | 0 <= k < |sq|
      ensures BandGain(dist, sq, |sq| - 1, k) == Histogram(sq, pimax, lanes)[k]
    {
      if k == 0 {
        CountInBinZero(sq, pimax, lanes);
      } else {
        BlendedBandIsBin(lanes, dist, sq, pimax, k);
        PopCountIsCountInBin(Band(dist, sq[k - 1], sq[k]), lanes, sq, pimax, k);
      }
    }
  }

  /** When no blended lane lies in `[sq[0], sq[nbin-1])`, every band is empty. */
  lemma EmptyWindowEmptyBands(dist: seq<real>, sq: seq<real>, top: int)
    requires StrictlyIncreasing(sq) && |sq| >= 1 && top == |sq| - 1
    requires !Any(And(AtLeast(dist, sq[0]), LessThan(dist, sq[top])))
    ensures forall k :: 0 <= k < |sq| ==> BandGain(dist, sq, top, k) == 0
  {
    assert And(AtLeast(dist, sq[0]), LessThan(dist, sq[|sq| - 1])) == Band(dist, sq[0], sq[|sq| - 1]);
    forall k | 1 <= k < |sq|
      ensures PopCount(Band(dist, sq[k - 1], sq[k])) == 0
    {
      assert sq[0] <= sq[k - 1] && sq[k] <= sq[|sq| - 1];
      BandWithin(dist, sq[k - 1], sq[k], sq[0], sq[|sq| - 1]);
      PopCountNone(Band(dist, sq[k - 1], sq[k]));
    }
  }

  /** A group that runs the bin loop adds the histogram of its lanes. */
  lemma BinLoopIsHistogram(c: Counts, dist: seq<real>, sq: seq<real>, pimax: real, lanes: seq<Sep>)
    requires |c| == |sq| >= 1 && StrictlyIncreasing(sq)
    requires dist == Blend(lanes, WindowMask(lanes, pimax), sq[|sq| - 1])
    ensures MaskBinLoop(c, dist, sq, |sq| - 1, LessThan(dist, sq[|sq| - 1])) == Add(c, Histogram(sq, pimax, lanes))
  {
    MaskBinLoopCountsBands(c, dist, sq, |sq| - 1, LessThan(dist, sq[|sq| - 1]));
    BandsAreHistogram(lanes, dist, sq, pimax);
  }

  /** A group whose blended lanes all miss `[sq[0], sq[nbin-1])` has an empty histogram. */
  lemma EmptyWindowIsHistogram(c: Counts, dist: seq<real>, sq: seq<real>, pimax: real, lanes: seq<Sep>)
    requires |c| == |sq| >= 1 && StrictlyIncreasing(sq)
    requires dist == Blend(lanes, WindowMask(lanes, pimax), sq[|sq| - 1])
    requires !Any(And(AtLeast(dist, sq[0]), LessThan(dist, sq[|sq| - 1])))
    ensures c == Add(c, Histogram(sq, pimax, lanes))
  {
    EmptyWindowEmptyBands(dist, sq, |sq| - 1);
    BandsAreHistogram(lanes, dist, sq, pimax);
  }

  /** A lane group adds exactly the reference histogram of its lanes. */
  lemma LaneGroupIsHistogram(c: Counts, sq: seq<real>, pimax: real, lanes: seq<Sep>)
    requires |c| == |sq| >= 1 && StrictlyIncreasing(sq)
    ensures LaneGroup(c, sq, pimax, lanes).counts == Add(c, Histogram(sq, pimax, lanes))
  {
    var top := |sq| - 1;
    if !Any(PimaxMask(lanes, pimax)) {
      FullScanBeyondPimax(c, sq, pimax, lanes);
      AddZerosRight(c);
    } else {
      var dist := Blend(lanes, WindowMask(lanes, pimax), sq[top]);
      if !Any(And(AtLeast(dist, sq[0]), LessThan(dist, sq[top]))) {
        EmptyWindowIsHistogram(c, dist, sq, pimax, lanes);
      } else {
        BinLoopIsHistogram(c, dist, sq, pimax, lanes);
      }
    }
  }

  /**
   Bin for bin, a lane group adds what the scalar scan adds for the same
   lanes taken one at a time (with `continue` in place of `break`).
   */
  lemma LaneGroupMatchesScalar(c: Counts, sq: seq<real>, pimax: real, lanes: seq<Sep>)
    requires |c| == |sq| >= 1 && StrictlyIncreasing(sq)
    ensures LaneGroup(c, sq, pimax, lanes).counts == FullScan(c, sq, pimax, lanes)
  {
    LaneGroupIsHistogram(c, sq, pimax, lanes);
    FullScanIsHistogram(c, sq, pimax, lanes);
  }

  lemma {:induction false} MaskBinLoopTranslates(c: Counts, d: Counts, dist: seq<real>, sq: seq<real>, kbin: int, left: Mask)
    requires |c| == |d| == |sq| && kbin < |sq| && |left| == |dist|
    ensures MaskBinLoop(Add(c, d), dist, sq, kbin, left) == Add(MaskBinLoop(c, dist, sq, kbin, left), d)
    decreases kbin
  {
    if kbin >= 1 {
      var binMask := And(AtLeast(dist, sq[kbin - 1]), left);
      BumpAdd(c, d, kbin, PopCount(binMask));
      MaskBinLoopTranslates(Bump(c, kbin, PopCount(binMask)), d, dist, sq, kbin - 1, LessThan(dist, sq[kbin - 1]));
    }
  }

  lemma LaneGroupTranslates(c: Counts, d: Counts, sq: seq<real>, pimax: real, lanes: seq<Sep>)
    requires |c| == |d| == |sq| >= 1
    ensures LaneGroup(Add(c, d), sq, pimax, lanes)
         == GroupResult(LaneGroup(c, sq, pimax, lanes).stop, Add(LaneGroup(c, sq, pimax, lanes).counts, d))
  {
    var top := |sq| - 1;
    var dist := Blend(lanes, WindowMask(lanes, pimax), sq[top]);
    MaskBinLoopTranslates(c, d, dist, sq, top, LessThan(dist, sq[top]));
  }

  /** A lane group with the edges `[0, 4, 2, 5]` counts lane `r2 = 1` in bin 1 and lane `r2 = 3` in bins 1 and 3. */
  lemma LaneGroupOvercountsUnorderedEdges()
    ensures LaneGroup(Zeros(4), [0.0, 4.0, 2.0, 5.0], 1.0, [Sep(0.0, 3.0), Sep(0.0, 1.0)]).counts == [0, 2, 0, 1]
  {
    var sq, lanes := [0.0, 4.0, 2.0, 5.0], [Sep(0.0, 3.0), Sep(0.0, 1.0)];
    var dist := [3.0, 1.0];
    assert PimaxMask(lanes, 1.0)[0];
    assert Blend(lanes, WindowMask(lanes, 1.0), 5.0) == dist;
    assert LessThan(dist, 5.0) == [true, true];
    assert And(AtLeast(dist, 0.0), [true, true])[0];
    assert Zeros(4) == [0, 0, 0, 0];
    MaskBinLoopUnorderedEdges();
  }
}
