/**
 Radial bin edges, their squares, and the two downward bin scans of the
 kernel: the one-sided scan of the scalar path and the two-sided scan of the
 tail loop that follows the vector groups.
 */
module Edges {

  predicate StrictlyIncreasing(s: seq<real>) {
    forall i, j :: 0 <= i < j < |s| ==> s[i] < s[j]
  }

  predicate NonNegative(s: seq<real>) {
    forall i :: 0 <= i < |s| ==> 0.0 <= s[i]
  }

  /** `rupp_sqr[i] = rupp[i] * rupp[i]` */
  function SquaredEdges(rupp: seq<real>): (sq: seq<real>)
    ensures |sq| == |rupp|
    ensures forall i :: 0 <= i < |rupp| ==> sq[i] == rupp[i] * rupp[i]
  {
    seq(|rupp|, i requires 0 <= i < |rupp| => rupp[i] * rupp[i])
  }

  lemma SquareLt(a: real, b: real)
    requires 0.0 <= a < b
    ensures a * a < b * b
  {
    var d := b - a;
    assert d > 0.0;
    assert b * b == a * a + d * (a + b);
    PositiveProduct(d, a + b);
  }

  lemma PositiveProduct(x: real, y: real)
    requires x > 0.0 && y > 0.0
    ensures x * y > 0.0
  {
  }

  /** Nonnegative, strictly increasing edges have nonnegative, strictly increasing squares. */
  lemma SquaredEdgesIncreasing(rupp: seq<real>)
    requires NonNegative(rupp) && StrictlyIncreasing(rupp)
    ensures NonNegative(SquaredEdges(rupp)) && StrictlyIncreasing(SquaredEdges(rupp))
  {
    var sq := SquaredEdges(rupp);
    forall i, j | 0 <= i < j < |sq|
      ensures sq[i] < sq[j]
    {
      SquareLt(rupp[i], rupp[j]);
    }
  }

  /** `r2` lies in bin `k`: the half-open interval `[sq[k-1], sq[k])`, `1 <= k < nbin`. */
  predicate InBin(sq: seq<real>, r2: real, k: int) {
    1 <= k < |sq| && sq[k - 1] <= r2 < sq[k]
  }

  /** Two bins cannot both hold `r2` when the squared edges increase. */
  lemma InBinUnique(sq: seq<real>, r2: real, j: int, k: int)
    requires StrictlyIncreasing(sq) && InBin(sq, r2, j) && InBin(sq, r2, k)
    ensures j == k
  {
  }

  /** A bin of increasing edges lies inside `[sq[0], sq[nbin-1])`. */
  lemma InBinWithinRange(sq: seq<real>, r2: real, k: int)
    requires StrictlyIncreasing(sq) && InBin(sq, r2, k)
    ensures sq[0] <= r2 < sq[|sq| - 1]
  {
    assert sq[0] <= sq[k - 1];
    assert sq[k] <= sq[|sq| - 1];
  }

  /** Outcome of a downward bin scan: the bin whose counter is incremented, if any. */
  datatype Scan = NotFound | Found(kbin: nat)

  /**
   One-sided scan: from `kbin` down to 1, stop at the first bin whose lower
   edge `sq[kbin-1]` does not exceed `r2`.
   */
  function ScanDown(sq: seq<real>, r2: real, kbin: int): (r: Scan)
    requires kbin < |sq|
    ensures r.Found? ==> 1 <= r.kbin <= kbin && sq[r.kbin - 1] <= r2
    ensures r.Found? ==> forall j :: r.kbin <= j < kbin ==> r2 < sq[j]
    ensures r.NotFound? <==> forall j :: 0 <= j < kbin ==> r2 < sq[j]
    decreases kbin
  {
    if kbin < 1 then NotFound
    else if r2 >= sq[kbin - 1] then Found(kbin)
    else ScanDown(sq, r2, kbin - 1)
  }

  /**
   Two-sided scan: from `kbin` down to 1, stop at the first bin with
   `sq[kbin-1] <= r2 < sq[kbin]`.
   */
  function TailScanDown(sq: seq<real>, r2: real, kbin: int): (r: Scan)
    requires kbin < |sq|
    ensures r.Found? ==> r.kbin <= kbin && InBin(sq, r2, r.kbin)
    ensures r.Found? ==> forall j :: r.kbin < j <= kbin ==> !InBin(sq, r2, j)
    ensures r.NotFound? <==> forall j :: j <= kbin ==> !InBin(sq, r2, j)
    decreases kbin
  {
    if kbin < 1 then NotFound
    else if r2 >= sq[kbin - 1] && r2 < sq[kbin] then
      assert InBin(sq, r2, kbin);
      Found(kbin)
    else TailScanDown(sq, r2, kbin - 1)
  }

  /**
   Inside `[sq[0], sq[nbin-1])` the one-sided scan finds a bin, that bin holds
   `r2`, and it is the bin the two-sided scan finds; this needs no order on
   the edges.
   */
  lemma OneSidedMatchesTwoSided(sq: seq<real>, r2: real)
    requires |sq| >= 1 && sq[0] <= r2 < sq[|sq| - 1]
    ensures ScanDown(sq, r2, |sq| - 1).Found?
    ensures InBin(sq, r2, ScanDown(sq, r2, |sq| - 1).kbin)
    ensures ScanDown(sq, r2, |sq| - 1) == TailScanDown(sq, r2, |sq| - 1)
  {
    var top := |sq| - 1;
    var s := ScanDown(sq, r2, top);
    if |sq| == 1 {
      assert false;
    }
    assert s.Found?;
    var k := s.kbin;
    assert InBin(sq, r2, k);
    var t := TailScanDown(sq, r2, top);
    assert t.Found?;
  }

  /** With increasing edges, the scan's bin is the one and only bin holding `r2`. */
  lemma ScanDownFindsTheBin(sq: seq<real>, r2: real)
    requires StrictlyIncreasing(sq) && |sq| >= 1 && sq[0] <= r2 < sq[|sq| - 1]
    ensures ScanDown(sq, r2, |sq| - 1).Found?
    ensures forall j :: InBin(sq, r2, j) <==> j == ScanDown(sq, r2, |sq| - 1).kbin
  {
    OneSidedMatchesTwoSided(sq, r2);
    var k := ScanDown(sq, r2, |sq| - 1).kbin;
    forall j | InBin(sq, r2, j)
      ensures j == k
    {
      InBinUnique(sq, r2, j, k);
    }
  }
}
