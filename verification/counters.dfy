/**
 Per-bin pair counters, the `npair` / `local_npair` arrays of the kernel.
 The source's `uint64_t` counters are unbounded naturals here.
 */
module Counters {

  type Counts = seq<nat>

  /** A zero-initialised accumulator of `n` bins. */
  function Zeros(n: nat): (r: Counts)
    ensures |r| == n
    ensures forall k :: 0 <= k < n ==> r[k] == 0
  {
    seq(n, _ => 0)
  }

  /** Adds `n` to bin `k`, leaving every other bin as it was. */
  function Bump(c: Counts, k: nat, n: nat): (r: Counts)
    requires k < |c|
    ensures |r| == |c| && r[k] == c[k] + n
    ensures forall j :: 0 <= j < |c| && j != k ==> r[j] == c[j]
  {
    c[k := c[k] + n]
  }

  /** Bin-by-bin sum of two accumulators of the same length. */
  function Add(a: Counts, b: Counts): (r: Counts)
    requires |a| == |b|
    ensures |r| == |a|
    ensures forall k :: 0 <= k < |a| ==> r[k] == a[k] + b[k]
  {
    seq(|a|, k requires 0 <= k < |a| => a[k] + b[k])
  }

  /** Sum of all bins. */
  function Total(c: Counts): nat {
    if |c| == 0 then 0 else c[0] + Total(c[1..])
  }

  /** Pointwise order of two accumulators of the same length. */
  predicate AtMost(a: Counts, b: Counts) {
    |a| == |b| && forall k :: 0 <= k < |a| ==> a[k] <= b[k]
  }

  lemma {:induction false} TotalBump(c: Counts, k: nat, n: nat)
    requires k < |c|
    ensures Total(Bump(c, k, n)) == Total(c) + n
    decreases |c|
  {
    var r := Bump(c, k, n);
    if k == 0 {
      assert r[1..] == c[1..];
    } else {
      assert r[1..] == Bump(c[1..], k - 1, n);
      TotalBump(c[1..], k - 1, n);
    }
  }

  lemma AddZerosRight(a: Counts)
    ensures Add(a, Zeros(|a|)) == a
  {
  }

  lemma AddZerosLeft(a: Counts)
    ensures Add(Zeros(|a|), a) == a
  {
  }

  lemma AddCommutes(a: Counts, b: Counts)
    requires |a| == |b|
    ensures Add(a, b) == Add(b, a)
  {
  }

  /** Moving the middle of three accumulators to the front. */
  lemma AddSwapFront(a: Counts, b: Counts, c: Counts)
    requires |a| == |b| == |c|
    ensures Add(Add(a, b), c) == Add(b, Add(a, c))
  {
  }

  /** Bumping a bin commutes with adding another accumulator. */
  lemma BumpAdd(c: Counts, d: Counts, k: nat, n: nat)
    requires |c| == |d| && k < |c|
    ensures Bump(Add(c, d), k, n) == Add(Bump(c, k, n), d)
  {
  }
}
