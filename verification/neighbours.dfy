/**
 Refinement factors and the periodic neighbour-cell enumeration: for each
 offset (iix, iiy, iiz) the wrapped neighbour cell and the wrap offset that
 is added to the primary point's coordinates.
 */
module Neighbours {
  import opened Arith
  import opened CellIndex

  /** `bin_refine_factor` (x and y) and `zbin_refine_factor` (z). */
  datatype RefineFactors = RefineFactors(xy: int, z: int)

  /**
   The refinement choice at the top of the kernel: x and y are always refined
   by 2; z by 2 when `rmax >= pimax`, except that a run with OpenMP and one
   thread falls back to 1.
   */
  function ChooseRefine(rmax: real, pimax: real, omp: bool, numthreads: int): (f: RefineFactors)
    ensures f.xy == 2
    ensures f.z == 1 || f.z == 2
    ensures f.z == 2 <==> rmax >= pimax && !(omp && numthreads == 1)
  {
    var z := if rmax >= pimax then 2 else 1;
    if omp && numthreads == 1 then RefineFactors(2, 1) else RefineFactors(2, z)
  }

  /** Wrapped cell index along one axis, and the sign s of the wrap offset `s * side`. */
  datatype AxisStep = AxisStep(index: int, sign: int)

  /**
   x and y axes: the wrap tests both the lower and the upper boundary. When
   the offset stays within one period the wrapped index is the raw index
   `i + ii` shifted by `n * sign`, and the sign is nonzero exactly when the
   raw index leaves `[0, n)`.
   */
  function WrapAxis(n: int, i: int, ii: int): (w: AxisStep)
    requires n >= 1
    ensures 0 <= i < n && -n <= ii <= n ==>
              && 0 <= w.index < n
              && w.index == i + ii + n * w.sign
              && -1 <= w.sign <= 1
              && (w.sign != 0 <==> !(0 <= i + ii < n))
  {
    var a := i + ii + n;
    var sign := if i + ii < 0 then 1 else if i + ii >= n then -1 else 0;
    DivUniqueWhen(a, n, 1 - sign, i + ii + n * sign);
    AxisStep(CRem(a, n), sign)
  }

  /**
   z axis: the search only looks forward, so only the upper boundary is
   tested; the same relation holds and the sign is never positive.
   */
  function WrapForward(n: int, i: int, ii: int): (w: AxisStep)
    requires n >= 1
    ensures 0 <= i < n && 0 <= ii <= n ==>
              && 0 <= w.index < n
              && w.index == i + ii + n * w.sign
              && -1 <= w.sign <= 0
              && (w.sign != 0 <==> i + ii >= n)
  {
    var a := i + ii + n;
    var sign := if i + ii >= n then -1 else 0;
    DivUniqueWhen(a, n, 1 - sign, i + ii + n * sign);
    AxisStep(CRem(a, n), sign)
  }

  /**
   Range condition for the wrapped index along an axis searched over
   `[-b, b]`: exact, since for `n >= 2` and `b = n + 1` the offset `-b`
   from cell 0 gives C remainder `-1`.
   */
  predicate AxisInRange(n: int, b: int) {
    n == 1 || b <= n
  }

  lemma WrapAxisInRange(n: int, b: int, i: int, ii: int)
    requires n >= 1 && AxisInRange(n, b) && 0 <= i < n && -b <= ii
    ensures 0 <= WrapAxis(n, i, ii).index < n
  {
    var a := i + ii + n;
    if n == 1 && a < 0 {
      DivUnique(-a, 1, -a, 0);
    }
  }

  /** Without the range condition the wrapped index can be negative. */
  lemma WrapAxisOutOfRange()
    ensures !AxisInRange(2, 3)
    ensures WrapAxis(2, 0, -3).index == -1
  {
    assert CRem(-1, 2) == -(1 % 2);
  }

  /** The refinement factors the kernel chooses keep every wrapped index in range for every mesh. */
  lemma ChosenFactorsInRange(rmax: real, pimax: real, omp: bool, numthreads: int, n: int)
    requires n >= 1
    ensures AxisInRange(n, ChooseRefine(rmax, pimax, omp, numthreads).xy)
  {
  }

  /** Offset added to the primary point's coordinates (`off_xwrap`, `off_ywrap`, `off_zwrap`). */
  datatype Offset = Offset(x: real, y: real, z: real)

  /** The coordinate offset for a wrap sign: `side`, `-side` or `0.0`. */
  function WrapOffset(sign: int, side: real): real {
    if sign > 0 then side else if sign < 0 then -side else 0.0
  }

  /** One visited neighbour: the flat index `index2` of the neighbour cell and the wrap offset. */
  datatype Visit = Visit(index2: int, off: Offset)

  /**
   The visit of offset `(iix, iiy, iiz)` from cell `c`: the wrapped
   neighbour's `index2` and the offset for the primary point. Within one
   period on every axis `index2` lies in `[0, totncells)`.
   */
  function NeighbourVisit(m: Mesh, side: real, c: Cell3, iix: int, iiy: int, iiz: int): (v: Visit)
    requires m.Valid()
    ensures InGrid(m, c) && -m.nx <= iix <= m.nx && -m.ny <= iiy <= m.ny && 0 <= iiz <= m.nz ==>
              0 <= v.index2 < m.TotalCells()
  {
    var wx := WrapAxis(m.nx, c.ix, iix);
    var wy := WrapAxis(m.ny, c.iy, iiy);
    var wz := WrapForward(m.nz, c.iz, iiz);
    var cell := Cell3(wx.index, wy.index, wz.index);
    var off := Offset(WrapOffset(wx.sign, side), WrapOffset(wy.sign, side), WrapOffset(wz.sign, side));
    FlattenInRange(m, cell);
    Visit(Flatten(m, cell), off)
  }

  /** Innermost loop: `iiz` from `iiz` up to `bz`. */
  function ZSweep(m: Mesh, side: real, c: Cell3, iix: int, iiy: int, bz: int, iiz: int): (r: seq<Visit>)
    requires m.Valid()
    ensures |r| == if iiz > bz then 0 else bz + 1 - iiz
    decreases bz + 1 - iiz
  {
    if iiz > bz then []
    else [NeighbourVisit(m, side, c, iix, iiy, iiz)] + ZSweep(m, side, c, iix, iiy, bz, iiz + 1)
  }

  /** Middle loop: `iiy` from `iiy` up to `b`, each with the full z sweep. */
  function YSweep(m: Mesh, side: real, c: Cell3, iix: int, b: int, bz: int, iiy: int): (r: seq<Visit>)
    requires m.Valid()
    requires bz >= -1
    ensures |r| == if iiy > b then 0 else (b + 1 - iiy) * (bz + 1)
    decreases b + 1 - iiy
  {
    if iiy > b then []
    else
      MulSucc(b - iiy, bz + 1);
      ZSweep(m, side, c, iix, iiy, bz, 0) + YSweep(m, side, c, iix, b, bz, iiy + 1)
  }

  /** Outer loop: `iix` from `iix` up to `b`. */
  function XSweep(m: Mesh, side: real, c: Cell3, b: int, bz: int, iix: int): (r: seq<Visit>)
    requires m.Valid()
    requires b >= 0 && bz >= -1
    ensures |r| == if iix > b then 0 else (b + 1 - iix) * ((2 * b + 1) * (bz + 1))
    decreases b + 1 - iix
  {
    if iix > b then []
    else
      MulSucc(b - iix, (2 * b + 1) * (bz + 1));
      var k := b + 1 - -b;
      assert k == 2 * b + 1;
      assert |YSweep(m, side, c, iix, b, bz, -b)| == k * (bz + 1);
      YSweep(m, side, c, iix, b, bz, -b) + XSweep(m, side, c, b, bz, iix + 1)
  }

  /** All neighbour visits of one primary cell, in the kernel's loop order. */
  function CellVisits(m: Mesh, side: real, c: Cell3, f: RefineFactors): (r: seq<Visit>)
    requires m.Valid() && f.xy >= 0 && f.z >= 0
    ensures |r| == (2 * f.xy + 1) * ((2 * f.xy + 1) * (f.z + 1))
  {
    XSweep(m, side, c, f.xy, f.z, -f.xy)
  }

  predicate IsOffsetTriple(b: int, bz: int, iix: int, iiy: int, iiz: int) {
    -b <= iix <= b && -b <= iiy <= b && 0 <= iiz <= bz
  }

  /** Every offset of the z sweep is visited. */
  lemma {:induction false} ZSweepComplete(m: Mesh, side: real, c: Cell3, iix: int, iiy: int, bz: int, iiz: int, z: int)
    requires m.Valid() && iiz <= z <= bz
    ensures NeighbourVisit(m, side, c, iix, iiy, z) in ZSweep(m, side, c, iix, iiy, bz, iiz)
    decreases bz + 1 - iiz
  {
    if z > iiz {
      ZSweepComplete(m, side, c, iix, iiy, bz, iiz + 1, z);
    }
  }

  /** The z sweep visits nothing but its offsets. */
  lemma {:induction false} ZSweepSound(m: Mesh, side: real, c: Cell3, iix: int, iiy: int, bz: int, iiz: int, v: Visit)
    requires m.Valid() && v in ZSweep(m, side, c, iix, iiy, bz, iiz)
    ensures exists z :: iiz <= z <= bz && v == NeighbourVisit(m, side, c, iix, iiy, z)
    decreases bz + 1 - iiz
  {
    if v != NeighbourVisit(m, side, c, iix, iiy, iiz) {
      ZSweepSound(m, side, c, iix, iiy, bz, iiz + 1, v);
    }
  }

  lemma {:induction false} YSweepComplete(m: Mesh, side: real, c: Cell3, iix: int, b: int, bz: int, iiy: int, y: int, z: int)
    requires m.Valid() && bz >= -1 && iiy <= y <= b && 0 <= z <= bz
    ensures NeighbourVisit(m, side, c, iix, y, z) in YSweep(m, side, c, iix, b, bz, iiy)
    decreases b + 1 - iiy
  {
    if y > iiy {
      YSweepComplete(m, side, c, iix, b, bz, iiy + 1, y, z);
    } else {
      ZSweepComplete(m, side, c, iix, iiy, bz, 0, z);
    }
  }

  lemma {:induction false} YSweepSound(m: Mesh, side: real, c: Cell3, iix: int, b: int, bz: int, iiy: int, v: Visit)
    requires m.Valid() && bz >= -1 && v in YSweep(m, side, c, iix, b, bz, iiy)
    ensures exists y, z :: iiy <= y <= b && 0 <= z <= bz && v == NeighbourVisit(m, side, c, iix, y, z)
    decreases b + 1 - iiy
  {
    if v in ZSweep(m, side, c, iix, iiy, bz, 0) {
      ZSweepSound(m, side, c, iix, iiy, bz, 0, v);
      var z :| 0 <= z <= bz && v == NeighbourVisit(m, side, c, iix, iiy, z);
      assert iiy <= iiy <= b;
    } else {
      YSweepSound(m, side, c, iix, b, bz, iiy + 1, v);
      var y, z :| iiy + 1 <= y <= b && 0 <= z <= bz && v == NeighbourVisit(m, side, c, iix, y, z);
      assert iiy <= y;
    }
  }

  lemma {:induction false} XSweepComplete(m: Mesh, side: real, c: Cell3, b: int, bz: int, iix: int, x: int, y: int, z: int)
    requires m.Valid() && b >= 0 && bz >= -1 && iix <= x <= b && -b <= y <= b && 0 <= z <= bz
    ensures NeighbourVisit(m, side, c, x, y, z) in XSweep(m, side, c, b, bz, iix)
    decreases b + 1 - iix
  {
    if x > iix {
      XSweepComplete(m, side, c, b, bz, iix + 1, x, y, z);
    } else {
      YSweepComplete(m, side, c, iix, b, bz, -b, y, z);
    }
  }

  lemma {:induction false} XSweepSound(m: Mesh, side: real, c: Cell3, b: int, bz: int, iix: int, v: Visit)
    requires m.Valid() && b >= 0 && bz >= -1 && v in XSweep(m, side, c, b, bz, iix)
    ensures exists x, y, z :: iix <= x <= b && -b <= y <= b && 0 <= z <= bz && v == NeighbourVisit(m, side, c, x, y, z)
    decreases b + 1 - iix
  {
    if v in YSweep(m, side, c, iix, b, bz, -b) {
      YSweepSound(m, side, c, iix, b, bz, -b, v);
      var y, z :| -b <= y <= b && 0 <= z <= bz && v == NeighbourVisit(m, side, c, iix, y, z);
      assert iix <= iix <= b;
    } else {
      XSweepSound(m, side, c, b, bz, iix + 1, v);
      var x, y, z :| iix + 1 <= x <= b && -b <= y <= b && 0 <= z <= bz && v == NeighbourVisit(m, side, c, x, y, z);
      assert iix <= x;
    }
  }

  /** Every visit of the enumeration is the visit of an offset in the box. */
  lemma CellVisitsSound(m: Mesh, side: real, c: Cell3, f: RefineFactors, v: Visit)
    requires m.Valid() && f.xy >= 0 && f.z >= 0 && v in CellVisits(m, side, c, f)
    ensures exists x, y, z :: IsOffsetTriple(f.xy, f.z, x, y, z) && v == NeighbourVisit(m, side, c, x, y, z)
  {
    XSweepSound(m, side, c, f.xy, f.z, -f.xy, v);
    var x, y, z :| -f.xy <= x <= f.xy && -f.xy <= y <= f.xy && 0 <= z <= f.z && v == NeighbourVisit(m, side, c, x, y, z);
    assert IsOffsetTriple(f.xy, f.z, x, y, z);
  }

  /** Every offset of the box is visited. */
  lemma CellVisitsComplete(m: Mesh, side: real, c: Cell3, f: RefineFactors, x: int, y: int, z: int)
    requires m.Valid() && f.xy >= 0 && f.z >= 0 && IsOffsetTriple(f.xy, f.z, x, y, z)
    ensures NeighbourVisit(m, side, c, x, y, z) in CellVisits(m, side, c, f)
  {
    XSweepComplete(m, side, c, f.xy, f.z, -f.xy, x, y, z);
  }

  /** The enumeration visits exactly the offsets `[-b, b] x [-b, b] x [0, bz]`. */
  lemma NeighboursMembers(m: Mesh, side: real, c: Cell3, f: RefineFactors, v: Visit)
    requires m.Valid() && f.xy >= 0 && f.z >= 0
    ensures v in CellVisits(m, side, c, f) <==>
            exists x, y, z :: IsOffsetTriple(f.xy, f.z, x, y, z) && v == NeighbourVisit(m, side, c, x, y, z)
  {
    if v in CellVisits(m, side, c, f) {
      CellVisitsSound(m, side, c, f, v);
    }
    if exists x, y, z :: IsOffsetTriple(f.xy, f.z, x, y, z) && v == NeighbourVisit(m, side, c, x, y, z) {
      var x, y, z :| IsOffsetTriple(f.xy, f.z, x, y, z) && v == NeighbourVisit(m, side, c, x, y, z);
      CellVisitsComplete(m, side, c, f, x, y, z);
    }
  }

  /** A single visit lands in the lattice when the x and y ranges satisfy the range condition. */
  lemma VisitInRange(m: Mesh, side: real, c: Cell3, f: RefineFactors, iix: int, iiy: int, iiz: int)
    requires m.Valid() && InGrid(m, c)
    requires AxisInRange(m.nx, f.xy) && AxisInRange(m.ny, f.xy)
    requires IsOffsetTriple(f.xy, f.z, iix, iiy, iiz)
    ensures 0 <= NeighbourVisit(m, side, c, iix, iiy, iiz).index2 < m.TotalCells()
  {
    WrapAxisInRange(m.nx, f.xy, c.ix, iix);
    WrapAxisInRange(m.ny, f.xy, c.iy, iiy);
    var wz := WrapForward(m.nz, c.iz, iiz);
    FlattenInRange(m, Cell3(WrapAxis(m.nx, c.ix, iix).index, WrapAxis(m.ny, c.iy, iiy).index, wz.index));
  }

  /**
   Every neighbour index lies in `[0, totncells)`, and with a nonnegative box
   size no z offset is positive.
   */
  lemma NeighboursInRange(m: Mesh, side: real, c: Cell3, f: RefineFactors)
    requires m.Valid() && InGrid(m, c) && f.xy >= 0 && f.z >= 0
    requires AxisInRange(m.nx, f.xy) && AxisInRange(m.ny, f.xy)
    ensures forall v :: v in CellVisits(m, side, c, f) ==>
              0 <= v.index2 < m.TotalCells() && (side >= 0.0 ==> v.off.z <= 0.0)
  {
    forall v | v in CellVisits(m, side, c, f)
      ensures 0 <= v.index2 < m.TotalCells() && (side >= 0.0 ==> v.off.z <= 0.0)
    {
      NeighboursMembers(m, side, c, f, v);
      var x, y, z :| IsOffsetTriple(f.xy, f.z, x, y, z) && v == NeighbourVisit(m, side, c, x, y, z);
      VisitInRange(m, side, c, f, x, y, z);
    }
  }

  /**
   A visit decodes to the unwrapped neighbour: the neighbour cell is the raw
   cell `(ix+iix, iy+iiy, iz+iiz)` moved by whole periods `n * s` on each
   axis, and the offset applied to the primary point is `s * side` with the
   same signs s. The z sign is never positive.
   */
  lemma VisitUnwraps(m: Mesh, side: real, c: Cell3, iix: int, iiy: int, iiz: int)
    requires m.Valid() && InGrid(m, c)
    requires -m.nx <= iix <= m.nx && -m.ny <= iiy <= m.ny && 0 <= iiz <= m.nz
    ensures var v := NeighbourVisit(m, side, c, iix, iiy, iiz);
            exists sx, sy, sz ::
              && -1 <= sx <= 1 && -1 <= sy <= 1 && -1 <= sz <= 0
              && (sx != 0 <==> !(0 <= c.ix + iix < m.nx))
              && (sy != 0 <==> !(0 <= c.iy + iiy < m.ny))
              && (sz != 0 <==> c.iz + iiz >= m.nz)
              && 0 <= v.index2 < m.TotalCells()
              && Decode(m, v.index2) == Cell3(c.ix + iix + m.nx * sx, c.iy + iiy + m.ny * sy, c.iz + iiz + m.nz * sz)
              && v.off == Offset(WrapOffset(sx, side), WrapOffset(sy, side), WrapOffset(sz, side))
  {
    var wx := WrapAxis(m.nx, c.ix, iix);
    var wy := WrapAxis(m.ny, c.iy, iiy);
    var wz := WrapForward(m.nz, c.iz, iiz);
    var w := Cell3(wx.index, wy.index, wz.index);
    DecodeFlatten(m, w);
    var v := NeighbourVisit(m, side, c, iix, iiy, iiz);
    assert v.index2 == Flatten(m, w);
    assert w == Cell3(c.ix + iix + m.nx * wx.sign, c.iy + iiy + m.ny * wy.sign, c.iz + iiz + m.nz * wz.sign);
    assert v.off == Offset(WrapOffset(wx.sign, side), WrapOffset(wy.sign, side), WrapOffset(wz.sign, side));
    assert 0 <= v.index2 < m.TotalCells();
    assert Decode(m, v.index2) == w;
  }

  /** Degenerate mesh: with one cell and offset -2 the offset is one period, the true shift two. */
  lemma DegenerateWrapIsShort()
    ensures WrapAxis(1, 0, -2) == AxisStep(0, 1)
    ensures 0 + (-2) + 1 * WrapAxis(1, 0, -2).sign != WrapAxis(1, 0, -2).index
  {
    assert CRem(-1, 1) == 0 by {
      DivUnique(1, 1, 1, 0);
    }
  }

  /** The zero offset visits the primary cell itself, unshifted. */
  lemma SelfVisitIncluded(m: Mesh, side: real, index1: int, f: RefineFactors)
    requires m.Valid() && 0 <= index1 < m.TotalCells() && f.xy >= 0 && f.z >= 0
    ensures Visit(index1, Offset(0.0, 0.0, 0.0)) in CellVisits(m, side, Decode(m, index1), f)
  {
    var c := Decode(m, index1);
    assert NeighbourVisit(m, side, c, 0, 0, 0) == Visit(index1, Offset(0.0, 0.0, 0.0));
    NeighboursMembers(m, side, c, f, Visit(index1, Offset(0.0, 0.0, 0.0)));
    assert IsOffsetTriple(f.xy, f.z, 0, 0, 0);
  }
}
