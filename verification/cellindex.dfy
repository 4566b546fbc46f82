/**
 The flattened 3-D cell lattice: row-major flattening of (ix, iy, iz) and the
 decoding of a flat cell index back into its three coordinates.
 */
module CellIndex {
  import opened Arith

  /** Lattice dimensions `nmesh_x`, `nmesh_y`, `nmesh_z`. */
  datatype Mesh = Mesh(nx: int, ny: int, nz: int) {
    predicate Valid() {
      nx >= 1 && ny >= 1 && nz >= 1
    }

    /** `totncells`, the number of cells of the lattice. */
    function TotalCells(): int {
      nx * ny * nz
    }
  }

  /** Integer coordinates of one cell of the lattice. */
  datatype Cell3 = Cell3(ix: int, iy: int, iz: int)

  predicate InGrid(m: Mesh, c: Cell3) {
    0 <= c.ix < m.nx && 0 <= c.iy < m.ny && 0 <= c.iz < m.nz
  }

  /** Row-major flat index: z varies fastest, then y, then x. */
  function Flatten(m: Mesh, c: Cell3): int {
    c.iz + m.nz * c.iy + m.nz * m.ny * c.ix
  }

  lemma FlattenInRange(m: Mesh, c: Cell3)
    requires m.Valid()
    ensures InGrid(m, c) ==> 0 <= Flatten(m, c) < m.TotalCells()
  {
    if InGrid(m, c) {
      MulLeMono(m.nz, 0, c.iy);
      MulLeMono(m.nz * m.ny, 0, c.ix);
      MulLeMono(m.nz, c.iy, m.ny - 1);
      MulLeMono(m.nz * m.ny, c.ix, m.nx - 1);
      assert m.nz * (m.ny - 1) == m.nz * m.ny - m.nz;
      assert m.nz * m.ny * (m.nx - 1) == m.nz * m.ny * m.nx - m.nz * m.ny;
      assert m.nz * m.ny * m.nx == m.TotalCells();
    }
  }

  /**
   Decoding of a flat index, written with C's operators exactly as the kernel
   computes it: `iz = index1 % nz`, `ix = index1 / (ny*nz)`,
   `iy = (index1 - iz - ix*nz*ny) / nz`.
   */
  function Decode(m: Mesh, index1: int): (c: Cell3)
    requires m.Valid() && 0 <= index1 < m.TotalCells()
    ensures InGrid(m, c)
    ensures Flatten(m, c) == index1
  {
    var iz := CRem(index1, m.nz);
    var ix := CDiv(index1, m.ny * m.nz);
    var iy := CDiv(index1 - iz - ix * m.nz * m.ny, m.nz);
    DecodeArithmetic(m, index1);
    Cell3(ix, iy, iz)
  }

  lemma DecodeArithmetic(m: Mesh, index1: int)
    requires m.Valid() && 0 <= index1 < m.TotalCells()
    ensures var iz := CRem(index1, m.nz);
            var ix := CDiv(index1, m.ny * m.nz);
            var iy := CDiv(index1 - iz - ix * m.nz * m.ny, m.nz);
            InGrid(m, Cell3(ix, iy, iz)) && Flatten(m, Cell3(ix, iy, iz)) == index1
  {
    var nx, ny, nz := m.nx, m.ny, m.nz;
    var q, iz := index1 / nz, index1 % nz;
    assert index1 == nz * q + iz;
    assert CRem(index1, nz) == iz;
    // q is the index of the (x, y) column, below nx * ny
    assert index1 < nz * (nx * ny) by {
      assert nz * (nx * ny) == m.TotalCells();
    }
    QuotientBelow(index1, nz, nx * ny);
    // ix is q / ny and iy is q % ny
    DivDiv(index1, nz, ny);
    var ix, iy := q / ny, q % ny;
    assert q == ny * ix + iy;
    assert CDiv(index1, ny * nz) == ix;
    QuotientBelow(q, ny, nx);
    assert index1 - iz - ix * nz * ny == nz * iy by {
      assert index1 - iz == nz * q;
      assert nz * q == nz * (ny * ix) + nz * iy;
      assert ix * nz * ny == nz * (ny * ix);
    }
    CDivExact(iy, nz);
    assert Flatten(m, Cell3(ix, iy, iz)) == iz + nz * iy + nz * ny * ix;
    assert nz * ny * ix == nz * (ny * ix);
  }

  /** The column index `iy + ny*ix` and the row index `iz` are determined by the flat index. */
  lemma FlattenSplits(m: Mesh, c: Cell3)
    requires m.Valid() && InGrid(m, c)
    ensures Flatten(m, c) / m.nz == c.iy + m.ny * c.ix && Flatten(m, c) % m.nz == c.iz
    ensures (c.iy + m.ny * c.ix) / m.ny == c.ix && (c.iy + m.ny * c.ix) % m.ny == c.iy
  {
    var col := c.iy + m.ny * c.ix;
    assert Flatten(m, c) == m.nz * col + c.iz by {
      assert m.nz * col == m.nz * c.iy + m.nz * (m.ny * c.ix);
      assert m.nz * m.ny * c.ix == m.nz * (m.ny * c.ix);
    }
    DivUnique(Flatten(m, c), m.nz, col, c.iz);
    DivUnique(col, m.ny, c.ix, c.iy);
  }

  /** Two cells of the lattice with the same flat index are the same cell. */
  lemma FlattenInjective(m: Mesh, c: Cell3, d: Cell3)
    requires m.Valid() && InGrid(m, c) && InGrid(m, d) && Flatten(m, c) == Flatten(m, d)
    ensures c == d
  {
    FlattenSplits(m, c);
    FlattenSplits(m, d);
  }

  /** Flattening then decoding gives back the cell: the two maps are inverse bijections. */
  lemma DecodeFlatten(m: Mesh, c: Cell3)
    requires m.Valid() && InGrid(m, c)
    ensures 0 <= Flatten(m, c) < m.TotalCells()
    ensures Decode(m, Flatten(m, c)) == c
  {
    FlattenInRange(m, c);
    FlattenInjective(m, Decode(m, Flatten(m, c)), c);
  }
}
