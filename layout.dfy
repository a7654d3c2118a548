/** Buffer strides and the dense matrices that the R bridge builds from the
    flat result buffers of the prediction core. */
module Layout {

  /** Offset of cell (row, col) in a buffer that stores `width` cells per row,
      one row after another. */
  function Stride(row: nat, col: nat, width: nat): nat {
    row * width + col
  }

  lemma MulMonotone(a: nat, b: nat, c: nat)
    requires a <= b
    ensures a * c <= b * c
  {
  }

  /** A cell of a `height x width` row-stored buffer lies inside the buffer. */
  lemma StrideBound(row: nat, col: nat, width: nat, height: nat)
    requires row < height && col < width
    ensures Stride(row, col, width) < height * width
  {
    calc {
      Stride(row, col, width);
      < row * width + width;
      == (row + 1) * width;
      <= { MulMonotone(row + 1, height, width); }
      height * width;
    }
  }

  /** Two cells with in-range columns share an offset only if they are the same cell. */
  lemma StrideInjective(r1: nat, c1: nat, r2: nat, c2: nat, width: nat)
    requires c1 < width && c2 < width
    requires Stride(r1, c1, width) == Stride(r2, c2, width)
    ensures r1 == r2 && c1 == c2
  {
    if r1 < r2 {
      StrideBound(r1, c1, width, r2);
      assert false;
    } else if r2 < r1 {
      StrideBound(r2, c2, width, r1);
      assert false;
    }
  }

  /** A cell offset with an in-range column decodes back to its row and
      column. */
  lemma StrideDivMod(row: nat, col: nat, width: nat)
    ensures col < width ==>
      Stride(row, col, width) / width == row && Stride(row, col, width) % width == col
  {
    if col < width {
      var k := Stride(row, col, width);
      var q, r := k / width, k % width;
      assert k == q * width + r && r < width;
      StrideInjective(q, r, row, col, width);
    }
  }

  /** `q * (a / q)` never exceeds `a`: the cells a matrix of `a / q` columns
      takes from a buffer of `a` cells all exist. */
  lemma DivTimesBound(a: nat, q: nat)
    requires q > 0
    ensures q * (a / q) <= a
  {
  }

  /** A dense matrix as the host language sees it: `nRow` rows of `nCol` cells. */
  datatype Matrix<T> = Matrix(nRow: nat, nCol: nat, rows: seq<seq<T>>)

  predicate Shaped<T>(m: Matrix<T>) {
    |m.rows| == m.nRow && forall i :: 0 <= i < m.nRow ==> |m.rows[i]| == m.nCol
  }

  function At<T>(m: Matrix<T>, i: nat, j: nat): T
    requires Shaped(m) && i < m.nRow && j < m.nCol
  {
    m.rows[i][j]
  }

  /** The 0 x 0 matrix. */
  function Empty<T>(): (m: Matrix<T>)
    ensures Shaped(m) && m.nRow == 0 && m.nCol == 0
  {
    Matrix(0, 0, [])
  }

  /** An `nRow x nCol` matrix whose every cell holds `x`. */
  function Filled<T>(nRow: nat, nCol: nat, x: T): (m: Matrix<T>)
    ensures Shaped(m) && m.nRow == nRow && m.nCol == nCol
    ensures forall i, j :: 0 <= i < nRow && 0 <= j < nCol ==> At(m, i, j) == x
  {
    Matrix(nRow, nCol, seq(nRow, _ => seq(nCol, _ => x)))
  }

  /** The matrix built from the first `nRow * nCol` cells of a buffer, filled
      column by column, as a host matrix constructed over a buffer is. */
  function FromColumnMajor<T>(nRow: nat, nCol: nat, buf: seq<T>): (m: Matrix<T>)
    requires nRow * nCol <= |buf|
    ensures Shaped(m) && m.nRow == nRow && m.nCol == nCol
    ensures forall i, j :: 0 <= i < nRow && 0 <= j < nCol ==>
      Stride(j, i, nRow) < |buf| && At(m, i, j) == buf[Stride(j, i, nRow)]
  {
    ColumnMajorInBounds(nRow, nCol, |buf|);
    Matrix(nRow, nCol,
      seq(nRow, (i: int) requires 0 <= i < nRow =>
        seq(nCol, (j: int) requires 0 <= j < nCol => buf[Stride(j, i, nRow)])))
  }

  lemma ColumnMajorInBounds(nRow: nat, nCol: nat, len: nat)
    requires nRow * nCol <= len
    ensures forall i, j :: 0 <= i < nRow && 0 <= j < nCol ==> Stride(j, i, nRow) < len
  {
    forall i, j | 0 <= i < nRow && 0 <= j < nCol
      ensures Stride(j, i, nRow) < len
    {
      StrideBound(j, i, nRow, nCol);
    }
  }

  /** The transpose: cell (i, j) of the result is cell (j, i) of `m`. */
  function Transpose<T>(m: Matrix<T>): (t: Matrix<T>)
    requires Shaped(m)
    ensures Shaped(t) && t.nRow == m.nCol && t.nCol == m.nRow
    ensures forall i, j :: 0 <= i < t.nRow && 0 <= j < t.nCol ==> At(t, i, j) == At(m, j, i)
  {
    Matrix(m.nCol, m.nRow,
      seq(m.nCol, (i: int) requires 0 <= i < m.nCol =>
        seq(m.nRow, (j: int) requires 0 <= j < m.nRow => m.rows[j][i])))
  }

  /** Row `i` of `m`, as a host row selection `m(i, _)` gives it. */
  function Row<T>(m: Matrix<T>, i: nat): (r: seq<T>)
    requires Shaped(m) && i < m.nRow
    ensures |r| == m.nCol && forall j :: 0 <= j < m.nCol ==> r[j] == At(m, i, j)
  {
    m.rows[i]
  }

  /** `m` with row `i` overwritten by `row`, as a host row assignment `m(i, _) = row`. */
  function SetRow<T>(m: Matrix<T>, i: nat, row: seq<T>): (r: Matrix<T>)
    requires Shaped(m) && i < m.nRow && |row| == m.nCol
    ensures Shaped(r) && r.nRow == m.nRow && r.nCol == m.nCol
    ensures forall k, j :: 0 <= k < m.nRow && 0 <= j < m.nCol ==>
      At(r, k, j) == if k == i then row[j] else At(m, k, j)
  {
    m.(rows := m.rows[i := row])
  }

  /** `m` with column `j` overwritten by `col`, as a host column assignment. */
  function SetCol<T>(m: Matrix<T>, j: nat, col: seq<T>): (r: Matrix<T>)
    requires Shaped(m) && j < m.nCol && |col| == m.nRow
    ensures Shaped(r) && r.nRow == m.nRow && r.nCol == m.nCol
    ensures forall i, k :: 0 <= i < m.nRow && 0 <= k < m.nCol ==>
      At(r, i, k) == if k == j then col[i] else At(m, i, k)
  {
    m.(rows := seq(m.nRow, (i: int) requires 0 <= i < m.nRow => m.rows[i][j := col[i]]))
  }
}
