/** Row-major indices of a grid. */
module GridIndex {

  lemma {:induction false} Scale(a: nat, b: nat, m: nat)
    requires a <= b
    ensures a * m <= b * m
  {
  }

  /** Quotient and remainder are unique. */
  lemma {:induction false} DivMod(m: nat, q: nat, r: nat)
    requires r < m
    ensures (q * m + r) / m == q && (q * m + r) % m == r
  {
    var k := q * m + r;
    var q', r' := k / m, k % m;
    assert k == q' * m + r';
    assert (q - q') * m == r' - r;
    if q > q' { Scale(1, q - q', m); } else if q < q' { Scale(1, q' - q, m); }
  }

  lemma {:induction false} CellInRange(rows: nat, cols: nat, i: nat, j: nat)
    requires i < rows && j < cols
    ensures i * cols + j < rows * cols
  {
    Scale(i + 1, rows, cols);
  }

  lemma {:induction false} RowOfCell(rows: nat, cols: nat, k: nat)
    requires k < rows * cols
    ensures cols > 0 && k / cols < rows && k % cols < cols && (k / cols) * cols + k % cols == k
  {
    if k / cols >= rows { Scale(rows, k / cols, cols); }
  }
}
