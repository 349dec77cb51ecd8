/** Blocked matrices: sets of keyed blocks and the operations the linear-algebra language runs on them. */
module LaBlocks {
  import opened ChunkLoader
  import opened GridIndex

  /** Block size and number of blocks in each direction. */
  datatype Dim = Dim(rs: nat, cs: nat, rn: nat, cn: nat)

  /** A block: its key in the grid, its size, the size of the whole matrix, and its cells in row-major order. */
  datatype MatrixBlock = MatrixBlock(bi: nat, bj: nat, rows: nat, cols: nat, totalRows: nat, totalCols: nat, data: seq<real>)

  /** An ordinary matrix, as a function of row and column. */
  type Matrix = (int, int) -> real

  predicate SameKey(a: MatrixBlock, b: MatrixBlock) { a.bi == b.bi && a.bj == b.bj }

  // ---------- what a set of blocks represents ----------

  function CellAt(s: seq<real>, k: int): (v: real) { if 0 <= k < |s| then s[k] else 0.0 }

  /** The cell (ii, jj) of a block of `cols` columns. */
  function Cell(data: seq<real>, cols: int, ii: int, jj: int): (v: real) { CellAt(data, ii * cols + jj) }

  /** The block holds exactly its part of the matrix. */
  ghost predicate BlockShows(b: MatrixBlock, d: Dim, m: Matrix) {
    && b.bi < d.rn && b.bj < d.cn && BlockSized(b, d) && b.totalRows == d.rn * d.rs && b.totalCols == d.cn * d.cs
    && forall ii, jj :: 0 <= ii < d.rs && 0 <= jj < d.cs ==> Cell(b.data, d.cs, ii, jj) == m(b.bi * d.rs + ii, b.bj * d.cs + jj)
  }

  predicate BlockSized(b: MatrixBlock, d: Dim) { b.rows == d.rs && b.cols == d.cs && |b.data| == d.rs * d.cs }

  ghost predicate UniqueKeys(bs: seq<MatrixBlock>) {
    forall p, q :: 0 <= p < q < |bs| ==> !SameKey(bs[p], bs[q])
  }

  ghost predicate HasKey(bs: seq<MatrixBlock>, i: nat, j: nat) {
    exists p :: 0 <= p < |bs| && bs[p].bi == i && bs[p].bj == j
  }

  /** A complete grid of dimension `d` with one block per key whose flattened form is `m`. */
  ghost predicate Represents(bs: seq<MatrixBlock>, d: Dim, m: Matrix) {
    && (forall p :: 0 <= p < |bs| ==> BlockShows(bs[p], d, m))
    && UniqueKeys(bs)
    && forall i: nat, j: nat :: i < d.rn && j < d.cn ==> HasKey(bs, i, j)
  }

  lemma {:induction false} RepresentsSame(bs: seq<MatrixBlock>, d: Dim, m: Matrix, n: Matrix)
    requires Represents(bs, d, m) && forall r: int, c: int :: m(r, c) == n(r, c)
    ensures Represents(bs, d, n)
  {
    forall p | 0 <= p < |bs| ensures BlockShows(bs[p], d, n) { assert BlockShows(bs[p], d, m); }
  }

  /** Every block has the size the dimension says. */
  ghost predicate Sized(bs: seq<MatrixBlock>, d: Dim) {
    forall p :: 0 <= p < |bs| ==> BlockSized(bs[p], d)
  }

  lemma {:induction false} RepresentedIsSized(bs: seq<MatrixBlock>, d: Dim, m: Matrix)
    requires Represents(bs, d, m)
    ensures Sized(bs, d)
  {
    forall p | 0 <= p < |bs| ensures BlockSized(bs[p], d) { assert BlockShows(bs[p], d, m); }
  }

  lemma {:induction false} CellOf(b: MatrixBlock, d: Dim, m: Matrix, ii: nat, jj: nat)
    requires BlockShows(b, d, m) && ii < d.rs && jj < d.cs
    ensures ii * d.cs + jj < |b.data| && b.data[ii * d.cs + jj] == m(b.bi * d.rs + ii, b.bj * d.cs + jj)
  {
    CellInRange(d.rs, d.cs, ii, jj);
    assert Cell(b.data, d.cs, ii, jj) == m(b.bi * d.rs + ii, b.bj * d.cs + jj);
  }

  /** Flattening: the cell (r, c) of the matrix is found in the block of its key and nowhere else. */
  lemma {:induction false} FlattenedCell(bs: seq<MatrixBlock>, d: Dim, m: Matrix, r: nat, c: nat) returns (p: nat)
    requires Represents(bs, d, m) && r < d.rn * d.rs && c < d.cn * d.cs
    ensures d.rs > 0 && d.cs > 0 && p < |bs| && bs[p].bi == r / d.rs && bs[p].bj == c / d.cs
    ensures (r % d.rs) * d.cs + c % d.cs < |bs[p].data|
    ensures bs[p].data[(r % d.rs) * d.cs + c % d.cs] == m(r, c)
    ensures forall q :: 0 <= q < |bs| && q != p ==> !(bs[q].bi == bs[p].bi && bs[q].bj == bs[p].bj)
  {
    RowOfCell(d.rn, d.rs, r);
    RowOfCell(d.cn, d.cs, c);
    assert HasKey(bs, r / d.rs, c / d.cs);
    p :| 0 <= p < |bs| && bs[p].bi == r / d.rs && bs[p].bj == c / d.cs;
    CellOf(bs[p], d, m, r % d.rs, c % d.cs);
    forall q | 0 <= q < |bs| && q != p ensures !(bs[q].bi == bs[p].bi && bs[q].bj == bs[p].bj) {
      assert !SameKey(bs[if q < p then q else p], bs[if q < p then p else q]);
    }
  }

  // ---------- filling one block ----------

  /** Different cells have different places. */
  lemma {:induction false} PlacesDiffer(cs: nat, i: nat, j: nat, ii: nat, jj: nat)
    requires j < cs && jj < cs && (i != ii || j != jj)
    ensures i * cs + j != ii * cs + jj
  {
    if i < ii { CellInRange(ii, cs, i, j); } else if ii < i { CellInRange(i, cs, ii, jj); }
  }

  /** The rows above `ii` and the first `jj` cells of row `ii` are written. */
  ghost predicate Filled(raw: seq<real>, cs: nat, cell: (int, int) -> real, ii: nat, jj: nat) {
    && (forall i, j :: 0 <= i < ii && 0 <= j < cs ==> Cell(raw, cs, i, j) == cell(i, j))
    && forall j :: 0 <= j < jj ==> Cell(raw, cs, ii, j) == cell(ii, j)
  }

  lemma {:induction false} OtherCell(raw: seq<real>, cs: nat, i: nat, j: nat, ii: nat, jj: nat, v: real)
    requires j < cs && jj < cs && (i != ii || j != jj) && ii * cs + jj < |raw|
    ensures Cell(raw[ii * cs + jj := v], cs, i, j) == Cell(raw, cs, i, j)
  {
    PlacesDiffer(cs, i, j, ii, jj);
  }

  lemma {:induction false} FillOne(raw: seq<real>, cs: nat, cell: (int, int) -> real, ii: nat, jj: nat, v: real, next: seq<real>)
    requires jj < cs && Filled(raw, cs, cell, ii, jj) && v == cell(ii, jj)
    requires ii * cs + jj < |raw| && next == raw[ii * cs + jj := v]
    ensures Filled(next, cs, cell, ii, jj + 1)
  {
    forall i, j | 0 <= i < ii && 0 <= j < cs ensures Cell(next, cs, i, j) == cell(i, j) {
      OtherCell(raw, cs, i, j, ii, jj, v);
    }
    forall j | 0 <= j < jj + 1 ensures Cell(next, cs, ii, j) == cell(ii, j) {
      if j < jj { OtherCell(raw, cs, ii, j, ii, jj, v); }
    }
  }

  /** The two inner loops every operation uses: cell (ii, jj) is written at ii * cs + jj. */
  method FillCells(rs: nat, cs: nat, cell: (int, int) -> real) returns (raw: seq<real>)
    ensures |raw| == rs * cs
    ensures forall ii, jj :: 0 <= ii < rs && 0 <= jj < cs ==> Cell(raw, cs, ii, jj) == cell(ii, jj)
  {
    raw := seq(rs * cs, _ => 0.0);
    for ii := 0 to rs
      invariant |raw| == rs * cs && Filled(raw, cs, cell, ii, 0)
    {
      for jj := 0 to cs
        invariant |raw| == rs * cs && Filled(raw, cs, cell, ii, jj)
      {
        CellInRange(rs, cs, ii, jj);
        FillOne(raw, cs, cell, ii, jj, cell(ii, jj), raw[ii * cs + jj := cell(ii, jj)]);
        raw := raw[ii * cs + jj := cell(ii, jj)];
      }
    }
  }

  // ---------- grids written in row-major order ----------

  ghost predicate RowMajor(bs: seq<MatrixBlock>, d: Dim, m: Matrix) {
    forall p :: 0 <= p < |bs| ==> d.cn != 0 && bs[p].bi == p / d.cn && bs[p].bj == p % d.cn && BlockShows(bs[p], d, m)
  }

  lemma {:induction false} RowMajorRepresents(bs: seq<MatrixBlock>, d: Dim, m: Matrix)
    requires RowMajor(bs, d, m) && |bs| == d.rn * d.cn
    ensures Represents(bs, d, m)
  {
    forall p, q | 0 <= p < q < |bs| ensures !SameKey(bs[p], bs[q]) {
      RowOfCell(d.rn, d.cn, p);
      RowOfCell(d.rn, d.cn, q);
    }
    forall i: nat, j: nat | i < d.rn && j < d.cn ensures HasKey(bs, i, j) {
      CellInRange(d.rn, d.cn, i, j);
      DivMod(d.cn, i, j);
      var p := i * d.cn + j;
      assert bs[p].bi == i && bs[p].bj == j;
    }
  }

  datatype Init = ZerosInit | OnesInit | IdentityInit

  function InitialMatrix(k: Init): (m: Matrix) {
    match k
    case ZerosInit => (r: int, c: int) => 0.0
    case OnesInit => (r: int, c: int) => 1.0
    case IdentityInit => (r: int, c: int) => if r == c then 1.0 else 0.0
  }

  /** The dispatch loop of the initializers. `space[i]` is how many blocks fit into the i-th allocation
      block; whatever it is, each block is sent once and in order, and once all are sent the set is the
      matrix. The identity is only ever asked for with square blocks. */
  method Dispatch(kind: Init, d: Dim, space: seq<nat>) returns (sent: seq<MatrixBlock>, done: bool)
    requires kind == IdentityInit ==> d.rs == d.cs
    ensures RowMajor(sent, d, InitialMatrix(kind)) && |sent| <= d.rn * d.cn
    ensures done <==> |sent| == d.rn * d.cn
    ensures done <==> d.rn * d.cn <= Total(space)
    ensures done ==> Represents(sent, d, InitialMatrix(kind))
  {
    var total, written, attempt := d.rn * d.cn, 0, 0;
    sent := [];
    while written < total && attempt < |space|
      invariant written == |sent| <= total && attempt <= |space|
      invariant written == if Total(space[..attempt]) <= total then Total(space[..attempt]) else total
      invariant RowMajor(sent, d, InitialMatrix(kind))
    {
      var store := [];
      assert space[..attempt + 1][..attempt] == space[..attempt];
      while written < total && |store| < space[attempt]
        invariant written == |sent| + |store| <= total && |store| <= space[attempt]
        invariant RowMajor(sent + store, d, InitialMatrix(kind))
      {
        var b := InitBlock(kind, d, written);
        assert sent + (store + [b]) == (sent + store) + [b];
        store := store + [b];
        written := written + 1;
      }
      sent := sent + store;
      attempt := attempt + 1;
    }
    done := written == total;
    TotalMonotone(space, attempt);
    assert space[..|space|] == space;
    if done { RowMajorRepresents(sent, d, InitialMatrix(kind)); }
  }

  /** The value an initializer writes at cell (ii, jj) of block (i, j). */
  function InitCell(kind: Init, i: nat, j: nat): (f: (int, int) -> real) {
    (ii: int, jj: int) =>
      if kind == IdentityInit then (if i == j && ii == jj then 1.0 else 0.0)
      else if kind == OnesInit then 1.0 else 0.0
  }

  method InitBlock(kind: Init, d: Dim, written: nat) returns (b: MatrixBlock)
    requires written < d.rn * d.cn && (kind == IdentityInit ==> d.rs == d.cs)
    ensures d.cn != 0 && b.bi == written / d.cn && b.bj == written % d.cn
    ensures BlockShows(b, d, InitialMatrix(kind))
  {
    RowOfCell(d.rn, d.cn, written);
    var i, j := written / d.cn, written % d.cn;
    var raw := FillCells(d.rs, d.cs, InitCell(kind, i, j));
    b := MatrixBlock(i, j, d.rs, d.cs, d.rn * d.rs, d.cn * d.cs, raw);
    InitBlockShows(kind, d, b);
  }

  lemma {:induction false} InitBlockShows(kind: Init, d: Dim, b: MatrixBlock)
    requires kind == IdentityInit ==> d.rs == d.cs
    requires b.bi < d.rn && b.bj < d.cn && BlockSized(b, d) && b.totalRows == d.rn * d.rs && b.totalCols == d.cn * d.cs
    requires forall ii, jj :: 0 <= ii < d.rs && 0 <= jj < d.cs ==> Cell(b.data, d.cs, ii, jj) == InitCell(kind, b.bi, b.bj)(ii, jj)
    ensures BlockShows(b, d, InitialMatrix(kind))
  {
    forall ii, jj | 0 <= ii < d.rs && 0 <= jj < d.cs
      ensures Cell(b.data, d.cs, ii, jj) == InitialMatrix(kind)(b.bi * d.rs + ii, b.bj * d.cs + jj)
    {
      if kind == IdentityInit { DiagonalCell(d.rs, b.bi, ii, b.bj, jj); }
    }
  }

  lemma {:induction false} DiagonalCell(n: nat, i: nat, ii: nat, j: nat, jj: nat)
    requires ii < n && jj < n
    ensures i * n + ii == j * n + jj <==> i == j && ii == jj
  {
    DivMod(n, i, ii);
    DivMod(n, j, jj);
  }

  /** The cells of block (i, j) in a matrix. */
  function PartOf(m: Matrix, d: Dim, i: nat, j: nat): (cell: (int, int) -> real) {
    (ii: int, jj: int) => m(i * d.rs + ii, j * d.cs + jj)
  }

  /** The cell `split` reads for (ii, jj): it is inside the large matrix. */
  method SplitCell(large: seq<real>, d: Dim, i: nat, j: nat, ii: nat, jj: nat) returns (value: real)
    requires |large| == (d.rn * d.rs) * (d.cn * d.cs) && i < d.rn && j < d.cn && ii < d.rs && jj < d.cs
    ensures value == RowMajorCells(large, d.cn * d.cs)(i * d.rs + ii, j * d.cs + jj)
  {
    var totalCols, row, col := d.cn * d.cs, i * d.rs + ii, j * d.cs + jj;
    CellInRange(d.rn, d.rs, i, ii);
    CellInRange(d.cn, d.cs, j, jj);
    CellInRange(d.rn * d.rs, totalCols, row, col);
    value := large[row * totalCols + col];
  }

  /** One block of the split. */
  method SplitBlock(large: seq<real>, d: Dim, i: nat, j: nat) returns (b: MatrixBlock)
    requires |large| == (d.rn * d.rs) * (d.cn * d.cs) && i < d.rn && j < d.cn
    ensures b.bi == i && b.bj == j && BlockShows(b, d, RowMajorCells(large, d.cn * d.cs))
  {
    ghost var m := RowMajorCells(large, d.cn * d.cs);
    ghost var cell := PartOf(m, d, i, j);
    var raw := seq(d.rs * d.cs, _ => 0.0);
    for ii := 0 to d.rs
      invariant |raw| == d.rs * d.cs && Filled(raw, d.cs, cell, ii, 0)
    {
      for jj := 0 to d.cs
        invariant |raw| == d.rs * d.cs && Filled(raw, d.cs, cell, ii, jj)
      {
        var value := SplitCell(large, d, i, j, ii, jj);
        CellInRange(d.rs, d.cs, ii, jj);
        FillOne(raw, d.cs, cell, ii, jj, value, raw[ii * d.cs + jj := value]);
        raw := raw[ii * d.cs + jj := value];
      }
    }
    b := MatrixBlock(i, j, d.rs, d.cs, d.rn * d.rs, d.cn * d.cs, raw);
    PartIsShown(b, d, m);
  }

  lemma {:induction false} PartIsShown(b: MatrixBlock, d: Dim, m: Matrix)
    requires b.bi < d.rn && b.bj < d.cn && BlockSized(b, d) && b.totalRows == d.rn * d.rs && b.totalCols == d.cn * d.cs
    requires forall ii, jj :: 0 <= ii < d.rs && 0 <= jj < d.cs ==> Cell(b.data, d.cs, ii, jj) == PartOf(m, d, b.bi, b.bj)(ii, jj)
    ensures BlockShows(b, d, m)
  {
  }

  /** `LAInverse3MultiSelection::split`: a large matrix in row-major order is cut into its block grid. */
  method Split(large: seq<real>, d: Dim) returns (result: seq<MatrixBlock>)
    requires |large| == (d.rn * d.rs) * (d.cn * d.cs)
    ensures Represents(result, d, RowMajorCells(large, d.cn * d.cs))
  {
    var totalCols := d.cn * d.cs;
    ghost var m := RowMajorCells(large, totalCols);
    result := [];
    for i := 0 to d.rn
      invariant |result| == i * d.cn && RowMajor(result, d, m)
    {
      for j := 0 to d.cn
        invariant |result| == i * d.cn + j && RowMajor(result, d, m)
      {
        var b := SplitBlock(large, d, i, j);
        DivMod(d.cn, i, j);
        result := result + [b];
      }
      assert (i + 1) * d.cn == i * d.cn + d.cn;
    }
    RowMajorRepresents(result, d, m);
  }

  function RowMajorCells(large: seq<real>, cols: nat): (m: Matrix) {
    (r: int, c: int) => CellAt(large, r * cols + c)
  }
}
