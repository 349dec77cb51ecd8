/** The block operations of the linear-algebra language: joins on the block key and duplication of vectors. */
module LaOperations {
  import opened GridIndex
  import opened LaBlocks

  type Op = (real, real) -> real

  function Pointwise(f: Op, m1: Matrix, m2: Matrix): (m: Matrix) {
    (r: int, c: int) => f(m1(r, c), m2(r, c))
  }

  // ---------- joins ----------

  /** The projection of a join; it exits unless the two blocks have the same size. */
  function Combine(f: Op, a: MatrixBlock, b: MatrixBlock): (r: MatrixBlock)
    requires |a.data| == |b.data|
  {
    MatrixBlock(a.bi, a.bj, a.rows, a.cols, a.totalRows, b.totalCols,
      seq(|a.data|, k requires 0 <= k < |a.data| => f(a.data[k], b.data[k])))
  }

  predicate SameSizes(left: seq<MatrixBlock>, right: seq<MatrixBlock>) {
    forall p, q :: 0 <= p < |left| && 0 <= q < |right| ==> |left[p].data| == |right[q].data|
  }

  function JoinOne(f: Op, a: MatrixBlock, right: seq<MatrixBlock>): (r: seq<MatrixBlock>)
    requires SameSizes([a], right)
  {
    if right == [] then []
    else
      var b := right[|right| - 1];
      assert |[a][0].data| == |b.data|;
      var hit := if SameKey(a, b) then [Combine(f, a, b)] else [];
      JoinOne(f, a, right[..|right| - 1]) + hit
  }

  /** All pairs with equal keys. */
  function Join(f: Op, left: seq<MatrixBlock>, right: seq<MatrixBlock>): (r: seq<MatrixBlock>)
    requires SameSizes(left, right)
  {
    if left == [] then []
    else Join(f, left[..|left| - 1], right) + JoinOne(f, left[|left| - 1], right)
  }

  lemma {:induction false} JoinOneMiss(f: Op, a: MatrixBlock, right: seq<MatrixBlock>)
    requires SameSizes([a], right) && forall q :: 0 <= q < |right| ==> !SameKey(a, right[q])
    ensures JoinOne(f, a, right) == []
  {
    if right != [] { JoinOneMiss(f, a, right[..|right| - 1]); }
  }

  lemma {:induction false} JoinOneHit(f: Op, a: MatrixBlock, right: seq<MatrixBlock>, q: nat)
    requires SameSizes([a], right) && UniqueKeys(right) && q < |right| && SameKey(a, right[q])
    ensures |a.data| == |right[q].data| && JoinOne(f, a, right) == [Combine(f, a, right[q])]
  {
    assert |[a][0].data| == |right[q].data|;
    var init := right[..|right| - 1];
    if q == |right| - 1 {
      forall p | 0 <= p < |init| ensures !SameKey(a, init[p]) { assert !SameKey(right[p], right[q]); }
      JoinOneMiss(f, a, init);
    } else {
      JoinOneHit(f, a, init, q);
      assert !SameKey(right[q], right[|right| - 1]);
    }
  }

  lemma {:induction false} CombineShows(f: Op, a: MatrixBlock, b: MatrixBlock, d: Dim, m1: Matrix, m2: Matrix)
    requires BlockShows(a, d, m1) && BlockShows(b, d, m2) && SameKey(a, b)
    ensures BlockShows(Combine(f, a, b), d, Pointwise(f, m1, m2))
  {
    var c := Combine(f, a, b);
    forall ii, jj | 0 <= ii < d.rs && 0 <= jj < d.cs
      ensures Cell(c.data, d.cs, ii, jj) == Pointwise(f, m1, m2)(c.bi * d.rs + ii, c.bj * d.cs + jj)
    {
      CellOf(a, d, m1, ii, jj);
      CellOf(b, d, m2, ii, jj);
    }
  }

  lemma {:induction false} JoinShows(f: Op, left: seq<MatrixBlock>, right: seq<MatrixBlock>, d: Dim, m1: Matrix, m2: Matrix)
    requires forall p :: 0 <= p < |left| ==> BlockShows(left[p], d, m1)
    requires Represents(right, d, m2) && SameSizes(left, right)
    ensures |Join(f, left, right)| == |left|
    ensures forall p :: 0 <= p < |left| ==>
              SameKey(Join(f, left, right)[p], left[p]) && BlockShows(Join(f, left, right)[p], d, Pointwise(f, m1, m2))
  {
    if left != [] {
      var init, a := left[..|left| - 1], left[|left| - 1];
      JoinShows(f, init, right, d, m1, m2);
      assert BlockShows(a, d, m1);
      assert SameSizes([a], right);
      JoinOneShows(f, a, right, d, m1, m2);
    }
  }

  lemma {:induction false} JoinOneShows(f: Op, a: MatrixBlock, right: seq<MatrixBlock>, d: Dim, m1: Matrix, m2: Matrix)
    requires BlockShows(a, d, m1) && Represents(right, d, m2) && SameSizes([a], right)
    ensures |JoinOne(f, a, right)| == 1
    ensures SameKey(JoinOne(f, a, right)[0], a) && BlockShows(JoinOne(f, a, right)[0], d, Pointwise(f, m1, m2))
  {
    assert HasKey(right, a.bi, a.bj);
    var q :| 0 <= q < |right| && right[q].bi == a.bi && right[q].bj == a.bj;
    assert BlockShows(right[q], d, m2);
    JoinOneHit(f, a, right, q);
    CombineShows(f, a, right[q], d, m1, m2);
  }

  lemma {:induction false} SizedMeet(left: seq<MatrixBlock>, right: seq<MatrixBlock>, d: Dim)
    requires Sized(left, d) && Sized(right, d)
    ensures SameSizes(left, right)
  {
    forall p, q | 0 <= p < |left| && 0 <= q < |right| ensures |left[p].data| == |right[q].data| {
      assert BlockSized(left[p], d) && BlockSized(right[q], d);
    }
  }

  lemma {:induction false} JoinOneSized(f: Op, a: MatrixBlock, right: seq<MatrixBlock>, d: Dim)
    requires BlockSized(a, d) && SameSizes([a], right)
    ensures Sized(JoinOne(f, a, right), d)
  {
    if right != [] {
      assert |[a][0].data| == |right[|right| - 1].data|;
      JoinOneSized(f, a, right[..|right| - 1], d);
    }
  }

  lemma {:induction false} JoinSized(f: Op, left: seq<MatrixBlock>, right: seq<MatrixBlock>, d: Dim)
    requires Sized(left, d) && SameSizes(left, right)
    ensures Sized(Join(f, left, right), d)
  {
    if left != [] {
      assert BlockSized(left[|left| - 1], d);
      JoinSized(f, left[..|left| - 1], right, d);
      JoinOneSized(f, left[|left| - 1], right, d);
    }
  }

  /** Joining two grids of one dimension on the key is the pointwise operation on the matrices. */
  lemma {:induction false} JoinRepresents(f: Op, left: seq<MatrixBlock>, right: seq<MatrixBlock>, d: Dim, m1: Matrix, m2: Matrix)
    requires Represents(left, d, m1) && Represents(right, d, m2)
    ensures SameSizes(left, right) && Represents(Join(f, left, right), d, Pointwise(f, m1, m2))
  {
    RepresentedIsSized(left, d, m1);
    RepresentedIsSized(right, d, m2);
    SizedMeet(left, right, d);
    JoinShows(f, left, right, d, m1, m2);
    SameKeysRepresent(left, Join(f, left, right), d);
  }

  lemma {:induction false} SameKeysRepresent(bs: seq<MatrixBlock>, cs: seq<MatrixBlock>, d: Dim)
    requires |cs| == |bs| && (forall p :: 0 <= p < |bs| ==> SameKey(cs[p], bs[p])) && UniqueKeys(bs)
    requires forall i: nat, j: nat :: i < d.rn && j < d.cn ==> HasKey(bs, i, j)
    ensures UniqueKeys(cs) && forall i: nat, j: nat :: i < d.rn && j < d.cn ==> HasKey(cs, i, j)
  {
    forall p, q | 0 <= p < q < |cs| ensures !SameKey(cs[p], cs[q]) {
      assert SameKey(cs[p], bs[p]) && SameKey(cs[q], bs[q]) && !SameKey(bs[p], bs[q]);
    }
    forall i: nat, j: nat | i < d.rn && j < d.cn ensures HasKey(cs, i, j) {
      assert HasKey(bs, i, j);
      var p :| 0 <= p < |bs| && bs[p].bi == i && bs[p].bj == j;
      assert SameKey(cs[p], bs[p]);
    }
  }

  // ---------- duplication ----------

  function FirstRow(m: Matrix): (r: Matrix) { (r: int, c: int) => m(0, c) }

  function FirstColumn(m: Matrix): (r: Matrix) { (r: int, c: int) => m(r, 0) }

  function RowCell(data: seq<real>): (f: (int, int) -> real) { (ii: int, jj: int) => CellAt(data, jj) }

  function ColumnCell(data: seq<real>): (f: (int, int) -> real) { (ii: int, jj: int) => CellAt(data, ii) }

  /** `duplicateRow` of one block: one copy for each block row of the target. */
  method DuplicateRow(b: MatrixBlock, t: Dim) returns (result: seq<MatrixBlock>)
    ensures RowCopiesOfOne(result, b, t)
  {
    var raw := FillCells(t.rs, b.cols, RowCell(b.data));
    result := [];
    for i := 0 to t.rn
      invariant |result| == i && forall p :: 0 <= p < i ==> result[p].bi == p && IsRowCopy(result[p], b, t)
    {
      result := result + [MatrixBlock(i, b.bj, t.rs, b.cols, t.rn * t.rs, b.totalCols, raw)];
    }
  }

  ghost predicate IsRowCopy(r: MatrixBlock, b: MatrixBlock, t: Dim) {
    && r.bj == b.bj && r.rows == t.rs && r.cols == b.cols && r.totalRows == t.rn * t.rs && r.totalCols == b.totalCols
    && |r.data| == t.rs * b.cols
    && forall ii, jj :: 0 <= ii < t.rs && 0 <= jj < b.cols ==> Cell(r.data, b.cols, ii, jj) == CellAt(b.data, jj)
  }

  /** One copy of `b` for each block row of the target. */
  ghost predicate RowCopiesOfOne(copies: seq<MatrixBlock>, b: MatrixBlock, t: Dim) {
    |copies| == t.rn && forall i :: 0 <= i < t.rn ==> copies[i].bi == i && IsRowCopy(copies[i], b, t)
  }

  /** The copies of the blocks of `bs`, block by block. */
  ghost predicate RowCopies(bs: seq<MatrixBlock>, result: seq<MatrixBlock>, t: Dim) {
    if bs == [] then result == []
    else
      var n := |result| - t.rn;
      n >= 0 && RowCopies(bs[..|bs| - 1], result[..n], t) && RowCopiesOfOne(result[n..], bs[|bs| - 1], t)
  }

  lemma {:induction false} RowCopiesSnoc(bs: seq<MatrixBlock>, result: seq<MatrixBlock>, b: MatrixBlock, more: seq<MatrixBlock>, t: Dim)
    requires RowCopies(bs, result, t) && RowCopiesOfOne(more, b, t)
    ensures RowCopies(bs + [b], result + more, t)
  {
    assert (bs + [b])[..|bs|] == bs && (result + more)[..|result|] == result && (result + more)[|result|..] == more;
  }

  /** The multi-selection over the whole set. */
  method DuplicateRows(bs: seq<MatrixBlock>, t: Dim) returns (result: seq<MatrixBlock>)
    ensures RowCopies(bs, result, t)
  {
    result := [];
    for p := 0 to |bs|
      invariant RowCopies(bs[..p], result, t)
    {
      var more := DuplicateRow(bs[p], t);
      RowCopiesSnoc(bs[..p], result, bs[p], more, t);
      assert bs[..p + 1] == bs[..p] + [bs[p]];
      result := result + more;
    }
    assert bs[..|bs|] == bs;
  }

  lemma {:induction false} RowCopyOne(copies: seq<MatrixBlock>, b: MatrixBlock, t: Dim, i: nat)
    requires RowCopiesOfOne(copies, b, t) && i < t.rn
    ensures i < |copies| && copies[i].bi == i && copies[i].bj == b.bj && IsRowCopy(copies[i], b, t)
  {
  }

  lemma {:induction false} RowCopiesSplit(bs: seq<MatrixBlock>, result: seq<MatrixBlock>, t: Dim, n: int)
    requires bs != [] && RowCopies(bs, result, t) && n == |result| - t.rn
    ensures 0 <= n && RowCopies(bs[..|bs| - 1], result[..n], t) && RowCopiesOfOne(result[n..], bs[|bs| - 1], t)
  {
  }

  /** The block a copy was made from. */
  lemma {:induction false} RowCopySource(bs: seq<MatrixBlock>, result: seq<MatrixBlock>, t: Dim, q: nat) returns (x: nat)
    requires RowCopies(bs, result, t) && q < |result|
    ensures x < |bs| && result[q].bi < t.rn && IsRowCopy(result[q], bs[x], t)
  {
    var n := |result| - t.rn;
    RowCopiesSplit(bs, result, t, n);
    if q < n {
      x := RowCopySource(bs[..|bs| - 1], result[..n], t, q);
    } else {
      x := |bs| - 1;
      RowCopyOne(result[n..], bs[x], t, q - n);
    }
  }

  /** Where a copy of a block stands. */
  lemma {:induction false} RowCopyPlace(bs: seq<MatrixBlock>, result: seq<MatrixBlock>, t: Dim, x: nat, i: nat) returns (q: nat)
    requires RowCopies(bs, result, t) && x < |bs| && i < t.rn
    ensures q < |result| && result[q].bi == i && result[q].bj == bs[x].bj
  {
    var n := |result| - t.rn;
    RowCopiesSplit(bs, result, t, n);
    if x < |bs| - 1 {
      q := RowCopyPlace(bs[..|bs| - 1], result[..n], t, x, i);
    } else {
      q := n + i;
      RowCopyOne(result[n..], bs[x], t, i);
    }
  }

  lemma {:induction false} RowCopyShows(r: MatrixBlock, b: MatrixBlock, d: Dim, t: Dim, m: Matrix)
    requires BlockShows(b, d, m) && d.rn == 1 && d.rs >= 1 && t.cs == d.cs && t.cn == d.cn
    requires IsRowCopy(r, b, t) && r.bi < t.rn
    ensures BlockShows(r, t, FirstRow(m))
  {
    forall ii, jj | 0 <= ii < t.rs && 0 <= jj < t.cs
      ensures Cell(r.data, t.cs, ii, jj) == FirstRow(m)(r.bi * t.rs + ii, r.bj * t.cs + jj)
    {
      CellOf(b, d, m, 0, jj);
    }
  }

  lemma {:induction false} RowCopiesUnique(bs: seq<MatrixBlock>, result: seq<MatrixBlock>, t: Dim)
    requires UniqueKeys(bs) && (forall x :: 0 <= x < |bs| ==> bs[x].bi == 0) && RowCopies(bs, result, t)
    ensures UniqueKeys(result)
  {
    if bs != [] {
      var n, init := |result| - t.rn, bs[..|bs| - 1];
      RowCopiesUnique(init, result[..n], t);
      forall p, q | 0 <= p < q < |result| ensures !SameKey(result[p], result[q]) {
        if q < n {
          assert !SameKey(result[..n][p], result[..n][q]);
        } else {
          RowCopiesApart(bs, result, t, p, q);
        }
      }
    }
  }

  /** A copy of the last block differs in its key from every copy before it. */
  lemma {:induction false} RowCopiesApart(bs: seq<MatrixBlock>, result: seq<MatrixBlock>, t: Dim, p: nat, q: nat)
    requires UniqueKeys(bs) && (forall x :: 0 <= x < |bs| ==> bs[x].bi == 0) && bs != [] && RowCopies(bs, result, t)
    requires |result| - t.rn <= q < |result| && p < q
    ensures !SameKey(result[p], result[q])
  {
    var n := |result| - t.rn;
    RowCopiesSplit(bs, result, t, n);
    RowCopyOne(result[n..], bs[|bs| - 1], t, q - n);
    if p < n {
      var x := RowCopySource(bs[..|bs| - 1], result[..n], t, p);
      assert !SameKey(bs[x], bs[|bs| - 1]);
    } else {
      RowCopyOne(result[n..], bs[|bs| - 1], t, p - n);
    }
  }

  lemma {:induction false} RowCopiesComplete(bs: seq<MatrixBlock>, result: seq<MatrixBlock>, t: Dim, i: nat, j: nat)
    requires HasKey(bs, 0, j) && RowCopies(bs, result, t) && i < t.rn
    ensures HasKey(result, i, j)
  {
    var x :| 0 <= x < |bs| && bs[x].bi == 0 && bs[x].bj == j;
    var q := RowCopyPlace(bs, result, t, x, i);
  }

  lemma {:induction false} RowCopiesSized(bs: seq<MatrixBlock>, result: seq<MatrixBlock>, d: Dim, t: Dim)
    requires Sized(bs, d) && RowCopies(bs, result, t) && t.cs == d.cs
    ensures Sized(result, t)
  {
    forall q | 0 <= q < |result| ensures BlockSized(result[q], t) {
      var x := RowCopySource(bs, result, t, q);
      assert BlockSized(bs[x], d);
    }
  }

  /** On a single block row, duplication repeats the first row of the matrix over the target dimension. */
  lemma {:induction false} DuplicateRowsRepresent(bs: seq<MatrixBlock>, result: seq<MatrixBlock>, d: Dim, t: Dim, m: Matrix)
    requires Represents(bs, d, m) && d.rn == 1 && d.rs >= 1 && t.cs == d.cs && t.cn == d.cn
    requires RowCopies(bs, result, t)
    ensures Represents(result, t, FirstRow(m))
  {
    forall q | 0 <= q < |result| ensures BlockShows(result[q], t, FirstRow(m)) {
      var x := RowCopySource(bs, result, t, q);
      assert BlockShows(bs[x], d, m);
      RowCopyShows(result[q], bs[x], d, t, m);
    }
    assert forall x :: 0 <= x < |bs| ==> BlockShows(bs[x], d, m);
    RowCopiesUnique(bs, result, t);
    forall i: nat, j: nat | i < t.rn && j < t.cn ensures HasKey(result, i, j) {
      RowCopiesComplete(bs, result, t, i, j);
    }
  }

  /** With more than one block row the copies of different rows get the same keys: the result is no grid. */
  lemma {:induction false} DuplicateRowsClash(bs: seq<MatrixBlock>, result: seq<MatrixBlock>, d: Dim, t: Dim, m: Matrix)
    requires Represents(bs, d, m) && d.rn >= 2 && d.cn >= 1 && t.rn >= 1
    requires RowCopies(bs, result, t)
    ensures !UniqueKeys(result)
  {
    assert HasKey(bs, 0, 0) && HasKey(bs, 1, 0);
    var x :| 0 <= x < |bs| && bs[x].bi == 0 && bs[x].bj == 0;
    var y :| 0 <= y < |bs| && bs[y].bi == 1 && bs[y].bj == 0;
    RowCopiesMeet(bs, result, t, if x < y then x else y, if x < y then y else x);
  }

  lemma {:induction false} RowCopiesMeet(bs: seq<MatrixBlock>, result: seq<MatrixBlock>, t: Dim, x: nat, y: nat)
    requires RowCopies(bs, result, t) && x < y < |bs| && bs[x].bj == bs[y].bj && t.rn >= 1
    ensures !UniqueKeys(result)
  {
    var n, init := |result| - t.rn, bs[..|bs| - 1];
    if y < |bs| - 1 {
      RowCopiesMeet(init, result[..n], t, x, y);
      var p, q :| 0 <= p < q < |result[..n]| && SameKey(result[..n][p], result[..n][q]);
      assert SameKey(result[p], result[q]);
    } else {
      RowCopiesSplit(bs, result, t, n);
      var p := RowCopyPlace(init, result[..n], t, x, 0);
      RowCopyOne(result[n..], bs[y], t, 0);
      assert SameKey(result[p], result[n]);
    }
  }

  /** `duplicateCol` of one block: one copy for each block column of the target. */
  method DuplicateCol(b: MatrixBlock, t: Dim) returns (result: seq<MatrixBlock>)
    ensures ColCopiesOfOne(result, b, t)
  {
    result := [];
    for j := 0 to t.cn
      invariant |result| == j && forall p :: 0 <= p < j ==> result[p].bj == p && IsColCopy(result[p], b, t)
    {
      var raw := FillCells(b.rows, t.cs, ColumnCell(b.data));
      result := result + [MatrixBlock(b.bi, j, b.rows, t.cs, b.totalRows, t.cn * t.cs, raw)];
    }
  }

  ghost predicate IsColCopy(r: MatrixBlock, b: MatrixBlock, t: Dim) {
    && r.bi == b.bi && r.rows == b.rows && r.cols == t.cs && r.totalRows == b.totalRows && r.totalCols == t.cn * t.cs
    && |r.data| == b.rows * t.cs
    && forall ii, jj :: 0 <= ii < b.rows && 0 <= jj < t.cs ==> Cell(r.data, t.cs, ii, jj) == CellAt(b.data, ii)
  }

  /** One copy of `b` for each block column of the target. */
  ghost predicate ColCopiesOfOne(copies: seq<MatrixBlock>, b: MatrixBlock, t: Dim) {
    |copies| == t.cn && forall i :: 0 <= i < t.cn ==> copies[i].bj == i && IsColCopy(copies[i], b, t)
  }

  /** The copies of the blocks of `bs`, block by block. */
  ghost predicate ColCopies(bs: seq<MatrixBlock>, result: seq<MatrixBlock>, t: Dim) {
    if bs == [] then result == []
    else
      var n := |result| - t.cn;
      n >= 0 && ColCopies(bs[..|bs| - 1], result[..n], t) && ColCopiesOfOne(result[n..], bs[|bs| - 1], t)
  }

  lemma {:induction false} ColCopiesSnoc(bs: seq<MatrixBlock>, result: seq<MatrixBlock>, b: MatrixBlock, more: seq<MatrixBlock>, t: Dim)
    requires ColCopies(bs, result, t) && ColCopiesOfOne(more, b, t)
    ensures ColCopies(bs + [b], result + more, t)
  {
    assert (bs + [b])[..|bs|] == bs && (result + more)[..|result|] == result && (result + more)[|result|..] == more;
  }

  /** The multi-selection over the whole set. */
  method DuplicateCols(bs: seq<MatrixBlock>, t: Dim) returns (result: seq<MatrixBlock>)
    ensures ColCopies(bs, result, t)
  {
    result := [];
    for p := 0 to |bs|
      invariant ColCopies(bs[..p], result, t)
    {
      var more := DuplicateCol(bs[p], t);
      ColCopiesSnoc(bs[..p], result, bs[p], more, t);
      assert bs[..p + 1] == bs[..p] + [bs[p]];
      result := result + more;
    }
    assert bs[..|bs|] == bs;
  }

  lemma {:induction false} ColCopyOne(copies: seq<MatrixBlock>, b: MatrixBlock, t: Dim, i: nat)
    requires ColCopiesOfOne(copies, b, t) && i < t.cn
    ensures i < |copies| && copies[i].bj == i && copies[i].bi == b.bi && IsColCopy(copies[i], b, t)
  {
  }

  lemma {:induction false} ColCopiesSplit(bs: seq<MatrixBlock>, result: seq<MatrixBlock>, t: Dim, n: int)
    requires bs != [] && ColCopies(bs, result, t) && n == |result| - t.cn
    ensures 0 <= n && ColCopies(bs[..|bs| - 1], result[..n], t) && ColCopiesOfOne(result[n..], bs[|bs| - 1], t)
  {
  }

  /** The block a copy was made from. */
  lemma {:induction false} ColCopySource(bs: seq<MatrixBlock>, result: seq<MatrixBlock>, t: Dim, q: nat) returns (x: nat)
    requires ColCopies(bs, result, t) && q < |result|
    ensures x < |bs| && result[q].bj < t.cn && IsColCopy(result[q], bs[x], t)
  {
    var n := |result| - t.cn;
    ColCopiesSplit(bs, result, t, n);
    if q < n {
      x := ColCopySource(bs[..|bs| - 1], result[..n], t, q);
    } else {
      x := |bs| - 1;
      ColCopyOne(result[n..], bs[x], t, q - n);
    }
  }

  /** Where a copy of a block stands. */
  lemma {:induction false} ColCopyPlace(bs: seq<MatrixBlock>, result: seq<MatrixBlock>, t: Dim, x: nat, i: nat) returns (q: nat)
    requires ColCopies(bs, result, t) && x < |bs| && i < t.cn
    ensures q < |result| && result[q].bj == i && result[q].bi == bs[x].bi
  {
    var n := |result| - t.cn;
    ColCopiesSplit(bs, result, t, n);
    if x < |bs| - 1 {
      q := ColCopyPlace(bs[..|bs| - 1], result[..n], t, x, i);
    } else {
      q := n + i;
      ColCopyOne(result[n..], bs[x], t, i);
    }
  }

  /** The cell that `duplicateCol` takes for row `ii` of a block of row `i`: the block's data at `ii`. */
  function Leading(d: Dim, m: Matrix, i: nat, ii: nat): (v: real)
    requires d.cs > 0
  {
    m(i * d.rs + ii / d.cs, ii % d.cs)
  }

  /** These cells are the first column of the matrix. */
  ghost predicate LeadsWithColumn(d: Dim, m: Matrix)
    requires d.cs > 0
  {
    forall i: nat, ii: nat :: i < d.rn && ii < d.rs ==> Leading(d, m, i, ii) == m(i * d.rs + ii, 0)
  }

  lemma {:induction false} LeadingCell(b: MatrixBlock, d: Dim, m: Matrix, ii: nat)
    requires BlockShows(b, d, m) && d.cn == 1 && d.cs >= 1 && ii < d.rs
    ensures CellAt(b.data, ii) == Leading(d, m, b.bi, ii)
  {
    var q, r := ii / d.cs, ii % d.cs;
    QuotientBelow(d.cs, ii);
    CellOf(b, d, m, q, r);
  }

  lemma {:induction false} QuotientBelow(n: nat, k: nat)
    requires n >= 1
    ensures k / n <= k && (k / n) * n + k % n == k
  {
    if k / n > k { Scale(1, n, k / n); }
  }

  /** Blocks of one column or of one row lead with the first column. */
  lemma {:induction false} VectorsLead(d: Dim, m: Matrix)
    requires d.cs >= 1 && (d.cs == 1 || d.rs <= 1)
    ensures LeadsWithColumn(d, m)
  {
    forall i: nat, ii: nat | i < d.rn && ii < d.rs ensures Leading(d, m, i, ii) == m(i * d.rs + ii, 0) {
      if d.cs == 1 { DivMod(1, ii, 0); } else { DivMod(d.cs, 0, 0); }
    }
  }

  lemma {:induction false} ColCopyShows(r: MatrixBlock, b: MatrixBlock, d: Dim, t: Dim, m: Matrix)
    requires BlockShows(b, d, m) && d.cn == 1 && d.cs >= 1 && t.rs == d.rs && t.rn == d.rn
    requires IsColCopy(r, b, t) && r.bj < t.cn && (t.cs >= 1 ==> LeadsWithColumn(d, m))
    ensures BlockShows(r, t, FirstColumn(m))
  {
    forall ii, jj | 0 <= ii < t.rs && 0 <= jj < t.cs
      ensures Cell(r.data, t.cs, ii, jj) == FirstColumn(m)(r.bi * t.rs + ii, r.bj * t.cs + jj)
    {
      LeadingCell(b, d, m, ii);
      assert Leading(d, m, b.bi, ii) == m(b.bi * d.rs + ii, 0);
    }
  }

  /** A copy that shows the first column was made of a block that leads with it. */
  lemma {:induction false} ColCopyShown(r: MatrixBlock, b: MatrixBlock, d: Dim, t: Dim, m: Matrix, ii: nat)
    requires BlockShows(b, d, m) && d.cn == 1 && d.cs >= 1 && t.rs == d.rs && t.cs >= 1 && ii < d.rs
    requires IsColCopy(r, b, t) && BlockShows(r, t, FirstColumn(m))
    ensures Leading(d, m, b.bi, ii) == m(b.bi * d.rs + ii, 0)
  {
    LeadingCell(b, d, m, ii);
    assert Cell(r.data, t.cs, ii, 0) == FirstColumn(m)(r.bi * t.rs + ii, r.bj * t.cs + 0);
    assert Cell(r.data, t.cs, ii, 0) == CellAt(b.data, ii);
  }

  lemma {:induction false} ColCopiesUnique(bs: seq<MatrixBlock>, result: seq<MatrixBlock>, t: Dim)
    requires UniqueKeys(bs) && (forall x :: 0 <= x < |bs| ==> bs[x].bj == 0) && ColCopies(bs, result, t)
    ensures UniqueKeys(result)
  {
    if bs != [] {
      var n, init := |result| - t.cn, bs[..|bs| - 1];
      ColCopiesUnique(init, result[..n], t);
      forall p, q | 0 <= p < q < |result| ensures !SameKey(result[p], result[q]) {
        if q < n {
          assert !SameKey(result[..n][p], result[..n][q]);
        } else {
          ColCopiesApart(bs, result, t, p, q);
        }
      }
    }
  }

  /** A copy of the last block differs in its key from every copy before it. */
  lemma {:induction false} ColCopiesApart(bs: seq<MatrixBlock>, result: seq<MatrixBlock>, t: Dim, p: nat, q: nat)
    requires UniqueKeys(bs) && (forall x :: 0 <= x < |bs| ==> bs[x].bj == 0) && bs != [] && ColCopies(bs, result, t)
    requires |result| - t.cn <= q < |result| && p < q
    ensures !SameKey(result[p], result[q])
  {
    var n := |result| - t.cn;
    ColCopiesSplit(bs, result, t, n);
    ColCopyOne(result[n..], bs[|bs| - 1], t, q - n);
    if p < n {
      var x := ColCopySource(bs[..|bs| - 1], result[..n], t, p);
      assert !SameKey(bs[x], bs[|bs| - 1]);
    } else {
      ColCopyOne(result[n..], bs[|bs| - 1], t, p - n);
    }
  }

  lemma {:induction false} ColCopiesComplete(bs: seq<MatrixBlock>, result: seq<MatrixBlock>, t: Dim, i: nat, j: nat)
    requires HasKey(bs, i, 0) && ColCopies(bs, result, t) && j < t.cn
    ensures HasKey(result, i, j)
  {
    var x :| 0 <= x < |bs| && bs[x].bi == i && bs[x].bj == 0;
    var q := ColCopyPlace(bs, result, t, x, j);
  }

  lemma {:induction false} ColCopiesSized(bs: seq<MatrixBlock>, result: seq<MatrixBlock>, d: Dim, t: Dim)
    requires Sized(bs, d) && ColCopies(bs, result, t) && t.rs == d.rs
    ensures Sized(result, t)
  {
    forall q | 0 <= q < |result| ensures BlockSized(result[q], t) {
      var x := ColCopySource(bs, result, t, q);
      assert BlockSized(bs[x], d);
    }
  }

  /** With more than one block column the copies of different columns get the same keys. */
  lemma {:induction false} DuplicateColsClash(bs: seq<MatrixBlock>, result: seq<MatrixBlock>, d: Dim, t: Dim, m: Matrix)
    requires Represents(bs, d, m) && d.cn >= 2 && d.rn >= 1 && t.cn >= 1
    requires ColCopies(bs, result, t)
    ensures !UniqueKeys(result)
  {
    assert HasKey(bs, 0, 0) && HasKey(bs, 0, 1);
    var x :| 0 <= x < |bs| && bs[x].bi == 0 && bs[x].bj == 0;
    var y :| 0 <= y < |bs| && bs[y].bi == 0 && bs[y].bj == 1;
    ColCopiesMeet(bs, result, t, if x < y then x else y, if x < y then y else x);
  }

  lemma {:induction false} ColCopiesMeet(bs: seq<MatrixBlock>, result: seq<MatrixBlock>, t: Dim, x: nat, y: nat)
    requires ColCopies(bs, result, t) && x < y < |bs| && bs[x].bi == bs[y].bi && t.cn >= 1
    ensures !UniqueKeys(result)
  {
    var n, init := |result| - t.cn, bs[..|bs| - 1];
    if y < |bs| - 1 {
      ColCopiesMeet(init, result[..n], t, x, y);
      var p, q :| 0 <= p < q < |result[..n]| && SameKey(result[..n][p], result[..n][q]);
      assert SameKey(result[p], result[q]);
    } else {
      ColCopiesSplit(bs, result, t, n);
      var p := ColCopyPlace(init, result[..n], t, x, 0);
      ColCopyOne(result[n..], bs[y], t, 0);
      assert SameKey(result[p], result[n]);
    }
  }

  lemma {:induction false} ColumnRepresents(bs: seq<MatrixBlock>, result: seq<MatrixBlock>, d: Dim, t: Dim, m: Matrix)
    requires Represents(bs, d, m) && d.cn == 1 && d.cs >= 1 && t.rs == d.rs && t.rn == d.rn
    requires ColCopies(bs, result, t) && (t.cs >= 1 && t.cn >= 1 ==> LeadsWithColumn(d, m))
    ensures Represents(result, t, FirstColumn(m))
  {
    forall q | 0 <= q < |result| ensures BlockShows(result[q], t, FirstColumn(m)) {
      var x := ColCopySource(bs, result, t, q);
      assert BlockShows(bs[x], d, m);
      ColCopyShows(result[q], bs[x], d, t, m);
    }
    assert forall x :: 0 <= x < |bs| ==> BlockShows(bs[x], d, m);
    ColCopiesUnique(bs, result, t);
    forall i: nat, j: nat | i < t.rn && j < t.cn ensures HasKey(result, i, j) {
      ColCopiesComplete(bs, result, t, i, j);
    }
  }

  lemma {:induction false} ColumnRepresented(bs: seq<MatrixBlock>, result: seq<MatrixBlock>, d: Dim, t: Dim, m: Matrix)
    requires Represents(bs, d, m) && d.cn == 1 && d.cs >= 1 && t.rs == d.rs && t.rn == d.rn && t.cs >= 1 && t.cn >= 1
    requires ColCopies(bs, result, t) && Represents(result, t, FirstColumn(m))
    ensures LeadsWithColumn(d, m)
  {
    forall i: nat, ii: nat | i < d.rn && ii < d.rs ensures Leading(d, m, i, ii) == m(i * d.rs + ii, 0) {
      assert HasKey(bs, i, 0);
      var x :| 0 <= x < |bs| && bs[x].bi == i && bs[x].bj == 0;
      var q := ColCopyPlace(bs, result, t, x, 0);
      var y := ColCopySource(bs, result, t, q);
      assert BlockShows(bs[y], d, m) && BlockShows(result[q], t, FirstColumn(m));
      ColCopyShown(result[q], bs[y], d, t, m, ii);
    }
  }

  /** On a single block column, duplication repeats the first column over the target dimension exactly if the
      leading cells of every block are that column (or the target is empty). */
  lemma {:induction false} DuplicateColsDecide(bs: seq<MatrixBlock>, result: seq<MatrixBlock>, d: Dim, t: Dim, m: Matrix)
    requires Represents(bs, d, m) && d.cn == 1 && d.cs >= 1 && t.rs == d.rs && t.rn == d.rn
    requires ColCopies(bs, result, t)
    ensures Represents(result, t, FirstColumn(m)) <==> (t.cs >= 1 && t.cn >= 1 ==> LeadsWithColumn(d, m))
  {
    if t.cs >= 1 && t.cn >= 1 && Represents(result, t, FirstColumn(m)) { ColumnRepresented(bs, result, d, t, m); }
    if t.cs >= 1 && t.cn >= 1 ==> LeadsWithColumn(d, m) { ColumnRepresents(bs, result, d, t, m); }
  }

  /** So blocks of one column, or of a single row, are handled as meant. */
  lemma {:induction false} DuplicateColsRepresent(bs: seq<MatrixBlock>, result: seq<MatrixBlock>, d: Dim, t: Dim, m: Matrix)
    requires Represents(bs, d, m) && d.cn == 1 && d.cs >= 1 && (d.cs == 1 || d.rs <= 1) && t.rs == d.rs && t.rn == d.rn
    requires ColCopies(bs, result, t)
    ensures Represents(result, t, FirstColumn(m))
  {
    VectorsLead(d, m);
    DuplicateColsDecide(bs, result, d, t, m);
  }

  /** And a block of several rows and columns is not, as soon as the second cell of its first row differs from
      the first of its second. */
  lemma {:induction false} WideColumnIsScrambled(bs: seq<MatrixBlock>, result: seq<MatrixBlock>, d: Dim, t: Dim, m: Matrix)
    requires Represents(bs, d, m) && d.cn == 1 && d.cs >= 2 && d.rs >= 2 && d.rn >= 1 && m(0, 1) != m(1, 0)
    requires ColCopies(bs, result, t) && t.rs == d.rs && t.rn == d.rn && t.cs >= 1 && t.cn >= 1
    ensures !Represents(result, t, FirstColumn(m))
  {
    DuplicateColsDecide(bs, result, d, t, m);
    DivMod(d.cs, 0, 1);
    assert Leading(d, m, 0, 1) == m(0, 1);
  }
}
