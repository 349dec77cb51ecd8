/** Loaders that fill allocation blocks until they run out of space, send what they have and go on. */
module ChunkLoader {
  import opened GridIndex

  /** A matrix block: its place in the chunk grid and its size. */
  datatype Block = Block(r: nat, c: nat, height: nat, width: nat)

  function Flatten<T>(batches: seq<seq<T>>): (r: seq<T>) {
    if batches == [] then [] else Flatten(batches[..|batches| - 1]) + batches[|batches| - 1]
  }

  lemma {:induction false} FlattenSnoc<T>(batches: seq<seq<T>>, b: seq<T>)
    ensures Flatten(batches + [b]) == Flatten(batches) + b
  {
    assert (batches + [b])[..|batches|] == batches;
  }

  function Total(space: seq<nat>): (n: nat) {
    if space == [] then 0 else Total(space[..|space| - 1]) + space[|space| - 1]
  }

  lemma {:induction false} TotalMonotone(space: seq<nat>, k: nat)
    requires k <= |space|
    ensures Total(space[..k]) <= Total(space)
    decreases |space| - k
  {
    if k == |space| {
      assert space[..k] == space;
    } else {
      assert space[..k + 1][..k] == space[..k];
      TotalMonotone(space, k + 1);
    }
  }

  // ---------- the chunk grid ----------

  /** The size of part `i` when `total` is cut into `parts`. */
  function PartSize(total: nat, parts: nat, i: nat): (n: nat)
    requires parts > 0
  {
    total / parts + if i < total % parts then 1 else 0
  }

  function SumParts(total: nat, parts: nat, n: nat): (s: nat)
    requires parts > 0
  {
    if n == 0 then 0 else SumParts(total, parts, n - 1) + PartSize(total, parts, n - 1)
  }

  lemma {:induction false} SumPartsClosed(total: nat, parts: nat, n: nat)
    requires parts > 0
    ensures SumParts(total, parts, n) == n * (total / parts) + if n < total % parts then n else total % parts
  {
    if n > 0 {
      SumPartsClosed(total, parts, n - 1);
      assert n * (total / parts) == (n - 1) * (total / parts) + total / parts;
    }
  }

  /** The parts add up to the whole and differ by at most one. */
  lemma {:induction false} PartsCover(total: nat, parts: nat, i: nat, j: nat)
    requires parts > 0
    ensures SumParts(total, parts, parts) == total
    ensures -1 <= PartSize(total, parts, i) - PartSize(total, parts, j) <= 1
  {
    SumPartsClosed(total, parts, parts);
    assert total == parts * (total / parts) + total % parts;
  }

  function ChunkAt(rows: nat, cols: nat, numRows: nat, numCols: nat, k: nat): (b: Block)
    requires k < numRows * numCols
  {
    NonZero(numRows, numCols, k);
    var r, c := k % numRows, k / numRows;
    Block(r, c, PartSize(rows, numRows, r), PartSize(cols, numCols, c))
  }

  lemma {:induction false} NonZero(m: nat, n: nat, k: nat)
    requires k < m * n
    ensures m > 0 && n > 0
  {
  }

  /** Chunk numbers and grid cells correspond one to one: cell (r, c) is chunk c * numRows + r and no other. */
  lemma {:induction false} ChunkGrid(numRows: nat, numCols: nat, r: nat, c: nat, k: nat)
    requires r < numRows && c < numCols
    ensures c * numRows + r < numRows * numCols
    ensures k < numRows * numCols ==> k / numRows < numCols
    ensures (k % numRows == r && k / numRows == c) <==> k == c * numRows + r
  {
    assert c * numRows + r < (c + 1) * numRows <= numCols * numRows by { Scale(c + 1, numCols, numRows); }
    DivMod(numRows, c, r);
    assert k == (k / numRows) * numRows + k % numRows;
    if k / numRows >= numCols { Scale(numCols, k / numRows, numRows); }
  }

  function Chunks(rows: nat, cols: nat, numRows: nat, numCols: nat): (bs: seq<Block>) {
    seq(numRows * numCols, k requires 0 <= k < numRows * numCols => ChunkAt(rows, cols, numRows, numCols, k))
  }

  // ---------- what the chunks are ----------

  predicate HasBlock(bs: seq<Block>, r: nat, c: nat) { exists k :: 0 <= k < |bs| && bs[k].r == r && bs[k].c == c }

  /** Every place of the grid has exactly one block. */
  ghost predicate EachCellOnce(bs: seq<Block>, numRows: nat, numCols: nat) {
    && (forall k :: 0 <= k < |bs| ==> bs[k].r < numRows && bs[k].c < numCols)
    && (forall r: nat, c: nat :: r < numRows && c < numCols ==> HasBlock(bs, r, c))
    && forall j, k :: 0 <= j < k < |bs| ==> bs[j].r != bs[k].r || bs[j].c != bs[k].c
  }

  /** The block has its share of the rows and columns; the remainders go to the first places, one each. */
  predicate SizedEvenly(b: Block, rows: nat, cols: nat, numRows: nat, numCols: nat) {
    && numRows > 0 && b.height == rows / numRows + (if b.r < rows % numRows then 1 else 0)
    && numCols > 0 && b.width == cols / numCols + (if b.c < cols % numCols then 1 else 0)
  }

  /** The heights of the blocks of one block column, and the widths of those of one block row. */
  function HeightOf(bs: seq<Block>, c: int): (n: nat) {
    if bs == [] then 0
    else HeightOf(bs[..|bs| - 1], c) + if bs[|bs| - 1].c == c then bs[|bs| - 1].height else 0
  }

  function WidthOf(bs: seq<Block>, r: int): (n: nat) {
    if bs == [] then 0
    else WidthOf(bs[..|bs| - 1], r) + if bs[|bs| - 1].r == r then bs[|bs| - 1].width else 0
  }

  lemma {:induction false} NextChunk(numRows: nat, k: nat)
    requires numRows > 0
    ensures (k + 1) / numRows == (if k % numRows == numRows - 1 then k / numRows + 1 else k / numRows)
    ensures (k + 1) % numRows == (if k % numRows == numRows - 1 then 0 else k % numRows + 1)
  {
    var q, r := k / numRows, k % numRows;
    assert k == q * numRows + r;
    if r == numRows - 1 {
      assert k + 1 == (q + 1) * numRows + 0;
      DivMod(numRows, q + 1, 0);
    } else {
      DivMod(numRows, q, r + 1);
    }
  }

  /** Among the first `n` chunks block column `c` has so many blocks, and block row `r` so many. */
  function InColumn(numRows: nat, n: nat, c: nat): (m: nat)
    requires numRows > 0
  {
    if n / numRows < c then 0 else if n / numRows == c then n % numRows else numRows
  }

  function InRow(numRows: nat, n: nat, r: nat): (m: nat)
    requires numRows > 0
  {
    n / numRows + if r < n % numRows then 1 else 0
  }

  lemma {:induction false} HeightSoFar(rows: nat, cols: nat, numRows: nat, numCols: nat, n: nat, c: nat)
    requires numRows > 0 && n <= numRows * numCols
    ensures HeightOf(Chunks(rows, cols, numRows, numCols)[..n], c) == SumParts(rows, numRows, InColumn(numRows, n, c))
  {
    var all := Chunks(rows, cols, numRows, numCols);
    if n == 0 {
      DivMod(numRows, 0, 0);
    } else {
      HeightSoFar(rows, cols, numRows, numCols, n - 1, c);
      NextChunk(numRows, n - 1);
      assert all[..n][..n - 1] == all[..n - 1];
    }
  }

  lemma {:induction false} WidthSoFar(rows: nat, cols: nat, numRows: nat, numCols: nat, n: nat, r: nat)
    requires numRows > 0 && numCols > 0 && n <= numRows * numCols && r < numRows
    ensures WidthOf(Chunks(rows, cols, numRows, numCols)[..n], r) == SumParts(cols, numCols, InRow(numRows, n, r))
  {
    var all := Chunks(rows, cols, numRows, numCols);
    if n == 0 {
      DivMod(numRows, 0, 0);
    } else {
      WidthSoFar(rows, cols, numRows, numCols, n - 1, r);
      NextChunk(numRows, n - 1);
      assert all[..n][..n - 1] == all[..n - 1];
    }
  }

  lemma {:induction false} ChunkPlace(rows: nat, cols: nat, numRows: nat, numCols: nat, k: nat)
    requires k < numRows * numCols
    ensures var b := ChunkAt(rows, cols, numRows, numCols, k); b.r < numRows && b.c < numCols && k == b.c * numRows + b.r
  {
    NonZero(numRows, numCols, k);
    ChunkGrid(numRows, numCols, 0, 0, k);
  }

  lemma {:induction false} ChunkHere(rows: nat, cols: nat, numRows: nat, numCols: nat, r: nat, c: nat)
    requires r < numRows && c < numCols
    ensures HasBlock(Chunks(rows, cols, numRows, numCols), r, c)
  {
    var k := c * numRows + r;
    ChunkGrid(numRows, numCols, r, c, k);
    assert Chunks(rows, cols, numRows, numCols)[k] == ChunkAt(rows, cols, numRows, numCols, k);
  }

  lemma {:induction false} ChunkPlaces(rows: nat, cols: nat, numRows: nat, numCols: nat)
    ensures EachCellOnce(Chunks(rows, cols, numRows, numCols), numRows, numCols)
  {
    var all := Chunks(rows, cols, numRows, numCols);
    forall k | 0 <= k < |all| ensures all[k].r < numRows && all[k].c < numCols && k == all[k].c * numRows + all[k].r {
      ChunkPlace(rows, cols, numRows, numCols, k);
    }
    forall r: nat, c: nat | r < numRows && c < numCols ensures HasBlock(all, r, c) {
      ChunkHere(rows, cols, numRows, numCols, r, c);
    }
  }

  /** The chunks are the grid: one block for each cell, of its even size, and the sizes add up to the matrix. */
  lemma {:induction false} ChunksFillGrid(rows: nat, cols: nat, numRows: nat, numCols: nat)
    ensures EachCellOnce(Chunks(rows, cols, numRows, numCols), numRows, numCols)
    ensures forall c :: 0 <= c < numCols && numRows > 0 ==> HeightOf(Chunks(rows, cols, numRows, numCols), c) == rows
    ensures forall r :: 0 <= r < numRows && numCols > 0 ==> WidthOf(Chunks(rows, cols, numRows, numCols), r) == cols
  {
    var all := Chunks(rows, cols, numRows, numCols);
    ChunkPlaces(rows, cols, numRows, numCols);
    assert all[..|all|] == all;
    if numRows > 0 && numCols > 0 {
      assert numRows * numCols == numCols * numRows + 0;
      DivMod(numRows, numCols, 0);
      forall c | 0 <= c < numCols ensures HeightOf(all, c) == rows {
        HeightSoFar(rows, cols, numRows, numCols, |all|, c);
        PartsCover(rows, numRows, 0, 0);
      }
      forall r | 0 <= r < numRows ensures WidthOf(all, r) == cols {
        WidthSoFar(rows, cols, numRows, numCols, |all|, r);
        PartsCover(cols, numCols, 0, 0);
      }
    }
  }

  /** One allocation block of `initMatrix`, with room for so many chunks. */
  method FillChunks(rows: nat, cols: nat, numRows: nat, numCols: nat, first: nat, room: nat) returns (data: seq<Block>, chunk: nat)
    requires first <= numRows * numCols
    ensures chunk == (if first + room <= numRows * numCols then first + room else numRows * numCols)
    ensures first <= chunk && data == Chunks(rows, cols, numRows, numCols)[first..chunk]
  {
    var numChunks := numRows * numCols;
    ghost var all := Chunks(rows, cols, numRows, numCols);
    data, chunk := [], first;
    while chunk != numChunks && |data| != room
      invariant first <= chunk <= numChunks && chunk == first + |data| && |data| <= room
      invariant data == all[first..chunk]
    {
      data := data + [ChunkAt(rows, cols, numRows, numCols, chunk)];
      chunk := chunk + 1;
    }
  }

  lemma {:induction false} SentMore<T>(sent: seq<seq<T>>, data: seq<T>, all: seq<T>, first: nat, next: nat)
    requires first <= next <= |all| && Flatten(sent) == all[..first] && data == all[first..next]
    ensures Flatten(sent + [data]) == all[..next]
  {
    FlattenSnoc(sent, data);
    assert all[..first] + all[first..next] == all[..next];
  }

  /** `initMatrix`. `space[i]` is how many blocks fit into the i-th allocation block. Whatever it is, the
      batches sent are the chunks in order without omission or repetition, all of them once there was room. */
  method InitMatrix(rows: nat, cols: nat, numRows: nat, numCols: nat, space: seq<nat>) returns (sent: seq<seq<Block>>, done: bool)
    ensures Flatten(sent) <= Chunks(rows, cols, numRows, numCols)
    ensures done <==> Flatten(sent) == Chunks(rows, cols, numRows, numCols)
    ensures done <==> numRows * numCols <= Total(space)
    ensures done ==> EachCellOnce(Flatten(sent), numRows, numCols)
    ensures forall k :: 0 <= k < |Flatten(sent)| ==> SizedEvenly(Flatten(sent)[k], rows, cols, numRows, numCols)
    ensures done ==> forall c :: 0 <= c < numCols && numRows > 0 ==> HeightOf(Flatten(sent), c) == rows
    ensures done ==> forall r :: 0 <= r < numRows && numCols > 0 ==> WidthOf(Flatten(sent), r) == cols
  {
    var numChunks, chunk := numRows * numCols, 0;
    ghost var all := Chunks(rows, cols, numRows, numCols);
    sent := [];
    var attempt := 0;
    while chunk != numChunks && attempt < |space|
      invariant chunk <= numChunks && attempt <= |space|
      invariant Flatten(sent) == all[..chunk]
      invariant chunk == if Total(space[..attempt]) <= numChunks then Total(space[..attempt]) else numChunks
    {
      ghost var first := chunk;
      var data;
      data, chunk := FillChunks(rows, cols, numRows, numCols, chunk, space[attempt]);
      SentMore(sent, data, all, first, chunk);
      assert space[..attempt + 1][..attempt] == space[..attempt];
      sent := sent + [data];
      attempt := attempt + 1;
    }
    done := chunk == numChunks;
    TotalMonotone(space, attempt);
    assert space[..|space|] == space;
    assert all[..numChunks] == all;
    ChunksFillGrid(rows, cols, numRows, numCols);
  }

  /** Record `i` of the generated data: each coordinate lies within 0.01 above three times the cluster number. */
  predicate IsSample(x: seq<real>, i: nat, dim: nat, k: nat)
    requires k > 0
  {
    |x| == dim && forall j :: 0 <= j < dim ==> (i % k * 3) as real <= x[j] < (i % k * 3) as real + 0.01
  }

  predicate AreSamples(xs: seq<seq<real>>, from: nat, dim: nat, k: nat)
    requires k > 0
  {
    forall i :: 0 <= i < |xs| ==> IsSample(xs[i], from + i, dim, k)
  }

  /** One record, from the draws `unif` in [0, 1). */
  method MakeSample(i: nat, dim: nat, k: nat, unif: nat -> real) returns (x: seq<real>)
    requires k > 0 && forall j :: 0.0 <= unif(j) < 1.0
    ensures IsSample(x, i, dim, k)
  {
    x := [];
    for j := 0 to dim
      invariant |x| == j && IsSample(x, i, j, k)
    {
      x := x + [(i % k * 3) as real + unif(j) * 0.01];
    }
  }

  /** The generating loader of the mixture model. A record interrupted by the end of a block is drawn afresh
      for the next one; still every record number is sent exactly once and in order. */
  method LoadRandom(numData: nat, dim: nat, k: nat, unif: (nat, nat, nat) -> real, space: seq<nat>)
    returns (sent: seq<seq<seq<real>>>, addedData: nat)
    requires k > 0 && forall a: nat, i: nat, j: nat :: 0.0 <= unif(a, i, j) < 1.0
    ensures addedData == |Flatten(sent)| == (if Total(space) <= numData then Total(space) else numData)
    ensures AreSamples(Flatten(sent), 0, dim, k)
  {
    sent, addedData := [], 0;
    var attempt := 0;
    while addedData < numData && attempt < |space|
      invariant attempt <= |space| && addedData == |Flatten(sent)|
      invariant addedData == if Total(space[..attempt]) <= numData then Total(space[..attempt]) else numData
      invariant AreSamples(Flatten(sent), 0, dim, k)
    {
      var store: seq<seq<real>> := [];
      ghost var first := addedData;
      while addedData < numData && |store| < space[attempt]
        invariant first + |store| == addedData <= numData && |store| <= space[attempt]
        invariant AreSamples(store, first, dim, k)
      {
        var x := MakeSample(addedData, dim, k, (j: nat) => unif(attempt, addedData, j));
        store := store + [x];
        addedData := addedData + 1;
      }
      FlattenSnoc(sent, store);
      assert space[..attempt + 1][..attempt] == space[..attempt];
      sent := sent + [store];
      attempt := attempt + 1;
    }
    TotalMonotone(space, attempt);
    assert space[..|space|] == space;
  }

  /** One block of the file loader: it ends when the lines are used up or when a record did not fit, which
      is then kept for the next block. */
  method FillBlock(lines: seq<string>, line0: string, next0: nat, rollback0: bool, room: nat)
    returns (store: seq<string>, line: string, next: nat, rollback: bool, end: bool)
    requires next0 <= |lines| && (rollback0 ==> next0 > 0 && line0 == lines[next0 - 1])
    ensures next <= |lines| && (rollback ==> next > 0 && line == lines[next - 1])
    ensures var from, to := if rollback0 then next0 - 1 else next0, if rollback then next - 1 else next;
            from <= to && store == lines[from..to]
    ensures |store| <= room && (end <==> !rollback) && (end ==> next == |lines|) && (rollback ==> |store| == room)
  {
    line, next, rollback, end := line0, next0, rollback0, false;
    store := [];
    ghost var from := if rollback then next - 1 else next;
    while true
      invariant next <= |lines| && (rollback ==> next > 0 && line == lines[next - 1])
      invariant from + |store| == if rollback then next - 1 else next
      invariant store == lines[from..from + |store|] && |store| <= room
      invariant rollback ==> store == []
      decreases |lines| - next, rollback
    {
      if !rollback {
        if next == |lines| {
          end := true;
          break;
        }
        line := lines[next];
        next := next + 1;
      } else {
        rollback := false;
      }
      if |store| == room {
        rollback := true;
        break;
      }
      store := store + [line];
    }
  }

  /** The file loader of the mixture model: a line whose record did not fit is kept and stored first in the
      next block. Every line is sent exactly once and in order; the count is the number of lines. */
  method LoadFile(lines: seq<string>, space: seq<nat>) returns (sent: seq<seq<string>>, numData: nat, end: bool)
    ensures Flatten(sent) <= lines && numData == |Flatten(sent)|
    ensures end ==> Flatten(sent) == lines
    ensures end <==> space != [] && |lines| <= Total(space)
  {
    var line, rollback := "", false;
    var next: nat := 0;
    sent, numData, end := [], 0, false;
    var attempt := 0;
    while !end && attempt < |space|
      invariant attempt <= |space| && next <= |lines|
      invariant rollback ==> next > 0 && line == lines[next - 1]
      invariant Flatten(sent) == lines[..if rollback then next - 1 else next] && numData == |Flatten(sent)|
      invariant !end ==> (rollback <==> attempt > 0)
      invariant !end ==> numData == Total(space[..attempt])
      invariant end ==> next == |lines| && !rollback && attempt > 0 && |lines| <= Total(space[..attempt])
    {
      var store;
      ghost var before := numData;
      assert space[..attempt + 1][..attempt] == space[..attempt];
      store, line, next, rollback, end := FillBlock(lines, line, next, rollback, space[attempt]);
      SentMore(sent, store, lines, before, before + |store|);
      sent := sent + [store];
      numData := numData + |store|;
      attempt := attempt + 1;
    }
    TotalMonotone(space, attempt);
    assert space[..|space|] == space;
    assert lines[..|lines|] == lines;
  }
}
