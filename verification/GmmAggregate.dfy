/** The expectation-maximisation aggregate of the Gaussian mixture: accumulators that hold either one
    unprocessed data point or partial moment sums, merged pairwise in any order. */
module GmmAggregate {
  import opened Wrappers
  import opened RealSums

  type Matrix = seq<seq<real>>

  function At(v: seq<real>, i: int): (r: real) {
    if 0 <= i < |v| then v[i] else 0.0
  }

  function Entries(v: seq<real>): (f: int -> real) { (i: int) => At(v, i) }

  predicate Square(m: Matrix, n: nat) {
    |m| == n && forall a :: 0 <= a < n ==> |m[a]| == n
  }

  /** A data point with its responsibility for each component. */
  datatype Datapoint = Datapoint(x: seq<real>, r: seq<real>, logLikelihood: real)

  /** Partial sums: per component the weight, the weighted point and the weighted outer product. */
  datatype NewComp = NewComp(logLikelihood: real, sumWeights: seq<real>, sumMeans: seq<seq<real>>, sumCovars: seq<Matrix>)

  predicate Fits(p: Datapoint, k: nat, dim: nat) { |p.x| == dim && |p.r| == k }

  // ---------- the BLAS operations ----------

  /** gsl_blas_daxpy: alpha * x + y. */
  function Axpy(alpha: real, x: seq<real>, y: seq<real>): (r: seq<real>)
    requires |x| == |y|
  {
    seq(|y|, a requires 0 <= a < |y| => alpha * x[a] + y[a])
  }

  /** gsl_blas_dsyr with CblasUpper: alpha * x * x' is added on and above the diagonal only. */
  function SyrUpper(alpha: real, x: seq<real>, m: Matrix): (r: Matrix)
    requires Square(m, |x|)
    ensures Square(r, |x|)
  {
    seq(|x|, a requires 0 <= a < |x| =>
      seq(|x|, b requires 0 <= b < |x| => if a <= b then m[a][b] + alpha * (x[a] * x[b]) else m[a][b]))
  }

  function Zeros(n: nat): (r: seq<real>) { seq(n, _ => 0.0) }

  // ---------- the sums an accumulator stands for ----------

  function Weight(j: int): (f: Datapoint -> real) { (p: Datapoint) => At(p.r, j) }

  function First(j: int, a: int): (f: Datapoint -> real) { (p: Datapoint) => At(p.r, j) * At(p.x, a) }

  function Second(j: int, a: int, b: int): (f: Datapoint -> real) {
    (p: Datapoint) => At(p.r, j) * (At(p.x, a) * At(p.x, b))
  }

  function LogLikelihood(): (f: Datapoint -> real) { (p: Datapoint) => p.logLikelihood }

  /** Component `j` holds the plain sums over `ps`; below the diagonal nothing is ever written. */
  ghost predicate ComponentSums(w: real, m: seq<real>, c: Matrix, ps: seq<Datapoint>, j: nat, dim: nat) {
    && w == Total(ps, Weight(j))
    && |m| == dim && (forall a :: 0 <= a < dim ==> m[a] == Total(ps, First(j, a)))
    && Square(c, dim)
    && forall a, b :: 0 <= a < dim && 0 <= b < dim ==> c[a][b] == if a <= b then Total(ps, Second(j, a, b)) else 0.0
  }

  ghost predicate SumsAt(nc: NewComp, ps: seq<Datapoint>, j: nat, dim: nat)
    requires j < |nc.sumWeights| == |nc.sumMeans| == |nc.sumCovars|
  {
    ComponentSums(nc.sumWeights[j], nc.sumMeans[j], nc.sumCovars[j], ps, j, dim)
  }

  predicate Components(nc: NewComp, k: nat) {
    |nc.sumWeights| == |nc.sumMeans| == |nc.sumCovars| == k
  }

  ghost predicate SumsOf(nc: NewComp, ps: seq<Datapoint>, k: nat, dim: nat) {
    && Components(nc, k)
    && nc.logLikelihood == Total(ps, LogLikelihood())
    && forall j :: 0 <= j < k ==> SumsAt(nc, ps, j, dim)
  }

  lemma {:induction false} AddPointSums(w: real, m: seq<real>, c: Matrix, ps: seq<Datapoint>, p: Datapoint, j: nat, dim: nat)
    requires ComponentSums(w, m, c, ps, j, dim) && |p.x| == dim && j < |p.r|
    ensures ComponentSums(w + p.r[j], Axpy(p.r[j], p.x, m), SyrUpper(p.r[j], p.x, c), ps + [p], j, dim)
  {
    assert (ps + [p])[..|ps|] == ps;
    assert forall f: Datapoint -> real :: Total(ps + [p], f) == Total(ps, f) + f(p);
    var m', c' := Axpy(p.r[j], p.x, m), SyrUpper(p.r[j], p.x, c);
    forall a | 0 <= a < dim ensures m'[a] == Total(ps + [p], First(j, a)) {
      assert First(j, a)(p) == p.r[j] * p.x[a];
    }
    forall a, b | 0 <= a < dim && 0 <= b < dim
      ensures c'[a][b] == if a <= b then Total(ps + [p], Second(j, a, b)) else 0.0
    {
      assert Second(j, a, b)(p) == p.r[j] * (p.x[a] * p.x[b]);
    }
  }

  lemma {:induction false} AddCompSums(w: real, m: seq<real>, c: Matrix, w2: real, m2: seq<real>, c2: Matrix,
                    ps: seq<Datapoint>, qs: seq<Datapoint>, j: nat, dim: nat)
    requires ComponentSums(w, m, c, ps, j, dim) && ComponentSums(w2, m2, c2, qs, j, dim)
    ensures ComponentSums(w + w2, Axpy(1.0, m2, m), AddMatrix(c2, c), ps + qs, j, dim)
  {
    TotalConcat(ps, qs, Weight(j));
    var m', c' := Axpy(1.0, m2, m), AddMatrix(c2, c);
    forall a | 0 <= a < dim ensures m'[a] == Total(ps + qs, First(j, a)) {
      TotalConcat(ps, qs, First(j, a));
    }
    forall a, b | 0 <= a < dim && 0 <= b < dim
      ensures c'[a][b] == if a <= b then Total(ps + qs, Second(j, a, b)) else 0.0
    {
      TotalConcat(ps, qs, Second(j, a, b));
    }
  }

  /** daxpy with factor 1 over the dim * dim entries of two matrices. */
  function AddMatrix(x: Matrix, y: Matrix): (r: Matrix)
    requires Square(y, |y|) && Square(x, |y|)
    ensures Square(r, |y|)
  {
    seq(|y|, a requires 0 <= a < |y| => Axpy(1.0, x[a], y[a]))
  }

  /** The loops over components: those below `i` hold the sums over `done`, the rest still those over `todo`. */
  ghost predicate Between(nc: NewComp, done: seq<Datapoint>, todo: seq<Datapoint>, i: nat, k: nat, dim: nat)
    requires Components(nc, k)
  {
    && (forall j :: 0 <= j < i && j < k ==> SumsAt(nc, done, j, dim))
    && (forall j :: i <= j < k ==> SumsAt(nc, todo, j, dim))
  }

  // ---------- the three loops of operator+ ----------

  /** `GmmAggregateNewComp(k, dim)` with zero-filled vectors. */
  method Fresh(k: nat, dim: nat) returns (nc: NewComp)
    ensures SumsOf(nc, [], k, dim)
  {
    nc := NewComp(0.0, Zeros(k), [], []);
    for i := 0 to k
      invariant nc.logLikelihood == 0.0 && nc.sumWeights == Zeros(k) && |nc.sumMeans| == |nc.sumCovars| == i
      invariant forall j :: 0 <= j < i ==> nc.sumMeans[j] == Zeros(dim) && nc.sumCovars[j] == seq(dim, _ => Zeros(dim))
    {
      nc := nc.(sumMeans := nc.sumMeans + [Zeros(dim)], sumCovars := nc.sumCovars + [seq(dim, _ => Zeros(dim))]);
    }
  }

  /** The left operand is an unprocessed point: its moments go into fresh vectors. */
  method Process(p: Datapoint, k: nat, dim: nat) returns (nc: NewComp)
    requires Fits(p, k, dim)
    ensures SumsOf(nc, [p], k, dim)
  {
    nc := Fresh(k, dim);
    assert [] + [p] == [p];
    for i := 0 to k
      invariant Components(nc, k) && nc.logLikelihood == 0.0
      invariant Between(nc, [p], [], i, k, dim)
    {
      assert SumsAt(nc, [], i, dim);
      AddPointSums(nc.sumWeights[i], nc.sumMeans[i], nc.sumCovars[i], [], p, i, dim);
      ghost var before := nc;
      nc := nc.(sumCovars := nc.sumCovars[i := SyrUpper(p.r[i], p.x, nc.sumCovars[i])]);
      nc := nc.(sumMeans := nc.sumMeans[i := Axpy(p.r[i], p.x, nc.sumMeans[i])]);
      nc := nc.(sumWeights := nc.sumWeights[i := p.r[i]]);
      OthersUnchanged(before, nc, [p], [], i, k, dim);
    }
    ghost var sums := nc;
    nc := nc.(logLikelihood := p.logLikelihood);
    TotalOne(p, LogLikelihood());
    forall j | 0 <= j < k ensures SumsAt(nc, [p], j, dim) {
      assert SumsAt(sums, [p], j, dim);
    }
  }

  /** A loop step that rewrites component `i` leaves the sums of the others as they were. */
  lemma {:induction false} OthersUnchanged(before: NewComp, after: NewComp, done: seq<Datapoint>, todo: seq<Datapoint>, i: nat, k: nat, dim: nat)
    requires Components(before, k) && Components(after, k) && i < k
    requires Between(before, done, todo, i, k, dim)
    requires SumsAt(after, done, i, dim)
    requires after.sumWeights == before.sumWeights[i := after.sumWeights[i]]
    requires after.sumMeans == before.sumMeans[i := after.sumMeans[i]]
    requires after.sumCovars == before.sumCovars[i := after.sumCovars[i]]
    ensures Between(after, done, todo, i + 1, k, dim)
  {
    forall j | 0 <= j < i ensures SumsAt(after, done, j, dim) {
      assert SumsAt(before, done, j, dim);
    }
    forall j | i + 1 <= j < k ensures SumsAt(after, todo, j, dim) {
      assert SumsAt(before, todo, j, dim);
    }
  }

  /** The right operand is an unprocessed point: its moments are added to the left operand's vectors. */
  method AddPoint(left: NewComp, p: Datapoint, ghost ps: seq<Datapoint>, k: nat, dim: nat) returns (nc: NewComp)
    requires SumsOf(left, ps, k, dim) && Fits(p, k, dim)
    ensures SumsOf(nc, ps + [p], k, dim)
  {
    nc := left;
    for i := 0 to k
      invariant Components(nc, k) && nc.logLikelihood == left.logLikelihood
      invariant Between(nc, ps + [p], ps, i, k, dim)
    {
      assert SumsAt(nc, ps, i, dim);
      AddPointSums(nc.sumWeights[i], nc.sumMeans[i], nc.sumCovars[i], ps, p, i, dim);
      ghost var before := nc;
      nc := nc.(sumCovars := nc.sumCovars[i := SyrUpper(p.r[i], p.x, nc.sumCovars[i])]);
      nc := nc.(sumMeans := nc.sumMeans[i := Axpy(p.r[i], p.x, nc.sumMeans[i])]);
      nc := nc.(sumWeights := nc.sumWeights[i := nc.sumWeights[i] + p.r[i]]);
      OthersUnchanged(before, nc, ps + [p], ps, i, k, dim);
    }
    ghost var sums := nc;
    nc := nc.(logLikelihood := nc.logLikelihood + p.logLikelihood);
    assert (ps + [p])[..|ps|] == ps;
    forall j | 0 <= j < k ensures SumsAt(nc, ps + [p], j, dim) {
      assert SumsAt(sums, ps + [p], j, dim);
    }
  }

  /** Both operands hold sums: they are added entry by entry. */
  method AddComp(left: NewComp, right: NewComp, ghost ps: seq<Datapoint>, ghost qs: seq<Datapoint>, k: nat, dim: nat)
    returns (nc: NewComp)
    requires SumsOf(left, ps, k, dim) && SumsOf(right, qs, k, dim)
    ensures SumsOf(nc, ps + qs, k, dim)
  {
    nc := left;
    for i := 0 to k
      invariant Components(nc, k) && nc.logLikelihood == left.logLikelihood
      invariant Between(nc, ps + qs, ps, i, k, dim)
    {
      assert SumsAt(nc, ps, i, dim) && SumsAt(right, qs, i, dim);
      AddCompSums(nc.sumWeights[i], nc.sumMeans[i], nc.sumCovars[i],
                  right.sumWeights[i], right.sumMeans[i], right.sumCovars[i], ps, qs, i, dim);
      ghost var before := nc;
      nc := nc.(sumCovars := nc.sumCovars[i := AddMatrix(right.sumCovars[i], nc.sumCovars[i])]);
      nc := nc.(sumMeans := nc.sumMeans[i := Axpy(1.0, right.sumMeans[i], nc.sumMeans[i])]);
      nc := nc.(sumWeights := nc.sumWeights[i := nc.sumWeights[i] + right.sumWeights[i]]);
      OthersUnchanged(before, nc, ps + qs, ps, i, k, dim);
    }
    ghost var sums := nc;
    nc := nc.(logLikelihood := nc.logLikelihood + right.logLikelihood);
    TotalConcat(ps, qs, LogLikelihood());
    forall j | 0 <= j < k ensures SumsAt(nc, ps + qs, j, dim) {
      assert SumsAt(sums, ps + qs, j, dim);
    }
  }

  // ---------- the lazy accumulator ----------

  class LazyAggregate {
    var aggDatapoint: Option<Datapoint>
    var newComp: Option<NewComp>
    /** The data points merged into this accumulator, in order. */
    ghost var points: seq<Datapoint>

    /** Unprocessed or processed, never both and never neither. */
    ghost predicate Valid(k: nat, dim: nat)
      reads this
    {
      match aggDatapoint
      case Some(p) => newComp.None? && points == [p] && Fits(p, k, dim)
      case None => newComp.Some? && SumsOf(newComp.value, points, k, dim)
    }

    constructor (p: Datapoint, ghost k: nat, ghost dim: nat)
      requires Fits(p, k, dim)
      ensures Valid(k, dim) && points == [p] && aggDatapoint.Some?
    {
      aggDatapoint, newComp, points := Some(p), None, [p];
    }

    /** `operator+`: the left operand absorbs the right one, whichever of them is still unprocessed. */
    method Plus(other: LazyAggregate, ghost k: nat, ghost dim: nat)
      requires Valid(k, dim) && other.Valid(k, dim) && k > 0
      modifies this
      ensures Valid(k, dim) && newComp.Some?
      ensures points == old(points) + old(other.points)
    {
      if aggDatapoint.Some? && newComp.None? {
        var p := aggDatapoint.value;
        var nc := Process(p, |p.r|, |p.x|);
        newComp := Some(nc);
        aggDatapoint := None;
      }
      if other.aggDatapoint.Some? && other.newComp.None? {
        var p := other.aggDatapoint.value;
        var nc := AddPoint(newComp.value, p, points, |p.r|, |p.x|);
        newComp := Some(nc);
      } else {
        ghost var j := 0;
        assert SumsAt(newComp.value, points, j, dim);
        var rank := |newComp.value.sumMeans[0]|;
        var nc := AddComp(newComp.value, other.newComp.value, points, other.points, |newComp.value.sumWeights|, rank);
        newComp := Some(nc);
      }
      points := points + other.points;
    }
  }

  // ---------- any merge order ----------

  datatype MergeTree = Leaf(p: Datapoint) | Merge(left: MergeTree, right: MergeTree)

  function Leaves(t: MergeTree): (ps: seq<Datapoint>)
    ensures ps != []
  {
    match t
    case Leaf(p) => [p]
    case Merge(l, r) => Leaves(l) + Leaves(r)
  }

  predicate AllFit(t: MergeTree, k: nat, dim: nat) {
    match t
    case Leaf(p) => Fits(p, k, dim)
    case Merge(l, r) => AllFit(l, k, dim) && AllFit(r, k, dim)
  }

  /** However the aggregation is scheduled, the root holds the plain sums over all points; it holds sums
      at all exactly when there was something to merge. */
  method Aggregate(t: MergeTree, ghost k: nat, ghost dim: nat) returns (out: Option<NewComp>)
    requires AllFit(t, k, dim) && k > 0
    ensures out.Some? <==> t.Merge?
    ensures out.Some? ==> SumsOf(out.value, Leaves(t), k, dim)
  {
    var a := Reduce(t, k, dim);
    out := a.newComp;
  }

  method Reduce(t: MergeTree, ghost k: nat, ghost dim: nat) returns (a: LazyAggregate)
    requires AllFit(t, k, dim) && k > 0
    ensures fresh(a) && a.Valid(k, dim) && a.points == Leaves(t)
    ensures a.newComp.Some? <==> t.Merge?
  {
    match t {
      case Leaf(p) =>
        a := new LazyAggregate(p, k, dim);
      case Merge(l, r) =>
        a := Reduce(l, k, dim);
        var b := Reduce(r, k, dim);
        a.Plus(b, k, dim);
    }
  }
}
