/** The maximisation step: the mixture model recomputed in place from the aggregated moment sums. */
module GmmModel {
  import opened RealSums
  import opened GmmAggregate

  const MIN_COVAR := 0.000001

  function Scale(v: seq<real>, c: real): (r: seq<real>) {
    seq(|v|, i requires 0 <= i < |v| => v[i] * c)
  }

  function ScaleMatrix(m: Matrix, c: real): (r: Matrix)
    ensures |r| == |m| && forall a :: 0 <= a < |m| ==> |r[a]| == |m[a]|
  {
    seq(|m|, a requires 0 <= a < |m| => Scale(m[a], c))
  }

  /** The covariance entry for a <= b: second moment minus the product of the means, ridge on the diagonal. */
  function UpperEntry(w: real, mean: seq<real>, sums: Matrix, a: int, b: int): (r: real)
    requires Square(sums, |mean|) && 0 <= a < |mean| && 0 <= b < |mean| && w != 0.0
  {
    sums[a][b] * (1.0 / w) + -1.0 * (mean[a] * mean[b]) + if a == b then MIN_COVAR else 0.0
  }

  /** The first `row` rows are finished: ridge added, upper entries copied below the diagonal; in row `row`
      the copies reach up to column `col`. */
  ghost predicate Mirrored(m: Matrix, w: real, mean: seq<real>, sums: Matrix, row: int, col: int)
    requires Square(sums, |mean|) && Square(m, |mean|) && w != 0.0
  {
    forall a, b :: 0 <= a < |mean| && 0 <= b < |mean| ==>
      && (a < b ==> m[a][b] == UpperEntry(w, mean, sums, a, b))
      && (a == b ==> m[a][b] == UpperEntry(w, mean, sums, a, b) - if a < row || (a == row && col > row) then 0.0 else MIN_COVAR)
      && (b < a && (b < row || (b == row && a < col)) ==> m[a][b] == UpperEntry(w, mean, sums, b, a))
  }

  /** The inner loop: the ridge on the diagonal of one row, and the row copied into the column below. */
  method MirrorRow(m: Matrix, row: nat, ghost w: real, ghost mean: seq<real>, ghost sums: Matrix) returns (covar: Matrix)
    requires Square(sums, |mean|) && Square(m, |mean|) && w != 0.0 && row < |mean| && Mirrored(m, w, mean, sums, row, row)
    ensures Square(covar, |mean|) && Mirrored(covar, w, mean, sums, row + 1, row + 1)
  {
    var n := |m|;
    covar := m[row := m[row][row := m[row][row] + MIN_COVAR]];
    var col := row + 1;
    while col < n
      invariant row < col <= n && Square(covar, n)
      invariant Mirrored(covar, w, mean, sums, row, col)
    {
      var d := covar[row][col];
      covar := covar[col := covar[col][row := d]];
      col := col + 1;
    }
  }

  /** Mean and covariance of one component from its sums. */
  method UpdateComponent(w: real, sumMean: seq<real>, sumCovar: Matrix) returns (mean: seq<real>, covar: Matrix)
    requires w != 0.0 && Square(sumCovar, |sumMean|)
    ensures mean == Scale(sumMean, 1.0 / w)
    ensures IsCovariance(covar, w, mean, sumCovar)
  {
    mean := Scale(sumMean, 1.0 / w);
    covar := SyrUpper(-1.0, mean, ScaleMatrix(sumCovar, 1.0 / w));
    StartMirrored(w, mean, sumCovar);
    var row := 0;
    while row < |mean|
      invariant 0 <= row <= |mean| && Square(covar, |mean|)
      invariant Mirrored(covar, w, mean, sumCovar, row, row)
    {
      covar := MirrorRow(covar, row, w, mean, sumCovar);
      row := row + 1;
    }
  }

  lemma {:induction false} StartMirrored(w: real, mean: seq<real>, sums: Matrix)
    requires w != 0.0 && Square(sums, |mean|)
    ensures Mirrored(SyrUpper(-1.0, mean, ScaleMatrix(sums, 1.0 / w)), w, mean, sums, 0, 0)
  {
    var scaled := ScaleMatrix(sums, 1.0 / w);
    var m := SyrUpper(-1.0, mean, scaled);
    forall a, b | 0 <= a <= b < |mean|
      ensures m[a][b] == UpperEntry(w, mean, sums, a, b) - if a == b then MIN_COVAR else 0.0
    {
      assert scaled[a][b] == sums[a][b] * (1.0 / w);
      assert m[a][b] == scaled[a][b] + -1.0 * (mean[a] * mean[b]);
    }
  }

  class GmmModel {
    const k: nat
    const ndim: nat
    var weights: seq<real>
    var means: seq<seq<real>>
    var covars: seq<Matrix>

    /** Equal weights; means and covariances zero-filled. */
    constructor (k: nat, ndim: nat)
      requires k > 0
      ensures this.k == k && this.ndim == ndim
      ensures |weights| == |means| == |covars| == k
    {
      this.k, this.ndim := k, ndim;
      weights := seq(k, _ => 1.0 / k as real);
      means := seq(k, _ => Zeros(ndim));
      covars := seq(k, _ => seq(ndim, _ => Zeros(ndim)));
    }

    /** `updateModel`, up to the Cholesky inversion. A zero weight would divide by zero. */
    method UpdateModel(update: NewComp) returns (logLikelihood: real)
      requires |weights| == |means| == |covars| == k && Components(update, k)
      requires forall i :: 0 <= i < k ==> update.sumWeights[i] != 0.0
      requires Sum(k, Entries(update.sumWeights)) != 0.0
      requires forall i :: 0 <= i < k ==> |update.sumMeans[i]| == ndim && Square(update.sumCovars[i], ndim)
      modifies this
      ensures |weights| == |means| == |covars| == k && logLikelihood == update.logLikelihood
      ensures weights == Scale(update.sumWeights, 1.0 / Sum(k, Entries(update.sumWeights)))
      ensures forall i :: 0 <= i < k ==> means[i] == Scale(update.sumMeans[i], 1.0 / update.sumWeights[i])
      ensures forall i :: 0 <= i < k ==> IsCovariance(covars[i], update.sumWeights[i], means[i], update.sumCovars[i])
    {
      var total := 0.0;
      for i := 0 to k
        invariant total == Sum(i, Entries(update.sumWeights))
      {
        total := total + update.sumWeights[i];
      }
      weights := Scale(update.sumWeights, 1.0 / total);
      for i := 0 to k
        invariant |weights| == |means| == |covars| == k
        invariant weights == Scale(update.sumWeights, 1.0 / total)
        invariant forall j :: 0 <= j < i ==> means[j] == Scale(update.sumMeans[j], 1.0 / update.sumWeights[j])
        invariant forall j :: 0 <= j < i ==> IsCovariance(covars[j], update.sumWeights[j], means[j], update.sumCovars[j])
      {
        var mean, covar := UpdateComponent(update.sumWeights[i], update.sumMeans[i], update.sumCovars[i]);
        means := means[i := mean];
        covars := covars[i := covar];
      }
      logLikelihood := update.logLikelihood;
    }
  }

  /** `c` is symmetric with the updated entries on and above the diagonal. */
  ghost predicate IsCovariance(c: Matrix, w: real, mean: seq<real>, sums: Matrix) {
    && w != 0.0 && Square(sums, |mean|) && Square(c, |mean|)
    && forall a, b :: 0 <= a <= b < |mean| ==> c[a][b] == c[b][a] == UpperEntry(w, mean, sums, a, b)
  }

  // ---------- what the update means statistically ----------

  function Centred(j: int, a: int, b: int, ma: real, mb: real): (f: Datapoint -> real) {
    (p: Datapoint) => At(p.r, j) * ((At(p.x, a) - ma) * (At(p.x, b) - mb))
  }

  /** A sum of centred products, in terms of the plain sums. */
  datatype Moments = Moments(centred: real, second: real, firstA: real, firstB: real, weight: real)

  function MomentsOf(ps: seq<Datapoint>, j: int, a: int, b: int, ma: real, mb: real): (t: Moments) {
    Moments(Total(ps, Centred(j, a, b, ma, mb)), Total(ps, Second(j, a, b)), Total(ps, First(j, a)), Total(ps, First(j, b)),
            Total(ps, Weight(j)))
  }

  predicate Expands(t: Moments, ma: real, mb: real) {
    t.centred == t.second - mb * t.firstA - ma * t.firstB + ma * mb * t.weight
  }

  lemma {:induction false} CentredExpands(ps: seq<Datapoint>, j: int, a: int, b: int, ma: real, mb: real, t: Moments)
    requires t == MomentsOf(ps, j, a, b, ma, mb)
    ensures Expands(t, ma, mb)
    decreases |ps|
  {
    if ps != [] {
      var init, p := ps[..|ps| - 1], ps[|ps| - 1];
      var s := MomentsOf(init, j, a, b, ma, mb);
      CentredExpands(init, j, a, b, ma, mb, s);
      MomentsLast(ps, j, a, b, ma, mb);
      MomentsStep(s, t, At(p.r, j), At(p.x, a), At(p.x, b), ma, mb);
    }
  }

  function AddMoments(s: Moments, r: real, x: real, y: real, ma: real, mb: real): (t: Moments) {
    Moments(s.centred + r * ((x - ma) * (y - mb)), s.second + r * (x * y), s.firstA + r * x, s.firstB + r * y, s.weight + r)
  }

  lemma {:induction false} MomentsLast(ps: seq<Datapoint>, j: int, a: int, b: int, ma: real, mb: real)
    requires ps != []
    ensures var p := ps[|ps| - 1];
            MomentsOf(ps, j, a, b, ma, mb) ==
            AddMoments(MomentsOf(ps[..|ps| - 1], j, a, b, ma, mb), At(p.r, j), At(p.x, a), At(p.x, b), ma, mb)
  {
    TotalLast(ps, Centred(j, a, b, ma, mb));
    TotalLast(ps, Second(j, a, b));
    TotalLast(ps, First(j, a));
    TotalLast(ps, First(j, b));
    TotalLast(ps, Weight(j));
  }

  lemma {:induction false} MomentsStep(s: Moments, t: Moments, r: real, x: real, y: real, ma: real, mb: real)
    requires Expands(s, ma, mb) && t == AddMoments(s, r, x, y, ma, mb)
    ensures Expands(t, ma, mb)
  {
    CentredStep(s.centred, s.second, s.firstA, s.firstB, s.weight, r, x, y, ma, mb);
  }

  lemma {:induction false} CentredStep(c: real, s: real, sa: real, sb: real, w: real, r: real, x: real, y: real, ma: real, mb: real)
    requires c == s - mb * sa - ma * sb + ma * mb * w
    ensures c + r * ((x - ma) * (y - mb)) ==
            (s + r * (x * y)) - mb * (sa + r * x) - ma * (sb + r * y) + ma * mb * (w + r)
  {
    assert (x - ma) * (y - mb) == x * y - mb * x - ma * y + ma * mb;
    assert r * (x * y - mb * x - ma * y + ma * mb) == r * (x * y) - mb * (r * x) - ma * (r * y) + ma * mb * r;
  }

  /** Around the weighted mean the cross terms cancel. */
  lemma {:induction false} CentredAroundMean(ps: seq<Datapoint>, j: int, a: int, b: int, ma: real, mb: real, t: Moments)
    requires t == MomentsOf(ps, j, a, b, ma, mb) && t.weight != 0.0
    requires ma == t.firstA * (1.0 / t.weight) && mb == t.firstB * (1.0 / t.weight)
    ensures t.centred / t.weight == t.second * (1.0 / t.weight) + -1.0 * (ma * mb)
  {
    CentredExpands(ps, j, a, b, ma, mb, t);
    MomentsAroundMean(t, ma, mb);
  }

  lemma {:induction false} MomentsAroundMean(t: Moments, ma: real, mb: real)
    requires Expands(t, ma, mb) && t.weight != 0.0
    requires ma == t.firstA * (1.0 / t.weight) && mb == t.firstB * (1.0 / t.weight)
    ensures t.centred / t.weight == t.second * (1.0 / t.weight) + -1.0 * (ma * mb)
  {
    MeanAlgebra(t.centred, t.second, t.firstA, t.firstB, t.weight, ma, mb);
  }

  lemma {:induction false} MeanAlgebra(c: real, sab: real, sa: real, sb: real, w: real, ma: real, mb: real)
    requires w != 0.0 && ma == sa * (1.0 / w) && mb == sb * (1.0 / w)
    requires c == sab - mb * sa - ma * sb + ma * mb * w
    ensures c / w == sab * (1.0 / w) + -1.0 * (ma * mb)
  {
    DivideBack(sa, w);
    DivideBack(sb, w);
    assert sa == ma * w && sb == mb * w;
    CancelCross(sab, ma, mb, w);
  }

  lemma {:induction false} DivideBack(s: real, w: real)
    requires w != 0.0
    ensures s * (1.0 / w) * w == s
  {
    assert (1.0 / w) * w == 1.0;
    assert s * (1.0 / w) * w == s * ((1.0 / w) * w);
  }

  lemma {:induction false} CancelCross(sab: real, ma: real, mb: real, w: real)
    requires w != 0.0
    ensures (sab - mb * (ma * w) - ma * (mb * w) + ma * mb * w) / w == sab * (1.0 / w) + -1.0 * (ma * mb)
  {
    var t := ma * mb;
    assert mb * (ma * w) == t * w && ma * (mb * w) == t * w;
    assert sab - t * w - t * w + t * w == sab - t * w;
    var u := sab * (1.0 / w) + -1.0 * t;
    DivideBack(sab, w);
    assert u * w == sab * (1.0 / w) * w - t * w;
    assert u * w / w == u;
  }

  /** The weighted outer products of the centred points, as an entry function. */
  function Scatter(ps: seq<Datapoint>, j: int, m: seq<real>): (f: (int, int) -> real) {
    (a: int, b: int) => Total(ps, Centred(j, a, b, At(m, a), At(m, b)))
  }

  function Shifted(p: Datapoint, m: seq<real>): (f: int -> real) {
    (a: int) => At(p.x, a) - At(m, a)
  }

  predicate NonNegative(ps: seq<Datapoint>, j: int) {
    forall p :: p in ps ==> At(p.r, j) >= 0.0
  }

  lemma {:induction false} ScatterEntryStep(ps: seq<Datapoint>, p: Datapoint, j: int, m: seq<real>, a: int, b: int)
    ensures Scatter(ps + [p], j, m)(a, b) == Scatter(ps, j, m)(a, b) + At(p.r, j) * (Shifted(p, m)(a) * Shifted(p, m)(b))
  {
    var f := Centred(j, a, b, At(m, a), At(m, b));
    assert (ps + [p])[..|ps|] == ps;
    assert f(p) == At(p.r, j) * (Shifted(p, m)(a) * Shifted(p, m)(b));
    assert Total(ps + [p], f) == Total(ps, f) + f(p);
  }

  /** One more point adds the square of a linear form, weighted by its responsibility. */
  lemma {:induction false} ScatterAddsSquare(ps: seq<Datapoint>, p: Datapoint, j: int, m: seq<real>, n: nat)
    ensures Combines(n, Scatter(ps, j, m), Outer(Shifted(p, m)), Scatter(ps + [p], j, m), At(p.r, j))
  {
    forall a, b ensures Scatter(ps + [p], j, m)(a, b) == Scatter(ps, j, m)(a, b) + At(p.r, j) * Outer(Shifted(p, m))(a, b) {
      ScatterEntryStep(ps, p, j, m, a, b);
    }
  }

  lemma {:induction false} ScatterStep(ps: seq<Datapoint>, p: Datapoint, j: int, m: seq<real>, n: nat, z: int -> real)
    requires At(p.r, j) >= 0.0
    ensures Quad(n, Scatter(ps + [p], j, m), z) >= Quad(n, Scatter(ps, j, m), z)
  {
    var before, after, y := Scatter(ps, j, m), Scatter(ps + [p], j, m), Shifted(p, m);
    ScatterAddsSquare(ps, p, j, m, n);
    QuadAddSquare(n, before, y, after, At(p.r, j), z);
  }

  /** A scatter matrix with non-negative weights is positive semidefinite. */
  lemma {:induction false} ScatterNonNegative(ps: seq<Datapoint>, j: int, m: seq<real>, n: nat, z: int -> real)
    requires NonNegative(ps, j)
    ensures Quad(n, Scatter(ps, j, m), z) >= 0.0
  {
    if ps == [] {
      QuadZero(n, Scatter(ps, j, m), z);
    } else {
      var init, p := ps[..|ps| - 1], ps[|ps| - 1];
      ScatterNonNegative(init, j, m, n, z);
      assert init + [p] == ps;
      ScatterStep(init, p, j, m, n, z);
    }
  }

  function Entry(c: Matrix): (f: (int, int) -> real) {
    (a: int, b: int) => if 0 <= a < |c| then At(c[a], b) else 0.0
  }

  /** On and above the diagonal. */
  lemma {:induction false} UpperIsCentred(w: real, sumMean: seq<real>, sumCovar: Matrix, ps: seq<Datapoint>, j: nat, dim: nat,
                       mean: seq<real>, c: Matrix, a: nat, b: nat)
    requires ComponentSums(w, sumMean, sumCovar, ps, j, dim) && w != 0.0 && a <= b < dim
    requires mean == Scale(sumMean, 1.0 / w) && IsCovariance(c, w, mean, sumCovar)
    ensures c[a][b] == c[b][a]
    ensures c[a][b] == Total(ps, Centred(j, a, b, mean[a], mean[b])) / w + if a == b then MIN_COVAR else 0.0
  {
    assert mean[a] == Total(ps, First(j, a)) * (1.0 / w) && mean[b] == Total(ps, First(j, b)) * (1.0 / w);
    CentredAroundMean(ps, j, a, b, mean[a], mean[b], MomentsOf(ps, j, a, b, mean[a], mean[b]));
    assert c[a][b] == UpperEntry(w, mean, sumCovar, a, b);
  }

  /** The updated covariance is the weighted centred covariance of the points plus the ridge. */
  lemma {:induction false} UpdateIsCentredCovariance(w: real, sumMean: seq<real>, sumCovar: Matrix, ps: seq<Datapoint>, j: nat, dim: nat,
                                  mean: seq<real>, c: Matrix, a: nat, b: nat)
    requires ComponentSums(w, sumMean, sumCovar, ps, j, dim) && w != 0.0 && a < dim && b < dim
    requires mean == Scale(sumMean, 1.0 / w) && IsCovariance(c, w, mean, sumCovar)
    ensures c[a][b] == c[b][a]
    ensures c[a][b] == Scatter(ps, j, mean)(a, b) / w + if a == b then MIN_COVAR else 0.0
  {
    assert Scatter(ps, j, mean)(a, b) == Total(ps, Centred(j, a, b, mean[a], mean[b]));
    if a <= b {
      UpperIsCentred(w, sumMean, sumCovar, ps, j, dim, mean, c, a, b);
    } else {
      UpperIsCentred(w, sumMean, sumCovar, ps, j, dim, mean, c, b, a);
      CentredSymmetric(ps, j, a, b, mean[a], mean[b]);
    }
  }

  lemma {:induction false} CentredSymmetric(ps: seq<Datapoint>, j: int, a: int, b: int, ma: real, mb: real)
    ensures Total(ps, Centred(j, a, b, ma, mb)) == Total(ps, Centred(j, b, a, mb, ma))
  {
    TotalExt(ps, Centred(j, a, b, ma, mb), Centred(j, b, a, mb, ma));
  }

  /** A positive semidefinite matrix, divided by a positive weight, plus a ridge is positive definite. */
  lemma {:induction false} RidgeBound(n: nat, scatter: (int, int) -> real, c: (int, int) -> real, w: real, z: int -> real)
    requires w > 0.0 && Quad(n, scatter, z) >= 0.0
    requires forall a, b :: 0 <= a < n && 0 <= b < n ==> c(a, b) == scatter(a, b) / w + if a == b then MIN_COVAR else 0.0
    ensures Quad(n, c, z) >= MIN_COVAR * Dot(n, z, z)
  {
    var ridge := (a: int, b: int) => if a == b then MIN_COVAR else 0.0;
    QuadRidge(n, ridge, MIN_COVAR, z);
    var v := 1.0 / w;
    forall a, b | 0 <= a < n && 0 <= b < n ensures c(a, b) == ridge(a, b) + v * scatter(a, b) {
      assert scatter(a, b) / w == v * scatter(a, b);
    }
    QuadLinear(n, ridge, scatter, c, v, z);
    ProductNonNegative(v, Quad(n, scatter, z));
  }

  lemma {:induction false} ProductNonNegative(x: real, y: real)
    requires x >= 0.0 && y >= 0.0
    ensures x * y >= 0.0
  {
  }

  /** Mean and covariance of component `j` are those of the points weighted by its responsibilities. */
  ghost predicate WeightedMoments(mean: seq<real>, c: Matrix, ps: seq<Datapoint>, j: int, dim: nat) {
    var w := Total(ps, Weight(j));
    && w > 0.0 && |mean| == dim && Square(c, dim)
    && (forall a :: 0 <= a < dim ==> mean[a] * w == Total(ps, First(j, a)))
    && forall a, b :: 0 <= a < dim && 0 <= b < dim ==>
         c[a][b] == c[b][a] && c[a][b] == Scatter(ps, j, mean)(a, b) / w + if a == b then 0.000001 else 0.0
  }

  lemma {:induction false} UpdateGivesWeightedMoments(w: real, sumMean: seq<real>, sumCovar: Matrix, ps: seq<Datapoint>, j: nat, dim: nat,
                                   mean: seq<real>, c: Matrix)
    requires ComponentSums(w, sumMean, sumCovar, ps, j, dim) && w > 0.0
    requires mean == Scale(sumMean, 1.0 / w) && IsCovariance(c, w, mean, sumCovar)
    ensures WeightedMoments(mean, c, ps, j, dim)
  {
    forall a | 0 <= a < dim ensures mean[a] * w == Total(ps, First(j, a)) {
      DivideBack(sumMean[a], w);
    }
    forall a, b | 0 <= a < dim && 0 <= b < dim
      ensures c[a][b] == c[b][a] && c[a][b] == Scatter(ps, j, mean)(a, b) / w + if a == b then MIN_COVAR else 0.0
    {
      UpdateIsCentredCovariance(w, sumMean, sumCovar, ps, j, dim, mean, c, a, b);
    }
  }

  /** Such a covariance is positive definite: z' C z is at least the ridge times the squared length of z. */
  lemma {:induction false} CovarianceIsPositiveDefinite(mean: seq<real>, c: Matrix, ps: seq<Datapoint>, j: int, dim: nat, z: int -> real)
    requires WeightedMoments(mean, c, ps, j, dim) && NonNegative(ps, j)
    ensures Quad(dim, Entry(c), z) >= MIN_COVAR * Dot(dim, z, z)
  {
    ScatterNonNegative(ps, j, mean, dim, z);
    RidgeBound(dim, Scatter(ps, j, mean), Entry(c), Total(ps, Weight(j)), z);
  }

  // ---------- a whole maximisation step ----------

  /** The total responsibility of each component. */
  function Totals(ps: seq<Datapoint>): (f: int -> real) { (j: int) => Total(ps, Weight(j)) }

  /** Responsibilities that sum to one per point sum to the number of points. */
  lemma {:induction false} WeightsTotal(ps: seq<Datapoint>, k: nat)
    requires forall p :: p in ps ==> Sum(k, Entries(p.r)) == 1.0
    ensures Sum(k, Totals(ps)) == |ps| as real
  {
    var all := Totals(ps);
    if ps == [] {
      SumLinear(k, all, all, all, 1.0);
    } else {
      var init, p := ps[..|ps| - 1], ps[|ps| - 1];
      WeightsTotal(init, k);
      SumLinear(k, Totals(init), Entries(p.r), all, 1.0);
    }
  }

  lemma {:induction false} ScaledSum(n: nat, v: seq<real>, c: real)
    requires n <= |v|
    ensures Sum(n, Entries(Scale(v, c))) == c * Sum(n, Entries(v))
  {
    if n > 0 {
      ScaledSum(n - 1, v, c);
    }
  }

  /** z'Cz >= 1e-6 |z|^2 for every vector z. */
  ghost predicate PositiveDefinite(c: Matrix, n: nat) {
    forall z: int -> real :: Quad(n, Entry(c), z) >= 0.000001 * Dot(n, z, z)
  }

  /** The weights are the components' shares of the total responsibility. */
  ghost predicate MixtureWeights(weights: seq<real>, ps: seq<Datapoint>) {
    var total := Sum(|weights|, Totals(ps));
    && Sum(|weights|, Entries(weights)) == 1.0
    && forall j :: 0 <= j < |weights| ==> weights[j] * total == Total(ps, Weight(j))
  }

  /** Aggregating at least two points in any order and updating the model gives every component the
      weighted mean and covariance of the points, and weights that sum to one. */
  method MaximisationStep(model: GmmModel, t: MergeTree) returns (logLikelihood: real)
    requires t.Merge? && AllFit(t, model.k, model.ndim) && model.k > 0
    requires |model.weights| == |model.means| == |model.covars| == model.k
    requires forall j :: 0 <= j < model.k ==> Total(Leaves(t), Weight(j)) > 0.0
    modifies model
    ensures |model.weights| == |model.means| == |model.covars| == model.k
    ensures forall j :: 0 <= j < model.k ==> WeightedMoments(model.means[j], model.covars[j], Leaves(t), j, model.ndim)
    ensures forall j :: 0 <= j < model.k && NonNegative(Leaves(t), j) ==> PositiveDefinite(model.covars[j], model.ndim)
    ensures MixtureWeights(model.weights, Leaves(t))
    ensures logLikelihood == Total(Leaves(t), LogLikelihood())
  {
    ghost var k, dim, ps := model.k, model.ndim, Leaves(t);
    var sums := Aggregate(t, k, dim);
    var update := sums.value;
    TotalsOfUpdate(update, ps, k, dim);
    logLikelihood := model.UpdateModel(update);
    forall j | 0 <= j < k ensures MomentsAndBound(model.means[j], model.covars[j], ps, j, dim) {
      assert SumsAt(update, ps, j, dim);
      ComponentUpdated(update.sumWeights[j], update.sumMeans[j], update.sumCovars[j], ps, j, dim, model.means[j], model.covars[j]);
    }
    WeightsAreShares(update.sumWeights, model.weights, ps, Sum(k, Entries(update.sumWeights)));
  }

  ghost predicate MomentsAndBound(mean: seq<real>, c: Matrix, ps: seq<Datapoint>, j: int, dim: nat) {
    WeightedMoments(mean, c, ps, j, dim) && (NonNegative(ps, j) ==> PositiveDefinite(c, dim))
  }

  lemma {:induction false} ComponentUpdated(w: real, sumMean: seq<real>, sumCovar: Matrix, ps: seq<Datapoint>, j: nat, dim: nat,
                                            mean: seq<real>, c: Matrix)
    requires ComponentSums(w, sumMean, sumCovar, ps, j, dim) && w > 0.0
    requires mean == Scale(sumMean, 1.0 / w) && IsCovariance(c, w, mean, sumCovar)
    ensures MomentsAndBound(mean, c, ps, j, dim)
  {
    UpdateGivesWeightedMoments(w, sumMean, sumCovar, ps, j, dim, mean, c);
    if NonNegative(ps, j) {
      forall z: int -> real ensures Quad(dim, Entry(c), z) >= MIN_COVAR * Dot(dim, z, z) {
        CovarianceIsPositiveDefinite(mean, c, ps, j, dim, z);
      }
    }
  }

  lemma {:induction false} TotalsOfUpdate(update: NewComp, ps: seq<Datapoint>, k: nat, dim: nat)
    requires SumsOf(update, ps, k, dim) && k > 0 && forall j :: 0 <= j < k ==> Total(ps, Weight(j)) > 0.0
    ensures Sum(k, Entries(update.sumWeights)) > 0.0
    ensures forall j :: 0 <= j < k ==>
              update.sumWeights[j] == Total(ps, Weight(j)) && |update.sumMeans[j]| == dim && Square(update.sumCovars[j], dim)
  {
    forall j | 0 <= j < k
      ensures update.sumWeights[j] == Total(ps, Weight(j)) && |update.sumMeans[j]| == dim && Square(update.sumCovars[j], dim)
    {
      assert SumsAt(update, ps, j, dim);
    }
    var f := Entries(update.sumWeights);
    assert f(0) > 0.0;
    SumNonNegative(k, f);
  }

  lemma {:induction false} WeightsAreShares(sums: seq<real>, weights: seq<real>, ps: seq<Datapoint>, total: real)
    requires forall j :: 0 <= j < |sums| ==> sums[j] == Total(ps, Weight(j))
    requires total == Sum(|sums|, Entries(sums)) && total != 0.0 && weights == Scale(sums, 1.0 / total)
    ensures MixtureWeights(weights, ps)
  {
    SumExt(|sums|, Entries(sums), Totals(ps));
    WeightsSumToOne(sums, weights, total);
    ScaledBack(sums, weights, total);
  }

  lemma {:induction false} ScaledBack(sums: seq<real>, weights: seq<real>, total: real)
    requires total != 0.0 && weights == Scale(sums, 1.0 / total)
    ensures forall j :: 0 <= j < |sums| ==> weights[j] * total == sums[j]
  {
    forall j | 0 <= j < |sums| ensures weights[j] * total == sums[j] {
      DivideBack(sums[j], total);
    }
  }

  lemma {:induction false} WeightsSumToOne(sums: seq<real>, weights: seq<real>, total: real)
    requires Sum(|sums|, Entries(sums)) == total != 0.0 && weights == Scale(sums, 1.0 / total)
    ensures Sum(|sums|, Entries(weights)) == 1.0
  {
    var v := 1.0 / total;
    Reciprocal(total);
    ScaledSum(|sums|, sums, v);
  }

  lemma {:induction false} Reciprocal(w: real)
    requires w != 0.0
    ensures (1.0 / w) * w == 1.0
  {
  }
}
