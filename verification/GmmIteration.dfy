/** One full iteration of expectation maximisation: responsibilities of every point under the present weights,
    aggregated in any order, and the model recomputed from them. */
module GmmIteration {
  import opened RealSums
  import opened GmmAggregate
  import opened GmmModel
  import opened GmmResponsibilities

  /** The data points, in the shape in which their accumulators will be merged. */
  datatype PointTree = Point(x: seq<real>) | Pair(left: PointTree, right: PointTree)

  function Points(t: PointTree): (xs: seq<seq<real>>)
    ensures xs != []
  {
    match t
    case Point(x) => [x]
    case Pair(l, r) => Points(l) + Points(r)
  }

  /** The log density of a point under a component, as the model computes it. */
  type Density = (nat, seq<real>) -> real

  /** Mixture weights as the logarithm can take them: none negative, and not all zero. */
  predicate Weights(weights: seq<real>) {
    (forall j :: 0 <= j < |weights| ==> weights[j] >= 0.0) && exists j :: 0 <= j < |weights| && weights[j] > 0.0
  }

  /** The weighted density of each component at `x`. */
  function Weighted(e: ExpLog, density: Density, weights: seq<real>, x: seq<real>): (f: int -> real) {
    (j: int) => if 0 <= j < |weights| then weights[j] * e.exp(density(j, x)) else 0.0
  }

  /** `r` is the share of `part` in `whole`. */
  predicate IsPart(r: real, part: real, whole: real) { r >= 0.0 && r * whole == part }

  /** What the expectation step makes of a point: each responsibility is the component's share of the total
      weighted density, positive exactly if the weight is, and together they are one. */
  ghost predicate Expected(e: ExpLog, density: Density, weights: seq<real>, x: seq<real>, p: Datapoint) {
    && p.x == x && |p.r| == |weights| && Sum(|weights|, Entries(p.r)) == 1.0
    && e.exp(p.logLikelihood) == Sum(|weights|, Weighted(e, density, weights, x))
    && (forall j :: 0 <= j < |weights| ==> IsPart(p.r[j], Weighted(e, density, weights, x)(j), e.exp(p.logLikelihood)))
    && forall j :: 0 <= j < |weights| ==> (p.r[j] > 0.0 <==> weights[j] > 0.0)
  }

  ghost predicate ExpectedAll(e: ExpLog, density: Density, weights: seq<real>, xs: seq<seq<real>>, ps: seq<Datapoint>) {
    |ps| == |xs| && forall i :: 0 <= i < |xs| ==> Expected(e, density, weights, xs[i], ps[i])
  }

  lemma {:induction false} LogDensity(e: ExpLog, density: Density, weights: seq<real>, x: seq<real>, logp: seq<LogValue>, j: nat)
    requires Lawful(e) && Weights(weights) && j < |weights| == |logp| && logp[j] == Plus(Log(e, weights[j]), density(j, x))
    ensures Exp(e, logp[j]) == Weighted(e, density, weights, x)(j) && (logp[j].Finite? <==> weights[j] > 0.0)
  {
    ExpOfPlus(e, Log(e, weights[j]), density(j, x));
    ExpOfLog(e, weights[j]);
  }

  lemma {:induction false} DensityTotal(e: ExpLog, density: Density, weights: seq<real>, x: seq<real>, logp: seq<LogValue>)
    requires Lawful(e) && Weights(weights) && |logp| == |weights|
    requires forall j :: 0 <= j < |weights| ==> logp[j] == Plus(Log(e, weights[j]), density(j, x))
    ensures SomeFinite(logp) && TotalOf(e, logp) == Sum(|weights|, Weighted(e, density, weights, x))
  {
    forall j | 0 <= j < |weights|
      ensures ExpAt(e, logp, 0.0)(j) == Weighted(e, density, weights, x)(j) && (logp[j].Finite? <==> weights[j] > 0.0)
    {
      LogDensity(e, density, weights, x, logp, j);
      Unshift(e, logp[j], 0.0);
    }
    SumExt(|weights|, ExpAt(e, logp, 0.0), Weighted(e, density, weights, x));
    var j :| 0 <= j < |weights| && weights[j] > 0.0;
    assert logp[j].Finite?;
  }

  /** The value projection of one point. */
  method Expect(e: ExpLog, density: Density, weights: seq<real>, x: seq<real>) returns (p: Datapoint)
    requires Lawful(e) && Weights(weights)
    ensures Expected(e, density, weights, x, p)
  {
    var logp := seq(|weights|, j requires 0 <= j < |weights| => Plus(Log(e, weights[j]), density(j, x)));
    DensityTotal(e, density, weights, x, logp);
    var r, logLikelihood := Responsibilities(e, logp);
    p := Datapoint(x, r, logLikelihood);
    ExpectedShares(e, density, weights, x, logp, p);
  }

  lemma {:induction false} ExpectedShares(e: ExpLog, density: Density, weights: seq<real>, x: seq<real>, logp: seq<LogValue>, p: Datapoint)
    requires Lawful(e) && Weights(weights) && |logp| == |weights| == |p.r| && p.x == x && Sum(|weights|, Entries(p.r)) == 1.0
    requires forall j :: 0 <= j < |weights| ==> logp[j] == Plus(Log(e, weights[j]), density(j, x))
    requires e.exp(p.logLikelihood) == TotalOf(e, logp) == Sum(|weights|, Weighted(e, density, weights, x))
    requires forall j :: 0 <= j < |weights| ==> IsShare(e, p.r[j], logp[j], p.logLikelihood)
    ensures Expected(e, density, weights, x, p)
  {
    forall j | 0 <= j < |weights|
      ensures IsPart(p.r[j], Weighted(e, density, weights, x)(j), e.exp(p.logLikelihood)) && (p.r[j] > 0.0 <==> weights[j] > 0.0)
    {
      ShareIsPart(e, density, weights, x, logp, j, p.r[j], p.logLikelihood);
    }
  }

  lemma {:induction false} ShareIsPart(e: ExpLog, density: Density, weights: seq<real>, x: seq<real>, logp: seq<LogValue>, j: nat, r: real, total: real)
    requires Lawful(e) && Weights(weights) && j < |weights| == |logp| && logp[j] == Plus(Log(e, weights[j]), density(j, x))
    requires IsShare(e, r, logp[j], total)
    ensures IsPart(r, Weighted(e, density, weights, x)(j), e.exp(total)) && (r > 0.0 <==> weights[j] > 0.0)
  {
    LogDensity(e, density, weights, x, logp, j);
  }

  lemma {:induction false} ExpectedConcat(e: ExpLog, density: Density, weights: seq<real>, xs: seq<seq<real>>, ps: seq<Datapoint>,
                                          ys: seq<seq<real>>, qs: seq<Datapoint>)
    requires ExpectedAll(e, density, weights, xs, ps) && ExpectedAll(e, density, weights, ys, qs)
    ensures ExpectedAll(e, density, weights, xs + ys, ps + qs)
  {
    forall i | 0 <= i < |xs + ys| ensures Expected(e, density, weights, (xs + ys)[i], (ps + qs)[i]) {
      if i < |xs| {
        assert Expected(e, density, weights, xs[i], ps[i]);
      } else {
        assert Expected(e, density, weights, ys[i - |xs|], qs[i - |xs|]);
      }
    }
  }

  method ExpectAll(e: ExpLog, density: Density, weights: seq<real>, t: PointTree, ghost dim: nat) returns (m: MergeTree)
    requires Lawful(e) && Weights(weights) && forall x :: x in Points(t) ==> |x| == dim
    ensures AllFit(m, |weights|, dim) && (m.Merge? <==> t.Pair?) && ExpectedAll(e, density, weights, Points(t), Leaves(m))
  {
    match t {
      case Point(x) =>
        assert x in Points(t);
        var p := Expect(e, density, weights, x);
        m := Leaf(p);
      case Pair(l, r) =>
        var ml := ExpectAll(e, density, weights, l, dim);
        var mr := ExpectAll(e, density, weights, r, dim);
        ExpectedConcat(e, density, weights, Points(l), Leaves(ml), Points(r), Leaves(mr));
        m := Merge(ml, mr);
    }
  }

  lemma {:induction false} TotalSign(ps: seq<Datapoint>, j: int, positive: bool)
    requires ps != [] && forall p :: p in ps ==> At(p.r, j) >= 0.0 && (At(p.r, j) > 0.0 <==> positive)
    ensures Total(ps, Weight(j)) >= 0.0 && (Total(ps, Weight(j)) > 0.0 <==> positive)
  {
    var init, p := ps[..|ps| - 1], ps[|ps| - 1];
    TotalLast(ps, Weight(j));
    if init != [] { TotalSign(init, j, positive); }
  }

  /** The totals by which the update divides: never negative, together the number of points, and zero exactly
      for the components whose weight is zero. So the update is defined exactly if all weights are positive. */
  lemma {:induction false} ExpectedWeights(e: ExpLog, density: Density, weights: seq<real>, xs: seq<seq<real>>, ps: seq<Datapoint>)
    requires ExpectedAll(e, density, weights, xs, ps) && xs != [] && Weights(weights)
    ensures forall j :: 0 <= j < |weights| ==> NonNegative(ps, j) && Total(ps, Weight(j)) >= 0.0
    ensures forall j :: 0 <= j < |weights| ==> (Total(ps, Weight(j)) == 0.0 <==> weights[j] == 0.0)
    ensures Sum(|weights|, Totals(ps)) == |ps| as real
  {
    forall i | 0 <= i < |ps| ensures Expected(e, density, weights, xs[i], ps[i]) {
    }
    forall j | 0 <= j < |weights|
      ensures NonNegative(ps, j) && Total(ps, Weight(j)) >= 0.0 && (Total(ps, Weight(j)) == 0.0 <==> weights[j] == 0.0)
    {
      forall p | p in ps ensures At(p.r, j) >= 0.0 && (At(p.r, j) > 0.0 <==> weights[j] > 0.0) {
        var i :| 0 <= i < |ps| && ps[i] == p;
        assert Expected(e, density, weights, xs[i], ps[i]);
        assert IsPart(p.r[j], Weighted(e, density, weights, xs[i])(j), e.exp(p.logLikelihood));
      }
      TotalSign(ps, j, weights[j] > 0.0);
    }
    WeightsTotal(ps, |weights|);
  }

  /** `w` is positive and is the mean over `n` points of what sums to `s`. */
  predicate IsMean(w: real, n: real, s: real) { w > 0.0 && w * n == s }

  lemma {:induction false} NewWeights(weights: seq<real>, ps: seq<Datapoint>)
    requires MixtureWeights(weights, ps) && ps != [] && Sum(|weights|, Totals(ps)) == |ps| as real
    requires forall j :: 0 <= j < |weights| ==> Total(ps, Weight(j)) > 0.0
    ensures Sum(|weights|, Entries(weights)) == 1.0
    ensures forall j :: 0 <= j < |weights| ==> IsMean(weights[j], |ps| as real, Total(ps, Weight(j)))
  {
    forall j | 0 <= j < |weights| ensures IsMean(weights[j], |ps| as real, Total(ps, Weight(j))) {
      PositiveShare(weights[j], |ps| as real, Total(ps, Weight(j)));
    }
  }

  lemma {:induction false} PositiveShare(w: real, n: real, s: real)
    requires n > 0.0 && s > 0.0 && w * n == s
    ensures w > 0.0
  {
  }

  /** For every data set of at least two points, every merge order and all positive weights: each new weight is
      the component's mean responsibility, so that the weights are positive and sum to one; means and covariances
      are those of the points weighted by responsibility; and every covariance is positive definite. `ps` are the
      points with their responsibilities. */
  method EmIteration(model: GmmModel, e: ExpLog, density: Density, t: PointTree) returns (logLikelihood: real, ghost ps: seq<Datapoint>)
    requires Lawful(e) && t.Pair? && model.k > 0 && |model.weights| == |model.means| == |model.covars| == model.k
    requires forall x :: x in Points(t) ==> |x| == model.ndim
    requires forall j :: 0 <= j < model.k ==> model.weights[j] > 0.0
    modifies model
    ensures |model.weights| == |model.means| == |model.covars| == model.k
    ensures ExpectedAll(e, density, old(model.weights), Points(t), ps)
    ensures Sum(model.k, Entries(model.weights)) == 1.0
    ensures forall j :: 0 <= j < model.k ==> IsMean(model.weights[j], |ps| as real, Total(ps, Weight(j)))
    ensures forall j :: 0 <= j < model.k ==> WeightedMoments(model.means[j], model.covars[j], ps, j, model.ndim)
    ensures forall j :: 0 <= j < model.k ==> PositiveDefinite(model.covars[j], model.ndim)
    ensures logLikelihood == Total(ps, LogLikelihood())
  {
    assert model.weights[0] > 0.0;
    var m := ExpectAll(e, density, model.weights, t, model.ndim);
    ps := Leaves(m);
    ExpectedWeights(e, density, model.weights, Points(t), ps);
    logLikelihood := MaximisationStep(model, m);
    NewWeights(model.weights, ps);
  }

  /** Any number of iterations: `densities(i)` is what the model computes in iteration i. Positive weights stay
      positive, so that no iteration divides by zero. */
  method EmRun(model: GmmModel, e: ExpLog, densities: nat -> Density, t: PointTree, n: nat)
    requires Lawful(e) && t.Pair? && model.k > 0 && |model.weights| == |model.means| == |model.covars| == model.k
    requires forall x :: x in Points(t) ==> |x| == model.ndim
    requires forall j :: 0 <= j < model.k ==> model.weights[j] > 0.0
    modifies model
    ensures |model.weights| == |model.means| == |model.covars| == model.k
    ensures forall j :: 0 <= j < model.k ==> model.weights[j] > 0.0
    ensures n > 0 ==> Sum(model.k, Entries(model.weights)) == 1.0
    ensures n > 0 ==> forall j :: 0 <= j < model.k ==> PositiveDefinite(model.covars[j], model.ndim)
  {
    for i := 0 to n
      invariant |model.weights| == |model.means| == |model.covars| == model.k
      invariant forall j :: 0 <= j < model.k ==> model.weights[j] > 0.0
      invariant i > 0 ==> Sum(model.k, Entries(model.weights)) == 1.0
      invariant i > 0 ==> forall j :: 0 <= j < model.k ==> PositiveDefinite(model.covars[j], model.ndim)
    {
      var logLikelihood, ps := EmIteration(model, e, densities(i), t);
      forall j | 0 <= j < model.k ensures model.weights[j] > 0.0 {
        assert IsMean(model.weights[j], |ps| as real, Total(ps, Weight(j)));
      }
    }
  }
}
