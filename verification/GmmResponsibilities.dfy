/** The expectation step for one data point: responsibilities normalised in log space. */
module GmmResponsibilities {
  import opened RealSums
  import opened GmmAggregate

  /** The exponential and logarithm of the C library, known only by their laws. */
  datatype ExpLog = ExpLog(exp: real -> real, log: real -> real)

  predicate Splits(e: ExpLog, a: real, b: real) { e.exp(a + b) == e.exp(a) * e.exp(b) }

  ghost predicate Lawful(e: ExpLog) {
    && (forall a: real, b: real :: Splits(e, a, b))
    && (forall a: real :: e.exp(a) > 0.0)
    && (forall x: real :: x > 0.0 ==> e.exp(e.log(x)) == x)
  }

  // ---------- values in log space ----------

  /** A value in log space: the logarithm of zero is minus infinity. */
  datatype LogValue = MinusInf | Finite(v: real)

  function Log(e: ExpLog, w: real): (a: LogValue)
    requires w >= 0.0
  {
    if w == 0.0 then MinusInf else Finite(e.log(w))
  }

  function Exp(e: ExpLog, a: LogValue): (x: real) {
    if a.MinusInf? then 0.0 else e.exp(a.v)
  }

  function Plus(a: LogValue, x: real): (b: LogValue) {
    if a.MinusInf? then a else Finite(a.v + x)
  }

  predicate Greater(a: LogValue, b: LogValue) { a.Finite? && (b.MinusInf? || a.v > b.v) }

  /** Adding in log space multiplies, also at minus infinity. */
  lemma {:induction false} ExpOfPlus(e: ExpLog, a: LogValue, x: real)
    requires Lawful(e)
    ensures Exp(e, Plus(a, x)) == Exp(e, a) * e.exp(x)
    ensures Exp(e, a) >= 0.0 && (Exp(e, a) > 0.0 <==> a.Finite?)
  {
    if a.Finite? { assert Splits(e, a.v, x); }
  }

  lemma {:induction false} ExpOfLog(e: ExpLog, w: real)
    requires Lawful(e) && w >= 0.0
    ensures Exp(e, Log(e, w)) == w && (Log(e, w).Finite? <==> w > 0.0)
  {
  }

  predicate SomeFinite(v: seq<LogValue>) { exists i :: 0 <= i < |v| && v[i].Finite? }

  /** The exponentials of the values less `m`. */
  function ExpAt(e: ExpLog, v: seq<LogValue>, m: real): (f: int -> real) {
    (i: int) => if 0 <= i < |v| then Exp(e, Plus(v[i], -m)) else 0.0
  }

  // ---------- logSumExp ----------

  method Maximum(v: seq<LogValue>) returns (maxVal: LogValue)
    requires v != []
    ensures maxVal in v && forall j :: 0 <= j < |v| ==> !Greater(v[j], maxVal)
  {
    maxVal := v[0];
    for i := 1 to |v|
      invariant maxVal in v && forall j :: 0 <= j < i ==> !Greater(v[j], maxVal)
    {
      if Greater(v[i], maxVal) { maxVal := v[i]; }
    }
  }

  /** The total of the values outside log space. */
  function TotalOf(e: ExpLog, v: seq<LogValue>): (s: real) { Sum(|v|, ExpAt(e, v, 0.0)) }

  /** `logSumExp`: factoring out the maximum changes nothing; the result is the logarithm of the sum. It is a
      number as soon as one value is. */
  method LogSumExp(e: ExpLog, v: seq<LogValue>) returns (r: real)
    requires Lawful(e) && SomeFinite(v)
    ensures e.exp(r) == TotalOf(e, v)
  {
    var maxVal := Maximum(v);
    var sum := 0.0;
    for i := 0 to |v|
      invariant sum == Sum(i, ExpAt(e, v, maxVal.v))
    {
      sum := sum + Exp(e, Plus(v[i], -maxVal.v));
    }
    r := e.log(sum) + maxVal.v;
    LogOfSum(e, v, maxVal.v, sum);
  }

  lemma {:induction false} LogOfSum(e: ExpLog, v: seq<LogValue>, m: real, sum: real)
    requires Lawful(e) && SomeFinite(v) && sum == Sum(|v|, ExpAt(e, v, m))
    ensures sum > 0.0 && e.exp(e.log(sum) + m) == TotalOf(e, v)
  {
    SumPositive(e, v, m);
    assert Splits(e, e.log(sum), m);
    TermsShift(e, v, m);
    ShiftedSum(e, v, m);
  }

  lemma {:induction false} SumPositive(e: ExpLog, v: seq<LogValue>, m: real)
    requires Lawful(e) && SomeFinite(v)
    ensures Sum(|v|, ExpAt(e, v, m)) > 0.0
  {
    var f := ExpAt(e, v, m);
    forall i | 0 <= i < |v| ensures f(i) >= 0.0 {
      ExpOfPlus(e, Plus(v[i], -m), 0.0);
    }
    SumNonNegative(|v|, f);
    var i :| 0 <= i < |v| && v[i].Finite?;
    ExpOfPlus(e, Plus(v[i], -m), 0.0);
    assert f(i) > 0.0;
  }

  lemma {:induction false} Unshift(e: ExpLog, a: LogValue, m: real)
    requires Lawful(e)
    ensures Exp(e, Plus(a, -m)) * e.exp(m) == Exp(e, Plus(a, -0.0)) == Exp(e, a)
  {
    ExpOfPlus(e, Plus(a, -m), m);
    assert Plus(Plus(a, -m), m) == a;
  }

  ghost predicate Shifts(e: ExpLog, v: seq<LogValue>, m: real) {
    forall i :: 0 <= i < |v| ==> ExpAt(e, v, m)(i) * e.exp(m) == ExpAt(e, v, 0.0)(i)
  }

  lemma {:induction false} TermsShift(e: ExpLog, v: seq<LogValue>, m: real)
    requires Lawful(e)
    ensures Shifts(e, v, m)
  {
    forall i | 0 <= i < |v| ensures ExpAt(e, v, m)(i) * e.exp(m) == ExpAt(e, v, 0.0)(i) {
      Unshift(e, v[i], m);
    }
  }

  lemma {:induction false} ShiftedSum(e: ExpLog, v: seq<LogValue>, m: real)
    requires Shifts(e, v, m)
    ensures Sum(|v|, ExpAt(e, v, m)) * e.exp(m) == TotalOf(e, v)
  {
    SumTimes(|v|, ExpAt(e, v, m), ExpAt(e, v, 0.0), e.exp(m));
  }

  // ---------- responsibilities ----------

  /** `r` is the share of the value `a` in a total of log `total`; it is positive unless the value is zero. */
  predicate IsShare(e: ExpLog, r: real, a: LogValue, total: real) {
    r >= 0.0 && (r > 0.0 <==> a.Finite?) && r * e.exp(total) == Exp(e, a)
  }

  /** The value projection of the aggregate, from the log densities plus log weights `logp`: each
      responsibility is the component's share of the total density, so they sum to one. */
  method Responsibilities(e: ExpLog, logp: seq<LogValue>) returns (r: seq<real>, logLikelihood: real)
    requires Lawful(e) && SomeFinite(logp)
    ensures |r| == |logp| && e.exp(logLikelihood) == TotalOf(e, logp)
    ensures forall i :: 0 <= i < |r| ==> IsShare(e, r[i], logp[i], logLikelihood)
    ensures Sum(|r|, Entries(r)) == 1.0
  {
    logLikelihood := LogSumExp(e, logp);
    r := [];
    for i := 0 to |logp|
      invariant |r| == i && forall j :: 0 <= j < i ==> r[j] == Exp(e, Plus(logp[j], -logLikelihood))
    {
      r := r + [Exp(e, Plus(logp[i], -logLikelihood))];
    }
    SharesOfOne(e, logp, r, logLikelihood);
  }

  lemma {:induction false} SharesOfOne(e: ExpLog, logp: seq<LogValue>, r: seq<real>, total: real)
    requires Lawful(e) && |r| == |logp| && e.exp(total) == TotalOf(e, logp)
    requires forall i :: 0 <= i < |r| ==> r[i] == Exp(e, Plus(logp[i], -total))
    ensures forall i :: 0 <= i < |r| ==> IsShare(e, r[i], logp[i], total)
    ensures Sum(|r|, Entries(r)) == 1.0
  {
    forall i | 0 <= i < |r| ensures IsShare(e, r[i], logp[i], total) {
      Unshift(e, logp[i], total);
      ExpOfPlus(e, Plus(logp[i], -total), 0.0);
    }
    SumExt(|r|, Entries(r), ExpAt(e, logp, total));
    TermsShift(e, logp, total);
    ShiftedSum(e, logp, total);
    OneFactor(Sum(|r|, Entries(r)), e.exp(total), TotalOf(e, logp));
  }

  lemma {:induction false} OneFactor(x: real, y: real, z: real)
    requires y > 0.0 && x * y == z && z == y
    ensures x == 1.0
  {
    assert (x - 1.0) * y == 0.0;
  }
}
