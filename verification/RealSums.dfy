/** Finite sums of reals, sums over a sequence, and quadratic forms. */
module RealSums {

  /** f(0) + ... + f(n - 1). */
  function Sum(n: nat, f: int -> real): (s: real) {
    if n == 0 then 0.0 else Sum(n - 1, f) + f(n - 1)
  }

  lemma {:induction false} SumExt(n: nat, f: int -> real, g: int -> real)
    requires forall i :: 0 <= i < n ==> f(i) == g(i)
    ensures Sum(n, f) == Sum(n, g)
  {
    if n > 0 { SumExt(n - 1, f, g); }
  }

  /** Sums are linear. */
  lemma {:induction false} SumLinear(n: nat, f: int -> real, g: int -> real, h: int -> real, c: real)
    requires forall i :: 0 <= i < n ==> h(i) == f(i) + c * g(i)
    ensures Sum(n, h) == Sum(n, f) + c * Sum(n, g)
  {
    if n > 0 { SumLinear(n - 1, f, g, h, c); }
  }

  lemma {:induction false} SumNonNegative(n: nat, f: int -> real)
    requires forall i :: 0 <= i < n ==> f(i) >= 0.0
    ensures Sum(n, f) >= 0.0
    ensures forall i :: 0 <= i < n ==> Sum(n, f) >= f(i)
  {
    if n > 0 { SumNonNegative(n - 1, f); }
  }

  /** The sum of f over the elements of a sequence. */
  function Total<T>(s: seq<T>, f: T -> real): (t: real) {
    if s == [] then 0.0 else Total(s[..|s| - 1], f) + f(s[|s| - 1])
  }

  lemma {:induction false} TotalLast<T>(s: seq<T>, f: T -> real)
    requires s != []
    ensures Total(s, f) == Total(s[..|s| - 1], f) + f(s[|s| - 1])
  {
  }

  lemma {:induction false} TotalConcat<T>(s: seq<T>, t: seq<T>, f: T -> real)
    ensures Total(s + t, f) == Total(s, f) + Total(t, f)
    decreases |t|
  {
    if t == [] {
      assert s + t == s;
    } else {
      assert (s + t)[..|s + t| - 1] == s + t[..|t| - 1];
      TotalConcat(s, t[..|t| - 1], f);
    }
  }

  lemma {:induction false} TotalOne<T>(x: T, f: T -> real)
    ensures Total([x], f) == f(x)
  {
    assert [x][..0] == [];
  }

  lemma {:induction false} TotalExt<T>(s: seq<T>, f: T -> real, g: T -> real)
    requires forall x :: x in s ==> f(x) == g(x)
    ensures Total(s, f) == Total(s, g)
  {
    if s != [] { TotalExt(s[..|s| - 1], f, g); }
  }

  // ---------- quadratic forms ----------

  function RowTerm(m: (int, int) -> real, z: int -> real, a: int): (f: int -> real) { (b: int) => m(a, b) * z(b) }

  function RowSum(n: nat, m: (int, int) -> real, z: int -> real, a: int): (s: real) { Sum(n, RowTerm(m, z, a)) }

  function QuadTerm(n: nat, m: (int, int) -> real, z: int -> real): (f: int -> real) {
    (a: int) => z(a) * RowSum(n, m, z, a)
  }

  /** z' M z for an n x n matrix. */
  function Quad(n: nat, m: (int, int) -> real, z: int -> real): (s: real) { Sum(n, QuadTerm(n, m, z)) }

  function DotTerm(y: int -> real, z: int -> real): (f: int -> real) { (a: int) => z(a) * y(a) }

  function Dot(n: nat, y: int -> real, z: int -> real): (s: real) { Sum(n, DotTerm(y, z)) }

  lemma {:induction false} RowLinear(n: nat, p: (int, int) -> real, q: (int, int) -> real, m: (int, int) -> real, c: real, z: int -> real, a: int)
    requires forall b :: 0 <= b < n ==> m(a, b) == p(a, b) + c * q(a, b)
    ensures RowSum(n, m, z, a) == RowSum(n, p, z, a) + c * RowSum(n, q, z, a)
  {
    var f, g, h := RowTerm(p, z, a), RowTerm(q, z, a), RowTerm(m, z, a);
    forall b | 0 <= b < n ensures h(b) == f(b) + c * g(b) {
      Distribute(p(a, b), q(a, b), c, z(b), m(a, b));
    }
    SumLinear(n, f, g, h, c);
  }

  lemma {:induction false} Distribute(x: real, y: real, c: real, z: real, s: real)
    requires s == x + c * y
    ensures s * z == x * z + c * (y * z)
    ensures z * s == z * x + c * (z * y)
  {
  }

  /** M is P + cQ. */
  ghost predicate Combines(n: nat, p: (int, int) -> real, q: (int, int) -> real, m: (int, int) -> real, c: real) {
    forall a, b :: 0 <= a < n && 0 <= b < n ==> m(a, b) == p(a, b) + c * q(a, b)
  }

  /** z' (P + cQ) z == z' P z + c z' Q z. */
  lemma {:induction false} QuadLinear(n: nat, p: (int, int) -> real, q: (int, int) -> real, m: (int, int) -> real, c: real, z: int -> real)
    requires Combines(n, p, q, m, c)
    ensures Quad(n, m, z) == Quad(n, p, z) + c * Quad(n, q, z)
  {
    var f, g, h := QuadTerm(n, p, z), QuadTerm(n, q, z), QuadTerm(n, m, z);
    forall a | 0 <= a < n ensures h(a) == f(a) + c * g(a) {
      RowLinear(n, p, q, m, c, z, a);
      Distribute(RowSum(n, p, z, a), RowSum(n, q, z, a), c, z(a), RowSum(n, m, z, a));
    }
    SumLinear(n, f, g, h, c);
  }

  /** A sum of multiples. */
  lemma {:induction false} SumScaled(n: nat, f: int -> real, h: int -> real, c: real)
    requires forall i :: 0 <= i < n ==> h(i) == c * f(i)
    ensures Sum(n, h) == c * Sum(n, f)
  {
    if n > 0 {
      SumScaled(n - 1, f, h, c);
      Distribute(Sum(n - 1, f), f(n - 1), 1.0, c, Sum(n, f));
    }
  }

  lemma {:induction false} SumTimes(n: nat, f: int -> real, g: int -> real, c: real)
    requires forall i :: 0 <= i < n ==> f(i) * c == g(i)
    ensures Sum(n, f) * c == Sum(n, g)
  {
    if n > 0 {
      SumTimes(n - 1, f, g, c);
      Distribute(Sum(n - 1, f), f(n - 1), 1.0, c, Sum(n, f));
    }
  }

  lemma {:induction false} RowRankOne(n: nat, y: int -> real, m: (int, int) -> real, z: int -> real, a: int)
    requires forall b :: 0 <= b < n ==> m(a, b) == y(a) * y(b)
    ensures RowSum(n, m, z, a) == y(a) * Dot(n, y, z)
  {
    var f, h := DotTerm(y, z), RowTerm(m, z, a);
    forall b | 0 <= b < n ensures h(b) == y(a) * f(b) {
      Regroup(y(a), y(b), z(b), m(a, b));
    }
    SumScaled(n, f, h, y(a));
  }

  lemma {:induction false} Regroup(x: real, y: real, z: real, p: real)
    requires p == x * y
    ensures p * z == x * (z * y) && z * p == y * (z * x)
  {
  }

  /** z' (y y') z is a square. */
  lemma {:induction false} QuadRankOne(n: nat, y: int -> real, m: (int, int) -> real, z: int -> real)
    requires forall a, b :: 0 <= a < n && 0 <= b < n ==> m(a, b) == y(a) * y(b)
    ensures Quad(n, m, z) == Dot(n, y, z) * Dot(n, y, z)
  {
    var d, f, h := Dot(n, y, z), DotTerm(y, z), QuadTerm(n, m, z);
    forall a | 0 <= a < n ensures h(a) == d * f(a) {
      RowRankOne(n, y, m, z, a);
      Regroup(y(a), d, z(a), RowSum(n, m, z, a));
    }
    SumScaled(n, f, h, d);
  }

  /** z' I z is the squared length of z. */
  lemma {:induction false} QuadIdentity(n: nat, m: (int, int) -> real, z: int -> real)
    requires forall a, b :: 0 <= a < n && 0 <= b < n ==> m(a, b) == if a == b then 1.0 else 0.0
    ensures Quad(n, m, z) == Dot(n, z, z)
  {
    forall a | 0 <= a < n ensures QuadTerm(n, m, z)(a) == DotTerm(z, z)(a) {
      SumPick(n, RowTerm(m, z, a), a, z(a));
    }
    SumExt(n, QuadTerm(n, m, z), DotTerm(z, z));
  }

  /** A sum with at most one nonzero term. */
  lemma {:induction false} SumPick(n: nat, f: int -> real, k: nat, v: real)
    requires forall i :: 0 <= i < n ==> f(i) == if i == k then v else 0.0
    ensures Sum(n, f) == if k < n then v else 0.0
  {
    if n > 0 { SumPick(n - 1, f, k, v); }
  }

  /** y y'. */
  function Outer(y: int -> real): (m: (int, int) -> real) { (a: int, b: int) => y(a) * y(b) }

  /** Adding r times y y' with r non-negative does not decrease the form. */
  lemma {:induction false} QuadAddSquare(n: nat, p: (int, int) -> real, y: int -> real, m: (int, int) -> real, r: real, z: int -> real)
    requires Combines(n, p, Outer(y), m, r) && r >= 0.0
    ensures Quad(n, m, z) >= Quad(n, p, z)
  {
    var outer := Outer(y);
    QuadRankOne(n, y, outer, z);
    QuadLinear(n, p, outer, m, r, z);
    WeightedSquare(r, Quad(n, outer, z), Dot(n, y, z), Quad(n, p, z), Quad(n, m, z));
  }

  lemma {:induction false} WeightedSquare(r: real, q: real, d: real, s: real, t: real)
    requires r >= 0.0 && q == d * d && t == s + r * q
    ensures t >= s
  {
    assert q >= 0.0;
    assert r * q >= 0.0;
  }

  lemma {:induction false} QuadZero(n: nat, m: (int, int) -> real, z: int -> real)
    requires forall a, b :: 0 <= a < n && 0 <= b < n ==> m(a, b) == 0.0
    ensures Quad(n, m, z) == 0.0
  {
    QuadLinear(n, m, m, m, 1.0, z);
  }

  /** Adding c on the diagonal adds c times the squared length. */
  lemma {:induction false} QuadRidge(n: nat, m: (int, int) -> real, c: real, z: int -> real)
    requires forall a, b :: 0 <= a < n && 0 <= b < n ==> m(a, b) == if a == b then c else 0.0
    ensures Quad(n, m, z) == c * Dot(n, z, z)
  {
    var zero, identity := (a: int, b: int) => 0.0, (a: int, b: int) => if a == b then 1.0 else 0.0;
    QuadZero(n, zero, z);
    QuadIdentity(n, identity, z);
    QuadLinear(n, zero, identity, m, c, z);
  }
}
