/** Multinomial sampling of topics: the draws are sorted and swept once against the running posterior. */
module LdaSampling {

  function Prefix(p: seq<real>, n: nat): (s: real)
    requires n <= |p|
  {
    if n == 0 then 0.0 else Prefix(p, n - 1) + p[n - 1]
  }

  function SumSeq(s: seq<nat>): (t: nat) {
    if s == [] then 0 else SumSeq(s[..|s| - 1]) + s[|s| - 1]
  }

  predicate Sorted(vs: seq<real>) { forall i, j :: 0 <= i < j < |vs| ==> vs[i] <= vs[j] }

  predicate NonNegative(vs: seq<real>) { forall i :: 0 <= i < |vs| ==> vs[i] >= 0.0 }

  /** How many of the values lie in [lo, hi). */
  function CountIn(vs: seq<real>, lo: real, hi: real): (n: nat) {
    if vs == [] then 0
    else CountIn(vs[1..], lo, hi) + if lo <= vs[0] < hi then 1 else 0
  }

  // ---------- sorting ----------

  function Insert(x: real, vs: seq<real>): (r: seq<real>)
    ensures |r| == |vs| + 1
  {
    if vs == [] || x <= vs[0] then [x] + vs else [vs[0]] + Insert(x, vs[1..])
  }

  /** Stands for `std::sort`; only what `SortKeeps` says of it is used. */
  function Sort(vs: seq<real>): (r: seq<real>)
    ensures |r| == |vs|
  {
    if vs == [] then [] else Insert(vs[0], Sort(vs[1..]))
  }

  lemma {:induction false} InsertKeeps(x: real, vs: seq<real>, lo: real, hi: real)
    requires Sorted(vs)
    ensures Sorted(Insert(x, vs)) && (forall y :: y in Insert(x, vs) ==> y == x || y in vs)
    ensures CountIn(Insert(x, vs), lo, hi) == CountIn(vs, lo, hi) + if lo <= x < hi then 1 else 0
  {
    if vs == [] || x <= vs[0] {
      assert ([x] + vs)[1..] == vs;
    } else {
      InsertKeeps(x, vs[1..], lo, hi);
      var r := Insert(x, vs[1..]);
      assert ([vs[0]] + r)[1..] == r;
      forall j | 0 <= j < |r| ensures vs[0] <= r[j] { assert r[j] == x || r[j] in vs[1..]; }
    }
  }

  /** Sorting sorts and changes no interval's count, that is, it permutes. */
  lemma {:induction false} SortKeeps(vs: seq<real>, lo: real, hi: real)
    ensures Sorted(Sort(vs)) && CountIn(Sort(vs), lo, hi) == CountIn(vs, lo, hi)
  {
    if vs != [] {
      SortKeeps(vs[1..], lo, hi);
      InsertKeeps(vs[0], Sort(vs[1..]), lo, hi);
    }
  }

  lemma {:induction false} CountBounds(vs: seq<real>, lo: real, hi: real)
    ensures CountIn(vs, lo, hi) <= |vs|
    ensures (forall i :: 0 <= i < |vs| ==> lo <= vs[i] < hi) <==> CountIn(vs, lo, hi) == |vs|
  {
    if vs != [] {
      CountBounds(vs[1..], lo, hi);
      assert forall i :: 1 <= i < |vs| ==> vs[i] == vs[1..][i - 1];
      if forall i :: 0 <= i < |vs| ==> lo <= vs[i] < hi {
        assert forall i :: 0 <= i < |vs[1..]| ==> lo <= vs[1..][i] < hi;
      }
    }
  }

  /** In a sorted sequence an interval is a segment. */
  lemma {:induction false} CountSegment(vs: seq<real>, a: nat, b: nat, lo: real, hi: real)
    requires a <= b <= |vs|
    requires forall k :: 0 <= k < a ==> vs[k] < lo
    requires forall k :: a <= k < b ==> lo <= vs[k] < hi
    requires forall k :: b <= k < |vs| ==> hi <= vs[k]
    ensures CountIn(vs, lo, hi) == b - a
    decreases |vs|
  {
    if vs != [] {
      var rest := vs[1..];
      assert forall k :: 0 <= k < |rest| ==> rest[k] == vs[k + 1];
      CountSegment(rest, if a == 0 then 0 else a - 1, if b == 0 then 0 else b - 1, lo, hi);
    }
  }

  lemma {:induction false} PrefixMonotone(p: seq<real>, i: nat, j: nat)
    requires i <= j <= |p| && NonNegative(p)
    ensures 0.0 <= Prefix(p, i) <= Prefix(p, j)
    decreases j
  {
    if j > i { PrefixMonotone(p, i, j - 1); } else if i > 0 { PrefixMonotone(p, i - 1, i - 1); }
  }

  // ---------- the sweep ----------

  /** The inner loop: it takes the draws below the running mass and counts them. */
  method TakeBelow(vs: seq<real>, from: nat, accum: real) returns (taken: nat, j: nat)
    requires from <= |vs| && Sorted(vs)
    ensures from <= j <= |vs| && taken == j - from
    ensures forall k :: from <= k < j ==> vs[k] < accum
    ensures forall k :: j <= k < |vs| ==> accum <= vs[k]
  {
    taken, j := 0, from;
    while j < |vs| && vs[j] < accum
      invariant from <= j <= |vs| && taken == j - from
      invariant forall k :: from <= k < j ==> vs[k] < accum
    {
      taken := taken + 1;
      j := j + 1;
    }
  }

  /** Topic i gets the draws between the posterior mass before it and after it. */
  method Sweep(p: seq<real>, vs: seq<real>) returns (topics: seq<nat>)
    requires NonNegative(p) && NonNegative(vs) && Sorted(vs)
    ensures |topics| == |p|
    ensures forall i :: 0 <= i < |p| ==> topics[i] == CountIn(vs, Prefix(p, i), Prefix(p, i + 1))
    ensures SumSeq(topics) == CountIn(vs, 0.0, Prefix(p, |p|))
  {
    topics := [];
    var j, accum := 0, 0.0;
    for i := 0 to |p|
      invariant j <= |vs| && |topics| == i && accum == Prefix(p, i)
      invariant forall k :: 0 <= k < j ==> vs[k] < accum
      invariant forall k :: j <= k < |vs| ==> accum <= vs[k]
      invariant forall k :: 0 <= k < i ==> topics[k] == CountIn(vs, Prefix(p, k), Prefix(p, k + 1))
      invariant SumSeq(topics) == j
    {
      ghost var before, from := accum, j;
      accum := accum + p[i];
      var taken;
      taken, j := TakeBelow(vs, j, accum);
      CountSegment(vs, from, j, before, accum);
      assert (topics + [taken])[..i] == topics;
      topics := topics + [taken];
    }
    PrefixMonotone(p, |p|, |p|);
    CountSegment(vs, 0, j, 0.0, accum);
  }

  predicate UnitDraws(us: seq<real>) { forall i :: 0 <= i < |us| ==> 0.0 <= us[i] < 1.0 }

  function Scaled(us: seq<real>, sum: real): (vs: seq<real>) {
    seq(|us|, i requires 0 <= i < |us| => us[i] * sum)
  }

  function Posterior(topicProbs: seq<real>, wordProbs: seq<real>): (p: seq<real>)
    requires |topicProbs| == |wordProbs|
  {
    seq(|topicProbs|, i requires 0 <= i < |topicProbs| => topicProbs[i] * wordProbs[i])
  }

  /** The first loop: the unnormalised posterior and its mass. */
  method Weigh(topicProbs: seq<real>, wordProbs: seq<real>) returns (p: seq<real>, sum: real)
    requires |topicProbs| == |wordProbs|
    ensures p == Posterior(topicProbs, wordProbs) && sum == Prefix(p, |p|)
  {
    p := [];
    for i := 0 to |topicProbs|
      invariant p == Posterior(topicProbs, wordProbs)[..i]
    {
      assert Posterior(topicProbs, wordProbs)[i] == topicProbs[i] * wordProbs[i];
      p := p + [topicProbs[i] * wordProbs[i]];
    }
    sum := 0.0;
    for i := 0 to |p|
      invariant sum == Prefix(p, i)
    {
      sum := sum + p[i];
    }
  }

  /** The draws, scaled from [0, 1) to the mass of the posterior. */
  method ScaleDraws(us: seq<real>, sum: real) returns (values: seq<real>)
    ensures values == Scaled(us, sum)
  {
    values := [];
    for i := 0 to |us|
      invariant values == Scaled(us, sum)[..i]
    {
      assert Scaled(us, sum)[i] == us[i] * sum;
      values := values + [us[i] * sum];
    }
  }

  /** The draws of a posterior, sorted and swept. */
  method DrawTopics(p: seq<real>, sum: real, us: seq<real>) returns (topics: seq<nat>)
    requires NonNegative(p) && sum == Prefix(p, |p|) && UnitDraws(us)
    ensures |topics| == |p| && forall i :: 0 <= i < |p| ==> topics[i] == CountIn(Scaled(us, sum), Prefix(p, i), Prefix(p, i + 1))
    ensures SumSeq(topics) == if sum > 0.0 then |us| else 0
  {
    PrefixMonotone(p, 0, |p|);
    var values := ScaleDraws(us, sum);
    DrawsInRange(us, sum);
    var sorted := Sort(values);
    SortKeeps(values, 0.0, sum);
    SortedNonNegative(values);
    topics := Sweep(p, sorted);
    forall i | 0 <= i < |p| ensures topics[i] == CountIn(values, Prefix(p, i), Prefix(p, i + 1)) {
      SortKeeps(values, Prefix(p, i), Prefix(p, i + 1));
    }
    CountBounds(values, 0.0, sum);
    if sum == 0.0 { EmptyInterval(values, 0.0); }
  }

  function Prefixes(p: seq<real>): (bounds: seq<real>)
    ensures |bounds| == |p| + 1 && forall i :: 0 <= i <= |p| ==> bounds[i] == Prefix(p, i)
  {
    seq(|p| + 1, i requires 0 <= i <= |p| => Prefix(p, i))
  }

  /** Topic i is between bounds i and i + 1, whose distance is the product of its two probabilities. */
  ghost predicate AreBounds(topicProbs: seq<real>, wordProbs: seq<real>, bounds: seq<real>)
    requires |topicProbs| == |wordProbs|
  {
    && |bounds| == |topicProbs| + 1 && bounds[0] == 0.0
    && forall i :: 0 <= i < |topicProbs| ==> bounds[i + 1] == bounds[i] + topicProbs[i] * wordProbs[i]
  }

  lemma {:induction false} PrefixesAreBounds(topicProbs: seq<real>, wordProbs: seq<real>)
    requires |topicProbs| == |wordProbs|
    ensures AreBounds(topicProbs, wordProbs, Prefixes(Posterior(topicProbs, wordProbs)))
  {
  }

  /** `topics[i]` is the number of draws that, scaled to the whole mass, fall between bounds i and i + 1. */
  ghost predicate IsHistogram(topics: seq<nat>, us: seq<real>, bounds: seq<real>) {
    && |bounds| == |topics| + 1
    && forall i :: 0 <= i < |topics| ==>
         topics[i] == |set k | 0 <= k < |us| && bounds[i] <= us[k] * bounds[|topics|] < bounds[i + 1]|
  }

  /** The sampling part of `getProjection`: the counts are the histogram of the scaled draws over the
      posterior, whose intervals have the products of the two probabilities as widths; they add up to the number
      of draws if there is posterior mass to draw from, and to nothing otherwise. */
  method SampleTopics(topicProbs: seq<real>, wordProbs: seq<real>, us: seq<real>) returns (topics: seq<nat>, ghost bounds: seq<real>)
    requires |topicProbs| == |wordProbs| && NonNegative(topicProbs) && NonNegative(wordProbs) && UnitDraws(us)
    ensures |topics| == |topicProbs| && AreBounds(topicProbs, wordProbs, bounds)
    ensures IsHistogram(topics, us, bounds)
    ensures SumSeq(topics) == if bounds[|topics|] > 0.0 then |us| else 0
    ensures bounds == Prefixes(Posterior(topicProbs, wordProbs))
  {
    var p, sum := Weigh(topicProbs, wordProbs);
    PosteriorNonNegative(topicProbs, wordProbs);
    topics := DrawTopics(p, sum, us);
    bounds := Prefixes(p);
    PrefixesAreBounds(topicProbs, wordProbs);
    HistogramOf(topics, us, p, bounds);
  }

  lemma {:induction false} PosteriorNonNegative(topicProbs: seq<real>, wordProbs: seq<real>)
    requires |topicProbs| == |wordProbs| && NonNegative(topicProbs) && NonNegative(wordProbs)
    ensures NonNegative(Posterior(topicProbs, wordProbs))
  {
    forall i | 0 <= i < |topicProbs| ensures Posterior(topicProbs, wordProbs)[i] >= 0.0 {
      ProductSign(topicProbs[i], wordProbs[i], Posterior(topicProbs, wordProbs)[i]);
    }
  }

  lemma {:induction false} HistogramOf(topics: seq<nat>, us: seq<real>, p: seq<real>, bounds: seq<real>)
    requires |topics| == |p| && |bounds| == |p| + 1 && forall i :: 0 <= i <= |p| ==> bounds[i] == Prefix(p, i)
    requires forall i :: 0 <= i < |p| ==> topics[i] == CountIn(Scaled(us, Prefix(p, |p|)), Prefix(p, i), Prefix(p, i + 1))
    ensures IsHistogram(topics, us, bounds)
  {
    forall i | 0 <= i < |p| ensures topics[i] == |set k | 0 <= k < |us| && bounds[i] <= us[k] * bounds[|p|] < bounds[i + 1]| {
      CountDraws(us, bounds[|p|], bounds[i], bounds[i + 1]);
    }
  }

  function Hits(vs: seq<real>, lo: real, hi: real): (ks: set<int>) { set k | 0 <= k < |vs| && lo <= vs[k] < hi }

  lemma {:induction false} Member<T>(a: set<T>) returns (k: T)
    requires a != {}
    ensures k in a
  {
    k :| k in a;
  }

  lemma {:induction false} ShiftFits(a: set<int>, b: set<int>, d: int)
    requires forall k :: k in a ==> k + d in b
    ensures |a| <= |b|
  {
    if a != {} {
      var k := Member(a);
      ShiftFits(a - {k}, b - {k + d}, d);
    }
  }

  lemma {:induction false} SizeWithout(s: set<int>, x: int)
    ensures |s| == |s - {x}| + if x in s then 1 else 0
  {
    assert s == if x in s then (s - {x}) + {x} else s - {x};
  }

  lemma {:induction false} LaterHits(vs: seq<real>, lo: real, hi: real)
    requires vs != []
    ensures forall k :: k in Hits(vs, lo, hi) - {0} ==> k - 1 in Hits(vs[1..], lo, hi)
    ensures forall k :: k in Hits(vs[1..], lo, hi) ==> k + 1 in Hits(vs, lo, hi) - {0}
  {
    assert forall k :: 1 <= k < |vs| ==> vs[k] == vs[1..][k - 1];
  }

  /** Counting is the size of the set of positions. */
  lemma {:induction false} CountIsSize(vs: seq<real>, lo: real, hi: real)
    ensures CountIn(vs, lo, hi) == |Hits(vs, lo, hi)|
  {
    if vs != [] {
      CountIsSize(vs[1..], lo, hi);
      var all, later := Hits(vs, lo, hi), Hits(vs[1..], lo, hi);
      LaterHits(vs, lo, hi);
      ShiftFits(all - {0}, later, -1);
      ShiftFits(later, all - {0}, 1);
      SizeWithout(all, 0);
    }
  }

  lemma {:induction false} CountDraws(us: seq<real>, sum: real, lo: real, hi: real)
    ensures CountIn(Scaled(us, sum), lo, hi) == |set k | 0 <= k < |us| && lo <= us[k] * sum < hi|
  {
    CountIsSize(Scaled(us, sum), lo, hi);
    assert Hits(Scaled(us, sum), lo, hi) == set k | 0 <= k < |us| && lo <= us[k] * sum < hi;
  }

  /** There is posterior mass exactly if some topic has positive probability on both sides. */
  lemma {:induction false} MassMeans(topicProbs: seq<real>, wordProbs: seq<real>)
    requires |topicProbs| == |wordProbs| && NonNegative(topicProbs) && NonNegative(wordProbs)
    ensures var p := Posterior(topicProbs, wordProbs);
            Prefix(p, |p|) > 0.0 <==> exists i :: 0 <= i < |topicProbs| && topicProbs[i] > 0.0 && wordProbs[i] > 0.0
  {
    var p := Posterior(topicProbs, wordProbs);
    forall i | 0 <= i < |p| ensures p[i] >= 0.0 && (p[i] > 0.0 <==> topicProbs[i] > 0.0 && wordProbs[i] > 0.0) {
      ProductSign(topicProbs[i], wordProbs[i], p[i]);
    }
    PrefixSign(p, |p|);
  }

  lemma {:induction false} ProductSign(x: real, y: real, z: real)
    requires x >= 0.0 && y >= 0.0 && z == x * y
    ensures z >= 0.0 && (z > 0.0 <==> x > 0.0 && y > 0.0)
  {
    if x == 0.0 || y == 0.0 { assert z == 0.0; } else { assert z > 0.0; }
  }

  lemma {:induction false} PrefixSign(p: seq<real>, n: nat)
    requires NonNegative(p) && n <= |p|
    ensures Prefix(p, n) >= 0.0 && (Prefix(p, n) > 0.0 <==> exists i :: 0 <= i < n && p[i] > 0.0)
  {
    if n > 0 { PrefixSign(p, n - 1); }
  }

  /** Without posterior mass every topic's interval is empty, so that no draw is counted. */
  lemma {:induction false} NoMassNoTopics(p: seq<real>, us: seq<real>, i: nat)
    requires NonNegative(p) && Prefix(p, |p|) == 0.0 && i < |p|
    ensures CountIn(Scaled(us, Prefix(p, |p|)), Prefix(p, i), Prefix(p, i + 1)) == 0
  {
    PrefixMonotone(p, 0, i);
    PrefixMonotone(p, 0, i + 1);
    PrefixMonotone(p, i, |p|);
    PrefixMonotone(p, i + 1, |p|);
    EmptyInterval(Scaled(us, Prefix(p, |p|)), 0.0);
  }

  lemma {:induction false} EmptyInterval(vs: seq<real>, x: real)
    ensures CountIn(vs, x, x) == 0
  {
    if vs != [] { EmptyInterval(vs[1..], x); }
  }

  /** A draw that is lost: the document gives the only topic of the word no probability. */
  method LostDraw() returns (topics: seq<nat>)
    ensures topics == [0]
  {
    ghost var bounds;
    topics, bounds := SampleTopics([0.0], [1.0], [0.5]);
    assert bounds[1] == 0.0;
    assert topics[0] == |set k | 0 <= k < 1 && bounds[0] <= [0.5][k] * bounds[1] < bounds[1]|;
    assert (set k | 0 <= k < 1 && bounds[0] <= [0.5][k] * bounds[1] < bounds[1]) == {};
  }

  lemma {:induction false} DrawsInRange(us: seq<real>, sum: real)
    requires UnitDraws(us) && sum >= 0.0
    ensures NonNegative(Scaled(us, sum))
    ensures sum > 0.0 ==> forall i :: 0 <= i < |us| ==> Scaled(us, sum)[i] < sum
  {
    forall i | 0 <= i < |us| ensures Scaled(us, sum)[i] >= 0.0 && (sum > 0.0 ==> Scaled(us, sum)[i] < sum) {
      UnitTimes(us[i], sum, Scaled(us, sum)[i]);
    }
  }

  lemma {:induction false} UnitTimes(u: real, sum: real, product: real)
    requires 0.0 <= u < 1.0 && sum >= 0.0 && product == u * sum
    ensures 0.0 <= product && (sum > 0.0 ==> product < sum)
  {
    var rest := (1.0 - u) * sum;
    assert rest == sum - product;
    if sum > 0.0 { assert rest > 0.0; }
  }

  lemma {:induction false} SortedNonNegative(vs: seq<real>)
    requires NonNegative(vs)
    ensures NonNegative(Sort(vs))
  {
    if vs != [] {
      SortedNonNegative(vs[1..]);
      SortKeeps(vs[1..], 0.0, 0.0);
      InsertKeeps(vs[0], Sort(vs[1..]), 0.0, 0.0);
      var r := Sort(vs);
      forall i | 0 <= i < |r| ensures r[i] >= 0.0 {
        assert r[i] == vs[0] || r[i] in Sort(vs[1..]);
      }
    }
  }
}
