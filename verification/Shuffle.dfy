/** The in-place shuffle of sampled data points. */
module Shuffle {

  function Swap<T>(s: seq<T>, i: nat, j: nat): (r: seq<T>)
    requires i < |s| && j < |s|
    ensures |r| == |s|
  {
    s[i := s[j]][j := s[i]]
  }

  /** For every index i one draw between 0 and i. */
  predicate Draws(ds: seq<nat>, n: nat) {
    |ds| == n && forall i :: 0 <= i < n ==> ds[i] <= i
  }

  /** Positions k-1 down to 0 each exchange with the position drawn for them. */
  function Apply<T>(s: seq<T>, ds: seq<nat>, k: nat): (r: seq<T>)
    requires Draws(ds, |s|) && k <= |s|
    ensures |r| == |s|
    decreases k
  {
    if k == 0 then s else Apply(Swap(s, ds[k - 1], k - 1), ds, k - 1)
  }

  /** `randomizeInPlace`; `rands[i]` is the value `rand()` returns for index i. */
  method RandomizeInPlace<T>(samples: array<T>, rands: seq<nat>)
    requires |rands| == samples.Length
    modifies samples
    ensures samples[..] == Apply(old(samples[..]), Reduced(rands), samples.Length)
    ensures multiset(samples[..]) == multiset(old(samples[..]))
  {
    var i := samples.Length - 1;
    ghost var ds := Reduced(rands);
    ghost var s := samples[..];
    ApplyPermutes(s, ds, samples.Length);
    while i >= 0
      invariant -1 <= i < samples.Length
      invariant Apply(samples[..], ds, i + 1) == Apply(s, ds, samples.Length)
    {
      var j := rands[i] % (i + 1);
      ghost var before := samples[..];
      var tmp := samples[j];
      samples[j] := samples[i];
      samples[i] := tmp;
      assert samples[..] == Swap(before, ds[i], i);
      i := i - 1;
    }
  }

  function Reduced(rands: seq<nat>): (ds: seq<nat>)
    ensures Draws(ds, |rands|)
  {
    seq(|rands|, i requires 0 <= i < |rands| => rands[i] % (i + 1))
  }

  lemma {:induction false} ApplyPermutes<T>(s: seq<T>, ds: seq<nat>, k: nat)
    requires Draws(ds, |s|) && k <= |s|
    ensures multiset(Apply(s, ds, k)) == multiset(s)
    decreases k
  {
    if k > 0 {
      ApplyPermutes(Swap(s, ds[k - 1], k - 1), ds, k - 1);
    }
  }

  predicate Distinct<T(==)>(s: seq<T>) { forall i, j :: 0 <= i < j < |s| ==> s[i] != s[j] }

  /** What lies above the positions still to be treated stays. */
  lemma {:induction false} ApplyKeepsTail<T>(s: seq<T>, ds: seq<nat>, k: nat)
    requires Draws(ds, |s|) && k <= |s|
    ensures Apply(s, ds, k)[k..] == s[k..]
    decreases k
  {
    if k > 0 {
      var t := Swap(s, ds[k - 1], k - 1);
      ApplyKeepsTail(t, ds, k - 1);
      var r := Apply(s, ds, k);
      assert r[k..] == r[k - 1..][1..] == t[k - 1..][1..] == t[k..];
    }
  }

  /** Different draws give different orders. */
  lemma {:induction false} DrawsAreUnique<T>(s: seq<T>, ds: seq<nat>, es: seq<nat>, k: nat)
    requires Distinct(s) && Draws(ds, |s|) && Draws(es, |s|) && k <= |s|
    requires Apply(s, ds, k) == Apply(s, es, k)
    ensures ds[..k] == es[..k]
    decreases k
  {
    if k > 0 {
      var t, u := Swap(s, ds[k - 1], k - 1), Swap(s, es[k - 1], k - 1);
      ApplyKeepsTail(t, ds, k - 1);
      ApplyKeepsTail(u, es, k - 1);
      var r := Apply(s, ds, k);
      assert r[k - 1] == r[k - 1..][0] == t[k - 1..][0] == s[ds[k - 1]];
      assert r[k - 1] == u[k - 1..][0] == s[es[k - 1]];
      assert ds[k - 1] == es[k - 1];
      DrawsAreUnique(t, ds, es, k - 1);
      assert ds[..k] == ds[..k - 1] + [ds[k - 1]] && es[..k] == es[..k - 1] + [es[k - 1]];
    }
  }

  /** Every order is produced by some draws. */
  lemma {:induction false} DrawsExist<T>(s: seq<T>, t: seq<T>, k: nat) returns (ds: seq<nat>)
    requires |s| == |t| && k <= |s| && s[k..] == t[k..] && multiset(s[..k]) == multiset(t[..k])
    ensures Draws(ds, |s|) && Apply(s, ds, k) == t
    decreases k
  {
    if k == 0 {
      ds := seq(|s|, _ => 0);
      assert s == s[0..] && t == t[0..];
    } else {
      var d := PlaceLast(s, t, k);
      var u := Swap(s, d, k - 1);
      var es := DrawsExist(u, t, k - 1);
      ds := es[k - 1 := d];
      SameDraws(u, es, ds, k - 1);
    }
  }

  /** The element wanted last is somewhere in the prefix; exchanging it there leaves the same problem. */
  lemma {:induction false} PlaceLast<T>(s: seq<T>, t: seq<T>, k: nat) returns (d: nat)
    requires |s| == |t| && 0 < k <= |s| && s[k..] == t[k..] && multiset(s[..k]) == multiset(t[..k])
    ensures d < k
    ensures var u := Swap(s, d, k - 1); u[k - 1..] == t[k - 1..] && multiset(u[..k - 1]) == multiset(t[..k - 1])
  {
    var x := t[k - 1];
    assert t[..k] == t[..k - 1] + [x];
    assert x in multiset(s[..k]);
    d :| 0 <= d < k && s[..k][d] == x;
    var u := Swap(s, d, k - 1);
    SwapPrefix(s, d, k);
    assert u[k - 1..] == [x] + s[k..];
    assert t[k - 1..] == [x] + t[k..];
    assert multiset(u[..k - 1]) + multiset{x} == multiset(t[..k - 1]) + multiset{x};
    CancelOne(multiset(u[..k - 1]), multiset(t[..k - 1]), x);
  }

  lemma {:induction false} CancelOne<T>(a: multiset<T>, b: multiset<T>, x: T)
    requires a + multiset{x} == b + multiset{x}
    ensures a == b
  {
    assert a == (a + multiset{x}) - multiset{x};
    assert b == (b + multiset{x}) - multiset{x};
  }

  lemma {:induction false} SwapPrefix<T>(s: seq<T>, d: nat, k: nat)
    requires d < k <= |s|
    ensures var u := Swap(s, d, k - 1); multiset(u[..k - 1]) + multiset{s[d]} == multiset(s[..k])
  {
    var u := Swap(s, d, k - 1);
    assert u[..k] == Swap(s[..k], d, k - 1);
    assert multiset(Swap(s[..k], d, k - 1)) == multiset(s[..k]);
    assert u[..k] == u[..k - 1] + [s[d]];
  }

  lemma {:induction false} SameDraws<T>(s: seq<T>, ds: seq<nat>, es: seq<nat>, k: nat)
    requires Draws(ds, |s|) && Draws(es, |s|) && k <= |s| && ds[..k] == es[..k]
    ensures Apply(s, ds, k) == Apply(s, es, k)
    decreases k
  {
    if k > 0 {
      assert ds[k - 1] == ds[..k][k - 1] == es[..k][k - 1] == es[k - 1];
      assert ds[..k - 1] == ds[..k][..k - 1] && es[..k - 1] == es[..k][..k - 1];
      SameDraws(Swap(s, ds[k - 1], k - 1), ds, es, k - 1);
    }
  }

  /** For distinct elements each permutation comes from exactly one sequence of draws: with uniform
      independent draws every order is equally likely. */
  lemma {:induction false} ShuffleIsBijective<T>(s: seq<T>, t: seq<T>) returns (ds: seq<nat>)
    requires Distinct(s) && multiset(s) == multiset(t)
    ensures |s| == |t| && Draws(ds, |s|) && Apply(s, ds, |s|) == t
    ensures forall es :: Draws(es, |s|) && Apply(s, es, |s|) == t ==> es == ds
  {
    assert |s| == |multiset(s)| == |multiset(t)| == |t|;
    assert s[..|s|] == s && t[..|t|] == t;
    ds := DrawsExist(s, t, |s|);
    forall es | Draws(es, |s|) && Apply(s, es, |s|) == t ensures es == ds {
      DrawsAreUnique(s, es, ds, |s|);
      assert es[..|s|] == es && ds[..|s|] == ds;
    }
  }

  /** Every order is the result of the shuffle for some values of `rand()`, whatever the range of `rand()` is
      above the number of samples. */
  lemma {:induction false} EveryOrderIsDrawn<T>(s: seq<T>, t: seq<T>) returns (rands: seq<nat>)
    requires Distinct(s) && multiset(s) == multiset(t)
    ensures |rands| == |s| && (forall i :: 0 <= i < |rands| ==> rands[i] <= i) && Apply(s, Reduced(rands), |s|) == t
  {
    rands := ShuffleIsBijective(s, t);
    forall i | 0 <= i < |s| ensures Reduced(rands)[i] == rands[i] {
      SmallRemainder(rands[i], i + 1);
    }
    assert Reduced(rands) == rands;
  }

  lemma {:induction false} SmallRemainder(x: nat, n: nat)
    requires x < n
    ensures x % n == x
  {
  }
}
