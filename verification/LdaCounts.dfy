/** One LDA step: sampled topic counts are emitted twice, as assignments of a document and as assignments of
    a topic, and aggregated separately; both aggregates count the same words. */
module LdaCounts {
  import opened Wrappers
  import opened LdaSampling
  import V = LdaVector

  /** A sparse count vector of `dims` slots with `cnt` at `dim`, to be summed per `key`: a DocAssignment
      (key document, slot topic) or a TopicAssignment (key topic, slot word). */
  datatype Assignment = Assignment(dims: nat, key: nat, dim: nat, cnt: nat)

  /** A document record with the probabilities it joins with and the uniform draws it consumes. */
  datatype Record = Record(doc: nat, word: nat, count: nat, topicProbs: seq<real>, wordProbs: seq<real>, draws: seq<real>)

  // ---------- emission ----------

  function DocAssigns(doc: nat, topics: seq<nat>, n: nat): (r: seq<Assignment>)
    requires n <= |topics|
  {
    if n == 0 then []
    else DocAssigns(doc, topics, n - 1) + if topics[n - 1] == 0 then [] else [Assignment(|topics|, doc, n - 1, topics[n - 1])]
  }

  function TopicAssigns(numWords: nat, word: nat, topics: seq<nat>, n: nat): (r: seq<Assignment>)
    requires n <= |topics|
  {
    if n == 0 then []
    else
      var last := if topics[n - 1] == 0 then [] else [Assignment(numWords, n - 1, word, topics[n - 1])];
      TopicAssigns(numWords, word, topics, n - 1) + last
  }

  /** The last loop of `getProjection`. */
  method Emit(doc: nat, word: nat, numWords: nat, topics: seq<nat>) returns (docs: seq<Assignment>, tops: seq<Assignment>)
    ensures docs == DocAssigns(doc, topics, |topics|) && tops == TopicAssigns(numWords, word, topics, |topics|)
  {
    docs, tops := [], [];
    for i := 0 to |topics|
      invariant docs == DocAssigns(doc, topics, i) && tops == TopicAssigns(numWords, word, topics, i)
    {
      if topics[i] != 0 {
        docs := docs + [Assignment(|topics|, doc, i, topics[i])];
        tops := tops + [Assignment(numWords, i, word, topics[i])];
      }
    }
  }

  // ---------- aggregation ----------

  /** The entry of the aggregate of `key` at `dim`. */
  function Entry(s: seq<Assignment>, key: int, dim: int): (n: nat) {
    if s == [] then 0
    else
      var a := s[|s| - 1];
      Entry(s[..|s| - 1], key, dim) + if a.key == key && a.dim == dim then a.cnt else 0
  }

  lemma {:induction false} EntryConcat(s: seq<Assignment>, t: seq<Assignment>, key: int, dim: int)
    ensures Entry(s + t, key, dim) == Entry(s, key, dim) + Entry(t, key, dim)
    decreases |t|
  {
    if t == [] {
      assert s + t == s;
    } else {
      assert (s + t)[..|s + t| - 1] == s + t[..|t| - 1];
      EntryConcat(s, t[..|t| - 1], key, dim);
    }
  }

  /** The assignments of one key, in order. */
  function OfKey(s: seq<Assignment>, key: nat): (r: seq<Assignment>)
    ensures forall a :: a in r ==> a in s && a.key == key
  {
    if s == [] then []
    else OfKey(s[..|s| - 1], key) + if s[|s| - 1].key == key then [s[|s| - 1]] else []
  }

  lemma {:induction false} EntryOfKey(s: seq<Assignment>, key: nat, dim: int)
    ensures Entry(OfKey(s, key), key, dim) == Entry(s, key, dim)
  {
    if s != [] {
      EntryOfKey(s[..|s| - 1], key, dim);
      EntryConcat(OfKey(s[..|s| - 1], key), if s[|s| - 1].key == key then [s[|s| - 1]] else [], key, dim);
      EntryOne(s[|s| - 1], key, dim);
    }
  }

  lemma {:induction false} EntryOne(a: Assignment, key: int, dim: int)
    ensures Entry([a], key, dim) == if a.key == key && a.dim == dim then a.cnt else 0
  {
    assert [a][..0] == [];
  }

  lemma {:induction false} SameWithoutOne(s: seq<Assignment>, t: seq<Assignment>, a: Assignment)
    requires multiset(s) + multiset{a} == multiset(t) + multiset{a}
    ensures multiset(s) == multiset(t)
  {
    assert multiset(s) == (multiset(s) + multiset{a}) - multiset{a};
    assert multiset(t) == (multiset(t) + multiset{a}) - multiset{a};
  }

  /** Entries do not depend on the order of the assignments. */
  lemma {:induction false} EntryPermuted(s: seq<Assignment>, t: seq<Assignment>, key: int, dim: int)
    requires multiset(s) == multiset(t)
    ensures Entry(s, key, dim) == Entry(t, key, dim)
  {
    if s == [] {
      assert |multiset(t)| == 0;
    } else {
      var init, a := s[..|s| - 1], s[|s| - 1];
      assert s == init + [a];
      assert a in multiset(t);
      var j :| 0 <= j < |t| && t[j] == a;
      var before, after := t[..j], t[j + 1..];
      assert t == before + [a] + after;
      assert multiset(t) == multiset(before + after) + multiset{a};
      SameWithoutOne(init, before + after, a);
      EntryPermuted(init, before + after, key, dim);
      EntryConcat(before + [a], after, key, dim);
      EntryConcat(before, [a], key, dim);
      EntryConcat(before, after, key, dim);
      EntryConcat(init, [a], key, dim);
    }
  }

  /** How the assignments of one key are merged, two at a time, in any order and shape. */
  datatype Merges = Leaf(a: Assignment) | Merge(left: Merges, right: Merges)

  function Leaves(m: Merges): (r: seq<Assignment>) {
    match m
    case Leaf(a) => [a]
    case Merge(l, r) => Leaves(l) + Leaves(r)
  }

  /** The additions `operator+` of the assignments performs on their vectors. */
  function Additions(m: Merges): (t: V.Terms) {
    match m
    case Leaf(a) => V.One(a.dim, a.cnt)
    case Merge(l, r) => V.Plus(Additions(l), Additions(r))
  }

  predicate SlotsFit(s: seq<Assignment>, dims: nat) {
    forall a :: a in s ==> a.dims == dims && a.dim < dims
  }

  lemma {:induction false} AdditionsGive(m: Merges, key: nat, dims: nat)
    requires SlotsFit(Leaves(m), dims) && forall a :: a in Leaves(m) ==> a.key == key
    ensures V.Fits(Additions(m), dims)
    ensures forall d :: 0 <= d < dims ==> V.PlainSum(Additions(m), dims)[d] == Entry(Leaves(m), key, d)
  {
    match m {
      case Leaf(a) =>
        assert a in Leaves(m);
        forall d | 0 <= d < dims ensures V.PlainSum(Additions(m), dims)[d] == Entry(Leaves(m), key, d) {
          EntryOne(a, key, d);
        }
      case Merge(l, r) =>
        AdditionsGive(l, key, dims);
        AdditionsGive(r, key, dims);
        forall d | 0 <= d < dims ensures V.PlainSum(Additions(m), dims)[d] == Entry(Leaves(m), key, d) {
          EntryConcat(Leaves(l), Leaves(r), key, d);
        }
    }
  }

  /** A schedule of the aggregation: it may merge a group as it likes, but each assignment exactly once. */
  type Schedule = seq<Assignment> -> Merges

  ghost predicate Honest(schedule: Schedule) {
    forall s :: s != [] ==> multiset(Leaves(schedule(s))) == multiset(s)
  }

  function LeftToRight(s: seq<Assignment>): (m: Merges) {
    if |s| == 0 then Leaf(Assignment(0, 0, 0, 0))
    else if |s| == 1 then Leaf(s[0])
    else Merge(LeftToRight(s[..|s| - 1]), Leaf(s[|s| - 1]))
  }

  lemma {:induction false} LeftToRightKeeps(s: seq<Assignment>)
    requires s != []
    ensures Leaves(LeftToRight(s)) == s
  {
    if |s| > 1 { LeftToRightKeeps(s[..|s| - 1]); }
  }

  /** Merging from left to right is one such schedule. */
  lemma {:induction false} LeftToRightIsHonest()
    ensures Honest(LeftToRight)
  {
    forall s: seq<Assignment> | s != [] ensures multiset(Leaves(LeftToRight(s))) == multiset(s) {
      LeftToRightKeeps(s);
    }
  }

  lemma {:induction false} ScheduledGive(m: Merges, s: seq<Assignment>, key: nat, dims: nat)
    requires SlotsFit(s, dims) && multiset(Leaves(m)) == multiset(OfKey(s, key))
    ensures V.Fits(Additions(m), dims)
    ensures forall d :: 0 <= d < dims ==> V.PlainSum(Additions(m), dims)[d] == Entry(s, key, d)
  {
    forall a | a in Leaves(m) ensures a in s && a.key == key {
      assert a in multiset(Leaves(m));
      assert a in OfKey(s, key);
    }
    AdditionsGive(m, key, dims);
    forall d | 0 <= d < dims ensures Entry(Leaves(m), key, d) == Entry(s, key, d) {
      EntryPermuted(Leaves(m), OfKey(s, key), key, d);
      EntryOfKey(s, key, d);
    }
  }

  /** The aggregate of one key: the vectors of its assignments added up as scheduled. A key without
      assignments has none. */
  method AggregateKey(s: seq<Assignment>, key: nat, dims: nat, schedule: Schedule) returns (r: Option<seq<int>>)
    requires SlotsFit(s, dims) && Honest(schedule)
    ensures r.Some? ==> |r.value| == dims && forall d :: 0 <= d < dims ==> r.value[d] == Entry(s, key, d)
    ensures r.None? ==> forall d :: 0 <= d < dims ==> Entry(s, key, d) == 0
    ensures r.None? <==> OfKey(s, key) == []
  {
    var group := OfKey(s, key);
    forall d ensures Entry(group, key, d) == Entry(s, key, d) { EntryOfKey(s, key, d); }
    if group == [] { return None; }
    var m := schedule(group);
    ScheduledGive(m, s, key, dims);
    var v := V.Evaluate(Additions(m), dims);
    r := Some(v);
  }

  /** Slot `dim` of the vector of `key`; a missing key counts as zero. */
  function Value(vs: seq<Option<seq<int>>>, key: int, dim: int): (n: int) {
    if 0 <= key < |vs| && vs[key].Some? && 0 <= dim < |vs[key].value| then vs[key].value[dim] else 0
  }

  /** The vectors of all keys hold exactly the summed assignments. */
  ghost predicate Aggregates(vs: seq<Option<seq<int>>>, s: seq<Assignment>, dims: nat) {
    && (forall k :: 0 <= k < |vs| && vs[k].Some? ==> |vs[k].value| == dims)
    && forall k, d :: 0 <= k < |vs| && 0 <= d < dims ==> Value(vs, k, d) == Entry(s, k, d)
  }

  method AggregateAll(s: seq<Assignment>, keys: nat, dims: nat, schedule: Schedule) returns (vs: seq<Option<seq<int>>>)
    requires SlotsFit(s, dims) && Honest(schedule)
    ensures |vs| == keys && Aggregates(vs, s, dims)
  {
    vs := [];
    for key := 0 to keys
      invariant |vs| == key && Aggregates(vs, s, dims)
    {
      var v := AggregateKey(s, key, dims, schedule);
      ghost var before := vs;
      vs := vs + [v];
      forall k, d | 0 <= k < |vs| && 0 <= d < dims ensures Value(vs, k, d) == Entry(s, k, d) {
        if k < key { assert Value(vs, k, d) == Value(before, k, d); }
      }
    }
  }

  // ---------- sums ----------

  function SumTo(n: nat, f: int -> int): (s: int) {
    if n == 0 then 0 else SumTo(n - 1, f) + f(n - 1)
  }

  lemma {:induction false} SumAdd(n: nat, f: int -> int, g: int -> int, h: int -> int)
    requires forall i :: 0 <= i < n ==> h(i) == f(i) + g(i)
    ensures SumTo(n, h) == SumTo(n, f) + SumTo(n, g)
  {
    if n > 0 { SumAdd(n - 1, f, g, h); }
  }

  lemma {:induction false} SumPick(n: nat, f: int -> int, k: int, v: int)
    requires forall i :: 0 <= i < n ==> f(i) == if i == k then v else 0
    ensures SumTo(n, f) == if 0 <= k < n then v else 0
  {
    if n > 0 { SumPick(n - 1, f, k, v); }
  }

  lemma {:induction false} SumOfSeq(s: seq<nat>, n: nat, f: int -> int)
    requires n <= |s| && forall i :: 0 <= i < n ==> f(i) == s[i]
    ensures SumTo(n, f) == SumSeq(s[..n])
  {
    if n > 0 {
      SumOfSeq(s, n - 1, f);
      assert s[..n][..n - 1] == s[..n - 1];
    }
  }

  /** The slots of one key, and the keys at one slot. */
  function Row(s: seq<Assignment>, key: int): (f: int -> int) { (dim: int) => Entry(s, key, dim) }

  function Column(s: seq<Assignment>, dim: int): (f: int -> int) { (key: int) => Entry(s, key, dim) }

  lemma {:induction false} DocEntry(doc: nat, topics: seq<nat>, n: nat, d: int, t: int)
    requires n <= |topics|
    ensures Entry(DocAssigns(doc, topics, n), d, t) == if d == doc && 0 <= t < n then topics[t] else 0
  {
    if n > 0 {
      DocEntry(doc, topics, n - 1, d, t);
      var before := DocAssigns(doc, topics, n - 1);
      if topics[n - 1] == 0 {
        assert before + [] == before;
      } else {
        var a := Assignment(|topics|, doc, n - 1, topics[n - 1]);
        assert (before + [a])[..|before|] == before;
      }
    }
  }

  lemma {:induction false} TopicEntry(numWords: nat, word: nat, topics: seq<nat>, n: nat, t: int, w: int)
    requires n <= |topics|
    ensures Entry(TopicAssigns(numWords, word, topics, n), t, w) == if w == word && 0 <= t < n then topics[t] else 0
  {
    if n > 0 {
      TopicEntry(numWords, word, topics, n - 1, t, w);
      var before := TopicAssigns(numWords, word, topics, n - 1);
      if topics[n - 1] == 0 {
        assert before + [] == before;
      } else {
        var a := Assignment(numWords, n - 1, word, topics[n - 1]);
        assert (before + [a])[..|before|] == before;
      }
    }
  }

  // ---------- the whole step ----------

  function WordsOf(rs: seq<Record>, doc: nat): (n: nat) {
    if rs == [] then 0
    else WordsOf(rs[..|rs| - 1], doc) + if rs[|rs| - 1].doc == doc then rs[|rs| - 1].count else 0
  }

  /** The joined probabilities leave something to draw from. */
  predicate HasMass(r: Record) {
    |r.topicProbs| == |r.wordProbs| && var p := Posterior(r.topicProbs, r.wordProbs); Prefix(p, |p|) > 0.0
  }

  /** That is, some topic has positive probability in the document and for the word. */
  lemma {:induction false} HasMassMeans(r: Record)
    requires |r.topicProbs| == |r.wordProbs| && NonNegative(r.topicProbs) && NonNegative(r.wordProbs)
    ensures HasMass(r) <==> exists i :: 0 <= i < |r.topicProbs| && r.topicProbs[i] > 0.0 && r.wordProbs[i] > 0.0
  {
    MassMeans(r.topicProbs, r.wordProbs);
  }

  /** The words of a record that are counted: all of them, or none. */
  function Drawn(r: Record): (n: nat) { if HasMass(r) then r.count else 0 }

  function DrawnOf(rs: seq<Record>, doc: nat): (n: nat) {
    if rs == [] then 0
    else DrawnOf(rs[..|rs| - 1], doc) + if rs[|rs| - 1].doc == doc then Drawn(rs[|rs| - 1]) else 0
  }

  /** A document loses no words exactly if every record of it that has words has mass. */
  lemma {:induction false} NothingLost(rs: seq<Record>, doc: nat)
    ensures DrawnOf(rs, doc) <= WordsOf(rs, doc)
    ensures DrawnOf(rs, doc) == WordsOf(rs, doc) <==> forall r :: r in rs && r.doc == doc && r.count > 0 ==> HasMass(r)
  {
    if rs != [] {
      var init, last := rs[..|rs| - 1], rs[|rs| - 1];
      NothingLost(init, doc);
      assert rs == init + [last];
    }
  }

  /** What a record must bring: probabilities for each topic and a draw per word. */
  predicate Joinable(r: Record, numTopics: nat, numDocs: nat, numWords: nat) {
    && |r.topicProbs| == |r.wordProbs| == numTopics && r.doc < numDocs && r.word < numWords
    && NonNegative(r.topicProbs) && NonNegative(r.wordProbs)
    && |r.draws| == r.count && UnitDraws(r.draws)
  }

  ghost predicate DocTotals(docs: seq<Assignment>, rs: seq<Record>, numTopics: nat, numDocs: nat) {
    forall d: nat :: d < numDocs ==> SumTo(numTopics, Row(docs, d)) == DrawnOf(rs, d)
  }

  ghost predicate SameTopicTotals(docs: seq<Assignment>, tops: seq<Assignment>, numTopics: nat, numDocs: nat, numWords: nat) {
    forall t: nat :: t < numTopics ==> SumTo(numDocs, Column(docs, t)) == SumTo(numWords, Row(tops, t))
  }

  lemma {:induction false} DocTotalsStep(docs: seq<Assignment>, rs: seq<Record>, r: Record, topics: seq<nat>, d: nat)
    requires SumTo(|topics|, Row(docs, d)) == DrawnOf(rs, d) && SumSeq(topics) == Drawn(r)
    ensures SumTo(|topics|, Row(docs + DocAssigns(r.doc, topics, |topics|), d)) == DrawnOf(rs + [r], d)
  {
    var new', n := DocAssigns(r.doc, topics, |topics|), |topics|;
    forall t | 0 <= t < n ensures Row(docs + new', d)(t) == Row(docs, d)(t) + Row(new', d)(t) {
      EntryConcat(docs, new', d, t);
    }
    SumAdd(n, Row(docs, d), Row(new', d), Row(docs + new', d));
    assert (rs + [r])[..|rs|] == rs;
    forall t | 0 <= t < n ensures Row(new', d)(t) == if d == r.doc then topics[t] else 0 {
      DocEntry(r.doc, topics, n, d, t);
    }
    if d == r.doc {
      SumOfSeq(topics, n, Row(new', d));
      assert topics[..n] == topics;
    } else {
      SumPick(n, Row(new', d), 0, 0);
    }
  }

  lemma {:induction false} TopicTotalsStep(docs: seq<Assignment>, tops: seq<Assignment>, r: Record, topics: seq<nat>, t: nat, numDocs: nat, numWords: nat)
    requires SumTo(numDocs, Column(docs, t)) == SumTo(numWords, Row(tops, t))
    requires t < |topics| && r.doc < numDocs && r.word < numWords
    ensures SumTo(numDocs, Column(docs + DocAssigns(r.doc, topics, |topics|), t)) ==
            SumTo(numWords, Row(tops + TopicAssigns(numWords, r.word, topics, |topics|), t))
  {
    var n := |topics|;
    var ds, ts := DocAssigns(r.doc, topics, n), TopicAssigns(numWords, r.word, topics, n);
    forall d | 0 <= d < numDocs ensures Column(docs + ds, t)(d) == Column(docs, t)(d) + Column(ds, t)(d) {
      EntryConcat(docs, ds, d, t);
    }
    SumAdd(numDocs, Column(docs, t), Column(ds, t), Column(docs + ds, t));
    forall d | 0 <= d < numDocs ensures Column(ds, t)(d) == if d == r.doc then topics[t] else 0 {
      DocEntry(r.doc, topics, n, d, t);
    }
    SumPick(numDocs, Column(ds, t), r.doc, topics[t]);
    forall w | 0 <= w < numWords ensures Row(tops + ts, t)(w) == Row(tops, t)(w) + Row(ts, t)(w) {
      EntryConcat(tops, ts, t, w);
    }
    SumAdd(numWords, Row(tops, t), Row(ts, t), Row(tops + ts, t));
    forall w | 0 <= w < numWords ensures Row(ts, t)(w) == if w == r.word then topics[t] else 0 {
      TopicEntry(numWords, r.word, topics, n, t, w);
    }
    SumPick(numWords, Row(ts, t), r.word, topics[t]);
  }

  lemma {:induction false} AssignsFit(doc: nat, word: nat, numWords: nat, topics: seq<nat>, n: nat)
    requires n <= |topics| && word < numWords
    ensures SlotsFit(DocAssigns(doc, topics, n), |topics|) && SlotsFit(TopicAssigns(numWords, word, topics, n), numWords)
  {
    if n > 0 { AssignsFit(doc, word, numWords, topics, n - 1); }
  }

  /** The joined records, each sampled and emitted once. */
  method Sample(rs: seq<Record>, numTopics: nat, numDocs: nat, numWords: nat) returns (docs: seq<Assignment>, tops: seq<Assignment>)
    requires forall i :: 0 <= i < |rs| ==> Joinable(rs[i], numTopics, numDocs, numWords)
    ensures DocTotals(docs, rs, numTopics, numDocs)
    ensures SameTopicTotals(docs, tops, numTopics, numDocs, numWords)
    ensures SlotsFit(docs, numTopics) && SlotsFit(tops, numWords)
  {
    docs, tops := [], [];
    forall d: nat ensures SumTo(numTopics, Row(docs, d)) == 0 { SumPick(numTopics, Row(docs, d), 0, 0); }
    forall t: nat ensures SumTo(numDocs, Column(docs, t)) == 0 == SumTo(numWords, Row(tops, t)) {
      SumPick(numDocs, Column(docs, t), 0, 0);
      SumPick(numWords, Row(tops, t), 0, 0);
    }
    for i := 0 to |rs|
      invariant DocTotals(docs, rs[..i], numTopics, numDocs)
      invariant SameTopicTotals(docs, tops, numTopics, numDocs, numWords)
      invariant SlotsFit(docs, numTopics) && SlotsFit(tops, numWords)
    {
      var r := rs[i];
      var topics, bounds := SampleTopics(r.topicProbs, r.wordProbs, r.draws);
      var ds, ts := Emit(r.doc, r.word, numWords, topics);
      forall d: nat | d < numDocs ensures SumTo(numTopics, Row(docs + ds, d)) == DrawnOf(rs[..i] + [r], d) {
        DocTotalsStep(docs, rs[..i], r, topics, d);
      }
      forall t: nat | t < numTopics ensures SumTo(numDocs, Column(docs + ds, t)) == SumTo(numWords, Row(tops + ts, t)) {
        TopicTotalsStep(docs, tops, r, topics, t, numDocs, numWords);
      }
      AssignsFit(r.doc, r.word, numWords, topics, |topics|);
      assert rs[..i + 1] == rs[..i] + [r];
      docs, tops := docs + ds, tops + ts;
    }
    assert rs[..|rs|] == rs;
  }

  // ---------- the laws on the aggregates ----------

  /** The vector of one key, and one slot over all keys. */
  function VectorOf(vs: seq<Option<seq<int>>>, key: int): (f: int -> int) { (dim: int) => Value(vs, key, dim) }

  function SlotOf(vs: seq<Option<seq<int>>>, dim: int): (f: int -> int) { (key: int) => Value(vs, key, dim) }

  lemma {:induction false} SumExt(n: nat, f: int -> int, g: int -> int)
    requires forall i :: 0 <= i < n ==> f(i) == g(i)
    ensures SumTo(n, f) == SumTo(n, g)
  {
    if n > 0 { SumExt(n - 1, f, g); }
  }

  lemma {:induction false} VectorSum(vs: seq<Option<seq<int>>>, s: seq<Assignment>, key: nat, dims: nat)
    requires Aggregates(vs, s, dims) && key < |vs|
    ensures SumTo(dims, VectorOf(vs, key)) == SumTo(dims, Row(s, key))
  {
    SumExt(dims, VectorOf(vs, key), Row(s, key));
  }

  lemma {:induction false} SlotSum(vs: seq<Option<seq<int>>>, s: seq<Assignment>, dim: nat, dims: nat)
    requires Aggregates(vs, s, dims) && dim < dims
    ensures SumTo(|vs|, SlotOf(vs, dim)) == SumTo(|vs|, Column(s, dim))
  {
    SumExt(|vs|, SlotOf(vs, dim), Column(s, dim));
  }

  /** The whole step, whatever the schedules of the two aggregations: each document's vector of topic counts
      adds up to the words of its records with posterior mass, and for each topic the total over the document vectors is the total over the
      topic's own vector of word counts. */
  method Step(rs: seq<Record>, numTopics: nat, numDocs: nat, numWords: nat, docSchedule: Schedule, topicSchedule: Schedule)
    returns (docs: seq<Option<seq<int>>>, topics: seq<Option<seq<int>>>)
    requires forall i :: 0 <= i < |rs| ==> Joinable(rs[i], numTopics, numDocs, numWords)
    requires Honest(docSchedule) && Honest(topicSchedule)
    ensures |docs| == numDocs && |topics| == numTopics
    ensures forall d :: 0 <= d < numDocs ==> SumTo(numTopics, VectorOf(docs, d)) == DrawnOf(rs, d)
    ensures forall t :: 0 <= t < numTopics ==> SumTo(numDocs, SlotOf(docs, t)) == SumTo(numWords, VectorOf(topics, t))
  {
    var ds, ts := Sample(rs, numTopics, numDocs, numWords);
    docs := AggregateAll(ds, numDocs, numTopics, docSchedule);
    topics := AggregateAll(ts, numTopics, numWords, topicSchedule);
    forall d | 0 <= d < numDocs ensures SumTo(numTopics, VectorOf(docs, d)) == DrawnOf(rs, d) {
      VectorSum(docs, ds, d, numTopics);
    }
    forall t | 0 <= t < numTopics ensures SumTo(numDocs, SlotOf(docs, t)) == SumTo(numWords, VectorOf(topics, t)) {
      SlotSum(docs, ds, t, numTopics);
      VectorSum(topics, ts, t, numWords);
    }
  }

  /** If every record with words has mass, no word is lost. */
  method StepKeepsWords(rs: seq<Record>, numTopics: nat, numDocs: nat, numWords: nat, docSchedule: Schedule, topicSchedule: Schedule)
    returns (docs: seq<Option<seq<int>>>, topics: seq<Option<seq<int>>>)
    requires forall i :: 0 <= i < |rs| ==> Joinable(rs[i], numTopics, numDocs, numWords)
    requires forall r :: r in rs && r.count > 0 ==> HasMass(r)
    requires Honest(docSchedule) && Honest(topicSchedule)
    ensures |docs| == numDocs && |topics| == numTopics
    ensures forall d :: 0 <= d < numDocs ==> SumTo(numTopics, VectorOf(docs, d)) == WordsOf(rs, d)
    ensures forall t :: 0 <= t < numTopics ==> SumTo(numDocs, SlotOf(docs, t)) == SumTo(numWords, VectorOf(topics, t))
  {
    docs, topics := Step(rs, numTopics, numDocs, numWords, docSchedule, topicSchedule);
    forall d: nat ensures DrawnOf(rs, d) == WordsOf(rs, d) { NothingLost(rs, d); }
  }
}
