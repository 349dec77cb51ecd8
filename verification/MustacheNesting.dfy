/** Where the first failing section stands, read off the scanned pieces alone. */
module MustacheNesting {
  import opened Wrappers
  import opened MustacheScan
  import opened MustacheTree

  /** A matcher that pairs tags by position only. `open` are the names of the open sections, `hurt` says that
      a section closed inside the present top-level one had another name, and `nested` speaks of the first
      top-level section that was closed and failed: whether its own names agreed. */
  datatype Watch = Watch(open: seq<string>, hurt: bool, nested: Option<bool>)

  function WatchStep(w: Watch, p: Piece): (r: Option<Watch>) {
    if p.Tag? && Begins(p.kind) then Some(w.(open := w.open + [p.name]))
    else if p.Tag? && p.kind.SectionEnd? then
      if w.open == [] then None
      else
        var n := |w.open| - 1;
        var same := w.open[n] == p.name;
        if n > 0 then Some(w.(open := w.open[..n], hurt := w.hurt || !same))
        else Some(Watch([], false, if w.nested.Some? || (same && !w.hurt) then w.nested else Some(same)))
    else Some(w)
  }

  function WatchAll(ps: seq<Piece>): (r: Option<Watch>) {
    if ps == [] then Some(Watch([], false, None))
    else
      var w := WatchAll(ps[..|ps| - 1]);
      if w.None? then None else WatchStep(w.value, ps[|ps| - 1])
  }

  /** No closing tag is unopened, and the first top-level section with a failure in it is closed by its own
      name, so that the failure lies deeper. */
  predicate FailsInside(ps: seq<Piece>) {
    var w := WatchAll(ps);
    w.Some? && w.value.nested == Some(true)
  }

  // ---------- agreement with the tree ----------

  ghost predicate Watched(t: Tree, w: Watch) {
    && EndsOnlyInside(t) && w.open == Names(t.open) && (w.hurt <==> !OpenGood(t))
    && (w.nested.None? <==> GoodAll(t.root)) && (w.nested == Some(true) <==> FirstFailureIsNested(t.root))
  }

  lemma {:induction false} WatchedOpen(input: string, t: Tree, w: Watch, p: Piece)
    requires Watched(t, w) && p.Tag? && Begins(p.kind)
    ensures Watched(AddPiece(input, t, p).value, WatchStep(w, p).value)
  {
    var f := Frame(p.kind, p.name, p.start, p.end, []);
    var t' := t.(open := t.open + [f]);
    GoodTreeSplit(t', t, f);
    EndsSplit(t', t, f);
  }

  lemma {:induction false} WatchedLeaf(input: string, t: Tree, w: Watch, p: Piece)
    requires Watched(t, w) && (p.Tag? ==> !Begins(p.kind) && !p.kind.SectionEnd?)
    ensures Watched(AddPiece(input, t, p).value, w)
  {
    var c := Leaf(input, p);
    LeafShows(input, p);
    GoodAddChild(t, c);
    if t.open == [] { FirstFailureMore(t.root, c); }
  }

  lemma {:induction false} WatchedClose(input: string, t: Tree, w: Watch, p: Piece)
    requires Watched(t, w) && p.Tag? && p.kind.SectionEnd? && t.open != []
    ensures w.open != [] && Watched(AddPiece(input, t, p).value, WatchStep(w, p).value)
  {
    var i := |t.open| - 1;
    var t0, f := t.(open := t.open[..i]), t.open[i];
    assert t.open == t0.open + [f];
    GoodTreeSplit(t, t0, f);
    assert w.open[..i] == Names(t0.open) && w.open[i] == f.name;
    ClosedGood(input, f, p);
    if i == 0 {
      WatchedTop(t0, w, f, Closed(input, f, p), p);
    } else {
      GoodAddChild(t0, Closed(input, f, p));
    }
  }

  /** The closing of a top-level section. */
  lemma {:induction false} WatchedTop(t0: Tree, w: Watch, f: Frame, c: Component, p: Piece)
    requires t0.open == [] && EndsOnlyInside(t0) && !IsEnd(c) && p.Tag? && p.kind.SectionEnd? && w.open == [f.name]
    requires (w.nested.None? <==> GoodAll(t0.root)) && (w.nested == Some(true) <==> FirstFailureIsNested(t0.root))
    requires (OwnCheck(c) <==> f.name == p.name) && (Good(c) <==> f.name == p.name && !w.hurt)
    ensures Watched(AddChild(t0, c), WatchStep(w, p).value)
  {
    GoodAddChild(t0, c);
    FirstFailureMore(t0.root, c);
  }

  lemma {:induction false} FirstFailureMore(cs: seq<Component>, c: Component)
    ensures GoodAll(cs + [c]) <==> GoodAll(cs) && Good(c)
    ensures FirstFailureIsNested(cs + [c]) <==> if GoodAll(cs) then OwnCheck(c) && !Good(c) else FirstFailureIsNested(cs)
    ensures FirstFailureIsNested(cs) ==> !GoodAll(cs)
  {
    GoodAllSnoc(cs, c);
    FirstFailureSnoc(cs, c);
    FirstFailureFails(cs);
  }

  /** The tree can be built exactly if the matcher does not stop, and then both agree. */
  lemma {:induction false} WatchedAll(input: string, ps: seq<Piece>)
    ensures Build(input, ps).None? <==> WatchAll(ps).None?
    ensures Build(input, ps).Some? ==> Watched(Build(input, ps).value, WatchAll(ps).value)
  {
    if ps != [] {
      var init, p := ps[..|ps| - 1], ps[|ps| - 1];
      WatchedAll(input, init);
      if Build(input, init).Some? {
        var t, w := Build(input, init).value, WatchAll(init).value;
        if p.Tag? && Begins(p.kind) {
          WatchedOpen(input, t, w, p);
        } else if p.Tag? && p.kind.SectionEnd? {
          if t.open != [] { WatchedClose(input, t, w, p); }
        } else {
          WatchedLeaf(input, t, w, p);
        }
      }
    }
  }

  /** Sections left open end up in one last top-level component that fails its own test. */
  lemma {:induction false} FinishAddsFailure(t: Tree) returns (c: Component)
    requires EndsOnlyInside(t) && t.open != []
    ensures Finish(t) == t.root + [c] && !OwnCheck(c)
    decreases |t.open|
  {
    var i := |t.open| - 1;
    var t0 := t.(open := t.open[..i]);
    c := FrameNode(t.open[i], None, []);
    UnfinishedFails(t.open[i]);
    GoodAddChild(t0, c);
    if i > 0 { c := FinishAddsFailure(AddChild(t0, c)); }
  }

  /** The walk over the finished tree meets a nested failure first exactly if the pieces say so. */
  lemma {:induction false} NestingOnPieces(input: string, ps: seq<Piece>)
    ensures FailsInside(ps) <==> Build(input, ps).Some? && FirstFailureIsNested(Finish(Build(input, ps).value))
  {
    WatchedAll(input, ps);
    if Build(input, ps).Some? {
      var t := Build(input, ps).value;
      if t.open != [] {
        var c := FinishAddsFailure(t);
        FirstFailureMore(t.root, c);
      }
    }
  }
}
