/** The template parser: it builds the component tree while scanning and checks the nesting of sections only
    in a walk over the finished tree. */
module MustacheParse {
  import opened Wrappers
  import opened MustacheText
  import opened MustacheScan
  import opened MustacheTree
  import opened MustacheNesting

  datatype ParseResult = Valid(children: seq<Component>) | Rejected(err: ParseError)

  /** What the loop does with a scanned tag: append it, open a section, or close the innermost one. */
  method AddTag(input: string, t: Tree, tag: Piece) returns (r: Option<Tree>)
    requires tag.Tag? && tag.start <= |input| && forall f :: f in t.open ==> f.start <= tag.start
    ensures r == AddPiece(input, t, tag)
    ensures r.Some? && tag.start <= tag.end ==> forall f :: f in r.value.open ==> f.start <= tag.end
  {
    if Begins(tag.kind) {
      return Some(t.(open := t.open + [Frame(tag.kind, tag.name, tag.start, tag.end, [])]));
    } else if tag.kind.SectionEnd? {
      if t.open == [] { return None; }
      var i := |t.open| - 1;
      var f := t.open[i];
      assert f in t.open;
      assert forall g :: g in t.open[..i] ==> g in t.open;
      var t0 := t.(open := t.open[..i]);
      assert t0.open != [] ==> t0.open[|t0.open| - 1] in t0.open;
      return Some(AddChild(t0, FrameNode(f, Some(input[f.start..tag.start]), [Leaf(input, tag)])));
    }
    assert t.open != [] ==> t.open[|t.open| - 1] in t.open;
    return Some(AddChild(t, Leaf(input, tag)));
  }

  /** The text up to the next tag becomes a child of the innermost section. */
  method AddText(input: string, t: Tree, pos: nat, at: nat) returns (r: Tree)
    requires pos <= at <= |input|
    ensures r == if pos == at then t else AddChild(t, Leaf(input, Text(pos, at)))
    ensures forall f :: f in r.open ==> exists g :: g in t.open && f.start == g.start
  {
    r := t;
    if at != pos {
      assert t.open != [] ==> t.open[|t.open| - 1] in t.open;
      r := AddChild(t, TextNode(input[pos..at], pos));
    }
  }

  lemma {:induction false} BuildRound(input: string, ps: seq<Piece>, t: Tree, pos: nat, tag: Piece)
    requires Build(input, ps) == Some(t)
    ensures var t' := if pos == tag.start then t else AddChild(t, Leaf(input, Text(pos, tag.start)));
            Build(input, ps + Round(pos, tag)) == AddPiece(input, t', tag)
  {
    if pos == tag.start {
      assert ps + Round(pos, tag) == ps + [tag];
      BuildSnoc(input, ps, tag);
    } else {
      BuildSnoc(input, ps, Text(pos, tag.start));
      BuildSnoc(input, ps + [Text(pos, tag.start)], tag);
      assert ps + Round(pos, tag) == ps + [Text(pos, tag.start)] + [tag];
    }
  }

  /** One round of the loop: the text before the tag, then the tag. */
  method AddRound(input: string, t: Tree, pos: nat, tag: Piece, ghost ps: seq<Piece>) returns (next: Option<Tree>)
    requires Build(input, ps) == Some(t) && tag.Tag? && pos <= tag.start <= tag.end <= |input|
    requires forall f :: f in t.open ==> f.start <= pos
    ensures next == Build(input, ps + Round(pos, tag))
    ensures next.Some? ==> forall f :: f in next.value.open ==> f.start <= tag.end
  {
    BuildRound(input, ps, t, pos, tag);
    var t1 := AddText(input, t, pos, tag.start);
    next := AddTag(input, t1, tag);
  }

  /** The search for the next tag and the reading of its contents. */
  method ReadTag(input: string, pos: nat, d: Delims) returns (r: Option<TagScan>)
    requires pos <= |input| && ValidDelims(d)
    ensures r == NextTag(input, pos, d)
  {
    var at := Find(input, d.begin, pos);
    if at.None? { return None; }
    var tag := ReadTagAt(input, at.value, d);
    return Some(tag);
  }

  method ReadTagAt(input: string, start: nat, d: Delims) returns (r: TagScan)
    requires ValidDelims(d) && OccursAt(input, d.begin, start)
    ensures r == ScanTag(input, start, d)
  {
    var o := Opening(input, start, d);
    var close := Find(input, o.close, o.from);
    if close.None? { return BadTag(UnclosedTag(start)); }
    var contents := TrimLoop(input[o.from..close.value]);
    return TagOf(start, close.value + |o.close|, contents, o.triple, d);
  }

  lemma {:induction false} ScanRound(input: string, ps: seq<Piece>, pos: nat, d: Delims, all: ScanResult)
    requires pos < |input| && ValidDelims(d) && all == Prepend(ps, Scan(input, pos, d))
    ensures var t := NextTag(input, pos, d);
            if t.None? then all == Pieces(ps + [Text(pos, |input|)])
            else if t.value.BadTag? then all == Failed(t.value.err)
            else all == Prepend(ps + Round(pos, t.value.tag), Scan(input, t.value.tag.end, t.value.next))
  {
    var t := NextTag(input, pos, d);
    if t.Some? && t.value.Tagged? {
      PrependPrepend(ps, Round(pos, t.value.tag), Scan(input, t.value.tag.end, t.value.next));
    }
  }

  /** The scanning loop. Every index and substring it takes is in range because the delimiters stay valid. */
  method ScanLoop(input: string) returns (t: Tree, err: Option<ParseError>)
    ensures err.None? ==> Scans(input) && Build(input, PiecesIn(input)) == Some(t)
    ensures err.Some? ==> !Scans(input) || Build(input, PiecesIn(input)).None?
  {
    var d, pos := DEFAULT_DELIMS, 0;
    t, err := EMPTY_TREE, None;
    ghost var ps: seq<Piece> := [];
    ghost var all := Scan(input, 0, DEFAULT_DELIMS);
    assert all == Prepend(ps, all);
    while pos != |input|
      invariant pos <= |input| && ValidDelims(d)
      invariant all == Prepend(ps, Scan(input, pos, d))
      invariant Build(input, ps) == Some(t)
      invariant forall f :: f in t.open ==> f.start <= pos
      decreases |input| - pos
    {
      ScanRound(input, ps, pos, d, all);
      var found := ReadTag(input, pos, d);
      if found.None? {
        BuildSnoc(input, ps, Text(pos, |input|));
        t := AddText(input, t, pos, |input|);
        return;
      }
      if found.value.BadTag? {
        err := Some(found.value.err);
        return;
      }
      var tag := found.value.tag;
      var next := AddRound(input, t, pos, tag, ps);
      ps := ps + Round(pos, tag);
      d, pos := found.value.next, tag.end;
      if next.None? {
        if all.Pieces? { BuildNonePrefix(input, ps, Scan(input, pos, d).ps); }
        err := Some(UnopenedSection(tag.name, tag.start));
        return;
      }
      t := next.value;
    }
    assert ps + [] == ps;
  }

  /** `parse` for a fresh template: the scanning loop, then the deferred check. `asserted` says whether
      the walk's assertion was violated on the way. */
  method Parse(input: string) returns (r: ParseResult, asserted: bool)
    ensures r.Valid? <==> Accepts(input)
    ensures r.Valid? ==> ShowsAll(input, r.children, PiecesIn(input))
    ensures r.Valid? ==> Tiles(PiecesIn(input), 0, |input|)
    ensures asserted <==> Scans(input) && FailsInside(PiecesIn(input))
    ensures asserted ==> r.Rejected?
  {
    ScanTiles(input, 0, DEFAULT_DELIMS);
    var t, err := ScanLoop(input);
    if Scans(input) {
      BuildInvariant(input, PiecesIn(input));
      NestingOnPieces(input, PiecesIn(input));
    }
    if err.Some? { return Rejected(err.value), false; }
    FinishDecides(input, PiecesIn(input), t);
    FirstFailureFails(Finish(t));
    var children;
    children, err, asserted := WalkRoot(Finish(t));
    r := if err.Some? then Rejected(err.value) else Valid(children);
  }
}
