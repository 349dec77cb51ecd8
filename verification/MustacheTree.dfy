/** The component tree: how the parser builds it piece by piece, the nesting check it makes only in a walk over
    the finished tree, and the proof that this agrees with a matcher that checks names at each closing tag. */
module MustacheTree {
  import opened Wrappers
  import opened MustacheScan

  // ---------- the component tree ----------

  datatype Component =
    | TextNode(text: string, position: nat)
    | TagNode(kind: TagKind, name: string, sectionText: Option<string>, delims: Option<Delims>,
              children: seq<Component>, position: nat)

  predicate IsEnd(c: Component) { c.TagNode? && c.kind.SectionEnd? }

  predicate IsSection(c: Component) { c.TagNode? && Begins(c.kind) }

  /** An open section: its tag, where its body starts (`sectionStarts`) and its children so far. */
  datatype Frame = Frame(kind: TagKind, name: string, position: nat, start: nat, children: seq<Component>)

  /** The tree under construction: the `sections` stack is the root followed by `open`. */
  datatype Tree = Tree(root: seq<Component>, open: seq<Frame>)

  const EMPTY_TREE := Tree([], [])

  function AddChild(t: Tree, c: Component): (r: Tree)
    ensures |r.open| == |t.open|
  {
    if t.open == [] then t.(root := t.root + [c])
    else
      var i := |t.open| - 1;
      t.(open := t.open[..i] + [t.open[i].(children := t.open[i].children + [c])])
  }

  function Slice(s: string, i: nat, j: nat): (r: string) {
    if i <= j <= |s| then s[i..j] else []
  }

  function Leaf(input: string, p: Piece): (c: Component) {
    match p
    case Text(s, e) => TextNode(Slice(input, s, e), s)
    case Tag(s, _, k, n, dl) => TagNode(k, n, None, dl, [], s)
  }

  function FrameNode(f: Frame, text: Option<string>, more: seq<Component>): (c: Component) {
    TagNode(f.kind, f.name, text, None, f.children + more, f.position)
  }

  /** The component a closing tag turns an open section into. */
  function Closed(input: string, f: Frame, p: Piece): (c: Component) {
    FrameNode(f, Some(Slice(input, f.start, p.start)), [Leaf(input, p)])
  }

  /** What one piece does to the tree; None is the "unopened section" exit. */
  function AddPiece(input: string, t: Tree, p: Piece): (r: Option<Tree>) {
    if p.Tag? && Begins(p.kind) then
      Some(t.(open := t.open + [Frame(p.kind, p.name, p.start, p.end, [])]))
    else if p.Tag? && p.kind.SectionEnd? then
      if t.open == [] then None
      else
        var i := |t.open| - 1;
        var f := t.open[i];
        Some(AddChild(t.(open := t.open[..i]), Closed(input, f, p)))
    else Some(AddChild(t, Leaf(input, p)))
  }

  function Build(input: string, ps: seq<Piece>): (r: Option<Tree>) {
    if ps == [] then Some(EMPTY_TREE)
    else
      var t := Build(input, ps[..|ps| - 1]);
      if t.None? then None else AddPiece(input, t.value, ps[|ps| - 1])
  }

  lemma {:induction false} BuildSnoc(input: string, ps: seq<Piece>, p: Piece)
    requires Build(input, ps).Some?
    ensures Build(input, ps + [p]) == AddPiece(input, Build(input, ps).value, p)
  {
    assert (ps + [p])[..|ps|] == ps;
  }

  /** After an unopened section nothing can be built any more. */
  lemma {:induction false} BuildNonePrefix(input: string, ps: seq<Piece>, qs: seq<Piece>)
    requires Build(input, ps).None?
    ensures Build(input, ps + qs).None?
    decreases |qs|
  {
    if qs == [] {
      assert ps + qs == ps;
    } else {
      assert (ps + qs)[..|ps + qs| - 1] == ps + qs[..|qs| - 1];
      BuildNonePrefix(input, ps, qs[..|qs| - 1]);
    }
  }

  /** The children of the root component once the input is read: sections left open stay in the tree. */
  function Finish(t: Tree): (cs: seq<Component>)
    decreases |t.open|
  {
    if t.open == [] then t.root
    else
      var i := |t.open| - 1;
      Finish(AddChild(t.(open := t.open[..i]), FrameNode(t.open[i], None, [])))
  }

  // ---------- the deferred check ----------

  /** The test the walk makes at one component. */
  predicate OwnCheck(c: Component) {
    IsSection(c) ==> c.children != [] && var z := c.children[|c.children| - 1]; IsEnd(z) && z.name == c.name
  }

  /** The children the walk goes on to: a section's last child has just been popped. */
  function Visited(c: Component): (kids: seq<Component>)
    requires c.TagNode?
    ensures |kids| <= |c.children| && kids == c.children[..|kids|]
  {
    if Begins(c.kind) && c.children != [] then c.children[..|c.children| - 1] else c.children
  }

  /** Every component the walk would visit passes its test. */
  predicate Good(c: Component)
    decreases c, 1
  {
    OwnCheck(c) && (c.TagNode? ==> GoodAll(Visited(c)))
  }

  predicate GoodAll(cs: seq<Component>)
    decreases cs, 0
  {
    cs == [] || (Good(cs[0]) && GoodAll(cs[1..]))
  }

  function Prune(c: Component): (r: Component)
    decreases c, 1
  {
    if c.TextNode? then c else c.(children := PruneAll(Visited(c)))
  }

  function PruneAll(cs: seq<Component>): (r: seq<Component>)
    ensures |r| == |cs|
    decreases cs, 0
  {
    if cs == [] then [] else [Prune(cs[0])] + PruneAll(cs[1..])
  }

  lemma {:induction false} GoodAllSnoc(cs: seq<Component>, c: Component)
    ensures GoodAll(cs + [c]) <==> GoodAll(cs) && Good(c)
    ensures PruneAll(cs + [c]) == PruneAll(cs) + [Prune(c)]
  {
    if cs != [] {
      GoodAllSnoc(cs[1..], c);
      assert (cs + [c])[1..] == cs[1..] + [c];
    } else {
      assert [c][1..] == [];
      assert cs + [c] == [c];
    }
  }

  lemma {:induction false} GoodAllPrefix(cs: seq<Component>, i: nat)
    requires i <= |cs| && !GoodAll(cs[..i])
    ensures !GoodAll(cs)
  {
    if i > 0 && Good(cs[0]) {
      assert cs[..i][1..] == cs[1..][..i - 1];
      GoodAllPrefix(cs[1..], i - 1);
    }
  }

  datatype WalkControl = Continue | Stop | Skip

  /** `walkComponent` with the parser's callback. `err` is the error message after it, `asserted` says
      whether the assertion on a child's result was violated on the way (a release build goes on). */
  method WalkComponent(c: Component) returns (out: Component, control: WalkControl, err: Option<ParseError>, asserted: bool)
    ensures err.Some? <==> !Good(c)
    ensures Good(c) ==> control == Continue && out == Prune(c)
    ensures !OwnCheck(c) ==> control == Stop
    ensures asserted <==> OwnCheck(c) && !Good(c)
    decreases c
  {
    out, control, err, asserted := c, Continue, None, false;
    if c.TextNode? { return; }
    var kids := c.children;
    if Begins(c.kind) {
      if |kids| == 0 || !IsEnd(kids[|kids| - 1]) || kids[|kids| - 1].name != c.name {
        return c, Stop, Some(UnclosedSection(c.name, c.position)), false;
      }
      kids := kids[..|kids| - 1];
    }
    assert kids == Visited(c);
    var done := [];
    var i := 0;
    while i < |kids|
      invariant i <= |kids| && |done| == i
      invariant err.Some? <==> !GoodAll(kids[..i])
      invariant asserted <==> !GoodAll(kids[..i])
      invariant GoodAll(kids[..i]) ==> done == PruneAll(kids[..i]) && control == Continue
    {
      assert kids[i] in c.children;
      var d, k, e, a := WalkComponent(kids[i]);
      control := k;
      asserted := asserted || a || control != Continue;
      err := if e.Some? then e else err;
      done := done + [d];
      GoodAllSnoc(kids[..i], kids[i]);
      assert kids[..i + 1] == kids[..i] + [kids[i]];
      i := i + 1;
    }
    assert kids[..|kids|] == kids;
    out := c.(children := done);
  }

  /** `walkChildren` on the root: it ends at the first component whose result is not Continue. */
  method WalkRoot(cs: seq<Component>) returns (out: seq<Component>, err: Option<ParseError>, asserted: bool)
    ensures err.Some? <==> !GoodAll(cs)
    ensures GoodAll(cs) ==> out == PruneAll(cs)
    ensures asserted <==> FirstFailureIsNested(cs)
  {
    out, err, asserted := [], None, false;
    var i := 0;
    while i < |cs|
      invariant i <= |cs|
      invariant err.Some? <==> !GoodAll(cs[..i])
      invariant GoodAll(cs[..i]) ==> out == PruneAll(cs[..i])
      invariant asserted <==> FirstFailureIsNested(cs[..i])
      invariant asserted <==> err.Some?
    {
      var c, control, e, a := WalkComponent(cs[i]);
      GoodAllSnoc(cs[..i], cs[i]);
      FirstFailureSnoc(cs[..i], cs[i]);
      assert cs[..i + 1] == cs[..i] + [cs[i]];
      out := out + [c];
      err := if e.Some? then e else err;
      asserted := asserted || a;
      i := i + 1;
      if control != Continue { break; }
    }
    if i < |cs| && !GoodAll(cs[..i]) {
      GoodAllPrefix(cs, i);
      FirstFailurePrefix(cs, i);
    } else {
      assert cs[..|cs|] == cs;
    }
  }

  /** The first top-level component with a failing section passes its own test: the failure lies deeper. */
  predicate FirstFailureIsNested(cs: seq<Component>) {
    cs != [] && if Good(cs[0]) then FirstFailureIsNested(cs[1..]) else OwnCheck(cs[0])
  }

  lemma {:induction false} FirstFailureSnoc(cs: seq<Component>, c: Component)
    ensures FirstFailureIsNested(cs + [c]) <==>
              if GoodAll(cs) then OwnCheck(c) && !Good(c) else FirstFailureIsNested(cs)
  {
    if cs == [] {
      assert cs + [c] == [c];
    } else {
      assert (cs + [c])[1..] == cs[1..] + [c];
      FirstFailureSnoc(cs[1..], c);
    }
  }

  lemma {:induction false} FirstFailurePrefix(cs: seq<Component>, i: nat)
    requires i <= |cs| && !GoodAll(cs[..i])
    ensures FirstFailureIsNested(cs) <==> FirstFailureIsNested(cs[..i])
  {
    if i > 0 && Good(cs[0]) {
      assert cs[..i][1..] == cs[1..][..i - 1];
      FirstFailurePrefix(cs[1..], i - 1);
    }
  }

  // ---------- the eager matcher ----------

  /** A one-pass matcher that checks the name at every closing tag; None once it has failed. */
  function EagerStep(stack: Option<seq<string>>, p: Piece): (r: Option<seq<string>>) {
    if stack.None? then None
    else if p.Tag? && Begins(p.kind) then Some(stack.value + [p.name])
    else if p.Tag? && p.kind.SectionEnd? then
      if stack.value != [] && stack.value[|stack.value| - 1] == p.name
      then Some(stack.value[..|stack.value| - 1]) else None
    else stack
  }

  function Eager(ps: seq<Piece>): (r: Option<seq<string>>) {
    if ps == [] then Some([]) else EagerStep(Eager(ps[..|ps| - 1]), ps[|ps| - 1])
  }

  /** The input scans and the eager matcher ends with no section open. */
  predicate Accepts(input: string) {
    Scans(input) && Eager(PiecesIn(input)) == Some([])
  }

  // ---------- what an accepted tree shows ----------

  function Size(c: Component): (n: nat)
    ensures n >= 1
    decreases c, 1
  {
    if IsSection(c) then 2 + SizeAll(c.children) else 1
  }

  function SizeAll(cs: seq<Component>): (n: nat)
    decreases cs, 0
  {
    if cs == [] then 0 else Size(cs[0]) + SizeAll(cs[1..])
  }

  /** `c` is exactly the pieces `ps`: a leaf is one piece, a section its opening tag, its children and a
      closing tag of the same name, with the text between the two tags stored. No closing tag is a node. */
  predicate Shows(input: string, c: Component, ps: seq<Piece>)
    decreases c, 1
  {
    var n := |ps| - 1;
    match c
    case TextNode(text, position) =>
      n == 0 && ps[0].Text? && position == ps[0].start && text == Slice(input, ps[0].start, ps[0].end)
    case TagNode(kind, name, sectionText, delims, children, position) =>
      if Begins(kind) then
        && n >= 1 && ps[0].Tag? && ps[n].Tag?
        && ps[0].kind == kind && ps[0].name == name == ps[n].name && ps[n].kind.SectionEnd?
        && position == ps[0].start
        && sectionText == Some(Slice(input, ps[0].end, ps[n].start))
        && ShowsAll(input, children, ps[1..n])
      else
        && n == 0 && ps[0].Tag? && !kind.SectionEnd? && children == [] && sectionText.None?
        && ps[0].kind == kind && ps[0].name == name && ps[0].delims == delims && position == ps[0].start
  }

  predicate ShowsAll(input: string, cs: seq<Component>, ps: seq<Piece>)
    decreases cs, 0
  {
    if cs == [] then ps == []
    else
      var n := Size(cs[0]);
      n <= |ps| && Shows(input, cs[0], ps[..n]) && ShowsAll(input, cs[1..], ps[n..])
  }

  lemma {:induction false} ShowsSize(input: string, c: Component, ps: seq<Piece>)
    requires Shows(input, c, ps)
    ensures |ps| == Size(c)
    decreases c, 1
  {
    if IsSection(c) {
      ShowsAllSize(input, c.children, ps[1..|ps| - 1]);
    }
  }

  lemma {:induction false} ShowsAllSize(input: string, cs: seq<Component>, ps: seq<Piece>)
    requires ShowsAll(input, cs, ps)
    ensures |ps| == SizeAll(cs)
    decreases cs, 0
  {
    if cs != [] {
      ShowsAllSize(input, cs[1..], ps[Size(cs[0])..]);
    }
  }

  lemma {:induction false} ShowsAllCons(input: string, c: Component, cs: seq<Component>, ps: seq<Piece>, qs: seq<Piece>)
    requires Shows(input, c, ps) && ShowsAll(input, cs, qs)
    ensures ShowsAll(input, [c] + cs, ps + qs)
  {
    ShowsSize(input, c, ps);
    assert ([c] + cs)[1..] == cs;
    assert (ps + qs)[..|ps|] == ps && (ps + qs)[|ps|..] == qs;
  }

  lemma {:induction false} ShowsAllSnoc(input: string, cs: seq<Component>, ps: seq<Piece>, c: Component, qs: seq<Piece>)
    requires ShowsAll(input, cs, ps) && Shows(input, c, qs)
    ensures ShowsAll(input, cs + [c], ps + qs)
    decreases |cs|
  {
    if cs == [] {
      ShowsAllCons(input, c, [], qs, []);
      assert cs + [c] == [c] + [] && ps + qs == qs + [];
    } else {
      var n := Size(cs[0]);
      var first, rest := ps[..n], ps[n..];
      assert cs + [c] == [cs[0]] + (cs[1..] + [c]);
      assert ps + qs == first + (rest + qs);
      ShowsAllSnoc(input, cs[1..], rest, c, qs);
      ShowsAllCons(input, cs[0], cs[1..] + [c], first, rest + qs);
    }
  }

  // ---------- the invariant of the tree under construction ----------

  predicate NoEnds(cs: seq<Component>) { forall i :: 0 <= i < |cs| ==> !IsEnd(cs[i]) }

  predicate EndsOnlyInside(t: Tree) {
    NoEnds(t.root) && forall i :: 0 <= i < |t.open| ==> NoEnds(t.open[i].children) && Begins(t.open[i].kind)
  }

  predicate OpenGood(t: Tree) { forall i :: 0 <= i < |t.open| ==> GoodAll(t.open[i].children) }

  predicate GoodTree(t: Tree) { GoodAll(t.root) && OpenGood(t) }

  function Names(open: seq<Frame>): (r: seq<string>) {
    seq(|open|, i requires 0 <= i < |open| => open[i].name)
  }

  predicate Opens(f: Frame, p: Piece) {
    p.Tag? && Begins(p.kind) && p.kind == f.kind && p.name == f.name && p.start == f.position && p.end == f.start
  }

  /** The pieces read so far are the root's children, then for each open section its tag and its children. */
  ghost predicate Holds(input: string, root: seq<Component>, open: seq<Frame>, ps: seq<Piece>)
    decreases |open|
  {
    if open == [] then ShowsAll(input, PruneAll(root), ps)
    else exists k :: 0 <= k < |ps| && HoldsFrom(input, root, open, ps, k)
  }

  /** The innermost open section starts with piece `k`. */
  ghost predicate HoldsFrom(input: string, root: seq<Component>, open: seq<Frame>, ps: seq<Piece>, k: nat)
    requires open != [] && k < |ps|
    decreases |open|, 0
  {
    var f := open[|open| - 1];
    && Opens(f, ps[k])
    && ShowsAll(input, PruneAll(f.children), ps[k + 1..])
    && Holds(input, root, open[..|open| - 1], ps[..k])
  }

  lemma {:induction false} HoldsAddRoot(input: string, root: seq<Component>, ps: seq<Piece>, c: Component, qs: seq<Piece>)
    requires Holds(input, root, [], ps) && Shows(input, Prune(c), qs)
    ensures Holds(input, root + [c], [], ps + qs)
  {
    GoodAllSnoc(root, c);
    ShowsAllSnoc(input, PruneAll(root), ps, Prune(c), qs);
  }

  lemma {:induction false} HoldsFromAppend(input: string, root: seq<Component>, open1: seq<Frame>, open2: seq<Frame>, ps: seq<Piece>, qs: seq<Piece>, k: nat)
    requires open1 != [] && open2 != [] && k < |ps| && HoldsFrom(input, root, open1, ps, k)
    requires open1[..|open1| - 1] == open2[..|open2| - 1]
    requires var f, g := open1[|open1| - 1], open2[|open2| - 1];
             Opens(g, ps[k]) && ShowsAll(input, PruneAll(g.children), ps[k + 1..] + qs)
    ensures Holds(input, root, open2, ps + qs)
  {
    assert (ps + qs)[k + 1..] == ps[k + 1..] + qs;
    assert (ps + qs)[..k] == ps[..k];
    assert HoldsFrom(input, root, open2, ps + qs, k);
  }

  lemma {:induction false} HoldsAddTop(input: string, root: seq<Component>, open: seq<Frame>, f: Frame, ps: seq<Piece>, c: Component, qs: seq<Piece>)
    requires Holds(input, root, open + [f], ps) && Shows(input, Prune(c), qs)
    ensures Holds(input, root, open + [f.(children := f.children + [c])], ps + qs)
  {
    var open1, open2 := open + [f], open + [f.(children := f.children + [c])];
    var k :| 0 <= k < |ps| && HoldsFrom(input, root, open1, ps, k);
    GoodAllSnoc(f.children, c);
    ShowsAllSnoc(input, PruneAll(f.children), ps[k + 1..], Prune(c), qs);
    assert open1[..|open|] == open2[..|open|];
    HoldsFromAppend(input, root, open1, open2, ps, qs, k);
  }

  lemma {:induction false} HoldsAddChild(input: string, t: Tree, ps: seq<Piece>, c: Component, qs: seq<Piece>)
    requires Holds(input, t.root, t.open, ps) && Shows(input, Prune(c), qs)
    ensures Holds(input, AddChild(t, c).root, AddChild(t, c).open, ps + qs)
  {
    if t.open == [] {
      HoldsAddRoot(input, t.root, ps, c, qs);
    } else {
      var i := |t.open| - 1;
      assert t.open == t.open[..i] + [t.open[i]];
      HoldsAddTop(input, t.root, t.open[..i], t.open[i], ps, c, qs);
    }
  }

  lemma {:induction false} HoldsOpen(input: string, root: seq<Component>, open: seq<Frame>, ps: seq<Piece>, f: Frame, p: Piece)
    requires Holds(input, root, open, ps) && Opens(f, p) && f.children == []
    ensures Holds(input, root, open + [f], ps + [p])
  {
    var qs := ps + [p];
    assert (open + [f])[..|open|] == open;
    assert qs[|ps| + 1..] == [] && qs[..|ps|] == ps;
    assert HoldsFrom(input, root, open + [f], qs, |ps|);
  }

  lemma {:induction false} ClosedShows(input: string, f: Frame, p: Piece, ps: seq<Piece>)
    requires ps != [] && Opens(f, ps[0]) && ShowsAll(input, PruneAll(f.children), ps[1..])
    requires p.Tag? && p.kind.SectionEnd? && f.name == p.name
    ensures Shows(input, Prune(Closed(input, f, p)), ps + [p])
  {
    var c := Closed(input, f, p);
    assert Visited(c) == f.children;
    assert (ps + [p])[1..|ps|] == ps[1..];
  }

  lemma {:induction false} HoldsCloseAt(input: string, t0: Tree, f: Frame, before: seq<Piece>, inside: seq<Piece>, p: Piece)
    requires p.Tag? && p.kind.SectionEnd? && f.name == p.name
    requires inside != [] && Opens(f, inside[0]) && ShowsAll(input, PruneAll(f.children), inside[1..])
    requires Holds(input, t0.root, t0.open, before)
    ensures var t' := AddChild(t0, Closed(input, f, p)); Holds(input, t'.root, t'.open, before + (inside + [p]))
  {
    ClosedShows(input, f, p, inside);
    HoldsAddChild(input, t0, before, Closed(input, f, p), inside + [p]);
  }

  lemma {:induction false} HoldsClose(input: string, t: Tree, ps: seq<Piece>, p: Piece)
    requires t.open != [] && Holds(input, t.root, t.open, ps) && p.Tag? && p.kind.SectionEnd?
    requires t.open[|t.open| - 1].name == p.name
    ensures var i := |t.open| - 1;
            var t' := AddChild(t.(open := t.open[..i]), Closed(input, t.open[i], p));
            Holds(input, t'.root, t'.open, ps + [p])
  {
    var i := |t.open| - 1;
    var k :| 0 <= k < |ps| && HoldsFrom(input, t.root, t.open, ps, k);
    assert ps[k..][1..] == ps[k + 1..] && ps[k..][0] == ps[k];
    HoldsCloseAt(input, t.(open := t.open[..i]), t.open[i], ps[..k], ps[k..], p);
    assert ps[..k] + (ps[k..] + [p]) == ps + [p];
  }

  lemma {:induction false} GoodTreeSplit(t: Tree, t0: Tree, f: Frame)
    requires t.open == t0.open + [f] && t.root == t0.root
    ensures OpenGood(t) <==> OpenGood(t0) && GoodAll(f.children)
    ensures Names(t.open) == Names(t0.open) + [f.name]
    ensures EndsOnlyInside(t) ==> EndsOnlyInside(t0) && NoEnds(f.children) && Begins(f.kind)
  {
    var n := |t0.open|;
    assert t.open[n] == f && forall j :: 0 <= j < n ==> t.open[j] == t0.open[j];
    if OpenGood(t) {
      forall j | 0 <= j < n ensures GoodAll(t0.open[j].children) {
        assert GoodAll(t.open[j].children);
      }
    }
  }

  lemma {:induction false} EndsSplit(t: Tree, t0: Tree, f: Frame)
    requires t.open == t0.open + [f] && t.root == t0.root && EndsOnlyInside(t0) && NoEnds(f.children) && Begins(f.kind)
    ensures EndsOnlyInside(t)
  {
  }

  lemma {:induction false} GoodAddChild(t: Tree, c: Component)
    requires EndsOnlyInside(t) && !IsEnd(c)
    ensures EndsOnlyInside(AddChild(t, c)) && (GoodTree(AddChild(t, c)) <==> GoodTree(t) && Good(c))
    ensures t.open != [] ==> (OpenGood(AddChild(t, c)) <==> OpenGood(t) && Good(c))
    ensures Names(AddChild(t, c).open) == Names(t.open)
  {
    if t.open == [] {
      GoodAllSnoc(t.root, c);
    } else {
      var i := |t.open| - 1;
      var t0, f := t.(open := t.open[..i]), t.open[i];
      var f' := f.(children := f.children + [c]);
      GoodAllSnoc(f.children, c);
      assert t.open == t0.open + [f];
      GoodTreeSplit(t, t0, f);
      GoodTreeSplit(AddChild(t, c), t0, f');
      EndsSplit(AddChild(t, c), t0, f');
    }
  }

  /** What holds between the tree built from some pieces and the eager matcher after the same pieces. */
  ghost predicate Agrees(input: string, t: Tree, ps: seq<Piece>) {
    && EndsOnlyInside(t)
    && (Eager(ps).Some? <==> GoodTree(t))
    && (Eager(ps).Some? ==> Eager(ps).value == Names(t.open) && Holds(input, t.root, t.open, ps))
  }

  lemma {:induction false} EagerSnoc(ps: seq<Piece>, p: Piece)
    ensures Eager(ps + [p]) == EagerStep(Eager(ps), p)
  {
    assert (ps + [p])[..|ps|] == ps;
  }

  lemma {:induction false} AgreesStep(input: string, t: Tree, ps: seq<Piece>, p: Piece)
    requires Agrees(input, t, ps)
    ensures AddPiece(input, t, p).None? ==> Eager(ps + [p]).None?
    ensures AddPiece(input, t, p).Some? ==> Agrees(input, AddPiece(input, t, p).value, ps + [p])
  {
    if p.Tag? && Begins(p.kind) {
      AgreesOpen(input, t, ps, p);
    } else if p.Tag? && p.kind.SectionEnd? {
      EagerSnoc(ps, p);
      if t.open != [] { AgreesClose(input, t, ps, p); }
    } else {
      AgreesLeaf(input, t, ps, p);
    }
  }

  lemma {:induction false} AgreesOpen(input: string, t: Tree, ps: seq<Piece>, p: Piece)
    requires Agrees(input, t, ps) && p.Tag? && Begins(p.kind)
    ensures Agrees(input, AddPiece(input, t, p).value, ps + [p])
  {
    EagerSnoc(ps, p);
    var f := Frame(p.kind, p.name, p.start, p.end, []);
    var t' := t.(open := t.open + [f]);
    GoodTreeSplit(t', t, f);
    EndsSplit(t', t, f);
    if Eager(ps).Some? { HoldsOpen(input, t.root, t.open, ps, f, p); }
  }

  lemma {:induction false} AgreesLeaf(input: string, t: Tree, ps: seq<Piece>, p: Piece)
    requires Agrees(input, t, ps) && (p.Tag? ==> !Begins(p.kind) && !p.kind.SectionEnd?)
    ensures Agrees(input, AddPiece(input, t, p).value, ps + [p])
  {
    EagerSnoc(ps, p);
    var c := Leaf(input, p);
    GoodAddChild(t, c);
    LeafShows(input, p);
    if Eager(ps).Some? { HoldsAddChild(input, t, ps, c, [p]); }
  }

  lemma {:induction false} LeafShows(input: string, p: Piece)
    requires p.Tag? ==> !Begins(p.kind) && !p.kind.SectionEnd?
    ensures Good(Leaf(input, p)) && Shows(input, Prune(Leaf(input, p)), [p])
  {
  }

  /** A closed section passes its own test if the names agree, and is good if its children are as well. */
  lemma {:induction false} ClosedGood(input: string, f: Frame, p: Piece)
    requires Begins(f.kind) && p.Tag? && p.kind.SectionEnd?
    ensures OwnCheck(Closed(input, f, p)) <==> f.name == p.name
    ensures Good(Closed(input, f, p)) <==> f.name == p.name && GoodAll(f.children)
  {
    assert Visited(Closed(input, f, p)) == f.children;
  }

  lemma {:induction false} AgreesClose(input: string, t: Tree, ps: seq<Piece>, p: Piece)
    requires Agrees(input, t, ps) && t.open != [] && p.Tag? && p.kind.SectionEnd?
    ensures Agrees(input, AddPiece(input, t, p).value, ps + [p])
  {
    EagerSnoc(ps, p);
    var i := |t.open| - 1;
    var t0, f := t.(open := t.open[..i]), t.open[i];
    assert t.open == t0.open + [f];
    GoodTreeSplit(t, t0, f);
    ClosedGood(input, f, p);
    GoodAddChild(t0, Closed(input, f, p));
    if Eager(ps + [p]).Some? { HoldsClose(input, t, ps, p); }
  }

  lemma {:induction false} BuildInvariant(input: string, ps: seq<Piece>)
    ensures Build(input, ps).None? ==> Eager(ps).None?
    ensures Build(input, ps).Some? ==> Agrees(input, Build(input, ps).value, ps)
  {
    if ps != [] {
      var init := ps[..|ps| - 1];
      BuildInvariant(input, init);
      if Build(input, init).Some? {
        AgreesStep(input, Build(input, init).value, init, ps[|ps| - 1]);
        assert init + [ps[|ps| - 1]] == ps;
      }
    }
  }

  /** A failing component stays in the finished tree. */
  lemma {:induction false} FinishKeepsFailure(t: Tree)
    requires EndsOnlyInside(t) && !GoodTree(t)
    ensures !GoodAll(Finish(t))
    decreases |t.open|
  {
    if t.open != [] {
      var i := |t.open| - 1;
      var t0 := t.(open := t.open[..i]);
      var c := FrameNode(t.open[i], None, []);
      UnfinishedFails(t.open[i]);
      GoodAddChild(t0, c);
      FinishKeepsFailure(AddChild(t0, c));
    }
  }

  lemma {:induction false} UnfinishedFails(f: Frame)
    requires NoEnds(f.children) && Begins(f.kind)
    ensures !Good(FrameNode(f, None, []))
  {
    assert f.children + [] == f.children;
  }

  /** The deferred walk accepts the finished tree exactly when the eager matcher accepts the pieces. */
  lemma {:induction false} FinishDecides(input: string, ps: seq<Piece>, t: Tree)
    requires Agrees(input, t, ps)
    ensures GoodAll(Finish(t)) <==> Eager(ps) == Some([])
    ensures GoodAll(Finish(t)) ==> ShowsAll(input, PruneAll(Finish(t)), ps)
  {
    if t.open != [] {
      var i := |t.open| - 1;
      var t0 := t.(open := t.open[..i]);
      var c := FrameNode(t.open[i], None, []);
      UnfinishedFails(t.open[i]);
      GoodAddChild(t0, c);
      FinishKeepsFailure(AddChild(t0, c));
      assert |Names(t.open)| == |t.open|;
    }
  }

  lemma {:induction false} FirstFailureFails(cs: seq<Component>)
    ensures FirstFailureIsNested(cs) ==> !GoodAll(cs)
  {
    if cs != [] { FirstFailureFails(cs[1..]); }
  }
}
