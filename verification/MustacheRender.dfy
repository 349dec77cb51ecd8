/** The renderer: a callback walk over the component tree with a mutable stack of contexts, and the
    recursive meaning of a template that it computes. Lambdas and partials are not modelled. */
module MustacheRender {
  import opened Wrappers
  import opened MustacheText
  import opened MustacheScan
  import opened MustacheTree
  import opened MustacheParse

  datatype Data =
    | Obj(fields: map<string, Data>)
    | Str(text: string)
    | Lst(items: seq<Data>)
    | True
    | False

  /** `basic_data::get`. */
  function Field(d: Data, name: string): (r: Option<Data>) {
    if d.Obj? && name in d.fields then Some(d.fields[name]) else None
  }

  predicate Falsy(d: Data) { d.False? || (d.Lst? && d.items == []) }

  // ---------- lookup ----------

  function Path(d: Data, names: seq<string>): (r: Option<Data>) {
    if names == [] then Some(d)
    else
      var next := Field(d, names[0]);
      if next.None? then None else Path(next.value, names[1..])
  }

  /** The value of the first context, innermost first, in which the whole path resolves. */
  function FirstPath(ctx: seq<Data>, names: seq<string>): (r: Option<Data>) {
    if ctx == [] then None
    else
      var here := Path(ctx[0], names);
      if here.Some? then here else FirstPath(ctx[1..], names)
  }

  function NamePath(name: string): (names: seq<string>) {
    if '.' in name then Split(name, '.') else [name]
  }

  function Lookup(ctx: seq<Data>, name: string): (r: Option<Data>)
    requires ctx != []
  {
    if name == "." then Some(ctx[0]) else FirstPath(ctx, NamePath(name))
  }

  /** The innermost context that resolves the path wins. */
  lemma {:induction false} FirstPathIsInnermost(ctx: seq<Data>, names: seq<string>)
    ensures var r := FirstPath(ctx, names);
            if r.Some?
            then exists i :: 0 <= i < |ctx| && Path(ctx[i], names) == r && forall j :: 0 <= j < i ==> Path(ctx[j], names).None?
            else forall i :: 0 <= i < |ctx| ==> Path(ctx[i], names).None?
  {
    if ctx != [] && Path(ctx[0], names).None? {
      FirstPathIsInnermost(ctx[1..], names);
      if FirstPath(ctx, names).Some? {
        var i :| 0 <= i < |ctx[1..]| && Path(ctx[1..][i], names) == FirstPath(ctx, names)
                 && forall j :: 0 <= j < i ==> Path(ctx[1..][j], names).None?;
        forall j | 0 <= j < i + 1 ensures Path(ctx[j], names).None? {
          if j > 0 { assert ctx[j] == ctx[1..][j - 1]; }
        }
        assert Path(ctx[i + 1], names) == FirstPath(ctx, names);
      } else {
        forall i | 0 <= i < |ctx| ensures Path(ctx[i], names).None? {
          if i > 0 { assert ctx[i] == ctx[1..][i - 1]; }
        }
      }
    }
  }

  // ---------- the meaning of a template ----------

  type Escape = string -> string

  function Meaning(esc: Escape, cs: seq<Component>, ctx: seq<Data>): (r: string)
    requires ctx != []
    decreases cs, 0, 0
  {
    if cs == [] then [] else MeaningOf(esc, cs[0], ctx) + Meaning(esc, cs[1..], ctx)
  }

  /** A list section is the concatenation of its body over the items, each as the innermost context. */
  function Each(esc: Escape, cs: seq<Component>, items: seq<Data>, ctx: seq<Data>): (r: string)
    requires ctx != []
    decreases cs, 1, |items|
  {
    if items == [] then []
    else Each(esc, cs, items[..|items| - 1], ctx) + Meaning(esc, cs, [items[|items| - 1]] + ctx)
  }

  /** A section means its body in the contexts its value asks for; any other node means its own output
      followed by that of its children (which the parser never gives it). */
  function MeaningOf(esc: Escape, c: Component, ctx: seq<Data>): (r: string)
    requires ctx != []
    decreases c, 2, 0
  {
    match c
    case TextNode(text, _) => text
    case TagNode(kind, name, _, _, children, _) =>
      var v := Lookup(ctx, name);
      match kind
      case SectionBegin =>
        if v.None? || v.value.False? then []
        else if v.value.Lst? then Each(esc, children, v.value.items, ctx)
        else Meaning(esc, children, [v.value] + ctx)
      case SectionBeginInverted =>
        if v.None? then Meaning(esc, children, ctx)
        else if Falsy(v.value) then Meaning(esc, children, [v.value] + ctx)
        else []
      case _ => TagOutput(esc, kind, v) + Meaning(esc, children, ctx)
  }

  function TagOutput(esc: Escape, kind: TagKind, v: Option<Data>): (r: string) {
    if v.None? || !v.value.Str? then []
    else if kind.Variable? then esc(v.value.text)
    else if kind.UnescapedVariable? then v.value.text
    else []
  }

  /** Meanings concatenate: a template means what its parts mean, in order. */
  lemma {:induction false} MeaningConcat(esc: Escape, cs: seq<Component>, ds: seq<Component>, ctx: seq<Data>)
    requires ctx != []
    ensures Meaning(esc, cs + ds, ctx) == Meaning(esc, cs, ctx) + Meaning(esc, ds, ctx)
  {
    if cs == [] {
      assert cs + ds == ds;
    } else {
      assert (cs + ds)[1..] == cs[1..] + ds;
      MeaningConcat(esc, cs[1..], ds, ctx);
    }
  }

  lemma {:induction false} MeaningSnoc(esc: Escape, cs: seq<Component>, i: nat, ctx: seq<Data>)
    requires ctx != [] && i < |cs|
    ensures Meaning(esc, cs[..i + 1], ctx) == Meaning(esc, cs[..i], ctx) + MeaningOf(esc, cs[i], ctx)
  {
    assert cs[..i + 1] == cs[..i] + [cs[i]];
    MeaningConcat(esc, cs[..i], [cs[i]], ctx);
    assert [cs[i]][1..] == [];
    assert Meaning(esc, [cs[i]], ctx) == MeaningOf(esc, cs[i], ctx) + [];
  }

  // ---------- trees the parser delivers ----------

  /** There is no partial tag. */
  predicate Renderable(c: Component)
    decreases c, 1
  {
    c.TagNode? ==> !c.kind.Partial? && RenderableAll(c.children)
  }

  predicate RenderableAll(cs: seq<Component>)
    decreases cs, 0
  {
    cs == [] || (Renderable(cs[0]) && RenderableAll(cs[1..]))
  }

  lemma {:induction false} RenderableAt(cs: seq<Component>, i: nat)
    requires RenderableAll(cs) && i < |cs|
    ensures Renderable(cs[i])
  {
    if i > 0 { RenderableAt(cs[1..], i - 1); }
  }

  predicate NoPartials(ps: seq<Piece>) { forall i :: 0 <= i < |ps| && ps[i].Tag? ==> !ps[i].kind.Partial? }

  lemma {:induction false} ShownIsRenderable(input: string, c: Component, ps: seq<Piece>)
    requires Shows(input, c, ps) && NoPartials(ps)
    ensures Renderable(c)
    decreases c, 1
  {
    if IsSection(c) { ShownAllRenderable(input, c.children, ps[1..|ps| - 1]); }
  }

  lemma {:induction false} ShownAllRenderable(input: string, cs: seq<Component>, ps: seq<Piece>)
    requires ShowsAll(input, cs, ps) && NoPartials(ps)
    ensures RenderableAll(cs)
    decreases cs, 0
  {
    if cs != [] {
      var n := Size(cs[0]);
      ShownIsRenderable(input, cs[0], ps[..n]);
      ShownAllRenderable(input, cs[1..], ps[n..]);
    }
  }

  // ---------- the renderer ----------

  /** `context_internal` together with the stream the render handler appends to. */
  class Renderer {
    var items: seq<Data>
    var delims: Delims
    var output: string
    const escape: Escape

    constructor (data: Data, escape: Escape)
      ensures items == [data] && output == [] && this.escape == escape
    {
      items := [data];
      delims := DEFAULT_DELIMS;
      output := [];
      this.escape := escape;
    }

    method Push(d: Data)
      modifies this`items
      ensures items == [d] + old(items)
    {
      items := [d] + items;
    }

    method Pop()
      requires items != []
      modifies this`items
      ensures items == old(items)[1..]
    {
      items := items[1..];
    }

    /** `context::get`. */
    method Get(name: string) returns (r: Option<Data>)
      requires items != []
      ensures name == "." ==> r == Some(items[0])
      ensures '.' !in name ==> r == FirstPath(items, [name])
      ensures '.' in name && name != "." ==> r == FirstPath(items, Split(name, '.'))
      ensures r == Lookup(items, name)
    {
      if |name| == 1 && name[0] == '.' { return Some(items[0]); }
      var names := [name];
      if '.' in name { names := SplitLoop(name, '.'); }
      assert items[0..] == items;
      for i := 0 to |items|
        invariant FirstPath(items, names) == FirstPath(items[i..], names)
      {
        var v := Some(items[i]);
        var k := 0;
        assert names[0..] == names;
        while k < |names| && v.Some?
          invariant k <= |names|
          invariant Path(items[i], names) == if v.None? then None else Path(v.value, names[k..])
        {
          v := Field(v.value, names[k]);
          assert names[k..][1..] == names[k + 1..];
          k := k + 1;
        }
        if v.Some? {
          assert names[|names|..] == [];
          return v;
        }
        assert items[i..][1..] == items[i + 1..];
      }
      r := None;
    }

    method Handle(text: string)
      modifies this`output
      ensures output == old(output) + text
    {
      output := output + text;
    }

    /** `renderVariable` without lambdas. */
    method RenderVariable(v: Data, escaped: bool)
      modifies this`output
      ensures output == old(output) + if !v.Str? then [] else if escaped then escape(v.text) else v.text
    {
      if v.Str? {
        Handle(if escaped then escape(v.text) else v.text);
      } else {
        assert output == output + [];
      }
    }

    /** What the callback itself writes for a component. */
    ghost function CallbackOutput(c: Component, ctx: seq<Data>): (r: string)
      requires ctx != []
    {
      if c.TextNode? || Begins(c.kind) then MeaningOf(escape, c, ctx) else TagOutput(escape, c.kind, Lookup(ctx, c.name))
    }

    method RenderComponent(c: Component) returns (control: WalkControl)
      requires items != [] && Renderable(c)
      modifies this
      ensures items == old(items)
      ensures output == old(output) + CallbackOutput(c, items)
      ensures control == if IsSection(c) then Skip else Continue
      decreases c, 2
    {
      control := Continue;
      if c.TextNode? {
        Handle(c.text);
        return;
      }
      assert output == output + [];
      match c.kind {
        case Variable => RenderNamed(c.name, true);
        case UnescapedVariable => RenderNamed(c.name, false);
        case SectionBegin =>
          RenderSectionTag(c);
          control := Skip;
        case SectionBeginInverted =>
          RenderSectionTag(c);
          control := Skip;
        case SetDelimiter =>
          if c.delims.Some? { delims := c.delims.value; }
        case _ =>
      }
    }

    /** The two variable tags. */
    method RenderNamed(name: string, escaped: bool)
      requires items != []
      modifies this`output
      ensures var v := Lookup(items, name);
              output == old(output) + if v.None? || !v.value.Str? then [] else if escaped then escape(v.value.text) else v.value.text
    {
      var v := Get(name);
      if v.Some? { RenderVariable(v.value, escaped); } else { assert output == output + []; }
    }

    /** The two section tags: whether the body is rendered at all. */
    method RenderSectionTag(c: Component)
      requires items != [] && IsSection(c) && Renderable(c)
      modifies this
      ensures items == old(items)
      ensures output == old(output) + MeaningOf(escape, c, items)
      decreases c, 1, 1
    {
      var v := Get(c.name);
      if if c.kind.SectionBegin? then v.Some? && !Falsy(v.value) else v.None? || Falsy(v.value) {
        RenderSection(c, v);
        assert MeaningOf(escape, c, items) == SectionOutput(c, v, items);
      } else {
        assert MeaningOf(escape, c, items) == [];
        assert output == output + [];
      }
    }

    /** What `RenderSection` writes: the body once per list item, once in the value's context, or once. */
    ghost function SectionOutput(c: Component, v: Option<Data>, ctx: seq<Data>): (r: string)
      requires c.TagNode? && ctx != []
    {
      if v.None? then Meaning(escape, c.children, ctx)
      else if v.value.Lst? && v.value.items != [] then Each(escape, c.children, v.value.items, ctx)
      else Meaning(escape, c.children, [v.value] + ctx)
    }

    method RenderSection(c: Component, v: Option<Data>)
      requires items != [] && IsSection(c) && Renderable(c)
      modifies this
      ensures items == old(items)
      ensures output == old(output) + SectionOutput(c, v, items)
      decreases c, 1, 0
    {
      if v.Some? && v.value.Lst? && v.value.items != [] {
        var list := v.value.items;
        var i := 0;
        while i < |list|
          invariant i <= |list|
          invariant items == old(items)
          invariant output == old(output) + Each(escape, c.children, list[..i], items)
        {
          ghost var ctx := items;
          Push(list[i]);
          WalkChildren(c.children);
          Pop();
          assert items == ctx;
          assert list[..i + 1][..i] == list[..i];
          i := i + 1;
        }
        assert list[..|list|] == list;
      } else if v.Some? {
        ghost var ctx := items;
        Push(v.value);
        WalkChildren(c.children);
        Pop();
        assert items == ctx;
      } else {
        WalkChildren(c.children);
      }
    }

    /** `walkComponent` with the render callback; its assertion holds because no callback stops. */
    method WalkComponent(c: Component) returns (control: WalkControl)
      requires items != [] && Renderable(c)
      modifies this
      ensures items == old(items)
      ensures output == old(output) + MeaningOf(escape, c, items)
      ensures control == Continue
      decreases c, 3
    {
      control := RenderComponent(c);
      if control == Stop {
        return;
      } else if control == Skip {
        return Continue;
      }
      if c.TagNode? { control := WalkEach(c); }
    }

    /** The loop of `walkComponent`, with its assertion. */
    method WalkEach(c: Component) returns (control: WalkControl)
      requires items != [] && c.TagNode? && RenderableAll(c.children)
      modifies this
      ensures items == old(items) && control == Continue
      ensures output == old(output) + Meaning(escape, c.children, items)
      decreases c, 2
    {
      control := Continue;
      for i := 0 to |c.children|
        invariant items == old(items) && control == Continue
        invariant output == old(output) + Meaning(escape, c.children[..i], items)
      {
        RenderableAt(c.children, i);
        control := WalkComponent(c.children[i]);
        MeaningSnoc(escape, c.children, i, items);
        assert control == Continue;
      }
      assert c.children[..|c.children|] == c.children;
    }

    method WalkChildren(cs: seq<Component>)
      requires items != [] && RenderableAll(cs)
      modifies this
      ensures items == old(items)
      ensures output == old(output) + Meaning(escape, cs, items)
      decreases cs, 0
    {
      for i := 0 to |cs|
        invariant items == old(items)
        invariant output == old(output) + Meaning(escape, cs[..i], items)
      {
        RenderableAt(cs, i);
        var control := WalkComponent(cs[i]);
        MeaningSnoc(escape, cs, i, items);
        if control != Continue { break; }
      }
      assert cs[..|cs|] == cs;
    }
  }

  method RenderTree(children: seq<Component>, data: Data) returns (out: string)
    requires RenderableAll(children)
    ensures out == Meaning(HtmlEscape, children, [data])
  {
    var renderer := new Renderer(data, HtmlEscape);
    renderer.WalkChildren(children);
    out := renderer.output;
  }

  method RenderShown(input: string, children: seq<Component>, data: Data, ghost ps: seq<Piece>) returns (out: string)
    requires ShowsAll(input, children, ps)
    ensures NoPartials(ps) ==> out == Meaning(HtmlEscape, children, [data])
  {
    out := [];
    if NoPartials(ps) { ShownAllRenderable(input, children, ps); }
    if RenderableAll(children) { out := RenderTree(children, data); }
  }

  /** Parsing and rendering together, with the default escape: every accepted template without partials
      renders, for every data tree, to its meaning with the data as the only context. */
  method ParseAndRender(input: string, data: Data) returns (valid: bool, out: string, ghost tree: seq<Component>)
    ensures valid <==> Accepts(input)
    ensures valid ==> ShowsAll(input, tree, PiecesIn(input))
    ensures valid && NoPartials(PiecesIn(input)) ==> out == Meaning(HtmlEscape, tree, [data])
  {
    out, tree := [], [];
    var r, asserted := Parse(input);
    valid := r.Valid?;
    if valid {
      tree := r.children;
      out := RenderShown(input, r.children, data, PiecesIn(input));
    }
  }

  /** A template without an opening delimiter is valid and renders to itself, whatever the data. */
  lemma {:induction false} PlainTextRendersItself(input: string, esc: Escape, tree: seq<Component>, ctx: seq<Data>)
    requires ctx != [] && Find(input, DEFAULT_DELIMS.begin, 0).None?
    ensures Accepts(input)
    ensures ShowsAll(input, tree, PiecesIn(input)) ==> Meaning(esc, tree, ctx) == input
  {
    var ps := PiecesIn(input);
    if input != [] {
      assert ps == [Text(0, |input|)];
      assert ps[..0] == [];
      assert Eager(ps[..0]) == Some([]);
      if ShowsAll(input, tree, ps) {
        var n := Size(tree[0]);
        assert Shows(input, tree[0], ps[..n]) && ShowsAll(input, tree[1..], ps[n..]);
        assert ps[..1] == ps && ps[1..] == [];
        assert tree[1..] == [];
        assert Meaning(esc, tree, ctx) == tree[0].text + [];
        assert input[0..|input|] == input;
      }
    }
  }
}
