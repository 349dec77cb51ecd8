/** Laws of rendering that say for each kind of tag what it writes, on trees and on printed templates. */
module MustacheLaws {
  import opened Wrappers
  import opened MustacheText
  import opened MustacheScan
  import opened MustachePrint
  import opened MustacheTree
  import opened MustacheParse
  import opened MustacheRender
  import opened MustacheRoundTrip

  // ---------- names ----------

  /** `ds` leads from `d` to `v`, one field name at a time. */
  predicate Leads(ds: seq<Data>, d: Data, names: seq<string>, v: Data) {
    && |ds| == |names| + 1 && ds[0] == d && ds[|names|] == v
    && forall i :: 0 <= i < |names| ==> ds[i].Obj? && names[i] in ds[i].fields && ds[i].fields[names[i]] == ds[i + 1]
  }

  ghost predicate Reaches(d: Data, names: seq<string>, v: Data) { exists ds :: Leads(ds, d, names, v) }

  lemma {:induction false} PathReaches(d: Data, names: seq<string>, v: Data)
    ensures Path(d, names) == Some(v) <==> Reaches(d, names, v)
  {
    if Path(d, names) == Some(v) { PathLeads(d, names, v); }
    if Reaches(d, names, v) {
      var ds :| Leads(ds, d, names, v);
      LeadsPath(ds, d, names, v);
    }
  }

  lemma {:induction false} PathLeads(d: Data, names: seq<string>, v: Data)
    requires Path(d, names) == Some(v)
    ensures Reaches(d, names, v)
  {
    if names == [] {
      assert Leads([d], d, names, v);
    } else {
      var e := d.fields[names[0]];
      PathLeads(e, names[1..], v);
      var ds :| Leads(ds, e, names[1..], v);
      var all := [d] + ds;
      forall i | 0 <= i < |names| ensures all[i].Obj? && names[i] in all[i].fields && all[i].fields[names[i]] == all[i + 1] {
        if i > 0 { assert names[i] == names[1..][i - 1] && all[i] == ds[i - 1] && all[i + 1] == ds[i]; }
      }
      assert Leads(all, d, names, v);
    }
  }

  lemma {:induction false} LeadsPath(ds: seq<Data>, d: Data, names: seq<string>, v: Data)
    requires Leads(ds, d, names, v)
    ensures Path(d, names) == Some(v)
  {
    if names != [] {
      forall i | 0 <= i < |names[1..]|
        ensures ds[1..][i].Obj? && names[1..][i] in ds[1..][i].fields && ds[1..][i].fields[names[1..][i]] == ds[1..][i + 1]
      {
        assert names[1..][i] == names[i + 1] && ds[1..][i] == ds[i + 1];
      }
      LeadsPath(ds[1..], ds[1], names[1..], v);
    }
  }

  /** The innermost context from which the path leads anywhere leads to `v`; None says that none does. */
  ghost predicate Innermost(ctx: seq<Data>, names: seq<string>, v: Option<Data>) {
    if v.Some?
    then exists i :: 0 <= i < |ctx| && Reaches(ctx[i], names, v.value) && forall j, u :: 0 <= j < i ==> !Reaches(ctx[j], names, u)
    else forall j, u :: 0 <= j < |ctx| ==> !Reaches(ctx[j], names, u)
  }

  /** What a name stands for: the innermost context itself for ".", else the end of its dotted path. */
  ghost predicate StandsFor(ctx: seq<Data>, name: string, v: Option<Data>)
    requires ctx != []
  {
    if name == "." then v == Some(ctx[0])
    else if '.' in name then Innermost(ctx, Split(name, '.'), v)
    else Innermost(ctx, [name], v)
  }

  lemma {:induction false} FirstPathFinds(ctx: seq<Data>, names: seq<string>)
    ensures Innermost(ctx, names, FirstPath(ctx, names))
  {
    var v := FirstPath(ctx, names);
    FirstPathIsInnermost(ctx, names);
    forall j, u | 0 <= j < |ctx| && Path(ctx[j], names).None? ensures !Reaches(ctx[j], names, u) {
      PathReaches(ctx[j], names, u);
    }
    if v.Some? {
      var i :| 0 <= i < |ctx| && Path(ctx[i], names) == v && forall j :: 0 <= j < i ==> Path(ctx[j], names).None?;
      PathReaches(ctx[i], names, v.value);
    }
  }

  lemma {:induction false} InnermostIsUnique(ctx: seq<Data>, names: seq<string>, v: Option<Data>, w: Option<Data>)
    requires Innermost(ctx, names, v) && Innermost(ctx, names, w)
    ensures v == w
  {
    if v.Some? && w.Some? {
      var i :| 0 <= i < |ctx| && Reaches(ctx[i], names, v.value) && forall j, u :: 0 <= j < i ==> !Reaches(ctx[j], names, u);
      var k :| 0 <= k < |ctx| && Reaches(ctx[k], names, w.value) && forall j, u :: 0 <= j < k ==> !Reaches(ctx[j], names, u);
      assert i == k;
      PathReaches(ctx[i], names, v.value);
      PathReaches(ctx[i], names, w.value);
    }
  }

  /** The lookup finds exactly what the name stands for. */
  lemma {:induction false} LookupFinds(ctx: seq<Data>, name: string, v: Option<Data>)
    requires ctx != []
    ensures StandsFor(ctx, name, v) <==> Lookup(ctx, name) == v
  {
    if name != "." {
      var names := NamePath(name);
      FirstPathFinds(ctx, names);
      if Innermost(ctx, names, v) { InnermostIsUnique(ctx, names, v, FirstPath(ctx, names)); }
    }
  }

  // ---------- what each component writes ----------

  function Concat(parts: seq<string>): (r: string) {
    if parts == [] then [] else Concat(parts[..|parts| - 1]) + parts[|parts| - 1]
  }

  lemma {:induction false} MeaningOne(esc: Escape, c: Component, ctx: seq<Data>)
    requires ctx != []
    ensures Meaning(esc, [c], ctx) == MeaningOf(esc, c, ctx)
  {
    assert [c][1..] == [];
  }

  /** A variable tag writes the escaped string, an unescaped one the string itself, and neither anything else. */
  lemma {:induction false} VariableLaw(esc: Escape, c: Component, ctx: seq<Data>, v: Option<Data>)
    requires ctx != [] && c.TagNode? && c.children == [] && StandsFor(ctx, c.name, v)
    ensures c.kind.Variable? ==> Meaning(esc, [c], ctx) == if v.Some? && v.value.Str? then esc(v.value.text) else []
    ensures c.kind.UnescapedVariable? ==> Meaning(esc, [c], ctx) == if v.Some? && v.value.Str? then v.value.text else []
  {
    LookupFinds(ctx, c.name, v);
    MeaningOne(esc, c, ctx);
  }

  lemma {:induction false} SilentLaw(esc: Escape, c: Component, ctx: seq<Data>)
    requires ctx != [] && c.TagNode? && c.children == [] && (c.kind.Comment? || c.kind.SetDelimiter?)
    ensures Meaning(esc, [c], ctx) == []
  {
    MeaningOne(esc, c, ctx);
  }

  /** `outs` are the outputs of the body for the items in order, each item the innermost context. */
  ghost predicate PerItem(esc: Escape, body: seq<Component>, items: seq<Data>, ctx: seq<Data>, outs: seq<string>)
    requires ctx != []
  {
    |outs| == |items| && forall i :: 0 <= i < |items| ==> outs[i] == Meaning(esc, body, [items[i]] + ctx)
  }

  /** What a section writes: its body for each item of a list, in the context of another true value, or not at all. */
  ghost predicate SectionWrites(esc: Escape, body: seq<Component>, v: Option<Data>, ctx: seq<Data>, out: string)
    requires ctx != []
  {
    if v.None? || v.value.False? then out == []
    else if v.value.Lst? then exists outs :: PerItem(esc, body, v.value.items, ctx, outs) && out == Concat(outs)
    else out == Meaning(esc, body, [v.value] + ctx)
  }

  /** What an inverted section writes: its body exactly for an absent name, false and the empty list. */
  ghost predicate InvertedWrites(esc: Escape, body: seq<Component>, v: Option<Data>, ctx: seq<Data>, out: string)
    requires ctx != []
  {
    if v.None? then out == Meaning(esc, body, ctx)
    else if v.value.False? || v.value == Lst([]) then out == Meaning(esc, body, [v.value] + ctx)
    else out == []
  }

  lemma {:induction false} EachPerItem(esc: Escape, body: seq<Component>, items: seq<Data>, ctx: seq<Data>) returns (outs: seq<string>)
    requires ctx != []
    ensures PerItem(esc, body, items, ctx, outs) && Each(esc, body, items, ctx) == Concat(outs)
  {
    outs := [];
    if items != [] {
      var n := |items| - 1;
      var init := EachPerItem(esc, body, items[..n], ctx);
      outs := init + [Meaning(esc, body, [items[n]] + ctx)];
      assert outs[..n] == init;
      assert forall i :: 0 <= i < n ==> items[..n][i] == items[i] && outs[i] == init[i];
    }
  }

  /** Sections and inverted sections. */
  lemma {:induction false} SectionLaw(esc: Escape, c: Component, ctx: seq<Data>, v: Option<Data>)
    requires ctx != [] && IsSection(c) && StandsFor(ctx, c.name, v)
    ensures c.kind.SectionBegin? ==> SectionWrites(esc, c.children, v, ctx, Meaning(esc, [c], ctx))
    ensures c.kind.SectionBeginInverted? ==> InvertedWrites(esc, c.children, v, ctx, Meaning(esc, [c], ctx))
  {
    LookupFinds(ctx, c.name, v);
    MeaningOne(esc, c, ctx);
    if v.Some? && v.value.Lst? { var outs := EachPerItem(esc, c.children, v.value.items, ctx); }
  }

  // ---------- the tokens determine the output ----------

  /** No closing tag is a node, and only sections have children. */
  predicate Whole(c: Component)
    decreases c, 1
  {
    c.TagNode? ==> if Begins(c.kind) then WholeAll(c.children) else !c.kind.SectionEnd? && c.children == []
  }

  predicate WholeAll(cs: seq<Component>)
    decreases cs, 0
  {
    cs == [] || (Whole(cs[0]) && WholeAll(cs[1..]))
  }

  lemma {:induction false} ShownIsWhole(input: string, c: Component, ps: seq<Piece>)
    requires Shows(input, c, ps)
    ensures Whole(c)
    decreases c, 1
  {
    if IsSection(c) { ShownAllWhole(input, c.children, ps[1..|ps| - 1]); }
  }

  lemma {:induction false} ShownAllWhole(input: string, cs: seq<Component>, ps: seq<Piece>)
    requires ShowsAll(input, cs, ps)
    ensures WholeAll(cs)
    decreases cs, 0
  {
    if cs != [] {
      var n := Size(cs[0]);
      ShownIsWhole(input, cs[0], ps[..n]);
      ShownAllWhole(input, cs[1..], ps[n..]);
    }
  }

  function Delta(t: Token): (d: int) {
    if t.TagToken? && Begins(t.kind) then 1 else if t.TagToken? && t.kind.SectionEnd? then -1 else 0
  }

  /** How many more sections the tokens open than they close. */
  function Depth(ts: seq<Token>): (d: int) { if ts == [] then 0 else Delta(ts[0]) + Depth(ts[1..]) }

  lemma {:induction false} DepthConcat(ts: seq<Token>, us: seq<Token>)
    ensures Depth(ts + us) == Depth(ts) + Depth(us)
  {
    if ts == [] {
      assert ts + us == us;
    } else {
      assert (ts + us)[1..] == ts[1..] + us;
      DepthConcat(ts[1..], us);
    }
  }

  lemma {:induction false} DepthOne(t: Token)
    ensures Depth([t]) == Delta(t)
  {
    assert [t][1..] == [];
  }

  lemma {:induction false} DepthOf(c: Component)
    requires Whole(c)
    ensures Depth(Tokens(c)) == 0
    decreases c, 1
  {
    if IsSection(c) {
      var open, close := [TagToken(c.kind, c.name)], [TagToken(SectionEnd, c.name)];
      DepthOfAll(c.children);
      DepthConcat(open + TokensAll(c.children), close);
      DepthConcat(open, TokensAll(c.children));
      DepthOne(open[0]);
      DepthOne(close[0]);
    } else {
      DepthOne(Tokens(c)[0]);
    }
  }

  lemma {:induction false} DepthOfAll(cs: seq<Component>)
    requires WholeAll(cs)
    ensures Depth(TokensAll(cs)) == 0
    decreases cs, 0
  {
    if cs != [] {
      DepthOf(cs[0]);
      DepthOfAll(cs[1..]);
      DepthConcat(Tokens(cs[0]), TokensAll(cs[1..]));
    }
  }

  /** Inside a section its opening tag is still open. */
  lemma {:induction false} DepthInside(c: Component, k: nat)
    requires Whole(c) && IsSection(c) && 0 < k < |Tokens(c)|
    ensures Depth(Tokens(c)[..k]) >= 1
    decreases c, 1
  {
    var open, inner := [TagToken(c.kind, c.name)], TokensAll(c.children);
    assert Tokens(c)[..k] == open + inner[..k - 1];
    DepthPrefix(c.children, k - 1);
    DepthConcat(open, inner[..k - 1]);
    DepthOne(open[0]);
  }

  lemma {:induction false} DepthPrefix(cs: seq<Component>, k: nat)
    requires WholeAll(cs) && k <= |TokensAll(cs)|
    ensures Depth(TokensAll(cs)[..k]) >= 0
    decreases cs, 0
  {
    if cs != [] && k > 0 {
      var first, rest := Tokens(cs[0]), TokensAll(cs[1..]);
      if k < |first| {
        assert TokensAll(cs)[..k] == first[..k];
        DepthInside(cs[0], k);
      } else {
        assert TokensAll(cs)[..k] == first + rest[..k - |first|];
        DepthOf(cs[0]);
        DepthPrefix(cs[1..], k - |first|);
        DepthConcat(first, rest[..k - |first|]);
      }
    }
  }

  lemma {:induction false} NotShorter(c: Component, d: Component, ts: seq<Token>)
    requires Whole(c) && Whole(d) && Tokens(c) <= ts && Tokens(d) <= ts
    ensures |Tokens(c)| >= |Tokens(d)|
  {
    assert Tokens(c)[0] == ts[0] == Tokens(d)[0];
    if |Tokens(c)| < |Tokens(d)| {
      assert Tokens(d)[..|Tokens(c)|] == ts[..|Tokens(c)|] == Tokens(c);
      DepthOf(c);
      DepthInside(d, |Tokens(c)|);
    }
  }

  lemma {:induction false} HeadsAgree(cs: seq<Component>, ds: seq<Component>)
    requires WholeAll(cs) && WholeAll(ds) && TokensAll(cs) == TokensAll(ds)
    ensures cs == [] <==> ds == []
    ensures cs != [] ==> Tokens(cs[0]) == Tokens(ds[0]) && TokensAll(cs[1..]) == TokensAll(ds[1..])
  {
    if cs != [] && ds != [] {
      var ts, n := TokensAll(cs), |Tokens(cs[0])|;
      NotShorter(cs[0], ds[0], ts);
      NotShorter(ds[0], cs[0], ts);
      assert ts[..n] == Tokens(cs[0]) && ts[n..] == TokensAll(cs[1..]);
      assert ts[..n] == Tokens(ds[0]) && ts[n..] == TokensAll(ds[1..]);
    }
  }

  lemma {:induction false} SectionsAgree(c: Component, d: Component)
    requires Whole(c) && Whole(d) && Tokens(c) == Tokens(d) && IsSection(c)
    ensures IsSection(d) && c.kind == d.kind && c.name == d.name && TokensAll(c.children) == TokensAll(d.children)
  {
    var ts := Tokens(c);
    assert ts[0] == TagToken(c.kind, c.name);
    assert TokensAll(c.children) == ts[1..|ts| - 1];
    assert IsSection(d) && TokensAll(d.children) == ts[1..|ts| - 1];
  }

  lemma {:induction false} SameEach(esc: Escape, cs: seq<Component>, ds: seq<Component>, items: seq<Data>, ctx: seq<Data>)
    requires ctx != [] && WholeAll(cs) && WholeAll(ds) && TokensAll(cs) == TokensAll(ds)
    ensures Each(esc, cs, items, ctx) == Each(esc, ds, items, ctx)
    decreases cs, 1, |items|
  {
    if items != [] {
      SameEach(esc, cs, ds, items[..|items| - 1], ctx);
      SameMeaning(esc, cs, ds, [items[|items| - 1]] + ctx);
    }
  }

  lemma {:induction false} SameMeaningOf(esc: Escape, c: Component, d: Component, ctx: seq<Data>)
    requires ctx != [] && Whole(c) && Whole(d) && Tokens(c) == Tokens(d)
    ensures MeaningOf(esc, c, ctx) == MeaningOf(esc, d, ctx)
    decreases c, 2, 0
  {
    if IsSection(c) {
      SectionsAgree(c, d);
      var v := Lookup(ctx, c.name);
      if v.None? {
        SameMeaning(esc, c.children, d.children, ctx);
      } else {
        SameMeaning(esc, c.children, d.children, [v.value] + ctx);
        if v.value.Lst? { SameEach(esc, c.children, d.children, v.value.items, ctx); }
      }
    } else {
      assert Tokens(c)[0] == Tokens(d)[0];
    }
  }

  /** Trees with the same tokens write the same. */
  lemma {:induction false} SameMeaning(esc: Escape, cs: seq<Component>, ds: seq<Component>, ctx: seq<Data>)
    requires ctx != [] && WholeAll(cs) && WholeAll(ds) && TokensAll(cs) == TokensAll(ds)
    ensures Meaning(esc, cs, ctx) == Meaning(esc, ds, ctx)
    decreases cs, 0, 0
  {
    HeadsAgree(cs, ds);
    if cs != [] {
      SameMeaningOf(esc, cs[0], ds[0], ctx);
      SameMeaning(esc, cs[1..], ds[1..], ctx);
    }
  }

  // ---------- printed templates ----------

  ghost predicate NoPartialTokens(ts: seq<Token>) { forall i :: 0 <= i < |ts| && ts[i].TagToken? ==> !ts[i].kind.Partial? }

  lemma {:induction false} PrintedNoPartials(input: string, ts: seq<Token>, ps: seq<Piece>)
    requires TokensIn(input, ps) == NormalAll(ts) && NoPartialTokens(ts)
    ensures NoPartials(ps)
  {
    forall i | 0 <= i < |ps| && ps[i].Tag? ensures !ps[i].kind.Partial? {
      assert TokensIn(input, ps)[i] == TokenOf(input, ps[i]) == Normal(ts[i]);
    }
  }

  /** `tree` is the tree of a template printed from `ts`. */
  ghost predicate TreeOf(tree: seq<Component>, ts: seq<Token>) { WholeAll(tree) && TokensAll(tree) == NormalAll(ts) }

  /** Printing, parsing and rendering together. */
  method RenderPrinted(ts: seq<Token>, data: Data) returns (valid: bool, out: string, ghost tree: seq<Component>)
    requires PrintableAll(ts, DEFAULT_DELIMS)
    ensures valid <==> WellNested(ts)
    ensures valid ==> TreeOf(tree, ts)
    ensures valid && NoPartialTokens(ts) ==> out == Meaning(HtmlEscape, tree, [data])
  {
    var input := Print(ts, DEFAULT_DELIMS);
    PrintedScan(ts, input);
    EagerOfTokens(input, PiecesIn(input));
    NestingOfNormal(ts);
    valid, out, tree := ParseAndRender(input, data);
    if valid {
      ShownAllTokens(input, tree, PiecesIn(input));
      ShownAllWhole(input, tree, PiecesIn(input));
      if NoPartialTokens(ts) { PrintedNoPartials(input, ts, PiecesIn(input)); }
    }
  }

  lemma {:induction false} LeafTree(c: Component, t: Token)
    requires Whole(c) && !IsSection(c) && Tokens(c) == [Normal(t)]
    ensures TreeOf([c], [t])
  {
    assert [c][1..] == [];
    assert TokensAll([c]) == Tokens(c) + [];
    assert NormalAll([t]) == [Normal(t)];
  }

  /** The tree of a template that consists of one tag. */
  lemma {:induction false} OneLeaf(t: Token, tree: seq<Component>, data: Data) returns (c: Component)
    requires !t.Plain? && (t.TagToken? ==> !Begins(t.kind) && !t.kind.SectionEnd? && !t.kind.SetDelimiter?) && TreeOf(tree, [t])
    ensures c.TagNode? && c.children == [] && Meaning(HtmlEscape, tree, [data]) == Meaning(HtmlEscape, [c], [data])
    ensures t.TagToken? ==> c.kind == t.kind && c.name == t.name
    ensures t.TripleToken? ==> c.kind == UnescapedVariable && c.name == t.name
    ensures t.SetToken? ==> c.kind == SetDelimiter
  {
    c := match t
      case TagToken(k, n) => TagNode(k, n, None, None, [], 0)
      case TripleToken(n) => TagNode(UnescapedVariable, n, None, None, [], 0)
      case SetToken(next) => TagNode(SetDelimiter, [], None, Some(next), [], 0);
    LeafTree(c, t);
    SameMeaning(HtmlEscape, tree, [c], [data]);
  }

  lemma {:induction false} OneIsNested(t: Token)
    requires t.TagToken? ==> !Begins(t.kind) && !t.kind.SectionEnd?
    ensures WellNested([t])
  {
    assert [t][..0] == [];
  }

  /** A template of one tag: a variable writes the escaped string it stands for; after "&" or between triple
      braces the string itself; a comment and a change of delimiters write nothing. */
  method RenderTag(t: Token, data: Data, ghost v: Option<Data>) returns (valid: bool, out: string)
    requires PrintableAll([t], DEFAULT_DELIMS) && !t.Plain?
    requires t.TagToken? ==> t.kind in {Variable, UnescapedVariable, Comment}
    requires !t.SetToken? ==> StandsFor([data], t.name, v)
    ensures valid
    ensures t.TagToken? && t.kind.Variable? ==> out == if v.Some? && v.value.Str? then HtmlEscape(v.value.text) else []
    ensures t.TripleToken? || (t.TagToken? && t.kind.UnescapedVariable?) ==>
              out == if v.Some? && v.value.Str? then v.value.text else []
    ensures t.SetToken? || (t.TagToken? && t.kind.Comment?) ==> out == []
  {
    OneIsNested(t);
    ghost var tree;
    valid, out, tree := RenderPrinted([t], data);
    ghost var c := OneLeaf(t, tree, data);
    if c.kind.Comment? || c.kind.SetDelimiter? {
      SilentLaw(HtmlEscape, c, [data]);
    } else {
      VariableLaw(HtmlEscape, c, [data], v);
    }
  }

  function Section(kind: TagKind, name: string, body: seq<Token>): (ts: seq<Token>) {
    [TagToken(kind, name)] + body + [TagToken(SectionEnd, name)]
  }

  lemma {:induction false} NestingInside(t: Token, ts: seq<Token>)
    requires t.TagToken? && Begins(t.kind) && Nesting(ts).Some?
    ensures Nesting([t] + ts) == Some([t.name] + Nesting(ts).value)
  {
    var n := |ts| - 1;
    if ts == [] {
      assert [t] + ts == [t] && [t][..0] == [] && [t.name] + [] == [] + [t.name];
    } else {
      NestingInside(t, ts[..n]);
      var before := Nesting(ts[..n]).value;
      assert ([t] + ts)[..n + 1] == [t] + ts[..n] && ([t] + ts)[n + 1] == ts[n];
      assert before != [] ==> ([t.name] + before)[..|before|] == [t.name] + before[..|before| - 1];
      assert ts[n].TagToken? ==> [t.name] + (before + [ts[n].name]) == [t.name] + before + [ts[n].name];
    }
  }

  lemma {:induction false} SectionIsNested(kind: TagKind, name: string, body: seq<Token>)
    requires Begins(kind) && WellNested(body)
    ensures WellNested(Section(kind, name, body))
  {
    var ts, n := Section(kind, name, body), |body| + 1;
    NestingInside(TagToken(kind, name), body);
    assert ts[..n] == [TagToken(kind, name)] + body && ts[n] == TagToken(SectionEnd, name);
    assert [name] + [] == [name] && [name][..0] == [];
  }

  lemma {:induction false} PrintablePrefix(ts: seq<Token>, t: Token, d: Delims)
    requires PrintableAll(ts + [t], d)
    ensures PrintableAll(ts, d)
    decreases |ts|
  {
    if ts != [] {
      assert (ts + [t])[1..] == ts[1..] + [t];
      PrintablePrefix(ts[1..], t, After(ts[0], d));
    }
  }

  lemma {:induction false} BodyIsPrintable(kind: TagKind, name: string, body: seq<Token>)
    requires PrintableAll(Section(kind, name, body), DEFAULT_DELIMS)
    ensures PrintableAll(body, DEFAULT_DELIMS)
  {
    assert Section(kind, name, body)[1..] == body + [TagToken(SectionEnd, name)];
    PrintablePrefix(body, TagToken(SectionEnd, name), DEFAULT_DELIMS);
  }

  lemma {:induction false} SectionTree(kind: TagKind, name: string, body: seq<Token>, inner: seq<Component>) returns (c: Component)
    requires Begins(kind) && TreeOf(inner, body)
    ensures IsSection(c) && c.kind == kind && c.name == name && c.children == inner && TreeOf([c], Section(kind, name, body))
  {
    c := TagNode(kind, name, None, None, inner, 0);
    assert [c][1..] == [];
    assert Whole(c) && WholeAll([c][1..]);
    var open, close := [TagToken(kind, name)], [TagToken(SectionEnd, name)];
    assert TokensAll([c]) == open + TokensAll(inner) + close;
    assert NormalAll(Section(kind, name, body)) == open + NormalAll(body) + close;
  }

  /** A section around any body that is a template of its own, with tree `inner` and output `alone`: it writes
      the body's output for each item of a list, once for another true value, or nothing; the inverted section the
      opposite. */
  method RenderSectionOf(kind: TagKind, name: string, body: seq<Token>, data: Data, ghost v: Option<Data>)
      returns (valid: bool, out: string, alone: string, ghost inner: seq<Component>)
    requires Begins(kind) && PrintableAll(Section(kind, name, body), DEFAULT_DELIMS)
    requires WellNested(body) && NoPartialTokens(body) && StandsFor([data], name, v)
    ensures valid && TreeOf(inner, body) && alone == Meaning(HtmlEscape, inner, [data])
    ensures kind.SectionBegin? ==> SectionWrites(HtmlEscape, inner, v, [data], out)
    ensures kind.SectionBeginInverted? ==> InvertedWrites(HtmlEscape, inner, v, [data], out)
  {
    BodyIsPrintable(kind, name, body);
    SectionIsNested(kind, name, body);
    var ok;
    ok, alone, inner := RenderPrinted(body, data);
    ghost var tree;
    valid, out, tree := RenderPrinted(Section(kind, name, body), data);
    ghost var c := SectionTree(kind, name, body, inner);
    SameMeaning(HtmlEscape, tree, [c], [data]);
    SectionLaw(HtmlEscape, c, [data], v);
  }

  // ---------- markup in the output ----------

  predicate Markup(ch: char) { ch in "<>\"\'" }

  /** No token asks for unescaped output. */
  predicate NoneUnescaped(ts: seq<Token>) {
    forall i :: 0 <= i < |ts| ==> !ts[i].TripleToken? && (ts[i].TagToken? ==> !ts[i].kind.UnescapedVariable?)
  }

  ghost predicate InText(ts: seq<Token>, ch: char) { exists i :: 0 <= i < |ts| && ts[i].Plain? && ch in ts[i].text }

  /** Every markup character of `out` stands in a text among `ts`. */
  ghost predicate OwnMarkup(out: string, ts: seq<Token>) { forall ch :: ch in out && Markup(ch) ==> InText(ts, ch) }

  lemma {:induction false} OwnMarkupMore(out: string, ts: seq<Token>, us: seq<Token>, vs: seq<Token>)
    requires OwnMarkup(out, us)
    ensures OwnMarkup(out, ts + us + vs)
  {
    forall ch | ch in out && Markup(ch) ensures InText(ts + us + vs, ch) {
      var i :| 0 <= i < |us| && us[i].Plain? && ch in us[i].text;
      assert (ts + us + vs)[|ts| + i] == us[i];
    }
  }

  lemma {:induction false} OwnMarkupConcat(a: string, b: string, ts: seq<Token>, us: seq<Token>)
    requires OwnMarkup(a, ts) && OwnMarkup(b, us)
    ensures OwnMarkup(a + b, ts + us)
  {
    OwnMarkupMore(a, [], ts, us);
    OwnMarkupMore(b, ts, us, []);
    assert [] + ts + us == ts + us && ts + us + [] == ts + us;
  }

  lemma {:induction false} NoneUnescapedParts(ts: seq<Token>, us: seq<Token>, vs: seq<Token>)
    requires NoneUnescaped(ts + us + vs)
    ensures NoneUnescaped(us)
  {
    forall i | 0 <= i < |us| ensures !us[i].TripleToken? && (us[i].TagToken? ==> !us[i].kind.UnescapedVariable?) {
      assert (ts + us + vs)[|ts| + i] == us[i];
    }
  }

  lemma {:induction false} EscapedHasNoMarkup(s: string, ts: seq<Token>)
    ensures OwnMarkup(HtmlEscape(s), ts)
  {
    forall k | 0 <= k < |HtmlEscape(s)| ensures !Markup(HtmlEscape(s)[k]) {
      HtmlEscapeHasNoMarkup(s, k);
    }
  }

  lemma {:induction false} EachOwnMarkup(cs: seq<Component>, items: seq<Data>, ctx: seq<Data>)
    requires ctx != [] && WholeAll(cs) && NoneUnescaped(TokensAll(cs))
    ensures OwnMarkup(Each(HtmlEscape, cs, items, ctx), TokensAll(cs))
    decreases cs, 1, |items|
  {
    if items != [] {
      EachOwnMarkup(cs, items[..|items| - 1], ctx);
      AllOwnMarkup(cs, [items[|items| - 1]] + ctx);
    }
  }

  lemma {:induction false} SectionOwnMarkup(c: Component, ctx: seq<Data>)
    requires ctx != [] && IsSection(c) && Whole(c) && NoneUnescaped(Tokens(c))
    ensures OwnMarkup(MeaningOf(HtmlEscape, c, ctx), Tokens(c))
    decreases c, 2, 0
  {
    var open, inner, close := [TagToken(c.kind, c.name)], TokensAll(c.children), [TagToken(SectionEnd, c.name)];
    NoneUnescapedParts(open, inner, close);
    var v := Lookup(ctx, c.name);
    if v.None? {
      AllOwnMarkup(c.children, ctx);
    } else {
      AllOwnMarkup(c.children, [v.value] + ctx);
      if v.value.Lst? { EachOwnMarkup(c.children, v.value.items, ctx); }
    }
    OwnMarkupMore(MeaningOf(HtmlEscape, c, ctx), open, inner, close);
  }

  lemma {:induction false} OneOwnMarkup(c: Component, ctx: seq<Data>)
    requires ctx != [] && Whole(c) && NoneUnescaped(Tokens(c))
    ensures OwnMarkup(MeaningOf(HtmlEscape, c, ctx), Tokens(c))
    decreases c, 3, 0
  {
    var t := Tokens(c)[0];
    if IsSection(c) {
      SectionOwnMarkup(c, ctx);
    } else if c.TextNode? {
      assert t == Plain(c.text);
    } else {
      var v := Lookup(ctx, c.name);
      assert !c.kind.UnescapedVariable?;
      if v.Some? && v.value.Str? { EscapedHasNoMarkup(v.value.text, Tokens(c)); }
    }
  }

  lemma {:induction false} AllOwnMarkup(cs: seq<Component>, ctx: seq<Data>)
    requires ctx != [] && WholeAll(cs) && NoneUnescaped(TokensAll(cs))
    ensures OwnMarkup(Meaning(HtmlEscape, cs, ctx), TokensAll(cs))
    decreases cs, 0, 0
  {
    if cs != [] {
      var first, rest := Tokens(cs[0]), TokensAll(cs[1..]);
      assert [] + first + rest == first + rest + [] == TokensAll(cs);
      NoneUnescapedParts([], first, rest);
      NoneUnescapedParts(first, rest, []);
      OneOwnMarkup(cs[0], ctx);
      AllOwnMarkup(cs[1..], ctx);
      OwnMarkupConcat(MeaningOf(HtmlEscape, cs[0], ctx), Meaning(HtmlEscape, cs[1..], ctx), first, rest);
    }
  }

  /** No tag of the template asks for unescaped output or for a partial. */
  predicate OnlyEscaped(ps: seq<Piece>) {
    forall i :: 0 <= i < |ps| && ps[i].Tag? ==> !ps[i].kind.UnescapedVariable? && !ps[i].kind.Partial?
  }

  /** A template without unescaped tags: whatever the data, every angle bracket and quote of the output stands in
      a text of the template itself. */
  method RenderEscaped(input: string, data: Data) returns (valid: bool, out: string)
    ensures valid <==> Accepts(input)
    ensures valid && OnlyEscaped(PiecesIn(input)) ==>
              forall ch :: ch in out && Markup(ch) ==>
                exists i :: 0 <= i < |PiecesIn(input)| && PiecesIn(input)[i].Text?
                            && ch in Slice(input, PiecesIn(input)[i].start, PiecesIn(input)[i].end)
  {
    ghost var tree;
    valid, out, tree := ParseAndRender(input, data);
    if valid && OnlyEscaped(PiecesIn(input)) { TextOwnMarkup(input, tree, data, PiecesIn(input)); }
  }

  lemma {:induction false} TextOwnMarkup(input: string, tree: seq<Component>, data: Data, ps: seq<Piece>)
    requires ShowsAll(input, tree, ps) && OnlyEscaped(ps)
    ensures forall ch :: ch in Meaning(HtmlEscape, tree, [data]) && Markup(ch) ==>
              exists i :: 0 <= i < |ps| && ps[i].Text? && ch in Slice(input, ps[i].start, ps[i].end)
  {
    ShownAllTokens(input, tree, ps);
    ShownAllWhole(input, tree, ps);
    var ts := TokensIn(input, ps);
    assert forall i :: 0 <= i < |ps| ==> ts[i] == TokenOf(input, ps[i]);
    AllOwnMarkup(tree, [data]);
    forall ch | ch in Meaning(HtmlEscape, tree, [data]) && Markup(ch)
      ensures exists i :: 0 <= i < |ps| && ps[i].Text? && ch in Slice(input, ps[i].start, ps[i].end)
    {
      assert InText(ts, ch);
      var i :| 0 <= i < |ts| && ts[i].Plain? && ch in ts[i].text;
      assert ps[i].Text?;
    }
  }
}
