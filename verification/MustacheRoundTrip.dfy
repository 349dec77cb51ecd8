/** Printing and parsing together: which printed templates are accepted, and that their trees print back. */
module MustacheRoundTrip {
  import opened Wrappers
  import opened MustacheText
  import opened MustacheScan
  import opened MustachePrint
  import opened MustacheTree
  import opened MustacheNesting
  import opened MustacheParse

  // ---------- the tokens of a tree ----------

  function Tokens(c: Component): (ts: seq<Token>)
    decreases c, 1
  {
    if c.TextNode? then [Plain(c.text)]
    else if Begins(c.kind) then [TagToken(c.kind, c.name)] + TokensAll(c.children) + [TagToken(SectionEnd, c.name)]
    else if c.kind.SetDelimiter? && c.delims.Some? then [SetToken(c.delims.value)]
    else [TagToken(c.kind, c.name)]
  }

  function TokensAll(cs: seq<Component>): (ts: seq<Token>)
    decreases cs, 0
  {
    if cs == [] then [] else Tokens(cs[0]) + TokensAll(cs[1..])
  }

  function TokenOf(input: string, p: Piece): (t: Token) {
    match p
    case Text(s, e) => Plain(Slice(input, s, e))
    case Tag(_, _, k, n, dl) => if k.SetDelimiter? && dl.Some? then SetToken(dl.value) else TagToken(k, n)
  }

  function TokensIn(input: string, ps: seq<Piece>): (ts: seq<Token>) {
    seq(|ps|, i requires 0 <= i < |ps| => TokenOf(input, ps[i]))
  }

  lemma {:induction false} TokensInConcat(input: string, ps: seq<Piece>, qs: seq<Piece>)
    ensures TokensIn(input, ps + qs) == TokensIn(input, ps) + TokensIn(input, qs)
  {
  }

  lemma {:induction false} TokensInOne(input: string, p: Piece)
    ensures TokensIn(input, [p]) == [TokenOf(input, p)]
  {
  }

  lemma {:induction false} ShownTokens(input: string, c: Component, ps: seq<Piece>)
    requires Shows(input, c, ps)
    ensures Tokens(c) == TokensIn(input, ps)
    decreases c, 1
  {
    if IsSection(c) {
      var n := |ps| - 1;
      var first, inner, last := [ps[0]], ps[1..n], [ps[n]];
      ShownAllTokens(input, c.children, inner);
      assert ps == first + inner + last;
      TokensInConcat(input, first + inner, last);
      TokensInConcat(input, first, inner);
      TokensInOne(input, ps[0]);
      TokensInOne(input, ps[n]);
    }
  }

  /** A tree that shows some pieces has exactly their tokens. */
  lemma {:induction false} ShownAllTokens(input: string, cs: seq<Component>, ps: seq<Piece>)
    requires ShowsAll(input, cs, ps)
    ensures TokensAll(cs) == TokensIn(input, ps)
    decreases cs, 0
  {
    if cs != [] {
      var n := Size(cs[0]);
      ShownTokens(input, cs[0], ps[..n]);
      ShownAllTokens(input, cs[1..], ps[n..]);
      assert ps == ps[..n] + ps[n..];
      TokensInConcat(input, ps[..n], ps[n..]);
    }
  }

  /** The token a tree keeps of a printed one: an unescaped variable, however it was written. */
  function Normal(t: Token): (n: Token) { if t.TripleToken? then TagToken(UnescapedVariable, t.name) else t }

  function NormalAll(ts: seq<Token>): (ns: seq<Token>)
    ensures |ns| == |ts| && forall i :: 0 <= i < |ts| ==> ns[i] == Normal(ts[i])
  {
    seq(|ts|, i requires 0 <= i < |ts| => Normal(ts[i]))
  }

  lemma {:induction false} PrintedToken(input: string, pre: string, t: Token, d: Delims)
    requires pre + PrintOne(t, d) <= input && (t.TagToken? ==> !t.kind.SetDelimiter?)
    ensures TokenOf(input, PieceOf(t, d, |pre|)) == Normal(t)
  {
    if t.Plain? {
      var e := |pre| + |t.text|;
      assert input[|pre|..e] == (pre + t.text)[|pre|..e] == t.text;
    }
  }

  lemma {:induction false} TokensInCons(input: string, ts: seq<Token>, p: Piece, ps: seq<Piece>)
    requires ts != [] && TokenOf(input, p) == Normal(ts[0]) && TokensIn(input, ps) == NormalAll(ts[1..])
    ensures TokensIn(input, [p] + ps) == NormalAll(ts)
  {
    TokensInConcat(input, [p], ps);
    TokensInOne(input, p);
    assert [Normal(ts[0])] + NormalAll(ts[1..]) == NormalAll(ts);
  }

  lemma {:induction false} PiecesApart(ts: seq<Token>, d: Delims, pos: nat, ps: seq<Piece>) returns (rest: seq<Piece>)
    requires ts != [] && ps == PiecesOf(ts, d, pos)
    ensures rest == PiecesOf(ts[1..], After(ts[0], d), pos + |PrintOne(ts[0], d)|) && ps == [PieceOf(ts[0], d, pos)] + rest
  {
    PiecesOfHead(ts, d, pos);
    rest := PiecesOf(ts[1..], After(ts[0], d), pos + |PrintOne(ts[0], d)|);
  }

  /** The pieces at which tokens are printed hold those tokens, up to the notation of unescaped variables. */
  lemma {:induction false} PrintedTokens(pre: string, ts: seq<Token>, d: Delims, input: string, ps: seq<Piece>)
    requires PrintableAll(ts, d) && input == pre + Print(ts, d) && ps == PiecesOf(ts, d, |pre|)
    ensures TokensIn(input, ps) == NormalAll(ts)
    decreases |ts|
  {
    if ts != [] {
      var rest := PiecesApart(ts, d, |pre|, ps);
      PrintHead(pre, ts, d);
      PrintedTokens(pre + PrintOne(ts[0], d), ts[1..], After(ts[0], d), input, rest);
      PrintedToken(input, pre, ts[0], d);
      TokensInCons(input, ts, PieceOf(ts[0], d, |pre|), rest);
    }
  }

  // ---------- nesting of tokens ----------

  /** The names of the sections left open, checking each closing tag against the innermost one. */
  function Nesting(ts: seq<Token>): (r: Option<seq<string>>) {
    if ts == [] then Some([])
    else
      var before, t := Nesting(ts[..|ts| - 1]), ts[|ts| - 1];
      if before.None? || !t.TagToken? then before
      else if Begins(t.kind) then Some(before.value + [t.name])
      else if t.kind.SectionEnd? then
        if before.value != [] && before.value[|before.value| - 1] == t.name
        then Some(before.value[..|before.value| - 1]) else None
      else before
  }

  lemma {:induction false} NestingOfNormal(ts: seq<Token>)
    ensures Nesting(NormalAll(ts)) == Nesting(ts)
  {
    if ts != [] {
      var n := |ts| - 1;
      NestingOfNormal(ts[..n]);
      assert NormalAll(ts)[..n] == NormalAll(ts[..n]);
    }
  }

  lemma {:induction false} NormalIsSame(ts: seq<Token>)
    ensures (forall i :: 0 <= i < |ts| ==> !ts[i].TripleToken?) ==> NormalAll(ts) == ts
  {
  }

  predicate WellNested(ts: seq<Token>) { Nesting(ts) == Some([]) }

  lemma {:induction false} EagerOfTokens(input: string, ps: seq<Piece>)
    ensures Eager(ps) == Nesting(TokensIn(input, ps))
  {
    if ps != [] {
      var n := |ps| - 1;
      EagerOfTokens(input, ps[..n]);
      assert TokensIn(input, ps)[..n] == TokensIn(input, ps[..n]);
      assert TokensIn(input, ps)[n] == TokenOf(input, ps[n]);
    }
  }

  /** A printed template, changes of delimiters included, is accepted exactly if its tokens are well nested, and
      the tree it is parsed into has the same tokens, and so prints back to the same text; a tag between triple
      braces becomes an unescaped variable of that name. */
  method ParsePrinted(ts: seq<Token>) returns (valid: bool, children: seq<Component>)
    requires PrintableAll(ts, DEFAULT_DELIMS)
    ensures valid <==> WellNested(ts)
    ensures valid ==> TokensAll(children) == NormalAll(ts)
    ensures valid && (forall i :: 0 <= i < |ts| ==> !ts[i].TripleToken?) ==>
              TokensAll(children) == ts && Print(TokensAll(children), DEFAULT_DELIMS) == Print(ts, DEFAULT_DELIMS)
  {
    var input := Print(ts, DEFAULT_DELIMS);
    PrintedScan(ts, input);
    var r, asserted := Parse(input);
    EagerOfTokens(input, PiecesIn(input));
    NestingOfNormal(ts);
    NormalIsSame(ts);
    valid, children := r.Valid?, [];
    if valid {
      children := r.children;
      ShownAllTokens(input, children, PiecesIn(input));
    }
  }

  lemma {:induction false} PrintedScan(ts: seq<Token>, input: string)
    requires PrintableAll(ts, DEFAULT_DELIMS) && input == Print(ts, DEFAULT_DELIMS)
    ensures Scans(input) && PiecesIn(input) == PiecesOf(ts, DEFAULT_DELIMS, 0) && TokensIn(input, PiecesIn(input)) == NormalAll(ts)
  {
    ScanPrinted(ts, DEFAULT_DELIMS);
    assert [] + Print(ts, DEFAULT_DELIMS) == Print(ts, DEFAULT_DELIMS);
    PrintedTokens([], ts, DEFAULT_DELIMS, input, PiecesOf(ts, DEFAULT_DELIMS, 0));
  }

  // ---------- a template that violates the assertion of the walk ----------

  /** "{{#a}}{{#b}}{{/c}}{{/a}}". */
  const MISMATCH := "{{#a}}" + ("{{#b}}" + ("{{/c}}" + "{{/a}}"))

  const MISMATCH_TOKENS :=
    [TagToken(SectionBegin, "a"), TagToken(SectionBegin, "b"), TagToken(SectionEnd, "c"), TagToken(SectionEnd, "a")]

  lemma {:induction false} PrintMore(t: Token, ts: seq<Token>)
    requires t.TagToken?
    ensures Print([t] + ts, DEFAULT_DELIMS) == PrintOne(t, DEFAULT_DELIMS) + Print(ts, DEFAULT_DELIMS)
    ensures Printable(t, DEFAULT_DELIMS) && PrintableAll(ts, DEFAULT_DELIMS) ==> PrintableAll([t] + ts, DEFAULT_DELIMS)
  {
    assert ([t] + ts)[1..] == ts;
  }

  lemma {:induction false} WatchMore(ps: seq<Piece>, p: Piece, w: Watch)
    requires WatchAll(ps) == Some(w)
    ensures WatchAll(ps + [p]) == WatchStep(w, p)
  {
    assert (ps + [p])[..|ps|] == ps;
  }

  lemma {:induction false} WatchFour(a: Piece, b: Piece, c: Piece, d: Piece)
    requires a.Tag? && b.Tag? && c.Tag? && d.Tag? && Begins(a.kind) && Begins(b.kind)
    requires c.kind.SectionEnd? && d.kind.SectionEnd? && b.name != c.name && a.name == d.name
    ensures FailsInside([a, b, c, d])
  {
    var one, two := Watch([a.name], false, None), Watch([a.name, b.name], false, None);
    assert [] + [a.name] == [a.name] && [a.name] + [b.name] == [a.name, b.name] && [a.name, b.name][..1] == [a.name];
    WatchMore([], a, Watch([], false, None));
    assert [] + [a] == [a] && [a] + [b] == [a, b] && [a, b] + [c] == [a, b, c] && [a, b, c] + [d] == [a, b, c, d];
    WatchMore([a], b, one);
    WatchMore([a, b], c, two);
    WatchMore([a, b, c], d, one.(hurt := true));
  }

  /** The inner section of this template is closed by another name: it is rejected, and the assertion of the
      walk is violated on the way. */
  method MismatchAsserts() returns (r: ParseResult, asserted: bool)
    ensures r.Rejected? && asserted
  {
    MismatchFails();
    r, asserted := Parse(MISMATCH);
  }

  lemma {:induction false} MismatchFails()
    ensures Scans(MISMATCH) && FailsInside(PiecesIn(MISMATCH))
  {
    MismatchPrints();
    PrintedScan(MISMATCH_TOKENS, MISMATCH);
    MismatchWatched(PiecesIn(MISMATCH));
  }

  lemma {:induction false} MismatchPrints()
    ensures Print(MISMATCH_TOKENS, DEFAULT_DELIMS) == MISMATCH && PrintableAll(MISMATCH_TOKENS, DEFAULT_DELIMS)
  {
    var a, b, c, d := MISMATCH_TOKENS[0], MISMATCH_TOKENS[1], MISMATCH_TOKENS[2], MISMATCH_TOKENS[3];
    PrintTag(SectionBegin, "a", "{{#a}}");
    PrintTag(SectionBegin, "b", "{{#b}}");
    PrintTag(SectionEnd, "c", "{{/c}}");
    PrintTag(SectionEnd, "a", "{{/a}}");
    PrintMore(d, []);
    PrintMore(c, [d]);
    PrintMore(b, [c, d]);
    PrintMore(a, [b, c, d]);
    assert [a] + [b, c, d] == MISMATCH_TOKENS && [b] + [c, d] == [b, c, d] && [c] + [d] == [c, d] && [d] + [] == [d];
    assert "{{/a}}" + [] == "{{/a}}";
  }

  lemma {:induction false} PrintTag(kind: TagKind, name: string, s: string)
    requires |Sigil(kind)| == 1 && Sigil(kind)[0] != '}' && |name| == 1 && name[0] != '}' && !IsSpace(name[0])
    requires s == ['{', '{', Sigil(kind)[0], name[0], '}', '}']
    ensures PrintOne(TagToken(kind, name), DEFAULT_DELIMS) == s && Printable(TagToken(kind, name), DEFAULT_DELIMS)
  {
    var t := TagToken(kind, name);
    assert Contents(t) == [Sigil(kind)[0], name[0]];
    NoBraceAhead(Contents(t));
    assert DEFAULT_DELIMS.begin == ['{', '{'] && DEFAULT_DELIMS.end == ['}', '}'];
    assert PrintOne(t, DEFAULT_DELIMS) == s;
  }

  lemma {:induction false} NoBraceAhead(s: string)
    requires forall k :: 0 <= k < |s| ==> s[k] != '}'
    ensures Ahead(s, DEFAULT_DELIMS.end)
  {
    var e := DEFAULT_DELIMS.end;
    forall k | 0 <= k < |s| ensures !OccursAt(s + e, e, k) {
      assert (s + e)[k..k + 2][0] == s[k] != e[0];
    }
  }

  lemma {:induction false} MismatchWatched(ps: seq<Piece>)
    requires TokensIn(MISMATCH, ps) == NormalAll(MISMATCH_TOKENS)
    ensures FailsInside(ps)
  {
    var ts := TokensIn(MISMATCH, ps);
    assert ts[0] == TokenOf(MISMATCH, ps[0]) && ts[1] == TokenOf(MISMATCH, ps[1]);
    assert ts[2] == TokenOf(MISMATCH, ps[2]) && ts[3] == TokenOf(MISMATCH, ps[3]);
    assert ps == [ps[0], ps[1], ps[2], ps[3]];
    WatchFour(ps[0], ps[1], ps[2], ps[3]);
  }
}
