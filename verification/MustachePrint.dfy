/** Printing a template from tokens, with delimiters that tokens may change, and the proof that the scanner reads
    back what was printed. */
module MustachePrint {
  import opened Wrappers
  import opened MustacheText
  import opened MustacheScan

  /** A text, a tag, a tag between triple braces, or a change of delimiters. */
  datatype Token = Plain(text: string) | TagToken(kind: TagKind, name: string) | TripleToken(name: string) | SetToken(next: Delims)

  /** The character after the opening delimiter that announces a kind of tag. */
  function Sigil(k: TagKind): (s: string) {
    match k
    case SectionBegin => "#"
    case SectionBeginInverted => "^"
    case SectionEnd => "/"
    case Partial => ">"
    case UnescapedVariable => "&"
    case Comment => "!"
    case _ => ""
  }

  /** What stands between the delimiters of a tag. */
  function Contents(t: Token): (s: string)
    requires !t.Plain?
  {
    if t.TagToken? then Sigil(t.kind) + t.name
    else if t.TripleToken? then ['{'] + t.name + ['}']
    else ['='] + (t.next.begin + " " + t.next.end) + ['=']
  }

  function PrintOne(t: Token, d: Delims): (s: string) {
    if t.Plain? then t.text else d.begin + Contents(t) + d.end
  }

  /** The delimiters in force after a token. */
  function After(t: Token, d: Delims): (r: Delims) { if t.SetToken? then t.next else d }

  function Print(ts: seq<Token>, d: Delims): (s: string) {
    if ts == [] then [] else PrintOne(ts[0], d) + Print(ts[1..], After(ts[0], d))
  }

  /** A delimiter put after `body` occurs there first. */
  ghost predicate Ahead(body: string, delim: string) {
    forall k :: 0 <= k < |body| ==> !OccursAt(body + delim, delim, k)
  }

  predicate Trimmed(s: string) { s != [] ==> !IsSpace(s[0]) && !IsSpace(s[|s| - 1]) }

  /** Text, names and delimiters that can be told from the delimiters and sigils around them. */
  ghost predicate Printable(t: Token, d: Delims) {
    match t
    case Plain(text) => text != [] && Ahead(text, d.begin)
    case SetToken(next) => ValidDelims(next) && Ahead(Contents(t), d.end)
    case TripleToken(name) =>
      d == DEFAULT_DELIMS && Trimmed(name) && Ahead(name, ['}', '}', '}']) && (name != [] ==> name[0] != '=')
    case TagToken(kind, name) =>
      && !kind.SetDelimiter? && Trimmed(name) && Ahead(Contents(t), d.end)
      && (kind.Variable? && name != [] ==> name[0] !in "#^/>&!=" && (d == DEFAULT_DELIMS ==> name[0] != '{'))
  }

  ghost predicate PrintableAll(ts: seq<Token>, d: Delims) {
    ts == [] || (Printable(ts[0], d) && !(ts[0].Plain? && |ts| > 1 && ts[1].Plain?) && PrintableAll(ts[1..], After(ts[0], d)))
  }

  function PieceOf(t: Token, d: Delims, pos: nat): (p: Piece) {
    var end := pos + |PrintOne(t, d)|;
    match t
    case Plain(_) => Text(pos, end)
    case TagToken(k, n) => Tag(pos, end, k, n, None)
    case TripleToken(n) => Tag(pos, end, UnescapedVariable, n, None)
    case SetToken(next) => Tag(pos, end, SetDelimiter, [], Some(next))
  }

  /** The tokens with the positions they are printed at. */
  function PiecesOf(ts: seq<Token>, d: Delims, pos: nat): (ps: seq<Piece>) {
    if ts == [] then []
    else [PieceOf(ts[0], d, pos)] + PiecesOf(ts[1..], After(ts[0], d), pos + |PrintOne(ts[0], d)|)
  }

  lemma {:induction false} PiecesOfHead(ts: seq<Token>, d: Delims, pos: nat)
    requires ts != []
    ensures PiecesOf(ts, d, pos) == [PieceOf(ts[0], d, pos)] + PiecesOf(ts[1..], After(ts[0], d), pos + |PrintOne(ts[0], d)|)
  {
  }

  // ---------- finding the delimiters ----------

  lemma {:induction false} OccursShifted(input: string, pre: string, s: string, delim: string, k: nat)
    requires pre + s <= input && k + |delim| <= |s|
    ensures OccursAt(input, delim, |pre| + k) <==> OccursAt(s, delim, k)
  {
    var n := |delim|;
    assert input[|pre| + k..|pre| + k + n] == (pre + s)[|pre| + k..|pre| + k + n] == s[k..k + n];
  }

  lemma {:induction false} FindAhead(input: string, pre: string, body: string, delim: string)
    requires Ahead(body, delim) && pre + (body + delim) <= input
    ensures Find(input, delim, |pre|) == Some(|pre| + |body|)
  {
    var s := body + delim;
    assert s[|body|..|body| + |delim|] == delim;
    OccursShifted(input, pre, s, delim, |body|);
    forall k | |pre| <= k < |pre| + |body| ensures !OccursAt(input, delim, k) {
      OccursShifted(input, pre, s, delim, k - |pre|);
    }
  }

  lemma {:induction false} FindAheadAt(input: string, pre: string, body: string, delim: string, from: nat, at: nat)
    requires Ahead(body, delim) && pre + (body + delim) <= input && from == |pre| && at == from + |body|
    ensures from <= |input| && Find(input, delim, from) == Some(at)
  {
    FindAhead(input, pre, body, delim);
  }

  lemma {:induction false} NotInside(body: string, delim: string, k: nat)
    requires Ahead(body, delim) && delim != []
    ensures !OccursAt(body, delim, k)
  {
    if k + |delim| <= |body| {
      assert !OccursAt(body + delim, delim, k);
      assert (body + delim)[k..k + |delim|] == body[k..k + |delim|];
    }
  }

  lemma {:induction false} FindNone(pre: string, body: string, delim: string)
    requires Ahead(body, delim) && delim != []
    ensures Find(pre + body, delim, |pre|) == None
  {
    forall k | |pre| <= k <= |pre + body| ensures !OccursAt(pre + body, delim, k) {
      if k + |delim| <= |pre + body| {
        NotInside(body, delim, k - |pre|);
        OccursShifted(pre + body, pre, body, delim, k - |pre|);
      }
    }
  }

  // ---------- one tag ----------

  lemma {:induction false} ContentsTrimmed(s: string)
    requires Trimmed(s)
    ensures Trim(s) == s
  {
    if s != [] {
      TrimIsUnique(s, 0, |s|);
      assert s[0..|s|] == s;
    }
  }

  /** The sigils are read back as the kinds they announce. */
  lemma {:induction false} TagContentsRoundTrip(kind: TagKind, name: string)
    requires !kind.SetDelimiter? && Trimmed(name) && (kind.Variable? && name != [] ==> name[0] !in "#^/>&!=")
    ensures TagContents(false, Sigil(kind) + name) == (kind, name)
  {
    var contents := Sigil(kind) + name;
    if kind.Variable? {
      assert contents == name;
    } else {
      assert contents[1..] == name;
      ContentsTrimmed(name);
    }
  }

  lemma {:induction false} ContentsClean(t: Token, d: Delims, s: string)
    requires !t.Plain? && !t.TripleToken? && Printable(t, d) && s == Contents(t)
    ensures Trimmed(s) && (d == DEFAULT_DELIMS && s != [] ==> s[0] != '{')
    ensures t.TagToken? && s != [] ==> s[0] != '='
  {
    if t.TagToken? {
      if t.kind.Variable? { assert s == t.name; } else { assert forall k :: 1 <= k < |s| ==> s[k] == t.name[k - 1]; }
    }
  }

  lemma {:induction false} TagOfName(kind: TagKind, name: string, d: Delims, start: nat, end: nat, contents: string)
    requires ValidDelims(d) && TagContents(false, contents) == (kind, name) && (contents != [] ==> contents[0] != '=')
    ensures TagOf(start, end, contents, false, d) == Tagged(Tag(start, end, kind, name, None), d)
  {
  }

  lemma {:induction false} TagOfSet(next: Delims, d: Delims, start: nat, end: nat, contents: string)
    requires ValidDelims(d) && SetDelimiterTag(contents) == Some(next) && contents != [] && contents[0] == '='
    ensures TagOf(start, end, contents, false, d) == Tagged(Tag(start, end, SetDelimiter, [], Some(next)), next)
  {
  }

  lemma {:induction false} NamedContents(kind: TagKind, name: string, d: Delims, start: nat, end: nat, contents: string)
    requires Printable(TagToken(kind, name), d) && ValidDelims(d) && contents == Sigil(kind) + name
    ensures TagOf(start, end, contents, false, d) == Tagged(Tag(start, end, kind, name, None), d)
  {
    ContentsClean(TagToken(kind, name), d, contents);
    TagContentsRoundTrip(kind, name);
    TagOfName(kind, name, d, start, end, contents);
  }

  lemma {:induction false} SetContents(next: Delims, d: Delims, start: nat, end: nat, contents: string)
    requires ValidDelims(next) && ValidDelims(d) && contents == ['='] + (next.begin + " " + next.end) + ['=']
    ensures TagOf(start, end, contents, false, d) == Tagged(Tag(start, end, SetDelimiter, [], Some(next)), next)
  {
    SetDelimiterRoundTrip(next, " ");
    TagOfSet(next, d, start, end, contents);
  }

  /** The contents of a printed tag are read back as that tag. */
  lemma {:induction false} TagOfContents(t: Token, d: Delims, start: nat, end: nat, contents: string)
    requires !t.Plain? && !t.TripleToken? && Printable(t, d) && ValidDelims(d) && end == start + |PrintOne(t, d)| && contents == Contents(t)
    ensures TagOf(start, end, contents, false, d) == Tagged(PieceOf(t, d, start), After(t, d))
  {
    if t.TagToken? {
      NamedContents(t.kind, t.name, d, start, end, contents);
    } else {
      SetContents(t.next, d, start, end, contents);
    }
  }

  /** Where a printed tag stands: its start, the start and the end of its contents. */
  datatype Place = Place(start: nat, from: nat, at: nat)

  predicate PlaceIs(w: Place, start: nat, d: Delims, contents: string) {
    w == Place(start, start + |d.begin|, start + |d.begin| + |contents|)
  }

  /** What the scanner looks at when it reads a tag. */
  ghost predicate Read(input: string, w: Place, d: Delims, contents: string) {
    && w.start < w.from <= w.at && w.at + |d.end| <= |input| && ValidDelims(d)
    && OccursAt(input, d.begin, w.start) && Opening(input, w.start, d) == TagOpening(w.from, d.end, false)
    && Find(input, d.end, w.from) == Some(w.at) && input[w.from..w.at] == contents && Trim(contents) == contents
  }

  lemma {:induction false} ReadScans(input: string, w: Place, d: Delims, contents: string, r: TagScan)
    requires Read(input, w, d, contents) && TagOf(w.start, w.at + |d.end|, contents, false, d) == r
    ensures ScanTag(input, w.start, d) == r
  {
  }

  lemma {:induction false} MiddleOf(input: string, pre: string, d: Delims, contents: string, w: Place)
    requires pre + (d.begin + contents + d.end) <= input && PlaceIs(w, |pre|, d, contents)
    ensures w.at + |d.end| <= |input| && input[w.start..w.from] == d.begin && input[w.from..w.at] == contents
    ensures input[..w.from] + (contents + d.end) <= input
    ensures w.from < |input| && d.end != [] ==> input[w.from] == (contents + d.end)[0]
  {
    var whole := pre + (d.begin + contents + d.end);
    assert input[w.start..w.from] == whole[w.start..w.from];
    assert input[w.from..w.at] == whole[w.from..w.at];
    assert input[..w.from] + (contents + d.end) == whole;
    assert d.end != [] ==> input[w.from] == whole[w.from];
  }

  lemma {:induction false} OpeningOf(input: string, d: Delims, contents: string, w: Place)
    requires ValidDelims(d) && w.from == w.start + |d.begin| < |input| && input[w.start..w.from] == d.begin
    requires input[w.from] == (contents + d.end)[0] && (d == DEFAULT_DELIMS && contents != [] ==> contents[0] != '{')
    ensures OccursAt(input, d.begin, w.start) && Opening(input, w.start, d) == TagOpening(w.from, d.end, false)
  {
    if d == DEFAULT_DELIMS { assert (contents + d.end)[0] != '{'; }
  }

  /** A printed tag is read as it was printed. */
  lemma {:induction false} PrintedIsRead(input: string, pre: string, t: Token, d: Delims, contents: string, w: Place)
    requires ValidDelims(d) && !t.Plain? && !t.TripleToken? && Printable(t, d) && contents == Contents(t) && PlaceIs(w, |pre|, d, contents)
    requires pre + (d.begin + contents + d.end) <= input
    ensures Read(input, w, d, contents)
  {
    ContentsRead(t, d, contents);
    ContentsFound(input, pre, d, contents, w);
    ReadAt(input, pre, d, contents, w);
  }

  lemma {:induction false} ReadAt(input: string, pre: string, d: Delims, contents: string, w: Place)
    requires ValidDelims(d) && PlaceIs(w, |pre|, d, contents) && pre + (d.begin + contents + d.end) <= input
    requires Trim(contents) == contents && (d == DEFAULT_DELIMS && contents != [] ==> contents[0] != '{')
    requires Find(input, d.end, w.from) == Some(w.at)
    ensures Read(input, w, d, contents)
  {
    MiddleOf(input, pre, d, contents, w);
    OpeningOf(input, d, contents, w);
  }

  lemma {:induction false} ContentsRead(t: Token, d: Delims, contents: string)
    requires !t.Plain? && !t.TripleToken? && Printable(t, d) && contents == Contents(t)
    ensures Trim(contents) == contents && (d == DEFAULT_DELIMS && contents != [] ==> contents[0] != '{') && Ahead(contents, d.end)
  {
    ContentsClean(t, d, contents);
    ContentsTrimmed(contents);
  }

  lemma {:induction false} Reassociate(input: string, pre: string, a: string, b: string, c: string)
    requires pre + (a + b + c) <= input
    ensures pre + a + (b + c) <= input
  {
    assert pre + a + (b + c) == pre + (a + b + c);
  }

  lemma {:induction false} ContentsFound(input: string, pre: string, d: Delims, contents: string, w: Place)
    requires Ahead(contents, d.end) && PlaceIs(w, |pre|, d, contents) && pre + (d.begin + contents + d.end) <= input
    ensures w.from <= |input| && Find(input, d.end, w.from) == Some(w.at)
  {
    Reassociate(input, pre, d.begin, contents, d.end);
    FindAheadAt(input, pre + d.begin, contents, d.end, w.from, w.at);
  }

  // ---------- the whole template ----------

  lemma {:induction false} PrintHead(pre: string, ts: seq<Token>, d: Delims)
    requires ts != []
    ensures pre + Print(ts, d) == pre + PrintOne(ts[0], d) + Print(ts[1..], After(ts[0], d))
  {
  }

  lemma {:induction false} RoundThen(pos: nat, tag: Piece, ps: seq<Piece>)
    ensures Prepend(Round(pos, tag), Pieces(ps)) == Pieces(TextBefore(pos, tag.start) + ([tag] + ps))
  {
    assert Round(pos, tag) + ps == TextBefore(pos, tag.start) + ([tag] + ps);
  }

  lemma {:induction false} PlainIsScanned(input: string, pre: string, t: Token, d: Delims, r: TagScan)
    requires ValidDelims(d) && !t.Plain? && !t.TripleToken? && Printable(t, d) && pre + PrintOne(t, d) <= input
    requires r == Tagged(PieceOf(t, d, |pre|), After(t, d))
    ensures OccursAt(input, d.begin, |pre|) && ScanTag(input, |pre|, d) == r
  {
    var contents := Contents(t);
    var w := Place(|pre|, |pre| + |d.begin|, |pre| + |d.begin| + |contents|);
    TagOfContents(t, d, |pre|, w.at + |d.end|, contents);
    PrintedIsRead(input, pre, t, d, contents, w);
    ReadScans(input, w, d, contents, r);
  }

  // ---------- a triple brace ----------

  const BRACES := ['{', '{', '{']

  const BRACES_END := ['}', '}', '}']

  lemma {:induction false} TripleApart(pre: string, name: string)
    ensures pre + PrintOne(TripleToken(name), DEFAULT_DELIMS) == pre + BRACES + (name + BRACES_END)
    ensures |PrintOne(TripleToken(name), DEFAULT_DELIMS)| == |name| + 6
  {
    var d := DEFAULT_DELIMS;
    assert d.begin == ['{', '{'] && d.end == ['}', '}'];
    assert d.begin + (['{'] + name + ['}']) + d.end == BRACES + (name + BRACES_END);
  }

  /** Three opening braces under the default delimiters ask for unescaped output. */
  lemma {:induction false} TripleOpens(input: string, pre: string, name: string)
    requires ValidDelims(DEFAULT_DELIMS) && pre + BRACES + (name + BRACES_END) <= input
    ensures OccursAt(input, DEFAULT_DELIMS.begin, |pre|)
    ensures Opening(input, |pre|, DEFAULT_DELIMS) == TagOpening(|pre| + 3, TRIPLE_END, true) && TRIPLE_END == BRACES_END
    ensures input[|pre| + 3..|pre| + 3 + |name|] == name
  {
    var whole, n := pre + BRACES + (name + BRACES_END), |pre|;
    assert |whole| <= |input| && forall k :: 0 <= k < |whole| ==> input[k] == whole[k];
    assert input[n..n + 2] == ['{', '{'] == DEFAULT_DELIMS.begin;
    assert input[n + 2] == whole[n + 2] == '{';
    assert input[n + 3..n + 3 + |name|] == whole[n + 3..n + 3 + |name|] == name;
  }

  lemma {:induction false} TripleCloses(input: string, pre: string, name: string)
    requires Trimmed(name) && Ahead(name, BRACES_END) && pre + BRACES + (name + BRACES_END) <= input
    ensures Trim(name) == name && |pre| + 3 <= |input| && Find(input, BRACES_END, |pre| + 3) == Some(|pre| + 3 + |name|)
  {
    ContentsTrimmed(name);
    FindAhead(input, pre + BRACES, name, BRACES_END);
  }

  lemma {:induction false} TripleContents(name: string, start: nat, end: nat)
    requires ValidDelims(DEFAULT_DELIMS) && (name != [] ==> name[0] != '=')
    ensures TagOf(start, end, name, true, DEFAULT_DELIMS) == Tagged(Tag(start, end, UnescapedVariable, name, None), DEFAULT_DELIMS)
  {
  }

  ghost predicate TripleRead(input: string, start: nat, at: nat, name: string) {
    && ValidDelims(DEFAULT_DELIMS) && start + 3 <= at && at + 3 <= |input| && OccursAt(input, DEFAULT_DELIMS.begin, start)
    && Opening(input, start, DEFAULT_DELIMS) == TagOpening(start + 3, TRIPLE_END, true)
    && Find(input, TRIPLE_END, start + 3) == Some(at) && input[start + 3..at] == name && Trim(name) == name
  }

  lemma {:induction false} TripleScans(input: string, start: nat, at: nat, name: string, r: TagScan)
    requires TripleRead(input, start, at, name) && TagOf(start, at + 3, name, true, DEFAULT_DELIMS) == r
    ensures ScanTag(input, start, DEFAULT_DELIMS) == r
  {
  }

  lemma {:induction false} TripleIsRead(input: string, pre: string, name: string, at: nat)
    requires Printable(TripleToken(name), DEFAULT_DELIMS) && pre + BRACES + (name + BRACES_END) <= input
    requires at == |pre| + 3 + |name| && ValidDelims(DEFAULT_DELIMS)
    ensures TripleRead(input, |pre|, at, name)
  {
    TripleOpens(input, pre, name);
    TripleCloses(input, pre, name);
  }

  /** A tag printed between triple braces is scanned as an unescaped variable. */
  lemma {:induction false} TripleIsScanned(input: string, pre: string, name: string, r: TagScan)
    requires Printable(TripleToken(name), DEFAULT_DELIMS) && pre + BRACES + (name + BRACES_END) <= input
    requires r == Tagged(Tag(|pre|, |pre| + |name| + 6, UnescapedVariable, name, None), DEFAULT_DELIMS) && ValidDelims(DEFAULT_DELIMS)
    ensures OccursAt(input, DEFAULT_DELIMS.begin, |pre|) && ScanTag(input, |pre|, DEFAULT_DELIMS) == r
  {
    var at := |pre| + 3 + |name|;
    TripleContents(name, |pre|, at + 3);
    TripleIsRead(input, pre, name, at);
    TripleScans(input, |pre|, at, name, r);
  }

  /** A printed tag is scanned as that tag. */
  lemma {:induction false} PrintedIsScanned(input: string, pre: string, t: Token, d: Delims, r: TagScan)
    requires ValidDelims(d) && !t.Plain? && Printable(t, d) && pre + PrintOne(t, d) <= input
    requires r == Tagged(PieceOf(t, d, |pre|), After(t, d))
    ensures OccursAt(input, d.begin, |pre|) && ScanTag(input, |pre|, d) == r
  {
    if t.TripleToken? {
      TripleApart(pre, t.name);
      TripleIsScanned(input, pre, t.name, r);
    } else {
      PlainIsScanned(input, pre, t, d, r);
    }
  }

  lemma {:induction false} PrefixOf(input: string, pre: string, text: string, a: string, b: string, c: string)
    requires pre + text + (a + b + c) <= input
    ensures pre + (text + a) <= input
  {
    var whole, n := pre + text + (a + b + c), |pre| + |text| + |a|;
    assert pre + (text + a) == whole[..n];
  }

  lemma {:induction false} PrintedOpens(input: string, pre: string, text: string, t: Token, d: Delims)
    requires !t.Plain? && pre + text + PrintOne(t, d) <= input
    ensures pre + (text + d.begin) <= input
  {
    PrefixOf(input, pre, text, d.begin, Contents(t), d.end);
  }

  lemma {:induction false} FindsPrinted(input: string, pre: string, text: string, t: Token, d: Delims)
    requires ValidDelims(d) && Ahead(text, d.begin) && !t.Plain? && pre + text + PrintOne(t, d) <= input
    ensures |pre| < |input| && Find(input, d.begin, |pre|) == Some(|pre| + |text|)
  {
    PrintedOpens(input, pre, text, t, d);
    FindAhead(input, pre, text, d.begin);
  }

  /** `next` is the scanner's reader of `input`. */
  ghost predicate Reads(next: Reader, input: string) {
    forall pos: nat, d: Delims {:trigger Find(input, d.begin, pos)} :: pos < |input| && ValidDelims(d) ==> next(pos, d) == NextTag(input, pos, d)
  }

  lemma {:induction false} ReaderReads(input: string)
    ensures Reads(TagReader(input), input)
  {
  }

  lemma {:induction false} NextTagIs(input: string, pos: nat, d: Delims, at: nat, r: TagScan)
    requires pos <= |input| && ValidDelims(d) && Find(input, d.begin, pos) == Some(at)
    requires OccursAt(input, d.begin, at) && ScanTag(input, at, d) == r
    ensures NextTag(input, pos, d) == Some(r)
  {
  }

  /** The tag printed after `pre` and a text that does not hide it is the next tag from the end of `pre`. */
  lemma {:induction false} NextPrintedTag(next: Reader, input: string, pre: string, text: string, t: Token, d: Delims, at: nat, r: TagScan)
    requires Reads(next, input)
    requires ValidDelims(d) && Ahead(text, d.begin) && !t.Plain? && Printable(t, d) && pre + text + PrintOne(t, d) <= input
    requires at == |pre| + |text| && r == Tagged(PieceOf(t, d, at), After(t, d))
    ensures |pre| < |input| && next(|pre|, d) == Some(r)
  {
    FindsPrinted(input, pre, text, t, d);
    PrintedIsScanned(input, pre + text, t, d, r);
    NextTagIs(input, |pre|, d, at, r);
  }

  /** From `pos` to `size` the reader finds exactly the tags among `ps`, and the texts lie between them. */
  ghost predicate Chain(next: Reader, pos: nat, d: Delims, size: nat, ps: seq<Piece>)
    decreases |ps|, 0
  {
    if ps == [] then pos == size && ValidDelims(d)
    else if ps[0].Tag? then ps[0].start == pos < size && ChainFrom(next, pos, d, size, ps[0], ps[1..])
    else if |ps| == 1 then ValidDelims(d) && pos < size && ps[0] == Text(pos, size) && next(pos, d) == None
    else ps[1].Tag? && pos < ps[1].start && pos < size && ps[0] == Text(pos, ps[1].start) && ChainFrom(next, pos, d, size, ps[1], ps[2..])
  }

  ghost predicate ChainFrom(next: Reader, pos: nat, d: Delims, size: nat, p: Piece, rest: seq<Piece>)
    decreases |rest|, 1
  {
    var r := next(pos, d);
    r.Some? && r.value.Tagged? && r.value.tag == p && Chain(next, p.end, r.value.next, size, rest)
  }

  lemma {:induction false} ChainTag(next: Reader, pos: nat, d: Delims, size: nat, p: Piece, d': Delims, rest: seq<Piece>)
    requires p.Tag? && p.start == pos < size && next(pos, d) == Some(Tagged(p, d')) && Chain(next, p.end, d', size, rest)
    ensures Chain(next, pos, d, size, [p] + rest)
  {
    assert ([p] + rest)[1..] == rest;
  }

  lemma {:induction false} ChainText(next: Reader, pos: nat, d: Delims, size: nat, p: Piece, d': Delims, rest: seq<Piece>)
    requires p.Tag? && pos < p.start && pos < size && next(pos, d) == Some(Tagged(p, d')) && Chain(next, p.end, d', size, rest)
    ensures Chain(next, pos, d, size, [Text(pos, p.start)] + ([p] + rest))
  {
    assert ([Text(pos, p.start)] + ([p] + rest))[2..] == rest;
  }

  lemma {:induction false} ReaderTag(next: Reader, pre: string, t: Token, d: Delims, input: string, d': Delims, rest: seq<Piece>, ps: seq<Piece>)
    requires Reads(next, input) && ValidDelims(d) && !t.Plain? && Printable(t, d) && pre + PrintOne(t, d) <= input
    requires d' == After(t, d) && Chain(next, |pre| + |PrintOne(t, d)|, d', |input|, rest) && ps == [PieceOf(t, d, |pre|)] + rest
    ensures Chain(next, |pre|, d, |input|, ps)
  {
    var p := PieceOf(t, d, |pre|);
    assert pre + [] == pre;
    NextPrintedTag(next, input, pre, [], t, d, |pre|, Tagged(p, d'));
    ChainTag(next, |pre|, d, |input|, p, d', rest);
  }

  lemma {:induction false} ReaderText(next: Reader, pre: string, text: string, t: Token, d: Delims, input: string, d': Delims, rest: seq<Piece>, ps: seq<Piece>)
    requires Reads(next, input) && ValidDelims(d) && text != [] && Ahead(text, d.begin) && !t.Plain? && Printable(t, d) && d' == After(t, d)
    requires pre + text + PrintOne(t, d) <= input && Chain(next, |pre| + |text| + |PrintOne(t, d)|, d', |input|, rest)
    requires ps == [Text(|pre|, |pre| + |text|)] + ([PieceOf(t, d, |pre| + |text|)] + rest)
    ensures Chain(next, |pre|, d, |input|, ps)
  {
    var p := PieceOf(t, d, |pre| + |text|);
    NextPrintedTag(next, input, pre, text, t, d, |pre| + |text|, Tagged(p, d'));
    ChainText(next, |pre|, d, |input|, p, d', rest);
  }

  /** The scanner's reader finds what was printed. */
  lemma {:induction false} ReaderFollows(next: Reader, pre: string, ts: seq<Token>, d: Delims, input: string, ps: seq<Piece>)
    requires Reads(next, input) && ValidDelims(d) && PrintableAll(ts, d) && input == pre + Print(ts, d) && ps == PiecesOf(ts, d, |pre|)
    ensures Chain(next, |pre|, d, |input|, ps)
    decreases |ts|, 1
  {
    if ts == [] {
      assert pre + Print(ts, d) == pre;
    } else if !ts[0].Plain? {
      FollowsFromTag(next, pre, ts, d, input, ps);
    } else if |ts| == 1 {
      ReaderEnds(next, pre, ts, d, input);
      PiecesOfHead(ts, d, |pre|);
      assert PiecesOf(ts[1..], d, |input|) == [];
    } else {
      FollowsFromText(next, pre, ts, d, input, ps);
    }
  }

  lemma {:induction false} FollowsFromTag(next: Reader, pre: string, ts: seq<Token>, d: Delims, input: string, ps: seq<Piece>)
    requires Reads(next, input) && ValidDelims(d) && PrintableAll(ts, d) && input == pre + Print(ts, d) && ps == PiecesOf(ts, d, |pre|)
    requires ts != [] && !ts[0].Plain?
    ensures Chain(next, |pre|, d, |input|, ps)
    decreases |ts|, 0
  {
    var t, d', pre' := ts[0], After(ts[0], d), pre + PrintOne(ts[0], d);
    PrintHead(pre, ts, d);
    PrintedNext(t, d);
    var rest := PiecesAfterTag(ts, d, |pre|, |pre'|, ps);
    ReaderFollows(next, pre', ts[1..], d', input, rest);
    ReaderTag(next, pre, t, d, input, d', rest, ps);
  }

  lemma {:induction false} FollowsFromText(next: Reader, pre: string, ts: seq<Token>, d: Delims, input: string, ps: seq<Piece>)
    requires Reads(next, input) && ValidDelims(d) && PrintableAll(ts, d) && input == pre + Print(ts, d) && ps == PiecesOf(ts, d, |pre|)
    requires |ts| >= 2 && ts[0].Plain?
    ensures Chain(next, |pre|, d, |input|, ps)
    decreases |ts|, 0
  {
    TextThenTag(ts, d);
    var text, t, d' := ts[0].text, ts[1], After(ts[1], d);
    var pre' := pre + text + PrintOne(t, d);
    TwoHeads(pre, ts, d, input, pre');
    var rest := PiecesAfterText(ts, d, |pre|, |pre'|, ps);
    ReaderFollows(next, pre', ts[2..], d', input, rest);
    ReaderText(next, pre, text, t, d, input, d', rest, ps);
  }

  lemma {:induction false} ReaderEnds(next: Reader, pre: string, ts: seq<Token>, d: Delims, input: string)
    requires Reads(next, input) && ValidDelims(d) && |ts| == 1 && ts[0].Plain? && Printable(ts[0], d) && input == pre + Print(ts, d)
    ensures |pre| < |input| == |pre| + |ts[0].text| && next(|pre|, d) == None
  {
    var text := ts[0].text;
    assert Print(ts[1..], d) == [];
    assert input == pre + text;
    FindNone(pre, text, d.begin);
  }

  /** What a scan makes of its reader: at the end, without a tag, and with one. */
  ghost predicate ScansBy(next: Reader, scan: (nat, Delims) -> ScanResult, size: nat) {
    && (forall d :: ValidDelims(d) ==> scan(size, d) == Pieces([]))
    && (forall pos: nat, d :: pos < size && ValidDelims(d) && next(pos, d) == None ==> scan(pos, d) == Pieces([Text(pos, size)]))
    && Unfolds(next, scan)
  }

  lemma {:induction false} ScannerScans(input: string)
    ensures ScansBy(TagReader(input), Scanner(input), |input|)
  {
    ScannerUnfolds(input);
  }

  lemma {:induction false} ScanStep(next: Reader, scan: (nat, Delims) -> ScanResult, pos: nat, d: Delims, p: Piece, ps: seq<Piece>)
    requires Unfolds(next, scan) && next(pos, d).Some? && next(pos, d).value.Tagged? && next(pos, d).value.tag == p
    requires scan(p.end, next(pos, d).value.next) == Pieces(ps)
    ensures scan(pos, d) == Pieces(TextBefore(pos, p.start) + ([p] + ps))
  {
    RoundThen(pos, p, ps);
  }

  /** A scan by such a reader gives these pieces. */
  lemma {:induction false} ChainIsScanned(next: Reader, scan: (nat, Delims) -> ScanResult, pos: nat, d: Delims, size: nat, ps: seq<Piece>)
    requires ScansBy(next, scan, size) && Chain(next, pos, d, size, ps)
    ensures scan(pos, d) == Pieces(ps)
    decreases |ps|
  {
    if ps == [] {
    } else if ps[0].Tag? {
      var p, rest := ps[0], ps[1..];
      ChainIsScanned(next, scan, p.end, next(pos, d).value.next, size, rest);
      ScanStep(next, scan, pos, d, p, rest);
      assert [] + ([p] + rest) == ps;
    } else if |ps| == 1 {
      assert ps == [Text(pos, size)];
    } else {
      var p, rest := ps[1], ps[2..];
      ChainIsScanned(next, scan, p.end, next(pos, d).value.next, size, rest);
      ScanStep(next, scan, pos, d, p, rest);
      assert [Text(pos, p.start)] + ([p] + rest) == ps;
    }
  }

  lemma {:induction false} PrintedNext(t: Token, d: Delims)
    requires ValidDelims(d) && Printable(t, d)
    ensures ValidDelims(After(t, d))
  {
  }

  lemma {:induction false} TextThenTag(ts: seq<Token>, d: Delims)
    requires ValidDelims(d) && |ts| >= 2 && ts[0].Plain? && PrintableAll(ts, d)
    ensures Printable(ts[0], d) && !ts[1].Plain? && Printable(ts[1], d)
    ensures ValidDelims(After(ts[1], d)) && PrintableAll(ts[2..], After(ts[1], d))
  {
    assert ts[1..][0] == ts[1] && ts[1..][1..] == ts[2..];
    PrintedNext(ts[1], d);
  }

  lemma {:induction false} TwoHeads(pre: string, ts: seq<Token>, d: Delims, input: string, pre': string)
    requires |ts| >= 2 && ts[0].Plain? && input == pre + Print(ts, d) && pre' == pre + ts[0].text + PrintOne(ts[1], d)
    ensures input == pre' + Print(ts[2..], After(ts[1], d)) && pre' <= input
  {
    PrintHead(pre, ts, d);
    PrintHead(pre + ts[0].text, ts[1..], d);
    assert ts[1..][0] == ts[1] && ts[1..][1..] == ts[2..];
  }

  lemma {:induction false} PiecesOfText(ts: seq<Token>, d: Delims, pos: nat, at: nat, qs: seq<Piece>)
    requires ts != [] && ts[0].Plain? && at == pos + |ts[0].text| && qs == PiecesOf(ts[1..], d, at)
    ensures PiecesOf(ts, d, pos) == [Text(pos, at)] + qs
  {
    PiecesOfHead(ts, d, pos);
  }

  lemma {:induction false} PiecesOfRest(ts: seq<Token>, d: Delims, at: nat, p: Piece, ps: seq<Piece>)
    requires |ts| >= 2 && p == PieceOf(ts[1], d, at) && ps == PiecesOf(ts[2..], After(ts[1], d), at + |PrintOne(ts[1], d)|)
    ensures PiecesOf(ts[1..], d, at) == [p] + ps
  {
    var rest := ts[1..];
    assert rest[0] == ts[1] && rest[1..] == ts[2..];
    PiecesOfHead(rest, d, at);
  }

  lemma {:induction false} PiecesAfterTag(ts: seq<Token>, d: Delims, pos: nat, end: nat, ps: seq<Piece>) returns (rest: seq<Piece>)
    requires ts != [] && ps == PiecesOf(ts, d, pos) && end == pos + |PrintOne(ts[0], d)|
    ensures rest == PiecesOf(ts[1..], After(ts[0], d), end) && ps == [PieceOf(ts[0], d, pos)] + rest
  {
    PiecesOfHead(ts, d, pos);
    rest := PiecesOf(ts[1..], After(ts[0], d), end);
  }

  lemma {:induction false} PiecesAfterText(ts: seq<Token>, d: Delims, pos: nat, end: nat, ps: seq<Piece>) returns (rest: seq<Piece>)
    requires |ts| >= 2 && ts[0].Plain? && ps == PiecesOf(ts, d, pos) && end == pos + |ts[0].text| + |PrintOne(ts[1], d)|
    ensures rest == PiecesOf(ts[2..], After(ts[1], d), end)
    ensures ps == [Text(pos, pos + |ts[0].text|)] + ([PieceOf(ts[1], d, pos + |ts[0].text|)] + rest)
  {
    var at := pos + |ts[0].text|;
    var p := PieceOf(ts[1], d, at);
    rest := PiecesOf(ts[2..], After(ts[1], d), end);
    PiecesOfRest(ts, d, at, p, rest);
    PiecesOfText(ts, d, pos, at, [p] + rest);
  }

  /** Every printable template, whatever the delimiters it starts with and changes to, is scanned back token by
      token, each at the place where it was printed. */
  lemma {:induction false} ScanPrinted(ts: seq<Token>, d: Delims)
    requires ValidDelims(d) && PrintableAll(ts, d)
    ensures Scan(Print(ts, d), 0, d) == Pieces(PiecesOf(ts, d, 0))
  {
    assert [] + Print(ts, d) == Print(ts, d);
    var input := Print(ts, d);
    ReaderReads(input);
    ReaderFollows(TagReader(input), [], ts, d, input, PiecesOf(ts, d, 0));
    ScannerScans(input);
    ChainIsScanned(TagReader(input), Scanner(input), 0, d, |input|, PiecesOf(ts, d, 0));
  }
}
