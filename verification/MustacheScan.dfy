/** The scanner of the template parser: it cuts the input into text and tags, with delimiters that tags
    themselves may change. */
module MustacheScan {
  import opened Wrappers
  import opened MustacheText

  datatype Delims = Delims(begin: string, end: string)

  const DEFAULT_DELIMS := Delims("{{", "}}")

  datatype TagKind =
    | Variable | UnescapedVariable | SectionBegin | SectionBeginInverted | SectionEnd
    | Comment | Partial | SetDelimiter

  datatype ParseError =
    | UnclosedTag(position: nat)
    | InvalidSetDelimiter(position: nat)
    | UnopenedSection(name: string, position: nat)
    | UnclosedSection(name: string, position: nat)

  predicate Begins(k: TagKind) { k.SectionBegin? || k.SectionBeginInverted? }

  /** One stretch of the input as the scanner cuts it: plain text or a whole tag with its delimiters. */
  datatype Piece =
    | Text(start: nat, end: nat)
    | Tag(start: nat, end: nat, kind: TagKind, name: string, delims: Option<Delims>)

  // ---------- delimiters ----------

  /** `isSetDelimiterValid`. */
  predicate CleanDelim(s: string) {
    forall k :: 0 <= k < |s| ==> s[k] != '=' && !IsSpace(s[k])
  }

  predicate ValidDelims(d: Delims) {
    d.begin != [] && d.end != [] && CleanDelim(d.begin) && CleanDelim(d.end)
  }

  /** `find_first_not_of(' ', i)`; the length of `s` stands for npos. */
  function SkipBlanks(s: string, i: nat): (r: nat)
    requires i <= |s|
    ensures i <= r <= |s|
    ensures r < |s| ==> s[r] != ' '
    ensures i < r == |s| ==> s[r - 1] == ' '
    decreases |s| - i
  {
    if i < |s| && s[i] == ' ' then SkipBlanks(s, i + 1) else i
  }

  lemma {:induction false} SkipBlanksTo(s: string, i: nat, r: nat)
    requires i <= r < |s| && s[r] != ' ' && forall k :: i <= k < r ==> s[k] == ' '
    ensures SkipBlanks(s, i) == r
    decreases r - i
  {
    if i < r { SkipBlanksTo(s, i + 1, r); }
  }

  /** The two delimiters between the equals signs of a set-delimiter tag. The assertion is the source's
      own: a trimmed text cannot end in a blank. */
  function DelimPair(inner: string): (r: Option<Delims>)
    requires inner != [] ==> !IsSpace(inner[0]) && !IsSpace(inner[|inner| - 1])
    ensures r.Some? ==> ValidDelims(r.value)
  {
    var blank := Find(inner, " ", 0);
    if blank.None? then None
    else
      assert OccursAt(inner, " ", blank.value) && inner[blank.value] == ' ';
      var nonblank := SkipBlanks(inner, blank.value + 1);
      assert nonblank < |inner|;
      var begin, end := inner[..blank.value], inner[nonblank..];
      if CleanDelim(begin) && CleanDelim(end) then Some(Delims(begin, end)) else None
  }

  /** `parseSetDelimiterTag`. */
  function SetDelimiterTag(contents: string): (r: Option<Delims>)
    ensures r.Some? ==> ValidDelims(r.value)
  {
    if |contents| < 5 || contents[|contents| - 1] != '=' then None
    else DelimPair(Trim(contents[1..|contents| - 1]))
  }

  lemma {:induction false} FirstBlank(inner: string, n: nat)
    requires n < |inner| && inner[n] == ' ' && forall k :: 0 <= k < n ==> inner[k] != ' '
    ensures Find(inner, " ", 0) == Some(n)
  {
    assert inner[n..n + 1] == " ";
    assert OccursAt(inner, " ", n);
    forall k | 0 <= k < n ensures !OccursAt(inner, " ", k) {
      assert inner[k..k + 1] == [inner[k]];
    }
  }

  lemma {:induction false} DelimPairOf(d: Delims, blanks: string, inner: string)
    requires ValidDelims(d) && inner == d.begin + blanks + d.end
    requires blanks != [] && forall k :: 0 <= k < |blanks| ==> blanks[k] == ' '
    ensures !IsSpace(inner[0]) && !IsSpace(inner[|inner| - 1]) && DelimPair(inner) == Some(d)
  {
    var n, m := |d.begin|, |d.begin| + |blanks|;
    assert inner[m] == d.end[0] && inner[0] == d.begin[0];
    assert inner[|inner| - 1] == d.end[|d.end| - 1];
    assert forall k :: n <= k < m ==> inner[k] == ' ';
    assert forall k :: 0 <= k < n ==> inner[k] == d.begin[k] != ' ';
    FirstBlank(inner, n);
    SkipBlanksTo(inner, n + 1, m);
    assert inner[..n] == d.begin && inner[m..] == d.end;
  }

  /** Every pair of legal delimiters can be set, with any number of blanks between them. */
  lemma {:induction false} SetDelimiterRoundTrip(d: Delims, blanks: string)
    requires ValidDelims(d)
    requires blanks != [] && forall k :: 0 <= k < |blanks| ==> blanks[k] == ' '
    ensures SetDelimiterTag(['='] + (d.begin + blanks + d.end) + ['=']) == Some(d)
  {
    var inner := d.begin + blanks + d.end;
    var contents := ['='] + inner + ['='];
    assert contents[1..|contents| - 1] == inner;
    DelimPairOf(d, blanks, inner);
    TrimIsUnique(inner, 0, |inner|);
    assert inner[0..|inner|] == inner;
  }

  // ---------- one tag ----------

  function KindOf(c: char): (k: TagKind) {
    if c == '#' then SectionBegin
    else if c == '^' then SectionBeginInverted
    else if c == '/' then SectionEnd
    else if c == '>' then Partial
    else if c == '&' then UnescapedVariable
    else if c == '!' then Comment
    else Variable
  }

  /** `parseTagContents`. */
  function TagContents(unescaped: bool, contents: string): (r: (TagKind, string))
    ensures !r.0.SetDelimiter?
  {
    if unescaped then (UnescapedVariable, contents)
    else if contents == [] then (Variable, [])
    else
      var k := KindOf(contents[0]);
      if k == Variable then (k, contents) else (k, Trim(contents[1..]))
  }

  datatype TagScan = Tagged(tag: Piece, next: Delims) | BadTag(err: ParseError)

  /** A third brace after the default opening delimiter asks for unescaped output. */
  predicate IsTriple(input: string, start: nat, d: Delims)
    requires OccursAt(input, d.begin, start)
  {
    d == DEFAULT_DELIMS && start != |input| - 2 && input[start + 2] == d.begin[0]
  }

  const TRIPLE_END := "}}}"

  /** The tag from `start` to `end` with these contents, and the delimiters in force after it. */
  function TagOf(start: nat, end: nat, contents: string, triple: bool, d: Delims): (r: TagScan)
    requires ValidDelims(d)
    ensures r.Tagged? ==> r.tag.Tag? && r.tag.start == start && r.tag.end == end && ValidDelims(r.next)
    ensures r.Tagged? ==> r.next == if r.tag.delims.Some? then r.tag.delims.value else d
  {
    if contents != [] && contents[0] == '=' then
      var nd := SetDelimiterTag(contents);
      if nd.None? then BadTag(InvalidSetDelimiter(start)) else Tagged(Tag(start, end, SetDelimiter, [], nd), nd.value)
    else
      var (kind, name) := TagContents(triple, contents);
      Tagged(Tag(start, end, kind, name, None), d)
  }

  /** The tag whose contents start at `from` and run to the first `close`. */
  function TagFrom(input: string, start: nat, from: nat, close: string, triple: bool, d: Delims): (r: TagScan)
    requires ValidDelims(d) && start < from <= |input|
    ensures r.Tagged? ==> r.tag.Tag? && r.tag.start == start && from + |close| <= r.tag.end <= |input| && ValidDelims(r.next)
    ensures r.Tagged? ==> r.next == if r.tag.delims.Some? then r.tag.delims.value else d
  {
    var at := Find(input, close, from);
    if at.None? then BadTag(UnclosedTag(start))
    else
      TagOf(start, at.value + |close|, Trim(input[from..at.value]), triple, d)
  }

  /** The tag whose opening delimiter stands at `start`, and the delimiters in force after it. */
  function ScanTag(input: string, start: nat, d: Delims): (r: TagScan)
    requires ValidDelims(d) && OccursAt(input, d.begin, start)
    ensures r.Tagged? ==> r.tag.Tag? && r.tag.start == start && ValidDelims(r.next)
    ensures r.Tagged? ==> start + |d.begin| < r.tag.end <= |input|
    ensures r.Tagged? ==> r.next == if r.tag.delims.Some? then r.tag.delims.value else d
  {
    var o := Opening(input, start, d);
    TagFrom(input, start, o.from, o.close, o.triple, d)
  }

  /** Where the contents of a tag start, what closes it, and whether it asks for unescaped output. */
  datatype TagOpening = TagOpening(from: nat, close: string, triple: bool)

  function Opening(input: string, start: nat, d: Delims): (o: TagOpening)
    requires ValidDelims(d) && OccursAt(input, d.begin, start)
    ensures start + |d.begin| <= o.from <= |input| && o.close != []
  {
    if IsTriple(input, start, d) then TagOpening(start + 3, TRIPLE_END, true)
    else TagOpening(start + |d.begin|, d.end, false)
  }

  lemma {:induction false} TagFromLocal(input: string, other: string, start: nat, from: nat, close: string, triple: bool, d: Delims, e: nat, r: TagScan)
    requires ValidDelims(d) && start < from <= e <= |input| && e <= |other| && input[..e] == other[..e]
    requires TagFrom(input, start, from, close, triple, d) == r && r.Tagged? && r.tag.end <= e
    ensures TagFrom(other, start, from, close, triple, d) == r
  {
    var at := Find(input, close, from).value;
    FindLocal(input, other, close, from, e);
    SliceLocal(input, other, e, from, at);
  }

  lemma {:induction false} OpeningLocal(input: string, other: string, start: nat, d: Delims, e: nat)
    requires ValidDelims(d) && OccursAt(input, d.begin, start) && OccursAt(other, d.begin, start) && start + |d.begin| < e
    requires e <= |input| && e <= |other| && input[..e] == other[..e]
    ensures Opening(input, start, d) == Opening(other, start, d)
  {
    var open := start + |d.begin|;
    assert input[open] == input[..e][open] == other[..e][open] == other[open];
  }

  lemma {:induction false} ScanTagLocal(input: string, other: string, start: nat, d: Delims, e: nat, r: TagScan)
    requires ValidDelims(d) && OccursAt(input, d.begin, start) && OccursAt(other, d.begin, start)
    requires e <= |input| && e <= |other| && input[..e] == other[..e]
    requires ScanTag(input, start, d) == r && r.Tagged? && r.tag.end <= e
    ensures ScanTag(other, start, d) == r
  {
    OpeningLocal(input, other, start, d, e);
    var o := Opening(input, start, d);
    TagFromLocal(input, other, start, o.from, o.close, o.triple, d, e, r);
  }

  // ---------- the whole input ----------

  datatype ScanResult = Pieces(ps: seq<Piece>) | Failed(err: ParseError)

  function Prepend(ps: seq<Piece>, r: ScanResult): (q: ScanResult) {
    if r.Failed? then r else Pieces(ps + r.ps)
  }

  lemma {:induction false} PrependPrepend(ps: seq<Piece>, qs: seq<Piece>, r: ScanResult)
    ensures Prepend(ps, Prepend(qs, r)) == Prepend(ps + qs, r)
  {
    if r.Pieces? {
      assert ps + (qs + r.ps) == ps + qs + r.ps;
    }
  }

  function TextBefore(pos: nat, tag: nat): (ps: seq<Piece>) {
    if pos == tag then [] else [Text(pos, tag)]
  }

  /** The next tag at or after `pos`, if there is an opening delimiter. */
  function NextTag(input: string, pos: nat, d: Delims): (r: Option<TagScan>)
    requires pos <= |input| && ValidDelims(d)
    ensures r.Some? && r.value.Tagged? ==> r.value.tag.Tag? && ValidDelims(r.value.next)
    ensures r.Some? && r.value.Tagged? ==> pos <= r.value.tag.start < r.value.tag.end <= |input|
  {
    var at := Find(input, d.begin, pos);
    if at.None? then None else Some(ScanTag(input, at.value, d))
  }

  function Round(pos: nat, tag: Piece): (ps: seq<Piece>) {
    TextBefore(pos, tag.start) + [tag]
  }

  function Scan(input: string, pos: nat, d: Delims): (r: ScanResult)
    requires pos <= |input| && ValidDelims(d)
    decreases |input| - pos
  {
    if pos == |input| then Pieces([])
    else
      var t := NextTag(input, pos, d);
      if t.None? then Pieces([Text(pos, |input|)])
      else if t.value.BadTag? then Failed(t.value.err)
      else Prepend(Round(pos, t.value.tag), Scan(input, t.value.tag.end, t.value.next))
  }

  /** The whole input can be cut into pieces. */
  predicate Scans(input: string) { Scan(input, 0, DEFAULT_DELIMS).Pieces? }

  function PiecesIn(input: string): (ps: seq<Piece>) {
    var r := Scan(input, 0, DEFAULT_DELIMS);
    if r.Pieces? then r.ps else []
  }

  /** The pieces follow each other without gap or overlap from `from` to `to`, and none is empty. */
  predicate Tiles(ps: seq<Piece>, from: nat, to: nat) {
    if ps == [] then from == to
    else ps[0].start == from < ps[0].end && Tiles(ps[1..], ps[0].end, to)
  }

  lemma {:induction false} TilesConcat(ps: seq<Piece>, qs: seq<Piece>, a: nat, b: nat, c: nat)
    requires Tiles(ps, a, b) && Tiles(qs, b, c)
    ensures Tiles(ps + qs, a, c)
  {
    if ps == [] {
      assert ps + qs == qs;
    } else {
      TilesConcat(ps[1..], qs, ps[0].end, b, c);
      assert (ps + qs)[1..] == ps[1..] + qs;
    }
  }

  /** Among tiling pieces a later one starts at or after the end of an earlier one. */
  lemma {:induction false} TilesOrder(ps: seq<Piece>, a: nat, b: nat, i: nat, j: nat)
    requires Tiles(ps, a, b) && i < |ps| && i < j <= |ps|
    ensures a <= ps[i].start < ps[i].end <= b
    ensures j < |ps| ==> ps[i].end <= ps[j].start
    decreases |ps|
  {
    if i > 0 {
      TilesOrder(ps[1..], ps[0].end, b, i - 1, j - 1);
    } else if |ps| > 1 {
      TilesOrder(ps[1..], ps[0].end, b, if 1 < j < |ps| then j - 1 else 0, |ps| - 1);
    }
  }

  lemma {:induction false} TilesOneRound(pos: nat, tag: Piece)
    requires pos <= tag.start < tag.end
    ensures Tiles(Round(pos, tag), pos, tag.end)
  {
    var ps := Round(pos, tag);
    if pos != tag.start {
      assert ps[1..] == [tag];
    }
    assert [tag][1..] == [];
  }

  /** Whatever scans at all is cut into pieces that tile the input. */
  lemma {:induction false} ScanTiles(input: string, pos: nat, d: Delims)
    requires pos <= |input| && ValidDelims(d)
    ensures Scan(input, pos, d).Pieces? ==> Tiles(Scan(input, pos, d).ps, pos, |input|)
    decreases |input| - pos
  {
    if pos < |input| && NextTag(input, pos, d).Some? {
      var t := NextTag(input, pos, d).value;
      if t.Tagged? {
        ScanTiles(input, t.tag.end, t.next);
        TilesOneRound(pos, t.tag);
        if Scan(input, t.tag.end, t.next).Pieces? {
          TilesConcat(Round(pos, t.tag), Scan(input, t.tag.end, t.next).ps, pos, t.tag.end, |input|);
        }
      }
    }
  }

  /** The delimiters in force after some pieces: those of the last set-delimiter tag among them. */
  function DelimsAfter(ps: seq<Piece>, d: Delims): (r: Delims) {
    if ps == [] then d
    else
      var p := ps[|ps| - 1];
      if p.Tag? && p.delims.Some? then p.delims.value else DelimsAfter(ps[..|ps| - 1], d)
  }

  /** What has been cut off and where the scanner stands. */
  datatype Progress = Progress(ps: seq<Piece>, pos: nat, d: Delims)

  /** What the scanner finds at a position under some delimiters. */
  type Reader = (nat, Delims) -> Option<TagScan>

  function TagReader(input: string): (next: Reader) {
    (pos: nat, d: Delims) => if pos < |input| && ValidDelims(d) then NextTag(input, pos, d) else None
  }

  /** The first `n` rounds from `pos`, each ending with a tag. */
  function Rounds(next: Reader, pos: nat, d: Delims, n: nat): (r: Option<Progress>)
    decreases n
  {
    if n == 0 then Some(Progress([], pos, d))
    else
      var t := next(pos, d);
      if t.None? || t.value.BadTag? then None
      else
        var rest := Rounds(next, t.value.tag.end, t.value.next, n - 1);
        if rest.None? then None
        else Some(rest.value.(ps := Round(pos, t.value.tag) + rest.value.ps))
  }

  ghost predicate Unfolds(next: Reader, scan: (nat, Delims) -> ScanResult) {
    forall pos: nat, d, t :: next(pos, d) == Some(t) && t.Tagged? ==>
      scan(pos, d) == Prepend(Round(pos, t.tag), scan(t.tag.end, t.next)) && DelimsAfter(Round(pos, t.tag), d) == t.next
  }

  lemma {:induction false} RoundsResume(next: Reader, scan: (nat, Delims) -> ScanResult, pos: nat, d: Delims, n: nat, g: Progress)
    requires Unfolds(next, scan) && Rounds(next, pos, d, n) == Some(g)
    ensures scan(pos, d) == Prepend(g.ps, scan(g.pos, g.d)) && g.d == DelimsAfter(g.ps, d)
    decreases n
  {
    if n == 0 {
      PrependNothing(scan(pos, d));
    } else {
      var t := next(pos, d).value;
      var rest := Rounds(next, t.tag.end, t.next, n - 1).value;
      RoundsResume(next, scan, t.tag.end, t.next, n - 1, rest);
      PrependPrepend(Round(pos, t.tag), rest.ps, scan(g.pos, g.d));
      DelimsAfterConcat(Round(pos, t.tag), rest.ps, d);
    }
  }

  function Scanner(input: string): (scan: (nat, Delims) -> ScanResult) {
    (pos: nat, d: Delims) => if pos <= |input| && ValidDelims(d) then Scan(input, pos, d) else Pieces([])
  }

  lemma {:induction false} ScannerUnfolds(input: string)
    ensures Unfolds(TagReader(input), Scanner(input))
  {
    forall pos: nat, d, t | TagReader(input)(pos, d) == Some(t) && t.Tagged?
      ensures Scanner(input)(pos, d) == Prepend(Round(pos, t.tag), Scanner(input)(t.tag.end, t.next))
      ensures DelimsAfter(Round(pos, t.tag), d) == t.next
    {
      DelimsAfterRound(input, pos, d, t);
    }
  }

  ghost predicate Advances(next: Reader, size: nat) {
    forall pos: nat, d, t :: next(pos, d) == Some(t) && t.Tagged? ==> pos <= t.tag.end <= size && ValidDelims(t.next)
  }

  lemma {:induction false} RoundsStayInside(next: Reader, size: nat, pos: nat, d: Delims, n: nat, g: Progress)
    requires Advances(next, size) && pos <= size && ValidDelims(d) && Rounds(next, pos, d, n) == Some(g)
    ensures pos <= g.pos <= size && ValidDelims(g.d)
    decreases n
  {
    if n > 0 {
      var t := next(pos, d).value;
      RoundsStayInside(next, size, t.tag.end, t.next, n - 1, Rounds(next, t.tag.end, t.next, n - 1).value);
    }
  }

  /** After any number of rounds the scan goes on as a fresh scan of the rest under the delimiters last set. */
  lemma {:induction false} ScanResumes(input: string, pos: nat, d: Delims, n: nat, g: Progress)
    requires pos <= |input| && ValidDelims(d) && Rounds(TagReader(input), pos, d, n) == Some(g)
    ensures pos <= g.pos <= |input| && ValidDelims(g.d) && g.d == DelimsAfter(g.ps, d)
    ensures Scan(input, pos, d) == Prepend(g.ps, Scan(input, g.pos, g.d))
  {
    RoundsStayInside(TagReader(input), |input|, pos, d, n, g);
    ScannerUnfolds(input);
    RoundsResume(TagReader(input), Scanner(input), pos, d, n, g);
    assert Scanner(input)(pos, d) == Scan(input, pos, d) && Scanner(input)(g.pos, g.d) == Scan(input, g.pos, g.d);
  }

  lemma {:induction false} PrependNothing(r: ScanResult)
    ensures Prepend([], r) == r
  {
  }

  lemma {:induction false} DelimsAfterRound(input: string, pos: nat, d: Delims, t: TagScan)
    requires pos <= |input| && ValidDelims(d) && NextTag(input, pos, d) == Some(t) && t.Tagged?
    ensures DelimsAfter(Round(pos, t.tag), d) == t.next
  {
    var ps := Round(pos, t.tag);
    assert ps[..|ps| - 1] == TextBefore(pos, t.tag.start);
    assert [Text(pos, t.tag.start)][..0] == [];
    assert DelimsAfter(TextBefore(pos, t.tag.start), d) == d;
    assert t.next == if t.tag.delims.Some? then t.tag.delims.value else d;
  }

  lemma {:induction false} DelimsAfterConcat(ps: seq<Piece>, qs: seq<Piece>, d: Delims)
    ensures DelimsAfter(ps + qs, d) == DelimsAfter(qs, DelimsAfter(ps, d))
    decreases |qs|
  {
    if qs == [] {
      assert ps + qs == ps;
    } else {
      assert (ps + qs)[..|ps + qs| - 1] == ps + qs[..|qs| - 1];
      DelimsAfterConcat(ps, qs[..|qs| - 1], d);
    }
  }

  /** `other` finds every tag that `next` finds and that ends by `e`. */
  ghost predicate FollowsUpTo(next: Reader, other: Reader, e: nat) {
    forall pos: nat, d, t :: next(pos, d) == Some(t) && t.Tagged? && t.tag.end <= e ==> other(pos, d) == Some(t)
  }

  lemma {:induction false} RoundsFollow(next: Reader, size: nat, other: Reader, pos: nat, d: Delims, n: nat, g: Progress)
    requires Advances(next, size) && pos <= size && ValidDelims(d) && FollowsUpTo(next, other, g.pos) && Rounds(next, pos, d, n) == Some(g)
    ensures Rounds(other, pos, d, n) == Some(g)
    decreases n
  {
    if n > 0 {
      var t := next(pos, d).value;
      var rest := Rounds(next, t.tag.end, t.next, n - 1).value;
      RoundsStayInside(next, size, t.tag.end, t.next, n - 1, rest);
      RoundsFollow(next, size, other, t.tag.end, t.next, n - 1, rest);
    }
  }

  /** The pieces up to a tag, and the delimiters it leaves, depend on nothing after that tag: any input
      with the same text up to there is cut in the same way and goes on with the same delimiters. */
  lemma {:induction false} ScanPrefixStable(input: string, other: string, pos: nat, d: Delims, n: nat, g: Progress)
    requires pos <= |input| && ValidDelims(d) && Rounds(TagReader(input), pos, d, n) == Some(g)
    requires g.pos <= |input| && g.pos <= |other| && input[..g.pos] == other[..g.pos]
    ensures Rounds(TagReader(other), pos, d, n) == Some(g)
  {
    forall pos: nat, d, t | TagReader(input)(pos, d) == Some(t) && t.Tagged? && t.tag.end <= g.pos
      ensures TagReader(other)(pos, d) == Some(t)
    {
      NextTagLocal(input, other, pos, d, g.pos, t);
    }
    RoundsFollow(TagReader(input), |input|, TagReader(other), pos, d, n, g);
  }

  lemma {:induction false} NextTagLocal(input: string, other: string, pos: nat, d: Delims, e: nat, t: TagScan)
    requires pos <= e <= |input| && e <= |other| && input[..e] == other[..e] && ValidDelims(d)
    requires NextTag(input, pos, d) == Some(t) && t.Tagged? && t.tag.end <= e
    ensures NextTag(other, pos, d) == Some(t)
  {
    FindLocal(input, other, d.begin, pos, e);
    ScanTagLocal(input, other, Find(input, d.begin, pos).value, d, e, t);
  }
}
