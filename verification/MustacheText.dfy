/** String primitives of the mustache engine: searching, trimming, splitting and HTML escaping. */
module MustacheText {
  import opened Wrappers

  /** `isspace` in the "C" locale: blank and the five control characters 9..13. */
  predicate IsSpace(c: char) {
    c == ' ' || 9 as char <= c <= 13 as char
  }

  // ---------- std::string::find ----------

  predicate OccursAt(s: string, pat: string, k: nat) {
    k + |pat| <= |s| && s[k..k + |pat|] == pat
  }

  /** The first occurrence of `pat` at or after `from`. */
  function Find(s: string, pat: string, from: nat): (r: Option<nat>)
    requires from <= |s|
    ensures r.Some? ==> from <= r.value && OccursAt(s, pat, r.value)
    ensures r.Some? ==> forall k :: from <= k < r.value ==> !OccursAt(s, pat, k)
    ensures r.None? ==> forall k :: from <= k <= |s| ==> !OccursAt(s, pat, k)
    decreases |s| - from
  {
    if OccursAt(s, pat, from) then Some(from)
    else if from == |s| then None
    else Find(s, pat, from + 1)
  }

  lemma {:induction false} SliceLocal(s: string, t: string, e: nat, i: nat, j: nat)
    requires i <= j <= e <= |s| && e <= |t| && s[..e] == t[..e]
    ensures s[i..j] == t[i..j]
  {
    forall k | 0 <= k < j - i ensures s[i..j][k] == t[i..j][k] {
      assert s[i + k] == s[..e][i + k] == t[..e][i + k] == t[i + k];
    }
  }

  lemma {:induction false} OccursLocal(s: string, t: string, pat: string, k: nat, e: nat)
    requires e <= |s| && e <= |t| && s[..e] == t[..e] && k + |pat| <= e
    ensures OccursAt(s, pat, k) <==> OccursAt(t, pat, k)
  {
    SliceLocal(s, t, e, k, k + |pat|);
  }

  /** What `find` returns depends only on the text up to the end of the match. */
  lemma {:induction false} FindLocal(s: string, t: string, pat: string, from: nat, e: nat)
    requires from <= e <= |s| && e <= |t| && s[..e] == t[..e]
    requires Find(s, pat, from).Some? && Find(s, pat, from).value + |pat| <= e
    ensures Find(t, pat, from) == Find(s, pat, from)
    decreases |s| - from
  {
    OccursLocal(s, t, pat, from, e);
    if !OccursAt(s, pat, from) {
      FindLocal(s, t, pat, from + 1, e);
    }
  }

  // ---------- trim ----------

  function SkipSpaces(s: string, i: nat): (r: nat)
    requires i <= |s|
    ensures i <= r <= |s|
    ensures r < |s| ==> !IsSpace(s[r])
    decreases |s| - i
  {
    if i < |s| && IsSpace(s[i]) then SkipSpaces(s, i + 1) else i
  }

  function DropSpaces(s: string, lo: nat, j: nat): (r: nat)
    requires lo <= j <= |s|
    ensures lo <= r <= j
    ensures lo < r ==> !IsSpace(s[r - 1])
    decreases j
  {
    if lo < j && IsSpace(s[j - 1]) then DropSpaces(s, lo, j - 1) else j
  }

  lemma {:induction false} SkippedAreSpaces(s: string, i: nat)
    requires i <= |s|
    ensures forall k :: i <= k < SkipSpaces(s, i) ==> IsSpace(s[k])
    decreases |s| - i
  {
    if i < |s| && IsSpace(s[i]) { SkippedAreSpaces(s, i + 1); }
  }

  lemma {:induction false} DroppedAreSpaces(s: string, lo: nat, j: nat)
    requires lo <= j <= |s|
    ensures forall k :: DropSpaces(s, lo, j) <= k < j ==> IsSpace(s[k])
    decreases j
  {
    if lo < j && IsSpace(s[j - 1]) { DroppedAreSpaces(s, lo, j - 1); }
  }

  function Trim(s: string): (r: string)
    ensures r != [] ==> !IsSpace(r[0]) && !IsSpace(r[|r| - 1])
    ensures |r| <= |s|
  {
    var i := SkipSpaces(s, 0);
    s[i..DropSpaces(s, i, |s|)]
  }

  /** `r` is the one substring that drops only spaces and has no space at either end. */
  lemma {:induction false} TrimIsUnique(s: string, i: nat, j: nat)
    requires i < j <= |s|
    requires !IsSpace(s[i]) && !IsSpace(s[j - 1])
    requires forall k :: 0 <= k < i ==> IsSpace(s[k])
    requires forall k :: j <= k < |s| ==> IsSpace(s[k])
    ensures Trim(s) == s[i..j]
  {
    var lo := SkipSpaces(s, 0);
    SkippedAreSpaces(s, 0);
    assert lo == i;
    var hi := DropSpaces(s, lo, |s|);
    DroppedAreSpaces(s, lo, |s|);
    assert hi == j;
  }

  method TrimLoop(s: string) returns (r: string)
    ensures r == Trim(s)
  {
    var it := 0;
    while it != |s| && IsSpace(s[it])
      invariant it <= |s|
      invariant SkipSpaces(s, it) == SkipSpaces(s, 0)
    {
      it := it + 1;
    }
    var rit := |s|;
    while rit != it && IsSpace(s[rit - 1])
      invariant it <= rit <= |s|
      invariant DropSpaces(s, it, rit) == DropSpaces(s, it, |s|)
    {
      rit := rit - 1;
    }
    r := s[it..rit];
  }

  // ---------- html_escape ----------

  function Entity(c: char): (r: string)
    ensures r != []
  {
    if c == '&' then "&amp;"
    else if c == '<' then "&lt;"
    else if c == '>' then "&gt;"
    else if c == '\"' then "&quot;"
    else if c == '\'' then "&apos;"
    else [c]
  }

  function HtmlEscape(s: string): (r: string) {
    if s == [] then [] else Entity(s[0]) + HtmlEscape(s[1..])
  }

  method HtmlEscapeLoop(s: string) returns (r: string)
    ensures r == HtmlEscape(s)
  {
    r := "";
    assert s[0..] == s;
    for i := 0 to |s|
      invariant r + HtmlEscape(s[i..]) == HtmlEscape(s)
    {
      assert s[i..][1..] == s[i + 1..];
      r := r + Entity(s[i]);
    }
  }

  /** The reference at the head of `t`: its character and length; a lone markup character is an error. */
  function Reference(t: string): (r: Option<(char, nat)>)
    requires t != []
    ensures r.Some? ==> 1 <= r.value.1 <= |t|
  {
    if t[0] in "<>\"\'" then None
    else if t[0] != '&' then Some((t[0], 1))
    else if Entity('&') <= t then Some(('&', 5))
    else if Entity('<') <= t then Some(('<', 4))
    else if Entity('>') <= t then Some(('>', 4))
    else if Entity('\"') <= t then Some(('\"', 6))
    else if Entity('\'') <= t then Some(('\'', 6))
    else None
  }

  /** A reader of the predefined entities; it fails on any other use of a markup character. */
  function HtmlDecode(t: string): (r: Option<string>)
    decreases |t|
  {
    if t == [] then Some([])
    else
      var head := Reference(t);
      if head.None? then None
      else
        var tail := HtmlDecode(t[head.value.1..]);
        if tail.None? then None else Some([head.value.0] + tail.value)
  }

  /** Escaping is undone by the reader, so it is injective and leaves no raw markup character. */
  lemma {:induction false} HtmlEscapeRoundTrip(s: string)
    ensures HtmlDecode(HtmlEscape(s)) == Some(s)
  {
    if s != [] {
      HtmlEscapeRoundTrip(s[1..]);
      DecodeEntity(s[0], HtmlEscape(s[1..]));
      assert s == [s[0]] + s[1..];
    }
  }

  lemma {:induction false} ReferenceOfEntity(c: char, rest: string)
    ensures Reference(Entity(c) + rest) == Some((c, |Entity(c)|))
  {
    var e := Entity(c);
    var t := e + rest;
    assert e <= t;
    assert t[0] == e[0];
    if c in "&<>\"\'" {
      assert t[1] == e[1] && t[2] == e[2];
    }
  }

  lemma {:induction false} DecodeEntity(c: char, rest: string)
    requires HtmlDecode(rest).Some?
    ensures HtmlDecode(Entity(c) + rest) == Some([c] + HtmlDecode(rest).value)
  {
    ReferenceOfEntity(c, rest);
    assert (Entity(c) + rest)[|Entity(c)|..] == rest;
  }

  lemma {:induction false} EntityInside(c: char, k: nat)
    requires k < |Entity(c)|
    ensures Entity(c)[k] !in "<>\"\'" && (k > 0 ==> Entity(c)[k] != '&')
  {
  }

  /** No markup character is left, and every ampersand starts an entity reference. */
  lemma {:induction false} HtmlEscapeHasNoMarkup(s: string, k: nat)
    requires k < |HtmlEscape(s)|
    ensures HtmlEscape(s)[k] !in "<>\"\'" && Reference(HtmlEscape(s)[k..]).Some?
    decreases |s|
  {
    var e, rest := Entity(s[0]), HtmlEscape(s[1..]);
    var t := e + rest;
    if k < |e| {
      EntityInside(s[0], k);
      assert t[k] == e[k] == t[k..][0];
      if k == 0 {
        ReferenceOfEntity(s[0], rest);
        assert t[0..] == t;
      }
    } else {
      HtmlEscapeHasNoMarkup(s[1..], k - |e|);
      assert t[k..] == rest[k - |e|..];
    }
  }

  // ---------- split (std::getline over a stringstream) ----------

  function IndexOf(s: string, d: char, i: nat): (r: nat)
    requires i <= |s|
    ensures i <= r <= |s| && (r < |s| ==> s[r] == d) && d !in s[i..r]
    decreases |s| - i
  {
    if i < |s| && s[i] != d then IndexOf(s, d, i + 1) else i
  }

  /** The source reads items until the stream is exhausted, so an empty last item is dropped. */
  function Split(s: string, d: char): (r: seq<string>)
    ensures s == [] <==> r == []
    decreases |s|
  {
    if s == [] then []
    else
      var e := IndexOf(s, d, 0);
      if e == |s| then [s] else [s[..e]] + Split(s[e + 1..], d)
  }

  function Join(parts: seq<string>, d: char): (r: string) {
    if parts == [] then [] else if |parts| == 1 then parts[0] else parts[0] + [d] + Join(parts[1..], d)
  }

  /** Splitting loses nothing but one trailing separator, and no item contains the separator. */
  lemma {:induction false} SplitJoin(s: string, d: char)
    ensures s != [] ==> s == if s[|s| - 1] == d then Join(Split(s, d), d) + [d] else Join(Split(s, d), d)
    ensures forall p :: p in Split(s, d) ==> d !in p
    decreases |s|
  {
    if s != [] {
      var e := IndexOf(s, d, 0);
      assert s[..e] == s[0..e];
      if e == |s| {
        assert s == s[0..e];
      } else {
        var rest := s[e + 1..];
        assert s == s[..e] + [d] + rest;
        SplitJoin(rest, d);
        assert Split(s, d)[1..] == Split(rest, d);
        if rest == [] {
          assert Split(s, d) == [s[..e]];
        } else {
          assert s[|s| - 1] == rest[|rest| - 1];
        }
      }
    }
  }

  lemma {:induction false} IndexOfShift(s: string, d: char, pos: nat, i: nat)
    requires pos <= i <= |s|
    ensures IndexOf(s[pos..], d, i - pos) == IndexOf(s, d, i) - pos
    decreases |s| - i
  {
    if i < |s| && s[i] != d {
      IndexOfShift(s, d, pos, i + 1);
    }
  }

  method ElementEnd(s: string, d: char, pos: nat) returns (e: nat)
    requires pos <= |s|
    ensures pos <= e == IndexOf(s, d, pos) <= |s|
  {
    e := pos;
    while e < |s| && s[e] != d
      invariant pos <= e <= |s|
      invariant IndexOf(s, d, e) == IndexOf(s, d, pos)
    {
      e := e + 1;
    }
  }

  method SplitLoop(s: string, d: char) returns (elems: seq<string>)
    ensures elems == Split(s, d)
  {
    elems := [];
    var pos := 0;
    ghost var whole := Split(s, d);
    assert s[0..] == s;
    while pos < |s|
      invariant pos <= |s|
      invariant elems + Split(s[pos..], d) == whole
    {
      var e := ElementEnd(s, d, pos);
      IndexOfShift(s, d, pos, pos);
      SplitHead(s, d, pos, e);
      ConcatOne(elems, s[pos..e], Split(s[if e < |s| then e + 1 else e..], d));
      elems := elems + [s[pos..e]];
      pos := if e < |s| then e + 1 else e;
    }
  }

  lemma {:induction false} ConcatOne(elems: seq<string>, x: string, rest: seq<string>)
    ensures elems + ([x] + rest) == elems + [x] + rest
  {
  }

  lemma {:induction false} SplitHead(s: string, d: char, pos: nat, e: nat)
    requires pos < |s| && e <= |s| && pos <= e && IndexOf(s[pos..], d, 0) == e - pos
    ensures Split(s[pos..], d) == [s[pos..e]] + Split(s[if e < |s| then e + 1 else e..], d)
  {
    assert s[pos..][..e - pos] == s[pos..e];
    if e < |s| {
      assert s[pos..][e - pos + 1..] == s[e + 1..];
    } else {
      assert s[pos..e] == s[pos..];
    }
  }
}
