/** Quoting of SQL string literals. */
module SqlQuoting {
  import opened Wrappers

  const QUOTE := '\''

  function Doubled(s: string): (r: string) {
    if s == [] then []
    else (if s[0] == QUOTE then [QUOTE, QUOTE] else [s[0]]) + Doubled(s[1..])
  }

  lemma {:induction false} InsertQuote(text: string, i: nat, longer: string)
    requires i < |text| && text[i] == QUOTE && longer == text[..i] + [QUOTE] + text[i..]
    ensures longer[..i + 2] == text[..i] + [QUOTE, QUOTE] && longer[i + 2..] == text[i + 1..]
  {
  }

  lemma {:induction false} DoubledRest(done: string, rest: string, whole: string)
    requires rest != [] && done + Doubled(rest) == whole
    ensures done + (if rest[0] == QUOTE then [QUOTE, QUOTE] else [rest[0]]) + Doubled(rest[1..]) == whole
  {
  }

  /** `escape`: the quotes are inserted into the text being scanned, so its length grows while the index
      moves; what remains to be scanned still shrinks. */
  method Escape(s: string) returns (text: string)
    ensures text == Doubled(s)
  {
    text := s;
    var i := 0;
    ghost var whole := Doubled(s);
    while i < |text|
      invariant i <= |text| && text[..i] + Doubled(text[i..]) == whole
      decreases |text| - i
    {
      DoubledRest(text[..i], text[i..], whole);
      assert text[i..][1..] == text[i + 1..];
      if text[i] == QUOTE {
        InsertQuote(text, i, text[..i] + [QUOTE] + text[i..]);
        text := text[..i] + [QUOTE] + text[i..];
        i := i + 2;
      } else {
        assert text[..i] + [text[i]] == text[..i + 1];
        i := i + 1;
      }
    }
    assert text[..i] == text && text[i..] == [];
  }

  /** A reader of one character string literal, section 5.3 of SQL-92: two quotes stand for one, a single
      quote ends the literal. Returns the value and the text after the literal. */
  function ReadBody(t: string): (r: Option<(string, string)>) {
    if t == [] then None
    else if t[0] != QUOTE then
      var r := ReadBody(t[1..]);
      if r.None? then None else Some(([t[0]] + r.value.0, r.value.1))
    else if |t| > 1 && t[1] == QUOTE then
      var r := ReadBody(t[2..]);
      if r.None? then None else Some(([QUOTE] + r.value.0, r.value.1))
    else Some(([], t[1..]))
  }

  function ReadLiteral(t: string): (r: Option<(string, string)>) {
    if t == [] || t[0] != QUOTE then None else ReadBody(t[1..])
  }

  lemma {:induction false} BodyRoundTrip(s: string, rest: string)
    requires rest == [] || rest[0] != QUOTE
    ensures ReadBody(Doubled(s) + [QUOTE] + rest) == Some((s, rest))
  {
    var t := Doubled(s) + [QUOTE] + rest;
    if s == [] {
      assert t == [QUOTE] + rest;
      assert t[1..] == rest;
    } else {
      BodyRoundTrip(s[1..], rest);
      var tail := Doubled(s[1..]) + [QUOTE] + rest;
      if s[0] == QUOTE {
        assert t == [QUOTE, QUOTE] + tail;
        assert t[2..] == tail;
      } else {
        assert t == [s[0]] + tail;
        assert t[1..] == tail;
      }
      assert s == [s[0]] + s[1..];
    }
  }

  /** An escaped text between quotes is one literal with the original text, whatever follows it. */
  lemma {:induction false} LiteralRoundTrip(s: string, rest: string)
    requires rest == [] || rest[0] != QUOTE
    ensures ReadLiteral([QUOTE] + Doubled(s) + [QUOTE] + rest) == Some((s, rest))
  {
    var t := [QUOTE] + Doubled(s) + [QUOTE] + rest;
    assert t[0] == QUOTE && t[1..] == Doubled(s) + [QUOTE] + rest;
    BodyRoundTrip(s, rest);
  }

  /** Without escaping the text is read back exactly when it contains no quote. */
  lemma {:induction false} UnescapedRoundTrip(s: string)
    ensures ReadLiteral([QUOTE] + s + [QUOTE]) == Some((s, [])) <==> QUOTE !in s
  {
    var t := s + [QUOTE];
    assert ([QUOTE] + s + [QUOTE])[1..] == t;
    if QUOTE !in s {
      DoubledIsSame(s);
      BodyRoundTrip(s, []);
      assert Doubled(s) + [QUOTE] + [] == t;
    } else {
      ReadShrinks(s);
    }
  }

  lemma {:induction false} DoubledIsSame(s: string)
    requires QUOTE !in s
    ensures Doubled(s) == s
  {
    if s != [] { DoubledIsSame(s[1..]); }
  }

  lemma {:induction false} ReadShrinks(s: string)
    requires QUOTE in s
    ensures ReadBody(s + [QUOTE]) != Some((s, []))
    decreases |s|
  {
    var t := s + [QUOTE];
    if s[0] != QUOTE {
      assert t[1..] == s[1..] + [QUOTE];
      ReadShrinks(s[1..]);
      assert s == [s[0]] + s[1..];
    } else if |t| > 1 && t[1] == QUOTE {
      ReadLength(t[2..]);
    }
  }

  lemma {:induction false} ReadLength(t: string)
    ensures ReadBody(t).Some? ==> |ReadBody(t).value.0| + |ReadBody(t).value.1| < |t|
    decreases |t|
  {
    if t != [] {
      if t[0] != QUOTE { ReadLength(t[1..]); }
      else if |t| > 1 && t[1] == QUOTE { ReadLength(t[2..]); }
    }
  }
}
