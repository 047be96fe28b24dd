/** Texts: ASCII letter case, white space, texts within texts, and the parts between separators. */
module Texts {
  function LowerChar(c: char): char {
    if 'A' <= c <= 'Z' then c - 'A' + 'a' else c
  }

  function Lower(s: string): (r: string)
    ensures |r| == |s|
  {
    seq(|s|, i requires 0 <= i < |s| => LowerChar(s[i]))
  }

  /** The `White_Space` property of Unicode. */
  predicate IsWhite(c: char) {
    || c == ' ' || '\t' <= c <= '\r' || c == '\U{85}' || c == '\U{A0}' || c == '\U{1680}'
    || '\U{2000}' <= c <= '\U{200A}' || c == '\U{2028}' || c == '\U{2029}' || c == '\U{202F}'
    || c == '\U{205F}' || c == '\U{3000}'
  }

  /** There are twenty-five of them. */
  lemma WhiteSpace(c: char)
    ensures IsWhite(c) <==> c in "\t\n\U{B}\U{C}\r \U{85}\U{A0}\U{1680}" + WideSpaces() + "\U{2028}\U{2029}\U{202F}\U{205F}\U{3000}"
    ensures |WideSpaces()| == 11
  {
    var wide := WideSpaces();
    if '\U{2000}' <= c <= '\U{200A}' {
      assert wide[(c - '\U{2000}') as int] == c;
    }
  }

  function WideSpaces(): string {
    "\U{2000}\U{2001}\U{2002}\U{2003}\U{2004}\U{2005}\U{2006}\U{2007}\U{2008}\U{2009}\U{200A}"
  }

  predicate IsBlank(s: string) {
    forall i :: 0 <= i < |s| ==> IsWhite(s[i])
  }

  lemma BlankMeans(s: string)
    ensures IsBlank(s) <==> !exists c :: c in s && !IsWhite(c)
  {
    if !IsBlank(s) {
      var i :| 0 <= i < |s| && !IsWhite(s[i]);
      assert s[i] in s;
    }
  }

  predicate Contains(s: string, part: string) {
    part <= s || (s != "" && Contains(s[1..], part))
  }

  lemma {:induction false} ContainsMeans(s: string, part: string)
    ensures Contains(s, part) <==> exists before, after :: s == before + part + after
  {
    if part <= s {
      assert s == "" + part + s[|part|..];
    } else if s != "" {
      ContainsMeans(s[1..], part);
      if before, after :| s[1..] == before + part + after {
        assert s == ([s[0]] + before) + part + after;
      }
      if before, after :| s == before + part + after {
        assert before == "" ==> part + after == s && part <= s;
        assert s[1..] == before[1..] + part + after;
      }
    }
  }

  /** Equal up to ASCII letter case. */
  predicate SameIgnoringCase(a: string, b: string) {
    Lower(a) == Lower(b)
  }

  /** The parts of a text between separators; there is always one more part than separators. */
  function SplitOn(seps: set<char>, s: string): (parts: seq<string>)
    ensures parts != []
  {
    if s == "" then [""]
    else
      var rest := SplitOn(seps, s[1..]);
      if s[0] in seps then [""] + rest else [[s[0]] + rest[0]] + rest[1..]
  }
}
