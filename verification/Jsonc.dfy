/**
  The two passes that turn JSON with comments into JSON: the first removes line
  and block comments outside strings, the second drops trailing commas.
 */
module Jsonc {

  // ----- The comment pass as an automaton ------------------------------------------

  /** What a reader knows after each character; `Slash` holds back a `/` until the next one is seen. */
  datatype Mode = Code | Slash | Str | StrEscape | Line | Block | BlockStar

  predicate IsNewline(c: char) {
    c == '\r' || c == '\n'
  }

  /** Reading `c` in code, with nothing held back. */
  function FromCode(c: char): (Mode, string) {
    if c == '"' then (Str, [c])
    else if c == '/' then (Slash, [])
    else (Code, [c])
  }

  /** One character: the next mode and the characters let through. */
  function Feed(m: Mode, c: char): (Mode, string) {
    match m
    case Code => FromCode(c)
    case Slash =>
      if c == '/' then (Line, [])
      else if c == '*' then (Block, [])
      else (FromCode(c).0, ['/'] + FromCode(c).1)
    case Str => (if c == '\\' then StrEscape else if c == '"' then Code else Str, [c])
    case StrEscape => (Str, [c])
    case Line => if IsNewline(c) then (Code, [c]) else (Line, [])
    case Block => (if c == '*' then BlockStar else Block, [])
    case BlockStar => (if c == '/' then Code else if c == '*' then BlockStar else Block, [])
  }

  function ModeAfter(m: Mode, text: string): Mode
    decreases |text|
  {
    if text == "" then m else ModeAfter(Feed(m, text[0]).0, text[1..])
  }

  /** Everything let through, without a `/` held back at the end. */
  function Passed(m: Mode, text: string): string
    decreases |text|
  {
    if text == "" then "" else Feed(m, text[0]).1 + Passed(Feed(m, text[0]).0, text[1..])
  }

  function HeldBack(m: Mode): string {
    if m == Slash then "/" else ""
  }

  /** The result of the comment pass on `text`, read from mode `m`. */
  function Strip(m: Mode, text: string): string {
    Passed(m, text) + HeldBack(ModeAfter(m, text))
  }

  lemma {:induction false} Split(m: Mode, a: string, b: string)
    ensures ModeAfter(m, a + b) == ModeAfter(ModeAfter(m, a), b)
    ensures Passed(m, a + b) == Passed(m, a) + Passed(ModeAfter(m, a), b)
    decreases |a|
  {
    if a == "" {
      assert a + b == b;
    } else {
      assert (a + b)[1..] == a[1..] + b;
      var (next, piece) := Feed(m, a[0]);
      Split(next, a[1..], b);
      assert piece + (Passed(next, a[1..]) + Passed(ModeAfter(m, a), b)) == Passed(m, a) + Passed(ModeAfter(m, a), b);
    }
  }

  lemma StripSplit(m: Mode, a: string, b: string)
    ensures Strip(m, a + b) == Passed(m, a) + Strip(ModeAfter(m, a), b)
  {
    Split(m, a, b);
  }

  // ----- The pass as written: an index with one character of look-ahead ---------------

  lemma StripStep(m: Mode, text: string, i: nat)
    requires i < |text|
    ensures Strip(m, text[i..]) == Feed(m, text[i]).1 + Strip(Feed(m, text[i]).0, text[i + 1..])
  {
    var s := text[i..];
    assert s[0] == text[i] && s[1..] == text[i + 1..];
    assert s == [s[0]] + s[1..];
  }

  /** Skips to the newline that ends a line comment. */
  method SkipLine(text: string, from: nat) returns (i: nat)
    requires from <= |text|
    ensures from <= i <= |text|
    ensures Strip(Line, text[from..]) == Strip(Code, text[i..])
  {
    i := from;
    while i < |text| && !IsNewline(text[i])
      invariant from <= i <= |text|
      invariant Strip(Line, text[from..]) == Strip(Line, text[i..])
    {
      StripStep(Line, text, i);
      i := i + 1;
    }
    if i < |text| {
      StripStep(Line, text, i);
      StripStep(Code, text, i);
    }
  }

  /** Inside a block comment a character is skipped unless the comment ends there. */
  lemma BlockGoesOn(text: string, i: nat)
    requires i + 1 < |text| && !(text[i] == '*' && text[i + 1] == '/')
    ensures Strip(Block, text[i..]) == Strip(Block, text[i + 1..])
  {
    StripStep(Block, text, i);
    if text[i] == '*' {
      StripStep(BlockStar, text, i + 1);
      StripStep(Block, text, i + 1);
    }
  }

  /** The last two characters a block comment reads, if there are two. */
  lemma BlockEnds(text: string, i: nat)
    requires i <= |text| && (i + 1 < |text| ==> text[i] == '*' && text[i + 1] == '/')
    ensures Strip(Block, text[i..]) == StripFrom(Code, text, i + 2)
  {
    if i < |text| {
      StripStep(Block, text, i);
      if i + 1 < |text| {
        StripStep(BlockStar, text, i + 1);
      }
    }
  }

  /** Skips past the `*` and `/` that end a block comment; the index runs over the end if there is none. */
  method SkipBlock(text: string, from: nat) returns (i: nat)
    requires from <= |text|
    ensures from <= i
    ensures Strip(Block, text[from..]) == StripFrom(Code, text, i)
  {
    i := from;
    while i + 1 < |text| && !(text[i] == '*' && text[i + 1] == '/')
      invariant from <= i <= |text|
      invariant Strip(Block, text[from..]) == Strip(Block, text[i..])
    {
      BlockGoesOn(text, i);
      i := i + 1;
    }
    BlockEnds(text, i);
    i := i + 2;
  }

  /** What is still to come when the index stands at `i`. */
  function StripFrom(m: Mode, text: string, i: nat): string {
    if i <= |text| then Strip(m, text[i..]) else ""
  }

  function StringMode(inStr: bool, esc: bool): Mode {
    if !inStr then Code else if esc then StrEscape else Str
  }

  lemma CommentStarts(text: string, at: nat)
    requires at + 1 < |text| && text[at] == '/' && (text[at + 1] == '/' || text[at + 1] == '*')
    ensures Strip(Code, text[at..]) == Strip(if text[at + 1] == '/' then Line else Block, text[at + 2..])
  {
    StripStep(Code, text, at);
    StripStep(Slash, text, at + 1);
  }

  lemma SlashIsKept(text: string, at: nat)
    requires at < |text| && text[at] == '/' && (at + 1 < |text| ==> text[at + 1] != '/' && text[at + 1] != '*')
    ensures Strip(Code, text[at..]) == ['/'] + Strip(Code, text[at + 1..])
  {
    StripStep(Code, text, at);
    if at + 1 < |text| {
      StripStep(Slash, text, at + 1);
      StripStep(Code, text, at + 1);
    }
  }

  /** One round of the main loop in code: a quote, a comment, or a character that is kept. */
  method ReadCode(text: string, at: nat) returns (i: nat, inStr: bool, kept: string)
    requires at < |text|
    ensures at < i
    ensures kept + StripFrom(StringMode(inStr, false), text, i) == Strip(Code, text[at..])
  {
    var ch := text[at];
    inStr, kept := false, "";
    if ch == '"' {
      StripStep(Code, text, at);
      return at + 1, true, [ch];
    }
    if ch == '/' && at + 1 < |text| && text[at + 1] == '/' {
      CommentStarts(text, at);
      i := SkipLine(text, at + 2);
      return;
    }
    if ch == '/' && at + 1 < |text| && text[at + 1] == '*' {
      CommentStarts(text, at);
      i := SkipBlock(text, at + 2);
      return;
    }
    if ch == '/' {
      SlashIsKept(text, at);
    } else {
      StripStep(Code, text, at);
    }
    return at + 1, false, [ch];
  }

  /** One round inside a string: the character is kept, escapes are tracked. */
  method ReadString(text: string, at: nat, escaped: bool) returns (inStr: bool, esc: bool, kept: string)
    requires at < |text|
    ensures esc ==> inStr
    ensures kept + StripFrom(StringMode(inStr, esc), text, at + 1) == Strip(StringMode(true, escaped), text[at..])
  {
    StripStep(StringMode(true, escaped), text, at);
    inStr, esc, kept := true, escaped, [text[at]];
    if esc {
      esc := false;
    } else if text[at] == '\\' {
      esc := true;
    } else if text[at] == '"' {
      inStr := false;
    }
  }

  method ReadNext(text: string, at: nat, wasInStr: bool, escaped: bool)
    returns (i: nat, inStr: bool, esc: bool, kept: string)
    requires at < |text| && (escaped ==> wasInStr)
    ensures at < i && (esc ==> inStr)
    ensures kept + StripFrom(StringMode(inStr, esc), text, i) == StripFrom(StringMode(wasInStr, escaped), text, at)
  {
    if wasInStr {
      inStr, esc, kept := ReadString(text, at, escaped);
      i := at + 1;
    } else {
      i, inStr, kept := ReadCode(text, at);
      esc := false;
    }
  }

  lemma NothingLeft(inStr: bool, esc: bool, text: string, i: nat)
    requires i >= |text|
    ensures StripFrom(StringMode(inStr, esc), text, i) == ""
  {
  }

  method StripComments(text: string) returns (out: string)
    ensures out == Strip(Code, text)
  {
    out := "";
    var i, inStr, esc := 0, false, false;
    ghost var rest := StripFrom(Code, text, 0);
    assert text[0..] == text;
    while i < |text|
      invariant esc ==> inStr
      invariant rest == StripFrom(StringMode(inStr, esc), text, i)
      invariant out + rest == Strip(Code, text)
    {
      var kept;
      i, inStr, esc, kept := ReadNext(text, i, inStr, esc);
      rest := StripFrom(StringMode(inStr, esc), text, i);
      assert (out + kept) + rest == out + (kept + rest);
      out := out + kept;
    }
    NothingLeft(inStr, esc, text, i);
  }

  // ----- Idempotence ------------------------------------------------------------------

  /** The mode a reader of the output is in. */
  function OutputMode(m: Mode): Mode {
    if m == Str || m == StrEscape then m else Code
  }

  /** What one character lets through is let through again unchanged. */
  lemma FeedStable(m: Mode, c: char)
    ensures var (next, piece) := Feed(m, c);
      ModeAfter(OutputMode(m), piece) == OutputMode(next) && Passed(OutputMode(m), piece) == piece
  {
    var (next, piece) := Feed(m, c);
    if |piece| == 2 {
      assert piece == ['/', c] && piece[1..] == [c] && [c][1..] == "";
      assert [c] == [[c][0]] + "" && ModeAfter(next, "") == next && Passed(next, "") == "";
      assert Passed(Slash, [c]) == Feed(Slash, c).1 + Passed(next, "");
      assert ModeAfter(Slash, [c]) == next && Passed(Slash, [c]) == piece;
      assert ModeAfter(Code, piece) == ModeAfter(Slash, [c]) && Passed(Code, piece) == Passed(Slash, [c]);
    } else if |piece| == 1 {
      assert piece[1..] == "";
    }
  }

  lemma {:induction false} PassedStable(m: Mode, text: string)
    ensures ModeAfter(OutputMode(m), Passed(m, text)) == OutputMode(ModeAfter(m, text))
    ensures Passed(OutputMode(m), Passed(m, text)) == Passed(m, text)
    decreases |text|
  {
    if text != "" {
      var (next, piece) := Feed(m, text[0]);
      FeedStable(m, text[0]);
      PassedStable(next, text[1..]);
      Split(OutputMode(m), piece, Passed(next, text[1..]));
    }
  }

  /** The comment pass is idempotent. */
  lemma StripIdempotent(text: string)
    ensures Strip(Code, Strip(Code, text)) == Strip(Code, text)
  {
    PassedStable(Code, text);
    var held := HeldBack(ModeAfter(Code, text));
    StripSplit(Code, Passed(Code, text), held);
    assert Strip(Code, "/") == "/" by {
      assert "/"[1..] == "";
    }
  }

  // ----- Line comments --------------------------------------------------------------------

  /** A line comment in code is dropped up to the line feed or carriage return that ends it, which stays. */
  lemma LineCommentEndsWithLine(a: string, c: string, end: char, b: string)
    requires ModeAfter(Code, a) == Code && '\n' !in c && '\r' !in c && (end == '\n' || end == '\r')
    ensures Strip(Code, a + "//" + c + [end] + b) == Strip(Code, a + [end] + b)
  {
    var rest := [end] + b;
    Regrouped(a, c, [end], b);
    StripSplit(Code, a, "//" + (c + rest));
    StripSplit(Code, a, rest);
    OpenedLine(c + rest);
    LineIsSkipped(c, rest);
  }

  lemma Regrouped(a: string, c: string, end: string, b: string)
    ensures a + "//" + c + end + b == a + ("//" + (c + (end + b))) && a + end + b == a + (end + b)
  {
  }

  lemma OpenedLine(s: string)
    ensures Strip(Code, "//" + s) == Strip(Line, s)
  {
    var t := "//" + s;
    StripStep(Code, t, 0);
    StripStep(Slash, t, 1);
    assert t[0..] == t && t[2..] == s;
  }

  lemma {:induction false} LineIsSkipped(c: string, rest: string)
    requires '\n' !in c && '\r' !in c && rest != "" && (rest[0] == '\n' || rest[0] == '\r')
    ensures Strip(Line, c + rest) == Strip(Code, rest)
  {
    if c == "" {
      assert c + rest == rest && rest[0..] == rest;
      StripStep(Line, rest, 0);
      StripStep(Code, rest, 0);
    } else {
      var t := c + rest;
      StripStep(Line, t, 0);
      assert t[0..] == t && t[1..] == c[1..] + rest;
      LineIsSkipped(c[1..], rest);
    }
  }

  // ----- Inserting a comment --------------------------------------------------------------

  predicate NoClose(c: string) {
    forall i :: 0 <= i < |c| - 1 ==> !(c[i] == '*' && c[i + 1] == '/')
  }

  lemma {:induction false} InsideBlock(m: Mode, c: string)
    requires m == Block || (m == BlockStar && (c == "" || c[0] != '/'))
    requires NoClose(c)
    ensures ModeAfter(m, c) == Block || ModeAfter(m, c) == BlockStar
    ensures Passed(m, c) == ""
    decreases |c|
  {
    if c != "" {
      var rest := c[1..];
      assert forall i :: 0 <= i < |rest| ==> rest[i] == c[i + 1];
      if c[0] == '*' && rest != "" {
        assert !(c[0] == '*' && c[0 + 1] == '/');
      }
      forall i | 0 <= i < |rest| - 1 ensures !(rest[i] == '*' && rest[i + 1] == '/') {
        var k := i + 1;
        assert !(c[k] == '*' && c[k + 1] == '/');
      }
      InsideBlock(Feed(m, c[0]).0, rest);
    }
  }

  function Comment(c: string): string {
    "/*" + c + "*/"
  }

  lemma CommentPassesNothing(c: string)
    requires NoClose(c)
    ensures ModeAfter(Code, Comment(c)) == Code && Passed(Code, Comment(c)) == ""
  {
    assert "/*"[1..] == "*" && "*"[1..] == "" && "*/"[1..] == "/" && "/"[1..] == "";
    assert ModeAfter(Code, "/*") == Block && Passed(Code, "/*") == "";
    InsideBlock(Block, c);
    Split(Code, "/*", c);
    var m := ModeAfter(Block, c);
    assert ModeAfter(m, "*/") == Code && Passed(m, "*/") == "";
    Split(Code, "/*" + c, "*/");
  }

  /** A block comment inserted where the reader is in code, with no `/` held back, leaves the result unchanged. */
  lemma InsertedCommentIsInvisible(a: string, c: string, b: string)
    requires ModeAfter(Code, a) == Code && NoClose(c)
    ensures Strip(Code, a + Comment(c) + b) == Strip(Code, a + b)
  {
    CommentPassesNothing(c);
    Split(Code, a, Comment(c));
    StripSplit(Code, a + Comment(c), b);
    StripSplit(Code, a, b);
    assert Passed(Code, a) + "" == Passed(Code, a);
  }

  /** Right after a `/` that is held back the insertion is always visible: it starts a line comment instead. */
  lemma CommentAfterSlashIsVisible(a: string)
    requires ModeAfter(Code, a) == Slash
    ensures Strip(Code, a + Comment("") + "x") != Strip(Code, a + "x")
  {
    var inserted := Comment("") + "x";
    assert inserted == "/**/x";
    StripSplit(Code, a, inserted);
    StripSplit(Code, a, "x");
    assert a + Comment("") + "x" == a + inserted;
    LineIsDropped(inserted[1..]);
    StripStep(Slash, inserted, 0);
    assert inserted[0..] == inserted;
    assert Strip(Slash, inserted) == "";
    StripStep(Slash, "x", 0);
    assert "x"[0..] == "x" && "x"[1..] == "";
    assert Strip(Slash, "x") == "/x";
  }

  lemma {:induction false} LineIsDropped(s: string)
    requires forall c :: c in s ==> !IsNewline(c)
    ensures Strip(Line, s) == "" && ModeAfter(Line, s) == Line
    decreases |s|
  {
    if s != "" {
      LineIsDropped(s[1..]);
    }
  }

  // ----- String literals ------------------------------------------------------------------

  /** Adds a character to the string literals read so far: an opening quote starts one, characters inside extend the last. */
  function Note(m: Mode, c: char, found: seq<string>): seq<string> {
    if (m == Code || m == Slash) && c == '"' then found + [[c]]
    else if (m == Str || m == StrEscape) && found != [] then found[|found| - 1 := found[|found| - 1] + [c]]
    else found
  }

  /** The string literals of a text, quotes and escapes included, those inside comments not counted. */
  function Literals(m: Mode, text: string, found: seq<string>): seq<string>
    decreases |text|
  {
    if text == "" then found else Literals(Feed(m, text[0]).0, text[1..], Note(m, text[0], found))
  }

  lemma {:induction false} LiteralsSplit(m: Mode, a: string, b: string, found: seq<string>)
    ensures Literals(m, a + b, found) == Literals(ModeAfter(m, a), b, Literals(m, a, found))
    decreases |a|
  {
    if a == "" {
      assert a + b == b;
    } else {
      assert (a + b)[1..] == a[1..] + b;
      LiteralsSplit(Feed(m, a[0]).0, a[1..], b, Note(m, a[0], found));
    }
  }

  lemma FeedKeepsLiterals(m: Mode, c: char, found: seq<string>)
    ensures Literals(OutputMode(m), Feed(m, c).1, found) == Note(m, c, found)
  {
    var piece := Feed(m, c).1;
    if |piece| == 2 {
      assert piece == ['/', c] && piece[1..] == [c] && [c][1..] == "";
      assert Literals(Slash, [c], found) == Note(Slash, c, found);
    } else if |piece| == 1 {
      assert piece == [c] && piece[1..] == "";
    }
  }

  lemma {:induction false} PassedKeepsLiterals(m: Mode, text: string, found: seq<string>)
    ensures Literals(OutputMode(m), Passed(m, text), found) == Literals(m, text, found)
    decreases |text|
  {
    if text != "" {
      var (next, piece) := Feed(m, text[0]);
      FeedStable(m, text[0]);
      FeedKeepsLiterals(m, text[0], found);
      PassedKeepsLiterals(next, text[1..], Note(m, text[0], found));
      LiteralsSplit(OutputMode(m), piece, Passed(next, text[1..]), found);
    }
  }

  /** The comment pass keeps every string literal, character for character and in order. */
  lemma StripKeepsLiterals(text: string)
    ensures Literals(Code, Strip(Code, text), []) == Literals(Code, text, [])
  {
    PassedKeepsLiterals(Code, text, []);
    PassedStable(Code, text);
    var held := HeldBack(ModeAfter(Code, text));
    LiteralsSplit(Code, Passed(Code, text), held, []);
    if held == "/" {
      assert "/"[1..] == "";
      assert Literals(Code, "/", Literals(Code, text, [])) == Literals(Code, text, []);
    }
  }

  // ----- Texts the comment pass leaves alone -------------------------------------------------

  predicate InComment(m: Mode) {
    m == Line || m == Block || m == BlockStar
  }

  /** No comment starts while the text is read. */
  predicate CommentFree(m: Mode, text: string)
    decreases |text|
  {
    text == "" || (!InComment(Feed(m, text[0]).0) && CommentFree(Feed(m, text[0]).0, text[1..]))
  }

  lemma {:induction false} CommentShortens(m: Mode, text: string)
    requires InComment(m)
    ensures |Strip(m, text)| <= |text|
    decreases |text|
  {
    if text != "" {
      StripStep(m, text, 0);
      assert text[0..] == text;
      if InComment(Feed(m, text[0]).0) {
        CommentShortens(Feed(m, text[0]).0, text[1..]);
      } else {
        StripBounded(Feed(m, text[0]).0, text[1..]);
      }
    }
  }

  lemma {:induction false} StripBounded(m: Mode, text: string)
    requires !InComment(m)
    ensures |Strip(m, text)| <= |HeldBack(m)| + |text|
    ensures Strip(m, text) == HeldBack(m) + text <==> CommentFree(m, text)
    ensures !CommentFree(m, text) ==> |Strip(m, text)| < |HeldBack(m)| + |text|
    decreases |text|
  {
    if text != "" {
      var next := Feed(m, text[0]).0;
      StripHead(m, text);
      if InComment(next) {
        CommentShortens(next, text[1..]);
      } else {
        StripBounded(next, text[1..]);
        KeptHead(m, text);
      }
    }
  }

  lemma StripHead(m: Mode, text: string)
    requires text != ""
    ensures Strip(m, text) == Feed(m, text[0]).1 + Strip(Feed(m, text[0]).0, text[1..])
  {
    StripStep(m, text, 0);
    assert text[0..] == text;
  }

  /** Outside comments a character is let through, or held back, in its place. */
  lemma KeptHead(m: Mode, text: string)
    requires text != "" && !InComment(m) && !InComment(Feed(m, text[0]).0)
    ensures var next := Feed(m, text[0]).0;
      && HeldBack(m) + text == Feed(m, text[0]).1 + (HeldBack(next) + text[1..])
      && |HeldBack(m)| + |text| == |Feed(m, text[0]).1| + |HeldBack(next)| + |text[1..]|
  {
    assert text == [text[0]] + text[1..];
  }

  // ----- The trailing-comma pass --------------------------------------------------------------

  predicate IsBlank(c: char) {
    c == ' ' || c == '\t' || c == '\r' || c == '\n'
  }

  /** The first character that is not blank closes an object or a list. */
  predicate Closes(text: string) {
    text != "" && (text[0] == '}' || text[0] == ']' || (IsBlank(text[0]) && Closes(text[1..])))
  }

  function NextQuoted(m: Mode, c: char): Mode {
    match m
    case Str => if c == '\\' then StrEscape else if c == '"' then Code else Str
    case StrEscape => Str
    case _ => if c == '"' then Str else Code
  }

  /** A comma is trailing if nothing but white space is before the next brace or bracket. */
  lemma {:induction false} ClosesMeans(text: string)
    ensures Closes(text) <==> exists n ::
      0 <= n < |text| && text[n] in {'}', ']'} && forall i :: 0 <= i < n ==> text[i] in {' ', '\t', '\r', '\n'}
  {
    if text != "" {
      var rest := text[1..];
      ClosesMeans(rest);
      if n :| 0 <= n < |text| && text[n] in {'}', ']'} && forall i :: 0 <= i < n ==> text[i] in {' ', '\t', '\r', '\n'} {
        if n > 0 {
          assert rest[n - 1] == text[n] && forall i :: 0 <= i < n - 1 ==> rest[i] == text[i + 1];
        }
      }
      if n :| 0 <= n < |rest| && rest[n] in {'}', ']'} && forall i :: 0 <= i < n ==> rest[i] in {' ', '\t', '\r', '\n'} {
        assert text[n + 1] == rest[n] && forall i :: 1 <= i < n + 1 ==> text[i] == rest[i - 1];
      }
    }
  }

  predicate Trailing(m: Mode, text: string)
    requires text != ""
  {
    m == Code && text[0] == ',' && Closes(text[1..])
  }

  /** The result of the trailing-comma pass. */
  function Tidy(m: Mode, text: string): string
    decreases |text|
  {
    if text == "" then ""
    else if Trailing(m, text) then Tidy(m, text[1..])
    else [text[0]] + Tidy(NextQuoted(m, text[0]), text[1..])
  }

  method FollowedByClose(text: string, at: nat) returns (closes: bool)
    requires at < |text|
    ensures closes == Closes(text[at + 1..])
  {
    var k := at + 1;
    while k < |text| && IsBlank(text[k])
      invariant at + 1 <= k <= |text|
      invariant Closes(text[at + 1..]) == Closes(text[k..])
    {
      assert text[k..][1..] == text[k + 1..];
      k := k + 1;
    }
    closes := k < |text| && (text[k] == '}' || text[k] == ']');
  }

  method TidyCommas(text: string) returns (out: string)
    ensures out == Tidy(Code, text)
  {
    out := "";
    var j, m := 0, Code;
    assert text[0..] == text;
    while j < |text|
      invariant j <= |text| && (m == Code || m == Str || m == StrEscape)
      invariant out + Tidy(m, text[j..]) == Tidy(Code, text)
    {
      var ch := text[j];
      assert text[j..][0] == ch && text[j..][1..] == text[j + 1..];
      var drop := false;
      if m == Code && ch == ',' {
        drop := FollowedByClose(text, j);
      }
      if !drop {
        out := out + [ch];
        m := NextQuoted(m, ch);
      }
      j := j + 1;
    }
  }

  /** Both passes, as the guard runs them. */
  method StripJsonc(text: string) returns (out: string)
    ensures out == Tidy(Code, Strip(Code, text))
  {
    var stripped := StripComments(text);
    out := TidyCommas(stripped);
  }

  predicate TrailingFree(m: Mode, text: string)
    decreases |text|
  {
    text == "" || (!Trailing(m, text) && TrailingFree(NextQuoted(m, text[0]), text[1..]))
  }

  lemma {:induction false} TidyBounded(m: Mode, text: string)
    ensures |Tidy(m, text)| <= |text|
    ensures Tidy(m, text) == text <==> TrailingFree(m, text)
    ensures !TrailingFree(m, text) ==> |Tidy(m, text)| < |text|
    decreases |text|
  {
    if text != "" {
      assert text == [text[0]] + text[1..];
      TidyBounded(if Trailing(m, text) then m else NextQuoted(m, text[0]), text[1..]);
    }
  }

  /** The two passes leave a text unchanged if and only if it has no comment and no trailing comma outside strings. */
  lemma UnchangedIffClean(text: string)
    ensures Tidy(Code, Strip(Code, text)) == text <==> CommentFree(Code, text) && TrailingFree(Code, text)
  {
    StripBounded(Code, text);
    TidyBounded(Code, Strip(Code, text));
    assert HeldBack(Code) + text == text;
  }

  /** The string literals of a text without comments. */
  function Quoted(m: Mode, text: string, found: seq<string>): seq<string>
    decreases |text|
  {
    if text == "" then found else Quoted(NextQuoted(m, text[0]), text[1..], Note(m, text[0], found))
  }

  lemma {:induction false} TidyKeepsQuoted(m: Mode, text: string, found: seq<string>)
    ensures Quoted(m, Tidy(m, text), found) == Quoted(m, text, found)
    decreases |text|
  {
    if text != "" {
      if Trailing(m, text) {
        TidyKeepsQuoted(m, text[1..], found);
      } else {
        var rest := Tidy(NextQuoted(m, text[0]), text[1..]);
        assert ([text[0]] + rest)[1..] == rest;
        TidyKeepsQuoted(NextQuoted(m, text[0]), text[1..], Note(m, text[0], found));
      }
    }
  }

  lemma {:induction false} CommentFreeLiterals(m: Mode, text: string, found: seq<string>)
    requires !InComment(m) && CommentFree(m, text)
    ensures Literals(m, text, found) == Quoted(OutputMode(m), text, found)
    decreases |text|
  {
    if text != "" {
      CommentFreeLiterals(Feed(m, text[0]).0, text[1..], Note(m, text[0], found));
    }
  }

  /** What the two passes produce has exactly the string literals the text had outside its comments. */
  lemma StripJsoncKeepsLiterals(text: string)
    ensures Quoted(Code, Tidy(Code, Strip(Code, text)), []) == Literals(Code, text, [])
  {
    var stripped := Strip(Code, text);
    StripIdempotent(text);
    StripBounded(Code, stripped);
    assert HeldBack(Code) + stripped == stripped;
    CommentFreeLiterals(Code, stripped, []);
    TidyKeepsQuoted(Code, stripped, []);
    StripKeepsLiterals(text);
  }

  /** The trailing-comma pass is not idempotent: of two commas before a bracket it drops one at a time. */
  lemma TidyIsNotIdempotent()
    ensures Tidy(Code, ",,]") == ",]" && Tidy(Code, ",]") == "]"
  {
    assert ",,]"[1..] == ",]" && ",]"[1..] == "]" && "]"[1..] == "";
    assert Tidy(Code, "]") == "]";
    assert Closes("]") && !Closes(",]");
  }
}
