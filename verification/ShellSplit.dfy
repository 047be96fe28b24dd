/**
  The tokenizer the configuration guard uses on shell command lines: it splits
  at whitespace, respects single and double quotes, and keeps both the raw and
  the unquoted form of every token.
 */
module ShellSplit {
  import opened Texts

  datatype Token = Token(raw: string, value: string)

  /** Python's `str.isspace` for one character. */
  predicate IsSpace(c: char) {
    || '\t' <= c <= '\r' || '\U{1C}' <= c <= ' ' || c == '\U{85}' || c == '\U{A0}' || c == '\U{1680}'
    || '\U{2000}' <= c <= '\U{200A}' || c == '\U{2028}' || c == '\U{2029}' || c == '\U{202F}'
    || c == '\U{205F}' || c == '\U{3000}'
  }

  /** What Python takes for white space beyond Unicode's property: the information separators. */
  lemma SpaceIsWhiteOrSeparator(c: char)
    ensures IsSpace(c) <==> IsWhite(c) || c in "\U{1C}\U{1D}\U{1E}\U{1F}"
  {
    var separators := "\U{1C}\U{1D}\U{1E}\U{1F}";
    if '\U{1C}' <= c <= '\U{1F}' {
      assert separators[(c - '\U{1C}') as int] == c;
    }
  }

  predicate IsQuote(c: char) {
    c == '\'' || c == '"'
  }

  // ----- Tokens as a function of the command --------------------------------------------

  /** Outside quotes, or inside a pair of `quote`s. */
  datatype Mode = Bare | In(quote: char)

  function Next(m: Mode, c: char): Mode {
    match m
    case Bare => if IsQuote(c) then In(c) else Bare
    case In(q) => if c == q then Bare else m
  }

  /** The token ends here: whitespace outside quotes. */
  predicate Ends(m: Mode, c: char) {
    m == Bare && IsSpace(c)
  }

  /** How many characters the token read from mode `m` still has. */
  function RawLength(m: Mode, s: string): (n: nat)
    ensures n <= |s|
    decreases |s|
  {
    if s == "" || Ends(m, s[0]) then 0 else 1 + RawLength(Next(m, s[0]), s[1..])
  }

  /** The characters of the token without the quotes that delimit its quoted parts. */
  function Value(m: Mode, s: string): string
    decreases |s|
  {
    if s == "" || Ends(m, s[0]) then ""
    else (if Next(m, s[0]) == m then [s[0]] else "") + Value(Next(m, s[0]), s[1..])
  }

  function Tokens(s: string): seq<Token>
    decreases |s|
  {
    if s == "" then []
    else if IsSpace(s[0]) then Tokens(s[1..])
    else
      var n := RawLength(Bare, s);
      [Token(s[..n], Value(Bare, s))] + Tokens(s[n..])
  }

  // ----- The tokenizer -------------------------------------------------------------------

  lemma ReadStep(m: Mode, cmd: string, i: nat)
    requires i < |cmd| && !Ends(m, cmd[i])
    ensures var next := Next(m, cmd[i]);
      && RawLength(m, cmd[i..]) == 1 + RawLength(next, cmd[i + 1..])
      && Value(m, cmd[i..]) == (if next == m then [cmd[i]] else "") + Value(next, cmd[i + 1..])
  {
    assert cmd[i..][0] == cmd[i] && cmd[i..][1..] == cmd[i + 1..];
  }

  /** Reading from `at` in mode `from` has produced `got` and goes on at `i` in mode `m`. */
  ghost predicate Reached(from: Mode, cmd: string, at: nat, m: Mode, i: nat, got: string) {
    && at <= i <= |cmd|
    && RawLength(from, cmd[at..]) == i - at + RawLength(m, cmd[i..])
    && Value(from, cmd[at..]) == got + Value(m, cmd[i..])
  }

  lemma ReachNext(from: Mode, cmd: string, at: nat, m: Mode, i: nat, got: string)
    requires Reached(from, cmd, at, m, i, got) && i < |cmd| && !Ends(m, cmd[i])
    ensures var next := Next(m, cmd[i]);
      Reached(from, cmd, at, next, i + 1, if next == m then got + [cmd[i]] else got)
  {
    ReadStep(m, cmd, i);
    var rest := Value(Next(m, cmd[i]), cmd[i + 1..]);
    assert got + ([cmd[i]] + rest) == (got + [cmd[i]]) + rest && "" + rest == rest;
  }

  lemma ReachFurther(from: Mode, cmd: string, at: nat, m: Mode, i: nat, got: string, n: Mode, j: nat, more: string)
    requires Reached(from, cmd, at, m, i, got) && Reached(m, cmd, i, n, j, more)
    ensures Reached(from, cmd, at, n, j, got + more)
  {
    var rest := Value(n, cmd[j..]);
    assert got + (more + rest) == (got + more) + rest;
  }

  lemma NothingRead(m: Mode, cmd: string, at: nat)
    requires at <= |cmd|
    ensures Reached(m, cmd, at, m, at, "")
    ensures at == |cmd| ==> forall n :: RawLength(n, cmd[at..]) == 0 && Value(n, cmd[at..]) == ""
  {
    assert "" + Value(m, cmd[at..]) == Value(m, cmd[at..]);
  }

  /** At the end of the command it makes no difference which mode the reader is in. */
  lemma ReachedEnd(from: Mode, cmd: string, at: nat, m: Mode, n: Mode, got: string)
    requires Reached(from, cmd, at, m, |cmd|, got)
    ensures Reached(from, cmd, at, n, |cmd|, got)
  {
    NothingRead(m, cmd, |cmd|);
  }

  method ReadQuoted(cmd: string, at: nat, quote: char) returns (i: nat, buf: string)
    requires at <= |cmd| && IsQuote(quote)
    ensures Reached(In(quote), cmd, at, Bare, i, buf)
  {
    i, buf := at, "";
    NothingRead(In(quote), cmd, at);
    while i < |cmd| && cmd[i] != quote
      invariant i <= |cmd| && Reached(In(quote), cmd, at, In(quote), i, buf)
    {
      ReachNext(In(quote), cmd, at, In(quote), i, buf);
      buf := buf + [cmd[i]];
      i := i + 1;
    }
    if i < |cmd| {
      ReachNext(In(quote), cmd, at, In(quote), i, buf);
      i := i + 1;
    } else {
      ReachedEnd(In(quote), cmd, at, In(quote), Bare, buf);
    }
  }

  method ReadToken(cmd: string, start: nat) returns (i: nat, token: Token)
    requires start < |cmd| && !IsSpace(cmd[start])
    ensures start < i <= |cmd| && i - start == RawLength(Bare, cmd[start..])
    ensures token == Token(cmd[start..i], Value(Bare, cmd[start..]))
  {
    var parts := "";
    i := start;
    NothingRead(Bare, cmd, start);
    while i < |cmd| && !IsSpace(cmd[i])
      invariant start <= i <= |cmd| && Reached(Bare, cmd, start, Bare, i, parts)
      decreases |cmd| - i
    {
      var ch := cmd[i];
      ReachNext(Bare, cmd, start, Bare, i, parts);
      if IsQuote(ch) {
        var j, buf := ReadQuoted(cmd, i + 1, ch);
        ReachFurther(Bare, cmd, start, In(ch), i + 1, parts, Bare, j, buf);
        i, parts := j, parts + buf;
      } else {
        parts := parts + [ch];
        i := i + 1;
      }
    }
    TokenRead(cmd, start, i, parts);
    token := Token(cmd[start..i], parts);
  }

  lemma TokenRead(cmd: string, start: nat, i: nat, parts: string)
    requires Reached(Bare, cmd, start, Bare, i, parts) && (i < |cmd| ==> IsSpace(cmd[i]))
    ensures RawLength(Bare, cmd[start..]) == i - start && Value(Bare, cmd[start..]) == parts
  {
    assert cmd[i..] == "" || Ends(Bare, cmd[i..][0]);
  }

  method SplitShellCommand(cmd: string) returns (tokens: seq<Token>)
    ensures tokens == Tokens(cmd)
  {
    tokens := [];
    var i := 0;
    assert cmd[0..] == cmd;
    while i < |cmd|
      invariant 0 <= i <= |cmd|
      invariant tokens + Tokens(cmd[i..]) == Tokens(cmd)
    {
      if IsSpace(cmd[i]) {
        assert cmd[i..][1..] == cmd[i + 1..];
        i := i + 1;
      } else {
        var j, token := ReadToken(cmd, i);
        assert cmd[i..][..j - i] == cmd[i..j] && cmd[i..][j - i..] == cmd[j..];
        assert Tokens(cmd[i..]) == [token] + Tokens(cmd[j..]);
        tokens := tokens + [token];
        i := j;
      }
    }
  }

  // ----- Tokenizing is the inverse of laying tokens out ---------------------------------------

  function ModeAfter(m: Mode, s: string): Mode
    decreases |s|
  {
    if s == "" then m else ModeAfter(Next(m, s[0]), s[1..])
  }

  /** `raw` is one token. */
  predicate IsToken(raw: string) {
    raw != "" && RawLength(Bare, raw) == |raw|
  }

  /** Every quote of `raw` is closed. */
  predicate Closed(raw: string) {
    ModeAfter(Bare, raw) == Bare
  }

  predicate AllSpace(s: string) {
    forall c :: c in s ==> IsSpace(c)
  }

  /** Gaps and tokens alternating, a gap at both ends. */
  function Weave(gaps: seq<string>, raws: seq<string>): string
    requires |gaps| == |raws| + 1
  {
    if raws == [] then gaps[0] else gaps[0] + raws[0] + Weave(gaps[1..], raws[1..])
  }

  /** A layout: whitespace gaps, not empty between tokens; a token with an open quote only at the very end. */
  ghost predicate IsLayout(gaps: seq<string>, raws: seq<string>) {
    && |gaps| == |raws| + 1
    && (forall i :: 0 <= i < |gaps| ==> AllSpace(gaps[i]))
    && (forall i :: 0 < i < |raws| ==> gaps[i] != "")
    && (forall i :: 0 <= i < |raws| ==> IsToken(raws[i]))
    && (forall i :: 0 <= i < |raws| ==> Closed(raws[i]) || (i == |raws| - 1 && gaps[i + 1] == ""))
  }

  lemma {:induction false} SkipSpace(gap: string, rest: string)
    requires AllSpace(gap)
    ensures Tokens(gap + rest) == Tokens(rest)
  {
    if gap == "" {
      assert gap + rest == rest;
    } else {
      assert (gap + rest)[1..] == gap[1..] + rest;
      SkipSpace(gap[1..], rest);
    }
  }

  lemma {:induction false} TokenInContext(m: Mode, raw: string, rest: string)
    requires RawLength(m, raw) == |raw|
    requires rest == "" || (ModeAfter(m, raw) == Bare && IsSpace(rest[0]))
    ensures RawLength(m, raw + rest) == |raw| && Value(m, raw + rest) == Value(m, raw)
    decreases |raw|
  {
    if raw == "" {
      assert raw + rest == rest;
    } else {
      assert (raw + rest)[1..] == raw[1..] + rest;
      TokenInContext(Next(m, raw[0]), raw[1..], rest);
    }
  }

  lemma ReadFirst(raw: string, rest: string)
    requires IsToken(raw) && (rest == "" || (Closed(raw) && IsSpace(rest[0])))
    ensures Tokens(raw + rest) == [Token(raw, Value(Bare, raw))] + Tokens(rest)
  {
    TokenInContext(Bare, raw, rest);
    assert (raw + rest)[..|raw|] == raw && (raw + rest)[|raw|..] == rest;
  }

  function TokensOf(raws: seq<string>): seq<Token> {
    seq(|raws|, i requires 0 <= i < |raws| => Token(raws[i], Value(Bare, raws[i])))
  }

  lemma LayoutTail(gaps: seq<string>, raws: seq<string>)
    requires IsLayout(gaps, raws) && raws != []
    ensures IsLayout(gaps[1..], raws[1..])
    ensures var rest := Weave(gaps[1..], raws[1..]); rest == "" || (Closed(raws[0]) && IsSpace(rest[0]))
  {
    var g, r := gaps[1..], raws[1..];
    forall i | 0 <= i < |g| ensures AllSpace(g[i]) {
      assert g[i] == gaps[i + 1];
    }
    forall i | 0 < i < |r| ensures g[i] != "" {
      assert g[i] == gaps[i + 1];
    }
    forall i | 0 <= i < |r| ensures IsToken(r[i]) && (Closed(r[i]) || (i == |r| - 1 && g[i + 1] == "")) {
      assert r[i] == raws[i + 1] && g[i + 1] == gaps[(i + 1) + 1];
    }
    assert g[0] == gaps[1] && AllSpace(gaps[1]);
    if g[0] != "" {
      assert Weave(g, r)[0] == g[0][0] && g[0][0] in g[0];
      assert Closed(raws[0]);
    } else {
      assert r == [];
    }
  }

  /** Every layout of tokens is split back into exactly those tokens, raw and unquoted. */
  lemma {:induction false} LayoutSplitsBack(gaps: seq<string>, raws: seq<string>)
    requires IsLayout(gaps, raws)
    ensures Tokens(Weave(gaps, raws)) == TokensOf(raws)
    decreases |raws|
  {
    if raws == [] {
      SkipSpace(gaps[0], "");
      assert gaps[0] + "" == gaps[0];
    } else {
      var rest := Weave(gaps[1..], raws[1..]);
      LayoutTail(gaps, raws);
      LayoutSplitsBack(gaps[1..], raws[1..]);
      ReadFirst(raws[0], rest);
      SkipSpace(gaps[0], raws[0] + rest);
      assert gaps[0] + raws[0] + rest == gaps[0] + (raws[0] + rest);
      assert TokensOf(raws) == [Token(raws[0], Value(Bare, raws[0]))] + TokensOf(raws[1..]);
    }
  }

  function Raws(tokens: seq<Token>): seq<string> {
    seq(|tokens|, i requires 0 <= i < |tokens| => tokens[i].raw)
  }

  lemma {:induction false} RawIsToken(m: Mode, s: string)
    ensures var n := RawLength(m, s);
      && RawLength(m, s[..n]) == n
      && Value(m, s[..n]) == Value(m, s)
      && (n < |s| ==> ModeAfter(m, s[..n]) == Bare && IsSpace(s[n]))
    decreases |s|
  {
    var n := RawLength(m, s);
    if n > 0 {
      RawIsToken(Next(m, s[0]), s[1..]);
      assert s[..n][1..] == s[1..][..n - 1];
    }
  }

  /** `gaps` and the raw tokens of `s` rebuild `s`; the first gap is the whitespace `s` starts with. */
  ghost predicate LaysOut(gaps: seq<string>, s: string) {
    var raws := Raws(Tokens(s));
    && IsLayout(gaps, raws)
    && Weave(gaps, raws) == s
    && TokensOf(raws) == Tokens(s)
    && (s != "" ==> (IsSpace(s[0]) <==> gaps[0] != ""))
  }

  /** Nothing is lost: every command is a layout of its raw tokens. */
  lemma {:induction false} TokensLayOut(s: string) returns (gaps: seq<string>)
    ensures LaysOut(gaps, s)
    decreases |s|
  {
    if s == "" {
      gaps := [""];
    } else if IsSpace(s[0]) {
      var inner := TokensLayOut(s[1..]);
      gaps := inner[0 := [s[0]] + inner[0]];
      LayOutSpace(inner, s);
    } else {
      var inner := TokensLayOut(s[RawLength(Bare, s)..]);
      gaps := [""] + inner;
      LayOutToken(inner, s);
    }
  }

  lemma LayOutSpace(inner: seq<string>, s: string)
    requires s != "" && IsSpace(s[0]) && LaysOut(inner, s[1..])
    ensures LaysOut(inner[0 := [s[0]] + inner[0]], s)
  {
    assert Tokens(s) == Tokens(s[1..]) && s == [s[0]] + s[1..];
    PrependSpace(inner, Raws(Tokens(s[1..])), s[0]);
  }

  lemma LayOutToken(inner: seq<string>, s: string)
    requires s != "" && !IsSpace(s[0]) && LaysOut(inner, s[RawLength(Bare, s)..])
    ensures LaysOut([""] + inner, s)
  {
    var n := RawLength(Bare, s);
    FirstToken(s);
    FirstTokenIsClosed(s, inner);
    PrependToken(inner, Raws(Tokens(s[n..])), s[..n], s[n..]);
    assert s == s[..n] + s[n..] && ([""] + inner)[0] == "";
  }

  lemma FirstTokenIsClosed(s: string, inner: seq<string>)
    requires s != "" && !IsSpace(s[0]) && LaysOut(inner, s[RawLength(Bare, s)..])
    ensures var n := RawLength(Bare, s);
      IsToken(s[..n]) && (s[n..] == "" || (Closed(s[..n]) && inner[0] != ""))
  {
    RawIsToken(Bare, s);
  }

  lemma FirstToken(s: string)
    requires s != "" && !IsSpace(s[0])
    ensures var n := RawLength(Bare, s);
      var raws := Raws(Tokens(s[n..]));
      && Raws(Tokens(s)) == [s[..n]] + raws
      && (TokensOf(raws) == Tokens(s[n..]) ==> TokensOf(Raws(Tokens(s))) == Tokens(s))
  {
    var n := RawLength(Bare, s);
    RawIsToken(Bare, s);
    var first, rest := Token(s[..n], Value(Bare, s)), Tokens(s[n..]);
    assert Tokens(s) == [first] + rest;
    assert Raws([first] + rest) == [s[..n]] + Raws(rest);
    assert TokensOf([s[..n]] + Raws(rest)) == [Token(s[..n], Value(Bare, s[..n]))] + TokensOf(Raws(rest));
  }

  lemma PrependSpace(gaps: seq<string>, raws: seq<string>, c: char)
    requires IsLayout(gaps, raws) && IsSpace(c)
    ensures var g := gaps[0 := [c] + gaps[0]];
      IsLayout(g, raws) && Weave(g, raws) == [c] + Weave(gaps, raws)
  {
    var g := gaps[0 := [c] + gaps[0]];
    assert g[1..] == gaps[1..];
    if raws != [] {
      var rest := Weave(gaps[1..], raws[1..]);
      assert ([c] + gaps[0]) + raws[0] + rest == [c] + (gaps[0] + raws[0] + rest);
    }
  }

  lemma PrependToken(gaps: seq<string>, raws: seq<string>, raw: string, rest: string)
    requires IsLayout(gaps, raws) && Weave(gaps, raws) == rest && IsToken(raw)
    requires rest == "" || (Closed(raw) && gaps[0] != "")
    ensures IsLayout([""] + gaps, [raw] + raws) && Weave([""] + gaps, [raw] + raws) == raw + rest
  {
    var g, r := [""] + gaps, [raw] + raws;
    assert g[1..] == gaps && r[1..] == raws;
    assert "" + raw + rest == raw + rest;
    if rest == "" {
      EmptyWeave(gaps, raws);
    }
    forall i | 0 <= i < |r| ensures IsToken(r[i]) && (Closed(r[i]) || (i == |r| - 1 && g[i + 1] == "")) {
      if i > 0 {
        assert r[i] == raws[i - 1] && g[i + 1] == gaps[(i - 1) + 1];
      }
    }
  }

  lemma EmptyWeave(gaps: seq<string>, raws: seq<string>)
    requires IsLayout(gaps, raws) && Weave(gaps, raws) == ""
    ensures raws == [] && gaps == [""]
  {
  }

  // ----- Quoting ----------------------------------------------------------------------------

  function Quote(arg: string, q: char): string {
    [q] + arg + [q]
  }

  lemma {:induction false} InsideQuotes(q: char, arg: string)
    requires IsQuote(q) && q !in arg
    ensures RawLength(In(q), arg + [q]) == |arg| + 1
    ensures Value(In(q), arg + [q]) == arg && ModeAfter(In(q), arg + [q]) == Bare
    decreases |arg|
  {
    if arg == "" {
      assert arg + [q] == [q] && [q][1..] == "";
    } else {
      assert (arg + [q])[1..] == arg[1..] + [q];
      InsideQuotes(q, arg[1..]);
    }
  }

  lemma QuotedIsToken(arg: string, q: char)
    requires IsQuote(q) && q !in arg
    ensures IsToken(Quote(arg, q)) && Closed(Quote(arg, q)) && Value(Bare, Quote(arg, q)) == arg
  {
    InsideQuotes(q, arg);
    var raw := Quote(arg, q);
    assert raw[0] == q && raw[1..] == arg + [q];
  }

  /** The arguments, each in quotes, separated by single spaces. */
  function QuotedRaws(args: seq<string>, quotes: seq<char>): seq<string>
    requires |args| == |quotes|
  {
    seq(|args|, i requires 0 <= i < |args| => Quote(args[i], quotes[i]))
  }

  function SingleSpaces(n: nat): seq<string> {
    seq(n + 1, i requires 0 <= i <= n => if i == 0 || i == n then "" else " ")
  }

  /** Quoted arguments split back into exactly themselves, empty ones included. */
  lemma QuotedArgumentsSplitBack(args: seq<string>, quotes: seq<char>)
    requires |args| == |quotes|
    requires forall i :: 0 <= i < |args| ==> (quotes[i] == '\'' || quotes[i] == '"') && quotes[i] !in args[i]
    ensures var tokens := Tokens(Weave(SingleSpaces(|args|), QuotedRaws(args, quotes)));
      |tokens| == |args| && forall i :: 0 <= i < |args| ==> tokens[i] == Token(Quote(args[i], quotes[i]), args[i])
  {
    var raws := QuotedRaws(args, quotes);
    forall i | 0 <= i < |raws| ensures IsToken(raws[i]) && Closed(raws[i]) && Value(Bare, raws[i]) == args[i] {
      QuotedIsToken(args[i], quotes[i]);
    }
    LayoutSplitsBack(SingleSpaces(|args|), raws);
  }

  // ----- Scanning without quotes ----------------------------------------------------------------

  function Joined(words: seq<string>): string {
    if words == [] then "" else if |words| == 1 then words[0] else Joined(words[..|words| - 1]) + " " + words[|words| - 1]
  }

  function Values(tokens: seq<Token>): seq<string> {
    seq(|tokens|, i requires 0 <= i < |tokens| => tokens[i].value)
  }

  /** The command with its quotes removed and its gaps made single spaces. */
  method Dequote(cmd: string) returns (s: string)
    ensures s == Joined(Values(Tokens(cmd)))
  {
    var tokens := SplitShellCommand(cmd);
    s := "";
    for i := 0 to |tokens|
      invariant s == Joined(Values(tokens)[..i])
    {
      assert Values(tokens)[..i + 1][..i] == Values(tokens)[..i];
      s := if i == 0 then tokens[i].value else s + " " + tokens[i].value;
    }
    assert Values(tokens)[..|tokens|] == Values(tokens);
  }

  /** Which quotes the arguments are written with makes no difference to the scan: it sees the arguments themselves. */
  lemma QuotesAreInvisible(args: seq<string>, quotes: seq<char>)
    requires |args| == |quotes|
    requires forall i :: 0 <= i < |args| ==> (quotes[i] == '\'' || quotes[i] == '"') && quotes[i] !in args[i]
    ensures Joined(Values(Tokens(Weave(SingleSpaces(|args|), QuotedRaws(args, quotes))))) == Joined(args)
  {
    QuotedArgumentsSplitBack(args, quotes);
    assert Values(Tokens(Weave(SingleSpaces(|args|), QuotedRaws(args, quotes)))) == args;
  }
}
