/** How the words of a request are recognised: punctuation, contract ids, flags with their values, quoted texts. */
module RequestWords {
  import opened Outcomes
  import opened Texts
  import opened RequestArgs

  // ----- Single words -------------------------------------------------------------------------------------------

  predicate OnlyPunctuation(s: string) {
    forall i :: 0 <= i < |s| ==> s[i] in {',', ';', '"', '\'', '(', ')'}
  }

  /** Punctuation around a word is left off, as much as there is, and punctuation within is kept. */
  lemma {:induction false} PunctuationIsTrimmed(before: string, core: string, after: string)
    requires OnlyPunctuation(before) && OnlyPunctuation(after)
    requires core != "" ==> core[0] !in {',', ';', '"', '\'', '(', ')'} && core[|core| - 1] !in {',', ';', '"', '\'', '(', ')'}
    ensures TrimPunct(before + core + after) == core
    decreases |before| + |after|
  {
    var token := before + core + after;
    if before != "" {
      assert token[1..] == before[1..] + core + after;
      PunctuationIsTrimmed(before[1..], core, after);
    } else if core == "" && after != "" {
      assert token[1..] == "" + core + after[1..];
      PunctuationIsTrimmed(before, core, after[1..]);
    } else if after != "" {
      var most := after[..|after| - 1];
      assert token[..|token| - 1] == before + core + most;
      PunctuationIsTrimmed(before, core, most);
    } else {
      assert token == core;
    }
  }

  lemma EndsWithMeans(s: string, end: string)
    ensures EndsWith(s, end) <==> exists stem :: s == stem + end
  {
    if EndsWith(s, end) {
      assert s == s[..|s| - |end|] + end;
    }
  }

  predicate AsciiLetterOrDigit(c: char) {
    '0' <= c <= '9' || 'A' <= c <= 'Z' || 'a' <= c <= 'z'
  }

  /** A contract id is a `C` and fifty-five characters of base 32, whatever follows that is no letter or digit. */
  ghost predicate StartsWithId(token: string, id: string, tail: string) {
    && token == id + tail && (forall c :: c in tail ==> !AsciiLetterOrDigit(c))
    && |id| == 56 && id[0] == 'C' && forall i :: 1 <= i < 56 ==> 'A' <= id[i] <= 'Z' || '2' <= id[i] <= '7'
  }

  lemma ContractIdIs(token: string)
    ensures IsContractId(token) <==> exists id, tail :: StartsWithId(token, id, tail)
  {
    var id := TrimTail(token);
    TailIsTrimmed(token);
    if IsContractId(token) {
      assert StartsWithId(token, id, token[|id|..]);
    }
    if other, tail :| StartsWithId(token, other, tail) {
      assert AsciiLetterOrDigit(other[55]);
      TailOf(other, tail);
    }
  }

  lemma {:induction false} TailIsTrimmed(token: string)
    ensures TrimTail(token) <= token
    ensures forall c :: c in token[|TrimTail(token)|..] ==> !AsciiLetterOrDigit(c)
  {
    if token != "" && !IsAlphanumeric(token[|token| - 1]) {
      var most := token[..|token| - 1];
      TailIsTrimmed(most);
      assert token[|TrimTail(most)|..] == most[|TrimTail(most)|..] + [token[|token| - 1]];
    }
  }

  lemma {:induction false} TailOf(id: string, tail: string)
    requires id != "" && AsciiLetterOrDigit(id[|id| - 1]) && forall c :: c in tail ==> !AsciiLetterOrDigit(c)
    ensures TrimTail(id + tail) == id
  {
    if tail == "" {
      assert id + tail == id;
    } else {
      var most := tail[..|tail| - 1];
      assert tail[|tail| - 1] in tail && (id + tail)[..|id| + |tail| - 1] == id + most;
      TailOf(id, most);
    }
  }

  lemma {:induction false} IndexIs(c: char, before: string, after: string)
    requires c !in before
    ensures IndexOf(c, before + [c] + after) == Some(|before|)
  {
    if before != "" {
      assert (before + [c] + after)[1..] == before[1..] + [c] + after;
      IndexIs(c, before[1..], after);
    }
  }

  // ----- Flags ------------------------------------------------------------------------------------------------------

  /** `--name=value` is a flag with that value. */
  lemma FlagWithEquals(name: string, value: string, rest: seq<string>)
    requires "--" <= name && '=' !in name && value != ""
    requires TrimPunct(name + "=" + value) == name + "=" + value
    ensures NextItem([name + "=" + value] + rest) == (FlagItem(Flag(name, Some(value))), 1)
  {
    var token := name + "=" + value;
    IndexIs('=', name, value);
    assert token == name + ['='] + value && "--" <= token && |token| > 2;
    assert token[..|name|] == name && token[|name| + 1..] == value;
  }

  /** A flag takes the next word if that is no flag and has the shape of a value or names a format. */
  lemma FlagTakesNext(name: string, next: string, rest: seq<string>)
    requires "--" <= name && |name| > 2 && '=' !in name && TrimPunct(name) == name
    requires TrimPunct(next) == next && next != "" && next[0] !in {'"', '\''}
    ensures NextItem([name, next] + rest) ==
      if next[0] != '-' && (TakenAsValue(next) || Lower(next) in ["json", "pretty"])
      then (FlagItem(Flag(name, Some(next))), 2) else (FlagItem(Flag(name, None)), 1)
  {
    var tokens := [name, next] + rest;
    assert tokens[1..][0] == next;
  }

  predicate TakenAsValue(word: string)
    requires word != ""
  {
    '/' in word || '.' in word || ':' in word || ',' in word || '0' <= word[0] <= '9' || IsContractId(word)
  }

  // ----- Quoted texts -----------------------------------------------------------------------------------------------

  /** Words without a space at either end and without the quote. */
  predicate Plain(quote: char, words: seq<string>) {
    forall w :: w in words ==> w != "" && w[0] != ' ' && w[|w| - 1] != ' ' && quote !in w
  }

  /** A quoted text as the tokens show it, split at its spaces. */
  function Quote(quote: char, words: seq<string>): seq<string>
    requires words != []
  {
    if |words| == 1 then [[quote] + words[0] + [quote]]
    else [[quote] + words[0]] + words[1..|words| - 1] + [words[|words| - 1] + [quote]]
  }

  /** A quoted text of at most seventeen words comes back whole. */
  lemma QuotedTextComesBack(quote: char, words: seq<string>, rest: seq<string>)
    requires quote in {'"', '\''} && Plain(quote, words) && 1 <= |words| <= 17
    ensures Quoted(Quote(quote, words) + rest) == Some((Join(words), |words|))
  {
    if |words| == 1 {
      OneWordComesBack(quote, words[0], rest);
    } else {
      ManyTokens(quote, words, rest);
      ManyWordsComeBack(quote, words, Quote(quote, words) + rest);
    }
  }

  lemma ManyWordsComeBack(quote: char, words: seq<string>, tokens: seq<string>)
    requires quote in {'"', '\''} && Plain(quote, words) && 2 <= |words| <= 17 && Shows(quote, words, tokens)
    ensures Quoted(tokens) == Some((words[0] + " " + Join(words[1..]), |words|))
  {
    var k := |words| - 1;
    var last := words[k];
    NotBefore(quote, words, tokens, 1);
    assert last in words;
    IndexIs(quote, last, "");
    assert last + [quote] + "" == tokens[k] && tokens[k][..|last|] == last;
    assert tokens[1..k] + [last] == words[1..];
    PlainJoin(quote, words[1..]);
    assert words[0] in words && IndexOf(quote, words[0]).None?;
    assert tokens[0][0] == quote && tokens[0][1..] == words[0];
    QuotedAcross(quote, tokens, words[0], k, |last|, Join(words[1..]));
  }

  lemma QuotedAcross(quote: char, tokens: seq<string>, first: string, k: nat, at: nat, inner: string)
    requires quote in {'"', '\''} && 1 <= k < |tokens| && tokens[0] != "" && tokens[0][0] == quote && tokens[0][1..] == first
    requires IndexOf(quote, first).None? && ClosingToken(quote, tokens, 1) == Some(k)
    requires IndexOf(quote, tokens[k]) == Some(at)
    requires inner != "" && inner == TrimSpaces(Join(tokens[1..k] + [tokens[k][..at]]))
    ensures Quoted(tokens) == Some((first + " " + inner, k + 1))
  {
  }

  lemma OneWordComesBack(quote: char, word: string, rest: seq<string>)
    requires quote in {'"', '\''} && quote !in word
    ensures Quoted([[quote] + word + [quote]] + rest) == Some((word, 1))
  {
    var tokens := [[quote] + word + [quote]] + rest;
    IndexIs(quote, word, "");
    assert tokens[0][0] == quote && tokens[0][1..] == word + [quote] + "";
    assert IndexOf(quote, tokens[0][1..]) == Some(|word|);
    assert tokens[0][1..][..|word|] == word;
  }

  /** The tokens of a quoted text of several words, one by one. */
  predicate Shows(quote: char, words: seq<string>, tokens: seq<string>)
    requires |words| >= 2
  {
    && |tokens| >= |words| && tokens[0] == [quote] + words[0]
    && tokens[|words| - 1] == words[|words| - 1] + [quote]
    && forall k :: 1 <= k < |words| - 1 ==> tokens[k] == words[k]
  }

  lemma ManyTokens(quote: char, words: seq<string>, rest: seq<string>)
    requires 2 <= |words|
    ensures Shows(quote, words, Quote(quote, words) + rest)
  {
  }

  lemma {:induction false} NotBefore(quote: char, words: seq<string>, tokens: seq<string>, k: nat)
    requires Plain(quote, words) && 1 <= k < |words| <= 17 && Shows(quote, words, tokens)
    ensures ClosingToken(quote, tokens, k) == Some(|words| - 1)
    decreases |words| - k
  {
    if k < |words| - 1 {
      assert words[k] in words;
      NotBefore(quote, words, tokens, k + 1);
    } else {
      assert tokens[k][|words[k]|] == quote;
    }
  }

  lemma {:induction false} PlainJoin(quote: char, words: seq<string>)
    requires Plain(quote, words) && words != []
    ensures var text := Join(words); text != "" && text[0] != ' ' && text[|text| - 1] != ' ' && TrimSpaces(text) == text
  {
    assert words[0] in words;
    if |words| > 1 {
      PlainJoin(quote, words[1..]);
    }
  }
}
