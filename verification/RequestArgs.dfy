/**
  The arguments a request names: flags with their values, artifact paths with the
  roles the request marks, and everything else found by shape.
 */
module RequestArgs {
  import opened Outcomes
  import opened Texts
  import StringOrder

  datatype Flag = Flag(name: string, value: Option<string>)

  datatype Args = Args(
    contract: Option<string>,
    wasm: Option<string>,
    previousWasm: Option<string>,
    paths: seq<string>,
    candidates: seq<string>,
    baselines: seq<string>,
    sourcePath: Option<string>,
    fn: Option<string>,
    profile: Option<string>,
    network: Option<string>,
    rpcUrl: Option<string>,
    passphrase: Option<string>,
    envelope: Option<string>,
    typedArgs: seq<string>,
    useRpc: bool,
    baseFees: Option<string>,
    flags: seq<Flag>)

  const NoArgs := Args(
    None, None, None, [], [], [], None, None, None, None, None, None, None, [], false, None, [])

  // ----- Tokens ---------------------------------------------------------------------------

  predicate IsPunct(c: char) {
    c == ',' || c == ';' || c == '"' || c == '\'' || c == '(' || c == ')'
  }

  function TrimPunct(token: string): string {
    if token != "" && IsPunct(token[0]) then TrimPunct(token[1..])
    else if token != "" && IsPunct(token[|token| - 1]) then TrimPunct(token[..|token| - 1])
    else token
  }

  predicate EndsWith(s: string, end: string) {
    |end| <= |s| && s[|s| - |end|..] == end
  }

  predicate IsDigit(c: char) {
    '0' <= c <= '9'
  }

  predicate IsUpper(c: char) {
    'A' <= c <= 'Z'
  }

  predicate IsAlphanumeric(c: char) {
    IsDigit(c) || IsUpper(c) || 'a' <= c <= 'z'
  }

  function TrimTail(token: string): string {
    if token != "" && !IsAlphanumeric(token[|token| - 1]) then TrimTail(token[..|token| - 1]) else token
  }

  predicate IsContractId(token: string) {
    var t := TrimTail(token);
    |t| == 56 && t[0] == 'C' && forall i :: 1 <= i < 56 ==> IsUpper(t[i]) || '2' <= t[i] <= '7'
  }

  predicate LooksLikeValue(token: string) {
    var t := TrimPunct(token);
    && t != "" && t[0] != '"' && t[0] != '\''
    && ('/' in t || '.' in t || ':' in t || ',' in t || IsDigit(t[0]) || IsContractId(t))
  }

  predicate LooksLikeUrl(lower: string) {
    "http://" <= lower || "https://" <= lower
  }

  predicate IsBase64Blob(token: string) {
    |token| >= 64 && '/' !in token &&
    forall i :: 0 <= i < |token| ==> IsAlphanumeric(token[i]) || token[i] == '+' || token[i] == '='
  }

  function IndexOf(c: char, s: string): (r: Option<nat>)
    ensures r.None? <==> c !in s
    ensures r.Some? ==> r.value < |s| && s[r.value] == c && c !in s[..r.value]
  {
    if s == "" then None
    else if s[0] == c then Some(0)
    else
      var r := IndexOf(c, s[1..]);
      if r.None? then None
      else
        assert s[..r.value + 1] == [s[0]] + s[1..][..r.value];
        Some(r.value + 1)
  }

  const TypedPrefixes := [
    "u32:", "i32:", "u64:", "i64:", "u128:", "i128:", "bool:", "string:", "symbol:", "bytes:",
    "address:", "duration:", "timepoint:"]

  /** The part before the first colon is looked up in the list of prefixes. */
  predicate IsTypedArg(lower: string) {
    var colon := IndexOf(':', lower);
    colon.Some? && colon.value + 1 < |lower| && lower[..colon.value] in TypedPrefixes
  }

  /** The listed prefixes end with the colon the lookup leaves off, so no word is ever taken for a typed argument. */
  lemma NoWordIsTyped(lower: string)
    ensures !IsTypedArg(lower)
  {
    var colon := IndexOf(':', lower);
    if colon.Some? {
      forall i | 0 <= i < |TypedPrefixes| ensures TypedPrefixes[i] != lower[..colon.value] {
        assert TypedPrefixes[i][|TypedPrefixes[i]| - 1] == ':';
      }
    }
  }

  predicate IsBaselineMarker(word: string) {
    word == "previous" || word == "baseline" || word == "old" || word == "from"
  }

  predicate IsCandidateMarker(word: string) {
    word == "candidate" || word == "new" || word == "current" || word == "to"
  }

  predicate IsNetwork(word: string) {
    word == "testnet" || word == "mainnet" || word == "futurenet"
  }

  datatype Role = Baseline | Candidate

  /** The role a file's own name marks; a name marking both roles marks none. */
  function RoleFromName(lower: string): Option<Role> {
    var stem := if EndsWith(lower, ".wasm") then lower[..|lower| - 5] else lower;
    var folders := SplitOn({'/', '\\'}, stem);
    var parts := SplitOn({'-', '_', ' '}, folders[|folders| - 1]);
    var base := exists i :: 0 <= i < |parts| && IsBaselineMarker(parts[i]);
    var cand := exists i :: 0 <= i < |parts| && IsCandidateMarker(parts[i]);
    if base && !cand then Some(Baseline) else if cand && !base then Some(Candidate) else None
  }

  // ----- Quoted values ------------------------------------------------------------------------

  function Join(parts: seq<string>): string {
    if parts == [] then "" else if |parts| == 1 then parts[0] else parts[0] + " " + Join(parts[1..])
  }

  function TrimSpaces(s: string): string {
    if s != "" && s[0] == ' ' then TrimSpaces(s[1..])
    else if s != "" && s[|s| - 1] == ' ' then TrimSpaces(s[..|s| - 1])
    else s
  }

  /** The first of the tokens from `k` that contains the quote; at most sixteen tokens after the opening one are looked at. */
  function ClosingToken(quote: char, tokens: seq<string>, k: nat): (r: Option<nat>)
    requires k <= |tokens|
    ensures r.Some? ==> k <= r.value < |tokens| && quote in tokens[r.value]
    decreases |tokens| - k
  {
    if k == |tokens| || k > 16 then None
    else if quote in tokens[k] then Some(k)
    else ClosingToken(quote, tokens, k + 1)
  }

  /** A quoted value at the start of the tokens, and how many tokens it takes. */
  function Quoted(tokens: seq<string>): (r: Option<(string, nat)>)
    ensures r.Some? ==> 1 <= r.value.1 <= |tokens|
  {
    if tokens == [] || tokens[0] == "" || (tokens[0][0] != '"' && tokens[0][0] != '\'') then None
    else
      var quote, rest := tokens[0][0], tokens[0][1..];
      var end := IndexOf(quote, rest);
      if end.Some? then Some((rest[..end.value], 1))
      else
        var k := ClosingToken(quote, tokens, 1);
        if k.None? then None
        else
          var last := tokens[k.value];
          var inner := TrimSpaces(Join(tokens[1..k.value] + [last[..IndexOf(quote, last).value]]));
          Some((if inner == "" then rest else rest + " " + inner, k.value + 1))
  }

  method QuotedValue(tokens: seq<string>) returns (r: Option<(string, nat)>)
    ensures r == Quoted(tokens)
  {
    if tokens == [] || tokens[0] == "" {
      return None;
    }
    var quote := tokens[0][0];
    if quote != '"' && quote != '\'' {
      return None;
    }
    var rest := tokens[0][1..];
    var end := IndexOf(quote, rest);
    if end.Some? {
      return Some((rest[..end.value], 1));
    }
    var parts: seq<string> := [];
    var k := 1;
    while k < |tokens| && k <= 16
      invariant 1 <= k <= |tokens| && parts == tokens[1..k]
      invariant ClosingToken(quote, tokens, 1) == ClosingToken(quote, tokens, k)
    {
      var pos := IndexOf(quote, tokens[k]);
      if pos.Some? {
        parts := parts + [tokens[k][..pos.value]];
        var inner := TrimSpaces(Join(parts));
        return Some((if inner == "" then rest else rest + " " + inner, k + 1));
      }
      parts := parts + [tokens[k]];
      k := k + 1;
    }
    return None;
  }

  // ----- Items: flags with their values, and words -----------------------------------------------

  datatype Item = FlagItem(flag: Flag) | Word(text: string)

  predicate IsFlagToken(cleaned: string) {
    "--" <= cleaned && |cleaned| > 2
  }

  /** A flag token, with the value spelled into it after `=`. */
  function SplitFlag(cleaned: string): Flag {
    var eq := IndexOf('=', cleaned);
    if eq.Some? && eq.value + 1 < |cleaned| then Flag(cleaned[..eq.value], Some(cleaned[eq.value + 1..]))
    else Flag(cleaned, None)
  }

  /** Whether the next token may be taken as a flag's value. */
  predicate IsFlagValue(next: string) {
    next != "" && next[0] != '-' && (LooksLikeValue(next) || Lower(next) == "json" || Lower(next) == "pretty")
  }

  /** The first item of the tokens and the number of tokens it takes. */
  function NextItem(tokens: seq<string>): (r: (Item, nat))
    requires tokens != []
    ensures 1 <= r.1 <= |tokens|
  {
    var cleaned := TrimPunct(tokens[0]);
    if !IsFlagToken(cleaned) then (Word(cleaned), 1)
    else
      var flag := SplitFlag(cleaned);
      if flag.value.Some? || |tokens| == 1 then (FlagItem(flag), 1)
      else
        var quoted := Quoted(tokens[1..]);
        if quoted.Some? then (FlagItem(flag.(value := Some(quoted.value.0))), 1 + quoted.value.1)
        else if IsFlagValue(TrimPunct(tokens[1])) then (FlagItem(flag.(value := Some(TrimPunct(tokens[1])))), 2)
        else (FlagItem(flag), 1)
  }

  function Items(tokens: seq<string>): seq<Item>
    decreases |tokens|
  {
    if tokens == [] then [] else [NextItem(tokens).0] + Items(tokens[NextItem(tokens).1..])
  }

  // ----- What an item adds ------------------------------------------------------------------------

  function RoleOfFlag(name: string): Option<Role> {
    if name == "--wasm" || name == "--new-wasm" then Some(Candidate)
    else if name == "--previous-wasm" || name == "--old-wasm" then Some(Baseline)
    else None
  }

  predicate IsArtifactWord(text: string) {
    !IsContractId(text) && EndsWith(Lower(text), ".wasm")
  }

  /** The artifact path an item names. */
  function ArtifactOf(item: Item): Option<string> {
    match item
    case FlagItem(flag) => if RoleOfFlag(flag.name).Some? then flag.value else None
    case Word(text) => if IsArtifactWord(text) then Some(text) else None
  }

  predicate Listed(paths: seq<string>, path: string) {
    exists i :: 0 <= i < |paths| && SameIgnoringCase(paths[i], path)
  }

  /** Records a path once, whatever the letter case. */
  function PushPath(paths: seq<string>, path: string): seq<string> {
    if Listed(paths, path) then paths else paths + [path]
  }

  function Claim(args: Args, role: Option<Role>, path: string): Args {
    match role
    case None => args
    case Some(Baseline) => args.(baselines := args.baselines + [path])
    case Some(Candidate) => args.(candidates := args.candidates + [path])
  }

  function AddArtifact(args: Args, role: Option<Role>, path: string): Args {
    Claim(args, role, path).(paths := PushPath(args.paths, path))
  }

  /** Arguments read so far, and the role a marker word has announced for the next path. */
  datatype State = State(args: Args, pending: Option<Role>)

  function OrElse<T>(a: Option<T>, b: Option<T>): Option<T> {
    if a.Some? then a else b
  }

  function TakeFlag(s: State, flag: Flag): State {
    var role := RoleOfFlag(flag.name);
    var noted := s.args.(flags := s.args.flags + [flag]);
    if role.Some? && flag.value.Some? then State(AddArtifact(noted, role, flag.value.value), None)
    else State(noted, s.pending)
  }

  /** A word that is neither a contract id nor an artifact. */
  function TakeOther(s: State, text: string): State {
    var lower := Lower(text);
    var args := s.args;
    if EndsWith(lower, ".rs") then s.(args := args.(sourcePath := Some(text)))
    else if EndsWith(lower, ".xdr") || IsBase64Blob(text) then
      s.(args := args.(envelope := OrElse(args.envelope, Some(text))))
    else if LooksLikeUrl(lower) then s.(args := args.(rpcUrl := OrElse(args.rpcUrl, Some(text))))
    else if IsTypedArg(lower) then s.(args := args.(typedArgs := args.typedArgs + [text]))
    else if IsNetwork(lower) then s.(args := args.(network := Some(lower)))
    else if IsBaselineMarker(lower) then s.(pending := Some(Baseline))
    else if IsCandidateMarker(lower) then s.(pending := Some(Candidate))
    else s
  }

  function Take(s: State, item: Item): State {
    match item
    case FlagItem(flag) => TakeFlag(s, flag)
    case Word(text) =>
      if IsContractId(text) then s.(args := s.args.(contract := Some(text)))
      else if IsArtifactWord(text) then
        State(AddArtifact(s.args, OrElse(s.pending, RoleFromName(Lower(text))), text), None)
      else TakeOther(s, text)
  }

  function Read(items: seq<Item>): State {
    if items == [] then State(NoArgs, None) else Take(Read(items[..|items| - 1]), items[|items| - 1])
  }

  /** Reads the item at the start of the tokens: a flag takes its value from its own token, a quoted run, or the next token. */
  method ReadItem(tokens: seq<string>) returns (item: Item, advance: nat)
    requires tokens != []
    ensures (item, advance) == NextItem(tokens)
  {
    var cleaned := TrimPunct(tokens[0]);
    advance := 1;
    if !IsFlagToken(cleaned) {
      return Word(cleaned), advance;
    }
    var flag := SplitFlag(cleaned);
    if flag.value.None? && |tokens| > 1 {
      var quoted := QuotedValue(tokens[1..]);
      if quoted.Some? {
        flag := flag.(value := Some(quoted.value.0));
        advance := 1 + quoted.value.1;
      } else {
        var next := TrimPunct(tokens[1]);
        if IsFlagValue(next) {
          flag := flag.(value := Some(next));
          advance := 2;
        }
      }
    }
    item := FlagItem(flag);
  }

  /** Reading the tokens from `i` on after the items `done` completes the reading of the request. */
  ghost predicate ReadSoFar(tokens: seq<string>, i: nat, done: seq<Item>, state: State) {
    i <= |tokens| && Items(tokens) == done + Items(tokens[i..]) && state == Read(done)
  }

  lemma ReadOn(tokens: seq<string>, i: nat, done: seq<Item>, state: State)
    requires ReadSoFar(tokens, i, done, state) && i < |tokens|
    ensures var (item, advance) := NextItem(tokens[i..]);
      ReadSoFar(tokens, i + advance, done + [item], Take(state, item))
  {
    var (item, advance) := NextItem(tokens[i..]);
    assert tokens[i..][advance..] == tokens[i + advance..];
    ItemsStep(done, tokens[i..]);
    ReadStep(done, item);
  }

  lemma ItemsStep(done: seq<Item>, rest: seq<string>)
    requires rest != []
    ensures done + Items(rest) == done + [NextItem(rest).0] + Items(rest[NextItem(rest).1..])
  {
  }

  lemma ReadStep(done: seq<Item>, item: Item)
    ensures Read(done + [item]) == Take(Read(done), item)
  {
    assert (done + [item])[..|done|] == done;
  }

  lemma ReadWhole(tokens: seq<string>)
    ensures ReadSoFar(tokens, 0, [], State(NoArgs, None))
    ensures forall done, state :: ReadSoFar(tokens, |tokens|, done, state) ==> state == Read(Items(tokens))
  {
    assert tokens[0..] == tokens && [] + Items(tokens) == Items(tokens);
    forall done, state | ReadSoFar(tokens, |tokens|, done, state) ensures state == Read(Items(tokens)) {
      ReadAll(tokens, done, state);
    }
  }

  lemma ReadAll(tokens: seq<string>, done: seq<Item>, state: State)
    requires ReadSoFar(tokens, |tokens|, done, state)
    ensures state == Read(Items(tokens))
  {
    assert tokens[|tokens|..] == [];
    assert done + [] == done;
  }

  method ReadTokens(tokens: seq<string>) returns (args: Args)
    ensures args == Read(Items(tokens)).args
  {
    ReadWhole(tokens);
    var state := State(NoArgs, None);
    var i := 0;
    ghost var done: seq<Item> := [];
    while i < |tokens|
      invariant i <= |tokens| && ReadSoFar(tokens, i, done, state)
      decreases |tokens| - i
    {
      ReadOn(tokens, i, done, state);
      var item, advance := ReadItem(tokens[i..]);
      state := Take(state, item);
      done := done + [item];
      i := i + advance;
    }
    assert i == |tokens|;
    args := state.args;
  }

  // ----- Paths and claims ---------------------------------------------------------------------------

  /** The artifact paths the items name, in order. */
  function Artifacts(items: seq<Item>): seq<string> {
    if items == [] then []
    else
      var before, last := Artifacts(items[..|items| - 1]), ArtifactOf(items[|items| - 1]);
      if last.Some? then before + [last.value] else before
  }

  ghost predicate Distinct(paths: seq<string>) {
    forall i, j :: 0 <= i < j < |paths| ==> !SameIgnoringCase(paths[i], paths[j])
  }

  /** No path is written in two letter cases. */
  ghost predicate Uniform(named: seq<string>) {
    forall a, b :: a in named && b in named && SameIgnoringCase(a, b) ==> a == b
  }

  /** The listed paths are exactly the named ones up to letter case, and roles are claimed for named paths only. */
  ghost predicate Tracks(args: Args, named: seq<string>) {
    && Distinct(args.paths)
    && (forall p :: p in args.paths ==> p in named)
    && (forall p :: p in named ==> Listed(args.paths, p))
    && (forall p :: p in args.candidates || p in args.baselines ==> p in named)
  }

  lemma AddArtifactTracks(args: Args, named: seq<string>, role: Option<Role>, path: string)
    requires Tracks(args, named)
    ensures Tracks(AddArtifact(args, role, path), named + [path])
  {
    var after := AddArtifact(args, role, path);
    forall p | p in named + [path] ensures Listed(after.paths, p) {
      if p in named {
        var i :| 0 <= i < |args.paths| && SameIgnoringCase(args.paths[i], p);
        assert after.paths[i] == args.paths[i];
      } else if !Listed(args.paths, path) {
        assert after.paths[|args.paths|] == path;
      }
    }
  }

  lemma TakeTracks(s: State, item: Item, named: seq<string>)
    requires Tracks(s.args, named)
    ensures Tracks(Take(s, item).args, if ArtifactOf(item).Some? then named + [ArtifactOf(item).value] else named)
  {
    match item
    case FlagItem(flag) =>
      var noted := s.args.(flags := s.args.flags + [flag]);
      assert Tracks(noted, named);
      if ArtifactOf(item).Some? {
        AddArtifactTracks(noted, named, RoleOfFlag(flag.name), flag.value.value);
      }
    case Word(text) =>
      if IsArtifactWord(text) {
        AddArtifactTracks(s.args, named, OrElse(s.pending, RoleFromName(Lower(text))), text);
      } else {
        OtherNamesNothing(s, text);
      }
  }

  lemma OtherNamesNothing(s: State, text: string)
    ensures var a := TakeOther(s, text).args;
      a.paths == s.args.paths && a.candidates == s.args.candidates && a.baselines == s.args.baselines
  {
  }

  /** Nothing the request names as an artifact is lost, nothing else is listed, and no path is listed twice. */
  lemma {:induction false} ArtifactsAreTracked(items: seq<Item>)
    ensures Tracks(Read(items).args, Artifacts(items))
  {
    if items != [] {
      ArtifactsAreTracked(items[..|items| - 1]);
      TakeTracks(Read(items[..|items| - 1]), items[|items| - 1], Artifacts(items[..|items| - 1]));
    }
  }

  function FlagsOf(items: seq<Item>): seq<Flag> {
    if items == [] then []
    else
      var before, last := FlagsOf(items[..|items| - 1]), items[|items| - 1];
      if last.FlagItem? then before + [last.flag] else before
  }

  /** Every flag is recorded, in request order, and free text never becomes a typed argument. */
  lemma {:induction false} FlagsAreRecorded(items: seq<Item>)
    ensures Read(items).args.flags == FlagsOf(items)
    ensures Read(items).args.typedArgs == []
  {
    if items != [] {
      var last := items[|items| - 1];
      FlagsAreRecorded(items[..|items| - 1]);
      TakeRecordsFlag(Read(items[..|items| - 1]), last);
    }
  }

  lemma TakeRecordsFlag(s: State, item: Item)
    ensures Take(s, item).args.flags == if item.FlagItem? then s.args.flags + [item.flag] else s.args.flags
    ensures Take(s, item).args.typedArgs == s.args.typedArgs
  {
    if item.Word? {
      NoWordIsTyped(Lower(item.text));
      OtherRecordsNothing(s, item.text);
    }
  }

  lemma OtherRecordsNothing(s: State, text: string)
    requires !IsTypedArg(Lower(text))
    ensures TakeOther(s, text).args.flags == s.args.flags && TakeOther(s, text).args.typedArgs == s.args.typedArgs
  {
  }

  // ----- What becomes of the other words -------------------------------------------------------------

  /** What a word is taken for; the first shape that fits counts. */
  datatype Shape = ContractId | ArtifactPath | SourceFile | EnvelopeText | Url | NetworkName | RoleMarker | Prose

  function ShapeOf(text: string): Shape {
    var lower := Lower(text);
    if IsContractId(text) then ContractId
    else if EndsWith(lower, ".wasm") then ArtifactPath
    else if EndsWith(lower, ".rs") then SourceFile
    else if EndsWith(lower, ".xdr") || IsBase64Blob(text) then EnvelopeText
    else if LooksLikeUrl(lower) then Url
    else if lower == "testnet" || lower == "mainnet" || lower == "futurenet" then NetworkName
    else if IsBaselineMarker(lower) || IsCandidateMarker(lower) then RoleMarker
    else Prose
  }

  /** The last and the first word of a shape, outside flags and their values. */
  function LastOf(items: seq<Item>, shape: Shape): Option<string> {
    if items == [] then None
    else
      var last := items[|items| - 1];
      if last.Word? && ShapeOf(last.text) == shape then Some(last.text) else LastOf(items[..|items| - 1], shape)
  }

  function FirstOf(items: seq<Item>, shape: Shape): Option<string> {
    if items == [] then None
    else
      var last := items[|items| - 1];
      OrElse(FirstOf(items[..|items| - 1], shape), if last.Word? && ShapeOf(last.text) == shape then Some(last.text) else None)
  }

  /** The last contract id, source file and network win, and the first envelope and endpoint; nothing else sets these. */
  lemma {:induction false} WordsAreUsed(items: seq<Item>)
    ensures var args := Read(items).args;
      && args.contract == LastOf(items, ContractId) && args.sourcePath == LastOf(items, SourceFile)
      && args.envelope == FirstOf(items, EnvelopeText) && args.rpcUrl == FirstOf(items, Url)
      && args.network == (var n := LastOf(items, NetworkName); if n.Some? then Some(Lower(n.value)) else None)
  {
    if items != [] {
      var last := items[|items| - 1];
      WordsAreUsed(items[..|items| - 1]);
      TakeUsesWord(Read(items[..|items| - 1]), last);
    }
  }

  lemma TakeUsesWord(s: State, item: Item)
    ensures var args := Take(s, item).args;
      var shape := if item.Word? then ShapeOf(item.text) else Prose;
      && args.contract == (if shape == ContractId then Some(item.text) else s.args.contract)
      && args.sourcePath == (if shape == SourceFile then Some(item.text) else s.args.sourcePath)
      && args.envelope == OrElse(s.args.envelope, if shape == EnvelopeText then Some(item.text) else None)
      && args.rpcUrl == OrElse(s.args.rpcUrl, if shape == Url then Some(item.text) else None)
      && args.network == (if shape == NetworkName then Some(Lower(item.text)) else s.args.network)
  {
    if item.Word? && !IsContractId(item.text) && !IsArtifactWord(item.text) {
      NoWordIsTyped(Lower(item.text));
      OtherUsesWord(s, item.text);
    }
  }

  lemma OtherUsesWord(s: State, text: string)
    requires !IsContractId(text) && !IsArtifactWord(text) && !IsTypedArg(Lower(text))
    ensures var args, shape := TakeOther(s, text).args, ShapeOf(text);
      && args.contract == s.args.contract
      && args.sourcePath == (if shape == SourceFile then Some(text) else s.args.sourcePath)
      && args.envelope == OrElse(s.args.envelope, if shape == EnvelopeText then Some(text) else None)
      && args.rpcUrl == OrElse(s.args.rpcUrl, if shape == Url then Some(text) else None)
      && args.network == (if shape == NetworkName then Some(Lower(text)) else s.args.network)
  {
  }

  /** The role announced for the next path: that of the last marker word since a path took one, if any. */
  function Announced(items: seq<Item>): Option<Role> {
    if items == [] then None
    else
      var last := items[|items| - 1];
      if ArtifactOf(last).Some? then None
      else if last.Word? && ShapeOf(last.text) == RoleMarker then
        Some(if IsBaselineMarker(Lower(last.text)) then Baseline else Candidate)
      else Announced(items[..|items| - 1])
  }

  /** The role an item claims for the path it names: that of its flag, of the announcement, or of the path's own name. */
  function ClaimOf(before: seq<Item>, item: Item): Option<Role> {
    match item
    case FlagItem(flag) => RoleOfFlag(flag.name)
    case Word(text) => OrElse(Announced(before), RoleFromName(Lower(text)))
  }

  function ClaimsFor(items: seq<Item>, role: Role): seq<string> {
    if items == [] then []
    else
      var before, last := items[..|items| - 1], items[|items| - 1];
      ClaimsFor(before, role) +
      if ArtifactOf(last).Some? && ClaimOf(before, last) == Some(role) then [ArtifactOf(last).value] else []
  }

  /** Candidate and baseline claims are exactly what flags, preceding marker words and file names say. */
  lemma {:induction false} ClaimsAreRecorded(items: seq<Item>)
    ensures Read(items).pending == Announced(items)
    ensures Read(items).args.candidates == ClaimsFor(items, Candidate) && Read(items).args.baselines == ClaimsFor(items, Baseline)
  {
    if items != [] {
      var before, last := items[..|items| - 1], items[|items| - 1];
      ClaimsAreRecorded(before);
      TakeClaims(Read(before), last);
    }
  }

  lemma TakeClaims(s: State, item: Item)
    ensures var t := Take(s, item);
      var role := if item.FlagItem? then RoleOfFlag(item.flag.name) else OrElse(s.pending, RoleFromName(Lower(item.text)));
      var path := ArtifactOf(item);
      && t.args.candidates == s.args.candidates + (if path.Some? && role == Some(Candidate) then [path.value] else [])
      && t.args.baselines == s.args.baselines + (if path.Some? && role == Some(Baseline) then [path.value] else [])
      && t.pending ==
           if path.Some? then None
           else if item.Word? && ShapeOf(item.text) == RoleMarker then
             Some(if IsBaselineMarker(Lower(item.text)) then Baseline else Candidate)
           else s.pending
  {
    if item.Word? && !IsContractId(item.text) && !IsArtifactWord(item.text) {
      NoWordIsTyped(Lower(item.text));
      OtherClaims(s, item.text);
    }
  }

  lemma OtherClaims(s: State, text: string)
    requires !IsContractId(text) && !IsArtifactWord(text) && !IsTypedArg(Lower(text))
    ensures var t := TakeOther(s, text);
      && t.args.candidates == s.args.candidates && t.args.baselines == s.args.baselines
      && t.pending ==
           if ShapeOf(text) == RoleMarker then Some(if IsBaselineMarker(Lower(text)) then Baseline else Candidate) else s.pending
  {
  }

  // ----- Roles ----------------------------------------------------------------------------------------

  /** Claims in ascending order, each once. */
  ghost predicate IsDeduped(claims: seq<string>, deduped: seq<string>) {
    && (forall i, j :: 0 <= i < j < |deduped| ==> deduped[i] != deduped[j] && StringOrder.AtMost(deduped[i], deduped[j]))
    && (forall c :: c in deduped <==> c in claims)
  }

  function InsertOnce(x: string, s: seq<string>): seq<string> {
    if s == [] || StringOrder.Less(x, s[0]) then [x] + s
    else if x == s[0] then s
    else [s[0]] + InsertOnce(x, s[1..])
  }

  function Deduped(claims: seq<string>): seq<string> {
    if claims == [] then [] else InsertOnce(claims[0], Deduped(claims[1..]))
  }

  ghost predicate Strict(s: seq<string>) {
    forall i, j :: 0 <= i < j < |s| ==> StringOrder.Less(s[i], s[j])
  }

  lemma {:induction false} InsertOnceKeepsStrict(x: string, s: seq<string>)
    requires Strict(s)
    ensures Strict(InsertOnce(x, s)) && forall c :: c in InsertOnce(x, s) <==> c == x || c in s
  {
    if s != [] {
      StringOrder.LessTotal(x, s[0]);
      if StringOrder.Less(x, s[0]) {
        forall j | 0 <= j < |s| ensures StringOrder.Less(x, s[j]) {
          if j > 0 {
            StringOrder.LessTransitive(x, s[0], s[j]);
          }
        }
      } else if x != s[0] {
        InsertOnceKeepsStrict(x, s[1..]);
        var t := InsertOnce(x, s[1..]);
        forall j | 0 <= j < |t| ensures StringOrder.Less(s[0], t[j]) {
          assert t[j] == x || t[j] in s[1..];
        }
        assert s == [s[0]] + s[1..];
      }
    }
  }

  lemma {:induction false} DedupedIsStrict(claims: seq<string>)
    ensures Strict(Deduped(claims)) && forall c :: c in Deduped(claims) <==> c in claims
  {
    if claims != [] {
      DedupedIsStrict(claims[1..]);
      InsertOnceKeepsStrict(claims[0], Deduped(claims[1..]));
      assert claims == [claims[0]] + claims[1..];
    }
  }

  /** Strictly ascending sequences of the same names are equal. */
  lemma {:induction false} StrictUnique(a: seq<string>, b: seq<string>)
    requires Strict(a) && Strict(b) && forall c :: c in a <==> c in b
    ensures a == b
  {
    assert b != [] ==> b[0] in b;
    if a != [] {
      assert a[0] in a && b != [];
      var i :| 0 <= i < |b| && b[i] == a[0];
      var j :| 0 <= j < |a| && a[j] == b[0];
      if a[0] != b[0] {
        StringOrder.LessAsymmetric(a[0], b[0]);
      }
      forall c ensures c in a[1..] <==> c in b[1..] {
        TailMembers(a, c);
        TailMembers(b, c);
      }
      StrictUnique(a[1..], b[1..]);
      assert a == [a[0]] + a[1..] && b == [b[0]] + b[1..];
    }
  }

  lemma TailMembers(s: seq<string>, c: string)
    requires Strict(s) && s != []
    ensures c in s[1..] <==> c in s && c != s[0]
  {
    if c in s[1..] {
      var k :| 0 <= k < |s[1..]| && s[1..][k] == c;
      StringOrder.LessAsymmetric(s[0], s[k + 1]);
    }
    assert s == [s[0]] + s[1..];
  }

  lemma DedupedIsDeduped(claims: seq<string>)
    ensures IsDeduped(claims, Deduped(claims))
    ensures forall d :: IsDeduped(claims, d) ==> d == Deduped(claims)
  {
    var s := Deduped(claims);
    DedupedIsStrict(claims);
    forall i, j | 0 <= i < j < |s| ensures s[i] != s[j] && StringOrder.AtMost(s[i], s[j]) {
      StringOrder.LessAsymmetric(s[i], s[j]);
    }
    forall d | IsDeduped(claims, d) ensures d == s {
      forall i, j | 0 <= i < j < |d| ensures StringOrder.Less(d[i], d[j]) {
        StringOrder.LessTotal(d[i], d[j]);
      }
      StrictUnique(d, s);
    }
  }

  method DedupClaims(claims: seq<string>) returns (deduped: seq<string>)
    ensures IsDeduped(claims, deduped) && deduped == Deduped(claims)
  {
    var sorted := StringOrder.Sort(claims);
    assert forall c :: c in sorted <==> c in multiset(sorted);
    assert forall c :: c in claims <==> c in multiset(claims);
    deduped := [];
    for i := 0 to |sorted|
      invariant IsDeduped(sorted[..i], deduped)
      invariant i > 0 ==> deduped != [] && deduped[|deduped| - 1] == sorted[i - 1]
    {
      ghost var before := deduped;
      if i == 0 || sorted[i] != sorted[i - 1] {
        DedupNext(sorted, i, deduped);
        deduped := deduped + [sorted[i]];
      }
      assert sorted[..i + 1] == sorted[..i] + [sorted[i]];
    }
    assert sorted[..|sorted|] == sorted;
    assert IsDeduped(claims, deduped);
    DedupedIsDeduped(claims);
  }

  lemma DedupNext(sorted: seq<string>, i: nat, deduped: seq<string>)
    requires StringOrder.Ascending(sorted) && i < |sorted| && IsDeduped(sorted[..i], deduped)
    requires i > 0 ==> deduped != [] && deduped[|deduped| - 1] == sorted[i - 1] && sorted[i] != sorted[i - 1]
    ensures IsDeduped(sorted[..i + 1], deduped + [sorted[i]])
  {
    assert sorted[..i + 1] == sorted[..i] + [sorted[i]];
    forall k | 0 <= k < |deduped| ensures deduped[k] != sorted[i] && StringOrder.AtMost(deduped[k], sorted[i]) {
      assert deduped[k] in sorted[..i];
      var m :| 0 <= m < i && sorted[m] == deduped[k];
      assert StringOrder.AtMost(sorted[m], sorted[i]);
      if sorted[m] == sorted[i] {
        assert StringOrder.AtMost(sorted[i - 1], sorted[i]);
        assert m < i - 1 ==> StringOrder.AtMost(sorted[m], sorted[i - 1]);
        StringOrder.LessTotal(sorted[i - 1], sorted[i]);
      }
    }
  }

  /** Deduplicated claims have one element exactly if all claims agree on it. */
  lemma DedupedShape(claims: seq<string>, d: seq<string>)
    requires IsDeduped(claims, d)
    ensures d == [] <==> claims == []
    ensures |d| == 1 ==> forall c :: c in claims <==> c == d[0]
    ensures claims != [] && (forall c :: c in claims ==> c == claims[0]) ==> d == [claims[0]]
  {
    assert claims != [] ==> claims[0] in d;
    assert d != [] ==> d[0] in claims;
    assert |d| > 1 ==> d[1] in claims && d[0] != d[1];
  }

  datatype Roles = Unresolved | Resolved(candidate: string, baseline: string)

  function OtherPath(paths: seq<string>, claimed: string): (r: Option<string>)
    ensures r.Some? ==> r.value in paths && !SameIgnoringCase(r.value, claimed)
    ensures r.None? ==> forall p :: p in paths ==> SameIgnoringCase(p, claimed)
  {
    if paths == [] then None
    else if !SameIgnoringCase(paths[0], claimed) then Some(paths[0])
    else OtherPath(paths[1..], claimed)
  }

  /** The roles of two paths, from deduplicated claims. */
  function PairRoles(paths: seq<string>, candidates: seq<string>, baselines: seq<string>): Roles {
    if |candidates| == 1 && |baselines| == 1 && candidates[0] != baselines[0] then
      Resolved(candidates[0], baselines[0])
    else if |candidates| == 1 && baselines == [] then
      var other := OtherPath(paths, candidates[0]);
      if other.Some? then Resolved(candidates[0], other.value) else Unresolved
    else if candidates == [] && |baselines| == 1 then
      var other := OtherPath(paths, baselines[0]);
      if other.Some? then Resolved(other.value, baselines[0]) else Unresolved
    else Unresolved
  }

  predicate AllAgree(claims: seq<string>) {
    forall i :: 0 <= i < |claims| ==> claims[i] == claims[0]
  }

  /** The claims of two paths settle their roles: at most one path per role, not the same for both, and some claim. */
  predicate Settled(candidates: seq<string>, baselines: seq<string>) {
    && (candidates != [] || baselines != [])
    && AllAgree(candidates) && AllAgree(baselines)
    && (candidates != [] && baselines != [] ==> candidates[0] != baselines[0])
  }

  function WithRoles(args: Args, roles: Roles): Args {
    match roles
    case Unresolved => args
    case Resolved(c, b) => args.(wasm := Some(c), previousWasm := Some(b))
  }

  /** The arguments with roles assigned from their deduplicated claims. */
  function Assigned(args: Args): Args {
    var c, b := Deduped(args.candidates), Deduped(args.baselines);
    var r := args.(candidates := c, baselines := b);
    match |args.paths|
    case 0 => r
    case 1 => r.(wasm := Some(args.paths[0]))
    case 2 => WithRoles(r, PairRoles(args.paths, c, b))
    case _ => WithRoles(r, if |c| == 1 && |b| == 1 && c[0] != b[0] then Resolved(c[0], b[0]) else Unresolved)
  }

  method AssignRoles(args: Args) returns (r: Args)
    ensures r == Assigned(args)
  {
    var c := DedupClaims(args.candidates);
    var b := DedupClaims(args.baselines);
    r := args.(candidates := c, baselines := b);
    if |args.paths| == 0 {
    } else if |args.paths| == 1 {
      r := r.(wasm := Some(args.paths[0]));
    } else if |args.paths| == 2 {
      var roles := PairRoles(args.paths, c, b);
      if roles.Resolved? {
        r := r.(wasm := Some(roles.candidate), previousWasm := Some(roles.baseline));
      }
    } else if |c| == 1 && |b| == 1 && c[0] != b[0] {
      r := r.(wasm := Some(c[0]), previousWasm := Some(b[0]));
    }
  }

  lemma AssignedIs(args: Args)
    requires args.wasm.None? && args.previousWasm.None?
    ensures IsDeduped(args.candidates, Deduped(args.candidates)) && IsDeduped(args.baselines, Deduped(args.baselines))
    ensures RolesAssigned(args, Deduped(args.candidates), Deduped(args.baselines), Assigned(args))
  {
    DedupedIsDeduped(args.candidates);
    DedupedIsDeduped(args.baselines);
  }

  /** What role assignment leaves, given the deduplicated claims. */
  ghost predicate RolesAssigned(args: Args, c: seq<string>, b: seq<string>, r: Args) {
    && r == args.(candidates := c, baselines := b, wasm := r.wasm, previousWasm := r.previousWasm)
    && match |args.paths|
       case 0 => r.wasm.None? && r.previousWasm.None?
       case 1 => r.wasm == Some(args.paths[0]) && r.previousWasm.None?
       case 2 => HasRoles(r, PairRoles(args.paths, c, b))
       case _ => HasRoles(r, if |c| == 1 && |b| == 1 && c[0] != b[0] then Resolved(c[0], b[0]) else Unresolved)
  }

  predicate HasRoles(r: Args, roles: Roles) {
    match roles
    case Unresolved => r.wasm.None? && r.previousWasm.None?
    case Resolved(c, b) => r.wasm == Some(c) && r.previousWasm == Some(b)
  }

  lemma ClaimLeavesOther(paths: seq<string>, claim: string)
    requires |paths| == 2 && Distinct(paths) && Listed(paths, claim)
    ensures OtherPath(paths, claim) ==
      Some(if SameIgnoringCase(paths[0], claim) then paths[1] else paths[0])
  {
    assert !SameIgnoringCase(paths[0], paths[1]);
    assert OtherPath(paths[1..], claim) ==
      if SameIgnoringCase(paths[1], claim) then OtherPath([], claim) else Some(paths[1]) by {
      assert paths[1..][1..] == [];
    }
  }

  /**
    Roles of two paths: both are set or neither is, exactly when the claims settle
    them; they differ; and they never go against a claim.
   */
  lemma PairIsResolved(paths: seq<string>, candidates: seq<string>, baselines: seq<string>, c: seq<string>, b: seq<string>)
    requires |paths| == 2 && Distinct(paths)
    requires forall p :: p in candidates || p in baselines ==> Listed(paths, p)
    requires IsDeduped(candidates, c) && IsDeduped(baselines, b)
    ensures var roles := PairRoles(paths, c, b);
      && (roles.Resolved? <==> Settled(candidates, baselines))
      && (roles.Resolved? ==>
            && roles.candidate != roles.baseline
            && (candidates != [] ==> roles.candidate == candidates[0])
            && (baselines != [] ==> roles.baseline == baselines[0]))
  {
    DedupedShape(candidates, c);
    DedupedShape(baselines, b);
    assert candidates != [] ==> candidates[0] in candidates;
    assert baselines != [] ==> baselines[0] in baselines;
    assert |c| == 1 <==> candidates != [] && AllAgree(candidates) by {
      AgreeingClaims(candidates, c);
    }
    assert |b| == 1 <==> baselines != [] && AllAgree(baselines) by {
      AgreeingClaims(baselines, b);
    }
    if |c| == 1 && b == [] {
      ClaimLeavesOther(paths, c[0]);
    }
    if c == [] && |b| == 1 {
      ClaimLeavesOther(paths, b[0]);
    }
  }

  lemma AgreeingClaims(claims: seq<string>, d: seq<string>)
    requires IsDeduped(claims, d)
    ensures |d| == 1 <==> claims != [] && AllAgree(claims)
    ensures |d| == 1 ==> d[0] == claims[0]
  {
    DedupedShape(claims, d);
    if |d| == 1 {
      assert forall i :: 0 <= i < |claims| ==> claims[i] in claims;
    }
  }

  /** With one spelling per path, settled roles are the two paths, one each. */
  lemma PairIsCovered(paths: seq<string>, c: seq<string>, b: seq<string>)
    requires |paths| == 2 && Distinct(paths)
    requires forall p :: p in c || p in b ==> p in paths
    requires PairRoles(paths, c, b).Resolved?
    ensures var roles := PairRoles(paths, c, b);
      multiset{roles.candidate, roles.baseline} == multiset(paths)
  {
    var roles := PairRoles(paths, c, b);
    assert paths == [paths[0], paths[1]];
    assert |c| == 1 ==> c[0] in paths;
    assert |b| == 1 ==> b[0] in paths;
    if |c| == 1 && b == [] {
      assert Listed(paths, c[0]);
      ClaimLeavesOther(paths, c[0]);
    }
    if c == [] && |b| == 1 {
      assert Listed(paths, b[0]);
      ClaimLeavesOther(paths, b[0]);
    }
  }

  /** A path claimed for both roles in two letter cases takes both, and the other path none. */
  lemma TwoSpellingsTakeBothRoles()
    ensures PairRoles(["A.wasm", "b.wasm"], ["A.wasm"], ["a.wasm"]) == Resolved("A.wasm", "a.wasm")
    ensures SameIgnoringCase("A.wasm", "a.wasm")
  {
    assert "A.wasm"[0] != "a.wasm"[0];
    assert Lower("A.wasm") == "a.wasm" == Lower("a.wasm");
  }

  /** The order in which two paths are listed does not matter. */
  lemma ListingOrderIsIrrelevant(p: string, q: string, c: seq<string>, b: seq<string>)
    requires !SameIgnoringCase(p, q)
    requires forall x :: x in c || x in b ==> Listed([p, q], x)
    ensures PairRoles([p, q], c, b) == PairRoles([q, p], c, b)
  {
    assert Distinct([p, q]) && Distinct([q, p]);
    forall x | x in c || x in b ensures OtherPath([p, q], x) == OtherPath([q, p], x) {
      var i :| 0 <= i < 2 && SameIgnoringCase([p, q][i], x);
      assert SameIgnoringCase([q, p][1 - i], x);
      ClaimLeavesOther([p, q], x);
      ClaimLeavesOther([q, p], x);
    }
  }

  /** A single path becomes the candidate whatever the request claims: against a claim exactly if it is claimed as the baseline. */
  lemma LoneBaselineBecomesCandidate(args: Args, named: seq<string>, c: seq<string>, b: seq<string>, r: Args)
    requires Tracks(args, named) && |args.paths| == 1 && RolesAssigned(args, c, b, r)
    ensures r.wasm == Some(args.paths[0]) && r.previousWasm.None?
    ensures Listed(args.baselines, r.wasm.value) <==> args.baselines != []
  {
    if args.baselines != [] {
      var claim := args.baselines[0];
      assert claim in args.baselines;
      assert Listed(args.paths, claim);
    }
  }

  // ----- The whole extraction -----------------------------------------------------------------------------

  function FlagValue(flags: seq<Flag>, name: string): Option<string> {
    if flags == [] then None
    else if flags[0].name == name then flags[0].value
    else FlagValue(flags[1..], name)
  }

  predicate HasFlag(flags: seq<Flag>, name: string) {
    exists i :: 0 <= i < |flags| && flags[i].name == name
  }

  /** Adds the values of a repeated flag that are not there yet. */
  function AddValues(typed: seq<string>, flags: seq<Flag>, name: string): seq<string>
    decreases |flags|
  {
    if flags == [] then typed
    else
      var f := flags[0];
      var more := if f.name == name && f.value.Some? && f.value.value !in typed then typed + [f.value.value] else typed;
      AddValues(more, flags[1..], name)
  }

  predicate SaysRpc(tokens: seq<string>) {
    exists i :: 0 <= i < |tokens| && Lower(TrimPunct(tokens[i])) == "rpc"
  }

  /** The values that flags carry win over what free text supplied. */
  function Carried(args: Args, tokens: seq<string>): Args {
    var url, envelope := FlagValue(args.flags, "--rpc-url"), FlagValue(args.flags, "--envelope");
    args.(
      baseFees := FlagValue(args.flags, "--base-fees"),
      useRpc := HasFlag(args.flags, "--rpc") || SaysRpc(tokens),
      rpcUrl := OrElse(url, args.rpcUrl),
      passphrase := FlagValue(args.flags, "--network-passphrase"),
      envelope := OrElse(envelope, args.envelope),
      typedArgs := AddValues(args.typedArgs, args.flags, "--args"))
  }

  /** The values of the flags the planner interprets are those of the first flag of each name; only `--args` may repeat. */
  predicate CarriesFlags(args: Args) {
    && (FlagValue(args.flags, "--rpc-url").Some? ==> args.rpcUrl == FlagValue(args.flags, "--rpc-url"))
    && (FlagValue(args.flags, "--envelope").Some? ==> args.envelope == FlagValue(args.flags, "--envelope"))
    && args.passphrase == FlagValue(args.flags, "--network-passphrase")
    && args.baseFees == FlagValue(args.flags, "--base-fees")
    && (HasFlag(args.flags, "--rpc") ==> args.useRpc)
    && args.typedArgs == AddValues([], args.flags, "--args")
  }

  /**
    What extraction guarantees: every artifact the request names is listed once up
    to letter case, claims and flags are recorded, and two paths carry both roles
    or none, exactly as the claims settle them.
   */
  ghost predicate Extracted(tokens: seq<string>, args: Args) {
    var read := Read(Items(tokens)).args;
    && Tracks(args, Artifacts(Items(tokens)))
    && args.flags == FlagsOf(Items(tokens))
    && (forall p :: p in args.candidates <==> p in read.candidates)
    && (forall p :: p in args.baselines <==> p in read.baselines)
    && CarriesFlags(args)
    && (|args.paths| == 0 ==> args.wasm.None? && args.previousWasm.None?)
    && (|args.paths| == 1 ==> args.wasm == Some(args.paths[0]) && args.previousWasm.None?)
    && (|args.paths| == 2 ==>
          && (args.wasm.Some? <==> args.previousWasm.Some?)
          && (args.wasm.Some? <==> Settled(read.candidates, read.baselines))
          && (args.wasm.Some? ==>
                && args.wasm != args.previousWasm
                && (read.candidates != [] ==> args.wasm.value == read.candidates[0])
                && (read.baselines != [] ==> args.previousWasm.value == read.baselines[0]))
          && (args.wasm.Some? && Uniform(Artifacts(Items(tokens))) ==>
                multiset{args.wasm.value, args.previousWasm.value} == multiset(args.paths)))
  }

  /** The arguments of a request, given the function and profile names found in its words. */
  function ExtractedArgs(tokens: seq<string>, fn: Option<string>, profile: Option<string>): Args {
    Assigned(Carried(Read(Items(tokens)).args, tokens)).(fn := fn, profile := profile)
  }

  method ExtractArgs(tokens: seq<string>, fn: Option<string>, profile: Option<string>) returns (args: Args)
    ensures args == ExtractedArgs(tokens, fn, profile) && Extracted(tokens, args)
  {
    var read := ReadTokens(tokens);
    var carried := Carried(read, tokens);
    var settled := AssignRoles(carried);
    args := settled.(fn := fn, profile := profile);
    ExtractedArgsMeans(tokens, fn, profile);
  }

  lemma ExtractedArgsMeans(tokens: seq<string>, fn: Option<string>, profile: Option<string>)
    ensures Extracted(tokens, ExtractedArgs(tokens, fn, profile))
  {
    RolesStartUnset(Items(tokens));
    var carried := Carried(Read(Items(tokens)).args, tokens);
    AssignedIs(carried);
    ExtractionHolds(tokens, carried, Deduped(carried.candidates), Deduped(carried.baselines), Assigned(carried),
                    ExtractedArgs(tokens, fn, profile));
  }

  lemma {:induction false} RolesStartUnset(items: seq<Item>)
    ensures Read(items).args.wasm.None? && Read(items).args.previousWasm.None?
  {
    if items != [] {
      RolesStartUnset(items[..|items| - 1]);
      TakeKeepsRoles(Read(items[..|items| - 1]), items[|items| - 1]);
    }
  }

  lemma TakeKeepsRoles(s: State, item: Item)
    ensures SameRoles(Take(s, item).args, s.args)
  {
    match item
    case FlagItem(flag) =>
      assert SameRoles(TakeFlag(s, flag).args, s.args);
    case Word(text) =>
      if !IsContractId(text) && !IsArtifactWord(text) {
        OtherKeepsRoles(s, text);
      }
  }

  predicate SameRoles(a: Args, b: Args) {
    a.wasm == b.wasm && a.previousWasm == b.previousWasm
  }

  lemma OtherKeepsRoles(s: State, text: string)
    ensures SameRoles(TakeOther(s, text).args, s.args)
  {
  }

  lemma ExtractionHolds(tokens: seq<string>, carried: Args, c: seq<string>, b: seq<string>, settled: Args, args: Args)
    requires carried == Carried(Read(Items(tokens)).args, tokens)
    requires IsDeduped(carried.candidates, c) && IsDeduped(carried.baselines, b) && RolesAssigned(carried, c, b, settled)
    requires args == settled.(fn := args.fn, profile := args.profile)
    ensures Extracted(tokens, args)
  {
    var items := Items(tokens);
    var read := Read(items).args;
    ArtifactsAreTracked(items);
    FlagsAreRecorded(items);
    assert Tracks(args, Artifacts(items));
    assert CarriesFlags(args);
    if |args.paths| == 2 {
      PairIsResolved(args.paths, read.candidates, read.baselines, c, b);
      if args.wasm.Some? && Uniform(Artifacts(items)) {
        UniformClaims(args, Artifacts(items));
        PairIsCovered(args.paths, c, b);
      }
    }
  }

  lemma UniformClaims(args: Args, named: seq<string>)
    requires Tracks(args, named) && Uniform(named)
    ensures forall p :: p in args.candidates || p in args.baselines ==> p in args.paths
  {
    forall p | p in args.candidates || p in args.baselines ensures p in args.paths {
      assert p in named && Listed(args.paths, p);
    }
  }
}
