/** Which flags a command line carries: when all of them are declared, and when every flag of the request reaches it. */
module RequestFlags {
  import opened Texts
  import opened Outcomes
  import opened RequestArgs
  import opened RequestPlan

  // ----- Undeclared flags -----------------------------------------------------------------------------------

  /** A flag of the command line. */
  predicate Emits(cap: Capability, args: Args, flag: string) {
    || (exists i :: 0 <= i < |args.flags| && args.flags[i].name == flag && !Managed(flag) && args.flags[i].value.Some?)
    || (exists i :: 0 <= i < |Slots(cap, args)| && Slots(cap, args)[i].flag == Some(flag))
    || (flag == "--contract" && args.contract.Some? && Mentions(cap, flag))
    || EmitsInTail(cap, args, flag)
  }

  /** The flags whose text is looked for anywhere in the entries. */
  predicate SoughtByText(flag: string) {
    flag == "--contract" || flag == "--envelope" || flag == "--args" || flag == "--base-fees" || flag == "--rpc"
  }

  /** No flag is mentioned without being declared, an endpoint comes with both of its flags, and JSON with `--format`. */
  ghost predicate DeclaresWhatItMentions(cap: Capability) {
    && (forall flag :: SoughtByText(flag) && Mentions(cap, flag) ==> Declares(cap, flag))
    && (TakesEndpoint(cap) ==> Declares(cap, "--rpc-url") && Declares(cap, "--network-passphrase"))
    && (cap.json ==> Declares(cap, "--format"))
  }

  /** Every flag of every command line for the operation is declared. */
  ghost predicate SendsOnlyDeclared(cap: Capability) {
    forall args, flag :: Buildable(cap, args) && Emits(cap, args, flag) ==> Declares(cap, flag)
  }

  /** An operation is only ever sent declared flags, if and only if its registry entries meet that condition. */
  lemma FlagsAreDeclaredIff(cap: Capability)
    ensures SendsOnlyDeclared(cap) <==> DeclaresWhatItMentions(cap)
  {
    if DeclaresWhatItMentions(cap) {
      forall args, flag | Buildable(cap, args) && Emits(cap, args, flag) ensures Declares(cap, flag) {
        EmittedIsDeclared(cap, args, flag);
      }
    }
    if SendsOnlyDeclared(cap) {
      forall flag | SoughtByText(flag) && Mentions(cap, flag) ensures Declares(cap, flag) {
        MentionedIsEmitted(cap, flag);
      }
      DefaultsAreDeclared(cap);
    }
  }

  lemma DefaultsAreDeclared(cap: Capability)
    requires SendsOnlyDeclared(cap)
    ensures TakesEndpoint(cap) ==> Declares(cap, "--rpc-url") && Declares(cap, "--network-passphrase")
    ensures cap.json ==> Declares(cap, "--format")
  {
    BareRequestBuilds(cap);
    assert TakesEndpoint(cap) ==> Emits(cap, NoArgs, "--rpc-url") && Emits(cap, NoArgs, "--network-passphrase");
    assert cap.json ==> Emits(cap, NoArgs, "--format");
  }

  lemma EmittedIsDeclared(cap: Capability, args: Args, flag: string)
    requires DeclaresWhatItMentions(cap) && Buildable(cap, args) && Emits(cap, args, flag)
    ensures Declares(cap, flag)
  {
    if i :| 0 <= i < |args.flags| && args.flags[i].name == flag && !Managed(flag) && args.flags[i].value.Some? {
      assert FlagAccepted(cap, args.flags[i]);
    } else if i :| 0 <= i < |Slots(cap, args)| && Slots(cap, args)[i].flag == Some(flag) {
      SlotFlagIsDeclared(cap, args, i);
    }
  }

  lemma SlotFlagIsDeclared(cap: Capability, args: Args, i: nat)
    requires i < |Slots(cap, args)| && Slots(cap, args)[i].flag.Some?
    ensures Declares(cap, Slots(cap, args)[i].flag.value)
  {
    assert BaselineFlag(cap).Some? ==> Declares(cap, BaselineFlag(cap).value);
    assert CandidateFlag(cap).Some? ==> Declares(cap, CandidateFlag(cap).value);
  }

  /** A request that makes the flag part of the command line. */
  function ArgsWith(flag: string): Args
    requires SoughtByText(flag)
  {
    if flag == "--contract" then NoArgs.(contract := Some(""))
    else if flag == "--envelope" then NoArgs.(envelope := Some(""))
    else if flag == "--args" then NoArgs.(typedArgs := [""])
    else if flag == "--base-fees" then NoArgs.(baseFees := Some(""))
    else NoArgs.(useRpc := true)
  }

  lemma BareRequestBuilds(cap: Capability)
    ensures Buildable(cap, NoArgs)
  {
  }

  lemma MentionedIsEmitted(cap: Capability, flag: string)
    requires SoughtByText(flag) && Mentions(cap, flag)
    ensures Buildable(cap, ArgsWith(flag)) && Emits(cap, ArgsWith(flag), flag)
  {
  }

  /** The emitted flags are words of the command line. */
  lemma EmittedIsOnTheLine(cap: Capability, args: Args, flag: string)
    requires Emits(cap, args, flag)
    ensures flag in Argv(cap, args)
  {
    if i :| 0 <= i < |args.flags| && args.flags[i].name == flag && !Managed(flag) && args.flags[i].value.Some? {
      PassThroughHolds(args.flags, i);
    } else if i :| 0 <= i < |Slots(cap, args)| && Slots(cap, args)[i].flag == Some(flag) {
      SlotWordsHold(Slots(cap, args), i);
    } else if flag == "--contract" && args.contract.Some? && Mentions(cap, flag) {
      assert ContractWords(cap, args)[0] == flag;
    } else {
      EmittedInTail(cap, args, flag);
    }
  }

  lemma {:induction false} PassThroughHolds(flags: seq<Flag>, i: nat)
    requires i < |flags| && !Managed(flags[i].name) && flags[i].value.Some?
    ensures flags[i].name in PassThrough(flags)
  {
    if i > 0 {
      PassThroughHolds(flags[1..], i - 1);
    }
  }

  lemma {:induction false} SlotWordsHold(slots: seq<Slot>, i: nat)
    requires i < |slots| && slots[i].flag.Some?
    ensures slots[i].flag.value in SlotWords(slots)
  {
    if i > 0 {
      SlotWordsHold(slots[1..], i - 1);
    }
  }

  predicate EmitsInTail(cap: Capability, args: Args, flag: string) {
    || (flag == "--envelope" && args.envelope.Some?)
    || (flag == "--args" && args.typedArgs != [])
    || (flag == "--base-fees" && args.baseFees.Some?)
    || (flag == "--rpc" && Live(cap, args))
    || ((flag == "--rpc-url" || flag == "--network-passphrase") && PinsEndpoint(cap, args))
    || (flag == "--format" && FormatWords(cap, args) != [])
  }

  lemma EmittedInTail(cap: Capability, args: Args, flag: string)
    requires EmitsInTail(cap, args, flag)
    ensures flag in Tail(cap, args)
  {
    var live := if Live(cap, args) then ["--rpc"] else [];
    var repeated := RepeatedWords("--args", args.typedArgs);
    assert args.typedArgs != [] ==> repeated[|repeated| - 2] == "--args";
    assert args.envelope.Some? ==> FlagWords("--envelope", args.envelope)[0] == "--envelope";
    assert args.baseFees.Some? ==> FlagWords("--base-fees", args.baseFees)[0] == "--base-fees";
    assert Live(cap, args) ==> live[0] == "--rpc";
    assert PinsEndpoint(cap, args) ==>
      EndpointWords(cap, args)[0] == "--rpc-url" && EndpointWords(cap, args)[2] == "--network-passphrase";
    assert FormatWords(cap, args) != [] ==> FormatWords(cap, args)[0] == "--format";
    assert flag in FlagWords("--envelope", args.envelope) || flag in repeated || flag in FlagWords("--base-fees", args.baseFees)
      || flag in live || flag in EndpointWords(cap, args) || flag in FormatWords(cap, args);
  }

  /** The registry's entry for `verify`. */
  const Verify := Capability(
    "verify", ["verify"], ["--contract <C...>"],
    ["--rpc-url", "--network-passphrase", "--wasm <f>", "--network", "--network-profile", "--format", "--upgrade-safety"],
    true, true, true, true, false)

  /** A first word stands at the start of its entry and ends at a space or with it. */
  lemma {:induction false} FirstWordShape(entry: string)
    requires entry != "" && !IsWhite(entry[0])
    ensures FirstWord(entry) <= entry
    ensures |FirstWord(entry)| == |entry| || IsWhite(entry[|FirstWord(entry)|])
  {
    WordEndShape(entry);
  }

  lemma {:induction false} WordEndShape(s: string)
    ensures WordEnd(s) == |s| || IsWhite(s[WordEnd(s)])
  {
    if s != "" && !IsWhite(s[0]) {
      WordEndShape(s[1..]);
    }
  }

  lemma VerifyDeclaresNoRpc(i: nat)
    requires i < |Entries(Verify)|
    ensures FirstWord(Entries(Verify)[i]) != "--rpc"
  {
    var entry := Entries(Verify)[i];
    assert |entry| > 5 && entry[0] == '-' && !IsWhite(entry[5]);
    IsNotRpc(entry);
  }

  lemma IsNotRpc(entry: string)
    requires |entry| > 5 && !IsWhite(entry[0]) && !IsWhite(entry[5])
    ensures FirstWord(entry) != "--rpc"
  {
    FirstWordShape(entry);
  }

  /** `verify ... --rpc` is planned with `--rpc` on the command line, which only `--rpc-url` brought in. */
  lemma UndeclaredFlagIsSent(contract: string, wasm: string) returns (args: Args)
    ensures args.flags == [Flag("--rpc", None)] && args.paths == [wasm] && args.contract == Some(contract)
    ensures Buildable(Verify, args) && "--rpc" in Argv(Verify, args) && !Declares(Verify, "--rpc")
  {
    args := NoArgs.(contract := Some(contract), wasm := Some(wasm), paths := [wasm], useRpc := true, flags := [Flag("--rpc", None)]);
    VerifyMentionsRpc();
    VerifyTakesWasm();
    forall i | 0 <= i < |Entries(Verify)| ensures FirstWord(Entries(Verify)[i]) != "--rpc" {
      VerifyDeclaresNoRpc(i);
    }
    assert !HasFlag(args.flags, "--format");
    EmittedIsOnTheLine(Verify, args, "--rpc");
  }

  lemma VerifyMentionsRpc()
    ensures Mentions(Verify, "--rpc")
  {
    var entry := "--rpc-url";
    assert Entries(Verify)[1] == entry && "--rpc" <= entry;
    assert Contains(entry, "--rpc");
  }

  lemma VerifyTakesWasm()
    ensures Capacity(Verify) >= 1
  {
    var entry := "--wasm <f>";
    assert Entries(Verify)[3] == entry;
    WordOf("--wasm", " <f>");
    assert entry == "--wasm" + " <f>";
  }

  lemma WordOf(word: string, rest: string)
    requires word != "" && rest != "" && IsWhite(rest[0]) && forall i :: 0 <= i < |word| ==> !IsWhite(word[i])
    ensures FirstWord(word + rest) == word
  {
    WordEndOf(word, rest);
    assert (word + rest)[..|word|] == word;
  }

  lemma {:induction false} WordEndOf(word: string, rest: string)
    requires rest != "" && IsWhite(rest[0]) && forall i :: 0 <= i < |word| ==> !IsWhite(word[i])
    ensures WordEnd(word + rest) == |word|
  {
    if word != "" {
      assert (word + rest)[1..] == word[1..] + rest;
      WordEndOf(word[1..], rest);
    } else {
      assert word + rest == rest;
    }
  }

  // ----- Flags that do not reach the command line ------------------------------------------------------------

  predicate IsEndpointFlag(name: string) {
    name == "--rpc-url" || name == "--network-passphrase"
  }

  /** What the plan does with a flag of the request: its value, and for `--rpc` the flag itself, reaches the command line. */
  predicate Reaches(cap: Capability, args: Args, flag: Flag) {
    if flag.name == "--rpc" then Live(cap, args)
    else
      && flag.value.Some?
      && var v := flag.value.value;
      if !Managed(flag.name) then true
      else if RoleOfFlag(flag.name).Some? then v in SlotPaths(Slots(cap, args))
      else if flag.name == "--args" then v in args.typedArgs
      else if flag.name == "--rpc-url" then PinsEndpoint(cap, args) && EndpointOf(args).url == v
      else if flag.name == "--network-passphrase" then PinsEndpoint(cap, args) && EndpointOf(args).passphrase == v
      else if flag.name == "--envelope" then args.envelope == flag.value
      else if flag.name == "--base-fees" then args.baseFees == flag.value
      else Format(args) == flag.value
  }

  /** Flags of which only the first of each name counts. */
  predicate IsSingle(name: string) {
    IsEndpointFlag(name) || name == "--envelope" || name == "--base-fees" || name == "--format"
  }

  /**
    A flag has a value unless it is `--rpc`, repeats no single flag with another
    value, and names an endpoint only where one is used.
   */
  predicate Kept(cap: Capability, args: Args, flag: Flag) {
    && (flag.name != "--rpc" ==> flag.value.Some?)
    && (IsSingle(flag.name) ==> flag.value == FlagValue(args.flags, flag.name))
    && (IsEndpointFlag(flag.name) ==> PinsEndpoint(cap, args))
  }

  /**
    Nothing the request asks for by a flag vanishes from a runnable plan, if and
    only if every flag is kept in that sense.
   */
  lemma EveryFlagReachesIff(cap: Capability, tokens: seq<string>, args: Args, argv: seq<string>)
    requires Runnable(cap, tokens, args, argv) && Uniform(Artifacts(Items(tokens)))
    ensures (forall f :: f in args.flags ==> Reaches(cap, args, f)) <==> (forall f :: f in args.flags ==> Kept(cap, args, f))
  {
    if forall f :: f in args.flags ==> Kept(cap, args, f) {
      forall f | f in args.flags ensures Reaches(cap, args, f) {
        KeptReaches(cap, tokens, args, argv, f);
      }
    }
    if forall f :: f in args.flags ==> Reaches(cap, args, f) {
      forall f | f in args.flags ensures Kept(cap, args, f) {
        ReachedIsKept(cap, args, f);
      }
    }
  }

  lemma {:induction false} FirstValue(flags: seq<Flag>, name: string)
    ensures HasFlag(flags, name) ==> exists f :: f in flags && f.name == name && f.value == FlagValue(flags, name)
    ensures !HasFlag(flags, name) ==> FlagValue(flags, name).None?
  {
    if flags != [] {
      FirstValue(flags[1..], name);
      if flags[0].name == name {
        assert flags[0] in flags;
      } else if HasFlag(flags, name) {
        var i :| 0 <= i < |flags| && flags[i].name == name;
        assert flags[1..][i - 1].name == name;
      }
    }
  }

  lemma ReachedIsKept(cap: Capability, args: Args, f: Flag)
    requires CarriesFlags(args) && f in args.flags && forall g :: g in args.flags ==> Reaches(cap, args, g)
    ensures Kept(cap, args, f)
  {
    if IsSingle(f.name) {
      var i :| 0 <= i < |args.flags| && args.flags[i] == f;
      assert HasFlag(args.flags, f.name);
      FirstValue(args.flags, f.name);
      var g :| g in args.flags && g.name == f.name && g.value == FlagValue(args.flags, f.name);
      assert Reaches(cap, args, g) && Reaches(cap, args, f);
    }
  }

  lemma KeptReaches(cap: Capability, tokens: seq<string>, args: Args, argv: seq<string>, f: Flag)
    requires Runnable(cap, tokens, args, argv) && Uniform(Artifacts(Items(tokens)))
    requires f in args.flags && Kept(cap, args, f)
    ensures Reaches(cap, args, f)
  {
    if f.name == "--rpc" {
      var i :| 0 <= i < |args.flags| && args.flags[i] == f;
      assert HasFlag(args.flags, "--rpc");
    } else if RoleOfFlag(f.name).Some? {
      ArtifactFlagReaches(cap, tokens, args, argv, f);
    } else if f.name == "--args" {
      AddedValues([], args.flags, "--args", f);
    }
  }

  lemma {:induction false} AddedValues(typed: seq<string>, flags: seq<Flag>, name: string, f: Flag)
    ensures forall v :: v in typed ==> v in AddValues(typed, flags, name)
    ensures f in flags && f.name == name && f.value.Some? ==> f.value.value in AddValues(typed, flags, name)
    decreases |flags|
  {
    if flags != [] {
      var g := flags[0];
      var more := if g.name == name && g.value.Some? && g.value.value !in typed then typed + [g.value.value] else typed;
      AddedValues(more, flags[1..], name, f);
    }
  }

  lemma {:induction false} FlagArtifactIsNamed(items: seq<Item>, f: Flag)
    requires f in FlagsOf(items) && RoleOfFlag(f.name).Some? && f.value.Some?
    ensures f.value.value in Artifacts(items)
  {
    var before, last := items[..|items| - 1], items[|items| - 1];
    if f in FlagsOf(before) {
      FlagArtifactIsNamed(before, f);
    } else {
      assert last == FlagItem(f);
    }
  }

  lemma ArtifactFlagReaches(cap: Capability, tokens: seq<string>, args: Args, argv: seq<string>, f: Flag)
    requires Runnable(cap, tokens, args, argv) && Uniform(Artifacts(Items(tokens)))
    requires f in args.flags && RoleOfFlag(f.name).Some? && f.value.Some?
    ensures f.value.value in SlotPaths(Slots(cap, args))
  {
    var v, named := f.value.value, Artifacts(Items(tokens));
    FlagArtifactIsNamed(Items(tokens), f);
    assert Listed(args.paths, v);
    var i :| 0 <= i < |args.paths| && SameIgnoringCase(args.paths[i], v);
    assert args.paths[i] in args.paths && args.paths[i] in named;
    assert v in args.paths && v in multiset(args.paths);
    assert v in multiset(SlotPaths(Slots(cap, args)));
  }

  /** A managed flag at the end of a request, without its value, is accepted and leaves no trace on the command line. */
  lemma ValuelessFlagVanishes(cap: Capability)
    requires Mentions(cap, "--rpc-url")
    ensures var args := NoArgs.(flags := [Flag("--rpc-url", None)]);
      && Buildable(cap, args) && Argv(cap, args) == Argv(cap, NoArgs) && !Reaches(cap, args, args.flags[0])
  {
    var args := NoArgs.(flags := [Flag("--rpc-url", None)]);
    assert !HasFlag(args.flags, "--format");
    assert [Flag("--rpc-url", None)][1..] == [];
    assert PassThrough(args.flags) == PassThrough([]) && Format(args) == Format(NoArgs);
  }
}
