/** What a command line carries, word for word, and what the registry's entries have to do with it. */
module RequestLine {
  import opened Texts
  import opened Outcomes
  import opened RequestArgs
  import opened RequestPlan

  // ----- The registry's entries -----------------------------------------------------------------------------

  /** Declared or mentioned by a required or an optional argument. */
  lemma EntriesAreBothLists(cap: Capability, flag: string)
    ensures Declares(cap, flag) <==>
      || (exists e :: e in cap.required && FirstWord(e) == flag)
      || (exists e :: e in cap.optional && FirstWord(e) == flag)
    ensures Mentions(cap, flag) <==>
      || (exists e :: e in cap.required && Contains(e, flag))
      || (exists e :: e in cap.optional && Contains(e, flag))
  {
    forall e | e in cap.required || e in cap.optional ensures IsEntry(cap, e) {
      assert e in Entries(cap);
    }
    assert forall e :: IsEntry(cap, e) ==> e in cap.required || e in cap.optional;
    assert Declares(cap, flag) <==> exists e :: IsEntry(cap, e) && FirstWord(e) == flag;
    assert Mentions(cap, flag) <==> exists e :: IsEntry(cap, e) && Contains(e, flag);
  }

  predicate IsEntry(cap: Capability, e: string) {
    exists i :: 0 <= i < |Entries(cap)| && Entries(cap)[i] == e
  }

  /** The first word: what stands between leading white space and the next, or the end. */
  lemma {:induction false} FirstWordIs(gap: string, word: string, rest: string)
    requires forall c :: c in gap ==> IsWhite(c)
    requires forall c :: c in word ==> !IsWhite(c)
    requires if word == "" then rest == "" else rest == "" || IsWhite(rest[0])
    ensures FirstWord(gap + word + rest) == word
  {
    if gap != "" {
      assert (gap + word + rest)[1..] == gap[1..] + word + rest;
      assert IsWhite(gap[0]);
      FirstWordIs(gap[1..], word, rest);
    } else {
      assert gap + word + rest == word + rest;
      WordEndIs(word, rest);
      assert word != "" ==> word[0] in word;
    }
  }

  lemma {:induction false} WordEndIs(word: string, rest: string)
    requires forall c :: c in word ==> !IsWhite(c)
    requires rest == "" || IsWhite(rest[0])
    ensures WordEnd(word + rest) == |word|
  {
    if word != "" {
      assert word[0] in word && (word + rest)[1..] == word[1..] + rest;
      WordEndIs(word[1..], rest);
    } else {
      assert word + rest == rest;
    }
  }

  lemma {:induction false} PositionIsFirst(entries: seq<string>, flag: string)
    ensures Position(entries, flag) <= |entries|
    ensures Position(entries, flag) < |entries| ==> FirstWord(entries[Position(entries, flag)]) == flag
    ensures forall k :: 0 <= k < Position(entries, flag) ==> FirstWord(entries[k]) != flag
  {
    if entries != [] && FirstWord(entries[0]) != flag {
      PositionIsFirst(entries[1..], flag);
      assert forall k :: 1 <= k < |entries| ==> entries[k] == entries[1..][k - 1];
    }
  }

  // ----- Artifacts ----------------------------------------------------------------------------------------------

  /** As many artifacts are accepted as the registry declares arguments for: a baseline and a candidate, a candidate, or none. */
  lemma ArtifactsAccepted(cap: Capability, args: Args)
    requires forall f :: f in args.flags ==> FlagAccepted(cap, f)
    ensures RequestFits(cap, args) <==>
      || args.paths == []
      || (|args.paths| <= 2 && (Declares(cap, "--previous-wasm") || Declares(cap, "--old-wasm")))
      || (|args.paths| == 1 && (Declares(cap, "--wasm") || Declares(cap, "--new-wasm") || Declares(cap, "<file.wasm>")))
  {
  }

  /** The argument an artifact belongs to. */
  function Argument(slot: Slot): string {
    if slot.flag.Some? then slot.flag.value else "<file.wasm>"
  }

  /** Wherever the second artifact's argument is declared, the first one's is declared no later. */
  lemma ArtifactsFollowDeclarations(cap: Capability, args: Args, k: nat)
    requires |Slots(cap, args)| == 2 && k < |Entries(cap)|
    requires FirstWord(Entries(cap)[k]) == Argument(Slots(cap, args)[1])
    ensures exists j :: 0 <= j <= k && FirstWord(Entries(cap)[j]) == Argument(Slots(cap, args)[0])
  {
    PositionIsFirst(Entries(cap), Argument(Slots(cap, args)[0]));
    PositionIsFirst(Entries(cap), Argument(Slots(cap, args)[1]));
  }

  // ----- The words of the line ----------------------------------------------------------------------------------

  /** The words stand on the line, next to each other. */
  ghost predicate Has(line: seq<string>, words: seq<string>) {
    exists before, after :: line == before + words + after
  }

  lemma HasWithin(before: seq<string>, part: seq<string>, after: seq<string>, words: seq<string>)
    requires Has(part, words)
    ensures Has(before + part + after, words)
  {
    var b, a :| part == b + words + a;
    assert before + part + after == (before + b) + words + (a + after);
  }

  lemma HasAll(words: seq<string>)
    ensures Has(words, words)
  {
    assert words == [] + words + [];
  }

  /** The flags the planner does not interpret, each followed by its value. */
  lemma LineCarriesFlags(cap: Capability, args: Args, i: nat)
    requires i < |args.flags| && !Managed(args.flags[i].name) && args.flags[i].value.Some?
    ensures cap.command <= Argv(cap, args)
    ensures Has(Argv(cap, args), [args.flags[i].name, args.flags[i].value.value])
  {
    var passed := PassThrough(args.flags);
    var after := ContractWords(cap, args) + SlotWords(Slots(cap, args)) + Tail(cap, args);
    assert Argv(cap, args) == cap.command + passed + after;
    PassedIsCarried(args.flags, i);
    HasWithin(cap.command, passed, after, [args.flags[i].name, args.flags[i].value.value]);
  }

  lemma {:induction false} PassedIsCarried(flags: seq<Flag>, i: nat)
    requires i < |flags| && !Managed(flags[i].name) && flags[i].value.Some?
    ensures Has(PassThrough(flags), [flags[i].name, flags[i].value.value])
  {
    var first := if Managed(flags[0].name) || flags[0].value.None? then [] else [flags[0].name, flags[0].value.value];
    var rest := PassThrough(flags[1..]);
    assert PassThrough(flags) == [] + first + rest;
    if i == 0 {
      HasAll(first);
      HasWithin([], first, rest, first);
    } else {
      PassedIsCarried(flags[1..], i - 1);
      assert PassThrough(flags) == first + rest + [];
      HasWithin(first, rest, [], [flags[i].name, flags[i].value.value]);
    }
  }

  /** The contract, behind `--contract` where the registry has that. */
  lemma LineCarriesContract(cap: Capability, args: Args)
    requires args.contract.Some?
    ensures Has(Argv(cap, args), [args.contract.value])
    ensures Mentions(cap, "--contract") ==> Has(Argv(cap, args), ["--contract", args.contract.value])
  {
    var words := ContractWords(cap, args);
    var before, after := cap.command + PassThrough(args.flags), SlotWords(Slots(cap, args)) + Tail(cap, args);
    assert Argv(cap, args) == before + words + after;
    HasAll(words);
    HasWithin(before, words, after, words);
    HasAll([args.contract.value]);
    if Mentions(cap, "--contract") {
      assert words == ["--contract"] + [args.contract.value] + [];
      HasWithin(["--contract"], [args.contract.value], [], [args.contract.value]);
      HasWithin(before, words, after, [args.contract.value]);
    }
  }

  function SlotParts(slot: Slot): seq<string> {
    if slot.flag.Some? then [slot.flag.value, slot.path] else [slot.path]
  }

  lemma SlotsAreCarried(cap: Capability, args: Args, slot: Slot)
    requires slot in Slots(cap, args)
    ensures Has(Argv(cap, args), SlotParts(slot))
  {
    var slots := Slots(cap, args);
    var words := SlotWords(slots);
    var before := cap.command + PassThrough(args.flags) + ContractWords(cap, args);
    assert Argv(cap, args) == before + words + Tail(cap, args);
    var i :| 0 <= i < |slots| && slots[i] == slot;
    SlotIsCarried(slots, i);
    HasWithin(before, words, Tail(cap, args), SlotParts(slot));
  }

  lemma {:induction false} SlotIsCarried(slots: seq<Slot>, i: nat)
    requires i < |slots|
    ensures Has(SlotWords(slots), SlotParts(slots[i]))
  {
    var first, rest := SlotParts(slots[0]), SlotWords(slots[1..]);
    assert SlotWords(slots) == [] + first + rest == first + rest + [];
    if i == 0 {
      HasAll(first);
      HasWithin([], first, rest, first);
    } else {
      SlotIsCarried(slots[1..], i - 1);
      HasWithin(first, rest, [], SlotParts(slots[i]));
    }
  }

  /** The baseline behind the baseline argument the registry declares, `--previous-wasm` before `--old-wasm`. */
  lemma LineCarriesBaseline(cap: Capability, args: Args)
    requires Buildable(cap, args) && args.previousWasm.Some?
    ensures Declares(cap, "--previous-wasm") || Declares(cap, "--old-wasm")
    ensures var flag := if Declares(cap, "--previous-wasm") then "--previous-wasm" else "--old-wasm";
      Has(Argv(cap, args), [flag, args.previousWasm.value])
  {
    var slot := BaselineSlots(cap, args)[0];
    assert slot in Slots(cap, args);
    SlotsAreCarried(cap, args, slot);
  }

  /** The candidate behind the candidate argument the registry declares, or by position. */
  lemma LineCarriesCandidate(cap: Capability, args: Args)
    requires args.wasm.Some?
    ensures var path := args.wasm.value;
      Has(Argv(cap, args),
        if Declares(cap, "--wasm") then ["--wasm", path]
        else if Declares(cap, "--new-wasm") then ["--new-wasm", path]
        else [path])
  {
    var slot := CandidateSlots(cap, args)[0];
    assert slot in Slots(cap, args);
    SlotsAreCarried(cap, args, slot);
  }

  /** The words after the artifacts, part by part. */
  function TailParts(cap: Capability, args: Args): seq<seq<string>> {
    [Given(args.sourcePath), Given(args.fn), Given(args.profile),
     FlagWords("--envelope", args.envelope), RepeatedWords("--args", args.typedArgs),
     FlagWords("--base-fees", args.baseFees), if Live(cap, args) then ["--rpc"] else [],
     EndpointWords(cap, args), FormatWords(cap, args)]
  }

  function Joined(parts: seq<seq<string>>): seq<string> {
    if parts == [] then [] else Joined(parts[..|parts| - 1]) + parts[|parts| - 1]
  }

  lemma {:induction false} PartIsCarried(parts: seq<seq<string>>, i: nat)
    requires i < |parts|
    ensures Has(Joined(parts), parts[i])
  {
    var before, last := Joined(parts[..|parts| - 1]), parts[|parts| - 1];
    assert Joined(parts) == before + last + [] == [] + before + last;
    if i == |parts| - 1 {
      HasAll(last);
      HasWithin(before, last, [], last);
    } else {
      PartIsCarried(parts[..|parts| - 1], i);
      HasWithin([], before, last, parts[i]);
    }
  }

  lemma JoinedStep(parts: seq<seq<string>>, k: nat)
    requires k < |parts|
    ensures Joined(parts[..k + 1]) == Joined(parts[..k]) + parts[k]
  {
    assert parts[..k + 1][..k] == parts[..k];
  }

  lemma JoinedNine(
    a: seq<string>, b: seq<string>, c: seq<string>, d: seq<string>, e: seq<string>,
    f: seq<string>, g: seq<string>, h: seq<string>, i: seq<string>)
    ensures Joined([a, b, c, d, e, f, g, h, i]) == a + b + c + d + e + f + g + h + i
  {
    var parts := [a, b, c, d, e, f, g, h, i];
    assert parts[..0] == [] && parts[..9] == parts;
    JoinedStep(parts, 0);
    JoinedStep(parts, 1);
    JoinedStep(parts, 2);
    JoinedStep(parts, 3);
    JoinedStep(parts, 4);
    assert Joined(parts[..5]) == a + b + c + d + e;
    JoinedStep(parts, 5);
    JoinedStep(parts, 6);
    JoinedStep(parts, 7);
    JoinedStep(parts, 8);
  }

  lemma TailIsJoined(cap: Capability, args: Args)
    ensures Tail(cap, args) == Joined(TailParts(cap, args))
  {
    JoinedNine(
      Given(args.sourcePath), Given(args.fn), Given(args.profile), FlagWords("--envelope", args.envelope),
      RepeatedWords("--args", args.typedArgs), FlagWords("--base-fees", args.baseFees),
      if Live(cap, args) then ["--rpc"] else [], EndpointWords(cap, args), FormatWords(cap, args));
  }

  lemma TailPartIsCarried(cap: Capability, args: Args, i: nat, words: seq<string>)
    requires i < 9 && Has(TailParts(cap, args)[i], words)
    ensures Has(Argv(cap, args), words)
  {
    var parts := TailParts(cap, args);
    var front := cap.command + PassThrough(args.flags) + ContractWords(cap, args) + SlotWords(Slots(cap, args));
    TailIsJoined(cap, args);
    PartIsCarried(parts, i);
    var before, after :| Joined(parts) == before + parts[i] + after;
    HasWithin(before, parts[i], after, words);
    assert Argv(cap, args) == front + Joined(parts) + [];
    HasWithin(front, Joined(parts), [], words);
  }

  /** The arguments that go by position. */
  lemma LineCarriesPositionals(cap: Capability, args: Args)
    ensures args.sourcePath.Some? ==> Has(Argv(cap, args), [args.sourcePath.value])
    ensures args.fn.Some? ==> Has(Argv(cap, args), [args.fn.value])
    ensures args.profile.Some? ==> Has(Argv(cap, args), [args.profile.value])
  {
    var parts := TailParts(cap, args);
    HasAll(parts[0]);
    TailPartIsCarried(cap, args, 0, parts[0]);
    HasAll(parts[1]);
    TailPartIsCarried(cap, args, 1, parts[1]);
    HasAll(parts[2]);
    TailPartIsCarried(cap, args, 2, parts[2]);
  }

  /** The function to call comes after the contract to call it on. */
  lemma FunctionFollowsContract(cap: Capability, args: Args)
    requires args.contract.Some? && args.fn.Some?
    ensures exists before, between, after ::
      Argv(cap, args) == before + [args.contract.value] + between + [args.fn.value] + after
  {
    var words, front := ContractWords(cap, args), cap.command + PassThrough(args.flags);
    var most := words[..|words| - 1];
    assert words == most + [args.contract.value];
    var after := SplitAtSecond(
      Given(args.sourcePath), Given(args.fn), Given(args.profile), FlagWords("--envelope", args.envelope),
      RepeatedWords("--args", args.typedArgs), FlagWords("--base-fees", args.baseFees),
      if Live(cap, args) then ["--rpc"] else [], EndpointWords(cap, args), FormatWords(cap, args));
    Regrouped(front, most, args.contract.value, SlotWords(Slots(cap, args)), Given(args.sourcePath), args.fn.value, after);
  }

  lemma SplitAtSecond(
    a: seq<string>, b: seq<string>, c: seq<string>, d: seq<string>, e: seq<string>,
    f: seq<string>, g: seq<string>, h: seq<string>, i: seq<string>)
    returns (after: seq<string>)
    ensures a + b + c + d + e + f + g + h + i == a + b + after
  {
    after := c + d + e + f + g + h + i;
  }

  lemma Regrouped(
    front: seq<string>, most: seq<string>, contract: string, slots: seq<string>, source: seq<string>, fn: string, after: seq<string>)
    ensures front + (most + [contract]) + slots + (source + [fn] + after)
         == (front + most) + [contract] + (slots + source) + [fn] + after
  {
  }

  /** The arguments that go behind a flag of their own. */
  lemma LineCarriesValues(cap: Capability, args: Args)
    ensures args.envelope.Some? ==> Has(Argv(cap, args), ["--envelope", args.envelope.value])
    ensures args.baseFees.Some? ==> Has(Argv(cap, args), ["--base-fees", args.baseFees.value])
    ensures forall v :: v in args.typedArgs ==> Has(Argv(cap, args), ["--args", v])
  {
    var parts := TailParts(cap, args);
    HasAll(parts[3]);
    TailPartIsCarried(cap, args, 3, parts[3]);
    HasAll(parts[5]);
    TailPartIsCarried(cap, args, 5, parts[5]);
    forall v | v in args.typedArgs ensures Has(Argv(cap, args), ["--args", v]) {
      RepeatedIsCarried("--args", args.typedArgs, v);
      TailPartIsCarried(cap, args, 4, ["--args", v]);
    }
  }

  lemma {:induction false} RepeatedIsCarried(flag: string, values: seq<string>, v: string)
    requires v in values
    ensures Has(RepeatedWords(flag, values), [flag, v])
  {
    var before, last := RepeatedWords(flag, values[..|values| - 1]), [flag, values[|values| - 1]];
    assert RepeatedWords(flag, values) == before + last + [] == [] + before + last;
    if v == values[|values| - 1] {
      HasAll(last);
      HasWithin(before, last, [], last);
    } else {
      RepeatedIsCarried(flag, values[..|values| - 1], v);
      HasWithin([], before, last, [flag, v]);
    }
  }

  /**
    The network: an operation that takes an endpoint gets the one the request names,
    or the public test network, unless a fee estimate works on given samples; live
    fee statistics are asked for by `--rpc`.
   */
  lemma LineCarriesNetwork(cap: Capability, args: Args)
    ensures cap.online && Mentions(cap, "--rpc-url") && (cap.id != "fee.estimate" || args.baseFees.None? || args.useRpc) ==>
      Has(Argv(cap, args), [
        "--rpc-url", if args.rpcUrl.Some? then args.rpcUrl.value else "https://soroban-testnet.stellar.org",
        "--network-passphrase", if args.passphrase.Some? then args.passphrase.value else "Test SDF Network ; September 2015"])
    ensures args.useRpc || (cap.id == "fee.estimate" && args.rpcUrl.Some? && args.baseFees.None?) ==>
      Has(Argv(cap, args), ["--rpc"])
  {
    var parts := TailParts(cap, args);
    HasAll(parts[6]);
    TailPartIsCarried(cap, args, 6, parts[6]);
    HasAll(parts[7]);
    TailPartIsCarried(cap, args, 7, parts[7]);
  }

  /** JSON is asked for wherever it exists, unless the first `--format` of the request says `pretty`. */
  lemma LineCarriesFormat(cap: Capability, args: Args)
    requires cap.json && FlagValue(args.flags, "--format") != Some("pretty")
    ensures Has(Argv(cap, args), ["--format", "json"])
  {
    var parts := TailParts(cap, args);
    HasAll(parts[8]);
    TailPartIsCarried(cap, args, 8, parts[8]);
  }

  /** A format is served if the first `--format` of the request names one that the operation has. */
  lemma FormatIsServed(cap: Capability, args: Args, i: nat)
    requires i < |args.flags| && args.flags[i].name == "--format" && forall j :: 0 <= j < i ==> args.flags[j].name != "--format"
    ensures FormatFits(cap, args) <==>
      || (args.flags[i].value == Some("json") && cap.json)
      || (args.flags[i].value == Some("pretty") && cap.pretty)
  {
    FirstFlagCounts(args.flags, "--format", i);
    assert HasFlag(args.flags, "--format");
  }

  lemma {:induction false} FirstFlagCounts(flags: seq<Flag>, name: string, i: nat)
    requires i < |flags| && flags[i].name == name && forall j :: 0 <= j < i ==> flags[j].name != name
    ensures FlagValue(flags, name) == flags[i].value
  {
    if i > 0 {
      assert flags[0].name != name;
      FirstFlagCounts(flags[1..], name, i - 1);
    }
  }

  /** There is nothing else on the line: these words, counted. */
  lemma LineLength(cap: Capability, args: Args)
    requires Buildable(cap, args)
    ensures |Argv(cap, args)| ==
      |cap.command| + |PassThrough(args.flags)|
      + (if args.contract.None? then 0 else if Mentions(cap, "--contract") then 2 else 1)
      + 2 * One(args.previousWasm) + (if CandidateFlag(cap).Some? then 2 else 1) * One(args.wasm)
      + |Tail(cap, args)|
  {
    var b, c := BaselineSlots(cap, args), CandidateSlots(cap, args);
    assert b != [] ==> [b[0]][1..] == [] && SlotWords(b) == [BaselineFlag(cap).value, args.previousWasm.value];
    assert c != [] ==> [c[0]][1..] == [];
    assert |SlotWords(c)| == (if CandidateFlag(cap).Some? then 2 else 1) * One(args.wasm);
    SlotWordsAppend(b, c);
    SlotWordsAppend(c, b);
  }

  lemma {:induction false} SlotWordsAppend(a: seq<Slot>, b: seq<Slot>)
    ensures SlotWords(a + b) == SlotWords(a) + SlotWords(b)
  {
    if a == [] {
      assert a + b == b;
    } else {
      assert (a + b)[1..] == a[1..] + b;
      SlotWordsAppend(a[1..], b);
    }
  }

  lemma TailLength(cap: Capability, args: Args)
    ensures |Tail(cap, args)| ==
      One(args.sourcePath) + One(args.fn) + One(args.profile) + 2 * One(args.envelope) + 2 * |args.typedArgs|
      + 2 * One(args.baseFees) + (if Live(cap, args) then 1 else 0) + (if PinsEndpoint(cap, args) then 4 else 0)
      + (if cap.json && FlagValue(args.flags, "--format") != Some("pretty") then 2 else 0)
  {
    RepeatedLength("--args", args.typedArgs);
    TailSum(cap, args);
    assert |Given(args.sourcePath)| == One(args.sourcePath) && |Given(args.fn)| == One(args.fn);
    assert |Given(args.profile)| == One(args.profile);
    assert |FlagWords("--envelope", args.envelope)| == 2 * One(args.envelope);
    assert |FlagWords("--base-fees", args.baseFees)| == 2 * One(args.baseFees);
  }

  lemma TailSum(cap: Capability, args: Args)
    ensures |Tail(cap, args)| ==
      |Given(args.sourcePath)| + |Given(args.fn)| + |Given(args.profile)|
      + |FlagWords("--envelope", args.envelope)| + |RepeatedWords("--args", args.typedArgs)|
      + |FlagWords("--base-fees", args.baseFees)| + (if Live(cap, args) then 1 else 0)
      + |EndpointWords(cap, args)| + |FormatWords(cap, args)|
  {
    LengthOfNine(
      Given(args.sourcePath), Given(args.fn), Given(args.profile), FlagWords("--envelope", args.envelope),
      RepeatedWords("--args", args.typedArgs), FlagWords("--base-fees", args.baseFees),
      if Live(cap, args) then ["--rpc"] else [], EndpointWords(cap, args), FormatWords(cap, args));
  }

  lemma LengthOfNine(
    a: seq<string>, b: seq<string>, c: seq<string>, d: seq<string>, e: seq<string>,
    f: seq<string>, g: seq<string>, h: seq<string>, i: seq<string>)
    ensures |a + b + c + d + e + f + g + h + i| == |a| + |b| + |c| + |d| + |e| + |f| + |g| + |h| + |i|
  {
  }

  function One(value: Option<string>): nat {
    if value.Some? then 1 else 0
  }

  lemma {:induction false} RepeatedLength(flag: string, values: seq<string>)
    ensures |RepeatedWords(flag, values)| == 2 * |values|
  {
    if values != [] {
      RepeatedLength(flag, values[..|values| - 1]);
    }
  }

  // ----- What each operation requires ---------------------------------------------------------------------------

  /** The arguments without which an operation is refused. */
  lemma Requirements(args: Args)
    ensures forall id :: id in ["inspect", "health", "wasm.metadata", "storage.analyze", "events"] ==>
      (ArgumentError(id, args).None? <==> args.contract.Some?)
    ensures ArgumentError("verify", args).None? <==> args.contract.Some? && args.wasm.Some?
    ensures ArgumentError("call", args).None? <==> args.contract.Some? && args.fn.Some?
  {
  }

  lemma OfflineRequirements(args: Args)
    ensures ArgumentError("audit", args).None? <==> args.sourcePath.Some?
    ensures ArgumentError("release_assurance", args).None? <==> args.wasm.Some?
    ensures forall id :: id in ["diff", "diff.upgrade_safety"] ==>
      (ArgumentError(id, args).None? <==> args.previousWasm.Some? && args.wasm.Some?)
  {
  }

  lemma NetworkRequirements(args: Args)
    ensures ArgumentError("fee.estimate", args).None? <==> args.baseFees.Some? || args.useRpc || args.rpcUrl.Some?
    ensures ArgumentError("tx.simulate", args).None? <==> args.envelope.Some?
    ensures ArgumentError("network.check", args).None? <==> args.profile.Some?
  {
  }

  /** A refusal for want of arguments is `MissingArgument`, unless the roles of the artifacts are open. */
  lemma RefusedArguments(id: string, args: Args)
    requires ArgumentError(id, args).Some?
    ensures ArgumentError(id, args).value == AmbiguousArtifactRoles <==>
      && args.candidates == args.baselines == []
      && ((IsDiff(id) && args.previousWasm.None? && |args.paths| == 2) || (id == "release_assurance" && |args.paths| > 1))
    ensures ArgumentError(id, args).value in {AmbiguousArtifactRoles, MissingArgument}
  {
  }
}
