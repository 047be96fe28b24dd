/** From an operation and its arguments to a command line, or a refusal. */
module RequestPlan {
  import opened Outcomes
  import opened Texts
  import opened RequestArgs
  import RequestRules

  // ----- Capabilities -------------------------------------------------------------------------

  /** What the registry says about an operation. */
  datatype Capability = Capability(
    id: string,
    command: seq<string>,
    required: seq<string>,
    optional: seq<string>,
    online: bool,
    json: bool,
    pretty: bool,
    readOnly: bool,
    confirmed: bool)

  function WordEnd(s: string): (n: nat)
    ensures n <= |s|
  {
    if s == "" || IsWhite(s[0]) then 0 else 1 + WordEnd(s[1..])
  }

  function FirstWord(s: string): string {
    if s != "" && IsWhite(s[0]) then FirstWord(s[1..]) else s[..WordEnd(s)]
  }

  function Entries(cap: Capability): seq<string> {
    cap.required + cap.optional
  }

  /** The registry declares the flag as an argument of its own. */
  predicate Declares(cap: Capability, flag: string) {
    exists i :: 0 <= i < |Entries(cap)| && FirstWord(Entries(cap)[i]) == flag
  }

  /** Some entry of the registry contains the flag's text. */
  predicate Mentions(cap: Capability, flag: string) {
    exists i :: 0 <= i < |Entries(cap)| && Contains(Entries(cap)[i], flag)
  }

  /** The place of an argument among the declarations; undeclared ones come last. */
  function Position(entries: seq<string>, flag: string): nat {
    if entries == [] then 0
    else if FirstWord(entries[0]) == flag then 0
    else 1 + Position(entries[1..], flag)
  }

  predicate Managed(flag: string) {
    || flag == "--rpc-url" || flag == "--network-passphrase" || flag == "--format"
    || flag == "--wasm" || flag == "--previous-wasm" || flag == "--old-wasm" || flag == "--new-wasm"
    || flag == "--envelope" || flag == "--args" || flag == "--base-fees" || flag == "--rpc"
  }

  function BaselineFlag(cap: Capability): Option<string> {
    if Declares(cap, "--previous-wasm") then Some("--previous-wasm")
    else if Declares(cap, "--old-wasm") then Some("--old-wasm")
    else None
  }

  function CandidateFlag(cap: Capability): Option<string> {
    if Declares(cap, "--wasm") then Some("--wasm")
    else if Declares(cap, "--new-wasm") then Some("--new-wasm")
    else None
  }

  /** How many artifacts the operation takes. */
  function Capacity(cap: Capability): nat {
    if BaselineFlag(cap).Some? then 2
    else if CandidateFlag(cap).Some? || Declares(cap, "<file.wasm>") then 1
    else 0
  }

  // ----- Validation of the request's arguments ---------------------------------------------------

  datatype Error = Unrecognised | Ambiguous | UnknownCapability | MissingArgument | AmbiguousArtifactRoles | Unsupported | RefusedNetwork | Unmappable | Blocked

  predicate NeedsContract(id: string) {
    || id == "inspect" || id == "health" || id == "verify" || id == "wasm.metadata"
    || id == "storage.analyze" || id == "events" || id == "call"
  }

  predicate IsDiff(id: string) {
    id == "diff" || id == "diff.upgrade_safety"
  }

  predicate RolesClaimed(args: Args) {
    args.candidates != [] || args.baselines != []
  }

  /** The first requirement of the operation that the arguments do not meet. */
  function ArgumentError(id: string, args: Args): Option<Error> {
    if NeedsContract(id) && args.contract.None? then Some(MissingArgument)
    else if id == "verify" then Missing(args.wasm.Some?)
    else if IsDiff(id) then
      if args.previousWasm.Some? && args.wasm.Some? then None
      else if args.previousWasm.None? && |args.paths| == 2 && !RolesClaimed(args) then Some(AmbiguousArtifactRoles)
      else Some(MissingArgument)
    else if id == "audit" then Missing(args.sourcePath.Some?)
    else if id == "release_assurance" then
      if args.wasm.Some? then None
      else if |args.paths| > 1 && !RolesClaimed(args) then Some(AmbiguousArtifactRoles)
      else Some(MissingArgument)
    else if id == "call" then Missing(args.fn.Some?)
    else if id == "fee.estimate" then Missing(args.baseFees.Some? || args.useRpc || args.rpcUrl.Some?)
    else if id == "tx.simulate" then Missing(args.envelope.Some?)
    else if id == "network.check" then Missing(args.profile.Some?)
    else None
  }

  function Missing(there: bool): Option<Error> {
    if there then None else Some(MissingArgument)
  }

  /** Operations that compare two artifacts. */
  predicate Compares(id: string) {
    IsDiff(id) || id == "release_assurance"
  }

  lemma ComparisonHasCandidate(id: string, args: Args)
    requires Compares(id) && ArgumentError(id, args).None?
    ensures args.wasm.Some?
  {
    assert IsDiff(id) || id == "release_assurance";
    assert id != "verify" && id != "audit";
  }

  // ----- The command line ------------------------------------------------------------------------

  const TestnetRpc := "https://soroban-testnet.stellar.org"
  const TestnetPassphrase := "Test SDF Network ; September 2015"

  /** Flags the planner does not interpret, with their values, in request order. */
  function PassThrough(flags: seq<Flag>): (words: seq<string>)
  {
    if flags == [] then []
    else if Managed(flags[0].name) || flags[0].value.None? then PassThrough(flags[1..])
    else [flags[0].name, flags[0].value.value] + PassThrough(flags[1..])
  }

  predicate PassThroughComplete(flags: seq<Flag>) {
    forall i :: 0 <= i < |flags| && !Managed(flags[i].name) ==> flags[i].value.Some?
  }

  function ContractWords(cap: Capability, args: Args): seq<string> {
    if args.contract.None? then []
    else if Mentions(cap, "--contract") then ["--contract", args.contract.value]
    else [args.contract.value]
  }

  /** An artifact on the command line, behind its flag or by position. */
  datatype Slot = Slot(flag: Option<string>, path: string)

  function BaselineSlots(cap: Capability, args: Args): seq<Slot> {
    if args.previousWasm.Some? then [Slot(BaselineFlag(cap), args.previousWasm.value)] else []
  }

  function CandidateSlots(cap: Capability, args: Args): seq<Slot> {
    if args.wasm.Some? then [Slot(CandidateFlag(cap), args.wasm.value)] else []
  }

  function SlotPosition(cap: Capability, slot: Slot): nat {
    Position(Entries(cap), if slot.flag.Some? then slot.flag.value else "<file.wasm>")
  }

  /** The artifacts in the order in which the registry declares their arguments. */
  function Slots(cap: Capability, args: Args): seq<Slot> {
    var b, c := BaselineSlots(cap, args), CandidateSlots(cap, args);
    if b != [] && c != [] && SlotPosition(cap, c[0]) < SlotPosition(cap, b[0]) then c + b else b + c
  }

  function SlotWords(slots: seq<Slot>): seq<string> {
    if slots == [] then []
    else (if slots[0].flag.Some? then [slots[0].flag.value] else []) + [slots[0].path] + SlotWords(slots[1..])
  }

  function SlotPaths(slots: seq<Slot>): seq<string> {
    seq(|slots|, i requires 0 <= i < |slots| => slots[i].path)
  }

  function Given(value: Option<string>): seq<string> {
    if value.Some? then [value.value] else []
  }

  function FlagWords(flag: string, value: Option<string>): seq<string> {
    if value.Some? then [flag, value.value] else []
  }

  function RepeatedWords(flag: string, values: seq<string>): seq<string> {
    if values == [] then [] else RepeatedWords(flag, values[..|values| - 1]) + [flag, values[|values| - 1]]
  }

  /** Live fee statistics are asked for in words, or implied by an endpoint without samples. */
  predicate Live(cap: Capability, args: Args) {
    args.useRpc || (cap.id == "fee.estimate" && args.rpcUrl.Some? && args.baseFees.None?)
  }

  predicate TakesEndpoint(cap: Capability) {
    cap.online && Mentions(cap, "--rpc-url")
  }

  predicate PinsEndpoint(cap: Capability, args: Args) {
    TakesEndpoint(cap) && !(cap.id == "fee.estimate" && args.baseFees.Some? && !args.useRpc)
  }

  datatype Endpoint = Endpoint(url: string, passphrase: string)

  function EndpointOf(args: Args): Endpoint {
    Endpoint(if args.rpcUrl.Some? then args.rpcUrl.value else TestnetRpc,
             if args.passphrase.Some? then args.passphrase.value else TestnetPassphrase)
  }

  function EndpointWords(cap: Capability, args: Args): seq<string> {
    if PinsEndpoint(cap, args) then
      ["--rpc-url", EndpointOf(args).url, "--network-passphrase", EndpointOf(args).passphrase]
    else []
  }

  function Format(args: Args): Option<string> {
    FlagValue(args.flags, "--format")
  }

  function FormatWords(cap: Capability, args: Args): seq<string> {
    if cap.json && Format(args) != Some("pretty") then ["--format", "json"] else []
  }

  /** What follows the artifacts. */
  function Tail(cap: Capability, args: Args): seq<string> {
    Given(args.sourcePath) + Given(args.fn) + Given(args.profile)
    + FlagWords("--envelope", args.envelope) + RepeatedWords("--args", args.typedArgs)
    + FlagWords("--base-fees", args.baseFees) + (if Live(cap, args) then ["--rpc"] else [])
    + EndpointWords(cap, args) + FormatWords(cap, args)
  }

  function Argv(cap: Capability, args: Args): seq<string> {
    cap.command + PassThrough(args.flags) + ContractWords(cap, args) + SlotWords(Slots(cap, args)) + Tail(cap, args)
  }

  // ----- When a command line is built ----------------------------------------------------------------

  predicate FlagAccepted(cap: Capability, flag: Flag) {
    (Managed(flag.name) && Mentions(cap, flag.name)) || Declares(cap, flag.name)
  }

  predicate RequestFits(cap: Capability, args: Args) {
    && (args.paths != [] ==> |args.paths| <= Capacity(cap))
    && (forall i :: 0 <= i < |args.flags| ==> FlagAccepted(cap, args.flags[i]))
  }

  predicate NetworkFits(cap: Capability, args: Args) {
    && (cap.online ==> args.network.None? || args.network.value == "testnet")
    && (args.rpcUrl.Some? ==> TakesEndpoint(cap))
    && (args.passphrase.Some? ==> cap.online && Mentions(cap, "--network-passphrase"))
    && (TakesEndpoint(cap) && args.rpcUrl.Some? && args.rpcUrl.value != TestnetRpc ==> args.passphrase.Some?)
  }

  predicate ArgumentsMap(cap: Capability, args: Args) {
    && PassThroughComplete(args.flags)
    && (args.previousWasm.Some? ==> BaselineFlag(cap).Some?)
    && TailMaps(cap, args)
  }

  predicate FormatFits(cap: Capability, args: Args) {
    HasFlag(args.flags, "--format") ==>
      || (Format(args) == Some("json") && cap.json)
      || (Format(args) == Some("pretty") && cap.pretty)
  }

  predicate Buildable(cap: Capability, args: Args) {
    RequestFits(cap, args) && NetworkFits(cap, args) && ArgumentsMap(cap, args) && FormatFits(cap, args)
  }

  /** The first reason, in the order of the checks, to refuse the network a request names; none if it fits. */
  function NetworkRefusal(cap: Capability, args: Args): (e: Option<Error>)
    ensures e.None? <==> NetworkFits(cap, args)
  {
    if cap.online && args.network.Some? && args.network.value != "testnet" then Some(RefusedNetwork)
    else if args.rpcUrl.Some? && !TakesEndpoint(cap) then Some(Unsupported)
    else if args.passphrase.Some? && !(cap.online && Mentions(cap, "--network-passphrase")) then Some(Unsupported)
    else if !NetworkFits(cap, args) then Some(MissingArgument)
    else None
  }

  /** The first reason to refuse a command line; none if and only if one is built. */
  function Refusal(cap: Capability, args: Args): (e: Option<Error>)
    ensures e.None? <==> Buildable(cap, args)
  {
    if !RequestFits(cap, args) then Some(Unsupported)
    else if NetworkRefusal(cap, args).Some? then NetworkRefusal(cap, args)
    else if !PassThroughComplete(args.flags) then Some(MissingArgument)
    else if args.previousWasm.Some? && BaselineFlag(cap).None? then Some(Unmappable)
    else if !TailMaps(cap, args) then Some(Unmappable)
    else if !FormatFits(cap, args) then Some(Unsupported)
    else None
  }

  method CheckRequest(cap: Capability, args: Args) returns (error: Option<Error>)
    ensures error == if RequestFits(cap, args) then None else Some(Unsupported)
  {
    if args.paths != [] && |args.paths| > Capacity(cap) {
      return Some(Unsupported);
    }
    for i := 0 to |args.flags|
      invariant forall j :: 0 <= j < i ==> FlagAccepted(cap, args.flags[j])
    {
      if !FlagAccepted(cap, args.flags[i]) {
        return Some(Unsupported);
      }
    }
    return None;
  }

  method CheckNetwork(cap: Capability, args: Args) returns (error: Option<Error>)
    ensures error == NetworkRefusal(cap, args)
  {
    if cap.online && args.network.Some? && args.network.value != "testnet" {
      return Some(RefusedNetwork);
    }
    if args.rpcUrl.Some? && (!cap.online || !Mentions(cap, "--rpc-url")) {
      return Some(Unsupported);
    }
    if args.passphrase.Some? && (!cap.online || !Mentions(cap, "--network-passphrase")) {
      return Some(Unsupported);
    }
    if TakesEndpoint(cap) && args.rpcUrl.Some? && args.rpcUrl.value != TestnetRpc && args.passphrase.None? {
      return Some(MissingArgument);
    }
    return None;
  }

  method PushPassThrough(argv: seq<string>, flags: seq<Flag>) returns (r: Option<seq<string>>)
    ensures r.Some? <==> PassThroughComplete(flags)
    ensures r.Some? ==> r.value == argv + PassThrough(flags)
  {
    var words: seq<string> := argv;
    for i := 0 to |flags|
      invariant PassThroughComplete(flags[..i])
      invariant words + PassThrough(flags[i..]) == argv + PassThrough(flags)
    {
      assert flags[i..][1..] == flags[i + 1..];
      assert flags[..i + 1] == flags[..i] + [flags[i]];
      if Managed(flags[i].name) {
        continue;
      }
      if flags[i].value.None? {
        return None;
      }
      words := words + [flags[i].name, flags[i].value.value];
    }
    assert flags[..|flags|] == flags;
    return Some(words);
  }

  method CollectArtifacts(cap: Capability, args: Args) returns (r: Option<seq<Slot>>)
    ensures r.Some? <==> (args.previousWasm.Some? ==> BaselineFlag(cap).Some?)
    ensures r.Some? ==> r.value == Slots(cap, args)
  {
    var artifacts: seq<Slot> := [];
    if args.previousWasm.Some? {
      var flag := BaselineFlag(cap);
      if flag.None? {
        return None;
      }
      artifacts := artifacts + [Slot(flag, args.previousWasm.value)];
    }
    if args.wasm.Some? {
      artifacts := artifacts + [Slot(CandidateFlag(cap), args.wasm.value)];
    }
    if |artifacts| == 2 && SlotPosition(cap, artifacts[1]) < SlotPosition(cap, artifacts[0]) {
      artifacts := [artifacts[1], artifacts[0]];
    }
    return Some(artifacts);
  }

  method PushSlots(argv: seq<string>, artifacts: seq<Slot>) returns (words: seq<string>)
    ensures words == argv + SlotWords(artifacts)
  {
    words := argv;
    for i := 0 to |artifacts|
      invariant words + SlotWords(artifacts[i..]) == argv + SlotWords(artifacts)
    {
      assert artifacts[i..][1..] == artifacts[i + 1..];
      if artifacts[i].flag.Some? {
        words := words + [artifacts[i].flag.value];
      }
      words := words + [artifacts[i].path];
    }
  }

  method PushTyped(argv: seq<string>, values: seq<string>) returns (words: seq<string>)
    ensures words == argv + RepeatedWords("--args", values)
  {
    words := argv;
    for i := 0 to |values|
      invariant words == argv + RepeatedWords("--args", values[..i])
    {
      assert values[..i + 1][..i] == values[..i];
      words := words + ["--args", values[i]];
    }
    assert values[..|values|] == values;
  }

  predicate TailMaps(cap: Capability, args: Args) {
    && (args.envelope.Some? ==> Mentions(cap, "--envelope"))
    && (args.typedArgs != [] ==> Mentions(cap, "--args"))
    && (args.baseFees.Some? ==> Mentions(cap, "--base-fees"))
    && (Live(cap, args) ==> Mentions(cap, "--rpc"))
  }

  method BuildTail(cap: Capability, args: Args) returns (r: Result<seq<string>, Error>)
    ensures r ==
      if !TailMaps(cap, args) then Err(Unmappable)
      else if !FormatFits(cap, args) then Err(Unsupported)
      else Ok(Tail(cap, args))
  {
    var words := Given(args.sourcePath) + Given(args.fn) + Given(args.profile);
    if args.envelope.Some? && !Mentions(cap, "--envelope") {
      return Err(Unmappable);
    }
    words := words + FlagWords("--envelope", args.envelope);
    if args.typedArgs != [] && !Mentions(cap, "--args") {
      return Err(Unmappable);
    }
    words := PushTyped(words, args.typedArgs);
    if args.baseFees.Some? && !Mentions(cap, "--base-fees") {
      return Err(Unmappable);
    }
    words := words + FlagWords("--base-fees", args.baseFees);
    if Live(cap, args) && !Mentions(cap, "--rpc") {
      return Err(Unmappable);
    }
    words := words + (if Live(cap, args) then ["--rpc"] else []);
    words := words + EndpointWords(cap, args);
    if !FormatFits(cap, args) {
      return Err(Unsupported);
    }
    words := words + FormatWords(cap, args);
    return Ok(words);
  }

  method BuildArgv(cap: Capability, args: Args) returns (r: Result<seq<string>, Error>)
    ensures r.Ok? <==> Buildable(cap, args)
    ensures r.Ok? ==> r.value == Argv(cap, args)
    ensures r.Err? ==> Refusal(cap, args) == Some(r.error)
  {
    var error := CheckRequest(cap, args);
    if error.Some? {
      return Err(error.value);
    }
    error := CheckNetwork(cap, args);
    if error.Some? {
      return Err(error.value);
    }
    var passed := PushPassThrough(cap.command, args.flags);
    if passed.None? {
      return Err(MissingArgument);
    }
    var artifacts := CollectArtifacts(cap, args);
    if artifacts.None? {
      return Err(Unmappable);
    }
    var argv := PushSlots(passed.value + ContractWords(cap, args), artifacts.value);
    var tail := BuildTail(cap, args);
    if tail.Err? {
      return tail;
    }
    return Ok(argv + tail.value);
  }

  // ----- What a command line guarantees ----------------------------------------------------------------

  /** Roles as extraction leaves them when no path is written in two letter cases. */
  predicate RolesFit(args: Args) {
    && (|args.paths| == 0 ==> args.wasm.None? && args.previousWasm.None?)
    && (|args.paths| == 1 ==> args.wasm == Some(args.paths[0]) && args.previousWasm.None?)
    && (|args.paths| == 2 ==>
          && (args.wasm.Some? <==> args.previousWasm.Some?)
          && (args.wasm.Some? ==> multiset{args.wasm.value, args.previousWasm.value} == multiset(args.paths)))
  }

  /** Every named artifact fills exactly one slot, if and only if there is none or the candidate is known. */
  lemma ArtifactsConserved(cap: Capability, args: Args)
    requires Buildable(cap, args) && RolesFit(args)
    ensures multiset(SlotPaths(Slots(cap, args))) == multiset(args.paths) <==> args.paths == [] || args.wasm.Some?
  {
    var slots := Slots(cap, args);
    SlotsHoldRoles(cap, args);
    assert |args.paths| <= 2;
    if |args.paths| == 1 {
      assert [args.paths[0]] == args.paths;
    } else if |args.paths| == 2 && args.wasm.None? {
      assert |multiset(args.paths)| == 2 && |multiset(SlotPaths(slots))| == 0;
    }
  }

  /** The slots hold the artifacts that have a role. */
  lemma SlotsHoldRoles(cap: Capability, args: Args)
    ensures multiset(SlotPaths(Slots(cap, args))) == multiset(Given(args.previousWasm)) + multiset(Given(args.wasm))
  {
    var b, c := BaselineSlots(cap, args), CandidateSlots(cap, args);
    assert SlotPaths(b) == Given(args.previousWasm) && SlotPaths(c) == Given(args.wasm);
    assert SlotPaths(b + c) == SlotPaths(b) + SlotPaths(c);
    assert SlotPaths(c + b) == SlotPaths(c) + SlotPaths(b);
  }

  /** A foreign endpoint is only ever paired with the passphrase the request gives. */
  lemma ForeignEndpointHasOwnPassphrase(cap: Capability, args: Args)
    requires Buildable(cap, args) && PinsEndpoint(cap, args) && EndpointOf(args).url != TestnetRpc
    ensures args.rpcUrl == Some(EndpointOf(args).url) && args.passphrase == Some(EndpointOf(args).passphrase)
  {
  }

  /** The other way round it does not hold: a passphrase without an endpoint is sent to the default endpoint. */
  lemma ForeignPassphraseKeepsDefaultEndpoint(args: Args)
    requires args.rpcUrl.None? && args.passphrase.Some?
    ensures EndpointOf(args) == Endpoint(TestnetRpc, args.passphrase.value)
  {
  }

  /** Flags pass through one by one, in request order. */
  lemma {:induction false} PassThroughAppends(a: seq<Flag>, b: seq<Flag>)
    requires PassThroughComplete(a + b)
    ensures PassThrough(a + b) == PassThrough(a) + PassThrough(b)
  {
    if a == [] {
      assert a + b == b;
    } else {
      assert (a + b)[1..] == a[1..] + b;
      assert forall i :: 0 <= i < |a[1..] + b| ==> (a[1..] + b)[i] == (a + b)[i + 1];
      PassThroughAppends(a[1..], b);
    }
  }

  /** The registry gives a baseline argument to the comparing operations only. */
  predicate Registered(cap: Capability) {
    Capacity(cap) == 2 ==> Compares(cap.id)
  }

  /** Two artifacts that nothing in the request marks are never given roles: a comparison of them is refused as ambiguous. */
  lemma UnmarkedPairIsRefused(id: string, tokens: seq<string>, args: Args)
    requires Compares(id) && Extracted(tokens, args) && |args.paths| == 2
    requires Read(Items(tokens)).args.candidates == [] && Read(Items(tokens)).args.baselines == []
    ensures ArgumentError(id, args) == Some(AmbiguousArtifactRoles)
  {
    EmptyIffNoMember(args.candidates);
    EmptyIffNoMember(args.baselines);
    NotCompared(id);
  }

  lemma EmptyIffNoMember(s: seq<string>)
    ensures s == [] <==> forall x :: x !in s
  {
    assert s != [] ==> s[0] in s;
  }

  lemma NotCompared(id: string)
    requires Compares(id)
    ensures !NeedsContract(id) && id != "verify" && id != "audit"
    ensures IsDiff(id) <==> id != "release_assurance"
  {
  }

  /** What every runnable plan satisfies. */
  ghost predicate Runnable(cap: Capability, tokens: seq<string>, args: Args, argv: seq<string>) {
    && cap.readOnly && !cap.confirmed
    && Extracted(tokens, args) && ArgumentError(cap.id, args).None?
    && argv == Argv(cap, args) && PassThroughComplete(args.flags)
    && (Uniform(Artifacts(Items(tokens))) ==> multiset(SlotPaths(Slots(cap, args))) == multiset(args.paths))
    && (PinsEndpoint(cap, args) && EndpointOf(args).url != TestnetRpc ==>
          args.passphrase == Some(EndpointOf(args).passphrase))
  }

  /** A request that has been understood: the operation it selects, and its arguments. */
  datatype Intent = Intent(id: string, args: Args)

  /**
    Plans an understood request. There is a plan exactly if the registry has the
    operation, it is read-only and needs no confirmation, and a command line can be
    built; otherwise the first of these that fails is the refusal.
   */
  method PlanIntent(registry: map<string, Capability>, intent: Intent) returns (r: Result<seq<string>, Error>)
    ensures r.Ok? <==>
      && intent.id in registry && registry[intent.id].readOnly && !registry[intent.id].confirmed
      && Buildable(registry[intent.id], intent.args)
    ensures r.Ok? ==> r.value == Argv(registry[intent.id], intent.args)
    ensures intent.id !in registry ==> r == Err(UnknownCapability)
    ensures intent.id in registry && (!registry[intent.id].readOnly || registry[intent.id].confirmed) ==> r == Err(Blocked)
    ensures intent.id in registry && registry[intent.id].readOnly && !registry[intent.id].confirmed && r.Err? ==>
      Refusal(registry[intent.id], intent.args) == Some(r.error)
  {
    if intent.id !in registry {
      return Err(UnknownCapability);
    }
    var cap := registry[intent.id];
    if !cap.readOnly || cap.confirmed {
      return Err(Blocked);
    }
    r := BuildArgv(cap, intent.args);
  }

  function GetOr(e: Option<Error>, default: Error): Error {
    if e.Some? then e.value else default
  }

  lemma PlanIsRunnable(cap: Capability, tokens: seq<string>, args: Args)
    requires Registered(cap) && Buildable(cap, args) && cap.readOnly && !cap.confirmed
    requires Extracted(tokens, args) && ArgumentError(cap.id, args).None?
    ensures Runnable(cap, tokens, args, Argv(cap, args))
  {
    if Uniform(Artifacts(Items(tokens))) {
      if |args.paths| == 2 {
        ComparisonHasCandidate(cap.id, args);
      }
      ArtifactsConserved(cap, args);
    }
  }

  // ----- From the words of a request to a plan ------------------------------------------------------------

  /** The operation the words of the request select. */
  ghost predicate Selects(table: seq<RequestRules.Rule>, words: seq<string>, mutating: string -> bool, id: string) {
    var hits := RequestRules.HitsOf(table, words);
    exists keywords :: RequestRules.Decides(RequestRules.Survivors(hits, hits), mutating, RequestRules.Chosen(id, keywords))
  }

  /** The words match nothing. */
  ghost predicate MatchesNothing(table: seq<RequestRules.Rule>, words: seq<string>) {
    forall rule :: rule in table ==> RequestRules.FirstPresent(rule.sets, words).None?
  }

  /** A single mutation is all the words select. */
  ghost predicate SelectsMutation(table: seq<RequestRules.Rule>, words: seq<string>, mutating: string -> bool) {
    var hits := RequestRules.HitsOf(table, words);
    exists id :: RequestRules.Decides(RequestRules.Survivors(hits, hits), mutating, RequestRules.MutationRequested(id))
  }

  lemma SelectsOnce(table: seq<RequestRules.Rule>, words: seq<string>, mutating: string -> bool, a: string, b: string)
    requires Selects(table, words, mutating, a)
    ensures Selects(table, words, mutating, b) ==> a == b
    ensures !SelectsMutation(table, words, mutating) && !MatchesNothing(table, words)
  {
    var hits := RequestRules.HitsOf(table, words);
    var readOnly := RequestRules.Ids(RequestRules.Survivors(hits, hits), mutating, false);
    assert readOnly == [a];
    assert Selects(table, words, mutating, b) ==> readOnly == [b];
    assert [a][0] == a;
    RequestRules.UnmatchedIffAbsent(table, words);
    assert hits == [] ==> RequestRules.Survivors(hits, hits) == [];
  }

  /**
    Understands a request: exactly if its words select one read-only operation and
    its arguments meet that operation's requirements. The refusal says which of the
    two failed.
   */
  method Parse(
    table: seq<RequestRules.Rule>, words: seq<string>, mutating: string -> bool,
    tokens: seq<string>, fn: Option<string>, profile: Option<string>)
    returns (r: Result<Intent, Error>)
    ensures r.Ok? <==> exists id ::
      Selects(table, words, mutating, id) && ArgumentError(id, ExtractedArgs(tokens, fn, profile)).None?
    ensures r.Ok? ==> Selects(table, words, mutating, r.value.id) && r.value.args == ExtractedArgs(tokens, fn, profile)
    ensures forall id :: Selects(table, words, mutating, id) && r.Err? ==>
      ArgumentError(id, ExtractedArgs(tokens, fn, profile)) == Some(r.error)
    ensures (forall id :: !Selects(table, words, mutating, id)) ==>
      r == Err(if MatchesNothing(table, words) then Unrecognised
               else if SelectsMutation(table, words, mutating) then Blocked else Ambiguous)
  {
    var choice := RequestRules.Choose(table, words, mutating);
    ghost var hits := RequestRules.HitsOf(table, words);
    ghost var kept := RequestRules.Survivors(hits, hits);
    if choice.Chosen? {
      var args := ExtractArgs(tokens, fn, profile);
      assert Selects(table, words, mutating, choice.id);
      forall id | Selects(table, words, mutating, id) ensures id == choice.id {
        SelectsOnce(table, words, mutating, choice.id, id);
      }
      var error := ArgumentError(choice.id, args);
      return if error.Some? then Err(error.value) else Ok(Intent(choice.id, args));
    }
    forall id ensures !Selects(table, words, mutating, id) {
      if Selects(table, words, mutating, id) {
        NothingElseIsDecided(kept, mutating, choice, id);
        SelectsOnce(table, words, mutating, id, id);
      }
    }
    match choice
    case Unrecognised => return Err(Unrecognised);
    case MutationRequested(id) =>
      assert SelectsMutation(table, words, mutating);
      return Err(Blocked);
    case Ambiguous(candidates) =>
      forall id ensures !RequestRules.Decides(kept, mutating, RequestRules.MutationRequested(id)) {
        MutationIsNotAmbiguous(kept, mutating, candidates, id);
      }
      return Err(Ambiguous);
  }

  lemma NothingElseIsDecided(kept: seq<RequestRules.Hit>, mutating: string -> bool, c: RequestRules.Choice, id: string)
    requires !c.Chosen? && exists keywords :: RequestRules.Decides(kept, mutating, RequestRules.Chosen(id, keywords))
    ensures !RequestRules.Decides(kept, mutating, c)
  {
  }

  lemma MutationIsNotAmbiguous(kept: seq<RequestRules.Hit>, mutating: string -> bool, candidates: seq<string>, id: string)
    requires RequestRules.Decides(kept, mutating, RequestRules.Ambiguous(candidates))
    ensures !RequestRules.Decides(kept, mutating, RequestRules.MutationRequested(id))
  {
  }

  /**
    Parse and plan in one step. There is a plan exactly if the words select one
    read-only operation that the registry has without need of confirmation, and the
    arguments in the tokens meet its requirements and fit on a command line. It is
    that command line, and runnable.
   */
  method Plan(
    table: seq<RequestRules.Rule>, words: seq<string>, mutating: string -> bool, registry: map<string, Capability>,
    tokens: seq<string>, fn: Option<string>, profile: Option<string>)
    returns (r: Result<seq<string>, Error>)
    requires forall id :: id in registry ==> registry[id].id == id && Registered(registry[id])
    ensures r.Ok? <==> exists id ::
      && Selects(table, words, mutating, id)
      && Plannable(registry, id, ExtractedArgs(tokens, fn, profile))
    ensures forall id :: r.Ok? && Selects(table, words, mutating, id) ==>
      && id in registry && r.value == Argv(registry[id], ExtractedArgs(tokens, fn, profile))
      && Runnable(registry[id], tokens, ExtractedArgs(tokens, fn, profile), r.value)
    ensures forall id :: r.Err? && Selects(table, words, mutating, id) ==>
      r.error == PlanRefusal(registry, id, ExtractedArgs(tokens, fn, profile))
    ensures (forall id :: !Selects(table, words, mutating, id)) ==>
      r == Err(if MatchesNothing(table, words) then Unrecognised
               else if SelectsMutation(table, words, mutating) then Blocked else Ambiguous)
  {
    var parsed := Parse(table, words, mutating, tokens, fn, profile);
    if parsed.Err? {
      return Err(parsed.error);
    }
    var intent := parsed.value;
    forall id | Selects(table, words, mutating, id) ensures id == intent.id {
      SelectsOnce(table, words, mutating, intent.id, id);
    }
    r := PlanIntent(registry, intent);
    if r.Ok? {
      ExtractedArgsMeans(tokens, fn, profile);
      PlanIsRunnable(registry[intent.id], tokens, intent.args);
    }
  }

  /** The operation can be run with the arguments. */
  predicate Plannable(registry: map<string, Capability>, id: string, args: Args) {
    && ArgumentError(id, args).None?
    && id in registry && registry[id].readOnly && !registry[id].confirmed && Buildable(registry[id], args)
  }

  /** Why it cannot: the arguments, the registry, the safety gate, the command line, in this order. */
  function PlanRefusal(registry: map<string, Capability>, id: string, args: Args): Error {
    if ArgumentError(id, args).Some? then ArgumentError(id, args).value
    else if id !in registry then UnknownCapability
    else if !registry[id].readOnly || registry[id].confirmed then Blocked
    else GetOr(Refusal(registry[id], args), Blocked)
  }
}
