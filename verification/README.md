# Soroban DevKit: verified models

This project models the parts of the Soroban developer toolkit in which most can go wrong, and proves what they
promise. Every file is a Dafny module; `dafny verify dfyconfig.toml` checks them all.

| part | modules | what it is about |
|---|---|---|
| Dependency resolver | `TopoSort`, `DeployOrder` | deploy order by Kahn's algorithm over hash maps, merging and validating declarations, lock positions |
| Static analyser | `Audit`, `AuditOrder`, `AuditTaint` | one walk over a function body, checked against an execution semantics (external call before state write) and against full expansion of `let` bindings (division before multiplication) |
| Web playground | `Playground` | selection tokens, worker requests with timers, late replies, any interleaving of callbacks |
| Dependency pipeline | `DependencyLock`, `LockVerify`, `PackageBundle` | fetch into a git cache, lock, verify, pack, unpack |
| Plugins | `PluginPaths`, `PluginBundle`, `PluginPacking`, `PluginDirectory`, `PluginStore`, `Doctor` | the bundle format, its packer and two verifiers, the store over any run, the six-stage diagnosis |
| Text scanners | `Jsonc`, `ShellSplit` | comment and trailing-comma stripping, shell tokenising |
| Request planner | `RequestRules`, `RequestArgs`, `RequestWords`, `RequestPlan`, `RequestLine`, `RequestFlags` | from the words of a request to an operation, its arguments and roles, and a command line |
| Encoders and arithmetic | `SarifUri`, `Fee` | percent-encoded URIs, medians and exact decimals |

`StringOrder`, `Texts` and `Outcomes` are shared by the others.

Code that updates state in place is a class or a method with loops, proved against functions and predicates over
values; the theorems are about those. Hash maps are visited in an arbitrary order, so nothing depends on it. Git, the
file system, archives, digests, signatures, the TOML printer and parser, plugin loading and the browser's event loop
are parameters or arbitrary events.

## What the code does not do as described

Each of these has a lemma at an input where the promise fails, or a contract that says exactly when it holds; for the
analyser there are conditions under which nothing is missed and nothing is reported that is not there.

- The node named by a failing `topo_sort` need not be on a cycle, as its comment says; it reaches one or an undeclared
  name, and is on one whatever the order of the map if and only if every stuck node is
  (`TopoSort.NamedNodeMayLieOffEveryCycle`, `TopoSort.NamesLieOnCyclesIff`).
- The analyser misses calls in callee expressions, in the value of an assignment to a written target, and across loop
  rounds (`AuditOrder.CalleeHidesCall`, `AssignmentHidesCall`, `LoopHidesCall`), and quotients behind a `let` with a
  type annotation or several names, behind an assignment, in `*=` and `/=`, or in a callee
  (`AuditTaint.TypedBindingHidesQuotient`, `DestructuringHidesQuotient`, `AssignmentHidesQuotient`,
  `CompoundProductHidesQuotient`, `CompoundDivisionHidesQuotient`, `CalleeHidesQuotient`). It reports quotients that are none
  (`AuditTaint.RebindingIsOverReported`, `FoldedDivisionIsOverReported`, `TypedRebindingIsOverReported`); `AuditTaint.TaintIsExact`
  says when it is exact.
- A comparison in the playground can be made from the bytes of a file that is no longer selected
  (`Playground.VerdictMayBeOfAnotherFile`); it is not if every base read completes while its file is selected
  (`Playground.VerdictIsOfCurrentFile`), and can be as soon as one does not (`Playground.ForeignReadMisleads`).
- A dependency given by an annotated tag or by an abbreviated revision does not verify after being fetched, and one given
  by a version constraint only does not unless the checkout of the bare URL happens to be at the same commit
  (`LockVerify.FetchThenVerify`, `AnnotatedTagDoesNotVerify`, `AbbreviatedRevisionDoesNotVerify`, `VersionDoesNotVerify`,
  `VersionVerifiesBesideBareUrl`).
- Packing succeeds for a checkout whose tree git cannot read, and the bundle then fails its own check
  (`PackageBundle.PackThenVerify`).
- A plugin whose artifact name contains a line break, is respelled by the archiver, or lies beneath another file of the
  bundle packs into a bundle that is rejected (`PluginPacking.PackThenVerify`); an accepted bundle can be rejected once extracted
  (`PluginDirectory.VerifiersAgree`).
- Although nothing should be committed before all checks pass, a failing copy leaves an empty directory that blocks the
  next install (`PluginStore.RejectedInstall`, `FailedCopyBlocksInstall`). Ids can share a directory
  (`PluginStore.SharedDirectory`). Removing the empty id removes the store (`PluginStore.Store.Remove`).
- The compatibility stage never sees metadata for another ABI in a bundle (`Doctor.BundleAbiIsIntegrity`), and an
  installed plugin can be unhealthy for its artifact's name (`Doctor.InstalledPluginIsHealthy`).
- Typed arguments in free text are never recognised (`RequestArgs.NoWordIsTyped`). A single path claimed as the baseline
  is used as the candidate (`RequestArgs.LoneBaselineBecomesCandidate`). A managed flag is accepted, and sent,
  where only a longer flag is declared (`RequestFlags.UndeclaredFlagIsSent`, `FlagsAreDeclaredIff`). A flag without its
  value, or repeated, can vanish (`RequestFlags.ValuelessFlagVanishes`, `EveryFlagReachesIff`). A mutating operation named
  beside a read-only one is passed over without a word (`RequestRules.DeployIsPassedOver`, `MutationPassedOverIff`).
- A relative URI can have a colon in its first segment (`SarifUri.ColonInFirstSegment`), and a path of two slashes alone
  has an empty authority (`SarifUri.AuthorityIffUnc`).

## Model

| member | source | states |
|---|---|---|
| `TopoSort.TopologicalSort` | crates/sdkt-core/src/package.rs:247-297 | Fails exactly when the graph has a cycle or an undeclared dependency. On success the result is the lexicographically least of all orderings of the graph keys that put every dependency first; on failure the named node is the first, in the order the map yields its keys, from which a cycle or an undeclared name is reachable |
| `TopoSort.CountDegrees` | crates/sdkt-core/src/package.rs:247-261 | Every key gets the number of its declared dependencies as in-degree, and the reversed adjacency list holds each dependent as often as it declares the node |
| `TopoSort.InitialQueue` | crates/sdkt-core/src/package.rs:263-268 | The initial queue holds exactly the nodes of in-degree zero, each once, whatever order the map is read in |
| `TopoSort.Release` | crates/sdkt-core/src/package.rs:274-283 | Releasing the dependents of a placed node never takes an in-degree below zero, leaves every degree equal to the dependencies still unplaced, and queues exactly the nodes that become ready, none of them twice |
| `TopoSort.PlaceNext` | crates/sdkt-core/src/package.rs:271-285 | One round of the loop keeps the greedy-prefix, degree and queue invariants and places one more node |
| `TopoSort.NameUnresolved` | crates/sdkt-core/src/package.rs:287-294 | The scan returns the first key of positive in-degree in the order the map yields: the "Unknown" fallback is unreachable |
| `TopoSort.GreedyIsLeast` | crates/sdkt-core/src/package.rs:263-285 | A sequence that always places the least ready node is the least ordering |
| `TopoSort.LeastOrderingUnique` | crates/sdkt-core/src/package.rs:247-297 | There is at most one least ordering, so the result is a function of the graph and not of hash-map iteration order |
| `TopoSort.UnresolvedIffStuck` | crates/sdkt-core/src/package.rs:287-296 | When the queue runs dry, a node is left over if and only if it reaches a cycle or an undeclared name |
| `TopoSort.OrderingExcludesStuck` | crates/sdkt-core/src/package.rs:247-297 | A graph that has any ordering has neither a cycle nor an undeclared dependency |
| `TopoSort.StuckMeansDefect` | crates/sdkt-core/src/package.rs:287-294 | A node that cannot be placed is evidence of a cycle or an undeclared name in the graph |
| `TopoSort.NamedNodeMayLieOffEveryCycle` | crates/sdkt-core/src/package.rs:240-246 | A graph and an order of its keys for which the named node lies on no cycle, although the comment on the function says it is on one |
| `TopoSort.AnyStuckNodeCanBeNamed` | crates/sdkt-core/src/package.rs:287-294 | Every node that reaches a cycle or an undeclared name is the one named under some order of the keys |
| `TopoSort.NamesLieOnCyclesIff` | crates/sdkt-core/src/package.rs:240-246 | The named node lies on a cycle under every order of the keys if and only if every node that cannot be placed does |
| `StringOrder.LessIsLexicographic` | crates/sdkt-core/src/package.rs:268-284 | The order of names is the lexicographic one: a proper prefix first, else the smaller character where they first differ |
| `DeployOrder.MergeDependencies` | crates/sdkt-core/src/project.rs:95-113 | Merging `deploy_after` and `depends_on` succeeds exactly if together they repeat nothing, do not name the contract itself and name contracts only; otherwise the error is that of the first faulty entry, `deploy_after` first |
| `DeployOrder.FaultlessIffNoFault` | crates/sdkt-core/src/project.rs:95-113 | The entry-by-entry checks of both lists amount to that condition on the two fields |
| `DeployOrder.BuildGraph` | crates/sdkt-core/src/project.rs:86-117 | The graph is the map of declared dependencies, in whatever order aliases are visited; failure means some declaration is faulty |
| `DeployOrder.GraphMeansContracts` | crates/sdkt-core/src/project.rs:84-120 | The orderings, walks and cycles of the graph are those of the contracts, in their two fields |
| `DeployOrder.ResolveDeployOrder` | crates/sdkt-core/src/project.rs:78-121 | The result is the least order in which every contract stands after all it names in `deploy_after` and in `depends_on`; it exists exactly if there is a contract, no declaration is faulty and no contracts wait for each other; each error says which of the three failed |
| `DeployOrder.LockAll` | crates/sdkt-core/src/lock.rs:208-232 | Entry i locks the i-th contract with position i, or the error is that of the first contract that cannot be located or hashed |
| `DeployOrder.LockFailsIff` | crates/sdkt-core/src/lock.rs:208-222 | A contract cannot be locked exactly if there is no artifact below its path or the artifact cannot be read |
| `DeployOrder.GenerateLock` | crates/sdkt-core/src/lock.rs:204-234 | The contract part of a lock follows that least order, each entry with the path, artifact, digest and position of its contract; it fails for the project exactly if there is no contract, a faulty declaration or a circle, and otherwise at the first contract that cannot be locked |
| `DeployOrder.DependenciesLockedEarlier` | crates/sdkt-core/src/lock.rs:204-234 | Every dependency of a locked contract, from either list, is locked exactly once, with a smaller position |
| `Audit.FnVisitor.EnterNode` | crates/sdkt-audit/src/audit.rs:212-239 | A `let` updates the divided names before its initialiser is walked; a multiplication with a divided operand sets the flag |
| `Audit.FnVisitor.RecordCall` | crates/sdkt-audit/src/audit.rs:241-291 | Records an external call and counts it, keeping the counters equal to the event counts |
| `Audit.FnVisitor.DetectStateWrite` | crates/sdkt-audit/src/audit.rs:366-376 | Records a state write and counts it, keeping the counters equal to the event counts |
| `Audit.FnVisitor.LeaveNode` | crates/sdkt-audit/src/audit.rs:241-291 | A call records its own event after its receiver and arguments |
| `Audit.FnVisitor.Visit` | crates/sdkt-audit/src/audit.rs:205-291 | One visit of a node is the recursive walk of the model |
| `Audit.FnVisitor.VisitAll` | crates/sdkt-audit/src/audit.rs:205-291 | Nodes are visited from left to right |
| `Audit.WalkMeaning` | crates/sdkt-audit/src/audit.rs:205-291 | The stateful walk appends the events of the node, updates the taint and raises the flag exactly as three independent recursive definitions say |
| `Audit.EventsGoByName` | crates/sdkt-audit/src/audit.rs:241-291 | A call is external if the last segment of its path, or its method name, is one of the two invocation names; a method writes state if its name is one of six, in any letter case |
| `Audit.NothingIsLost` | crates/sdkt-audit/src/audit.rs:205-291 | The visitor walks every part of a node but the callee of a call |
| `Audit.ScanOrder` | crates/sdkt-audit/src/audit.rs:472-487 | The flag of the event scan holds if and only if some external call comes before some state write |
| `Audit.ScanFunction` | crates/sdkt-audit/src/audit.rs:454-490 | Both flags and both counters of a function scan in terms of the events and taint of its body |
| `AuditOrder.TraceIsRecorded` | crates/sdkt-audit/src/audit.rs:241-291 | Every execution of an orderly node, with every choice of branches and exits, raises a subsequence of the recorded events |
| `AuditOrder.OrderOfEvaluation` | crates/sdkt-audit/src/audit.rs:205-291 | What the recorded order is compared with: an assignment computes its value first, everything else goes from left to right |
| `AuditOrder.HazardousExecutionIsReported` | crates/sdkt-audit/src/audit.rs:472-487 | If any execution of an orderly body calls out before it writes, the scan reports it |
| `AuditOrder.BranchFreeCheckIsExact` | crates/sdkt-audit/src/audit.rs:472-487 | For branch-free orderly bodies the report is set if and only if the execution has such a pair |
| `AuditOrder.CalleeHidesCall` | crates/sdkt-audit/src/audit.rs:241-266 | A call inside a callee expression is executed but never recorded, so a hazard is missed |
| `AuditOrder.AssignmentHidesCall` | crates/sdkt-audit/src/audit.rs:241-291 | An assignment is walked target first but evaluated value first, so a hazard is missed |
| `AuditOrder.LoopHidesCall` | crates/sdkt-audit/src/audit.rs:472-487 | A loop that writes and then calls runs into the hazard in its second round without being reported |
| `AuditOrder.BranchesAreOverReported` | crates/sdkt-audit/src/audit.rs:472-487 | A call and a write in different branches are reported although no execution has both |
| `AuditTaint.DivisionIsSeen` | crates/sdkt-audit/src/audit.rs:293-340 | If the full expansion of an expression contains a non-constant division, the expression contains one itself or uses a tainted name |
| `AuditTaint.QuotientIsFlagged` | crates/sdkt-audit/src/audit.rs:229-239 | A multiplication `*` with an operand whose expansion divides raises the flag, wherever the walk comes |
| `AuditTaint.LetIsFlagged` | crates/sdkt-audit/src/audit.rs:212-227 | A binding keeps the taint in step with the definitions and is flagged itself although the taint changes before its initialiser is walked |
| `AuditTaint.TaintIsSound` | crates/sdkt-audit/src/audit.rs:212-239 | For every straight-line body, every multiplication of a quotient, plain or compound, through any chain of bindings, shadowings and assignments sets the flag, provided the multiplication is written `*` outside callee expressions and quotients get their names only through a `let` of a single name without a type annotation |
| `AuditTaint.LetTaintsExactly` | crates/sdkt-audit/src/audit.rs:212-227 | A `let` of a single name makes the name tainted exactly if its expanded initialiser has a division that is not constant, and leaves every other name as it was |
| `AuditTaint.NothingIsOverReported` | crates/sdkt-audit/src/audit.rs:212-239 | A straight-line body is flagged only if it multiplies a quotient, provided no division folds to constants, no binding that makes its name a quotient uses the name, and no other statement changes which names are quotients |
| `AuditTaint.TaintIsExact` | crates/sdkt-audit/src/audit.rs:212-239 | On straight-line bodies that meet both conditions the flag is set if and only if a quotient is multiplied |
| `AuditTaint.RebindingClears` | crates/sdkt-audit/src/audit.rs:220-223 | `let x = y / y; let x = y; x * y` is not flagged |
| `AuditTaint.FoldedDivisionIsOverReported` | crates/sdkt-audit/src/audit.rs:310-319 | A division by a name bound to a constant is taken for a quotient |
| `AuditTaint.TypedRebindingIsOverReported` | crates/sdkt-audit/src/audit.rs:212-227 | Rebinding a quotient with a type annotation does not clear it |
| `AuditTaint.TypedBindingHidesQuotient` | crates/sdkt-audit/src/audit.rs:212-227 | A type annotation on the binding makes the same quotient pass unnoticed |
| `AuditTaint.DestructuringHidesQuotient` | crates/sdkt-audit/src/audit.rs:212-227 | A quotient bound by a pattern of several names passes unnoticed |
| `AuditTaint.AssignmentHidesQuotient` | crates/sdkt-audit/src/audit.rs:212-227 | A quotient assigned to a name passes unnoticed |
| `AuditTaint.CompoundDivisionHidesQuotient` | crates/sdkt-audit/src/audit.rs:293-308 | `x /= y` is not taken for a division |
| `AuditTaint.CompoundProductHidesQuotient` | crates/sdkt-audit/src/audit.rs:229-239 | `x *= y / y` is not taken for a multiplication, whatever is tainted |
| `AuditTaint.CalleeHidesQuotient` | crates/sdkt-audit/src/audit.rs:229-266 | A multiplied quotient inside a callee expression passes unnoticed |
| `AuditTaint.RebindingIsOverReported` | crates/sdkt-audit/src/audit.rs:212-227 | Because a name is tainted before its own initialiser is walked, a body without any multiplied quotient can be flagged |
| `Playground.EveryRequestSettlesOnce` | website/playground/playground.js:98-119 | In every reachable state each issued request is pending with an armed timer or settled, never both, never twice, with one continuation |
| `Playground.LateRepliesIgnored` | website/playground/playground.js:696-715 | A reply or timeout for a request that is settled, unknown or never issued changes nothing after any run |
| `Playground.WorkerErrorLeavesNothingPending` | website/playground/playground.js:717-725 | After a worker error, whatever came before, no request and no timer is left |
| `Playground.ShownInspectionIsOfCurrentFile` | website/playground/playground.js:545-642 | In every state reachable by any interleaving, an inspection marked shown was computed from the file now selected |
| `Playground.StepMatchesIffReadsCurrent` | website/playground/playground.js:567-571 | One event keeps the stored bytes those of the selected file if and only if a base read that completes in it is of the selected file |
| `Playground.BytesMatchIffReadsCurrent` | website/playground/playground.js:567-571 | Along a whole run the stored bytes are those of the selected file if and only if every base read completes while its file is selected |
| `Playground.VerdictIsOfCurrentFile` | website/playground/playground.js:519-592 | If every base read of a run completes while its file is selected, a verdict shown beside an inspection was computed from the selected file |
| `Playground.ForeignReadMisleads` | website/playground/playground.js:567-571 | Whenever a base read of another file completes while an inspection is shown, the next comparison shows a verdict on that other file beside it |
| `Playground.UpgradeExampleIsCompared` | website/playground/playground.js:594-624 | Clicking the new upgrade example beside a selected file, once fetched and answered, shows the verdict on an upgrade from that file and leaves the file and its inspection as they are |
| `Playground.UpgradeExampleBecomesCandidate` | website/playground/playground.js:606-613 | Fetched under the current token beside a selected file it becomes the candidate and a comparison is asked for; nothing else on the page changes |
| `Playground.ExampleIsSelected` | website/playground/playground.js:606-616 | The old example, or any example when no file is selected, becomes the selected file and is read |
| `Playground.FileIsSelected` | website/playground/playground.js:545-565 | A picked file becomes the selected one, nothing is shown and no candidate is left |
| `Playground.SelectedFileIsShown` | website/playground/playground.js:567-592 | A selected file that is read and inspected with nothing in between is shown |
| `Playground.StaleWorkIsInvisible` | website/playground/playground.js:567-624 | Work that ends under another token than its own, well or badly, changes nothing on the screen |
| `Playground.FailureIsShown` | website/playground/playground.js:519-624 | Work that fails under the current token takes the inspection down, or the verdict if it was a comparison, and nothing else |
| `Playground.ResetStays` | website/playground/playground.js:626-642 | After a reset nothing that was under way brings anything back until a file or example is picked |
| `Playground.ResetForgets` | website/playground/playground.js:626-642 | A reset forgets both files and claims a token; requests under way stay; a cancelled choice of a candidate changes nothing |
| `Playground.EarlyExampleLosesInspection` | website/playground/playground.js:594-604 | While an example is being fetched no inspection of the selected file is on its way any more |
| `Playground.VerdictMayBeOfAnotherFile` | website/playground/playground.js:570-570 | A run after which the page shows the inspection of one file beside an upgrade verdict computed from another |
| `Playground.Page.Begin` | website/playground/playground.js:95-96 | A new selection invalidates all earlier tokens |
| `Playground.Page.PostRequest` | website/playground/playground.js:98-119 | Posting issues the next id with its pending entry and timer |
| `Playground.Page.SettleRequest` | website/playground/playground.js:98-119 | Settling removes entry and timer together and schedules the continuation once |
| `Playground.Page.OnMessage` | website/playground/playground.js:696-715 | A reply settles its request if that is pending |
| `Playground.Page.OnTimeout` | website/playground/playground.js:98-119 | A timer settles its request as failed |
| `Playground.Page.OnError` | website/playground/playground.js:717-725 | All pending requests are rejected |
| `Playground.Page.OnFile` | website/playground/playground.js:545-565 | Choosing a file starts a selection and schedules its reading |
| `Playground.Page.OnBaseRead` | website/playground/playground.js:567-592 | Completed reading stores the bytes and asks for the inspection |
| `Playground.Page.OnInspected` | website/playground/playground.js:567-592 | An inspection is rendered only under the current token |
| `Playground.Page.Compare` | website/playground/playground.js:519-543 | A comparison is requested once both sides have bytes |
| `Playground.Page.OnCompared` | website/playground/playground.js:519-543 | A verdict is rendered only under the current token |
| `Playground.Page.OnExampleFetched` | website/playground/playground.js:594-624 | A fetched example becomes the candidate or the selected file, under the current token only |
| `Playground.Page.OnCandidateChosen` | website/playground/playground.js:650-667 | Choosing a candidate starts a selection and schedules its reading |
| `Playground.Page.OnCandidateRead` | website/playground/playground.js:650-667 | A candidate that has been read is compared under the current token only |
| `Playground.Page.OnReset` | website/playground/playground.js:626-642 | Reset clears the page and invalidates every token |
| `Playground.Page.Dispatch` | website/playground/playground.js:646-725 | Every event, expected or not, takes the page through the transition of the run and keeps its invariants |
| `Playground.RunPage` | website/playground/playground.js:646-725 | A page that has handled any events: each of its requests is pending with a timer or settled once, its shown inspection is of its selected file, and so is its verdict if every base read was current |
| `DependencyLock.TagAndBranchShareKey` | crates/sdkt-core/src/fetch.rs:131-145 | A tag and a branch of the same name have the same cache key |
| `DependencyLock.FetchedIdempotent` | crates/sdkt-core/src/fetch.rs:216-353 | Fetching the same source again leaves the checkout as it is |
| `DependencyLock.KeyIsOfUrlAndReference` | crates/sdkt-core/src/fetch.rs:131-145 | The cache key is made of the URL and the tag, else the branch, else the revision, else `head` |
| `DependencyLock.ReusedMeans` | crates/sdkt-core/src/fetch.rs:284-296 | A checkout is reused exactly if the fetch is not forced and it stands where its own references put the dependency |
| `DependencyLock.FetchChecksOut` | crates/sdkt-core/src/fetch.rs:298-343 | Otherwise the head goes where the remote puts the reference; only a tag the checkout already has stays unless the fetch is forced |
| `DependencyLock.GitCache.Fetch` | crates/sdkt-core/src/fetch.rs:217-353 | A fetch succeeds exactly if the URL is given, the constraint and the reference resolve, and the remote is there when it is needed; it changes only the checkout under its key, to the one the dependency asks for, and returns the revision to record; a failure leaves at most that checkout updated without a new head |
| `DependencyLock.FetchIsOrderIndependent` | crates/sdkt-core/src/fetch.rs:216-353 | With distinct keys, what a dependency finds does not depend on what was fetched before it |
| `DependencyLock.FetchAll` | crates/sdkt-cli/src/main.rs:8670-8686 | Succeeds exactly if each dependency can be fetched into the initial cache by itself, in any order; each then has the checkout and revision that fetching it alone would give; checkouts no dependency uses are never touched |
| `LockVerify.LockResolved` | crates/sdkt-core/src/lock.rs:305-359 | One lock entry per dependency, with the source, URL, reference, commit and version of the manifest and the fetch outcome, and as integrity `sha256:` with the tree of the cached checkout, or what is at the local path |
| `LockVerify.CheckDependency` | crates/sdkt-core/src/lock.rs:650-767 | The mismatches reported for one dependency are exactly those that hold |
| `LockVerify.VerifyDependencies` | crates/sdkt-core/src/lock.rs:617-786 | Every reported mismatch holds, every one that holds is reported, and `consistent` means none; where the tree of a checkout is known, an integrity mismatch is reported exactly if the recorded text is not `sha256:` with that tree, and a commit mismatch exactly if the recorded commit is not its head |
| `LockVerify.AgreesIffNothingReported` | crates/sdkt-core/src/lock.rs:617-786 | Nothing is reported if and only if key sets, sources, references, commits and integrities agree |
| `LockVerify.EntryRoundTrip` | crates/sdkt-core/src/lock.rs:305-359 | For any cache before: the entry of a pinned dependency verifies if and only if its checkout was reused as it was or its reference is a lightweight tag, a branch or a full revision; that of a version constraint if and only if what is left under the key of the bare URL is at the recorded revision; that of a path if and only if it exists |
| `LockVerify.FetchThenVerify` | crates/sdkt-core/src/lock.rs:617-786 | Fetching everything into any cache, locking and verifying: succeeds exactly if everything can be fetched, and reports consistent if and only if every dependency is reproducible in that sense |
| `LockVerify.PinnedRoundTrip` | crates/sdkt-core/src/fetch.rs:283-352 | What is recorded for a pinned dependency is what is checked out, if and only if it was reused or its reference is exact after the transfer |
| `LockVerify.AnnotatedTagDoesNotVerify` | crates/sdkt-core/src/fetch.rs:192-213 | An annotated tag never verifies unless a plain fetch keeps an older tag of that name |
| `LockVerify.AbbreviatedRevisionDoesNotVerify` | crates/sdkt-core/src/fetch.rs:188-191 | An abbreviated revision never verifies |
| `LockVerify.VersionDoesNotVerify` | crates/sdkt-core/src/fetch.rs:265-266 | A version constraint does not verify when nothing is cached or fetched under the key of the bare URL |
| `LockVerify.VersionVerifiesBesideBareUrl` | crates/sdkt-core/src/lock.rs:706-727 | It verifies beside a dependency on the bare URL whose default branch stands at the commit of the resolved tag |
| `PackageBundle.StageEntry` | crates/sdkt-core/src/package.rs:677-714 | Staging a lock entry copies exactly the checkout of its git dependency, or reports that it is not cached |
| `PackageBundle.Pack` | crates/sdkt-core/src/package.rs:625-764 | Packing succeeds exactly if the format is `tar.zst` or `dir` and name, version, manifest, lock and all declared checkouts are there; the staged tree then holds manifest, lock, checkouts and descriptor, and the descriptor the name, version, format, lock digest and an entry for each locked dependency |
| `PackageBundle.VerifyBundleEquivalence` | crates/sdkt-core/src/package.rs:841-877 | The check is true exactly if the lock digest and the tree of every git entry are those of the descriptor |
| `PackageBundle.PackThenVerify` | crates/sdkt-core/src/package.rs:841-908 | Pack, unpack over any destination and verify: every git dependency both locked and declared arrives with every file of its checkout, and the check is true if and only if git names the same tree in each checkout before and after |
| `PackageBundle.EmptyDestination` | crates/sdkt-core/src/package.rs:841-908 | For an empty destination that is if and only if git can read the tree of each checkout |
| `PluginPaths.SingleComponentIsSafe` | crates/sdkt-audit/src/plugin_store.rs:162-167 | An ordinary file name is a safe relative path |
| `PluginPaths.SafeByParts` | crates/sdkt-audit/src/plugin_store.rs:162-167 | A path is safe exactly if it is empty, or starts with no slash and no `.` part and has no `..` part |
| `PluginBundle.LinesOfPrinted` | crates/sdkt-audit/src/plugin_store.rs:203-207 | A printed manifest line reads back as itself except for a carriage return at its end |
| `PluginBundle.ReadArchive` | crates/sdkt-audit/src/plugin_store.rs:242-260 | An archive is read exactly if it holds only files under safe names, each once |
| `PluginBundle.ParseManifest` | crates/sdkt-audit/src/plugin_store.rs:273-292 | A manifest is parsed exactly if its lines are well formed and list no path twice, into the listed digests |
| `PluginBundle.CheckFiles` | crates/sdkt-audit/src/plugin_store.rs:298-319 | The files pass exactly if every listed one is there with its digest and every other one is outside the manifest by name |
| `PluginBundle.CheckSignature` | crates/sdkt-audit/src/plugin_store.rs:320-341 | A signature passes exactly if its embedded key is valid, checks it, and is the trusted one when one is given |
| `PluginBundle.VerifyBundle` | crates/sdkt-audit/src/plugin_store.rs:234-354 | A bundle is accepted exactly if archive, metadata, manifest and signature all hold and its files can be extracted side by side, and then yields them unchanged; signed means that the embedded key is valid, checks the signature over the manifest, and is the trusted one if one is given |
| `PluginBundle.ValidMeans` | crates/sdkt-audit/src/plugin_store.rs:72-114 | Valid metadata has an id and an artifact that are not blank, one of two kinds, ABI version 1, and a safe artifact path that is none of the four reserved names |
| `PluginBundle.TamperingIsSeen` | crates/sdkt-audit/src/plugin_store.rs:298-307 | Of two bundles with one manifest and different digests for a listed file at most one is accepted |
| `PluginPacking.PackedReads` | crates/sdkt-audit/src/plugin_store.rs:190-227 | A packed archive that can be read holds the files that were packed, under the names the archiver gives them |
| `PluginPacking.PackedIsAccepted` | crates/sdkt-audit/src/plugin_store.rs:190-354 | Every packed bundle whose artifact name fits on one line and is kept by the archiver is accepted, signed or not, also with the signing key as trusted key |
| `PluginPacking.OddNameIsRejected` | crates/sdkt-audit/src/plugin_store.rs:190-354 | A packed bundle whose artifact name does not fit on one line is accepted with no metadata and no flag |
| `PluginPacking.RespelledNameIsRejected` | crates/sdkt-audit/src/plugin_store.rs:190-354 | A packed bundle whose artifact the archiver respells is accepted with no metadata and no flag |
| `PluginPacking.PackThenVerify` | crates/sdkt-audit/src/plugin_store.rs:190-354 | An artifact comes through packing and verification with the same files, metadata and signed flag if and only if its name fits on one line, the archiver keeps it and the files can be extracted; for a single-component name if and only if it fits on one line |
| `PluginDirectory.Extract` | crates/sdkt-audit/src/plugin_store.rs:342-349 | Every entry leaves a file at its location and every file comes from an entry of that location |
| `PluginPaths.TopLevelNameIsUnique` | crates/sdkt-audit/src/plugin_store.rs:162-167 | Only one safe name leads to a file at the top of the directory |
| `PluginDirectory.CheckDirLines` | crates/sdkt-audit/src/plugin_doctor.rs:431-454 | The lines pass exactly if each is blank or names an existing file with its digest, and the covered paths are collected |
| `PluginDirectory.SpacedLine` | crates/sdkt-audit/src/plugin_doctor.rs:431-454 | A line that is not in the form of the packer lists the path behind the first space and any white space, with the digest before |
| `PluginDirectory.VerifyDirManifest` | crates/sdkt-audit/src/plugin_doctor.rs:427-483 | A directory is accepted exactly if its manifest and signature files hold, with the signed flag |
| `PluginDirectory.VerifiersAgree` | crates/sdkt-audit/src/plugin_doctor.rs:427-483 | An accepted bundle extracted into an empty directory is accepted there with the same flag if and only if it is signed or keeps clear of the signature names, and spells no file in two ways with different digests |
| `PluginStore.SanitizeIdempotent` | crates/sdkt-audit/src/plugin_store.rs:425-432 | Sanitising a directory name again changes nothing, on which listing relies |
| `PluginStore.SanitizedStaysInside` | crates/sdkt-audit/src/plugin_store.rs:420-432 | Every id but the empty one becomes one ordinary path component |
| `PluginStore.SharedDirectory` | crates/sdkt-audit/src/plugin_store.rs:425-432 | Two ids share a directory exactly if they differ only in special characters and underscores at the same places |
| `PluginStore.CheckSource` | crates/sdkt-audit/src/plugin_store.rs:562-586 | Metadata that passes the checks is valid, fits the extension, and carries the overriding id |
| `PluginStore.Commit` | crates/sdkt-audit/src/plugin_store.rs:611-632 | Writing the new artifact and metadata and deleting the stale artifact leaves exactly `plugin.toml` and the artifact it names |
| `PluginStore.Store.ReadMeta` | crates/sdkt-audit/src/plugin_store.rs:439-446 | Finds exactly the metadata in the id's directory |
| `PluginStore.Store.Install` | crates/sdkt-audit/src/plugin_store.rs:562-633 | The files on disk follow the catalogue step; every directory holds exactly the files of its slot |
| `PluginStore.Store.Update` | crates/sdkt-audit/src/plugin_store.rs:648-660 | Update is a forced install under the given id |
| `PluginStore.Store.Remove` | crates/sdkt-audit/src/plugin_store.rs:637-645 | Removes the id's directory and nothing else; the empty id removes the whole store |
| `PluginStore.Store.Resolve` | crates/sdkt-audit/src/plugin_store.rs:514-524 | Finds every installed plugin at a file that holds the installed bytes |
| `PluginStore.Store.ListIn` | crates/sdkt-audit/src/plugin_store.rs:462-505 | Lists every installed plugin once and nothing else, in strictly ascending order of ids |
| `PluginStore.Store.InstallBundle` | crates/sdkt-audit/src/plugin_store.rs:366-393 | Nothing is installed from a bundle that is not accepted, or not signed with the key the caller gives; otherwise the staged artifact is installed |
| `PluginStore.Installed` | crates/sdkt-audit/src/plugin_store.rs:562-633 | Every install keeps the catalogue well formed, and every rejection other than a failing copy leaves it unchanged |
| `PluginStore.Run` | crates/sdkt-audit/src/plugin_store.rs:562-660 | Over every run of install, update and remove, each directory is named by the sanitised id of the plugin it holds, with valid metadata and a single-component artifact |
| `PluginStore.DirectoriesAreIndependent` | crates/sdkt-audit/src/plugin_store.rs:562-660 | What a run leaves in one directory is what the commands naming it, or erasing the store, leave by themselves |
| `PluginStore.NoDirectoryIsEmpty` | crates/sdkt-audit/src/plugin_store.rs:562-660 | In runs without a failing copy every directory holds a plugin |
| `PluginStore.RejectedInstall` | crates/sdkt-audit/src/plugin_store.rs:562-633 | A rejected install changes the store if and only if all checks pass, the copy fails and there was no directory: it then leaves an empty one |
| `PluginStore.FailedCopyBlocksInstall` | crates/sdkt-audit/src/plugin_store.rs:590-617 | The empty directory makes the corrected install fail as already installed unless it is forced |
| `PluginStore.LookupAfterInstall` | crates/sdkt-audit/src/plugin_store.rs:439-446 | After an install an id finds the new plugin exactly if it shares its directory, and otherwise what it found before |
| `PluginStore.ExtensionIs` | crates/sdkt-audit/src/plugin_store.rs:527-545 | The extension of an artifact is what follows the last dot of its name, in lower case, unless the name starts with that dot |
| `PluginStore.InstallsIff` | crates/sdkt-audit/src/plugin_store.rs:562-633 | An install succeeds exactly if the source is local, its metadata valid as written and under the overriding id, the extension one of its kind, the directory free or the install forced, the plugin loads and the artifact can be copied; it stores just that |
| `PluginStore.LookupAfterRemove` | crates/sdkt-audit/src/plugin_store.rs:637-645 | After a removal an id finds what it found before, unless it shares the directory or the empty id removed the store |
| `PluginStore.IdsCollide` | crates/sdkt-audit/src/plugin_store.rs:425-432 | Two different ids with one directory |
| `PluginStore.PackedInstalls` | crates/sdkt-audit/src/plugin_store.rs:366-393 | Packing and installing stores the same metadata and bytes exactly if the plugin loads and the artifact's name has the extension of its kind; with a key the caller gives, exactly if it is the signing key |
| `Doctor.DoctorReport.AddStage` | crates/sdkt-audit/src/plugin_doctor.rs:73-87 | Appends a stage and clears `healthy` on a failure |
| `Doctor.DoctorReport.ExitCode` | crates/sdkt-audit/src/plugin_doctor.rs:97-108 | 0 for a healthy report, otherwise the place of the first failed stage |
| `Doctor.ReportShape` | crates/sdkt-audit/src/plugin_doctor.rs:72-108 | For any stage results: the names are a prefix of the six, at most the last stage failed, healthy exactly if all six passed, and otherwise the exit code is the number of stages run |
| `Doctor.RunSelfCheck` | crates/sdkt-audit/src/plugin_doctor.rs:627-666 | The self-check passes exactly if it does not panic and no finding reports a trap |
| `Doctor.RunCompatibilityLoadAndCheck` | crates/sdkt-audit/src/plugin_doctor.rs:487-623 | Stages four to six report the outcome of compatibility, load and self-check up to the first failure |
| `Doctor.RunBundleDoctor` | crates/sdkt-audit/src/plugin_doctor.rs:182-330 | A bundle run reports the six stage results up to the first failure |
| `Doctor.RunDirectoryDoctor` | crates/sdkt-audit/src/plugin_doctor.rs:333-422 | A directory run reports the six stage results up to the first failure |
| `Doctor.Diagnose` | crates/sdkt-audit/src/plugin_doctor.rs:126-156 | Every target yields such a report, a missing one a failed first stage |
| `Doctor.HealthyBundle` | crates/sdkt-audit/src/plugin_doctor.rs:182-330 | An accepted bundle is healthy exactly if it can be extracted, its artifact has the right extension and the host agrees |
| `Doctor.HostAgreesMeans` | crates/sdkt-audit/src/plugin_doctor.rs:487-666 | The host agrees exactly if metadata and artifact are for ABI version 1, the plugin loads, and no finding of the self-check contains the words of a trap or a poisoned lock |
| `Doctor.HealthyByStages` | crates/sdkt-audit/src/plugin_doctor.rs:182-330 | A bundle is healthy exactly if each of the six stages finds what it needs; the bundle verifier accepts it then |
| `Doctor.BundleAbiIsIntegrity` | crates/sdkt-audit/src/plugin_doctor.rs:300-330 | For a bundle, metadata for another ABI is never reported at the compatibility stage |
| `Doctor.ExtractedBundleIsHealthy` | crates/sdkt-audit/src/plugin_doctor.rs:333-422 | Extracting a healthy bundle gives a healthy directory if and only if the two verifiers agree on it |
| `Doctor.InstalledPluginIsHealthy` | crates/sdkt-audit/src/plugin_doctor.rs:333-422 | An installed plugin is healthy exactly if the host agrees and the artifact is named with an extension of its kind |
| `Jsonc.StripComments` | scripts/guard/guard_devcontainer.py:169-203 | The index loop with look-ahead computes the seven-state automaton |
| `Jsonc.TidyCommas` | scripts/guard/guard_devcontainer.py:204-233 | The second pass drops exactly the commas outside strings that only blanks separate from a closing bracket |
| `Jsonc.StripJsonc` | scripts/guard/guard_devcontainer.py:169-233 | Both passes in turn |
| `Jsonc.StripIdempotent` | scripts/guard/guard_devcontainer.py:169-203 | The comment pass is idempotent |
| `Jsonc.StripKeepsLiterals` | scripts/guard/guard_devcontainer.py:169-203 | The comment pass keeps every string literal verbatim and in order |
| `Jsonc.InsertedCommentIsInvisible` | scripts/guard/guard_devcontainer.py:169-203 | A block comment inserted anywhere in code, not right after a `/`, leaves the result unchanged |
| `Jsonc.LineCommentEndsWithLine` | scripts/guard/guard_devcontainer.py:191-194 | A line comment in code is dropped up to the line feed or carriage return that ends it, which stays |
| `Jsonc.CommentAfterSlashIsVisible` | scripts/guard/guard_devcontainer.py:169-203 | Right after a `/` in code the insertion is visible |
| `Jsonc.StripBounded` | scripts/guard/guard_devcontainer.py:169-203 | The comment pass leaves a text unchanged if and only if no comment starts in it, and otherwise shortens it |
| `Jsonc.UnchangedIffClean` | scripts/guard/guard_devcontainer.py:169-233 | Both passes are the identity if and only if there is no comment and no trailing comma outside strings |
| `Jsonc.StripJsoncKeepsLiterals` | scripts/guard/guard_devcontainer.py:169-233 | Both passes together keep every string literal |
| `Jsonc.TidyIsNotIdempotent` | scripts/guard/guard_devcontainer.py:204-233 | The second pass is not idempotent on `,,]` |
| `Jsonc.ClosesMeans` | scripts/guard/guard_devcontainer.py:204-233 | A comma counts as trailing exactly if only spaces, tabs and line ends are between it and the next brace or bracket |
| `ShellSplit.ReadQuoted` | scripts/guard/guard_devcontainer.py:308-317 | Reads a quoted part to its closing quote or the end |
| `ShellSplit.ReadToken` | scripts/guard/guard_devcontainer.py:304-322 | Reads one token with its raw and unquoted form |
| `ShellSplit.SplitShellCommand` | scripts/guard/guard_devcontainer.py:292-323 | The index loops compute the token function |
| `ShellSplit.TokensLayOut` | scripts/guard/guard_devcontainer.py:292-323 | Nothing is lost: the raw tokens interleaved with whitespace gaps rebuild the command |
| `ShellSplit.LayoutSplitsBack` | scripts/guard/guard_devcontainer.py:292-323 | Any well-formed layout of tokens and gaps splits back into exactly those tokens |
| `ShellSplit.QuotedArgumentsSplitBack` | scripts/guard/guard_devcontainer.py:292-323 | Arguments quoted with a character they do not contain and joined with spaces split back into exactly themselves, empty ones included |
| `ShellSplit.Dequote` | scripts/guard/guard_devcontainer.py:326-333 | The unquoted tokens joined with single spaces |
| `ShellSplit.QuotesAreInvisible` | scripts/guard/guard_devcontainer.py:326-333 | Quoting the arguments in any way gives the scan the arguments themselves |
| `ShellSplit.SpaceIsWhiteOrSeparator` | scripts/guard/guard_devcontainer.py:301-306 | White space for the tokenizer: the Unicode property and the four information separators |
| `RequestRules.MatchRules` | crates/sdkt-agent/src/intent.rs:325-337 | The hits are, per operation, the first fully present keyword set |
| `RequestRules.MatchedIffPresent` | crates/sdkt-agent/src/intent.rs:325-337 | An operation is matched exactly if one of its keyword sets is fully present |
| `RequestRules.KeepSpecific` | crates/sdkt-agent/src/intent.rs:343-354 | Keeps, in order, exactly the operations no more specific one describes |
| `RequestRules.DroppedIsCovered` | crates/sdkt-agent/src/intent.rs:343-354 | Every matched operation has a surviving one that matched at least its words |
| `RequestRules.SomeSurvive` | crates/sdkt-agent/src/intent.rs:343-354 | The specificity filter never drops everything |
| `RequestRules.Choose` | crates/sdkt-agent/src/intent.rs:317-400 | Unrecognised exactly if nothing matches; ambiguity names at least two operations; one surviving read-only operation is chosen whatever mutations were named; a mutation is reported only if it is all that survives |
| `RequestRules.MutationPassedOverIff` | crates/sdkt-agent/src/intent.rs:356-399 | A mutation that survives the filter goes unmentioned if and only if a read-only operation survives beside it |
| `RequestRules.DeployIsPassedOver` | crates/sdkt-agent/src/intent.rs:368-388 | A request to deploy and verify is planned as a verification without a word about the deployment |
| `RequestArgs.NoWordIsTyped` | crates/sdkt-agent/src/intent.rs:595-602 | No word is ever recognised as a typed argument: the prefixes looked up include the colon that the lookup leaves off |
| `RequestArgs.QuotedValue` | crates/sdkt-agent/src/intent.rs:673-702 | A quoted value ends at the first closing quote within sixteen further tokens |
| `RequestArgs.ReadItem` | crates/sdkt-agent/src/intent.rs:505-538 | A flag takes its value from its own token, a quoted run or a value-like next token, and nothing else |
| `RequestWords.PunctuationIsTrimmed` | crates/sdkt-agent/src/intent.rs:794-801 | Punctuation around a word is left off, all of it, and punctuation within is kept |
| `RequestWords.ContractIdIs` | crates/sdkt-agent/src/intent.rs:937-944 | A word is a contract id exactly if it is a `C` and fifty-five characters of base 32, followed by nothing but characters that are neither letters nor digits |
| `RequestWords.FlagWithEquals` | crates/sdkt-agent/src/intent.rs:505-509 | `--name=value` is that flag with that value |
| `RequestWords.FlagTakesNext` | crates/sdkt-agent/src/intent.rs:516-536 | A flag takes the next word exactly if that is no flag and has the shape of a value or names a format |
| `RequestWords.QuotedTextComesBack` | crates/sdkt-agent/src/intent.rs:673-702 | A quoted text of at most seventeen words comes back whole |
| `RequestArgs.ReadTokens` | crates/sdkt-agent/src/intent.rs:497-619 | The loop over the tokens is the fold over flags and words |
| `RequestArgs.ArtifactsAreTracked` | crates/sdkt-agent/src/intent.rs:497-668 | Every artifact the request names is listed, nothing else is, no two listed paths are equal up to letter case, and roles are claimed for named paths only |
| `RequestArgs.FlagsAreRecorded` | crates/sdkt-agent/src/intent.rs:508-560 | Every flag is recorded with its value in request order |
| `RequestArgs.WordsAreUsed` | crates/sdkt-agent/src/intent.rs:562-607 | The last contract id, source file and network named in words win, and the first envelope and endpoint; nothing else sets them |
| `RequestArgs.ClaimsAreRecorded` | crates/sdkt-agent/src/intent.rs:539-617 | Candidate and baseline claims are exactly what artifact flags, preceding marker words and file names say |
| `RequestArgs.DedupClaims` | crates/sdkt-agent/src/intent.rs:759-762 | Claims come out ascending, each once, none lost |
| `RequestArgs.AssignRoles` | crates/sdkt-agent/src/intent.rs:715-757 | Roles from the deduplicated claims, by the number of paths |
| `RequestArgs.PairIsResolved` | crates/sdkt-agent/src/intent.rs:722-741 | With two paths both roles are set or neither is, exactly when the claims settle them; they differ and never go against a claim |
| `RequestArgs.PairIsCovered` | crates/sdkt-agent/src/intent.rs:722-741 | With one spelling per path, settled roles are the two paths, one each |
| `RequestArgs.TwoSpellingsTakeBothRoles` | crates/sdkt-agent/src/intent.rs:722-741 | A path claimed for both roles in two letter cases takes both |
| `RequestArgs.ListingOrderIsIrrelevant` | crates/sdkt-agent/src/intent.rs:722-741 | Swapping the two paths does not change their roles |
| `RequestArgs.LoneBaselineBecomesCandidate` | crates/sdkt-agent/src/intent.rs:719-721 | A single path becomes the candidate whatever is claimed, against the claims exactly if there is a baseline claim |
| `RequestArgs.ExtractArgs` | crates/sdkt-agent/src/intent.rs:497-668 | All of these for the extraction as a whole, on every request, as a function of its tokens |
| `RequestPlan.ComparisonHasCandidate` | crates/sdkt-agent/src/intent.rs:414-487 | A comparison that passes validation has a candidate |
| `RequestPlan.UnmarkedPairIsRefused` | crates/sdkt-agent/src/intent.rs:430-461 | Two artifacts that nothing marks are refused as ambiguous by every comparing operation |
| `RequestPlan.CheckRequest` | crates/sdkt-agent/src/plan.rs:228-255 | Passes exactly if the artifacts fit the capacity and every flag is accepted |
| `RequestPlan.CheckNetwork` | crates/sdkt-agent/src/plan.rs:259-302 | Passes exactly if no production network is named, endpoint and passphrase have a place to go, and a foreign endpoint comes with a passphrase |
| `RequestPlan.PushPassThrough` | crates/sdkt-agent/src/plan.rs:311-330 | Non-managed flags follow with their values in request order, or a flag without value refuses the request |
| `RequestPlan.CollectArtifacts` | crates/sdkt-agent/src/plan.rs:347-374 | The artifacts with roles, behind their declared flags, in declaration order |
| `RequestPlan.BuildArgv` | crates/sdkt-agent/src/plan.rs:228-498 | A command line is built exactly if the request fits, and is the command, the pass-through flags, the contract, the artifact slots and the remaining arguments |
| `RequestPlan.Refusal` | crates/sdkt-agent/src/plan.rs:228-498 | There is no reason to refuse if and only if the request fits |
| `RequestPlan.PassThroughAppends` | crates/sdkt-agent/src/plan.rs:311-330 | Pass-through words of a concatenation are the concatenation of pass-through words |
| `RequestPlan.ArtifactsConserved` | crates/sdkt-agent/src/plan.rs:347-377 | Every named artifact fills exactly one slot, if and only if none is named or the candidate is known |
| `RequestPlan.ForeignEndpointHasOwnPassphrase` | crates/sdkt-agent/src/plan.rs:292-302 | A foreign endpoint is paired only with the passphrase the request gives |
| `RequestPlan.ForeignPassphraseKeepsDefaultEndpoint` | crates/sdkt-agent/src/plan.rs:449-466 | A foreign passphrase without an endpoint is paired with the default endpoint |
| `RequestLine.EntriesAreBothLists` | crates/sdkt-agent/src/plan.rs:501-505 | A flag is declared, or mentioned, by a required or an optional argument of the operation |
| `RequestLine.FirstWordIs` | crates/sdkt-agent/src/plan.rs:530-536 | A declaration goes by its first word: what stands between leading white space and the next |
| `RequestLine.ArtifactsAccepted` | crates/sdkt-agent/src/plan.rs:211-222 | Two artifacts are accepted where a baseline argument is declared, one where a candidate argument is, none elsewhere |
| `RequestLine.ArtifactsFollowDeclarations` | crates/sdkt-agent/src/plan.rs:373-377 | Wherever the argument of the second artifact is declared, that of the first is declared no later |
| `RequestLine.LineCarriesFlags` | crates/sdkt-agent/src/plan.rs:304-330 | The line starts with the command and has every uninterpreted flag right before its value |
| `RequestLine.LineCarriesContract` | crates/sdkt-agent/src/plan.rs:332-337 | The line has the contract, behind `--contract` where the registry has that |
| `RequestLine.LineCarriesBaseline` | crates/sdkt-agent/src/plan.rs:347-364 | The line has the baseline behind the baseline argument the registry declares |
| `RequestLine.LineCarriesCandidate` | crates/sdkt-agent/src/plan.rs:365-374 | The line has the candidate behind the candidate argument the registry declares, or by position |
| `RequestLine.LineCarriesPositionals` | crates/sdkt-agent/src/plan.rs:378-386 | The line has the source path, the function and the profile |
| `RequestLine.FunctionFollowsContract` | crates/sdkt-agent/src/plan.rs:332-383 | The function comes after the contract |
| `RequestLine.LineCarriesValues` | crates/sdkt-agent/src/plan.rs:387-424 | The line has the envelope, the fee samples and every typed argument behind their flags |
| `RequestLine.LineCarriesNetwork` | crates/sdkt-agent/src/plan.rs:425-467 | The line has the endpoint and passphrase of the request, or those of the public test network, and `--rpc` for live statistics |
| `RequestLine.LineCarriesFormat` | crates/sdkt-agent/src/plan.rs:493-496 | JSON is asked for wherever it exists, unless the first `--format` says `pretty` |
| `RequestLine.FormatIsServed` | crates/sdkt-agent/src/plan.rs:469-492 | A format is served exactly if the first `--format` names one that the operation has |
| `RequestLine.LineLength` | crates/sdkt-agent/src/plan.rs:228-498 | A command line has no words but these, counted; `TailLength` counts those after the artifacts |
| `RequestLine.Requirements` | crates/sdkt-agent/src/intent.rs:414-487 | Which operations need a contract, and which need more |
| `RequestLine.OfflineRequirements` | crates/sdkt-agent/src/intent.rs:414-487 | What comparisons, the source audit and release assurance need |
| `RequestLine.NetworkRequirements` | crates/sdkt-agent/src/intent.rs:414-487 | What fee estimates, simulations and network checks need |
| `RequestLine.RefusedArguments` | crates/sdkt-agent/src/intent.rs:414-487 | Of two refusals for want of arguments, roles are called ambiguous exactly if nothing claims a role and there are too many artifacts to guess |
| `RequestPlan.PlanIntent` | crates/sdkt-agent/src/plan.rs:152-179 | There is a plan exactly if the registry has the operation, it is read-only without need of confirmation, and a command line can be built; it is that command line; otherwise the first of these that fails is the refusal |
| `RequestPlan.Parse` | crates/sdkt-agent/src/intent.rs:317-400 | A request is understood exactly if its words select one read-only operation and the arguments in its tokens meet its requirements; otherwise the refusal says which failed |
| `RequestPlan.PlanIsRunnable` | crates/sdkt-agent/src/plan.rs:228-498 | Every plan conserves the artifacts of a uniformly spelled request, keeps its flags and never defaults the passphrase of a foreign endpoint |
| `RequestPlan.Plan` | crates/sdkt-agent/src/plan.rs:134-179 | There is a plan exactly if the words select one read-only operation that the registry has without need of confirmation and the arguments in the tokens meet its requirements and fit; the plan is that command line and runnable; otherwise the refusal is fixed by what failed first |
| `RequestFlags.FlagsAreDeclaredIff` | crates/sdkt-agent/src/plan.rs:499-536 | Every flag of every command line for an operation is declared if and only if its registry entries mention no sought flag without declaring it, declare both endpoint flags if they take an endpoint, and `--format` if they offer JSON |
| `RequestFlags.EmittedIsOnTheLine` | crates/sdkt-agent/src/plan.rs:304-498 | The emitted flags are words of the command line |
| `RequestFlags.UndeclaredFlagIsSent` | crates/sdkt-agent/src/plan.rs:501-505 | A `verify` request with `--rpc` is planned with that flag, which the registry does not declare for `verify` |
| `RequestFlags.EveryFlagReachesIff` | crates/sdkt-agent/src/plan.rs:229-255 | Every flag of a request reaches the command line of a runnable plan if and only if each but `--rpc` has a value, none repeats a single-valued flag with another value, and an endpoint is named only where one is used |
| `RequestFlags.ValuelessFlagVanishes` | crates/sdkt-agent/src/plan.rs:244-255 | `--rpc-url` without a value is accepted and leaves no trace on the command line |
| `SarifUri.EncodePathSegment` | crates/sdkt-audit/src/sarif.rs:154-188 | The encoding loop computes the segment encoding |
| `SarifUri.DecodeEncode` | crates/sdkt-audit/src/sarif.rs:154-188 | Strict percent-decoding, which admits only pchar and escapes, returns the segment |
| `SarifUri.PlainByExclusion` | crates/sdkt-audit/src/sarif.rs:154-180 | The bytes that stand for themselves are the pchar of section 3.3 of RFC 3986, given by exclusion |
| `SarifUri.RelativeUriDecodes` | crates/sdkt-audit/src/sarif.rs:194-201 | Decoding segment by segment returns the path with backslashes turned into slashes |
| `SarifUri.RelativeUriInjective` | crates/sdkt-audit/src/sarif.rs:194-201 | The encoding is injective on normalised paths |
| `SarifUri.SameUriIff` | crates/sdkt-audit/src/sarif.rs:194-201 | Two paths have one URI exactly if they differ only in the direction of their slashes |
| `SarifUri.ColonInFirstSegment` | crates/sdkt-audit/src/sarif.rs:194-201 | The first segment has a colon, against section 4.2 of RFC 3986, exactly if the path's has one |
| `SarifUri.FileUriShape` | crates/sdkt-audit/src/sarif.rs:208-256 | A file URI is the scheme, two or three slashes, and the encoded path without its leading slashes |
| `SarifUri.AuthorityIffUnc` | crates/sdkt-audit/src/sarif.rs:208-256 | It has a host exactly for two leading slashes with something after them |
| `SarifUri.FilePathDecodes` | crates/sdkt-audit/src/sarif.rs:208-256 | Its path decodes back if and only if no two-byte segment ends in a colon after a byte that is not a legal pchar |
| `Fee.EstimateBaseFee` | crates/sdkt-core/src/fee.rs:137-146 | The result is a sample with at most (n - 1) / 2 samples below it and more than that not above it; none for no samples |
| `Fee.LowerMedianUnique` | crates/sdkt-core/src/fee.rs:137-146 | There is only one such sample, whatever the order of the samples |
| `Fee.XlmRoundTrip` | crates/sdkt-core/src/fee.rs:160-170 | The XLM string reads back as exactly the stroops, and a fraction never ends in a zero or a dot |
| `Fee.Scaled` | crates/sdkt-core/src/fee.rs:149-157 | On the test network the fee is the base fee, on the main network the nearest stroop to five quarters of it, halves up |
| `Fee.Estimate` | crates/sdkt-core/src/fee.rs:173-177 | Both units agree and depend only on which samples there are |

## Left out

- AuditOrder.HazardousExecutionIsReported: one direction only, since bodies that are not orderly may have no hazard at all; the three lemmas named above show that each requirement of orderliness is needed.
- AuditOrder.TraceIsRecorded: closures and macros are excluded: a closure's body is walked where it stands and runs where it is called, and a macro's tokens are not walked at all.
- AuditTaint.TaintIsSound: one direction only, because the taint over-approximates; the other is `AuditTaint.NothingIsOverReported`.
- Audit: syntax is reduced to the forms that order, branch, bind or multiply; closures and macros are excluded, `break` out of nested loops is not distinguished, and the counters for authorisation, argument uses and binding uses are not modelled.
- AuditTaint: nested blocks and scopes; bodies are straight-line, and assignments count where they are statements.
- DependencyLock.CacheKey: the FNV fold is a parameter, and distinct sources are assumed to have distinct keys, because the fold is not injective; a cached checkout is taken to come from the URL of its key.
- LockVerify: `verify_lock` for contract artifacts, which compares digests one by one.
- PackageBundle: `publish_plan` and the manifest validators, which only combine checks modelled elsewhere; archive and compression bytes.
- PluginBundle: UTF-8 validity of metadata and manifest; text is a sequence of characters.
- PluginPacking.PackThenVerify: how the archiver spells names of several components is a parameter; names of one component stay as they are.
- PluginDirectory.VerifiersAgree: bundles that can be extracted, on a case-sensitive file system.
- PluginStore.Store: file-system errors other than a missing source file and an artifact in a sub-directory; sources inside the store itself.
- Doctor: texts of stage details; loaders and the plugin runtime are outcomes.
- Playground: rendering, drag and drop, file-size and extension checks before a file is accepted.
- Jsonc: the second copy of the same stripper in `guard_vscode_config.py`, and the patterns the guards look for.
- RequestRules: splitting the request into words, and the table of keywords, for which any table stands.
- RequestArgs: splitting the request at whitespace; `extract_function` and `extract_profile`, whose results are parameters.
- RequestPlan: registry contents; the registry is assumed to give a baseline argument to comparing operations only, as it does.
- RequestPlan.PlanIsRunnable: conservation is stated for requests that spell each path in one letter case; a path spelled in two cases can take both roles (`RequestArgs.TwoSpellingsTakeBothRoles`).
- SarifUri: choosing between relative and file URIs (`is_absolute_source_path`).
- Fee.Scaled: multipliers 1.0 and 1.25 only; 0.10 and overrides are not exact in binary.
- The transaction builder, RPC clients, storage analysis, fuzzing, scaffolding, network guard, envelope validation, command-line display: not part of this model.
