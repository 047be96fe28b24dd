/**
  Deploy-order resolution for the contracts of a project, and the contract part
  of the lock file that records it.
 */
module DeployOrder {
  import opened Outcomes
  import opened StringOrder
  import opened TopoSort

  /** The settings of one contract that matter for deployment. */
  datatype ContractConfig = ContractConfig(path: string, deployAfter: seq<string>, dependsOn: seq<string>)

  type Contracts = map<string, ContractConfig>

  datatype ProjectError =
    | MissingConfig
    | DuplicateDependency(alias: string)
    | SelfDependency(alias: string)
    | UnknownDependency(dependency: string)
    | CircularDependency(node: string)

  /** Both spellings of the dependency list, legacy `deploy_after` first. */
  function Declared(c: ContractConfig): seq<string> {
    c.deployAfter + c.dependsOn
  }

  /** The graph the resolver hands to the sort. */
  function DeployGraph(contracts: Contracts): Graph {
    map alias | alias in contracts :: Declared(contracts[alias])
  }

  /** A contract names `d` in either of its lists. */
  predicate Names(c: ContractConfig, d: string) {
    d in c.deployAfter || d in c.dependsOn
  }

  /** The `i`-th dependency of a contract, those of `deploy_after` first. */
  function Nth(c: ContractConfig, i: nat): (d: string)
    requires i < |c.deployAfter| + |c.dependsOn|
    ensures Names(c, d)
  {
    if i < |c.deployAfter| then c.deployAfter[i] else c.dependsOn[i - |c.deployAfter|]
  }

  /** What is wrong with the `i`-th declared dependency of `alias`, the checks in the order they are made. */
  function Fault(contracts: Contracts, alias: string, i: nat): (fault: Result<(), ProjectError>)
    requires alias in contracts && i < |Declared(contracts[alias])|
  {
    var c := contracts[alias];
    var dep := Nth(c, i);
    if exists j: nat :: j < i && Nth(c, j) == dep then Err(DuplicateDependency(alias))
    else if dep == alias then Err(SelfDependency(alias))
    else if dep !in contracts then Err(UnknownDependency(dep))
    else Ok(())
  }

  /** `error` is the first fault in the declaration of `alias`. */
  ghost predicate IsFirstFault(contracts: Contracts, alias: string, i: nat, error: ProjectError) {
    && alias in contracts
    && i < |Declared(contracts[alias])|
    && Fault(contracts, alias, i) == Err(error)
    && forall j: nat :: j < i ==> Fault(contracts, alias, j).Ok?
  }

  /** The two lists together repeat nothing, do not name the contract itself, and name contracts only. */
  ghost predicate Faultless(contracts: Contracts, alias: string)
    requires alias in contracts
  {
    var c := contracts[alias];
    && Distinct(c.deployAfter) && Distinct(c.dependsOn)
    && (forall d :: d in c.deployAfter ==> d !in c.dependsOn)
    && !Names(c, alias) && forall d :: Names(c, d) ==> d in contracts
  }

  lemma DeclaredIsBoth(c: ContractConfig)
    ensures |Declared(c)| == |c.deployAfter| + |c.dependsOn|
    ensures forall i: nat :: i < |Declared(c)| ==> Declared(c)[i] == Nth(c, i)
    ensures forall d :: d in Declared(c) <==> Names(c, d)
    ensures Distinct(Declared(c)) <==>
      Distinct(c.deployAfter) && Distinct(c.dependsOn) && forall d :: d in c.deployAfter ==> d !in c.dependsOn
  {
    var deps, n := Declared(c), |c.deployAfter|;
    if Distinct(deps) {
      forall i, j | 0 <= i < j < n ensures c.deployAfter[i] != c.deployAfter[j] {
        assert deps[i] == c.deployAfter[i] && deps[j] == c.deployAfter[j];
      }
      forall i, j | 0 <= i < j < |c.dependsOn| ensures c.dependsOn[i] != c.dependsOn[j] {
        assert deps[n + i] == c.dependsOn[i] && deps[n + j] == c.dependsOn[j];
      }
      forall i, j | 0 <= i < n && 0 <= j < |c.dependsOn| ensures c.deployAfter[i] != c.dependsOn[j] {
        assert deps[i] == c.deployAfter[i] && deps[n + j] == c.dependsOn[j];
      }
    }
  }

  lemma FaultlessIffNoFault(contracts: Contracts, alias: string)
    requires alias in contracts
    ensures Faultless(contracts, alias) <==>
            forall i: nat :: i < |Declared(contracts[alias])| ==> Fault(contracts, alias, i).Ok?
  {
    var c := contracts[alias];
    var deps := Declared(c);
    DeclaredIsBoth(c);
    if Faultless(contracts, alias) {
      forall i: nat | i < |deps| ensures Fault(contracts, alias, i).Ok? {
        assert forall j: nat :: j < i ==> deps[j] == Nth(c, j);
      }
    } else if forall i: nat :: i < |deps| ==> Fault(contracts, alias, i).Ok? {
      forall i, j | 0 <= i < j < |deps| ensures deps[i] != deps[j] {
        assert Fault(contracts, alias, j).Ok? && Nth(c, i) == deps[i];
      }
      forall d | d in deps ensures d in contracts && d != alias {
        var i :| 0 <= i < |deps| && deps[i] == d;
        assert Fault(contracts, alias, i).Ok?;
      }
    }
  }

  /** Validates and merges the two dependency lists of one contract. */
  method MergeDependencies(contracts: Contracts, alias: string) returns (r: Result<seq<string>, ProjectError>, ghost at: nat)
    requires alias in contracts
    ensures r.Ok? ==> r.value == Declared(contracts[alias]) && Faultless(contracts, alias)
    ensures r.Err? ==> IsFirstFault(contracts, alias, at, r.error)
  {
    var deps := Declared(contracts[alias]);
    DeclaredIsBoth(contracts[alias]);
    var merged: seq<string> := [];
    for i := 0 to |deps|
      invariant merged == deps[..i]
      invariant forall j: nat :: j < i ==> Fault(contracts, alias, j).Ok?
    {
      var dep := deps[i];
      if dep in merged {
        var j: nat :| j < i && deps[..i][j] == dep;
        assert Nth(contracts[alias], j) == dep;
        return Err(DuplicateDependency(alias)), i;
      }
      if dep == alias {
        return Err(SelfDependency(alias)), i;
      }
      if dep !in contracts {
        return Err(UnknownDependency(dep)), i;
      }
      merged := merged + [dep];
    }
    FaultlessIffNoFault(contracts, alias);
    return Ok(merged), |deps|;
  }

  /** Fills the graph alias by alias, in no particular order, until a declaration turns out faulty. */
  method BuildGraph(contracts: Contracts) returns (r: Result<Graph, ProjectError>)
    ensures r.Ok? <==> forall alias :: alias in contracts ==> Faultless(contracts, alias)
    ensures r.Ok? ==> r.value == DeployGraph(contracts)
    ensures r.Err? ==> exists alias, i: nat :: IsFirstFault(contracts, alias, i, r.error)
  {
    var graph: Graph := map alias | alias in contracts :: [];
    var rest := contracts.Keys;
    while rest != {}
      invariant rest <= contracts.Keys && graph.Keys == contracts.Keys
      invariant forall alias :: alias in contracts ==>
        graph[alias] == if alias in rest then [] else Declared(contracts[alias])
      invariant forall alias :: alias in contracts && alias !in rest ==> Faultless(contracts, alias)
    {
      var alias :| alias in rest;
      var merged, at := MergeDependencies(contracts, alias);
      if merged.Err? {
        FaultlessIffNoFault(contracts, alias);
        assert IsFirstFault(contracts, alias, at, merged.error);
        return Err(merged.error);
      }
      graph := graph[alias := graph[alias] + merged.value];
      rest := rest - {alias};
    }
    assert graph == DeployGraph(contracts);
    return Ok(graph);
  }

  /** The keys of a hash map in the order it happens to yield them. */
  method ListKeys(keys: set<string>) returns (s: seq<string>)
    ensures Distinct(s) && Elements(s) == keys
  {
    s := [];
    var rest := keys;
    while rest != {}
      invariant rest <= keys && Distinct(s) && Elements(s) == keys - rest
    {
      var k :| k in rest;
      assert k !in Elements(s) && forall x :: x in s ==> x in Elements(s);
      assert Elements(s + [k]) == Elements(s) + {k};
      s, rest := s + [k], rest - {k};
    }
  }

  /** Every contract once, and each after everything it names in `deploy_after` or `depends_on`. */
  ghost predicate IsDeployOrder(contracts: Contracts, order: seq<string>) {
    && Distinct(order) && (forall alias :: alias in order <==> alias in contracts)
    && forall i, d :: 0 <= i < |order| && (d in contracts[order[i]].deployAfter || d in contracts[order[i]].dependsOn) ==>
         d in order[..i]
  }

  ghost predicate IsLeastDeployOrder(contracts: Contracts, order: seq<string>) {
    && IsDeployOrder(contracts, order)
    && forall other :: IsDeployOrder(contracts, other) ==> other == order || Precedes(order, other)
  }

  /** Contracts that wait for each other in a circle. */
  ghost predicate HasDeployCycle(contracts: Contracts) {
    exists p :: IsDeployWalk(contracts, p) && |p| >= 2 && p[0] == p[|p| - 1]
  }

  ghost predicate IsDeployWalk(contracts: Contracts, p: seq<string>) {
    p != [] && forall i :: 0 <= i < |p| - 1 ==>
      p[i] in contracts && (p[i + 1] in contracts[p[i]].deployAfter || p[i + 1] in contracts[p[i]].dependsOn)
  }

  /** The orderings and cycles of the graph are those of the contracts. */
  lemma GraphMeansContracts(contracts: Contracts)
    ensures forall order :: IsOrdering(DeployGraph(contracts), order) <==> IsDeployOrder(contracts, order)
    ensures forall p :: IsWalk(DeployGraph(contracts), p) <==> IsDeployWalk(contracts, p)
    ensures HasCycle(DeployGraph(contracts)) <==> HasDeployCycle(contracts)
  {
    var g := DeployGraph(contracts);
    forall alias | alias in contracts ensures forall d :: d in g[alias] <==> Names(contracts[alias], d) {
      DeclaredIsBoth(contracts[alias]);
    }
    forall order ensures IsOrdering(g, order) <==> IsDeployOrder(contracts, order) {
      assert forall alias :: alias in order <==> alias in Elements(order);
    }
  }

  /**
    Resolves the deploy order: the least one that puts every contract after all it
    names in either list. It exists exactly when there is a contract, no
    declaration is faulty and no contracts wait for each other; a validation error
    is the first fault of some alias.
   */
  method ResolveDeployOrder(contracts: Contracts) returns (r: Result<seq<string>, ProjectError>)
    ensures r.Ok? <==>
      && contracts != map[]
      && (forall alias :: alias in contracts ==> Faultless(contracts, alias))
      && !HasDeployCycle(contracts)
    ensures r.Ok? ==> IsLeastDeployOrder(contracts, r.value)
    ensures r.Err? ==> match r.error
      case MissingConfig => contracts == map[]
      case CircularDependency(node) =>
        && (forall alias :: alias in contracts ==> Faultless(contracts, alias))
        && node in contracts && Stuck(DeployGraph(contracts), node) && HasDeployCycle(contracts)
      case _ => exists alias, i: nat :: IsFirstFault(contracts, alias, i, r.error)
  {
    if contracts == map[] {
      return Err(MissingConfig);
    }
    var graph := BuildGraph(contracts);
    if graph.Err? {
      return Err(graph.error);
    }
    GraphMeansContracts(contracts);
    var scan := ListKeys(graph.value.Keys);
    var outcome := TopologicalSort(graph.value, scan);
    match outcome
    case Ordered(order) => return Ok(order);
    case Unresolved(node) => return Err(CircularDependency(node));
  }

  // ----- Lock entries -----------------------------------------------------

  datatype LockEntry = LockEntry(alias: string, path: string, artifact: string, sha256: string, order: nat)

  /** The deploy order and the entries of a lock. */
  datatype LockFile = LockFile(order: seq<string>, entries: seq<LockEntry>)

  datatype LockError =
    | Project(cause: ProjectError)
    | ArtifactNotFound(alias: string)
    | Unreadable(alias: string)

  /** What the disk offers: the artifact below a contract directory, and the digest of a readable file. */
  datatype Disk = Disk(artifacts: map<string, string>, digests: map<string, string>)

  /** The outcome of locating and hashing the artifact of one contract. */
  function Lock(contracts: Contracts, disk: Disk, alias: string, order: nat): (r: Result<LockEntry, LockError>)
    requires alias in contracts
  {
    var path := contracts[alias].path;
    if path !in disk.artifacts then Err(ArtifactNotFound(alias))
    else if disk.artifacts[path] !in disk.digests then Err(Unreadable(alias))
    else Ok(LockEntry(alias, path, disk.artifacts[path], disk.digests[disk.artifacts[path]], order))
  }

  /** Entry `i` locks the `i`-th contract to deploy and carries position `i`. */
  ghost predicate LocksInOrder(contracts: Contracts, disk: Disk, order: seq<string>, entries: seq<LockEntry>) {
    && |entries| == |order|
    && forall i :: 0 <= i < |order| ==> order[i] in contracts && Lock(contracts, disk, order[i], i) == Ok(entries[i])
  }

  /** `error` is what stops the first contract, in deploy order, that cannot be locked. */
  ghost predicate FirstUnlockable(contracts: Contracts, disk: Disk, order: seq<string>, error: LockError) {
    exists k ::
      && 0 <= k < |order|
      && order[k] in contracts && Lock(contracts, disk, order[k], k) == Err(error)
      && forall i :: 0 <= i < k ==> order[i] in contracts && Lock(contracts, disk, order[i], i).Ok?
  }

  method LockAll(contracts: Contracts, disk: Disk, ordered: seq<string>) returns (r: Result<seq<LockEntry>, LockError>)
    requires forall alias :: alias in ordered ==> alias in contracts
    ensures r.Ok? ==> LocksInOrder(contracts, disk, ordered, r.value)
    ensures r.Err? ==> !r.error.Project? && FirstUnlockable(contracts, disk, ordered, r.error)
  {
    var entries: seq<LockEntry> := [];
    for i := 0 to |ordered|
      invariant |entries| == i
      invariant forall j :: 0 <= j < i ==> Lock(contracts, disk, ordered[j], j) == Ok(entries[j])
    {
      var alias := ordered[i];
      var path := contracts[alias].path;
      if path !in disk.artifacts {
        assert Lock(contracts, disk, ordered[i], i) == Err(ArtifactNotFound(alias));
        return Err(ArtifactNotFound(alias));
      }
      var artifact := disk.artifacts[path];
      if artifact !in disk.digests {
        assert Lock(contracts, disk, ordered[i], i) == Err(Unreadable(alias));
        return Err(Unreadable(alias));
      }
      entries := entries + [LockEntry(alias, path, artifact, disk.digests[artifact], i)];
    }
    return Ok(entries);
  }

  /** The entry of a contract at a position, in the fields of the contract and the disk. */
  predicate IsEntry(contracts: Contracts, disk: Disk, alias: string, position: nat, e: LockEntry)
    requires alias in contracts
  {
    && e.alias == alias && e.path == contracts[alias].path && e.order == position
    && e.path in disk.artifacts && e.artifact == disk.artifacts[e.path]
    && e.artifact in disk.digests && e.sha256 == disk.digests[e.artifact]
  }

  /** Locks every contract in deploy order, or reports why the first failing one cannot be locked. */
  method GenerateLock(contracts: Contracts, disk: Disk)
    returns (r: Result<LockFile, LockError>)
    ensures r.Ok? ==>
      && IsLeastDeployOrder(contracts, r.value.order) && |r.value.entries| == |r.value.order|
      && forall i :: 0 <= i < |r.value.order| ==>
           r.value.order[i] in contracts && IsEntry(contracts, disk, r.value.order[i], i, r.value.entries[i])
    ensures r.Err? && !r.error.Project? ==>
      exists order :: IsLeastDeployOrder(contracts, order) && FirstUnlockable(contracts, disk, order, r.error)
    ensures r.Err? && r.error.Project? <==>
      || contracts == map[]
      || (exists alias :: alias in contracts && !Faultless(contracts, alias))
      || HasDeployCycle(contracts)
  {
    var resolved := ResolveDeployOrder(contracts);
    if resolved.Err? {
      return Err(Project(resolved.error));
    }
    var order := resolved.value;
    var entries := LockAll(contracts, disk, order);
    if entries.Err? {
      return Err(entries.error);
    }
    assert LocksInOrder(contracts, disk, order, entries.value);
    return Ok(LockFile(order, entries.value));
  }

  /** What stops a contract from being locked: there is no artifact below its path, or the artifact cannot be read. */
  lemma LockFailsIff(contracts: Contracts, disk: Disk, alias: string, position: nat)
    requires alias in contracts
    ensures var r := Lock(contracts, disk, alias, position);
      && (r.Ok? ==> IsEntry(contracts, disk, alias, position, r.value))
      && (r == Err(ArtifactNotFound(alias)) <==> contracts[alias].path !in disk.artifacts)
      && (r == Err(Unreadable(alias)) <==>
            contracts[alias].path in disk.artifacts && disk.artifacts[contracts[alias].path] !in disk.digests)
      && (r.Err? ==> r.error == ArtifactNotFound(alias) || r.error == Unreadable(alias))
  {
  }

  /** Every dependency of a locked contract, from either list, is locked exactly once, with a smaller position. */
  lemma DependenciesLockedEarlier(contracts: Contracts, disk: Disk, order: seq<string>, entries: seq<LockEntry>, i: nat, dep: string)
    requires IsLeastDeployOrder(contracts, order) && LocksInOrder(contracts, disk, order, entries)
    requires i < |entries| && entries[i].alias in contracts
    requires dep in contracts[entries[i].alias].deployAfter || dep in contracts[entries[i].alias].dependsOn
    ensures exists j :: 0 <= j < i && entries[j].alias == dep && entries[j].order == j < entries[i].order
    ensures forall j, k :: 0 <= j < |entries| && 0 <= k < |entries| && entries[j].alias == entries[k].alias == dep ==> j == k
  {
    assert Lock(contracts, disk, order[i], i) == Ok(entries[i]);
    assert dep in order[..i];
    var j :| 0 <= j < i && order[..i][j] == dep;
    assert Lock(contracts, disk, order[j], j) == Ok(entries[j]);
    forall k | 0 <= k < |entries| && entries[k].alias == dep ensures order[k] == dep {
      assert Lock(contracts, disk, order[k], k) == Ok(entries[k]);
    }
  }
}
