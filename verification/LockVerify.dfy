/**
  Writing dependency entries into the lock file and verifying them, and the
  round trip from fetching to verification.
 */
module LockVerify {
  import opened Outcomes
  import opened DependencyLock

  datatype LockEntry = LockEntry(
    name: string,
    source: string,
    originalSource: string,
    gitUrl: string,
    reference: string,
    commit: string,
    integrity: string,
    version: string)

  /** The rest of the disk: the tree of each known commit, and the integrity of each existing local path. */
  datatype Disk = Disk(base: string, trees: map<string, string>, paths: map<string, string>)

  function Resolve(base: string, path: string): string {
    if path != "" && path[0] == '/' then path else base + "/" + path
  }

  function LocalPath(disk: Disk, dep: Dependency): string {
    Resolve(disk.base, GetOr(dep.path, ""))
  }

  /** The integrity recorded for a dependency, empty when its source cannot be read. */
  function Integrity(hash: string -> string, disk: Disk, checkouts: map<string, Checkout>, dep: Dependency): string {
    if dep.git.Some? then
      var key := CacheKey(hash, dep);
      if key in checkouts && checkouts[key].head in disk.trees && disk.trees[checkouts[key].head] != "" then
        "sha256:" + disk.trees[checkouts[key].head]
      else ""
    else if GetOr(dep.path, "") == "" || LocalPath(disk, dep) !in disk.paths then ""
    else disk.paths[LocalPath(disk, dep)]
  }

  /** The entry for a dependency whose fetch recorded `rev`. */
  function FetchedEntry(hash: string -> string, disk: Disk, checkouts: map<string, Checkout>, name: string, dep: Dependency, rev: string): LockEntry {
    if dep.git.Some? then
      LockEntry(name, "git", dep.git.value, dep.git.value, GetOr(Requested(dep), ""), rev,
                Integrity(hash, disk, checkouts, dep), GetOr(dep.version, ""))
    else
      LockEntry(name, "local", LocalPath(disk, dep), "", "", rev, Integrity(hash, disk, checkouts, dep), GetOr(dep.version, ""))
  }

  /** The entry derived from the manifest alone. */
  function ManifestEntry(disk: Disk, name: string, dep: Dependency): LockEntry {
    if dep.git.Some? then
      LockEntry(name, "git", dep.git.value, dep.git.value, GetOr(Requested(dep), ""), "", "", GetOr(dep.version, ""))
    else
      var path := GetOr(dep.path, "");
      LockEntry(name, "local", if path == "" then path else Resolve(disk.base, path), "", "", "", "", "")
  }

  function EntryFor(hash: string -> string, disk: Disk, checkouts: map<string, Checkout>, manifest: Manifest, revs: map<string, string>, name: string): LockEntry
    requires name in manifest
  {
    if name in revs then FetchedEntry(hash, disk, checkouts, name, manifest[name], revs[name])
    else ManifestEntry(disk, name, manifest[name])
  }

  /** The recorded text of the tree of the checkout under a key, empty when there is none to read. */
  predicate RecordsTree(disk: Disk, checkouts: map<string, Checkout>, key: string, text: string) {
    if key in checkouts && checkouts[key].head in disk.trees && disk.trees[checkouts[key].head] != "" then
      text == "sha256:" + disk.trees[checkouts[key].head]
    else text == ""
  }

  /** What an entry says of a dependency, in the fields of the manifest, the fetch outcome, the cache and the disk. */
  predicate Records(
    hash: string -> string, disk: Disk, checkouts: map<string, Checkout>, dep: Dependency, rev: Option<string>, e: LockEntry)
  {
    && e.commit == (if rev.Some? then rev.value else "")
    && if dep.git.Some? then
         && e.source == "git" && e.gitUrl == dep.git.value == e.originalSource && e.version == GetOr(dep.version, "")
         && (dep.tag.Some? ==> e.reference == dep.tag.value)
         && (dep.tag.None? && dep.branch.Some? ==> e.reference == dep.branch.value)
         && (dep.tag.None? && dep.branch.None? ==> e.reference == GetOr(dep.rev, ""))
         && if rev.Some? then RecordsTree(disk, checkouts, CacheKey(hash, dep), e.integrity) else e.integrity == ""
       else
         && e.source == "local" && e.gitUrl == e.reference == ""
         && (dep.path.Some? && dep.path.value != "" ==>
               e.originalSource == if dep.path.value[0] == '/' then dep.path.value else disk.base + "/" + dep.path.value)
         && if rev.Some? && dep.path.Some? && dep.path.value != "" && e.originalSource in disk.paths
            then e.integrity == disk.paths[e.originalSource] else e.integrity == ""
  }

  /** One entry per dependency, in whatever order the map yields them. */
  method LockResolved(hash: string -> string, disk: Disk, checkouts: map<string, Checkout>, manifest: Manifest, revs: map<string, string>)
    returns (entries: seq<LockEntry>)
    ensures forall e :: e in entries <==>
      e.name in manifest && e == EntryFor(hash, disk, checkouts, manifest, revs, e.name)
    ensures forall i, j :: 0 <= i < j < |entries| ==> entries[i].name != entries[j].name
    ensures forall e :: e in entries ==> Records(hash, disk, checkouts, manifest[e.name], Lookup(revs, e.name), e)
  {
    entries := [];
    var rest := manifest.Keys;
    while rest != {}
      invariant rest <= manifest.Keys
      invariant forall e :: e in entries <==>
        e.name in manifest && e.name !in rest && e == EntryFor(hash, disk, checkouts, manifest, revs, e.name)
      invariant forall i, j :: 0 <= i < j < |entries| ==> entries[i].name != entries[j].name
    {
      var name :| name in rest;
      var entry := EntryFor(hash, disk, checkouts, manifest, revs, name);
      assert forall i :: 0 <= i < |entries| ==> entries[i] in entries;
      entries := entries + [entry];
      rest := rest - {name};
    }
  }

  // ----- Verification ------------------------------------------------------------------

  datatype Kind =
    | MissingInLock
    | NotInManifest
    | SourceChanged
    | ReferenceChanged
    | CacheMissing
    | PathMissing
    | CommitMismatch
    | IntegrityMismatch

  datatype Mismatch = Mismatch(name: string, kind: Kind)

  datatype Report = Report(present: bool, consistent: bool, checked: nat, mismatches: seq<Mismatch>)

  /** The entry a hash map built from the lock holds for a name: the last one. */
  function Locked(entries: seq<LockEntry>, name: string): Option<LockEntry> {
    if entries == [] then None
    else if entries[|entries| - 1].name == name then Some(entries[|entries| - 1])
    else Locked(entries[..|entries| - 1], name)
  }

  predicate BothGit(dep: Dependency, e: LockEntry) {
    dep.git.Some? && e.source == "git"
  }

  predicate BothLocal(dep: Dependency, e: LockEntry) {
    dep.git.None? && e.source != "git"
  }

  /** The drifts of one declared dependency against its lock entry. */
  predicate Drifts(hash: string -> string, disk: Disk, checkouts: map<string, Checkout>, dep: Dependency, e: LockEntry, kind: Kind) {
    var key := CacheKey(hash, dep);
    var current := Integrity(hash, disk, checkouts, dep);
    var fetched := BothGit(dep, e) && e.commit != "";
    match kind
    case SourceChanged =>
      || (!BothGit(dep, e) && !BothLocal(dep, e))
      || (BothGit(dep, e) && e.gitUrl != dep.git.value)
      || (BothLocal(dep, e) && e.originalSource != LocalPath(disk, dep))
    case ReferenceChanged => BothGit(dep, e) && e.reference != GetOr(Requested(dep), "")
    case CacheMissing => fetched && key !in checkouts
    case CommitMismatch => fetched && key in checkouts && checkouts[key].head != "" && checkouts[key].head != e.commit
    case IntegrityMismatch => fetched && key in checkouts && e.integrity != "" && current != "" && current != e.integrity
    case PathMissing => BothLocal(dep, e) && e.originalSource == LocalPath(disk, dep) && LocalPath(disk, dep) !in disk.paths
    case _ => false
  }

  /** Every record a verification should report. */
  predicate Reported(hash: string -> string, disk: Disk, checkouts: map<string, Checkout>, manifest: Manifest, entries: seq<LockEntry>, m: Mismatch) {
    var e := Locked(entries, m.name);
    if m.name !in manifest then m.kind == NotInManifest && e.Some?
    else if e.None? then m.kind == MissingInLock
    else Drifts(hash, disk, checkouts, manifest[m.name], e.value, m.kind)
  }

  method CheckGit(hash: string -> string, disk: Disk, checkouts: map<string, Checkout>, dep: Dependency, e: LockEntry) returns (kinds: seq<Kind>)
    requires BothGit(dep, e)
    ensures forall k :: k in kinds <==> Drifts(hash, disk, checkouts, dep, e, k)
  {
    kinds := [];
    if e.gitUrl != dep.git.value {
      kinds := kinds + [SourceChanged];
    }
    if e.reference != GetOr(Requested(dep), "") {
      kinds := kinds + [ReferenceChanged];
    }
    if e.commit != "" {
      var key := CacheKey(hash, dep);
      if key !in checkouts {
        kinds := kinds + [CacheMissing];
      } else {
        var head := checkouts[key].head;
        if head != "" && head != e.commit {
          kinds := kinds + [CommitMismatch];
        }
        if e.integrity != "" {
          var current := Integrity(hash, disk, checkouts, dep);
          if current != "" && current != e.integrity {
            kinds := kinds + [IntegrityMismatch];
          }
        }
      }
    }
  }

  method CheckDependency(hash: string -> string, disk: Disk, checkouts: map<string, Checkout>, dep: Dependency, e: LockEntry) returns (kinds: seq<Kind>)
    ensures forall k :: k in kinds <==> Drifts(hash, disk, checkouts, dep, e, k)
  {
    if dep.git.Some? != (e.source == "git") {
      return [SourceChanged];
    }
    if dep.git.Some? {
      kinds := CheckGit(hash, disk, checkouts, dep, e);
      return;
    }
    var resolved := LocalPath(disk, dep);
    if e.originalSource != resolved {
      return [SourceChanged];
    }
    if resolved !in disk.paths {
      return [PathMissing];
    }
    return [];
  }

  function Tagged(name: string, kinds: seq<Kind>): seq<Mismatch> {
    seq(|kinds|, i requires 0 <= i < |kinds| => Mismatch(name, kinds[i]))
  }

  lemma TaggedMembers(name: string, kinds: seq<Kind>)
    ensures forall m :: m in Tagged(name, kinds) <==> m.name == name && m.kind in kinds
  {
    forall m: Mismatch | m.name == name && m.kind in kinds ensures m in Tagged(name, kinds) {
      var i :| 0 <= i < |kinds| && kinds[i] == m.kind;
      assert Tagged(name, kinds)[i] == m;
    }
  }

  lemma {:induction false} LockedIff(entries: seq<LockEntry>, name: string)
    ensures Locked(entries, name).Some? <==> exists i :: 0 <= i < |entries| && entries[i].name == name
    ensures Locked(entries, name).Some? ==> Locked(entries, name).value in entries && Locked(entries, name).value.name == name
  {
    if entries != [] {
      var n := |entries| - 1;
      LockedIff(entries[..n], name);
      assert entries == entries[..n] + [entries[n]];
    }
  }

  method CheckManifest(hash: string -> string, disk: Disk, checkouts: map<string, Checkout>, manifest: Manifest, entries: seq<LockEntry>)
    returns (mismatches: seq<Mismatch>)
    ensures forall m :: m in mismatches <==> m.name in manifest && Reported(hash, disk, checkouts, manifest, entries, m)
  {
    mismatches := [];
    var rest := manifest.Keys;
    while rest != {}
      invariant rest <= manifest.Keys
      invariant forall m :: m in mismatches <==>
        m.name in manifest && m.name !in rest && Reported(hash, disk, checkouts, manifest, entries, m)
    {
      var name :| name in rest;
      var entry := Locked(entries, name);
      var kinds := [MissingInLock];
      if entry.Some? {
        kinds := CheckDependency(hash, disk, checkouts, manifest[name], entry.value);
      }
      TaggedMembers(name, kinds);
      mismatches := mismatches + Tagged(name, kinds);
      rest := rest - {name};
    }
  }

  method CheckLock(manifest: Manifest, entries: seq<LockEntry>) returns (mismatches: seq<Mismatch>)
    ensures forall m :: m in mismatches <==>
      m.kind == NotInManifest && m.name !in manifest && Locked(entries, m.name).Some?
  {
    mismatches := [];
    for i := 0 to |entries|
      invariant forall m :: m in mismatches <==>
        m.kind == NotInManifest && m.name !in manifest && Locked(entries[..i], m.name).Some?
    {
      assert entries[..i + 1][..i] == entries[..i] && entries[..i + 1][i] == entries[i];
      if entries[i].name !in manifest {
        mismatches := mismatches + [Mismatch(entries[i].name, NotInManifest)];
      }
    }
    assert entries[..|entries|] == entries;
  }

  /** A git dependency locked with a commit and an integrity, whose cached checkout has a tree that can be read. */
  predicate TreeIsKnown(
    hash: string -> string, disk: Disk, checkouts: map<string, Checkout>, manifest: Manifest, entries: seq<LockEntry>, name: string)
  {
    && name in manifest && manifest[name].git.Some? && Locked(entries, name).Some?
    && var e, key := Locked(entries, name).value, CacheKey(hash, manifest[name]);
       && e.source == "git" && e.commit != "" && e.integrity != ""
       && key in checkouts && checkouts[key].head in disk.trees && disk.trees[checkouts[key].head] != ""
  }

  /** Verifies the locked dependencies: every drift is reported, and nothing else. */
  method VerifyDependencies(hash: string -> string, disk: Disk, checkouts: map<string, Checkout>, manifest: Manifest, lock: Option<seq<LockEntry>>)
    returns (report: Report)
    ensures report.present <==> lock.Some?
    ensures lock.Some? ==> forall m :: m in report.mismatches <==> Reported(hash, disk, checkouts, manifest, lock.value, m)
    ensures lock.None? ==> forall m :: m in report.mismatches <==> m.name in manifest && m.kind == MissingInLock
    ensures report.consistent <==> lock.Some? && Agrees(hash, disk, checkouts, manifest, lock.value)
    ensures report.checked == |manifest|
    ensures lock.Some? ==> forall name :: TreeIsKnown(hash, disk, checkouts, manifest, lock.value, name) ==>
      (Mismatch(name, IntegrityMismatch) in report.mismatches <==>
         var head := checkouts[CacheKey(hash, manifest[name])].head;
         Locked(lock.value, name).value.integrity != "sha256:" + disk.trees[head])
    ensures lock.Some? ==> forall name :: TreeIsKnown(hash, disk, checkouts, manifest, lock.value, name) ==>
      (Mismatch(name, CommitMismatch) in report.mismatches <==>
         var head := checkouts[CacheKey(hash, manifest[name])].head;
         head != "" && Locked(lock.value, name).value.commit != head)
  {
    if lock.None? {
      var mismatches := CheckManifest(hash, disk, checkouts, manifest, []);
      return Report(false, false, |manifest|, mismatches);
    }
    var declared := CheckManifest(hash, disk, checkouts, manifest, lock.value);
    var stale := CheckLock(manifest, lock.value);
    var mismatches := declared + stale;
    AgreesIffNothingReported(hash, disk, checkouts, manifest, lock.value);
    report := Report(true, mismatches == [], |manifest|, mismatches);
    if mismatches != [] {
      assert mismatches[0] in mismatches;
    }
    TreeDrifts(hash, disk, checkouts, manifest, lock.value);
  }

  lemma TreeDrifts(hash: string -> string, disk: Disk, checkouts: map<string, Checkout>, manifest: Manifest, entries: seq<LockEntry>)
    ensures forall name :: TreeIsKnown(hash, disk, checkouts, manifest, entries, name) ==>
      var e, head := Locked(entries, name).value, checkouts[CacheKey(hash, manifest[name])].head;
      && (Reported(hash, disk, checkouts, manifest, entries, Mismatch(name, IntegrityMismatch)) <==>
            e.integrity != "sha256:" + disk.trees[head])
      && (Reported(hash, disk, checkouts, manifest, entries, Mismatch(name, CommitMismatch)) <==> head != "" && e.commit != head)
  {
    forall name | TreeIsKnown(hash, disk, checkouts, manifest, entries, name) {
      LockedIff(entries, name);
    }
  }

  /** The entry still describes the dependency and what is on disk. */
  predicate EntryAgrees(hash: string -> string, disk: Disk, checkouts: map<string, Checkout>, dep: Dependency, e: LockEntry) {
    var key := CacheKey(hash, dep);
    var current := Integrity(hash, disk, checkouts, dep);
    if dep.git.Some? then
      && e.source == "git" && e.gitUrl == dep.git.value && e.reference == GetOr(Requested(dep), "")
      && (e.commit != "" ==>
            && key in checkouts
            && (checkouts[key].head == "" || checkouts[key].head == e.commit)
            && (e.integrity == "" || current == "" || current == e.integrity))
    else
      e.source != "git" && e.originalSource == LocalPath(disk, dep) && LocalPath(disk, dep) in disk.paths
  }

  /** Manifest and lock name the same dependencies, and every entry agrees with the manifest and the disk. */
  ghost predicate Agrees(hash: string -> string, disk: Disk, checkouts: map<string, Checkout>, manifest: Manifest, entries: seq<LockEntry>) {
    && (forall name :: name in manifest <==> Locked(entries, name).Some?)
    && (forall name :: name in manifest ==> EntryAgrees(hash, disk, checkouts, manifest[name], Locked(entries, name).value))
  }

  lemma EntryAgreesIffNoDrift(hash: string -> string, disk: Disk, checkouts: map<string, Checkout>, dep: Dependency, e: LockEntry)
    ensures EntryAgrees(hash, disk, checkouts, dep, e) <==> forall k :: !Drifts(hash, disk, checkouts, dep, e, k)
  {
    if forall k :: !Drifts(hash, disk, checkouts, dep, e, k) {
      assert !Drifts(hash, disk, checkouts, dep, e, SourceChanged);
      assert !Drifts(hash, disk, checkouts, dep, e, ReferenceChanged);
      assert !Drifts(hash, disk, checkouts, dep, e, CacheMissing);
      assert !Drifts(hash, disk, checkouts, dep, e, CommitMismatch);
      assert !Drifts(hash, disk, checkouts, dep, e, IntegrityMismatch);
      assert !Drifts(hash, disk, checkouts, dep, e, PathMissing);
    }
  }

  lemma AgreesIffNothingReported(hash: string -> string, disk: Disk, checkouts: map<string, Checkout>, manifest: Manifest, entries: seq<LockEntry>)
    ensures Agrees(hash, disk, checkouts, manifest, entries) <==>
            forall m :: !Reported(hash, disk, checkouts, manifest, entries, m)
  {
    forall name | name in manifest && Locked(entries, name).Some? {
      EntryAgreesIffNoDrift(hash, disk, checkouts, manifest[name], Locked(entries, name).value);
    }
    if forall m :: !Reported(hash, disk, checkouts, manifest, entries, m) {
      forall name ensures name in manifest <==> Locked(entries, name).Some? {
        assert !Reported(hash, disk, checkouts, manifest, entries, Mismatch(name, NotInManifest));
        assert !Reported(hash, disk, checkouts, manifest, entries, Mismatch(name, MissingInLock));
      }
      forall name, k | name in manifest ensures !Drifts(hash, disk, checkouts, manifest[name], Locked(entries, name).value, k) {
        assert !Reported(hash, disk, checkouts, manifest, entries, Mismatch(name, k));
      }
    }
  }

  // ----- From fetching to verification ------------------------------------------------------

  /** The revision written to the lock is the commit that gets checked out: a lightweight tag, a branch or a full revision. */
  predicate Exact(refs: Refs, dep: Dependency) {
    if dep.rev.Some? then dep.rev.value in refs.revs && refs.revs[dep.rev.value] == dep.rev.value
    else if dep.tag.Some? then
      dep.tag.value in refs.tags && refs.tags[dep.tag.value].oid == refs.tags[dep.tag.value].commit
    else true
  }

  /** What the cache holds under a key once the whole manifest is fetched: the checkout of a dependency that uses it, or what was there. */
  ghost function Left(
    hash: string -> string, net: Network, manifest: Manifest, force: bool, initial: map<string, Checkout>, key: string): Option<Checkout>
  {
    if UsedBy(hash, net, manifest, manifest.Keys, key) then
      var name :| name in manifest && Uses(hash, net, manifest[name], key);
      FetchedFor(hash, net, Effective(net, manifest[name]).value, force, initial)
    else Lookup(initial, key)
  }

  /**
    Whether the entry of a dependency will verify after the manifest is fetched,
    in terms of the cache, the remotes and the disk before. A pinned dependency is
    reused as it is or asks for an exact reference; one with only a version
    constraint depends on what is left under the key of its URL without reference,
    which is not the key it was fetched under.
   */
  ghost predicate Reproducible(
    hash: string -> string, net: Network, disk: Disk, manifest: Manifest, force: bool, initial: map<string, Checkout>, dep: Dependency)
  {
    if dep.git.None? then LocalPath(disk, dep) in disk.paths
    else if Pinned(dep) then
      var existing := Lookup(initial, CacheKey(hash, dep));
      || Reused(existing, dep, force)
      || (dep.git.value in net.remotes && Exact(Transferred(existing, net.remotes[dep.git.value], force).refs, dep))
    else
      var left := Left(hash, net, manifest, force, initial, CacheKey(hash, dep));
      && Effective(net, dep).Some? && left.Some?
      && var eff := Effective(net, dep).value;
         var c := FetchedFor(hash, net, eff, force, initial);
         c.Some? && (left.value.head == "" || left.value.head == ResolvedRev(eff, c.value))
  }

  /** Git never names an object with an empty string. */
  predicate RealRefs(refs: Refs) {
    && (forall t :: t in refs.tags ==> refs.tags[t].oid != "" && refs.tags[t].commit != "")
    && (forall b :: b in refs.branches ==> refs.branches[b] != "")
    && (forall v :: v in refs.revs ==> v != "" && refs.revs[v] != "")
  }

  predicate RealIds(net: Network, initial: map<string, Checkout>) {
    && (forall url :: url in net.remotes ==> RealRefs(net.remotes[url].refs))
    && (forall key :: key in initial ==> RealRefs(initial[key].refs))
  }

  /** What is recorded for a pinned dependency is what is checked out exactly if it was reused or the reference is exact. */
  lemma PinnedRoundTrip(existing: Option<Checkout>, remote: Option<Remote>, dep: Dependency, force: bool)
    requires Fetched(existing, remote, dep, force).Some?
    ensures var c := Fetched(existing, remote, dep, force).value;
      c.head == ResolvedRev(dep, c) <==>
        Reused(existing, dep, force) || (remote.Some? && Exact(Transferred(existing, remote.value, force).refs, dep))
  {
  }

  lemma TransferredRefsReal(existing: Option<Checkout>, remote: Remote, force: bool)
    requires RealRefs(remote.refs) && (existing.Some? ==> RealRefs(existing.value.refs))
    ensures RealRefs(Transferred(existing, remote, force).refs)
  {
  }

  lemma FetchedIdsReal(existing: Option<Checkout>, remote: Option<Remote>, dep: Dependency, force: bool)
    requires (remote.Some? ==> RealRefs(remote.value.refs)) && (existing.Some? ==> RealRefs(existing.value.refs))
    requires Fetched(existing, remote, dep, force).Some?
    ensures var c := Fetched(existing, remote, dep, force).value; c.head != "" && ResolvedRev(dep, c) != ""
  {
    if !Reused(existing, dep, force) {
      TransferredRefsReal(existing, remote.value, force);
    }
  }

  lemma LeftIsFound(
    hash: string -> string, net: Network, manifest: Manifest, force: bool, initial: map<string, Checkout>,
    checkouts: map<string, Checkout>, revs: map<string, string>, key: string)
    requires FetchedSoFar(hash, net, manifest, manifest.Keys, force, initial, checkouts, revs)
    ensures Lookup(checkouts, key) == Left(hash, net, manifest, force, initial, key)
  {
    if UsedBy(hash, net, manifest, manifest.Keys, key) {
      var name :| name in manifest && Uses(hash, net, manifest[name], key)
        && Left(hash, net, manifest, force, initial, key) ==
           FetchedFor(hash, net, Effective(net, manifest[name]).value, force, initial);
      assert IsFetched(hash, net, manifest[name], force, initial, checkouts, revs[name]);
    }
  }

  lemma EntryRoundTrip(
    hash: string -> string, net: Network, disk: Disk, manifest: Manifest, force: bool, initial: map<string, Checkout>,
    checkouts: map<string, Checkout>, revs: map<string, string>, name: string)
    requires RealIds(net, initial) && name in manifest
    requires FetchedSoFar(hash, net, manifest, manifest.Keys, force, initial, checkouts, revs)
    ensures EntryAgrees(hash, disk, checkouts, manifest[name], EntryFor(hash, disk, checkouts, manifest, revs, name)) <==>
            Reproducible(hash, net, disk, manifest, force, initial, manifest[name])
  {
    var dep := manifest[name];
    assert IsFetched(hash, net, dep, force, initial, checkouts, revs[name]);
    if dep.git.Some? {
      var eff := Effective(net, dep).value;
      var existing, remote := Lookup(initial, CacheKey(hash, eff)), Lookup(net.remotes, dep.git.value);
      FetchedIdsReal(existing, remote, eff, force);
      if Pinned(dep) {
        PinnedRoundTrip(existing, remote, dep, force);
      } else {
        LeftIsFound(hash, net, manifest, force, initial, checkouts, revs, CacheKey(hash, dep));
      }
    }
  }

  lemma LockedIsTheEntry(entries: seq<LockEntry>, name: string, e: LockEntry)
    requires e in entries && e.name == name
    requires forall i, j :: 0 <= i < j < |entries| ==> entries[i].name != entries[j].name
    ensures Locked(entries, name) == Some(e)
  {
    LockedIff(entries, name);
    var l := Locked(entries, name).value;
    var i, j :| 0 <= i < |entries| && 0 <= j < |entries| && entries[i] == e && entries[j] == l;
    assert i == j;
  }

  /**
    Fetch every dependency into whatever the cache holds, write the lock, verify
    it. Fetching succeeds exactly when every dependency can be fetched, and the
    verification exactly when every dependency is reproducible.
   */
  method FetchThenVerify(
    hash: string -> string, net: Network, disk: Disk, manifest: Manifest, force: bool, initial: map<string, Checkout>)
    returns (r: Result<Report, FetchError>)
    requires KeysDistinct(hash, net, manifest) && RealIds(net, initial)
    ensures r.Ok? <==> forall name :: name in manifest ==> Fetchable(hash, net, manifest[name], force, initial)
    ensures r.Ok? ==> (r.value.consistent <==>
      forall name :: name in manifest ==> Reproducible(hash, net, disk, manifest, force, initial, manifest[name]))
  {
    var cache := new GitCache(initial);
    var fetched := FetchAll(hash, net, manifest, force, cache);
    if fetched.Err? {
      return Err(fetched.error);
    }
    var entries := LockResolved(hash, disk, cache.checkouts, manifest, fetched.value);
    var report := VerifyDependencies(hash, disk, cache.checkouts, manifest, Some(entries));
    LockAgreesIffReproducible(hash, net, disk, manifest, force, initial, cache.checkouts, fetched.value, entries);
    return Ok(report);
  }

  lemma LockAgreesIffReproducible(
    hash: string -> string, net: Network, disk: Disk, manifest: Manifest, force: bool, initial: map<string, Checkout>,
    checkouts: map<string, Checkout>, revs: map<string, string>, entries: seq<LockEntry>)
    requires RealIds(net, initial)
    requires FetchedSoFar(hash, net, manifest, manifest.Keys, force, initial, checkouts, revs)
    requires forall e :: e in entries <==>
      e.name in manifest && e == EntryFor(hash, disk, checkouts, manifest, revs, e.name)
    requires forall i, j :: 0 <= i < j < |entries| ==> entries[i].name != entries[j].name
    ensures Agrees(hash, disk, checkouts, manifest, entries) <==>
            forall name :: name in manifest ==> Reproducible(hash, net, disk, manifest, force, initial, manifest[name])
  {
    forall name | name in manifest
      ensures Locked(entries, name).Some?
      ensures EntryAgrees(hash, disk, checkouts, manifest[name], Locked(entries, name).value) <==>
              Reproducible(hash, net, disk, manifest, force, initial, manifest[name])
    {
      LockedIsTheEntry(entries, name, EntryFor(hash, disk, checkouts, manifest, revs, name));
      EntryRoundTrip(hash, net, disk, manifest, force, initial, checkouts, revs, name);
    }
    forall name | name !in manifest ensures Locked(entries, name).None? {
      LockedIff(entries, name);
      assert forall i :: 0 <= i < |entries| ==> entries[i] in entries;
    }
  }

  // ----- What does not verify ------------------------------------------------------------------

  function GitDependency(url: string): Dependency {
    Dependency(None, Some(url), None, None, None, None)
  }

  /**
    A tag that is an object of its own is recorded by that object and does not
    verify, unless the cache has a tag of that name already, which a plain fetch
    leaves in place.
   */
  lemma AnnotatedTagDoesNotVerify(
    hash: string -> string, net: Network, disk: Disk, manifest: Manifest, force: bool, initial: map<string, Checkout>,
    url: string, tag: string)
    requires url in net.remotes && tag in net.remotes[url].refs.tags
    requires net.remotes[url].refs.tags[tag].oid != net.remotes[url].refs.tags[tag].commit
    ensures var dep := GitDependency(url).(tag := Some(tag));
      var existing := Lookup(initial, CacheKey(hash, dep));
      (force || existing.None? || tag !in existing.value.refs.tags) ==>
        !Reproducible(hash, net, disk, manifest, force, initial, dep)
  {
  }

  /** An abbreviated revision is recorded as written and never verifies, unless a checkout's head bears that very name. */
  lemma AbbreviatedRevisionDoesNotVerify(
    hash: string -> string, net: Network, disk: Disk, manifest: Manifest, force: bool, initial: map<string, Checkout>,
    url: string, rev: string)
    requires url in net.remotes && rev in net.remotes[url].refs.revs && net.remotes[url].refs.revs[rev] != rev
    ensures var dep := GitDependency(url).(rev := Some(rev));
      var existing := Lookup(initial, CacheKey(hash, dep));
      existing.None? || (existing.value.head != rev) ==>
        !Reproducible(hash, net, disk, manifest, force, initial, dep)
  {
    var existing := Lookup(initial, CacheKey(hash, GitDependency(url).(rev := Some(rev))));
    assert Transferred(existing, net.remotes[url], force).refs.revs[rev] == net.remotes[url].refs.revs[rev];
  }

  /** A version constraint alone does not verify when nothing is cached or fetched under the key of the bare URL. */
  lemma VersionDoesNotVerify(
    hash: string -> string, net: Network, disk: Disk, manifest: Manifest, force: bool, initial: map<string, Checkout>, dep: Dependency)
    requires dep.git.Some? && !Pinned(dep)
    requires CacheKey(hash, dep) !in initial && !UsedBy(hash, net, manifest, manifest.Keys, CacheKey(hash, dep))
    ensures !Reproducible(hash, net, disk, manifest, force, initial, dep)
  {
  }

  /**
    It verifies by accident when another dependency has the bare URL and its default
    branch stands at the commit of the tag the constraint resolves to.
   */
  lemma VersionVerifiesBesideBareUrl(
    hash: string -> string, net: Network, disk: Disk, manifest: Manifest, force: bool,
    url: string, version: string, tag: string, a: string, b: string)
    requires manifest == map[a := GitDependency(url).(version := Some(version)), b := GitDependency(url)] && a != b
    requires KeysDistinct(hash, net, manifest) && hash(url + tag) != hash(url + "head")
    requires url in net.remotes && (url, version) in net.versions && net.versions[(url, version)] == tag
    requires var remote := net.remotes[url];
      && tag in remote.refs.tags && remote.default in remote.refs.branches
      && remote.refs.tags[tag] == Tag(remote.refs.branches[remote.default], remote.refs.branches[remote.default])
    ensures Reproducible(hash, net, disk, manifest, force, map[], manifest[a])
  {
    var key := CacheKey(hash, manifest[a]);
    assert Uses(hash, net, manifest[b], key) && b in manifest.Keys;
    assert !Uses(hash, net, manifest[a], key);
    assert forall name :: name in manifest && Uses(hash, net, manifest[name], key) ==> name == b;
  }
}
