/**
  Packing a project with its fetched git checkouts into a bundle, unpacking it,
  and checking that the unpacked tree reproduces what the bundle describes.
 */
module PackageBundle {
  import opened Outcomes
  import opened DependencyLock
  import opened LockVerify

  type Path = seq<string>

  /** The files below some directory, by relative path. */
  type Files = map<Path, string>

  /** The outside functions: cache-key hash, SHA-256 of a file, the tree git reports for a checkout, digest of a local directory. */
  datatype Tools = Tools(
    hash: string -> string,
    sha256: string -> string,
    headTree: Files -> Option<string>,
    digest: Files -> string)

  function NamesBelow(fs: Files, dir: Path): (names: set<Path>)
    ensures forall r :: r in names <==> dir + r in fs
  {
    var names := set p | p in fs && dir <= p :: p[|dir|..];
    assert forall r :: dir + r in fs ==> dir <= dir + r && (dir + r)[|dir|..] == r;
    assert forall p :: p in fs && dir <= p ==> dir + p[|dir|..] == p;
    names
  }

  /** The tree below `dir`. */
  function Below(fs: Files, dir: Path): Files {
    map r | r in NamesBelow(fs, dir) :: fs[dir + r]
  }

  predicate Inside(dir: Path, p: Path, tree: Files) {
    dir <= p && p[|dir|..] in tree
  }

  /** Copies a tree into `dir`, over what is there. */
  function CopyTo(fs: Files, dir: Path, tree: Files): (r: Files)
    ensures forall p :: p in r <==> p in fs || Inside(dir, p, tree)
    ensures forall p :: p in r ==> r[p] == if Inside(dir, p, tree) then tree[p[|dir|..]] else fs[p]
  {
    var placed := set q | q in tree :: dir + q;
    assert forall q :: q in tree ==> (dir + q)[|dir|..] == q;
    assert forall p :: Inside(dir, p, tree) ==> dir + p[|dir|..] == p;
    assert forall p :: p in placed <==> Inside(dir, p, tree);
    fs + map p | p in placed :: tree[p[|dir|..]]
  }

  const ManifestFile: Path := [".sdkt.toml"]
  const LockFile: Path := ["sdkt.lock"]
  const Descriptor: Path := ["package.json"]

  function CacheDir(key: string): Path {
    [".sdkt-cache", "git", key]
  }

  predicate HasGit(tree: Files) {
    exists p :: p in tree && |p| > 0 && p[0] == ".git"
  }

  function GitIntegrity(tools: Tools, tree: Files): string {
    if !HasGit(tree) then ""
    else
      var head := tools.headTree(tree);
      if head.Some? && head.value != "" then "sha256:" + head.value else ""
  }

  datatype BundleEntry = BundleEntry(name: string, source: string, commit: string, integrity: string, cacheKey: string)

  datatype Bundle = Bundle(name: string, version: string, format: string, lockSha256: string, entries: seq<BundleEntry>)

  /** What the manifest and the lock of a project say, once parsed. */
  datatype Project = Project(name: string, version: string, dependencies: Manifest, locked: seq<LockEntry>)

  datatype PackError = UnsupportedFormat | MissingNameOrVersion | MissingFile | DependencyNotCached(name: string)

  predicate IsGitDependency(project: Project, name: string) {
    name in project.dependencies && project.dependencies[name].git.Some?
  }

  predicate IsLocked(project: Project, name: string) {
    exists i :: 0 <= i < |project.locked| && project.locked[i].name == name
  }

  function KeyOf(tools: Tools, project: Project, name: string): string
    requires IsGitDependency(project, name)
  {
    CacheKey(tools.hash, project.dependencies[name])
  }

  /** The descriptor's entry for a lock entry. */
  function Describe(tools: Tools, fs: Files, project: Project, e: LockEntry): BundleEntry {
    if IsGitDependency(project, e.name) then
      var key := KeyOf(tools, project, e.name);
      BundleEntry(e.name, e.source, e.commit, GitIntegrity(tools, Below(fs, CacheDir(key))), key)
    else if e.name in project.dependencies then
      BundleEntry(e.name, e.source, e.commit, tools.digest(Below(fs, [GetOr(project.dependencies[e.name].path, "")])), "")
    else BundleEntry(e.name, e.source, e.commit, e.integrity, "")
  }

  /** A lock entry that the bundle must carry a checkout for. */
  ghost predicate Carried(tools: Tools, project: Project, count: nat, key: string)
    requires count <= |project.locked|
  {
    exists i :: 0 <= i < count && IsGitDependency(project, project.locked[i].name) && KeyOf(tools, project, project.locked[i].name) == key
  }

  /** The staged tree after the first `count` lock entries. */
  ghost predicate Staged(tools: Tools, fs: Files, project: Project, count: nat, staging: Files)
    requires count <= |project.locked|
  {
    && ManifestFile in fs && ManifestFile in staging && staging[ManifestFile] == fs[ManifestFile]
    && LockFile in fs && LockFile in staging && staging[LockFile] == fs[LockFile]
    && (forall key :: StagedAt(Carried(tools, project, count, key), Below(fs, CacheDir(key)), Below(staging, CacheDir(key))))
  }

  /** A carried checkout has a git directory and is staged whole; of any other nothing is staged. */
  ghost predicate StagedAt(carried: bool, checkout: Files, staged: Files) {
    if carried then HasGit(checkout) && staged == checkout else staged == map[]
  }

  lemma CopiedAt(fs: Files, dir: Path, tree: Files, r: Path)
    ensures dir + r in CopyTo(fs, dir, tree) <==> dir + r in fs || r in tree
    ensures r in tree ==> CopyTo(fs, dir, tree)[dir + r] == tree[r]
  {
    assert dir <= dir + r && (dir + r)[|dir|..] == r;
  }

  lemma CopyBelow(fs: Files, dir: Path, tree: Files)
    requires Below(fs, dir) == map[] || Below(fs, dir) == tree
    ensures Below(CopyTo(fs, dir, tree), dir) == tree
  {
    var below := Below(CopyTo(fs, dir, tree), dir);
    forall r: Path ensures (r in below <==> r in tree) && (r in tree ==> below[r] == tree[r]) {
      CopiedAt(fs, dir, tree, r);
      NothingElse(fs, dir, tree, r);
    }
    assert below.Keys == tree.Keys;
  }

  lemma NothingElse(fs: Files, dir: Path, tree: Files, r: Path)
    requires Below(fs, dir) == map[] || Below(fs, dir) == tree
    ensures dir + r in fs ==> r in tree
  {
    if dir + r in fs {
      assert r in NamesBelow(fs, dir);
      assert r in Below(fs, dir);
    }
  }

  lemma CopyElsewhere(fs: Files, dir: Path, other: Path, tree: Files)
    requires |dir| == |other| && dir != other
    ensures Below(CopyTo(fs, dir, tree), other) == Below(fs, other)
  {
    var copied := CopyTo(fs, dir, tree);
    forall r ensures !Inside(dir, other + r, tree) {
      assert (other + r)[..|dir|] == other;
    }
    assert forall r :: r in NamesBelow(copied, other) <==> r in NamesBelow(fs, other);
  }

  /** A git dependency without a checkout in the cache. */
  predicate Uncached(tools: Tools, fs: Files, project: Project, name: string) {
    IsGitDependency(project, name) && !HasGit(Below(fs, CacheDir(KeyOf(tools, project, name))))
  }

  /** Staging one more entry: the checkout of a git dependency is copied, or its absence reported. */
  method StageEntry(tools: Tools, fs: Files, project: Project, i: nat, staging0: Files) returns (staging: Files, entry: BundleEntry, ok: bool)
    requires i < |project.locked| && Staged(tools, fs, project, i, staging0)
    ensures ok ==> Staged(tools, fs, project, i + 1, staging) && entry == Describe(tools, fs, project, project.locked[i])
    ensures !ok <==> Uncached(tools, fs, project, project.locked[i].name)
  {
    staging := staging0;
    var e := project.locked[i];
    entry := Describe(tools, fs, project, e);
    ok := true;
    if IsGitDependency(project, e.name) {
      var key := KeyOf(tools, project, e.name);
      var checkout := Below(fs, CacheDir(key));
      if !HasGit(checkout) {
        ok := false;
        return;
      }
      staging := CopyTo(staging, CacheDir(key), checkout);
      CarriedNext(tools, project, i, key);
      StagedNext(tools, fs, project, i, staging0, key);
    } else {
      NotCarriedNext(tools, project, i);
    }
  }

  lemma CarriedNext(tools: Tools, project: Project, i: nat, key: string)
    requires i < |project.locked| && IsGitDependency(project, project.locked[i].name)
    requires KeyOf(tools, project, project.locked[i].name) == key
    ensures forall k :: Carried(tools, project, i + 1, k) <==> Carried(tools, project, i, k) || k == key
  {
  }

  lemma NotCarriedNext(tools: Tools, project: Project, i: nat)
    requires i < |project.locked| && !IsGitDependency(project, project.locked[i].name)
    ensures forall k :: Carried(tools, project, i + 1, k) <==> Carried(tools, project, i, k)
  {
  }

  lemma StagedNext(tools: Tools, fs: Files, project: Project, i: nat, staging: Files, key: string)
    requires i < |project.locked| && Staged(tools, fs, project, i, staging)
    requires HasGit(Below(fs, CacheDir(key)))
    requires forall k :: Carried(tools, project, i + 1, k) <==> Carried(tools, project, i, k) || k == key
    ensures Staged(tools, fs, project, i + 1, CopyTo(staging, CacheDir(key), Below(fs, CacheDir(key))))
  {
    var checkout := Below(fs, CacheDir(key));
    FileKept(staging, key, checkout, ManifestFile);
    FileKept(staging, key, checkout, LockFile);
    assert StagedAt(Carried(tools, project, i, key), checkout, Below(staging, CacheDir(key)));
    forall k ensures StagedAt(Carried(tools, project, i + 1, k), Below(fs, CacheDir(k)),
                              Below(CopyTo(staging, CacheDir(key), checkout), CacheDir(k))) {
      CopiedCheckout(staging, key, k, checkout);
      assert StagedAt(Carried(tools, project, i, k), Below(fs, CacheDir(k)), Below(staging, CacheDir(k)));
    }
  }

  lemma FileKept(staging: Files, key: string, checkout: Files, file: Path)
    requires |file| == 1 && file in staging
    ensures var copied := CopyTo(staging, CacheDir(key), checkout);
      file in copied && copied[file] == staging[file]
  {
    assert !Inside(CacheDir(key), file, checkout);
  }

  lemma CopiedCheckout(staging: Files, key: string, k: string, checkout: Files)
    requires Below(staging, CacheDir(key)) == map[] || Below(staging, CacheDir(key)) == checkout
    ensures Below(CopyTo(staging, CacheDir(key), checkout), CacheDir(k)) ==
      if k == key then checkout else Below(staging, CacheDir(k))
  {
    if k == key {
      CopyBelow(staging, CacheDir(key), checkout);
    } else {
      assert CacheDir(k)[2] != CacheDir(key)[2];
      CopyElsewhere(staging, CacheDir(key), CacheDir(k), checkout);
    }
  }

  predicate KnownFormat(format: string) {
    format == "tar.zst" || format == "dir"
  }

  ghost predicate AllCached(tools: Tools, fs: Files, project: Project, count: nat)
    requires count <= |project.locked|
  {
    forall i :: 0 <= i < count ==> !Uncached(tools, fs, project, project.locked[i].name)
  }

  lemma NothingStaged(tools: Tools, fs: Files, project: Project)
    requires ManifestFile in fs && LockFile in fs
    ensures Staged(tools, fs, project, 0, map[ManifestFile := fs[ManifestFile], LockFile := fs[LockFile]])
  {
    var staging: Files := map[ManifestFile := fs[ManifestFile], LockFile := fs[LockFile]];
    forall key ensures Below(staging, CacheDir(key)) == map[] {
      assert forall r :: |CacheDir(key) + r| >= 3;
      assert NamesBelow(staging, CacheDir(key)) == {};
    }
  }

  /** Stages the lock entries in order, stopping at the first one whose checkout is missing. */
  method StageAll(tools: Tools, fs: Files, project: Project) returns (staging: Files, entries: seq<BundleEntry>, missing: Option<string>)
    requires ManifestFile in fs && LockFile in fs
    ensures missing.None? <==> AllCached(tools, fs, project, |project.locked|)
    ensures missing.Some? ==> Uncached(tools, fs, project, missing.value)
    ensures missing.None? ==>
      && Staged(tools, fs, project, |project.locked|, staging)
      && |entries| == |project.locked|
      && forall i :: 0 <= i < |entries| ==> entries[i] == Describe(tools, fs, project, project.locked[i])
  {
    NothingStaged(tools, fs, project);
    staging, entries := map[ManifestFile := fs[ManifestFile], LockFile := fs[LockFile]], [];
    for i := 0 to |project.locked|
      invariant Staged(tools, fs, project, i, staging) && AllCached(tools, fs, project, i)
      invariant |entries| == i
      invariant forall j :: 0 <= j < i ==> entries[j] == Describe(tools, fs, project, project.locked[j])
    {
      var entry, ok;
      staging, entry, ok := StageEntry(tools, fs, project, i, staging);
      if !ok {
        return staging, entries, Some(project.locked[i].name);
      }
      entries := entries + [entry];
    }
    return staging, entries, None;
  }

  /**
    Builds the staging tree and its descriptor; the archive format only wraps
    the tree. Packing succeeds exactly when the inputs are there and every git
    dependency both locked and declared has a checkout.
   */
  method Pack(tools: Tools, fs: Files, project: Project, format: string, descriptor: Bundle -> string)
    returns (r: Result<(Files, Bundle), PackError>)
    ensures r.Ok? <==>
      && format in {"tar.zst", "dir"} && project.name != "" && project.version != ""
      && ManifestFile in fs && LockFile in fs && AllCached(tools, fs, project, |project.locked|)
    ensures r.Ok? ==>
      && Staged(tools, fs, project, |project.locked|, r.value.0)
      && r.value.1.name == project.name && r.value.1.version == project.version && r.value.1.format == format
      && ManifestFile in r.value.0 && r.value.0[ManifestFile] == fs[ManifestFile]
      && Descriptor in r.value.0 && r.value.0[Descriptor] == descriptor(r.value.1)
      && r.value.1.lockSha256 == tools.sha256(fs[LockFile])
      && |r.value.1.entries| == |project.locked|
      && forall i :: 0 <= i < |project.locked| ==> r.value.1.entries[i] == Describe(tools, fs, project, project.locked[i])
    ensures r.Ok? ==> forall i :: 0 <= i < |project.locked| ==>
      var e, locked := r.value.1.entries[i], project.locked[i];
      && e.name == locked.name && e.source == locked.source && e.commit == locked.commit
      && (if locked.name !in project.dependencies then e.integrity == locked.integrity && e.cacheKey == ""
          else var dep := project.dependencies[locked.name];
            if dep.git.Some? then e.cacheKey == CacheKey(tools.hash, dep)
            else e.integrity == tools.digest(Below(fs, [GetOr(dep.path, "")])) && e.cacheKey == "")
    ensures r.Err? && r.error.DependencyNotCached? ==> Uncached(tools, fs, project, r.error.name)
  {
    if !KnownFormat(format) {
      return Err(UnsupportedFormat);
    }
    if project.name == "" || project.version == "" {
      return Err(MissingNameOrVersion);
    }
    if ManifestFile !in fs || LockFile !in fs {
      return Err(MissingFile);
    }
    var staging, entries, missing := StageAll(tools, fs, project);
    if missing.Some? {
      return Err(DependencyNotCached(missing.value));
    }
    var bundle := Bundle(project.name, project.version, format, tools.sha256(fs[LockFile]), entries);
    DescriptorKeepsStaged(tools, fs, project, staging, descriptor(bundle));
    return Ok((staging[Descriptor := descriptor(bundle)], bundle));
  }

  lemma DescriptorKeepsStaged(tools: Tools, fs: Files, project: Project, staging: Files, text: string)
    requires Staged(tools, fs, project, |project.locked|, staging)
    ensures Staged(tools, fs, project, |project.locked|, staging[Descriptor := text])
  {
    var after := staging[Descriptor := text];
    forall key ensures Below(after, CacheDir(key)) == Below(staging, CacheDir(key)) {
      assert forall r :: CacheDir(key) + r != Descriptor;
      assert forall r :: r in NamesBelow(after, CacheDir(key)) <==> r in NamesBelow(staging, CacheDir(key));
    }
  }

  /** Copies the bundled tree over a directory. */
  function Unpack(dest: Files, artifact: Files): Files {
    CopyTo(dest, [], artifact)
  }

  predicate EntryReproduced(tools: Tools, unpacked: Files, e: BundleEntry) {
    e.source == "git" && e.cacheKey != "" ==>
      var tree := Below(unpacked, CacheDir(e.cacheKey));
      && HasGit(tree)
      && tools.headTree(tree).Some? && "sha256:" + tools.headTree(tree).value == e.integrity
  }

  method VerifyBundleEquivalence(tools: Tools, unpacked: Files, bundle: Bundle) returns (r: Option<bool>)
    ensures r.None? <==> LockFile !in unpacked
    ensures r.Some? ==> (r.value <==>
      && tools.sha256(unpacked[LockFile]) == bundle.lockSha256
      && forall i :: 0 <= i < |bundle.entries| ==> EntryReproduced(tools, unpacked, bundle.entries[i]))
  {
    if LockFile !in unpacked {
      return None;
    }
    if tools.sha256(unpacked[LockFile]) != bundle.lockSha256 {
      return Some(false);
    }
    for i := 0 to |bundle.entries|
      invariant forall j :: 0 <= j < i ==> EntryReproduced(tools, unpacked, bundle.entries[j])
    {
      if !EntryReproduced(tools, unpacked, bundle.entries[i]) {
        return Some(false);
      }
    }
    return Some(true);
  }

  /** The tree git names in a checkout laid over what the destination already has in its place. */
  ghost predicate TreeSurvives(tools: Tools, checkout: Files, there: Files) {
    var head := tools.headTree(checkout);
    head.Some? && head.value != "" && tools.headTree(there + checkout) == head
  }

  /** The checkout of every git dependency that is locked as one has a tree git can name, also in the destination. */
  ghost predicate TreesSurvive(tools: Tools, fs: Files, project: Project, dest: Files) {
    forall i :: 0 <= i < |project.locked| && IsGitDependency(project, project.locked[i].name) && project.locked[i].source == "git" ==>
      var dir := CacheDir(KeyOf(tools, project, project.locked[i].name));
      TreeSurvives(tools, Below(fs, dir), Below(dest, dir))
  }

  lemma UnpackIsMerge(dest: Files, artifact: Files)
    ensures Unpack(dest, artifact) == dest + artifact
  {
    forall p: Path ensures Inside([], p, artifact) <==> p in artifact {
      assert p[0..] == p;
    }
    assert forall p: Path :: p[0..] == p;
  }

  lemma BelowMerge(a: Files, b: Files, dir: Path)
    ensures Below(a + b, dir) == Below(a, dir) + Below(b, dir)
  {
  }

  /** What unpacking leaves below a directory: the bundled tree over the one that was there. */
  lemma UnpackBelow(dest: Files, artifact: Files, dir: Path)
    ensures Below(Unpack(dest, artifact), dir) == Below(dest, dir) + Below(artifact, dir)
  {
    UnpackIsMerge(dest, artifact);
    BelowMerge(dest, artifact, dir);
  }

  lemma LockUnpacked(dest: Files, artifact: Files)
    requires LockFile in artifact
    ensures LockFile in Unpack(dest, artifact) && Unpack(dest, artifact)[LockFile] == artifact[LockFile]
  {
    assert LockFile[0..] == LockFile;
  }

  lemma EntryReproducedIff(tools: Tools, fs: Files, project: Project, staging: Files, dest: Files, i: nat)
    requires (forall s :: tools.hash(s) != "") && i < |project.locked|
    requires Staged(tools, fs, project, |project.locked|, staging)
    ensures EntryReproduced(tools, Unpack(dest, staging), Describe(tools, fs, project, project.locked[i])) <==>
      (IsGitDependency(project, project.locked[i].name) && project.locked[i].source == "git" ==>
        var dir := CacheDir(KeyOf(tools, project, project.locked[i].name));
        TreeSurvives(tools, Below(fs, dir), Below(dest, dir)))
  {
    var e := project.locked[i];
    if IsGitDependency(project, e.name) {
      var key := KeyOf(tools, project, e.name);
      CarriedArrives(tools, fs, project, staging, dest, i);
      var tree := Below(fs, CacheDir(key));
      CheckoutReproducedIff(tools, tree, Below(dest, CacheDir(key)));
    }
  }

  lemma CheckoutReproducedIff(tools: Tools, checkout: Files, there: Files)
    requires HasGit(checkout)
    ensures HasGit(there + checkout)
    ensures var head := tools.headTree(there + checkout);
      head.Some? && "sha256:" + head.value == GitIntegrity(tools, checkout) <==> TreeSurvives(tools, checkout, there)
  {
    var p :| p in checkout && |p| > 0 && p[0] == ".git";
    assert p in there + checkout;
    var mine, theirs := tools.headTree(checkout), tools.headTree(there + checkout);
    if mine.Some? && mine.value != "" && theirs.Some? {
      SamePrefix(mine.value, theirs.value);
    }
  }

  lemma SamePrefix(a: string, b: string)
    ensures "sha256:" + a == "sha256:" + b <==> a == b
  {
    assert ("sha256:" + a)[7..] == a && ("sha256:" + b)[7..] == b;
  }

  /** A git dependency both locked and declared arrives with every file of its checkout. */
  lemma CarriedArrives(tools: Tools, fs: Files, project: Project, staging: Files, dest: Files, i: nat)
    requires i < |project.locked| && IsGitDependency(project, project.locked[i].name)
    requires Staged(tools, fs, project, |project.locked|, staging)
    ensures var dir := CacheDir(KeyOf(tools, project, project.locked[i].name));
      HasGit(Below(fs, dir)) && Below(Unpack(dest, staging), dir) == Below(dest, dir) + Below(fs, dir)
  {
    var key := KeyOf(tools, project, project.locked[i].name);
    assert Carried(tools, project, |project.locked|, key);
    assert StagedAt(true, Below(fs, CacheDir(key)), Below(staging, CacheDir(key)));
    UnpackBelow(dest, staging, CacheDir(key));
  }

  /**
    Pack, unpack over whatever the destination holds, verify. Every git dependency
    both locked and declared arrives with every file of its checkout, and the check
    succeeds if and only if git names the same tree in each checkout before and
    after; for an empty destination that is if git can read each tree.
   */
  method PackThenVerify(tools: Tools, fs: Files, project: Project, format: string, descriptor: Bundle -> string, dest: Files)
    returns (r: Result<bool, PackError>, unpacked: Files)
    requires forall s :: tools.hash(s) != ""
    ensures r.Ok? ==> (r.value <==> TreesSurvive(tools, fs, project, dest))
    ensures r.Ok? ==> forall name :: name in project.dependencies && project.dependencies[name].git.Some? && IsLocked(project, name) ==>
      var dir := [".sdkt-cache", "git", CacheKey(tools.hash, project.dependencies[name])];
      HasGit(Below(fs, dir)) && Below(unpacked, dir) == Below(dest, dir) + Below(fs, dir)
  {
    unpacked := dest;
    var packed := Pack(tools, fs, project, format, descriptor);
    if packed.Err? {
      return Err(packed.error), unpacked;
    }
    var (artifact, bundle) := packed.value;
    unpacked := Unpack(dest, artifact);
    LockUnpacked(dest, artifact);
    forall i | 0 <= i < |project.locked| && IsGitDependency(project, project.locked[i].name)
      ensures var dir := CacheDir(KeyOf(tools, project, project.locked[i].name));
        HasGit(Below(fs, dir)) && Below(unpacked, dir) == Below(dest, dir) + Below(fs, dir)
    {
      CarriedArrives(tools, fs, project, artifact, dest, i);
    }
    forall i | 0 <= i < |project.locked| {
      EntryReproducedIff(tools, fs, project, artifact, dest, i);
    }
    var same := VerifyBundleEquivalence(tools, unpacked, bundle);
    return Ok(same.value), unpacked;
  }

  /** Into an empty destination: the check succeeds if and only if git can read the tree of each checkout. */
  lemma EmptyDestination(tools: Tools, fs: Files, project: Project)
    ensures TreesSurvive(tools, fs, project, map[]) <==>
      forall i :: 0 <= i < |project.locked| && IsGitDependency(project, project.locked[i].name) && project.locked[i].source == "git" ==>
        var head := tools.headTree(Below(fs, CacheDir(KeyOf(tools, project, project.locked[i].name))));
        head.Some? && head.value != ""
  {
    forall dir: Path ensures Below(map[], dir) + Below(fs, dir) == Below(fs, dir) {
    }
  }
}
