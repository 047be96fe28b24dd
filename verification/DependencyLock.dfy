/**
  Acquiring git dependencies into the cache, recording them in the lock file,
  and verifying the lock against the manifest and the cache later.
 */
module DependencyLock {
  import opened Texts
  import opened Outcomes

  /** One entry of `[dependencies]`. */
  datatype Dependency = Dependency(
    path: Option<string>,
    git: Option<string>,
    tag: Option<string>,
    branch: Option<string>,
    rev: Option<string>,
    version: Option<string>)

  type Manifest = map<string, Dependency>

  function OrElse(a: Option<string>, b: Option<string>): Option<string> {
    if a.Some? then a else b
  }

  function GetOr(a: Option<string>, default: string): string {
    if a.Some? then a.value else default
  }

  /** The reference a dependency asks for: tag, then branch, then revision. */
  function Requested(dep: Dependency): Option<string> {
    OrElse(dep.tag, OrElse(dep.branch, dep.rev))
  }

  /**
    The cache key. `hash` stands for the FNV fold, which runs over the bytes of
    the URL and of the reference without a separator.
   */
  function CacheKey(hash: string -> string, dep: Dependency): string {
    hash(GetOr(dep.git, "") + GetOr(Requested(dep), "head"))
  }

  /** The key is made of the URL and of the tag, else the branch, else the revision, else the word `head`. */
  lemma KeyIsOfUrlAndReference(hash: string -> string, dep: Dependency)
    requires dep.git.Some?
    ensures dep.tag.Some? ==> CacheKey(hash, dep) == hash(dep.git.value + dep.tag.value)
    ensures dep.tag.None? && dep.branch.Some? ==> CacheKey(hash, dep) == hash(dep.git.value + dep.branch.value)
    ensures dep.tag.None? && dep.branch.None? && dep.rev.Some? ==> CacheKey(hash, dep) == hash(dep.git.value + dep.rev.value)
    ensures dep.tag.None? && dep.branch.None? && dep.rev.None? ==> CacheKey(hash, dep) == hash(dep.git.value + "head")
  {
  }

  /** The key does not tell a tag from a branch of the same name. */
  lemma TagAndBranchShareKey(hash: string -> string, url: string, name: string)
    ensures CacheKey(hash, Dependency(None, Some(url), Some(name), None, None, None)) ==
            CacheKey(hash, Dependency(None, Some(url), None, Some(name), None, None))
  {
  }

  // ----- Git, abstractly ------------------------------------------------------------

  /** A tag names an object; for a lightweight tag that is the commit itself. */
  datatype Tag = Tag(oid: string, commit: string)

  /** The references of a repository; `revs` maps each accepted commit name, full or abbreviated, to its commit. */
  datatype Refs = Refs(tags: map<string, Tag>, branches: map<string, string>, revs: map<string, string>)

  /** A remote and the name of its default branch. */
  datatype Remote = Remote(refs: Refs, default: string)

  /** A checkout below the cache: its references, the branch `origin/HEAD` stands for, and the commit checked out. */
  datatype Checkout = Checkout(refs: Refs, origin: string, head: string)

  function Lookup<K, T>(m: map<K, T>, k: K): Option<T> {
    if k in m then Some(m[k]) else None
  }

  function Clone(remote: Remote): Checkout {
    Checkout(remote.refs, remote.default, GetOr(Lookup(remote.refs.branches, remote.default), ""))
  }

  /** A plain fetch moves branches but never overwrites a local tag; a forced one overwrites both. */
  function Update(c: Checkout, remote: Remote, force: bool): Checkout {
    var tags := if force then c.refs.tags + remote.refs.tags else remote.refs.tags + c.refs.tags;
    c.(refs := Refs(tags, c.refs.branches + remote.refs.branches, c.refs.revs + remote.refs.revs))
  }

  /** The commit `git checkout` selects for the dependency. */
  function Target(dep: Dependency, c: Checkout): Option<string> {
    if dep.rev.Some? then Lookup(c.refs.revs, dep.rev.value)
    else if dep.tag.Some? then
      if dep.tag.value in c.refs.tags then Some(c.refs.tags[dep.tag.value].commit) else None
    else if dep.branch.Some? then Lookup(c.refs.branches, dep.branch.value)
    else Lookup(c.refs.branches, c.origin)
  }

  /** The revision recorded for the dependency: the text of `rev`, or what the reference resolves to. */
  function ResolvedRev(dep: Dependency, c: Checkout): string {
    if dep.rev.Some? then dep.rev.value
    else if dep.tag.Some? then
      if dep.tag.value in c.refs.tags then c.refs.tags[dep.tag.value].oid else ""
    else if dep.branch.Some? then GetOr(Lookup(c.refs.branches, dep.branch.value), "")
    else c.head
  }

  predicate UpToDate(dep: Dependency, c: Checkout) {
    ResolvedRev(dep, c) != "" && ResolvedRev(dep, c) == c.head
  }

  /** A checkout that is used as it is, without asking the remote. */
  predicate Reused(existing: Option<Checkout>, dep: Dependency, force: bool) {
    existing.Some? && !force && UpToDate(dep, existing.value)
  }

  /** The checkout once the remote has been cloned into it or fetched, before the reference is checked out. */
  function Transferred(existing: Option<Checkout>, remote: Remote, force: bool): Checkout {
    if existing.Some? then Update(existing.value, remote, force) else Clone(remote)
  }

  /** The checkout after a fetch, or `None` when git fails: the remote or the reference is not there. */
  function Fetched(existing: Option<Checkout>, remote: Option<Remote>, dep: Dependency, force: bool): Option<Checkout> {
    if Reused(existing, dep, force) then existing
    else if remote.None? then None
    else
      var c := Transferred(existing, remote.value, force);
      if Target(dep, c).None? then None else Some(c.(head := Target(dep, c).value))
  }

  /** A checkout is reused exactly if a fetch is not forced and it stands where its own references put the dependency. */
  lemma ReusedMeans(existing: Option<Checkout>, dep: Dependency, force: bool)
    ensures Reused(existing, dep, force) <==>
      && existing.Some? && !force && existing.value.head != ""
      && var c := existing.value;
         if dep.rev.Some? then c.head == dep.rev.value
         else if dep.tag.Some? then dep.tag.value in c.refs.tags && c.head == c.refs.tags[dep.tag.value].oid
         else if dep.branch.Some? then dep.branch.value in c.refs.branches && c.head == c.refs.branches[dep.branch.value]
         else true
  {
  }

  /**
    Otherwise the head goes where the remote puts the reference, or where the old
    checkout did if the remote does not have it; only a tag that the checkout has
    already stays there unless the fetch is forced.
   */
  lemma FetchChecksOut(existing: Option<Checkout>, remote: Remote, dep: Dependency, force: bool)
    requires !Reused(existing, dep, force) && Fetched(existing, Some(remote), dep, force).Some?
    ensures var head := Fetched(existing, Some(remote), dep, force).value.head;
      if dep.rev.Some? then
        if dep.rev.value in remote.refs.revs then head == remote.refs.revs[dep.rev.value]
        else existing.Some? && dep.rev.value in existing.value.refs.revs && head == existing.value.refs.revs[dep.rev.value]
      else if dep.tag.Some? then
        if existing.Some? && dep.tag.value in existing.value.refs.tags && !(force && dep.tag.value in remote.refs.tags)
        then head == existing.value.refs.tags[dep.tag.value].commit
        else dep.tag.value in remote.refs.tags && head == remote.refs.tags[dep.tag.value].commit
      else
        var branch := if dep.branch.Some? then dep.branch.value else if existing.Some? then existing.value.origin else remote.default;
        if branch in remote.refs.branches then head == remote.refs.branches[branch]
        else existing.Some? && branch in existing.value.refs.branches && head == existing.value.refs.branches[branch]
  {
  }

  /** The fields of a dependency that decide what is fetched and under which key. */
  predicate SameSource(a: Dependency, b: Dependency) {
    a.git == b.git && a.tag == b.tag && a.branch == b.branch && a.rev == b.rev
  }

  /** Fetching the same source again changes nothing. */
  lemma FetchedIdempotent(existing: Option<Checkout>, remote: Option<Remote>, a: Dependency, b: Dependency, force: bool)
    requires SameSource(a, b) && Fetched(existing, remote, a, force).Some?
    ensures Fetched(Fetched(existing, remote, a, force), remote, b, force) == Fetched(existing, remote, a, force)
  {
    if !Reused(existing, a, force) {
      var c := Transferred(existing, remote.value, force);
      TransferredTwice(existing, remote.value, force, Target(a, c).value);
    }
  }

  lemma TransferredTwice(existing: Option<Checkout>, remote: Remote, force: bool, head: string)
    ensures var c := Transferred(existing, remote, force).(head := head);
      Update(c, remote, force) == c
  {
    var c := Transferred(existing, remote, force);
    assert c.refs.branches + remote.refs.branches == c.refs.branches;
    assert c.refs.revs + remote.refs.revs == c.refs.revs;
    assert force ==> c.refs.tags + remote.refs.tags == c.refs.tags;
    assert remote.refs.tags + c.refs.tags == c.refs.tags;
  }

  // ----- Fetching -------------------------------------------------------------------

  /** What the fetcher talks to: remotes by URL, and the tag a version constraint on a URL resolves to. */
  datatype Network = Network(remotes: map<string, Remote>, versions: map<(string, string), string>)

  datatype FetchError = MissingUrl | NoSource | GitFailed

  predicate Pinned(dep: Dependency) {
    Requested(dep).Some? || dep.version.None?
  }

  /** A dependency with only a version constraint is fetched as the tag the constraint resolves to. */
  function Effective(net: Network, dep: Dependency): Option<Dependency>
    requires dep.git.Some?
  {
    if Pinned(dep) then Some(dep)
    else
      var wanted := (dep.git.value, dep.version.value);
      if wanted in net.versions then Some(Dependency(None, dep.git, Some(net.versions[wanted]), None, None, None)) else None
  }

  class GitCache {
    var checkouts: map<string, Checkout>

    constructor (initial: map<string, Checkout>)
      ensures checkouts == initial
    {
      checkouts := initial;
    }

    /**
      Clones or updates the checkout of one dependency and returns the revision to
      record. It fails exactly when the URL is blank, the version constraint or the
      reference cannot be resolved, or the remote is needed and not there; a failure
      leaves every other checkout alone, and its own with nothing checked out anew.
     */
    method Fetch(hash: string -> string, net: Network, dep: Dependency, force: bool) returns (r: Result<string, FetchError>)
      requires dep.git.Some?
      modifies this
      ensures r.Ok? <==> Fetchable(hash, net, dep, force, old(checkouts))
      ensures r.Ok? ==>
        var eff := Effective(net, dep).value;
        var key := CacheKey(hash, eff);
        var c := FetchedFor(hash, net, eff, force, old(checkouts));
        checkouts == old(checkouts)[key := c.value] && r.value == ResolvedRev(eff, c.value)
      ensures r.Err? && checkouts != old(checkouts) ==>
        && Effective(net, dep).Some? && dep.git.value in net.remotes
        && var key := CacheKey(hash, Effective(net, dep).value);
           checkouts == old(checkouts)[key := Transferred(Lookup(old(checkouts), key), net.remotes[dep.git.value], force)]
    {
      if IsBlank(dep.git.value) {
        return Err(MissingUrl);
      }
      if Effective(net, dep).None? {
        return Err(GitFailed);
      }
      var eff := Effective(net, dep).value;
      var key := CacheKey(hash, eff);
      var existing := key in checkouts;
      if existing && !force {
        var want := ResolvedRev(eff, checkouts[key]);
        if want != "" && want == checkouts[key].head {
          assert checkouts == checkouts[key := checkouts[key]];
          return Ok(want);
        }
      }
      if dep.git.value !in net.remotes {
        return Err(GitFailed);
      }
      var remote := net.remotes[dep.git.value];
      if existing {
        checkouts := checkouts[key := Update(checkouts[key], remote, force)];
      } else {
        checkouts := checkouts[key := Clone(remote)];
      }
      var target := Target(eff, checkouts[key]);
      if target.None? {
        return Err(GitFailed);
      }
      checkouts := checkouts[key := checkouts[key].(head := target.value)];
      assert checkouts == old(checkouts)[key := checkouts[key]];
      return Ok(ResolvedRev(eff, checkouts[key]));
    }
  }

  /** What fetching an effective dependency into a cache leaves under its key. */
  function FetchedFor(
    hash: string -> string, net: Network, eff: Dependency, force: bool, checkouts: map<string, Checkout>): Option<Checkout>
  {
    Fetched(Lookup(checkouts, CacheKey(hash, eff)), Lookup(net.remotes, GetOr(eff.git, "")), eff, force)
  }

  /** Whether a dependency can be acquired, given the cache: a git source, or a path that is spelled out. */
  predicate Fetchable(hash: string -> string, net: Network, dep: Dependency, force: bool, checkouts: map<string, Checkout>) {
    if dep.git.None? then dep.path.Some? && !IsBlank(dep.path.value)
    else
      && !IsBlank(dep.git.value) && Effective(net, dep).Some?
      && FetchedFor(hash, net, Effective(net, dep).value, force, checkouts).Some?
  }

  /** `rev` and the checkout under the key of `dep` are what fetching it into the initial cache gives. */
  ghost predicate IsFetched(
    hash: string -> string, net: Network, dep: Dependency, force: bool,
    initial: map<string, Checkout>, checkouts: map<string, Checkout>, rev: string)
  {
    if dep.git.None? then rev == ""
    else
      && Effective(net, dep).Some?
      && var eff := Effective(net, dep).value;
         var c := FetchedFor(hash, net, eff, force, initial);
         c.Some? && Lookup(checkouts, CacheKey(hash, eff)) == c && rev == ResolvedRev(eff, c.value)
  }

  /** The named dependencies are fetched, and no other key of the cache has changed. */
  ghost predicate FetchedSoFar(
    hash: string -> string, net: Network, manifest: Manifest, names: set<string>, force: bool,
    initial: map<string, Checkout>, checkouts: map<string, Checkout>, revs: map<string, string>)
  {
    && (forall name :: name in names ==>
          name in manifest && name in revs && IsFetched(hash, net, manifest[name], force, initial, checkouts, revs[name]))
    && (forall key :: !UsedBy(hash, net, manifest, names, key) ==> Lookup(checkouts, key) == Lookup(initial, key))
  }

  ghost predicate UsedBy(hash: string -> string, net: Network, manifest: Manifest, names: set<string>, key: string) {
    exists name :: name in names && name in manifest && Uses(hash, net, manifest[name], key)
  }

  ghost predicate Uses(hash: string -> string, net: Network, dep: Dependency, key: string) {
    dep.git.Some? && Effective(net, dep).Some? && CacheKey(hash, Effective(net, dep).value) == key
  }

  /** Dependencies that share a key share their source. */
  ghost predicate KeysDistinct(hash: string -> string, net: Network, manifest: Manifest) {
    forall a, b, key :: a in manifest && b in manifest && Uses(hash, net, manifest[a], key) && Uses(hash, net, manifest[b], key) ==>
      SameSource(Effective(net, manifest[a]).value, Effective(net, manifest[b]).value)
  }

  lemma SameSourceFetchesSame(
    hash: string -> string, net: Network, a: Dependency, b: Dependency, force: bool, cache: map<string, Checkout>, c: Checkout)
    requires SameSource(a, b)
    ensures CacheKey(hash, a) == CacheKey(hash, b)
    ensures FetchedFor(hash, net, a, force, cache) == FetchedFor(hash, net, b, force, cache)
    ensures ResolvedRev(a, c) == ResolvedRev(b, c)
  {
  }

  /** Whatever was fetched before, the next dependency finds what it would have found in the initial cache. */
  lemma FetchIsOrderIndependent(
    hash: string -> string, net: Network, manifest: Manifest, names: set<string>, force: bool,
    initial: map<string, Checkout>, checkouts: map<string, Checkout>, revs: map<string, string>, name: string)
    requires KeysDistinct(hash, net, manifest)
    requires FetchedSoFar(hash, net, manifest, names, force, initial, checkouts, revs)
    requires name in manifest && manifest[name].git.Some? && Effective(net, manifest[name]).Some?
    ensures var eff := Effective(net, manifest[name]).value;
      FetchedFor(hash, net, eff, force, checkouts) == FetchedFor(hash, net, eff, force, initial)
  {
    var eff := Effective(net, manifest[name]).value;
    var key := CacheKey(hash, eff);
    if UsedBy(hash, net, manifest, names, key) {
      var other :| other in names && other in manifest && Uses(hash, net, manifest[other], key);
      assert Uses(hash, net, manifest[name], key);
      var theirs := Effective(net, manifest[other]).value;
      assert IsFetched(hash, net, manifest[other], force, initial, checkouts, revs[other]);
      RefetchedSame(hash, net, theirs, eff, force, initial, checkouts);
    }
  }

  lemma RefetchedSame(
    hash: string -> string, net: Network, a: Dependency, b: Dependency, force: bool,
    initial: map<string, Checkout>, checkouts: map<string, Checkout>)
    requires SameSource(a, b) && FetchedFor(hash, net, a, force, initial).Some?
    requires Lookup(checkouts, CacheKey(hash, a)) == FetchedFor(hash, net, a, force, initial)
    ensures FetchedFor(hash, net, b, force, checkouts) == FetchedFor(hash, net, b, force, initial)
  {
    SameSourceFetchesSame(hash, net, a, b, force, initial, FetchedFor(hash, net, a, force, initial).value);
    FetchedIdempotent(Lookup(initial, CacheKey(hash, a)), Lookup(net.remotes, GetOr(a.git, "")), a, b, force);
  }

  /**
    Fetches every dependency of the manifest, in whatever order the map yields
    them. It succeeds exactly when each can be fetched into the initial cache by
    itself; either way no checkout that no dependency uses is touched.
   */
  method FetchAll(hash: string -> string, net: Network, manifest: Manifest, force: bool, cache: GitCache)
    returns (r: Result<map<string, string>, FetchError>)
    requires KeysDistinct(hash, net, manifest)
    modifies cache
    ensures r.Ok? <==> forall name :: name in manifest ==> Fetchable(hash, net, manifest[name], force, old(cache.checkouts))
    ensures r.Ok? ==> FetchedSoFar(hash, net, manifest, manifest.Keys, force, old(cache.checkouts), cache.checkouts, r.value)
    ensures forall key :: !UsedBy(hash, net, manifest, manifest.Keys, key) ==>
      Lookup(cache.checkouts, key) == Lookup(old(cache.checkouts), key)
  {
    var revs: map<string, string> := map[];
    var rest := manifest.Keys;
    ghost var initial := cache.checkouts;
    while rest != {}
      invariant rest <= manifest.Keys
      invariant FetchedSoFar(hash, net, manifest, manifest.Keys - rest, force, initial, cache.checkouts, revs)
      invariant forall name :: name in manifest.Keys - rest ==> Fetchable(hash, net, manifest[name], force, initial)
    {
      var name :| name in rest;
      var dep := manifest[name];
      ghost var before, seen, known := cache.checkouts, manifest.Keys - rest, revs;
      SameFetchable(hash, net, manifest, seen, force, initial, before, known, name);
      if dep.git.Some? {
        var fetched := cache.Fetch(hash, net, dep, force);
        if fetched.Err? {
          UnusedUntouched(hash, net, manifest, seen, force, initial, before, known, name, cache.checkouts);
          return Err(fetched.error);
        }
        revs := revs[name := fetched.value];
      } else {
        if dep.path.None? || IsBlank(dep.path.value) {
          UnusedUntouched(hash, net, manifest, seen, force, initial, before, known, name, cache.checkouts);
          return Err(NoSource);
        }
        revs := revs[name := ""];
      }
      rest := rest - {name};
      assert manifest.Keys - rest == seen + {name};
      OneMoreFetched(hash, net, manifest, seen, force, initial, before, known, name, cache.checkouts, revs);
    }
    assert manifest.Keys - rest == manifest.Keys;
    return Ok(revs);
  }

  lemma SameFetchable(
    hash: string -> string, net: Network, manifest: Manifest, names: set<string>, force: bool,
    initial: map<string, Checkout>, checkouts: map<string, Checkout>, revs: map<string, string>, name: string)
    requires KeysDistinct(hash, net, manifest) && name in manifest
    requires FetchedSoFar(hash, net, manifest, names, force, initial, checkouts, revs)
    ensures Fetchable(hash, net, manifest[name], force, checkouts) <==> Fetchable(hash, net, manifest[name], force, initial)
  {
    if manifest[name].git.Some? && Effective(net, manifest[name]).Some? {
      FetchIsOrderIndependent(hash, net, manifest, names, force, initial, checkouts, revs, name);
    }
  }

  /** A fetch that changes at most its own key leaves the unused keys as they were. */
  lemma UnusedUntouched(
    hash: string -> string, net: Network, manifest: Manifest, names: set<string>, force: bool, initial: map<string, Checkout>,
    before: map<string, Checkout>, revs: map<string, string>, name: string, after: map<string, Checkout>)
    requires FetchedSoFar(hash, net, manifest, names, force, initial, before, revs) && name in manifest
    requires forall k :: !Uses(hash, net, manifest[name], k) ==> Lookup(after, k) == Lookup(before, k)
    ensures forall k :: !UsedBy(hash, net, manifest, manifest.Keys, k) ==> Lookup(after, k) == Lookup(initial, k)
  {
    forall k | !UsedBy(hash, net, manifest, manifest.Keys, k) ensures Lookup(after, k) == Lookup(initial, k) {
      assert name in manifest.Keys;
      assert !UsedBy(hash, net, manifest, names, k);
    }
  }

  lemma OneMoreFetched(
    hash: string -> string, net: Network, manifest: Manifest, names: set<string>, force: bool, initial: map<string, Checkout>,
    before: map<string, Checkout>, known: map<string, string>, name: string,
    after: map<string, Checkout>, revs: map<string, string>)
    requires KeysDistinct(hash, net, manifest)
    requires FetchedSoFar(hash, net, manifest, names, force, initial, before, known)
    requires name in manifest && name !in names && name in revs && revs == known[name := revs[name]]
    requires manifest[name].git.None? ==> after == before && revs[name] == ""
    requires manifest[name].git.Some? ==>
      && Effective(net, manifest[name]).Some?
      && var eff := Effective(net, manifest[name]).value;
         var c := FetchedFor(hash, net, eff, force, before);
         c.Some? && after == before[CacheKey(hash, eff) := c.value] && revs[name] == ResolvedRev(eff, c.value)
    ensures FetchedSoFar(hash, net, manifest, names + {name}, force, initial, after, revs)
  {
    if manifest[name].git.Some? {
      FetchIsOrderIndependent(hash, net, manifest, names, force, initial, before, known, name);
    }
    assert IsFetched(hash, net, manifest[name], force, initial, after, revs[name]);
    forall n | n in names
      ensures n in manifest && n in revs && IsFetched(hash, net, manifest[n], force, initial, after, revs[n])
    {
      StaysFetched(hash, net, manifest, force, initial, before, after, n, known[n], name, revs[name]);
    }
    forall k | !UsedBy(hash, net, manifest, names + {name}, k) ensures Lookup(after, k) == Lookup(initial, k) {
      UnusedStays(hash, net, manifest, names, name, k);
      assert Lookup(before, k) == Lookup(initial, k);
    }
  }

  lemma UnusedStays(hash: string -> string, net: Network, manifest: Manifest, names: set<string>, name: string, k: string)
    requires name in manifest && !UsedBy(hash, net, manifest, names + {name}, k)
    ensures !UsedBy(hash, net, manifest, names, k) && !Uses(hash, net, manifest[name], k)
  {
    assert forall n :: n in names ==> n in names + {name};
    assert name in names + {name};
  }

  /** A dependency fetched earlier is not disturbed when another one that may share its key is fetched. */
  lemma StaysFetched(
    hash: string -> string, net: Network, manifest: Manifest, force: bool, initial: map<string, Checkout>,
    before: map<string, Checkout>, after: map<string, Checkout>, n: string, rev: string, name: string, newRev: string)
    requires KeysDistinct(hash, net, manifest) && n in manifest && name in manifest
    requires IsFetched(hash, net, manifest[n], force, initial, before, rev)
    requires IsFetched(hash, net, manifest[name], force, initial, after, newRev)
    requires forall k :: !Uses(hash, net, manifest[name], k) ==> Lookup(after, k) == Lookup(before, k)
    ensures IsFetched(hash, net, manifest[n], force, initial, after, rev)
  {
    if manifest[n].git.Some? {
      var theirs := Effective(net, manifest[n]).value;
      var key := CacheKey(hash, theirs);
      assert Uses(hash, net, manifest[n], key);
      if Uses(hash, net, manifest[name], key) {
        var eff := Effective(net, manifest[name]).value;
        assert SameSource(theirs, eff);
        SameSourceFetchesSame(hash, net, theirs, eff, force, initial, FetchedFor(hash, net, theirs, force, initial).value);
      }
    }
  }
}
