/**
  The local plugin store: one directory per plugin id, changed by install,
  update and remove, and read by list, show and resolve.
 */
module PluginStore {
  import opened Outcomes
  import Texts
  import StringOrder
  import opened PluginPaths
  import opened PluginBundle
  import opened PluginPacking
  import opened PluginDirectory

  datatype StoreError =
    | RemoteUnsupported | InvalidMetadata | TomlError | AbiMismatch | KindExtMismatch
    | AlreadyInstalled | DryRunLoad | Io | InvalidBundle

  // ----- Directory names ---------------------------------------------------------------

  predicate Special(c: char) {
    c == '/' || c == '\\' || c == '.' || c == ':' || c == ' '
  }

  function SanitizeChar(c: char): char {
    if Special(c) then '_' else c
  }

  /** The directory name of a plugin id. */
  function Sanitize(id: string): (name: string)
    ensures |name| == |id|
  {
    seq(|id|, i requires 0 <= i < |id| => SanitizeChar(id[i]))
  }

  lemma SanitizeIdempotent(id: string)
    ensures Sanitize(Sanitize(id)) == Sanitize(id)
  {
    assert forall i :: 0 <= i < |id| ==> Sanitize(Sanitize(id))[i] == Sanitize(id)[i];
  }

  /** No id leads outside the store: its directory is one ordinary component. Only the empty id has none. */
  lemma SanitizedStaysInside(id: string)
    ensures id != "" <==> SingleComponent(Sanitize(id))
    ensures SafePath(Sanitize(id))
  {
    var name := Sanitize(id);
    assert forall i :: 0 <= i < |name| ==> name[i] == SanitizeChar(id[i]);
    if id != "" {
      assert name[0] != '.';
      SingleComponentIsSafe(name);
    }
  }

  /** Ids share a directory exactly when they differ only in which special character, or underscore, they use. */
  lemma SharedDirectory(a: string, b: string)
    ensures Sanitize(a) == Sanitize(b) <==>
      |a| == |b| && forall i :: 0 <= i < |a| ==>
        a[i] == b[i] || (a[i] in "/\\.: _" && b[i] in "/\\.: _")
  {
    if Sanitize(a) == Sanitize(b) {
      forall i | 0 <= i < |a| ensures SanitizeChar(a[i]) == SanitizeChar(b[i]) {
        assert Sanitize(a)[i] == Sanitize(b)[i];
      }
    }
  }

  // ----- Sources -----------------------------------------------------------------------------

  /**
    What an install is given: whether the source is a URL, the `plugin.toml`
    beside the artifact, the artifact's lower-case extension and bytes, and the
    outcome of the dry-run load.
   */
  datatype Source = Source(
    remote: bool, toml: Option<string>, extension: string, bytes: Option<string>, loads: bool)

  predicate KindMatches(kind: string, extension: string) {
    || (kind == "native" && (extension == "so" || extension == "dylib" || extension == "dll"))
    || (kind == "wasm" && extension == "wasm")
  }

  /** Metadata checks in the order they are made. */
  function Validate(meta: Meta): (r: Result<Meta, StoreError>)
    ensures r.Ok? <==> Valid(meta)
    ensures r.Ok? ==> r.value == meta
  {
    if !ValidBasic(meta) then Err(InvalidMetadata)
    else if meta.abiMajor != ABI_MAJOR then Err(AbiMismatch)
    else Ok(meta)
  }

  /** The metadata an install works with, or the first check that fails. */
  function CheckSource(tools: Tools, source: Source, id: Option<string>): (r: Result<Meta, StoreError>)
    ensures r.Ok? ==> Valid(r.value) && KindMatches(r.value.kind, source.extension)
    ensures r.Ok? && id.Some? ==> r.value.id == id.value
  {
    if source.remote then Err(RemoteUnsupported)
    else if source.toml.None? then Err(InvalidMetadata)
    else
      var parsed := tools.parse(source.toml.value);
      if parsed.None? then Err(TomlError)
      else if Validate(parsed.value).Err? then Validate(parsed.value)
      else
        var meta := if id.Some? then parsed.value.(id := id.value) else parsed.value;
        if Validate(meta).Err? then Validate(meta)
        else if !KindMatches(meta.kind, source.extension) then Err(KindExtMismatch)
        else Ok(meta)
  }

  // ----- The store as a catalogue ------------------------------------------------------------

  /** A directory of the store: nothing in it, or one plugin. */
  datatype Slot = Vacant | Holds(meta: Meta, bytes: string)

  type Catalogue = map<string, Slot>

  predicate GoodSlot(slot: Slot) {
    slot.Holds? ==> Valid(slot.meta) && SingleComponent(slot.meta.artifact)
  }

  /** Directory names are sanitised, and a plugin is in the directory of its id. */
  ghost predicate GoodCatalogue(cat: Catalogue) {
    forall name :: name in cat ==>
      && name != "" && Sanitize(name) == name && GoodSlot(cat[name])
      && (cat[name].Holds? ==> Sanitize(cat[name].meta.id) == name)
  }

  /** The files of a directory: the metadata and the artifact it names, and nothing else. */
  function FilesOf(tools: Tools, slot: Slot): Entries {
    match slot
    case Vacant => map[]
    case Holds(meta, bytes) => map[Toml := tools.render(meta), meta.artifact := bytes]
  }

  datatype Outcome = Outcome(result: Result<Meta, StoreError>, cat: Catalogue)

  /**
    Commits checked metadata unless the directory is taken or the dry run fails.
    The artifact can be copied when it exists and is not in a sub-directory.
   */
  function Committed(cat: Catalogue, meta: Meta, bytes: Option<string>, loads: bool, force: bool): (o: Outcome)
    requires Valid(meta)
    ensures GoodCatalogue(cat) ==> GoodCatalogue(o.cat)
    ensures o.result.Err? && o.result.error != Io ==> o.cat == cat
  {
    var name := Sanitize(meta.id);
    SanitizeIdempotent(meta.id);
    if name in cat && !force then Outcome(Err(AlreadyInstalled), cat)
    else if !loads then Outcome(Err(DryRunLoad), cat)
    else if bytes.None? || !SingleComponent(meta.artifact) then
      Outcome(Err(Io), if name in cat then cat else cat[name := Vacant])
    else Outcome(Ok(meta), cat[name := Holds(meta, bytes.value)])
  }

  /** Install as a step of the catalogue. */
  function Installed(tools: Tools, cat: Catalogue, source: Source, id: Option<string>, force: bool): (o: Outcome)
    ensures GoodCatalogue(cat) ==> GoodCatalogue(o.cat)
    ensures o.result.Err? && o.result.error != Io ==> o.cat == cat
  {
    var checked := CheckSource(tools, source, id);
    if checked.Err? then Outcome(checked, cat)
    else Committed(cat, checked.value, source.bytes, source.loads, force)
  }

  function Removed(cat: Catalogue, id: string): Catalogue {
    if id == "" then map[] else cat - {Sanitize(id)}
  }

  /** What is at an id's directory. */
  function Lookup(cat: Catalogue, id: string): Option<Slot> {
    Find(cat, Sanitize(id))
  }

  /** After a removal an id finds what it found before, unless it shares the directory or the whole store is gone. */
  lemma LookupAfterRemove(cat: Catalogue, id: string, other: string)
    ensures Lookup(Removed(cat, id), other) ==
      if id == "" || Sanitize(other) == Sanitize(id) then None else Lookup(cat, other)
  {
  }

  /**
    An install succeeds exactly if the source is local with metadata that is valid as
    written and under the overriding id, the extension is one of its kind, the
    directory is free or the install forced, the plugin loads and the artifact can be
    copied. It then stores just that.
   */
  lemma InstallsIff(tools: Tools, cat: Catalogue, source: Source, id: Option<string>, force: bool, found: Meta, meta: Meta)
    requires source.toml.Some? ==> tools.parse(source.toml.value) in {None, Some(found)}
    requires meta == if id.Some? then found.(id := id.value) else found
    ensures var o := Installed(tools, cat, source, id, force);
      && (o.result.Ok? <==>
        && !source.remote && source.toml.Some? && tools.parse(source.toml.value) == Some(found)
        && Valid(found) && Valid(meta)
        && (meta.kind == "native" ==> source.extension in {"so", "dylib", "dll"})
        && (meta.kind == "wasm" ==> source.extension == "wasm")
        && (force || Sanitize(meta.id) !in cat)
        && source.loads && source.bytes.Some? && SingleComponent(meta.artifact))
      && (o.result.Ok? ==> o == Outcome(Ok(meta), cat[Sanitize(meta.id) := Holds(meta, source.bytes.value)]))
  {
  }

  // ----- The store on disk -----------------------------------------------------------------------

  /**
    Writes the new artifact and metadata into a plugin's directory, then deletes
    the artifact the old metadata named unless it was overwritten.
   */
  method Commit(tools: Tools, files: Entries, meta: Meta, bytes: string, previous: Option<Meta>, ghost slot: Slot)
    returns (after: Entries)
    requires GoodSlot(slot) && files == FilesOf(tools, slot)
    requires previous == if slot.Holds? then Some(slot.meta) else None
    requires Valid(meta) && SingleComponent(meta.artifact)
    ensures after == FilesOf(tools, Holds(meta, bytes))
  {
    after := files[meta.artifact := bytes];
    after := after[Toml := tools.render(meta)];
    if previous.Some? && previous.value.artifact != meta.artifact {
      var stale := previous.value.artifact;
      if stale in after && SafePath(stale) {
        after := after - {stale};
      }
    }
  }

  class Store {
    const tools: Tools
    var dirs: map<string, Entries>
    ghost var cat: Catalogue

    /** Every directory holds exactly the files of its slot. */
    ghost predicate Valid()
      reads this
    {
      && (forall m :: tools.parse(tools.render(m)) == Some(m))
      && GoodCatalogue(cat)
      && dirs.Keys == cat.Keys
      && (forall name :: name in dirs ==> dirs[name] == FilesOf(tools, cat[name]))
    }

    constructor (tools: Tools)
      requires forall m :: tools.parse(tools.render(m)) == Some(m)
      ensures Valid() && cat == map[] && this.tools == tools
    {
      this.tools := tools;
      dirs := map[];
      cat := map[];
    }

    /** The metadata in an id's directory, whatever id it was installed under. */
    method ReadMeta(id: string) returns (r: Option<Meta>)
      requires Valid()
      ensures r.Some? <==> Lookup(cat, id).Some? && Lookup(cat, id).value.Holds?
      ensures r.Some? ==> r.value == Lookup(cat, id).value.meta
    {
      var name := Sanitize(id);
      if name !in dirs || Toml !in dirs[name] {
        return None;
      }
      var parsed := tools.parse(dirs[name][Toml]);
      if parsed.None? || !ValidBasic(parsed.value) {
        return None;
      }
      return parsed;
    }

    method Install(source: Source, id: Option<string>, force: bool) returns (r: Result<Meta, StoreError>)
      requires Valid()
      modifies this
      ensures Valid()
      ensures Outcome(r, cat) == Installed(tools, old(cat), source, id, force)
    {
      var checked := CheckSource(tools, source, id);
      if checked.Err? {
        return checked;
      }
      r := InstallChecked(checked.value, source.bytes, source.loads, force);
    }

    method InstallChecked(meta: Meta, bytes: Option<string>, loads: bool, force: bool) returns (r: Result<Meta, StoreError>)
      requires Valid() && PluginBundle.Valid(meta)
      modifies this
      ensures Valid()
      ensures Outcome(r, cat) == Committed(old(cat), meta, bytes, loads, force)
    {
      if Sanitize(meta.id) in dirs && !force {
        return Err(AlreadyInstalled);
      }
      if !loads {
        return Err(DryRunLoad);
      }
      var previous := ReadMeta(meta.id);
      CreateDir(meta.id);
      if bytes.None? || !SingleComponent(meta.artifact) {
        return Err(Io);
      }
      Place(meta, bytes.value, previous);
      return Ok(meta);
    }

    method CreateDir(id: string)
      requires Valid() && id != ""
      modifies this
      ensures Valid() && cat == if Sanitize(id) in old(cat) then old(cat) else old(cat)[Sanitize(id) := Vacant]
    {
      var name := Sanitize(id);
      SanitizeIdempotent(id);
      if name !in dirs {
        dirs, cat := dirs[name := map[]], cat[name := Vacant];
      }
    }

    method Place(meta: Meta, bytes: string, previous: Option<Meta>)
      requires Valid() && PluginBundle.Valid(meta) && SingleComponent(meta.artifact) && Sanitize(meta.id) in cat
      requires previous == var slot := cat[Sanitize(meta.id)]; if slot.Holds? then Some(slot.meta) else None
      modifies this
      ensures Valid() && cat == old(cat)[Sanitize(meta.id) := Holds(meta, bytes)]
    {
      var name := Sanitize(meta.id);
      SanitizeIdempotent(meta.id);
      var files := Commit(tools, dirs[name], meta, bytes, previous, cat[name]);
      dirs, cat := dirs[name := files], cat[name := Holds(meta, bytes)];
    }

    method Update(id: string, source: Source) returns (r: Result<Meta, StoreError>)
      requires Valid()
      modifies this
      ensures Valid()
      ensures Outcome(r, cat) == Installed(tools, old(cat), source, Some(id), true)
    {
      if source.remote {
        return Err(RemoteUnsupported);
      }
      r := Install(source, Some(id), true);
    }

    /** The empty id names the store itself, so removing it removes everything. */
    method Remove(id: string)
      requires Valid()
      modifies this
      ensures Valid() && cat == Removed(old(cat), id)
    {
      if id == "" {
        dirs, cat := map[], map[];
      } else if Sanitize(id) in dirs {
        dirs, cat := dirs - {Sanitize(id)}, cat - {Sanitize(id)};
      }
    }

    /** One command of a run. */
    method Perform(c: Command)
      requires Valid()
      modifies this
      ensures Valid() && cat == Step(tools, old(cat), c)
    {
      match c
      case Install(source, id, force) => var _ := Install(source, id, force);
      case Update(id, source) => var _ := Update(id, source);
      case Remove(id) => Remove(id);
    }

    /** The directory and artifact name of an installed plugin; the file is there with the installed bytes. */
    method Resolve(id: string) returns (r: Option<(string, string)>)
      requires Valid()
      ensures r.Some? <==> Lookup(cat, id).Some? && Lookup(cat, id).value.Holds?
      ensures r.Some? ==>
        && r.value.0 == Sanitize(id) && r.value.0 in dirs && r.value.1 in dirs[r.value.0]
        && dirs[r.value.0][r.value.1] == Lookup(cat, id).value.bytes
    {
      var meta := ReadMeta(id);
      if meta.None? {
        return None;
      }
      var name := Sanitize(id);
      if meta.value.artifact in dirs[name] {
        return Some((name, meta.value.artifact));
      }
      return None;
    }

    /** The metadata of every directory that has any. Each directory name is sanitised again on the way to it. */
    method ReadAll() returns (metas: seq<Meta>)
      requires Valid()
      ensures forall m :: m in metas <==> exists name :: name in cat && cat[name].Holds? && cat[name].meta == m
      ensures forall i, j :: 0 <= i < j < |metas| ==> metas[i].id != metas[j].id
    {
      metas := [];
      var rest := dirs.Keys;
      while rest != {}
        invariant rest <= dirs.Keys
        invariant forall m :: m in metas ==>
          && Sanitize(m.id) in dirs && Sanitize(m.id) !in rest
          && cat[Sanitize(m.id)].Holds? && cat[Sanitize(m.id)].meta == m
        invariant forall name :: name in dirs && name !in rest && cat[name].Holds? ==> cat[name].meta in metas
        invariant forall i, j :: 0 <= i < j < |metas| ==> metas[i].id != metas[j].id
      {
        var name :| name in rest;
        rest := rest - {name};
        var meta := ReadMeta(name);
        if meta.Some? {
          assert Sanitize(meta.value.id) == name;
          forall i | 0 <= i < |metas| ensures metas[i].id != meta.value.id {
            assert metas[i] in metas;
          }
          metas := metas + [meta.value];
        }
      }
    }

    /** Every installed plugin once, in ascending order of ids; no two have the same. */
    method ListIn() returns (metas: seq<Meta>)
      requires Valid()
      ensures forall m :: m in metas <==> exists name :: name in cat && cat[name].Holds? && cat[name].meta == m
      ensures forall i, j :: 0 <= i < j < |metas| ==> StringOrder.Less(metas[i].id, metas[j].id)
    {
      var found := ReadAll();
      metas := SortById(found);
    }

    /** Verifies a bundle into a staging directory and installs the artifact found there; `loads` is the dry run's outcome. */
    method InstallBundle(archive: Archive, id: Option<string>, force: bool, trusted: Option<string>, loads: bool)
      returns (r: Result<Meta, StoreError>)
      requires Valid()
      modifies this
      ensures Valid()
      ensures (forall meta :: !Installable(tools, archive, trusted, meta)) ==> r == Err(InvalidBundle) && cat == old(cat)
      ensures forall meta :: Installable(tools, archive, trusted, meta) ==>
        exists dir :: HoldsEntries(dir, EntriesOf(archive)) &&
          Outcome(r, cat) == Installed(tools, old(cat), StagedSource(dir, meta.artifact, loads), id, force)
    {
      var verified := CheckBundle(tools, archive, trusted);
      if verified.None? {
        return Err(InvalidBundle);
      }
      var meta := verified.value.meta;
      assert Installable(tools, archive, trusted, meta);
      var dir := Extract(verified.value.files);
      r := Install(StagedSource(dir, meta.artifact, loads), id, force);
    }
  }

  function Ids(metas: seq<Meta>): seq<string> {
    seq(|metas|, i requires 0 <= i < |metas| => metas[i].id)
  }

  /** The listing order; where ids differ nothing but the ids decides it. */
  method SortById(metas: seq<Meta>) returns (sorted: seq<Meta>)
    requires forall i, j :: 0 <= i < j < |metas| ==> metas[i].id != metas[j].id
    ensures forall m :: m in sorted <==> m in metas
    ensures forall i, j :: 0 <= i < j < |sorted| ==> StringOrder.Less(sorted[i].id, sorted[j].id)
  {
    var ids := StringOrder.Sort(Ids(metas));
    assert StringOrder.Distinct(Ids(metas));
    StringOrder.DistinctStays(Ids(metas), ids);
    StringOrder.AscendingStrictly(ids);
    sorted := [];
    for k := 0 to |ids|
      invariant |sorted| == k
      invariant forall i :: 0 <= i < k ==> sorted[i] in metas && sorted[i].id == ids[i]
    {
      assert ids[k] in multiset(Ids(metas));
      var m := FindById(metas, ids[k]);
      sorted := sorted + [m];
    }
    forall m | m in metas ensures m in sorted {
      SortedHolds(metas, ids, sorted, m);
    }
  }

  method FindById(metas: seq<Meta>, id: string) returns (m: Meta)
    requires id in Ids(metas)
    ensures m in metas && m.id == id
  {
    for i := 0 to |metas|
      invariant forall j :: 0 <= j < i ==> metas[j].id != id
    {
      if metas[i].id == id {
        return metas[i];
      }
    }
    assert false;
  }

  lemma SortedHolds(metas: seq<Meta>, ids: seq<string>, sorted: seq<Meta>, m: Meta)
    requires forall i, j :: 0 <= i < j < |metas| ==> metas[i].id != metas[j].id
    requires multiset(ids) == multiset(Ids(metas)) && |sorted| == |ids|
    requires forall i :: 0 <= i < |ids| ==> sorted[i] in metas && sorted[i].id == ids[i]
    requires m in metas
    ensures m in sorted
  {
    var k :| 0 <= k < |metas| && metas[k] == m;
    assert Ids(metas)[k] == m.id && m.id in multiset(Ids(metas));
    assert m.id in multiset(ids);
    var i :| 0 <= i < |ids| && ids[i] == m.id;
    var n :| 0 <= n < |metas| && metas[n] == sorted[i];
    assert n == k;
  }

  /** A bundle that passes verification, and that is signed with the caller's key if the caller gives one. */
  ghost predicate Installable(tools: Tools, archive: Archive, trusted: Option<string>, meta: Meta) {
    Readable(archive) && Extractable(EntriesOf(archive)) && exists signed ::
      Accepts(tools, EntriesOf(archive), trusted, meta, signed) && (trusted.Some? ==> signed)
  }

  method CheckBundle(tools: Tools, archive: Archive, trusted: Option<string>) returns (r: Option<Verified>)
    ensures r.None? ==> forall meta :: !Installable(tools, archive, trusted, meta)
    ensures r.Some? ==> r.value.files == EntriesOf(archive)
    ensures r.Some? ==> forall meta :: Installable(tools, archive, trusted, meta) <==> meta == r.value.meta
  {
    r := VerifyBundle(tools, archive, trusted);
    if r.None? {
      assert forall meta, signed :: Readable(archive) && Extractable(EntriesOf(archive)) ==>
        !Accepts(tools, EntriesOf(archive), trusted, meta, signed);
      return None;
    }
    InstallableOnce(tools, archive, trusted, r.value.meta, r.value.signed);
    if trusted.Some? && !r.value.signed {
      return None;
    }
  }

  lemma InstallableOnce(tools: Tools, archive: Archive, trusted: Option<string>, meta: Meta, signed: bool)
    requires Readable(archive) && Extractable(EntriesOf(archive)) && Accepts(tools, EntriesOf(archive), trusted, meta, signed)
    ensures forall m :: Installable(tools, archive, trusted, m) <==> m == meta && (trusted.Some? ==> signed)
  {
    var entries := EntriesOf(archive);
    forall m, s | Accepts(tools, entries, trusted, m, s) ensures m == meta && s == signed {
      AcceptedOnce(tools, entries, trusted, m, s, meta, signed);
    }
  }

  // ----- Bundles ------------------------------------------------------------------------------------

  /** The last dot of a file name, unless the name starts with it. */
  function LastDot(name: string): (n: nat)
    ensures n == 0 || n < |name|
  {
    if name == "" then 0
    else if name[|name| - 1] == '.' then |name| - 1
    else LastDot(name[..|name| - 1])
  }

  function Extension(name: string): string {
    if LastDot(name) == 0 then "" else Texts.Lower(name[LastDot(name) + 1..])
  }

  /** The extension: what follows the last dot, in lower case, unless the name starts with that dot. */
  lemma ExtensionIs(stem: string, ending: string)
    requires '.' !in ending
    ensures Extension(stem + "." + ending) == if stem == "" then "" else Texts.Lower(ending)
    ensures Extension(ending) == ""
  {
    LastDotIs(stem, ending);
    NoDot(ending);
    assert (stem + "." + ending)[|stem| + 1..] == ending;
  }

  lemma {:induction false} LastDotIs(stem: string, ending: string)
    requires '.' !in ending
    ensures LastDot(stem + "." + ending) == |stem|
  {
    if ending != "" {
      var most := ending[..|ending| - 1];
      assert (stem + "." + ending)[..|stem| + |ending|] == stem + "." + most;
      LastDotIs(stem, most);
    }
  }

  lemma {:induction false} NoDot(name: string)
    requires '.' !in name
    ensures LastDot(name) == 0
  {
    if name != "" {
      NoDot(name[..|name| - 1]);
    }
  }

  /** The artifact of a staged bundle, with the `plugin.toml` of the artifact's own directory. */
  function StagedSource(dir: Dir, artifact: string, loads: bool): Source {
    var at := Location(artifact);
    if at == [] then Source(false, None, "", None, loads)
    else
      var last := |at| - 1;
      Source(false, Find(dir, at[..last] + [Toml]), Extension(at[last]), Find(dir, at), loads)
  }

  /**
    Packing a plugin and installing the bundle stores that plugin with the same
    bytes, if the artifact's name has the extension of its kind and the plugin loads.
   */
  lemma PackedInstalls(
    tools: Tools, meta: Meta, bytes: string, key: Option<string>, trusted: Option<string>, dir: Dir, loads: bool, cat: Catalogue)
    requires Sound(tools) && Valid(meta) && SingleComponent(meta.artifact) && OneLine(meta.artifact)
    requires HoldsEntries(dir, PackedFiles(tools, meta, bytes, key))
    ensures var archive := PackBundle(tools, meta, bytes, true, key).value;
      forall m :: Installable(tools, archive, trusted, m) <==>
        m == meta && (trusted.Some? ==> key.Some? && trusted.value == tools.publicKey(key.value))
    ensures var o := Installed(tools, cat, StagedSource(dir, meta.artifact, loads), None, true);
      if loads && KindMatches(meta.kind, Extension(meta.artifact))
      then o == Outcome(Ok(meta), cat[Sanitize(meta.id) := Holds(meta, bytes)])
      else o.result.Err? && o.cat == cat
  {
    PackedInstallable(tools, meta, bytes, key, trusted);
    PackedStages(tools, meta, bytes, key, dir, loads);
    SourceInstalls(tools, meta, Extension(meta.artifact), bytes, loads, cat);
  }

  /** Forced installation of valid metadata with an artifact beside it. */
  lemma SourceInstalls(tools: Tools, meta: Meta, extension: string, bytes: string, loads: bool, cat: Catalogue)
    requires tools.parse(tools.render(meta)) == Some(meta) && Valid(meta) && SingleComponent(meta.artifact)
    ensures var o := Installed(tools, cat, Source(false, Some(tools.render(meta)), extension, Some(bytes), loads), None, true);
      if loads && KindMatches(meta.kind, extension)
      then o == Outcome(Ok(meta), cat[Sanitize(meta.id) := Holds(meta, bytes)])
      else o.result.Err? && o.cat == cat
  {
  }

  lemma PackedInstallable(tools: Tools, meta: Meta, bytes: string, key: Option<string>, trusted: Option<string>)
    requires Sound(tools) && Valid(meta) && SingleComponent(meta.artifact) && OneLine(meta.artifact)
    ensures var archive := PackBundle(tools, meta, bytes, true, key).value;
      forall m :: Installable(tools, archive, trusted, m) <==>
        m == meta && (trusted.Some? ==> key.Some? && trusted.value == tools.publicKey(key.value))
  {
    var archive := PackBundle(tools, meta, bytes, true, key).value;
    PackedComesThrough(tools, meta, bytes, key);
    PackedExtractable(tools, meta, bytes, key);
    InstallableOnce(tools, archive, None, meta, key.Some?);
    if trusted.Some? {
      var files := EntriesOf(archive);
      if key.Some? && trusted.value == tools.publicKey(key.value) {
        PackedIsAccepted(tools, meta, bytes, key, trusted);
        InstallableOnce(tools, archive, trusted, meta, true);
      } else {
        forall m, s | Accepts(tools, files, trusted, m, s) ensures !s {
          ReservedDiffer();
        }
      }
    }
  }

  lemma TopLevelStages(entries: Entries, dir: Dir, artifact: string, loads: bool)
    requires HoldsEntries(dir, entries) && Creatable(entries) && SingleComponent(artifact) && SingleComponent(Toml)
    ensures StagedSource(dir, artifact, loads) ==
      Source(false, Find(entries, Toml), Extension(artifact), Find(entries, artifact), loads)
  {
    SplitWithout('/', artifact);
    assert Steps([]) == [] && Location(artifact) == [artifact];
    assert Location(artifact)[..0] + [Toml] == [Toml];
    TopLevelExtracted(entries, dir, artifact);
    TopLevelExtracted(entries, dir, Toml);
  }

  lemma PackedStages(tools: Tools, meta: Meta, bytes: string, key: Option<string>, dir: Dir, loads: bool)
    requires Valid(meta) && SingleComponent(meta.artifact) && KeepsName(tools, meta)
    requires HoldsEntries(dir, PackedFiles(tools, meta, bytes, key))
    ensures StagedSource(dir, meta.artifact, loads) ==
      Source(false, Some(tools.render(meta)), Extension(meta.artifact), Some(bytes), loads)
  {
    var files := PackedFiles(tools, meta, bytes, key);
    PackedExtractable(tools, meta, bytes, key);
    PackedFound(tools, meta, bytes, key);
    ReservedIsComponent(Toml);
    TopLevelStages(files, dir, meta.artifact, loads);
  }

  lemma ReservedIsComponent(name: string)
    requires Reserved(name)
    ensures SingleComponent(name)
  {
    ReservedIsSafe(name);
  }

  lemma PackedFound(tools: Tools, meta: Meta, bytes: string, key: Option<string>)
    requires Valid(meta) && KeepsName(tools, meta)
    ensures Find(PackedFiles(tools, meta, bytes, key), Toml) == Some(tools.render(meta))
    ensures Find(PackedFiles(tools, meta, bytes, key), meta.artifact) == Some(bytes)
  {
    ReservedDiffer();
  }

  // ----- Runs ---------------------------------------------------------------------------------------

  datatype Command =
    | Install(source: Source, id: Option<string>, force: bool)
    | Update(updated: string, source: Source)
    | Remove(removed: string)

  /** What a command answers and leaves behind; removal always succeeds. */
  function Step(tools: Tools, cat: Catalogue, c: Command): (next: Catalogue) {
    match c
    case Install(source, id, force) => Installed(tools, cat, source, id, force).cat
    case Update(id, source) => Installed(tools, cat, source, Some(id), true).cat
    case Remove(id) => Removed(cat, id)
  }

  function Run(tools: Tools, commands: seq<Command>): (cat: Catalogue)
    ensures GoodCatalogue(cat)
  {
    if commands == [] then map[]
    else Step(tools, Run(tools, commands[..|commands| - 1]), commands[|commands| - 1])
  }

  /** The one directory a command can touch, if its checks let it touch any. */
  function Target(tools: Tools, c: Command): Option<string> {
    match c
    case Install(source, id, _) =>
      var checked := CheckSource(tools, source, id);
      if checked.Ok? then Some(Sanitize(checked.value.id)) else None
    case Update(id, source) =>
      if CheckSource(tools, source, Some(id)).Ok? then Some(Sanitize(id)) else None
    case Remove(id) => Some(Sanitize(id))
  }

  predicate Touches(tools: Tools, c: Command, name: string) {
    Target(tools, c) == Some(name) || c == Remove("")
  }

  function Touching(tools: Tools, commands: seq<Command>, name: string): seq<Command> {
    if commands == [] then []
    else
      var before, last := commands[..|commands| - 1], commands[|commands| - 1];
      Touching(tools, before, name) + (if Touches(tools, last, name) then [last] else [])
  }

  lemma StepIsLocal(tools: Tools, a: Catalogue, b: Catalogue, c: Command, name: string)
    requires name != ""
    requires Find(a, name) == Find(b, name)
    ensures Find(Step(tools, a, c), name) == Find(if Touches(tools, c, name) then Step(tools, b, c) else b, name)
  {
  }

  /**
    Directories are independent: what a run leaves in one is what the commands
    naming it, or erasing the whole store, leave in it by themselves.
   */
  lemma {:induction false} DirectoriesAreIndependent(tools: Tools, commands: seq<Command>, name: string)
    requires name != ""
    ensures Find(Run(tools, commands), name) == Find(Run(tools, Touching(tools, commands, name)), name)
  {
    if commands != [] {
      var before, last := commands[..|commands| - 1], commands[|commands| - 1];
      DirectoriesAreIndependent(tools, before, name);
      var kept := Touching(tools, before, name);
      StepIsLocal(tools, Run(tools, before), Run(tools, kept), last, name);
      if Touches(tools, last, name) {
        assert (kept + [last])[..|kept|] == kept;
      } else {
        assert kept + [] == kept;
      }
    }
  }

  /** No command of the run fails while copying. */
  predicate Copies(tools: Tools, commands: seq<Command>) {
    commands == [] ||
    var before, last := commands[..|commands| - 1], commands[|commands| - 1];
    Copies(tools, before) &&
    match last
    case Install(source, id, force) => Installed(tools, Run(tools, before), source, id, force).result != Err(Io)
    case Update(id, source) => Installed(tools, Run(tools, before), source, Some(id), true).result != Err(Io)
    case Remove(_) => true
  }

  /** Without copy failures every directory of the store holds a plugin. */
  lemma {:induction false} NoDirectoryIsEmpty(tools: Tools, commands: seq<Command>, name: string)
    requires Copies(tools, commands) && name in Run(tools, commands)
    ensures Run(tools, commands)[name].Holds?
  {
    var before := commands[..|commands| - 1];
    if name in Run(tools, before) {
      NoDirectoryIsEmpty(tools, before, name);
    }
  }

  /**
    A rejected install leaves the store unchanged, unless the checks and the dry
    run pass and only the copy fails: then it leaves an empty directory, if and
    only if there was none.
   */
  lemma RejectedInstall(tools: Tools, cat: Catalogue, source: Source, id: Option<string>, force: bool)
    requires GoodCatalogue(cat)
    ensures var o := Installed(tools, cat, source, id, force);
      var checked := CheckSource(tools, source, id);
      o.result.Err? ==>
        (o.cat != cat <==>
          && checked.Ok? && source.loads && Sanitize(checked.value.id) !in cat
          && (source.bytes.None? || !SingleComponent(checked.value.artifact)))
  {
    var checked := CheckSource(tools, source, id);
    if checked.Ok? {
      var name := Sanitize(checked.value.id);
      assert name in cat[name := Vacant];
    }
  }

  /** An empty directory left by a failed copy makes the corrected install fail too, unless it is forced. */
  lemma FailedCopyBlocksInstall(tools: Tools, cat: Catalogue, bad: Source, good: Source, id: string)
    requires CheckSource(tools, bad, Some(id)).Ok? && bad.loads && bad.bytes.None? && Sanitize(id) !in cat
    requires CheckSource(tools, good, Some(id)).Ok? && good.loads && good.bytes.Some?
    requires SingleComponent(CheckSource(tools, good, Some(id)).value.artifact)
    ensures var after := Installed(tools, cat, bad, Some(id), false).cat;
      && Installed(tools, cat, good, Some(id), false).result.Ok?
      && Installed(tools, after, good, Some(id), false).result == Err(AlreadyInstalled)
      && Installed(tools, after, good, Some(id), true).result.Ok?
  {
  }

  /** After a successful install an id finds the new plugin exactly if it shares its directory, and otherwise what it found before. */
  lemma LookupAfterInstall(tools: Tools, cat: Catalogue, source: Source, id: Option<string>, force: bool, other: string)
    requires Installed(tools, cat, source, id, force).result.Ok?
    ensures var o := Installed(tools, cat, source, id, force);
      Lookup(o.cat, other) ==
        if Sanitize(other) == Sanitize(o.result.value.id)
        then Some(Holds(o.result.value, source.bytes.value)) else Lookup(cat, other)
  {
  }

  /** Different ids can share a directory, so that updating one replaces the other and removing one removes the other. */
  lemma IdsCollide()
    ensures Sanitize("a/b") == Sanitize("a.b") && "a/b" != "a.b"
  {
    assert Sanitize("a/b") == Sanitize("a.b") == "a_b";
  }
}
