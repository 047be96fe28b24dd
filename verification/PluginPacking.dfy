/** The bundle packer, and the round trip through the verifier. */
module PluginPacking {
  import opened Outcomes
  import opened PluginPaths
  import opened PluginBundle
  import StringOrder

  /** The manifest of a bundle: its two files in the order of their names. */
  function ManifestLines(tools: Tools, meta: Meta, bytes: string): (lines: (Listed, Listed))
    ensures !StringOrder.Less(lines.1.path, lines.0.path)
  {
    var toml := Listed(tools.digest(tools.render(meta)), Toml);
    var artifact := Listed(tools.digest(bytes), meta.artifact);
    if StringOrder.Less(meta.artifact, Toml) then StringOrder.LessAsymmetric(meta.artifact, Toml); (artifact, toml)
    else (toml, artifact)
  }

  function ManifestText(tools: Tools, meta: Meta, bytes: string): string {
    var (a, b) := ManifestLines(tools, meta, bytes);
    PrintLine(a) + PrintLine(b)
  }

  /** The archive the packer writes; `kindMatches` says whether the artifact's extension fits the declared kind. */
  function PackBundle(tools: Tools, meta: Meta, bytes: string, kindMatches: bool, key: Option<string>): Option<Archive> {
    if !Valid(meta) || !kindMatches then None
    else
      var manifest := ManifestText(tools, meta, bytes);
      var files := [
        ArchiveEntry(Toml, true, tools.render(meta)),
        ArchiveEntry(ManifestName, true, manifest),
        ArchiveEntry(tools.respell(meta.artifact), true, bytes)];
      if key.None? then Some(files)
      else Some(files + [
        ArchiveEntry(SignatureName, true, tools.sign(key.value, manifest)),
        ArchiveEntry(KeyName, true, tools.publicKey(key.value))])
  }

  /** The files of a packed bundle by the names the archiver gives them. */
  function PackedFiles(tools: Tools, meta: Meta, bytes: string, key: Option<string>): Entries {
    var manifest := ManifestText(tools, meta, bytes);
    var files := map[Toml := tools.render(meta), ManifestName := manifest, tools.respell(meta.artifact) := bytes];
    if key.None? then files
    else files[SignatureName := tools.sign(key.value, manifest)][KeyName := tools.publicKey(key.value)]
  }

  lemma AddedEntry(archive: Archive, e: ArchiveEntry)
    requires Readable(archive) && e.isFile && SafePath(e.name)
    requires forall i :: 0 <= i < |archive| ==> archive[i].name != e.name
    ensures Readable(archive + [e]) && EntriesOf(archive + [e]) == EntriesOf(archive)[e.name := e.bytes]
  {
    var more := archive + [e];
    assert more[..|more| - 1] == archive;
    forall i | 0 <= i < |more| ensures more[i].isFile && SafePath(more[i].name) {
      assert more[i] == if i < |archive| then archive[i] else e;
    }
    forall i, j | 0 <= i < j < |more| ensures more[i].name != more[j].name {
      assert more[i] == archive[i] && more[j] == if j < |archive| then archive[j] else e;
    }
  }

  lemma ThreeEntries(a: ArchiveEntry, b: ArchiveEntry, c: ArchiveEntry)
    requires a.isFile && b.isFile && c.isFile && SafePath(a.name) && SafePath(b.name) && SafePath(c.name)
    requires a.name != b.name && a.name != c.name && b.name != c.name
    ensures Readable([a, b, c])
    ensures EntriesOf([a, b, c]) == map[a.name := a.bytes, b.name := b.bytes, c.name := c.bytes]
  {
    TwoEntries(a, b);
    AddedEntry([a, b], c);
    assert [a, b] + [c] == [a, b, c];
  }

  lemma TwoEntries(a: ArchiveEntry, b: ArchiveEntry)
    requires a.isFile && b.isFile && SafePath(a.name) && SafePath(b.name) && a.name != b.name
    ensures Readable([a, b]) && EntriesOf([a, b]) == map[a.name := a.bytes, b.name := b.bytes]
  {
    OneEntry(a);
    AddedEntry([a], b);
    assert [a] + [b] == [a, b];
  }

  lemma OneEntry(a: ArchiveEntry)
    requires a.isFile && SafePath(a.name)
    ensures Readable([a]) && EntriesOf([a]) == map[a.name := a.bytes]
  {
    assert [a][..0] == [] && EntriesOf([]) == map[];
  }

  lemma TwoMoreEntries(files: Archive, a: ArchiveEntry, b: ArchiveEntry)
    requires Readable(files) && a.isFile && b.isFile && SafePath(a.name) && SafePath(b.name)
    requires a.name != b.name && forall i :: 0 <= i < |files| ==> files[i].name != a.name && files[i].name != b.name
    ensures Readable(files + [a, b])
    ensures EntriesOf(files + [a, b]) == EntriesOf(files)[a.name := a.bytes][b.name := b.bytes]
  {
    AddedEntry(files, a);
    AddedEntry(files + [a], b);
    assert files + [a] + [b] == files + [a, b];
  }

  /** The name in the archive is a safe one that no other entry has. */
  predicate FreshName(name: string) {
    SafePath(name) && !Reserved(name)
  }

  /** A packed archive that can be read holds the files that were packed. */
  lemma PackedReads(tools: Tools, meta: Meta, bytes: string, key: Option<string>)
    requires Valid(meta) && Readable(PackBundle(tools, meta, bytes, true, key).value)
    ensures EntriesOf(PackBundle(tools, meta, bytes, true, key).value) == PackedFiles(tools, meta, bytes, key)
  {
    var archive := PackBundle(tools, meta, bytes, true, key).value;
    assert archive[0].name != archive[1].name && archive[0].name != archive[2].name && archive[1].name != archive[2].name;
    ThreeEntries(archive[0], archive[1], archive[2]);
    var files := [archive[0], archive[1], archive[2]];
    if key.Some? {
      assert archive[3].name != archive[4].name;
      forall i | 0 <= i < 3 ensures files[i].name != archive[3].name && files[i].name != archive[4].name {
        assert files[i] == archive[i];
      }
      TwoMoreEntries(files, archive[3], archive[4]);
      assert archive == files + [archive[3], archive[4]];
    } else {
      assert archive == files;
    }
  }

  lemma PackedIsReadable(tools: Tools, meta: Meta, bytes: string, key: Option<string>)
    requires Valid(meta) && FreshName(tools.respell(meta.artifact))
    ensures Readable(PackBundle(tools, meta, bytes, true, key).value)
  {
    ReservedIsSafe(Toml);
    ReservedIsSafe(ManifestName);
    ReservedIsSafe(SignatureName);
    ReservedIsSafe(KeyName);
    ReservedDiffer();
    var manifest := ManifestText(tools, meta, bytes);
    var toml := ArchiveEntry(Toml, true, tools.render(meta));
    var listed := ArchiveEntry(ManifestName, true, manifest);
    var artifact := ArchiveEntry(tools.respell(meta.artifact), true, bytes);
    ThreeEntries(toml, listed, artifact);
    if key.Some? {
      TwoMoreEntries(
        [toml, listed, artifact],
        ArchiveEntry(SignatureName, true, tools.sign(key.value, manifest)),
        ArchiveEntry(KeyName, true, tools.publicKey(key.value)));
    }
  }

  lemma PrintedListing(a: Listed, b: Listed)
    requires IsDigest(a.digest) && a.path != "" && '\n' !in a.path
    requires IsDigest(b.digest) && b.path != "" && '\n' !in b.path
    ensures ParseLines(Lines(PrintLine(a) + PrintLine(b))) ==
      [Some(Listed(a.digest, ChopReturn(a.path))), Some(Listed(b.digest, ChopReturn(b.path)))]
  {
    LinesOfPrinted(a, PrintLine(b));
    LinesOfPrinted(b, "");
    assert PrintLine(b) + "" == PrintLine(b);
    ParseChopped(a);
    ParseChopped(b);
  }

  /** A manifest of two good lines with different paths. */
  lemma TwoLineManifest(tools: Tools, entries: Entries, artifact: string, a: Listed, b: Listed)
    requires IsDigest(a.digest) && SafePath(a.path) && Matches(tools, entries, a)
    requires IsDigest(b.digest) && SafePath(b.path) && Matches(tools, entries, b)
    requires a.path != b.path && (a.path == Toml || b.path == Toml) && (a.path == artifact || b.path == artifact)
    requires forall name :: name in entries ==> name == a.path || name == b.path || OutsideManifest(name)
    ensures ManifestHolds(tools, entries, artifact, [Some(a), Some(b)])
  {
    var listing: Listing := [Some(a), Some(b)];
    assert listing[0].value == a && listing[1].value == b;
  }

  lemma PackedListing(tools: Tools, meta: Meta, bytes: string)
    requires Sound(tools) && Valid(meta) && '\n' !in meta.artifact
    ensures var (a, b) := ManifestLines(tools, meta, bytes);
      ParseLines(Lines(ManifestText(tools, meta, bytes))) ==
      [Some(Listed(a.digest, ChopReturn(a.path))), Some(Listed(b.digest, ChopReturn(b.path)))]
  {
    ReservedIsSafe(Toml);
    var (a, b) := ManifestLines(tools, meta, bytes);
    PrintedListing(a, b);
  }

  /** The archiver spells the artifact as the metadata does. */
  predicate KeepsName(tools: Tools, meta: Meta) {
    tools.respell(meta.artifact) == meta.artifact
  }

  lemma PackedManifestHolds(tools: Tools, meta: Meta, bytes: string, key: Option<string>)
    requires Sound(tools) && Valid(meta) && OneLine(meta.artifact) && KeepsName(tools, meta)
    ensures ManifestHolds(tools, PackedFiles(tools, meta, bytes, key), meta.artifact,
                          ParseLines(Lines(ManifestText(tools, meta, bytes))))
  {
    PackedListing(tools, meta, bytes);
    PackedMatches(tools, meta, bytes, key);
    ManifestLinesFit(tools, meta, bytes);
    var (a, b) := ManifestLines(tools, meta, bytes);
    TwoLineManifest(tools, PackedFiles(tools, meta, bytes, key), meta.artifact, a, b);
  }

  /** Both lines of a packed manifest are well formed, and their paths survive a line of their own. */
  lemma ManifestLinesFit(tools: Tools, meta: Meta, bytes: string)
    requires Sound(tools) && Valid(meta) && OneLine(meta.artifact)
    ensures var (a, b) := ManifestLines(tools, meta, bytes);
      && IsDigest(a.digest) && SafePath(a.path) && ChopReturn(a.path) == a.path
      && IsDigest(b.digest) && SafePath(b.path) && ChopReturn(b.path) == b.path
      && a.path != b.path && (a.path == Toml || b.path == Toml) && (a.path == meta.artifact || b.path == meta.artifact)
  {
    ReservedIsSafe(Toml);
  }

  /** What the packer writes under the artifact's own name is accepted, if the name fits on one line. */
  lemma PackedIsAccepted(tools: Tools, meta: Meta, bytes: string, key: Option<string>, trusted: Option<string>)
    requires Sound(tools) && Valid(meta) && OneLine(meta.artifact) && KeepsName(tools, meta)
    requires trusted.None? || (key.Some? && trusted.value == tools.publicKey(key.value))
    ensures Accepts(tools, PackedFiles(tools, meta, bytes, key), trusted, meta, key.Some?)
  {
    PackedManifestHolds(tools, meta, bytes, key);
    PackedContents(tools, meta, bytes, key);
  }

  lemma PackedContents(tools: Tools, meta: Meta, bytes: string, key: Option<string>)
    requires Valid(meta) && KeepsName(tools, meta)
    ensures var files, manifest := PackedFiles(tools, meta, bytes, key), ManifestText(tools, meta, bytes);
      && Find(files, Toml) == Some(tools.render(meta)) && Find(files, ManifestName) == Some(manifest)
      && Find(files, SignatureName) == (if key.Some? then Some(tools.sign(key.value, manifest)) else None)
      && Find(files, KeyName) == (if key.Some? then Some(tools.publicKey(key.value)) else None)
  {
    ReservedDiffer();
  }

  lemma PackedMatches(tools: Tools, meta: Meta, bytes: string, key: Option<string>)
    requires Sound(tools) && Valid(meta) && KeepsName(tools, meta)
    ensures var (a, b) := ManifestLines(tools, meta, bytes);
      var files := PackedFiles(tools, meta, bytes, key);
      && Matches(tools, files, a) && Matches(tools, files, b)
      && (forall name :: name in files ==> name == a.path || name == b.path || OutsideManifest(name))
  {
    ReservedDiffer();
  }

  /** An artifact whose name does not fit on one line is never listed under its name. */
  lemma OddNameIsNotListed(tools: Tools, meta: Meta, bytes: string)
    requires Sound(tools) && Valid(meta) && !OneLine(meta.artifact)
    ensures !Lists(ParseLines(Lines(ManifestText(tools, meta, bytes))), meta.artifact)
  {
    var text := ManifestText(tools, meta, bytes);
    var listing := ParseLines(Lines(text));
    if '\n' in meta.artifact {
      assert text[|text| - 1] == '\n';
      forall i | 0 <= i < |listing| && listing[i].Some? ensures listing[i].value.path != meta.artifact {
        LinesFit(text, Lines(text)[i]);
      }
    } else {
      PackedListing(tools, meta, bytes);
      assert forall path :: |ChopReturn(path)| <= |path|;
      ReservedIsSafe(Toml);
      assert |ChopReturn(meta.artifact)| < |meta.artifact|;
    }
  }

  lemma OddNameIsRejected(tools: Tools, meta: Meta, bytes: string, key: Option<string>, trusted: Option<string>, m: Meta, signed: bool)
    requires Sound(tools) && Valid(meta) && !OneLine(meta.artifact)
    requires tools.respell(meta.artifact) != Toml && tools.respell(meta.artifact) != ManifestName
    ensures !Accepts(tools, PackedFiles(tools, meta, bytes, key), trusted, m, signed)
  {
    OddNameIsNotListed(tools, meta, bytes);
    var files := PackedFiles(tools, meta, bytes, key);
    ReservedDiffer();
    assert files[Toml] == tools.render(meta) && files[ManifestName] == ManifestText(tools, meta, bytes);
    assert tools.parse(files[Toml]) == Some(meta);
  }

  /** An artifact the archiver respells is listed under one name and packed under another. */
  lemma RespelledNameIsRejected(tools: Tools, meta: Meta, bytes: string, key: Option<string>, trusted: Option<string>, m: Meta, signed: bool)
    requires Sound(tools) && Valid(meta) && !KeepsName(tools, meta) && tools.respell(meta.artifact) != Toml
    ensures !Accepts(tools, PackedFiles(tools, meta, bytes, key), trusted, m, signed)
  {
    var files := PackedFiles(tools, meta, bytes, key);
    ReservedDiffer();
    assert files[Toml] == tools.render(meta) && tools.parse(files[Toml]) == Some(meta);
    assert meta.artifact !in files;
    if Accepts(tools, files, trusted, m, signed) {
      ListedIsThere(tools, files, meta.artifact, ParseLines(Lines(files[ManifestName])));
    }
  }

  lemma TopLevelIsCreatable(name: string)
    requires Reserved(name) || SingleComponent(name)
    ensures name != "" && SafePath(name) && NamesFile(name) && Location(name) == [name]
  {
    if Reserved(name) {
      ReservedIsSafe(name);
    }
    SingleComponentIsSafe(name);
    SplitWithout('/', name);
    TopLevelNameIsUnique(name, name);
  }

  lemma PackedExtractable(tools: Tools, meta: Meta, bytes: string, key: Option<string>)
    requires Valid(meta) && SingleComponent(meta.artifact) && KeepsName(tools, meta)
    ensures Extractable(PackedFiles(tools, meta, bytes, key))
  {
    var files := PackedFiles(tools, meta, bytes, key);
    forall name | name in files ensures name != "" && SafePath(name) && NamesFile(name) && Location(name) == [name] {
      assert Reserved(name) || name == meta.artifact;
      TopLevelIsCreatable(name);
    }
  }

  /**
    Pack, then verify: an artifact comes through if and only if its name fits on
    one line, the archiver leaves it as it is, and the files can be extracted side
    by side; for a name of one component, if and only if it fits on one line.
   */
  method PackThenVerify(tools: Tools, meta: Meta, bytes: string, key: Option<string>) returns (r: Option<Verified>)
    requires Sound(tools) && Valid(meta)
    ensures r.Some? <==>
      OneLine(meta.artifact) && KeepsName(tools, meta) && Extractable(PackedFiles(tools, meta, bytes, key))
    ensures SingleComponent(meta.artifact) ==> (r.Some? <==> OneLine(meta.artifact))
    ensures r.Some? ==> r.value == Verified(meta, key.Some?, PackedFiles(tools, meta, bytes, key))
  {
    var archive := PackBundle(tools, meta, bytes, true, key).value;
    r := VerifyBundle(tools, archive, None);
    if SingleComponent(meta.artifact) {
      PackedExtractable(tools, meta, bytes, key);
    }
    if OneLine(meta.artifact) && KeepsName(tools, meta) {
      PackedComesThrough(tools, meta, bytes, key);
      if r.Some? {
        AcceptedOnce(tools, EntriesOf(archive), None, meta, key.Some?, r.value.meta, r.value.signed);
      }
    } else {
      UnfitNameIsRejected(tools, meta, bytes, key);
    }
  }

  lemma PackedComesThrough(tools: Tools, meta: Meta, bytes: string, key: Option<string>)
    requires Sound(tools) && Valid(meta) && OneLine(meta.artifact) && KeepsName(tools, meta)
    ensures var archive := PackBundle(tools, meta, bytes, true, key).value;
      && Readable(archive) && EntriesOf(archive) == PackedFiles(tools, meta, bytes, key)
      && Accepts(tools, EntriesOf(archive), None, meta, key.Some?)
  {
    PackedIsReadable(tools, meta, bytes, key);
    PackedReads(tools, meta, bytes, key);
    PackedIsAccepted(tools, meta, bytes, key, None);
  }

  lemma UnfitNameIsRejected(tools: Tools, meta: Meta, bytes: string, key: Option<string>)
    requires Sound(tools) && Valid(meta) && !(OneLine(meta.artifact) && KeepsName(tools, meta))
    ensures var archive := PackBundle(tools, meta, bytes, true, key).value;
      Readable(archive) ==> forall m, signed :: !Accepts(tools, EntriesOf(archive), None, m, signed)
  {
    var archive := PackBundle(tools, meta, bytes, true, key).value;
    if Readable(archive) {
      assert archive[0].name != archive[2].name && archive[1].name != archive[2].name;
      PackedReads(tools, meta, bytes, key);
      forall m, signed ensures !Accepts(tools, EntriesOf(archive), None, m, signed) {
        if OneLine(meta.artifact) {
          RespelledNameIsRejected(tools, meta, bytes, key, None, m, signed);
        } else {
          OddNameIsRejected(tools, meta, bytes, key, None, m, signed);
        }
      }
    }
  }
}
