/** Extraction of verified bundles, the verifier of plugin directories, and its agreement with the bundle verifier. */
module PluginDirectory {
  import opened Texts
  import opened Outcomes
  import opened PluginPaths
  import opened PluginBundle

  // ----- Extraction --------------------------------------------------------------------------------

  /** A directory tree: contents by location. */
  type Dir = map<seq<string>, string>

  /** Every entry has left a file, and every file comes from an entry of that location. */
  ghost predicate HoldsEntries(dir: Dir, entries: Entries) {
    && (forall name :: name in entries ==> Location(name) in dir)
    && (forall at :: at in dir ==> ComesFrom(dir[at], at, entries))
  }

  ghost predicate ComesFrom(bytes: string, at: seq<string>, entries: Entries) {
    exists name :: name in entries && Location(name) == at && entries[name] == bytes
  }

  /** Writes verified entries into an empty directory; an entry may overwrite an earlier one of the same location. */
  method Extract(entries: Entries) returns (dir: Dir)
    ensures HoldsEntries(dir, entries)
  {
    dir := map[];
    var rest := entries;
    while rest != map[]
      invariant forall name :: name in rest ==> name in entries && rest[name] == entries[name]
      invariant forall name :: name in entries && name !in rest ==> Location(name) in dir
      invariant forall at :: at in dir ==> ComesFrom(dir[at], at, entries)
      decreases |rest.Keys|
    {
      var name :| name in rest;
      ghost var before := dir;
      dir := dir[Location(name) := rest[name]];
      assert ComesFrom(dir[Location(name)], Location(name), entries);
      forall at | at in dir ensures ComesFrom(dir[at], at, entries) {
        assert at != Location(name) ==> dir[at] == before[at];
      }
      ghost var keys := rest.Keys;
      rest := rest - {name};
      assert rest.Keys == keys - {name};
    }
  }

  // ----- The directory verifier --------------------------------------------------------------------

  function TrimStart(s: string): string {
    if s != "" && IsWhite(s[0]) then TrimStart(s[1..]) else s
  }

  function FirstSpace(s: string): (n: nat)
    ensures n <= |s|
  {
    if s == "" || s[0] == ' ' then 0 else 1 + FirstSpace(s[1..])
  }

  datatype DirLine = Blank | Malformed | Entry(listed: Listed)

  /** The directory verifier skips blank lines and takes a single space between digest and path too. */
  function ParseDirLine(line: string): DirLine {
    if IsBlank(line) then Blank
    else if ParseLine(line).Some? then Entry(ParseLine(line).value)
    else
      var n := FirstSpace(line);
      if n == |line| then Malformed else Entry(Listed(line[..n], TrimStart(line[n + 1..])))
  }

  /** A line that is not in the packer's form: a digest up to the first space, then a path behind white space. */
  lemma SpacedLine(digest: string, gap: string, path: string)
    requires ' ' !in digest && (forall c :: c in gap ==> IsWhite(c)) && path != "" && !IsWhite(path[0])
    requires ParseLine(digest + " " + (gap + path)).None?
    ensures ParseDirLine(digest + " " + (gap + path)) == Entry(Listed(digest, path))
  {
    var line := digest + " " + (gap + path);
    FirstSpaceIs(digest, gap + path);
    assert line[|digest| + 1..] == gap + path && line[..|digest|] == digest;
    TrimmedGap(gap, path);
    assert line[|digest| + 1 + |gap|] == path[0];
  }

  lemma {:induction false} FirstSpaceIs(before: string, after: string)
    requires ' ' !in before
    ensures FirstSpace(before + " " + after) == |before|
    ensures FirstSpace(before) == |before|
  {
    if before != "" {
      assert (before + " " + after)[1..] == before[1..] + " " + after;
      FirstSpaceIs(before[1..], after);
    }
  }

  lemma {:induction false} TrimmedGap(gap: string, path: string)
    requires (forall c :: c in gap ==> IsWhite(c)) && path != "" && !IsWhite(path[0])
    ensures TrimStart(gap + path) == path
  {
    if gap != "" {
      assert IsWhite(gap[0]) && (gap + path)[1..] == gap[1..] + path;
      TrimmedGap(gap[1..], path);
    } else {
      assert gap + path == path;
    }
  }

  function ParseDirLines(lines: seq<string>): seq<DirLine> {
    seq(|lines|, i requires 0 <= i < |lines| => ParseDirLine(lines[i]))
  }

  /** The listed file is in the directory with the listed digest. */
  predicate DirMatches(tools: Tools, dir: Dir, l: Listed) {
    SafePath(l.path) && NamesFile(l.path) && Location(l.path) in dir && l.digest == tools.digest(dir[Location(l.path)])
  }

  predicate DirLineHolds(tools: Tools, dir: Dir, line: DirLine) {
    line.Blank? || (line.Entry? && DirMatches(tools, dir, line.listed))
  }

  predicate DirCovers(lines: seq<DirLine>, path: string) {
    exists i :: 0 <= i < |lines| && lines[i].Entry? && lines[i].listed.path == path
  }

  predicate DirManifestHolds(tools: Tools, dir: Dir, artifact: string, lines: seq<DirLine>) {
    && (forall i :: 0 <= i < |lines| ==> DirLineHolds(tools, dir, lines[i]))
    && DirCovers(lines, Toml) && DirCovers(lines, artifact)
  }

  /** Something exists at the location: a file, or a directory with a file in it. */
  predicate Present(dir: Dir, at: seq<string>) {
    exists k :: k in dir && at <= k
  }

  /** Signature and key come together, both are files, and the key checks the signature. */
  predicate DirSignatureAccepted(tools: Tools, dir: Dir, manifest: string) {
    && Present(dir, [SignatureName]) == Present(dir, [KeyName])
    && (Present(dir, [SignatureName]) ==>
          && [SignatureName] in dir && [KeyName] in dir
          && SignatureHolds(tools, manifest, dir[[SignatureName]], dir[[KeyName]]))
  }

  ghost predicate DirAccepts(tools: Tools, dir: Dir, artifact: string, signed: bool) {
    && [ManifestName] in dir
    && DirManifestHolds(tools, dir, artifact, ParseDirLines(Lines(dir[[ManifestName]])))
    && (signed <==> Present(dir, [SignatureName]))
    && DirSignatureAccepted(tools, dir, dir[[ManifestName]])
  }

  method CheckDirLines(tools: Tools, dir: Dir, lines: seq<DirLine>) returns (r: Option<set<string>>)
    ensures r.Some? <==> forall i :: 0 <= i < |lines| ==> DirLineHolds(tools, dir, lines[i])
    ensures r.Some? ==> forall path :: path in r.value <==> DirCovers(lines, path)
  {
    var covered: set<string> := {};
    for i := 0 to |lines|
      invariant forall j :: 0 <= j < i ==> DirLineHolds(tools, dir, lines[j])
      invariant forall path :: path in covered <==> DirCovers(lines[..i], path)
    {
      DirCoversNext(lines, i);
      if lines[i].Blank? {
        continue;
      }
      if lines[i].Malformed? || !DirMatches(tools, dir, lines[i].listed) {
        return None;
      }
      covered := covered + {lines[i].listed.path};
    }
    assert lines[..|lines|] == lines;
    return Some(covered);
  }

  lemma DirCoversNext(lines: seq<DirLine>, i: nat)
    requires i < |lines|
    ensures forall path :: DirCovers(lines[..i + 1], path) <==>
      DirCovers(lines[..i], path) || (lines[i].Entry? && lines[i].listed.path == path)
  {
    var before, after := lines[..i], lines[..i + 1];
    forall path
      ensures DirCovers(after, path) <==> DirCovers(before, path) || (lines[i].Entry? && lines[i].listed.path == path)
    {
      if DirCovers(before, path) {
        var j :| 0 <= j < i && before[j].Entry? && before[j].listed.path == path;
        assert after[j] == before[j];
      }
      assert after[i] == lines[i];
      if DirCovers(after, path) {
        var j :| 0 <= j < i + 1 && after[j].Entry? && after[j].listed.path == path;
        assert j < i ==> before[j] == after[j];
      }
    }
  }

  method VerifyDirManifest(tools: Tools, dir: Dir, artifact: string) returns (r: Option<bool>)
    ensures r.Some? <==> exists signed :: DirAccepts(tools, dir, artifact, signed)
    ensures r.Some? ==> DirAccepts(tools, dir, artifact, r.value)
  {
    if [ManifestName] !in dir {
      return None;
    }
    var manifest := dir[[ManifestName]];
    var lines := ParseDirLines(Lines(manifest));
    var covered := CheckDirLines(tools, dir, lines);
    if covered.None? || Toml !in covered.value || artifact !in covered.value {
      return None;
    }
    assert DirManifestHolds(tools, dir, artifact, lines);
    var accepted, signed := CheckDirSignature(tools, dir, manifest);
    if !accepted {
      return None;
    }
    assert DirAccepts(tools, dir, artifact, signed);
    return Some(signed);
  }

  method CheckDirSignature(tools: Tools, dir: Dir, manifest: string) returns (accepted: bool, signed: bool)
    ensures accepted <==> DirSignatureAccepted(tools, dir, manifest)
    ensures signed <==> Present(dir, [SignatureName])
  {
    var signature, key := [SignatureName], [KeyName];
    signed := Present(dir, signature);
    if signed != Present(dir, key) {
      return false, signed;
    }
    if signed && (signature !in dir || key !in dir) {
      return false, signed;
    }
    accepted := signed ==> SignatureHolds(tools, manifest, dir[signature], dir[key]);
  }

  // ----- Agreement ------------------------------------------------------------------------------------

  lemma GoodLineIsEntry(line: string)
    requires GoodLine(ParseLine(line))
    ensures ParseDirLine(line) == Entry(ParseLine(line).value)
  {
    var d := ParseLine(line).value.digest;
    assert line[0] == d[0] && IsHex(d[0]);
  }

  /** A good manifest says the same to both verifiers. */
  lemma SameLines(lines: seq<string>)
    requires GoodListing(ParseLines(lines))
    ensures forall i :: 0 <= i < |lines| ==>
      ParseLines(lines)[i].Some? && ParseDirLines(lines)[i] == Entry(ParseLines(lines)[i].value)
  {
    var listing, entries := ParseLines(lines), ParseDirLines(lines);
    forall i | 0 <= i < |lines| ensures listing[i].Some? && entries[i] == Entry(listing[i].value) {
      assert GoodLine(listing[i]);
      GoodLineIsEntry(lines[i]);
    }
  }

  lemma SameCover(listing: Listing, lines: seq<DirLine>, path: string)
    requires |listing| == |lines| && Lists(listing, path)
    requires forall i :: 0 <= i < |lines| ==> listing[i].Some? && lines[i] == Entry(listing[i].value)
    ensures DirCovers(lines, path)
  {
    var i :| 0 <= i < |listing| && listing[i].Some? && listing[i].value.path == path;
    assert lines[i].listed.path == path;
  }

  /** Two spellings of one location carry contents of one digest. */
  ghost predicate SpellingsAgree(tools: Tools, entries: Entries) {
    forall x, y :: x in entries && y in entries && Location(x) == Location(y) ==>
      tools.digest(entries[x]) == tools.digest(entries[y])
  }

  /** Files at the top of the tree are extracted as they are. */
  lemma TopLevelExtracted(entries: Entries, dir: Dir, name: string)
    requires HoldsEntries(dir, entries) && Creatable(entries) && SingleComponent(name)
    ensures [name] in dir <==> name in entries
    ensures name in entries ==> dir[[name]] == entries[name]
  {
    forall path | path in entries ensures Location(path) == [name] <==> path == name {
      TopLevelNameIsUnique(name, path);
    }
    if [name] in dir {
      assert ComesFrom(dir[[name]], [name], entries);
    }
    if name in entries {
      assert Location(name) in dir;
    }
  }

  /** The listed digests hold of the extracted files if and only if spellings agree. */
  lemma ListedFilesExtracted(tools: Tools, entries: Entries, dir: Dir, listing: Listing)
    requires HoldsEntries(dir, entries) && Creatable(entries) && GoodListing(listing)
    requires forall i :: 0 <= i < |listing| ==> Matches(tools, entries, listing[i].value)
    requires forall name :: name in entries ==> Lists(listing, name) || OutsideManifest(name)
    ensures (forall i :: 0 <= i < |listing| ==> DirMatches(tools, dir, listing[i].value)) <==> SpellingsAgree(tools, entries)
  {
    if SpellingsAgree(tools, entries) {
      forall i | 0 <= i < |listing| ensures DirMatches(tools, dir, listing[i].value) {
        var l := listing[i].value;
        assert Matches(tools, entries, l) && GoodLine(listing[i]);
        assert ComesFrom(dir[Location(l.path)], Location(l.path), entries);
      }
    }
    if forall i :: 0 <= i < |listing| ==> DirMatches(tools, dir, listing[i].value) {
      forall name | name in entries ensures
        Location(name) in dir && tools.digest(dir[Location(name)]) == tools.digest(entries[name])
      {
        ExtractedDigest(tools, entries, dir, listing, name);
      }
    }
  }

  lemma ExtractedDigest(tools: Tools, entries: Entries, dir: Dir, listing: Listing, name: string)
    requires HoldsEntries(dir, entries) && Creatable(entries) && name in entries
    requires forall i :: 0 <= i < |listing| && listing[i].Some? ==>
      Matches(tools, entries, listing[i].value) && DirMatches(tools, dir, listing[i].value)
    requires Lists(listing, name) || Reserved(name)
    ensures Location(name) in dir && tools.digest(dir[Location(name)]) == tools.digest(entries[name])
  {
    if Lists(listing, name) {
      var i :| 0 <= i < |listing| && listing[i].Some? && listing[i].value.path == name;
      assert Matches(tools, entries, listing[i].value) && DirMatches(tools, dir, listing[i].value);
    } else {
      ReservedIsSafe(name);
      TopLevelNameIsUnique(name, name);
      TopLevelExtracted(entries, dir, name);
    }
  }

  /** An entry lies at the given top-level name or beneath it. */
  predicate Uses(entries: Entries, name: string) {
    exists path :: path in entries && [name] <= Location(path)
  }

  lemma PresentIffUsed(entries: Entries, dir: Dir, name: string)
    requires HoldsEntries(dir, entries)
    ensures Present(dir, [name]) <==> Uses(entries, name)
  {
    if Present(dir, [name]) {
      var k :| k in dir && [name] <= k;
      assert ComesFrom(dir[k], k, entries);
    }
    if Uses(entries, name) {
      var path :| path in entries && [name] <= Location(path);
      assert Location(path) in dir;
    }
  }

  /**
    The two verifiers agree on an accepted bundle extracted into an empty
    directory: the directory verifier accepts it, with the same signed flag, if
    and only if the bundle is signed or has no entry at or beneath the names of
    the signature and the key, and carries no two spellings of one file with
    different digests.
   */
  lemma VerifiersAgree(tools: Tools, entries: Entries, trusted: Option<string>, meta: Meta, signed: bool, dir: Dir, s: bool)
    requires Accepts(tools, entries, trusted, meta, signed)
    requires HoldsEntries(dir, entries) && Creatable(entries)
    ensures DirAccepts(tools, dir, meta.artifact, s) <==>
      && s == signed && SpellingsAgree(tools, entries)
      && (signed || (!Uses(entries, SignatureName) && !Uses(entries, KeyName)))
  {
    ReservedIsSafe(ManifestName);
    TopLevelExtracted(entries, dir, ManifestName);
    SignaturesAgree(tools, entries, dir, entries[ManifestName], trusted);
    SameManifest(tools, entries, dir, meta.artifact, Lines(entries[ManifestName]));
  }

  lemma SameManifest(tools: Tools, entries: Entries, dir: Dir, artifact: string, lines: seq<string>)
    requires HoldsEntries(dir, entries) && Creatable(entries)
    requires ManifestHolds(tools, entries, artifact, ParseLines(lines))
    ensures DirManifestHolds(tools, dir, artifact, ParseDirLines(lines)) <==> SpellingsAgree(tools, entries)
  {
    SameLines(lines);
    ManifestsAgree(tools, entries, dir, artifact, ParseLines(lines), ParseDirLines(lines));
  }

  lemma SignaturesAgree(tools: Tools, entries: Entries, dir: Dir, manifest: string, trusted: Option<string>)
    requires SignatureAccepted(tools, manifest, Find(entries, SignatureName), Find(entries, KeyName), trusted)
    requires HoldsEntries(dir, entries) && Creatable(entries)
    ensures SignatureName in entries ==> Present(dir, [SignatureName])
    ensures DirSignatureAccepted(tools, dir, manifest) <==>
      SignatureName in entries || (!Uses(entries, SignatureName) && !Uses(entries, KeyName))
  {
    ReservedIsSafe(SignatureName);
    ReservedIsSafe(KeyName);
    TopLevelExtracted(entries, dir, SignatureName);
    TopLevelExtracted(entries, dir, KeyName);
    PresentIffUsed(entries, dir, SignatureName);
    PresentIffUsed(entries, dir, KeyName);
    if SignatureName in entries {
      assert [SignatureName] <= [SignatureName] && [KeyName] <= [KeyName];
    }
  }

  lemma ManifestsAgree(
    tools: Tools, entries: Entries, dir: Dir, artifact: string, listing: Listing, lines: seq<DirLine>)
    requires HoldsEntries(dir, entries) && Creatable(entries)
    requires ManifestHolds(tools, entries, artifact, listing)
    requires |listing| == |lines|
    requires forall i :: 0 <= i < |lines| ==> listing[i].Some? && lines[i] == Entry(listing[i].value)
    ensures DirManifestHolds(tools, dir, artifact, lines) <==> SpellingsAgree(tools, entries)
  {
    ListedFilesExtracted(tools, entries, dir, listing);
    SameChecks(tools, dir, listing, lines);
    SameCover(listing, lines, Toml);
    SameCover(listing, lines, artifact);
  }

  lemma SameChecks(tools: Tools, dir: Dir, listing: Listing, lines: seq<DirLine>)
    requires |listing| == |lines|
    requires forall i :: 0 <= i < |lines| ==> listing[i].Some? && lines[i] == Entry(listing[i].value)
    ensures (forall i :: 0 <= i < |lines| ==> DirLineHolds(tools, dir, lines[i])) <==>
            (forall i :: 0 <= i < |listing| ==> DirMatches(tools, dir, listing[i].value))
  {
    if forall i :: 0 <= i < |lines| ==> DirLineHolds(tools, dir, lines[i]) {
      forall i | 0 <= i < |listing| ensures DirMatches(tools, dir, listing[i].value) {
        assert DirLineHolds(tools, dir, lines[i]);
      }
    }
  }
}
