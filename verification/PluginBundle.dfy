/** The `.sdktplugin` bundle format and the verifier of packed bundles. */
module PluginBundle {
  import opened Texts
  import opened Outcomes
  import opened PluginPaths

  /** Plugin metadata; `about` stands for the fields no check looks at. */
  datatype Meta = Meta(id: string, kind: string, artifact: string, abiMajor: nat, about: string)

  /**
    Everything the format takes from elsewhere: the metadata printer and parser,
    the digest, the signature scheme, and how the archiver spells the name of an
    entry. File contents are strings of bytes.
   */
  datatype Tools = Tools(
    render: Meta -> string,
    parse: string -> Option<Meta>,
    digest: string -> string,
    sign: (string, string) -> string,
    publicKey: string -> string,
    validSignature: string -> bool,
    validKey: string -> bool,
    checks: (string, string, string) -> bool,
    respell: string -> string)

  predicate IsHex(c: char) {
    '0' <= c <= '9' || 'a' <= c <= 'f' || 'A' <= c <= 'F'
  }

  lemma HexDigits(c: char)
    ensures IsHex(c) <==> c in "0123456789abcdefABCDEF"
  {
    var all := "0123456789abcdefABCDEF";
    if '0' <= c <= '9' {
      assert all[(c - '0') as int] == c;
    } else if 'a' <= c <= 'f' {
      assert all[10 + (c - 'a') as int] == c;
    } else if 'A' <= c <= 'F' {
      assert all[16 + (c - 'A') as int] == c;
    }
  }

  predicate IsDigest(d: string) {
    |d| == 64 && forall i :: 0 <= i < 64 ==> IsHex(d[i])
  }

  /** Printing then parsing gives the metadata back, digests are 64 hexadecimal digits, made signatures check, and plain names stay. */
  ghost predicate Sound(tools: Tools) {
    && (forall m :: tools.parse(tools.render(m)) == Some(m))
    && (forall b :: IsDigest(tools.digest(b)))
    && (forall k, m :: tools.validSignature(tools.sign(k, m)))
    && (forall k :: tools.validKey(tools.publicKey(k)))
    && (forall k, m :: tools.checks(tools.publicKey(k), m, tools.sign(k, m)))
    && (forall name :: SingleComponent(name) ==> tools.respell(name) == name)
  }

  const Toml := "plugin.toml"
  const ManifestName := "manifest.sha256"
  const SignatureName := "signature.ed25519"
  const KeyName := "public_key.ed25519"

  predicate Reserved(name: string) {
    name == Toml || name == ManifestName || name == SignatureName || name == KeyName
  }

  // ----- Manifest lines ----------------------------------------------------------------

  /** A line without the carriage return of a CR LF ending. */
  function ChopReturn(line: string): string {
    if line != "" && line[|line| - 1] == '\r' then line[..|line| - 1] else line
  }

  function UntilNewline(s: string): (n: nat)
    ensures n <= |s| && '\n' !in s[..n] && (n < |s| ==> s[n] == '\n')
  {
    if s == "" || s[0] == '\n' then 0
    else
      var n := 1 + UntilNewline(s[1..]);
      assert s[..n] == [s[0]] + s[1..][..n - 1];
      n
  }

  /** The lines of a text: a final line feed ends the last line rather than starting another. */
  function Lines(text: string): seq<string>
    decreases |text|
  {
    if text == "" then []
    else
      var n := UntilNewline(text);
      if n == |text| then [text] else [ChopReturn(text[..n])] + Lines(text[n + 1..])
  }

  /** The position of the first two spaces in a row. */
  function TwoSpaces(line: string): (n: Option<nat>)
    ensures n.Some? ==> n.value + 2 <= |line|
  {
    if |line| < 2 then None
    else if line[0] == ' ' && line[1] == ' ' then Some(0)
    else
      var n := TwoSpaces(line[1..]);
      if n.None? then None else Some(n.value + 1)
  }

  datatype Listed = Listed(digest: string, path: string)

  function ParseLine(line: string): Option<Listed> {
    var n := TwoSpaces(line);
    if n.None? then None else Some(Listed(line[..n.value], line[n.value + 2..]))
  }

  /** What the lines of a manifest say, one by one. */
  type Listing = seq<Option<Listed>>

  function ParseLines(lines: seq<string>): Listing {
    seq(|lines|, i requires 0 <= i < |lines| => ParseLine(lines[i]))
  }

  predicate GoodLine(l: Option<Listed>) {
    l.Some? && IsDigest(l.value.digest) && SafePath(l.value.path)
  }

  function PrintLine(l: Listed): string {
    l.digest + "  " + l.path + "\n"
  }

  lemma {:induction false} FirstTwoSpaces(d: string, rest: string)
    requires forall i :: 0 <= i < |d| ==> d[i] != ' '
    ensures TwoSpaces(d + "  " + rest) == Some(|d|)
  {
    var line := d + "  " + rest;
    if d != "" {
      assert line[1..] == d[1..] + "  " + rest;
      FirstTwoSpaces(d[1..], rest);
    }
  }

  lemma ParsePrinted(l: Listed)
    requires IsDigest(l.digest)
    ensures ParseLine(l.digest + "  " + l.path) == Some(l)
  {
    assert forall i :: 0 <= i < |l.digest| ==> IsHex(l.digest[i]);
    FirstTwoSpaces(l.digest, l.path);
    var line := l.digest + "  " + l.path;
    assert line[..|l.digest|] == l.digest && line[|l.digest| + 2..] == l.path;
  }

  /** A name that survives being written on a line of its own. */
  predicate OneLine(name: string) {
    '\n' !in name && (name == "" || name[|name| - 1] != '\r')
  }

  lemma {:induction false} UntilNewlineAt(a: string, rest: string)
    requires '\n' !in a
    ensures UntilNewline(a + "\n" + rest) == |a|
  {
    var s := a + "\n" + rest;
    if a != "" {
      assert s[1..] == a[1..] + "\n" + rest;
      UntilNewlineAt(a[1..], rest);
    }
  }

  /** A printed line reads back as itself, except for a carriage return at its end. */
  lemma LinesOfPrinted(l: Listed, rest: string)
    requires IsDigest(l.digest) && '\n' !in l.path
    ensures Lines(PrintLine(l) + rest) == [ChopReturn(l.digest + "  " + l.path)] + Lines(rest)
  {
    var line := l.digest + "  " + l.path;
    assert forall i :: 0 <= i < |l.digest| ==> IsHex(l.digest[i]);
    assert '\n' !in line;
    UntilNewlineAt(line, rest);
    var text := PrintLine(l) + rest;
    assert text == line + "\n" + rest;
    assert text[..|line|] == line && text[|line| + 1..] == rest;
  }

  lemma ParseChopped(l: Listed)
    requires IsDigest(l.digest) && l.path != ""
    ensures ParseLine(ChopReturn(l.digest + "  " + l.path)) == Some(Listed(l.digest, ChopReturn(l.path)))
  {
    var line := l.digest + "  " + l.path;
    assert line[|line| - 1] == l.path[|l.path| - 1];
    if l.path[|l.path| - 1] == '\r' {
      assert ChopReturn(line) == l.digest + "  " + l.path[..|l.path| - 1];
    }
    ParsePrinted(Listed(l.digest, ChopReturn(l.path)));
  }

  /** No line of a text that ends with a line feed contains one. */
  lemma {:induction false} LinesFit(text: string, line: string)
    requires text == "" || text[|text| - 1] == '\n'
    requires line in Lines(text)
    ensures '\n' !in line
    decreases |text|
  {
    var n := UntilNewline(text);
    var rest := text[n + 1..];
    if line in Lines(rest) {
      LinesFit(rest, line);
    } else {
      assert line == ChopReturn(text[..n]);
    }
  }

  // ----- Metadata -----------------------------------------------------------------------

  const ABI_MAJOR := 1

  predicate ValidBasic(meta: Meta) {
    && !IsBlank(meta.id)
    && (meta.kind == "native" || meta.kind == "wasm")
    && !IsBlank(meta.artifact) && SafePath(meta.artifact) && !Reserved(meta.artifact)
  }

  predicate Valid(meta: Meta) {
    ValidBasic(meta) && meta.abiMajor == ABI_MAJOR
  }

  /** Which metadata a host accepts. */
  lemma ValidMeans(meta: Meta)
    ensures Valid(meta) <==>
      && (exists c :: c in meta.id && !IsWhite(c)) && (exists c :: c in meta.artifact && !IsWhite(c))
      && meta.kind in {"native", "wasm"} && meta.abiMajor == 1 && SafePath(meta.artifact)
      && meta.artifact !in {Toml, ManifestName, SignatureName, KeyName}
  {
    BlankMeans(meta.id);
    BlankMeans(meta.artifact);
  }

  lemma ReservedIsSafe(name: string)
    requires Reserved(name)
    ensures SingleComponent(name) && SafePath(name) && OneLine(name) && ChopReturn(name) == name
  {
    assert name[0] != '.' && name[|name| - 1] != '\r';
    assert '/' !in name && '\n' !in name;
    SingleComponentIsSafe(name);
  }

  lemma ReservedDiffer()
    ensures Toml != ManifestName && Toml != SignatureName && Toml != KeyName
    ensures ManifestName != SignatureName && ManifestName != KeyName && SignatureName != KeyName
  {
    assert Toml[0] == 'p' && Toml[1] == 'l' && KeyName[0] == 'p' && KeyName[1] == 'u';
    assert ManifestName[0] == 'm' && SignatureName[0] == 's';
  }

  // ----- What a verified bundle looks like -------------------------------------------------

  /** Files by name. */
  type Entries = map<string, string>

  datatype ArchiveEntry = ArchiveEntry(name: string, isFile: bool, bytes: string)

  type Archive = seq<ArchiveEntry>

  function EntriesOf(archive: Archive): Entries {
    if archive == [] then map[]
    else EntriesOf(archive[..|archive| - 1])[archive[|archive| - 1].name := archive[|archive| - 1].bytes]
  }

  /** Only files, under safe names, each name once. */
  predicate Readable(archive: Archive) {
    && (forall i :: 0 <= i < |archive| ==> archive[i].isFile && SafePath(archive[i].name))
    && (forall i, j :: 0 <= i < j < |archive| ==> archive[i].name != archive[j].name)
  }

  predicate GoodListing(listing: Listing) {
    && (forall i :: 0 <= i < |listing| ==> GoodLine(listing[i]))
    && (forall i, j :: 0 <= i < j < |listing| ==> listing[i].value.path != listing[j].value.path)
  }

  predicate Lists(listing: Listing, path: string) {
    exists i :: 0 <= i < |listing| && listing[i].Some? && listing[i].value.path == path
  }

  /** The listed file is there and has the digest the line says. */
  predicate Matches(tools: Tools, entries: Entries, l: Listed) {
    l.path in entries && l.digest == tools.digest(entries[l.path])
  }

  predicate SignatureHolds(tools: Tools, manifest: string, signature: string, key: string) {
    tools.validSignature(signature) && tools.validKey(key) && tools.checks(key, manifest, signature)
  }

  function Find<K, V>(files: map<K, V>, k: K): Option<V> {
    if k in files then Some(files[k]) else None
  }

  /** The files of a bundle that its manifest does not list. */
  predicate OutsideManifest(name: string) {
    name == ManifestName || name == SignatureName || name == KeyName
  }

  predicate ManifestHolds(tools: Tools, entries: Entries, artifact: string, listing: Listing) {
    && GoodListing(listing)
    && Lists(listing, Toml) && Lists(listing, artifact)
    && (forall i :: 0 <= i < |listing| ==> Matches(tools, entries, listing[i].value))
    && (forall name :: name in entries ==> Lists(listing, name) || OutsideManifest(name))
  }

  /** A signature, when there is one, needs a valid key that checks it and that the caller trusts. */
  predicate SignatureAccepted(
    tools: Tools, manifest: string, signature: Option<string>, key: Option<string>, trusted: Option<string>)
  {
    signature.Some? ==>
      && key.Some? && SignatureHolds(tools, manifest, signature.value, key.value)
      && (trusted.Some? ==> trusted.value == key.value)
  }

  ghost predicate Accepts(tools: Tools, entries: Entries, trusted: Option<string>, meta: Meta, signed: bool) {
    && Toml in entries && tools.parse(entries[Toml]) == Some(meta) && Valid(meta)
    && ManifestName in entries
    && ManifestHolds(tools, entries, meta.artifact, ParseLines(Lines(entries[ManifestName])))
    && (signed <==> SignatureName in entries)
    && SignatureAccepted(tools, entries[ManifestName], Find(entries, SignatureName), Find(entries, KeyName), trusted)
  }

  // ----- What can be extracted --------------------------------------------------------------

  /** Names an archive may hold and a file system can create. */
  predicate Creatable(entries: Entries) {
    forall name :: name in entries ==> name != "" && SafePath(name) && NamesFile(name)
  }

  /** Every entry can be written, and none where another one needs a directory. */
  predicate Extractable(entries: Entries) {
    Creatable(entries) && forall x, y :: x in entries && y in entries ==> !(Location(x) < Location(y))
  }

  // ----- The bundle verifier -----------------------------------------------------------------

  method ReadArchive(archive: Archive) returns (r: Option<Entries>)
    ensures r.Some? <==> Readable(archive)
    ensures r.Some? ==> r.value == EntriesOf(archive)
  {
    var entries: Entries := map[];
    for i := 0 to |archive|
      invariant Readable(archive[..i]) && entries == EntriesOf(archive[..i])
      invariant forall name :: name in entries <==> exists j :: 0 <= j < i && archive[j].name == name
    {
      assert archive[..i + 1][..i] == archive[..i];
      if !archive[i].isFile || !SafePath(archive[i].name) || archive[i].name in entries {
        return None;
      }
      entries := entries[archive[i].name := archive[i].bytes];
    }
    assert archive[..|archive|] == archive;
    return Some(entries);
  }

  /** The map built from a manifest: the digest each path is listed with. */
  ghost predicate Represents(expected: map<string, string>, listing: Listing) {
    && (forall path :: path in expected <==> Lists(listing, path))
    && (forall i :: 0 <= i < |listing| && listing[i].Some? ==>
          listing[i].value.path in expected && expected[listing[i].value.path] == listing[i].value.digest)
  }

  method ParseManifest(listing: Listing) returns (r: Option<map<string, string>>)
    ensures r.Some? <==> GoodListing(listing)
    ensures r.Some? ==> Represents(r.value, listing)
  {
    var expected: map<string, string> := map[];
    for i := 0 to |listing|
      invariant GoodListing(listing[..i]) && Represents(expected, listing[..i])
    {
      if !GoodLine(listing[i]) {
        return None;
      }
      var listed := listing[i].value;
      if listed.path in expected {
        var j :| 0 <= j < i && listing[..i][j].Some? && listing[..i][j].value.path == listed.path;
        assert listing[j].value.path == listing[i].value.path;
        return None;
      }
      RepresentsNext(expected, listing, i);
      expected := expected[listed.path := listed.digest];
    }
    assert listing[..|listing|] == listing;
    return Some(expected);
  }

  lemma RepresentsNext(expected: map<string, string>, listing: Listing, i: nat)
    requires i < |listing| && GoodListing(listing[..i]) && Represents(expected, listing[..i])
    requires GoodLine(listing[i]) && listing[i].value.path !in expected
    ensures GoodListing(listing[..i + 1])
    ensures Represents(expected[listing[i].value.path := listing[i].value.digest], listing[..i + 1])
  {
    var before, after := listing[..i], listing[..i + 1];
    assert after == before + [listing[i]];
    forall j | 0 <= j < i ensures after[j] == before[j] && before[j].value.path in expected {
      assert Lists(before, before[j].value.path);
    }
    forall path ensures Lists(after, path) <==> Lists(before, path) || path == listing[i].value.path {
      if path == listing[i].value.path {
        assert after[i].value.path == path;
      } else if Lists(before, path) {
        var j :| 0 <= j < i && before[j].Some? && before[j].value.path == path;
        assert after[j] == before[j];
      }
    }
  }

  /** Checks every listed file against its digest, and every file against the list. */
  method CheckFiles(tools: Tools, entries: Entries, expected: map<string, string>) returns (ok: bool)
    ensures ok <==>
      && (forall path :: path in expected ==> path in entries && expected[path] == tools.digest(entries[path]))
      && (forall name :: name in entries ==>
            name in expected || OutsideManifest(name))
  {
    var rest := expected.Keys;
    while rest != {}
      invariant rest <= expected.Keys
      invariant forall path :: path in expected && path !in rest ==>
        path in entries && expected[path] == tools.digest(entries[path])
    {
      var path :| path in rest;
      if path !in entries || expected[path] != tools.digest(entries[path]) {
        return false;
      }
      rest := rest - {path};
    }
    var names := entries.Keys;
    while names != {}
      invariant names <= entries.Keys
      invariant forall name :: name in entries && name !in names ==>
        name in expected || OutsideManifest(name)
    {
      var name :| name in names;
      if name !in expected && !OutsideManifest(name) {
        return false;
      }
      names := names - {name};
    }
    return true;
  }

  datatype Verified = Verified(meta: Meta, signed: bool, files: Entries)

  /** Verifies a bundle and extracts its files; a rejected one, or one that cannot be extracted, yields none. */
  method VerifyBundle(tools: Tools, archive: Archive, trusted: Option<string>) returns (r: Option<Verified>)
    ensures r.Some? <==>
      && Readable(archive) && Extractable(EntriesOf(archive))
      && exists meta, signed :: Accepts(tools, EntriesOf(archive), trusted, meta, signed)
    ensures r.Some? ==>
      r.value.files == EntriesOf(archive) && Accepts(tools, EntriesOf(archive), trusted, r.value.meta, r.value.signed)
    ensures r.Some? && r.value.signed ==>
      var files := r.value.files;
      && SignatureName in files && KeyName in files && ManifestName in files
      && tools.validSignature(files[SignatureName]) && tools.validKey(files[KeyName])
      && tools.checks(files[KeyName], files[ManifestName], files[SignatureName])
      && (trusted.Some? ==> files[KeyName] == trusted.value)
    ensures r.Some? && !r.value.signed ==> SignatureName !in r.value.files
  {
    r := VerifyContents(tools, archive, trusted);
    if r.Some? && !Extractable(r.value.files) {
      return None;
    }
  }

  /** Everything that is checked before anything is extracted. */
  method VerifyContents(tools: Tools, archive: Archive, trusted: Option<string>) returns (r: Option<Verified>)
    ensures r.Some? <==> Readable(archive) && exists meta, signed :: Accepts(tools, EntriesOf(archive), trusted, meta, signed)
    ensures r.Some? ==>
      r.value.files == EntriesOf(archive) && Accepts(tools, EntriesOf(archive), trusted, r.value.meta, r.value.signed)
  {
    var read := ReadArchive(archive);
    if read.None? {
      return None;
    }
    var entries := read.value;
    if Toml !in entries {
      return None;
    }
    var parsed := tools.parse(entries[Toml]);
    if parsed.None? || !Valid(parsed.value) || ManifestName !in entries {
      return None;
    }
    var meta := parsed.value;
    var manifest := entries[ManifestName];
    var ok := CheckManifest(tools, entries, meta.artifact, ParseLines(Lines(manifest)));
    if !ok {
      return None;
    }
    var signature, key := Find(entries, SignatureName), Find(entries, KeyName);
    ok := CheckSignature(tools, manifest, signature, key, trusted);
    if !ok {
      return None;
    }
    assert Accepts(tools, entries, trusted, meta, signature.Some?);
    return Some(Verified(meta, signature.Some?, entries));
  }

  method CheckManifest(tools: Tools, entries: Entries, artifact: string, listing: Listing) returns (ok: bool)
    ensures ok <==> ManifestHolds(tools, entries, artifact, listing)
  {
    var expected := ParseManifest(listing);
    if expected.None? {
      return false;
    }
    ListedMatches(tools, entries, listing, expected.value);
    if Toml !in expected.value || artifact !in expected.value {
      return false;
    }
    ok := CheckFiles(tools, entries, expected.value);
  }

  method CheckSignature(
    tools: Tools, manifest: string, signature: Option<string>, key: Option<string>, trusted: Option<string>)
    returns (ok: bool)
    ensures ok <==> SignatureAccepted(tools, manifest, signature, key, trusted)
  {
    if signature.None? {
      return true;
    }
    if key.None? || (trusted.Some? && trusted.value != key.value) {
      return false;
    }
    ok := SignatureHolds(tools, manifest, signature.value, key.value);
  }

  lemma ListedMatches(tools: Tools, entries: Entries, listing: Listing, expected: map<string, string>)
    requires GoodListing(listing) && Represents(expected, listing)
    ensures (forall i :: 0 <= i < |listing| ==> Matches(tools, entries, listing[i].value)) <==>
            (forall path :: path in expected ==> path in entries && expected[path] == tools.digest(entries[path]))
  {
    if forall i :: 0 <= i < |listing| ==> Matches(tools, entries, listing[i].value) {
      forall path | path in expected ensures path in entries && expected[path] == tools.digest(entries[path]) {
        assert Lists(listing, path);
        var i :| 0 <= i < |listing| && listing[i].Some? && listing[i].value.path == path;
        assert Matches(tools, entries, listing[i].value);
      }
    }
  }

  /**
    Tampering shows: of two bundles with the same manifest, in which a listed file
    has different digests, at most one is accepted.
   */
  lemma TamperingIsSeen(
    tools: Tools, a: Entries, b: Entries, trusted: Option<string>, m: Meta, s: bool, n: Meta, t: bool, name: string)
    requires Accepts(tools, a, trusted, m, s) && ManifestName in b && b[ManifestName] == a[ManifestName]
    requires name in a && name in b && !OutsideManifest(name) && tools.digest(a[name]) != tools.digest(b[name])
    ensures !Accepts(tools, b, trusted, n, t)
  {
    var listing := ParseLines(Lines(a[ManifestName]));
    assert ManifestHolds(tools, a, m.artifact, listing);
    assert Lists(listing, name);
    var i :| 0 <= i < |listing| && listing[i].Some? && listing[i].value.path == name;
    assert Matches(tools, a, listing[i].value);
    assert !Matches(tools, b, listing[i].value);
  }

  lemma AcceptedOnce(tools: Tools, entries: Entries, trusted: Option<string>, m: Meta, s: bool, n: Meta, t: bool)
    requires Accepts(tools, entries, trusted, m, s) && Accepts(tools, entries, trusted, n, t)
    ensures m == n && s == t
  {
    assert Some(m) == Some(n);
  }

  /** What the manifest lists is there, the artifact among it. */
  lemma ListedIsThere(tools: Tools, entries: Entries, artifact: string, listing: Listing)
    requires ManifestHolds(tools, entries, artifact, listing)
    ensures artifact in entries
  {
    var i :| 0 <= i < |listing| && listing[i].Some? && listing[i].value.path == artifact;
    assert Matches(tools, entries, listing[i].value);
  }
}
