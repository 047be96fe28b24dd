/** Plugin diagnostics: six stages run in order until the first failure. */
module Doctor {
  import opened Texts
  import opened Outcomes
  import opened PluginPaths
  import opened PluginBundle
  import opened PluginDirectory
  import opened PluginStore

  datatype StageName = Metadata | Artifact | Integrity | Compatibility | Load | SelfCheck

  const Pipeline: seq<StageName> := [Metadata, Artifact, Integrity, Compatibility, Load, SelfCheck]

  datatype Stage = Stage(name: StageName, passed: bool)

  // ----- Reports -----------------------------------------------------------------------

  class DoctorReport {
    var healthy: bool
    var stages: seq<Stage>

    constructor ()
      ensures healthy && stages == []
    {
      healthy, stages := true, [];
    }

    method AddStage(name: StageName, passed: bool)
      modifies this
      ensures stages == old(stages) + [Stage(name, passed)]
      ensures healthy == (old(healthy) && passed)
    {
      if !passed {
        healthy := false;
      }
      stages := stages + [Stage(name, passed)];
    }

    /** 0 for a healthy report; otherwise the place of the first failure, counted from 1. */
    method ExitCode() returns (code: nat)
      ensures healthy ==> code == 0
      ensures !healthy && (exists i :: 0 <= i < |stages| && !stages[i].passed) ==>
        && 1 <= code <= |stages| && !stages[code - 1].passed
        && forall i :: 0 <= i < code - 1 ==> stages[i].passed
      ensures !healthy && (forall i :: 0 <= i < |stages| ==> stages[i].passed) ==> code == 1
    {
      if healthy {
        return 0;
      }
      for i := 0 to |stages|
        invariant forall j :: 0 <= j < i ==> stages[j].passed
      {
        if !stages[i].passed {
          return i + 1;
        }
      }
      return 1;
    }

    /** The first `n` stages passed and none has failed. */
    ghost predicate Passed(n: nat)
      reads this
    {
      healthy && stages == Passing(n)
    }

    /** The report of a run with the given stage results. */
    ghost predicate Reports(results: seq<bool>)
      reads this
    {
      healthy == (Leading(results) >= 6) && stages == Diagnosis(Leading(results))
    }
  }

  function Passing(n: nat): seq<Stage> {
    seq(if n < 6 then n else 6, i requires 0 <= i < 6 => Stage(Pipeline[i], true))
  }

  /** The stages of a run whose first `n` checks succeed and whose next one, if any is left, fails. */
  function Diagnosis(n: nat): seq<Stage> {
    if n < 6 then Passing(n) + [Stage(Pipeline[n], false)] else Passing(6)
  }

  /** How many results come before the first failure. */
  function Leading(results: seq<bool>): (n: nat)
    ensures n <= |results| && (forall i :: 0 <= i < n ==> results[i]) && (n < |results| ==> !results[n])
  {
    if results == [] || !results[0] then 0 else 1 + Leading(results[1..])
  }

  predicate IsPrefix<T(==)>(s: seq<T>, t: seq<T>) {
    s <= t
  }

  function Names(stages: seq<Stage>): seq<StageName> {
    seq(|stages|, i requires 0 <= i < |stages| => stages[i].name)
  }

  /**
    Whatever the stages found: the names are a prefix of the pipeline, at most the
    last stage failed, the report is healthy exactly if all six ran and passed, and
    otherwise the exit code is the number of stages run.
   */
  method ReportShape(report: DoctorReport, results: seq<bool>) returns (code: nat)
    requires report.Reports(results)
    ensures 1 <= |report.stages| <= 6 && IsPrefix(Names(report.stages), Pipeline)
    ensures forall i :: 0 <= i < |report.stages| - 1 ==> report.stages[i].passed
    ensures report.healthy <==> |report.stages| == 6 && report.stages[5].passed
    ensures code == if report.healthy then 0 else |report.stages|
  {
    code := report.ExitCode();
    ghost var n := Leading(results);
    assert n < 6 ==> !report.stages[n].passed;
    assert forall i :: 0 <= i < |report.stages| ==> Names(report.stages)[i] == Pipeline[i];
  }

  lemma PassingNext(n: nat)
    requires n < 6
    ensures Passing(n) + [Stage(Pipeline[n], true)] == Passing(n + 1)
  {
  }

  lemma LeadingOf(results: seq<bool>, n: nat)
    requires n <= |results| && (forall i :: 0 <= i < n ==> results[i]) && (n < |results| ==> !results[n])
    ensures Leading(results) == n
  {
  }

  // ----- Stages four to six ------------------------------------------------------------------

  /**
    What the host finds out about the artifact: the ABI major it exports, if it can
    be asked; whether it loads; and the findings of the self-check, unless it panics.
   */
  datatype Host = Host(probe: Option<nat>, loads: bool, findings: Option<seq<string>>)

  const WASM_ABI_MAJOR := 1

  function HostMajor(kind: string): nat {
    if kind == "wasm" then WASM_ABI_MAJOR else ABI_MAJOR
  }

  predicate ReportsTrap(message: string) {
    Contains(message, "wasm plugin trap") || Contains(message, "mutex poisoned")
  }

  predicate SelfChecks(host: Host) {
    host.findings.Some? && forall i :: 0 <= i < |host.findings.value| ==> !ReportsTrap(host.findings.value[i])
  }

  predicate Compatible(meta: Meta, host: Host) {
    meta.abiMajor == HostMajor(meta.kind) && (host.probe.Some? ==> host.probe.value == HostMajor(meta.kind))
  }

  function HostResults(meta: Meta, host: Host): seq<bool> {
    [Compatible(meta, host), (meta.kind == "native" || meta.kind == "wasm") && host.loads, SelfChecks(host)]
  }

  method RunSelfCheck(report: DoctorReport, host: Host)
    requires report.Passed(5)
    modifies report
    ensures report.Reports([true, true, true, true, true, SelfChecks(host)])
  {
    LeadingOf([true, true, true, true, true, SelfChecks(host)], if SelfChecks(host) then 6 else 5);
    PassingNext(5);
    if host.findings.None? {
      report.AddStage(SelfCheck, false);
      return;
    }
    var findings := host.findings.value;
    for i := 0 to |findings|
      invariant report.Passed(5)
      invariant forall j :: 0 <= j < i ==> !ReportsTrap(findings[j])
    {
      if ReportsTrap(findings[i]) {
        report.AddStage(SelfCheck, false);
        return;
      }
    }
    report.AddStage(SelfCheck, true);
  }

  method RunCompatibilityLoadAndCheck(report: DoctorReport, meta: Meta, host: Host)
    requires report.Passed(3)
    modifies report
    ensures report.Reports([true, true, true] + HostResults(meta, host))
  {
    ghost var results := [true, true, true] + HostResults(meta, host);
    var hostMajor := HostMajor(meta.kind);
    if meta.abiMajor != hostMajor {
      LeadingOf(results, 3);
      report.AddStage(Compatibility, false);
      return;
    }
    if host.probe.Some? && host.probe.value != hostMajor {
      LeadingOf(results, 3);
      report.AddStage(Compatibility, false);
      return;
    }
    PassingNext(3);
    report.AddStage(Compatibility, true);
    if meta.kind == "native" || meta.kind == "wasm" {
      if host.loads {
        PassingNext(4);
        report.AddStage(Load, true);
        assert results == [true, true, true, true, true, SelfChecks(host)];
        RunSelfCheck(report, host);
        return;
      }
    }
    LeadingOf(results, 4);
    report.AddStage(Load, false);
  }

  // ----- Bundles --------------------------------------------------------------------------------

  /** The files of an archive as the doctor reads it: other entries are skipped and later files replace earlier ones. */
  function LooseEntries(archive: Archive): Entries {
    if archive == [] then map[]
    else
      var before, last := LooseEntries(archive[..|archive| - 1]), archive[|archive| - 1];
      if last.isFile then before[last.name := last.bytes] else before
  }

  method ReadLoosely(archive: Archive) returns (entries: Entries)
    ensures entries == LooseEntries(archive)
  {
    entries := map[];
    for i := 0 to |archive|
      invariant entries == LooseEntries(archive[..i])
    {
      assert archive[..i + 1][..i] == archive[..i];
      if archive[i].isFile {
        entries := entries[archive[i].name := archive[i].bytes];
      }
    }
    assert archive[..|archive|] == archive;
  }

  lemma {:induction false} LooseIsStrict(archive: Archive)
    requires Readable(archive)
    ensures LooseEntries(archive) == EntriesOf(archive)
  {
    if archive != [] {
      LooseIsStrict(archive[..|archive| - 1]);
    }
  }

  /** The metadata in a text, if it parses and is well formed; its ABI is not looked at. */
  function BasicMeta(tools: Tools, toml: Option<string>): Option<Meta> {
    if toml.None? then None
    else
      var parsed := tools.parse(toml.value);
      if parsed.Some? && ValidBasic(parsed.value) then parsed else None
  }

  /** The extension of the file a path names. */
  function PathExtension(path: string): string {
    var at := Location(path);
    if at == [] then "" else Extension(at[|at| - 1])
  }

  ghost predicate BundleAccepted(tools: Tools, archive: Archive) {
    && Readable(archive) && Extractable(EntriesOf(archive))
    && exists meta, signed :: Accepts(tools, EntriesOf(archive), None, meta, signed)
  }

  /** Stage results for a bundle; a bundle that cannot be read as an archive is `None`. */
  ghost function BundleResults(tools: Tools, bundle: Option<Archive>, host: Host): seq<bool> {
    if bundle.None? then [false]
    else
      var entries := LooseEntries(bundle.value);
      var meta := BasicMeta(tools, Find(entries, Toml));
      if meta.None? then [false]
      else
        [true,
         meta.value.artifact in entries && KindMatches(meta.value.kind, PathExtension(meta.value.artifact)),
         BundleAccepted(tools, bundle.value)] + HostResults(meta.value, host)
  }

  method CheckIntegrity(tools: Tools, archive: Archive) returns (ok: bool)
    ensures ok <==> BundleAccepted(tools, archive)
  {
    var verified := VerifyBundle(tools, archive, None);
    if verified.Some? {
      assert Accepts(tools, EntriesOf(archive), None, verified.value.meta, verified.value.signed);
    } else {
      assert forall meta, signed :: Readable(archive) && Extractable(EntriesOf(archive)) ==>
        !Accepts(tools, EntriesOf(archive), None, meta, signed);
    }
    ok := verified.Some?;
  }

  method RunBundleDoctor(report: DoctorReport, tools: Tools, bundle: Option<Archive>, host: Host)
    requires report.Passed(0)
    modifies report
    ensures report.Reports(BundleResults(tools, bundle, host))
  {
    if bundle.None? {
      report.AddStage(Metadata, false);
      return;
    }
    var entries := ReadLoosely(bundle.value);
    var found := BasicMeta(tools, Find(entries, Toml));
    if found.None? {
      report.AddStage(Metadata, false);
      return;
    }
    PassingNext(0);
    report.AddStage(Metadata, true);
    var meta := found.value;
    var fits := meta.artifact in entries && KindMatches(meta.kind, PathExtension(meta.artifact));
    RunBundleStages(report, tools, bundle.value, meta, fits, host);
  }

  /** The stages after the metadata; `fits` says whether the artifact is there with the right extension. */
  method RunBundleStages(report: DoctorReport, tools: Tools, archive: Archive, meta: Meta, fits: bool, host: Host)
    requires report.Passed(1)
    modifies report
    ensures report.Reports([true, fits, BundleAccepted(tools, archive)] + HostResults(meta, host))
  {
    if !fits {
      LeadingOf([true, fits, BundleAccepted(tools, archive)] + HostResults(meta, host), 1);
      report.AddStage(Artifact, false);
      return;
    }
    PassingNext(1);
    report.AddStage(Artifact, true);
    var intact := CheckIntegrity(tools, archive);
    RunFromIntegrity(report, meta, intact, host);
  }

  method RunFromIntegrity(report: DoctorReport, meta: Meta, intact: bool, host: Host)
    requires report.Passed(2)
    modifies report
    ensures report.Reports([true, true, intact] + HostResults(meta, host))
  {
    if !intact {
      LeadingOf([true, true, intact] + HostResults(meta, host), 2);
      report.AddStage(Integrity, false);
      return;
    }
    PassingNext(2);
    report.AddStage(Integrity, true);
    RunCompatibilityLoadAndCheck(report, meta, host);
  }

  // ----- Directories ---------------------------------------------------------------------------------

  /** Whether a path leads to something: a file, or a directory if it is spelled as one. */
  predicate PathExists(dir: Dir, path: string) {
    if NamesFile(path) then Present(dir, Location(path)) else exists k :: k in dir && Location(path) < k
  }

  /** A directory without a manifest passes; one with a manifest must satisfy it. */
  ghost predicate DirIntegrity(tools: Tools, dir: Dir, artifact: string) {
    Present(dir, [ManifestName]) ==> exists signed :: DirAccepts(tools, dir, artifact, signed)
  }

  ghost function DirectoryResults(tools: Tools, dir: Dir, host: Host): seq<bool> {
    var meta := BasicMeta(tools, Find(dir, [Toml]));
    if meta.None? then [false]
    else
      [true,
       PathExists(dir, meta.value.artifact) && KindMatches(meta.value.kind, PathExtension(meta.value.artifact)),
       DirIntegrity(tools, dir, meta.value.artifact)] + HostResults(meta.value, host)
  }

  method RunDirectoryDoctor(report: DoctorReport, tools: Tools, dir: Dir, host: Host)
    requires report.Passed(0)
    modifies report
    ensures report.Reports(DirectoryResults(tools, dir, host))
  {
    ghost var results := DirectoryResults(tools, dir, host);
    var found := BasicMeta(tools, Find(dir, [Toml]));
    if found.None? {
      report.AddStage(Metadata, false);
      return;
    }
    var meta := found.value;
    PassingNext(0);
    report.AddStage(Metadata, true);
    if !PathExists(dir, meta.artifact) || !KindMatches(meta.kind, PathExtension(meta.artifact)) {
      LeadingOf(results, 1);
      report.AddStage(Artifact, false);
      return;
    }
    PassingNext(1);
    report.AddStage(Artifact, true);
    if Present(dir, [ManifestName]) {
      var verified := VerifyDirManifest(tools, dir, meta.artifact);
      if verified.None? {
        LeadingOf(results, 2);
        report.AddStage(Integrity, false);
        return;
      }
    }
    PassingNext(2);
    report.AddStage(Integrity, true);
    assert results == [true, true, true] + HostResults(meta, host);
    RunCompatibilityLoadAndCheck(report, meta, host);
  }

  /** What a target turns out to be: a file, a directory (given or installed), or nothing. */
  datatype Target = BundleFile(bundle: Option<Archive>) | PluginDir(dir: Dir) | NotFound

  ghost function Results(tools: Tools, target: Target, host: Host): seq<bool> {
    match target
    case BundleFile(bundle) => BundleResults(tools, bundle, host)
    case PluginDir(dir) => DirectoryResults(tools, dir, host)
    case NotFound => [false]
  }

  method Diagnose(tools: Tools, target: Target, host: Host) returns (report: DoctorReport)
    ensures fresh(report) && report.Reports(Results(tools, target, host))
  {
    report := new DoctorReport();
    match target
    case BundleFile(bundle) => RunBundleDoctor(report, tools, bundle, host);
    case PluginDir(dir) => RunDirectoryDoctor(report, tools, dir, host);
    case NotFound => report.AddStage(Metadata, false);
  }

  ghost predicate Healthy(tools: Tools, target: Target, host: Host) {
    Leading(Results(tools, target, host)) == 6
  }

  // ----- What a healthy diagnosis means -----------------------------------------------------------------

  lemma AllLead(results: seq<bool>)
    requires |results| <= 6
    ensures Leading(results) == 6 <==> |results| == 6 && forall i :: 0 <= i < 6 ==> results[i]
  {
  }

  /** Stages four to six. */
  predicate HostAgrees(meta: Meta, host: Host) {
    Compatible(meta, host) && host.loads && SelfChecks(host)
  }

  /** What the host has to find: its own ABI version, a plugin that loads, and no finding that tells of a trap or a poisoned lock. */
  lemma HostAgreesMeans(meta: Meta, host: Host)
    ensures HostAgrees(meta, host) <==>
      && meta.abiMajor == 1 && host.probe in {None, Some(1)} && host.loads && host.findings.Some?
      && forall f, before, after :: f in host.findings.value ==>
        f != before + "wasm plugin trap" + after && f != before + "mutex poisoned" + after
  {
    if host.findings.Some? {
      forall f | f in host.findings.value
        ensures ReportsTrap(f) <==>
          exists before, after :: f == before + "wasm plugin trap" + after || f == before + "mutex poisoned" + after
      {
        ContainsMeans(f, "wasm plugin trap");
        ContainsMeans(f, "mutex poisoned");
      }
      assert SelfChecks(host) <==> forall f :: f in host.findings.value ==> !ReportsTrap(f);
    }
  }

  lemma AllSix(a: bool, b: bool, meta: Meta, host: Host)
    requires ValidBasic(meta)
    ensures Leading([true, a, b] + HostResults(meta, host)) == 6 <==> a && b && HostAgrees(meta, host)
  {
    var results := [true, a, b] + HostResults(meta, host);
    AllLead(results);
    assert results[1] == a && results[2] == b;
    assert results[3] == HostResults(meta, host)[0] && results[4] == HostResults(meta, host)[1];
    assert results[5] == HostResults(meta, host)[2];
  }

  /** An accepted bundle is healthy exactly if it can be extracted, its artifact has the right extension, and the host agrees. */
  lemma HealthyBundle(tools: Tools, archive: Archive, host: Host, meta: Meta, signed: bool)
    requires Readable(archive) && Accepts(tools, EntriesOf(archive), None, meta, signed)
    ensures Healthy(tools, BundleFile(Some(archive)), host) <==>
      Extractable(EntriesOf(archive)) && KindMatches(meta.kind, PathExtension(meta.artifact)) && HostAgrees(meta, host)
  {
    HealthyByStages(tools, archive, host);
    LooseIsStrict(archive);
    AcceptedHasArtifact(tools, EntriesOf(archive), None, meta, signed);
    assert LooseMeta(tools, archive) == Some(meta);
  }

  /** The metadata the doctor finds in a bundle. */
  function LooseMeta(tools: Tools, archive: Archive): Option<Meta> {
    BasicMeta(tools, Find(LooseEntries(archive), Toml))
  }

  /** A bundle is healthy exactly if every stage finds what it needs; verification accepts it then. */
  lemma HealthyByStages(tools: Tools, archive: Archive, host: Host)
    ensures Healthy(tools, BundleFile(Some(archive)), host) <==>
      && LooseMeta(tools, archive).Some?
      && var meta := LooseMeta(tools, archive).value;
         && meta.artifact in LooseEntries(archive) && KindMatches(meta.kind, PathExtension(meta.artifact))
         && BundleAccepted(tools, archive) && HostAgrees(meta, host)
  {
    var found := LooseMeta(tools, archive);
    if found.Some? {
      var meta := found.value;
      AllSix(meta.artifact in LooseEntries(archive) && KindMatches(meta.kind, PathExtension(meta.artifact)),
             BundleAccepted(tools, archive), meta, host);
    } else {
      AllLead([false]);
    }
  }

  lemma AcceptedHasArtifact(tools: Tools, entries: Entries, trusted: Option<string>, meta: Meta, signed: bool)
    requires Accepts(tools, entries, trusted, meta, signed)
    ensures Find(entries, Toml) == Some(entries[Toml]) && BasicMeta(tools, Some(entries[Toml])) == Some(meta)
    ensures meta.artifact in entries
  {
    var listing := ParseLines(Lines(entries[ManifestName]));
    ListedIsThere(tools, entries, meta.artifact, listing);
  }

  /** For a bundle, metadata for another ABI is reported as an integrity failure and never as an incompatibility. */
  lemma BundleAbiIsIntegrity(tools: Tools, archive: Archive, host: Host)
    requires host.probe.None?
    ensures Leading(BundleResults(tools, Some(archive), host)) != 3
  {
    var results := BundleResults(tools, Some(archive), host);
    if Leading(results) >= 3 {
      assert results[2] == BundleAccepted(tools, archive);
      AcceptedIsCompatible(tools, archive, host);
      assert results[3] == HostResults(LooseMeta(tools, archive).value, host)[0];
    }
  }

  lemma AcceptedIsCompatible(tools: Tools, archive: Archive, host: Host)
    requires host.probe.None? && BundleAccepted(tools, archive)
    ensures LooseMeta(tools, archive).Some? && Compatible(LooseMeta(tools, archive).value, host)
  {
    var meta, signed :| Accepts(tools, EntriesOf(archive), None, meta, signed);
    LooseIsStrict(archive);
    AcceptedHasArtifact(tools, EntriesOf(archive), None, meta, signed);
  }

  lemma ResultsOfDir(tools: Tools, dir: Dir, host: Host, meta: Meta)
    requires BasicMeta(tools, Find(dir, [Toml])) == Some(meta)
    ensures Healthy(tools, PluginDir(dir), host) <==>
      && PathExists(dir, meta.artifact) && KindMatches(meta.kind, PathExtension(meta.artifact))
      && DirIntegrity(tools, dir, meta.artifact) && HostAgrees(meta, host)
  {
    AllSix(PathExists(dir, meta.artifact) && KindMatches(meta.kind, PathExtension(meta.artifact)),
           DirIntegrity(tools, dir, meta.artifact), meta, host);
  }

  /**
    Extracting a healthy bundle gives a healthy directory, if and only if the
    bundle is signed or keeps clear of the signature names and spells no file in
    two ways with different digests.
   */
  lemma ExtractedBundleIsHealthy(
    tools: Tools, archive: Archive, host: Host, meta: Meta, signed: bool, dir: Dir)
    requires Healthy(tools, BundleFile(Some(archive)), host)
    requires Accepts(tools, EntriesOf(archive), None, meta, signed)
    requires HoldsEntries(dir, EntriesOf(archive))
    ensures Healthy(tools, PluginDir(dir), host) <==>
      && SpellingsAgree(tools, EntriesOf(archive))
      && (signed || (!Uses(EntriesOf(archive), SignatureName) && !Uses(EntriesOf(archive), KeyName)))
  {
    var entries := EntriesOf(archive);
    HealthyByStages(tools, archive, host);
    HealthyBundle(tools, archive, host, meta, signed);
    AcceptedHasArtifact(tools, entries, None, meta, signed);
    DirOfAccepted(tools, entries, meta, signed, dir);
    ResultsOfDir(tools, dir, host, meta);
    VerifiersAgree(tools, entries, None, meta, signed, dir, signed);
    VerifiersAgree(tools, entries, None, meta, signed, dir, !signed);
  }

  lemma DirOfAccepted(tools: Tools, entries: Entries, meta: Meta, signed: bool, dir: Dir)
    requires Accepts(tools, entries, None, meta, signed) && meta.artifact in entries
    requires HoldsEntries(dir, entries) && Creatable(entries)
    ensures Find(dir, [Toml]) == Some(entries[Toml])
    ensures PathExists(dir, meta.artifact) && Present(dir, [ManifestName])
  {
    ReservedIsComponent(Toml);
    ReservedIsComponent(ManifestName);
    TopLevelExtracted(entries, dir, Toml);
    TopLevelExtracted(entries, dir, ManifestName);
    assert Location(meta.artifact) in dir && Location(meta.artifact) <= Location(meta.artifact);
    assert [ManifestName] <= [ManifestName];
  }

  /** The directory of an installed plugin. */
  function StoreDir(tools: Tools, meta: Meta, bytes: string): Dir {
    map[[Toml] := tools.render(meta), [meta.artifact] := bytes]
  }

  /**
    An installed plugin is healthy exactly if the host agrees and the artifact is
    named with an extension of its kind: installing checks the extension of the
    file it copies, not of the name it copies it to.
   */
  lemma InstalledPluginIsHealthy(tools: Tools, meta: Meta, bytes: string, host: Host)
    requires tools.parse(tools.render(meta)) == Some(meta)
    requires GoodSlot(Holds(meta, bytes))
    ensures Healthy(tools, PluginDir(StoreDir(tools, meta, bytes)), host) <==>
      KindMatches(meta.kind, Extension(meta.artifact)) && HostAgrees(meta, host)
  {
    var dir := StoreDir(tools, meta, bytes);
    SplitWithout('/', meta.artifact);
    assert Steps([]) == [] && Location(meta.artifact) == [meta.artifact];
    assert [meta.artifact] in dir && [meta.artifact] <= [meta.artifact];
    assert [Toml][0] != meta.artifact && [ManifestName][0] != meta.artifact;
    ReservedDiffer();
    forall k | k in dir ensures !([ManifestName] <= k) {
      assert k[0] == Toml || k[0] == meta.artifact;
    }
    assert Find(dir, [Toml]) == Some(tools.render(meta));
    ResultsOfDir(tools, dir, host, meta);
  }
}
