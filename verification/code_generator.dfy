/** `CodeGenerator.generate`: parses the interfaces, emits four artifacts per
    domain, rewrites the barrels of the five generated folders and rewrites
    the registry. Every step either completes or stops the run with its
    error. */
module CodeGenerator {
  import opened Results
  import opened Strings
  import opened Files
  import opened TypeInference
  import opened Emitter
  import opened IndexWriter
  import opened DomainBuilder

  /** The folders whose barrels `generate` rewrites, in order. */
  const BarrelFolders: seq<string> := ["controllers", "dto", "schemas", "services", "interfaces"]

  /** The type name the registry lists for a domain's artifact of a kind. */
  function ArtifactType(d: Domain, k: Kind): string {
    UpperFirst(d.name) + FileSuffix(k)
  }

  /** Domain names that make plain file names: no separator, no dot. */
  predicate PlainNames(domains: seq<Domain>) {
    forall d | d in domains :: '/' !in d.name && '.' !in d.name
  }

  /** The registry of `fs` lists the controller, service and schema of every
      domain. */
  ghost predicate Registers(g: Generator, fs: FileSystem, domains: seq<Domain>) {
    && RegistryPath(g) in fs.files
    && exists controllers, services, schemaTypes ::
         && fs.files[RegistryPath(g)] == RegistryText(controllers, services, schemaTypes)
         && forall d | d in domains ::
              && ArtifactType(d, Controller) in controllers
              && ArtifactType(d, Service) in services
              && ArtifactType(d, Schema) in schemaTypes
  }

  /** `generate()`, with `fuel` frames of stack for the interface walk. On a
      well-formed tree the registry it writes last lists every domain it
      generated, whether the run wrote the domain's files or found them in
      place. */
  function Generate(g: Generator, fs: FileSystem, fuel: nat): (r: Result<FileSystem>)
    ensures r.Success? && ParseInterfaces(g, fs, "", fuel).Success? ==>
              forall d, k | d in ParseInterfaces(g, fs, "", fuel).value.domains ::
                r.value.Exists(ArtifactPath(g.sourcePath, d, k))
    ensures r.Success? && ParseInterfaces(g, fs, "", fuel).Success? && fs.WellFormed()
            && PlainNames(ParseInterfaces(g, fs, "", fuel).value.domains) ==>
              Registers(g, r.value, ParseInterfaces(g, fs, "", fuel).value.domains)
    ensures r.Success? ==> forall f | f in BarrelFolders :: BarrelPath(g, f) in r.value.files
    ensures r.Success? ==> RegistryPath(g) in r.value.files
    ensures r.Success? ==> forall q | fs.Exists(q) :: r.value.Exists(q)
    ensures r.Success? && fs.WellFormed() ==> r.value.WellFormed()
    // a run that completes has parsed the interfaces
    ensures r.Success? ==> ParseInterfaces(g, fs, "", fuel).Success?
    ensures ParseInterfaces(g, fs, "", fuel).Success? ==>
              var parsed := ParseInterfaces(g, fs, "", fuel).value;
              (r.Success? <==> && FoldersReady(g, parsed.fs, AllJobs(parsed.domains))
                               && BarrelsReady(g, fs, BarrelFolders) && RegistryReady(g, fs))
    ensures r.Success? ==>
              var parsed := ParseInterfaces(g, fs, "", fuel).value;
              EmitDomains(g, parsed).Success?
              && forall f | f in BarrelFolders :: BarrelOf(g, f, EmitDomains(g, parsed).value, r.value)
  {
    match ParseInterfaces(g, fs, "", fuel)
    case Failure(e) => Failure(e)
    case Success(parsed) =>
      match EmitDomains(g, parsed)
      case Failure(e) => Failure(e)
      case Success(fs1) => RewriteIndexes(g, fs1, parsed.domains)
  }

  /** The `forEach` of `generate` over the parsed domains: the four
      artifacts of each domain, in order. Files already there are kept as
      they are; a new file holds the artifact of the first job that writes
      it. */
  function EmitDomains(g: Generator, parsed: Parsed): (r: Result<FileSystem>)
    ensures r.Success? <==> FoldersReady(g, parsed.fs, AllJobs(parsed.domains))
    ensures r.Success? ==> forall q | q in parsed.fs.files :: q in r.value.files && r.value.files[q] == parsed.fs.files[q]
    ensures r.Success? ==> forall i | FirstWriter(g, parsed.fs, AllJobs(parsed.domains), i) ::
              var j := AllJobs(parsed.domains)[i];
              JobPath(g, j) in r.value.files && r.value.files[JobPath(g, j)] == ArtifactContent(g, j.domain, j.kind)
    ensures r.Success? ==> forall q | q in r.value.files && q !in parsed.fs.files ::
              exists j | j in AllJobs(parsed.domains) :: JobPath(g, j) == q
    ensures r.Success? ==> forall d, k | d in parsed.domains :: r.value.Exists(ArtifactPath(g.sourcePath, d, k))
    ensures r.Success? ==> forall q | parsed.fs.Exists(q) :: r.value.Exists(q)
    ensures r.Success? ==> r.value.dirs.Keys == parsed.fs.dirs.Keys
    ensures r.Success? && parsed.fs.WellFormed() ==> r.value.WellFormed()
  {
    var r := EmitJobs(g, parsed.fs, AllJobs(parsed.domains));
    EmitJobsSucceeds(g, parsed.fs, AllJobs(parsed.domains));
    EmitJobsFiles(g, parsed.fs, AllJobs(parsed.domains));
    assert r.Success? ==> forall d, k | d in parsed.domains :: r.value.Exists(ArtifactPath(g.sourcePath, d, k)) by {
      if r.Success? {
        forall d, k | d in parsed.domains
          ensures r.value.Exists(ArtifactPath(g.sourcePath, d, k))
        {
          AllJobsCover(parsed.domains, d, k);
          var j := JobFor(d, k);
          assert ArtifactPath(g.sourcePath, j.domain, j.kind) == ArtifactPath(g.sourcePath, d, k);
        }
      }
    }
    r
  }

  /** Where a folder's barrel is written. */
  function BarrelPath(g: Generator, f: string): Path {
    Resolve(Resolve(g.sourcePath, f), "index.ts")
  }

  /** Folders whose names differ in one of their first two letters have
      different paths and different barrels. */
  lemma FoldersApart(g: Generator, a: string, b: string)
    requires |a| >= 2 && |b| >= 2 && (a[0] != b[0] || a[1] != b[1])
    ensures Resolve(g.sourcePath, a) != Resolve(g.sourcePath, b)
    ensures BarrelPath(g, a) != BarrelPath(g, b)
  {
    var n := |g.sourcePath|;
    ResolveNameAt(g.sourcePath, a, 0);
    ResolveNameAt(g.sourcePath, a, 1);
    ResolveNameAt(g.sourcePath, b, 0);
    ResolveNameAt(g.sourcePath, b, 1);
    ResolveKeepsDir(Resolve(g.sourcePath, a), "index.ts", n + 1);
    ResolveKeepsDir(Resolve(g.sourcePath, a), "index.ts", n + 2);
    ResolveKeepsDir(Resolve(g.sourcePath, b), "index.ts", n + 1);
    ResolveKeepsDir(Resolve(g.sourcePath, b), "index.ts", n + 2);
  }

  /** A folder whose name does not start with 'r' does not hold the
      registry's path as its barrel. */
  lemma RegistryApart(g: Generator, f: string)
    requires |f| > 0 && f[0] != 'r'
    ensures BarrelPath(g, f) != RegistryPath(g)
  {
    var n := |g.sourcePath|;
    ResolveNameAt(g.sourcePath, f, 0);
    ResolveKeepsDir(Resolve(g.sourcePath, f), "index.ts", n + 1);
    ResolveNameAt(g.sourcePath, "registry.ts", 0);
  }

  /** The end of `generate`: the barrels of the five folders, one call each
      and in order, then the registry. Each barrel re-exports its folder's
      listing as it was before the rewrite, and the registry lists the types
      of the controllers, services and schemas folders. On a well-formed
      tree that holds every artifact of the domains, the registry lists them
      all. */
  function RewriteIndexes(g: Generator, fs: FileSystem, domains: seq<Domain>): (r: Result<FileSystem>)
    ensures r.Success? <==> BarrelsReady(g, fs, BarrelFolders) && RegistryReady(g, fs)
    ensures r.Success? ==> forall f | f in BarrelFolders :: BarrelOf(g, f, fs, r.value)
    ensures r.Success? ==> RegistryFrom(g, fs, r.value)
    ensures r.Success? ==> forall q | fs.Exists(q) :: r.value.Exists(q)
    ensures r.Success? && fs.WellFormed() ==> r.value.WellFormed()
    ensures r.Success? && fs.WellFormed() && PlainNames(domains)
            && (forall d, k | d in domains :: fs.Exists(ArtifactPath(g.sourcePath, d, k))) ==>
              Registers(g, r.value, domains)
  {
    var fs5 :- RewriteBarrels(g, fs, BarrelFolders);
    var r := GenerateRegisterDomain(g, fs5);
    assert RegistryReady(g, fs5) == RegistryReady(g, fs) by {
      assert fs5.dirs.Keys == fs.dirs.Keys;
    }
    assert r.Success? ==> (forall f | f in BarrelFolders :: BarrelOf(g, f, fs, r.value)) && RegistryFrom(g, fs, r.value) by {
      if r.Success? {
        RewriteOutcome(g, fs, fs5, r.value);
      }
    }
    assert r.Success? && fs.WellFormed() && PlainNames(domains)
           && (forall d, k | d in domains :: fs.Exists(ArtifactPath(g.sourcePath, d, k))) ==>
             Registers(g, r.value, domains) by {
      if r.Success? && fs.WellFormed() && PlainNames(domains)
         && (forall d, k | d in domains :: fs.Exists(ArtifactPath(g.sourcePath, d, k))) {
        RegistryListsArtifacts(g, fs, domains, r.value);
      }
    }
    r
  }

  /** `after` holds, at the barrel path of `f`, the barrel of `f`'s
      listing in `before`. */
  ghost predicate BarrelOf(g: Generator, f: string, before: FileSystem, after: FileSystem) {
    && Resolve(g.sourcePath, f) in before.dirs
    && BarrelPath(g, f) in after.files
    && after.files[BarrelPath(g, f)] == BarrelText(before.dirs[Resolve(g.sourcePath, f)], "")
  }

  /** The type names of a folder's listing; none for a missing folder. */
  function TypesIn(g: Generator, fs: FileSystem, f: string): seq<string> {
    var dir := Resolve(g.sourcePath, f);
    if dir in fs.dirs then TypesFromListing(fs.dirs[dir]) else []
  }

  /** `after` holds the registry of the typed folders of `before`. */
  ghost predicate RegistryFrom(g: Generator, before: FileSystem, after: FileSystem) {
    && RegistryPath(g) in after.files
    && after.files[RegistryPath(g)]
       == RegistryText(TypesIn(g, before, "controllers"), TypesIn(g, before, "services"), TypesIn(g, before, "schemas"))
  }

  /** One barrel write: `after` is `before` with the folder's barrel written
      from its listing and listed in it. */
  ghost predicate BarrelStep(g: Generator, f: string, before: FileSystem, after: FileSystem) {
    Resolve(g.sourcePath, f) in before.dirs && after == WithBarrel(g, f, before)
  }

  /** `fs` with the barrel of folder `f` written from its listing. */
  ghost function WithBarrel(g: Generator, f: string, fs: FileSystem): FileSystem
    requires Resolve(g.sourcePath, f) in fs.dirs
  {
    var dir := Resolve(g.sourcePath, f);
    FileSystem(fs.files[BarrelPath(g, f) := BarrelText(fs.dirs[dir], "")],
               fs.dirs[dir := Insert(fs.dirs[dir], "index.ts")])
  }

  /** `autoGenerateIndexTs([f])` is one barrel write. */
  lemma StepOf(g: Generator, before: FileSystem, f: string, after: FileSystem)
    requires AutoGenerateIndexTs(g, before, [f], "") == Success(after)
    ensures BarrelStep(g, f, before, after)
  {
    assert [f][0] == f;
  }

  /** Every folder of the list is in place and its barrel's path is free
      for a file. */
  predicate BarrelsReady(g: Generator, fs: FileSystem, folders: seq<string>) {
    forall f | f in folders :: Resolve(g.sourcePath, f) in fs.dirs && BarrelPath(g, f) !in fs.dirs
  }

  /** The barrel calls of `generate`: `autoGenerateIndexTs([f])` for each
      folder in turn, stopping at the first error. */
  function RewriteBarrels(g: Generator, fs: FileSystem, folders: seq<string>): (r: Result<FileSystem>)
    ensures r.Success? <==> BarrelsReady(g, fs, folders)
    ensures r.Success? ==> forall f | f in folders :: BarrelPath(g, f) in r.value.files
    ensures r.Success? ==> fs.files.Keys <= r.value.files.Keys && r.value.dirs.Keys == fs.dirs.Keys
    ensures r.Success? ==> forall q | fs.Exists(q) :: r.value.Exists(q)
    ensures r.Success? && fs.WellFormed() ==> r.value.WellFormed()
    decreases |folders|
  {
    if |folders| == 0 then Success(fs)
    else
      var first := AutoGenerateIndexTs(g, fs, [folders[0]], "");
      OneBarrel(g, fs, folders[0]);
      assert folders[0] in folders;
      if first.Failure? then Failure(first.error)
      else
        var fs1 := first.value;
        ReadyCons(g, fs, fs1, folders);
        var r := RewriteBarrels(g, fs1, folders[1..]);
        assert forall f | f in folders :: f == folders[0] || f in folders[1..];
        r
  }

  /** One barrel call succeeds exactly when the folder exists and no
      directory sits at its barrel path; it then writes the barrel, keeps
      every file and path, and adds no directory. */
  lemma OneBarrel(g: Generator, fs: FileSystem, f: string)
    ensures var r := AutoGenerateIndexTs(g, fs, [f], "");
            && (r.Success? <==> Resolve(g.sourcePath, f) in fs.dirs && BarrelPath(g, f) !in fs.dirs)
            && (r.Success? ==> BarrelPath(g, f) in r.value.files)
            && (r.Success? ==> fs.files.Keys <= r.value.files.Keys && r.value.dirs.Keys == fs.dirs.Keys)
            && (r.Success? ==> forall q | fs.Exists(q) :: r.value.Exists(q))
            && (r.Success? && fs.WellFormed() ==> r.value.WellFormed())
  {
    assert [f][0] == f;
    assert f in [f];
  }

  /** Readiness of a folder list is readiness of its head now and of the
      rest after a step that adds or removes no directory. */
  lemma ReadyCons(g: Generator, fs: FileSystem, fs1: FileSystem, folders: seq<string>)
    requires |folders| > 0 && fs1.dirs.Keys == fs.dirs.Keys
    ensures BarrelsReady(g, fs, folders)
            <==> && Resolve(g.sourcePath, folders[0]) in fs.dirs && BarrelPath(g, folders[0]) !in fs.dirs
                 && BarrelsReady(g, fs1, folders[1..])
  {
    assert forall f | f in folders :: f == folders[0] || f in folders[1..];
    assert forall p :: p in fs1.dirs <==> p in fs.dirs by {
      forall p ensures p in fs1.dirs <==> p in fs.dirs {
        assert p in fs1.dirs <==> p in fs1.dirs.Keys;
      }
    }
  }

  /** A run of `RewriteBarrels` that completes is a sequence of barrel
      writes, one per folder, from `fs` to its result. */
  lemma {:induction false} BarrelsWritten(g: Generator, fs: FileSystem, folders: seq<string>, r: FileSystem)
    returns (states: seq<FileSystem>)
    requires RewriteBarrels(g, fs, folders) == Success(r)
    ensures BarrelSteps(g, folders, states) && states[0] == fs && states[|folders|] == r
    decreases |folders|
  {
    if |folders| == 0 {
      states := [fs];
    } else {
      var fs1 := FirstBarrel(g, fs, folders, r);
      StepOf(g, fs, folders[0], fs1);
      var rest := BarrelsWritten(g, fs1, folders[1..], r);
      StepsCons(g, folders, fs, rest);
      states := [fs] + rest;
    }
  }

  /** A run of `RewriteBarrels` that completes writes the first barrel, then
      runs on the rest of the folders from there. */
  lemma FirstBarrel(g: Generator, fs: FileSystem, folders: seq<string>, r: FileSystem) returns (fs1: FileSystem)
    requires |folders| > 0 && RewriteBarrels(g, fs, folders) == Success(r)
    ensures AutoGenerateIndexTs(g, fs, [folders[0]], "") == Success(fs1)
    ensures RewriteBarrels(g, fs1, folders[1..]) == Success(r)
  {
    fs1 := AutoGenerateIndexTs(g, fs, [folders[0]], "").value;
  }

  /** The barrel writes of `RewriteIndexes` are consecutive; the registry
      written after them lists the original typed folders and leaves the
      barrels as written. */
  lemma RewriteOutcome(g: Generator, fs: FileSystem, fs5: FileSystem, r: FileSystem)
    requires RewriteBarrels(g, fs, BarrelFolders) == Success(fs5)
    requires GenerateRegisterDomain(g, fs5) == Success(r)
    ensures forall f | f in BarrelFolders :: BarrelOf(g, f, fs, r)
    ensures RegistryFrom(g, fs, r)
  {
    var states := BarrelsWritten(g, fs, BarrelFolders, fs5);
    RegistryWriteOf(g, fs5, r);
    BarrelsSurvive(g, states, r);
    RegistryAfterBarrels(g, states, r);
  }

  /** A barrel write followed by consecutive barrel writes. */
  lemma StepsCons(g: Generator, folders: seq<string>, s: FileSystem, states: seq<FileSystem>)
    requires |folders| > 0 && |states| > 0
    requires BarrelStep(g, folders[0], s, states[0]) && BarrelSteps(g, folders[1..], states)
    ensures BarrelSteps(g, folders, [s] + states)
  {
    forall k | 0 <= k < |folders|
      ensures BarrelStep(g, folders[k], ([s] + states)[k], ([s] + states)[k + 1])
    {
      if k > 0 {
        assert folders[k] == folders[1..][k - 1];
      }
    }
  }

  /** Consecutive barrel writes: `states[k + 1]` is `states[k]` with the
      barrel of `folders[k]` written. */
  ghost predicate BarrelSteps(g: Generator, folders: seq<string>, states: seq<FileSystem>) {
    && |states| == |folders| + 1
    && forall k | 0 <= k < |folders| :: BarrelStep(g, folders[k], states[k], states[k + 1])
  }

  /** Different folders of the list have different paths and barrels. */
  ghost predicate FoldersDistinct(g: Generator, folders: seq<string>) {
    forall a, b | 0 <= a < |folders| && 0 <= b < |folders| && a != b ::
      Resolve(g.sourcePath, folders[a]) != Resolve(g.sourcePath, folders[b])
      && BarrelPath(g, folders[a]) != BarrelPath(g, folders[b])
  }

  /** The five folders are apart, and none of their barrels is the
      registry. */
  lemma BarrelFoldersDistinct(g: Generator)
    ensures FoldersDistinct(g, BarrelFolders)
    ensures forall f | f in BarrelFolders :: BarrelPath(g, f) != RegistryPath(g)
  {
    var names := BarrelFolders;
    assert names[0][0] == 'c' && names[1][0] == 'd' && names[2][..2] == "sc" && names[3][..2] == "se" && names[4][0] == 'i';
    forall a, b | 0 <= a < 5 && 0 <= b < 5 && a != b
      ensures Resolve(g.sourcePath, names[a]) != Resolve(g.sourcePath, names[b])
      ensures BarrelPath(g, names[a]) != BarrelPath(g, names[b])
    {
      FoldersApart(g, names[a], names[b]);
    }
    forall f | f in names
      ensures BarrelPath(g, f) != RegistryPath(g)
    {
      RegistryApart(g, f);
    }
  }

  /** Until its own write, a folder's listing is the original one. */
  lemma {:induction false} ListingUntil(g: Generator, folders: seq<string>, states: seq<FileSystem>, k: nat, j: nat)
    requires BarrelSteps(g, folders, states) && FoldersDistinct(g, folders)
    requires j <= k < |folders|
    ensures var dir := Resolve(g.sourcePath, folders[k]);
            (dir in states[j].dirs <==> dir in states[0].dirs)
            && (dir in states[0].dirs ==> states[j].dirs[dir] == states[0].dirs[dir])
    decreases j
  {
    if j > 0 {
      ListingUntil(g, folders, states, k, j - 1);
      assert BarrelStep(g, folders[j - 1], states[j - 1], states[j]);
      assert Resolve(g.sourcePath, folders[j - 1]) != Resolve(g.sourcePath, folders[k]);
    }
  }

  /** After its write, a folder's barrel stays as written. */
  lemma {:induction false} BarrelFrom(g: Generator, folders: seq<string>, states: seq<FileSystem>, k: nat, j: nat)
    requires BarrelSteps(g, folders, states) && FoldersDistinct(g, folders)
    requires k < j <= |folders|
    ensures BarrelOf(g, folders[k], states[0], states[j])
    decreases j
  {
    if j == k + 1 {
      ListingUntil(g, folders, states, k, k);
      assert BarrelStep(g, folders[k], states[k], states[j]);
    } else {
      BarrelFrom(g, folders, states, k, j - 1);
      assert BarrelStep(g, folders[j - 1], states[j - 1], states[j]);
      assert BarrelPath(g, folders[j - 1]) != BarrelPath(g, folders[k]);
    }
  }

  /** The barrel writes keep the types of every folder among them: a
      folder's own write adds only `index.ts`, the others leave it alone. */
  lemma {:induction false} TypesThroughSteps(g: Generator, folders: seq<string>, states: seq<FileSystem>, k: nat, j: nat)
    requires BarrelSteps(g, folders, states) && FoldersDistinct(g, folders)
    requires k < |folders| && j <= |folders|
    ensures TypesIn(g, states[j], folders[k]) == TypesIn(g, states[0], folders[k])
    decreases j
  {
    if j > 0 {
      TypesThroughSteps(g, folders, states, k, j - 1);
      var h := folders[j - 1];
      assert BarrelStep(g, h, states[j - 1], states[j]);
      if j - 1 == k {
        TypesIgnoreIndex(states[j - 1].dirs[Resolve(g.sourcePath, h)]);
      } else {
        assert Resolve(g.sourcePath, h) != Resolve(g.sourcePath, folders[k]);
      }
    }
  }

  /** `after` is `before` with only the registry written. */
  ghost predicate RegistryWrite(g: Generator, before: FileSystem, after: FileSystem) {
    RegistryPath(g) in after.files && after.files == before.files[RegistryPath(g) := after.files[RegistryPath(g)]]
  }

  /** The five barrel writes of `RewriteIndexes` and the registry write
      after them touch different paths, so each barrel keeps the text it was
      written with, and each folder is read before anything is written into
      it. */
  lemma BarrelsSurvive(g: Generator, states: seq<FileSystem>, r: FileSystem)
    requires BarrelSteps(g, BarrelFolders, states) && RegistryWrite(g, states[5], r)
    ensures forall f | f in BarrelFolders :: BarrelOf(g, f, states[0], r)
  {
    BarrelFoldersDistinct(g);
    forall f | f in BarrelFolders
      ensures BarrelOf(g, f, states[0], r)
    {
      var k :| 0 <= k < 5 && BarrelFolders[k] == f;
      BarrelFrom(g, BarrelFolders, states, k, 5);
    }
  }

  /** The registry written after the five barrels lists the typed folders'
      types as they were before: the barrels only add `index.ts` entries,
      which name no type. */
  lemma RegistryAfterBarrels(g: Generator, states: seq<FileSystem>, r: FileSystem)
    requires BarrelSteps(g, BarrelFolders, states) && RegistryFrom(g, states[5], r)
    ensures RegistryFrom(g, states[0], r)
  {
    BarrelFoldersDistinct(g);
    TypesThroughSteps(g, BarrelFolders, states, 0, 5);
    TypesThroughSteps(g, BarrelFolders, states, 2, 5);
    TypesThroughSteps(g, BarrelFolders, states, 3, 5);
  }

  /** On a well-formed tree, an artifact that exists is listed in its kind's
      folder, so the folder's types include the artifact's type. */
  lemma ExistingArtifactListed(g: Generator, fs: FileSystem, d: Domain, k: Kind)
    requires fs.WellFormed() && fs.Exists(ArtifactPath(g.sourcePath, d, k))
    requires '/' !in d.name && '.' !in d.name
    ensures Resolve(g.sourcePath, FolderName(k)) in fs.dirs
    ensures ArtifactType(d, k) in TypesIn(g, fs, FolderName(k))
  {
    var root := g.sourcePath;
    var p := ArtifactPath(root, d, k);
    ArtifactPathSplits(root, d, k);
    TypeOfArtifact(d, k);
    assert p != "";
    assert Basename(p) in fs.dirs[Dirname(p)];
  }

  /** `generateRegisterDomain` writes only the registry, with the types of
      the typed folders it reads. */
  lemma RegistryWriteOf(g: Generator, fs: FileSystem, r: FileSystem)
    requires GenerateRegisterDomain(g, fs) == Success(r)
    ensures RegistryWrite(g, fs, r) && RegistryFrom(g, fs, r)
  {
  }

  /** On a well-formed tree holding every artifact of the domains, a
      registry of its typed folders lists them all. */
  lemma RegistryListsArtifacts(g: Generator, fs: FileSystem, domains: seq<Domain>, r: FileSystem)
    requires fs.WellFormed() && PlainNames(domains)
    requires forall d, k | d in domains :: fs.Exists(ArtifactPath(g.sourcePath, d, k))
    requires RegistryFrom(g, fs, r)
    ensures Registers(g, r, domains)
  {
    var controllers := TypesIn(g, fs, FolderName(Controller));
    var services := TypesIn(g, fs, FolderName(Service));
    var schemaTypes := TypesIn(g, fs, FolderName(Schema));
    forall d | d in domains
      ensures && ArtifactType(d, Controller) in controllers
              && ArtifactType(d, Service) in services
              && ArtifactType(d, Schema) in schemaTypes
    {
      ExistingArtifactListed(g, fs, d, Controller);
      ExistingArtifactListed(g, fs, d, Service);
      ExistingArtifactListed(g, fs, d, Schema);
    }
    assert FolderName(Controller) == "controllers" && FolderName(Service) == "services" && FolderName(Schema) == "schemas";
    assert r.files[RegistryPath(g)] == RegistryText(controllers, services, schemaTypes);
  }
}
