/** The code emitter of `CodeGenerator`: `generateItem` renders one artifact
    of one domain and writes it with `save`, which never overwrites an
    existing path unless forced; `generate` emits four artifacts per domain,
    the schema from a copy of the domain without its `id` field. */
module Emitter {
  import opened Results
  import opened Strings
  import opened Files
  import opened TypeInference

  /** The artifact kinds (`TemplateType`). */
  datatype Kind = Dto | Controller | Service | Schema

  /** One entity to generate. `moduleName` is the interface sub-folder it
      came from ("" at top level), and `undefined` in the schema copy. */
  datatype Domain = Domain(name: string, moduleName: Option<string>, fields: seq<Field>)

  /** The values a template is rendered with: `Domain`, `domain`,
      `ControllerPath` and `fields`. */
  datatype RenderContext = RenderContext(
    capitalName: string,
    lowerName: string,
    controllerPath: string,
    fields: seq<Field>)

  /** A generator: the source root everything is resolved against, and the
      capabilities the model takes from outside. `render` stands for
      compiling the kind's loaded template with Handlebars and applying it;
      `parse` for the TypeScript parser. */
  datatype Generator = Generator(
    sourcePath: Path,
    render: (Kind, RenderContext) -> string,
    parse: string -> seq<Statement>,
    casing: Casing)

  /** The template name of a kind. */
  function TemplateName(k: Kind): string {
    match k
    case Dto => "dto"
    case Controller => "controller"
    case Service => "service"
    case Schema => "schema"
  }

  /** The folder, under the source root, that holds a kind's artifacts. */
  function FolderName(k: Kind): string {
    match k
    case Dto => "dto"
    case Controller => "controllers"
    case Service => "services"
    case Schema => "schemas"
  }

  /** The suffix of a kind's file and type names: its template name, capitalised. */
  function FileSuffix(k: Kind): (r: string)
    ensures r == match k
                 case Dto => "Dto"
                 case Controller => "Controller"
                 case Service => "Service"
                 case Schema => "Schema"
  {
    UpperFirst(TemplateName(k))
  }

  /** A non-empty word without separator or dot that does not end in 'x'. */
  predicate PlainWord(s: string) {
    |s| > 0 && '/' !in s && '.' !in s && s[|s| - 1] != 'x'
  }

  /** Every file suffix is a plain word. */
  lemma FileSuffixPlain(k: Kind)
    ensures PlainWord(FileSuffix(k))
  {
    match k
    case Dto => assert PlainWord("Dto");
    case Controller => assert PlainWord("Controller");
    case Service => assert PlainWord("Service");
    case Schema => assert PlainWord("Schema");
  }

  /** The opening of a fenced code block that rendered templates may start with. */
  const FenceMarker := "``` typescript"

  /** A module name as JavaScript's string concatenation prints it. */
  function ModuleText(m: Option<string>): string {
    match m
    case None => "undefined"
    case Some(s) => s
  }

  /** The render context of a domain. The two names are the domain name
      with only its first letter re-cased, each recoverable from the other;
      a domain without a module is routed under "undefined". */
  function Context(g: Generator, d: Domain): (r: RenderContext)
    ensures r.capitalName == UpperFirst(d.name) && r.lowerName == LowerFirst(d.name)
    ensures |r.capitalName| == |d.name| == |r.lowerName|
    ensures forall i | 0 < i < |d.name| :: r.capitalName[i] == d.name[i] && r.lowerName[i] == d.name[i]
    ensures r.lowerName == LowerFirst(r.capitalName) && r.capitalName == UpperFirst(r.lowerName)
    ensures r.controllerPath == ModuleText(d.moduleName) + "/" + g.casing.kebab(d.name)
    ensures d.moduleName.None? ==> r.controllerPath == "undefined/" + g.casing.kebab(d.name)
    ensures r.fields == d.fields
  {
    CaseFirstRoundTrip(d.name);
    forall i | 0 < i < |d.name|
      ensures UpperFirst(d.name)[i] == d.name[i] && LowerFirst(d.name)[i] == d.name[i]
    {
      assert UpperFirst(d.name)[i] == UpperFirst(d.name)[1..][i - 1];
      assert LowerFirst(d.name)[i] == LowerFirst(d.name)[1..][i - 1];
    }
    RenderContext(UpperFirst(d.name), LowerFirst(d.name),
                  ModuleText(d.moduleName) + "/" + g.casing.kebab(d.name), d.fields)
  }

  /** The file name of a domain's artifact, `AccountDto.ts`. */
  function ArtifactFileName(d: Domain, k: Kind): string {
    UpperFirst(d.name) + FileSuffix(k) + ".ts"
  }

  /** Where a domain's artifact is written: `<sourcePath>/<folder>/<file>`. */
  function ArtifactPath(root: Path, d: Domain, k: Kind): Path {
    Resolve(Resolve(root, FolderName(k)), ArtifactFileName(d, k))
  }

  /** An artifact lands in its kind's folder under its own file name. */
  lemma ArtifactPathSplits(root: Path, d: Domain, k: Kind)
    requires '/' !in d.name
    ensures Dirname(ArtifactPath(root, d, k)) == Resolve(root, FolderName(k))
    ensures Basename(ArtifactPath(root, d, k)) == ArtifactFileName(d, k)
  {
    UpperFirstKeepsAbsent(d.name, '/');
    FileSuffixPlain(k);
    var suffix := FileSuffix(k);
    assert '/' !in ".ts";
    assert ArtifactFileName(d, k) == UpperFirst(d.name) + suffix + ".ts";
    ResolveSplits(Resolve(root, FolderName(k)), ArtifactFileName(d, k));
  }

  /** The text written for a domain's artifact: the rendering with the first
      fence marker removed. */
  function ArtifactContent(g: Generator, d: Domain, k: Kind): (r: string)
    ensures !Contains(g.render(k, Context(g, d)), FenceMarker) ==> r == g.render(k, Context(g, d))
    ensures Contains(g.render(k, Context(g, d)), FenceMarker) ==>
              |r| == |g.render(k, Context(g, d))| - |FenceMarker|
    ensures forall i | FirstAt(g.render(k, Context(g, d)), FenceMarker, i) ::
              r == g.render(k, Context(g, d))[..i] + g.render(k, Context(g, d))[i + |FenceMarker|..]
  {
    RemoveFirst(g.render(k, Context(g, d)), FenceMarker)
  }

  /** `save(filePath, content, force)`: writes only when forced or when
      nothing exists at the path yet. */
  function Save(fs: FileSystem, p: Path, content: string, force: bool): (r: Result<FileSystem>)
    ensures !force && fs.Exists(p) ==> r == Success(fs)
    ensures force || !fs.Exists(p) ==> (r.Success? <==> p !in fs.dirs && Dirname(p) in fs.dirs)
    ensures (force || !fs.Exists(p)) && r.Success? ==> r.value.files == fs.files[p := content]
    ensures r.Success? ==> r.value.Exists(p)
    ensures r.Success? ==> forall q | fs.Exists(q) :: r.value.Exists(q)
    ensures r.Success? ==> forall q | r.value.Exists(q) :: fs.Exists(q) || q == p
    ensures r.Success? ==> fs.files.Keys <= r.value.files.Keys && r.value.dirs.Keys == fs.dirs.Keys
    ensures (force || !fs.Exists(p)) && r.Success? ==>
              r.value.dirs == fs.dirs[Dirname(p) := Insert(fs.dirs[Dirname(p)], Basename(p))]
    ensures r.Success? && fs.WellFormed() ==> r.value.WellFormed()
  {
    if force || !fs.Exists(p) then Write(fs, p, content) else Success(fs)
  }

  /** `generateItem(domain, kind)`: renders the artifact and saves it without
      forcing, so an existing file is left as it is. */
  function GenerateItem(g: Generator, fs: FileSystem, d: Domain, k: Kind): (r: Result<FileSystem>)
    ensures fs.Exists(ArtifactPath(g.sourcePath, d, k)) ==> r == Success(fs)
    ensures !fs.Exists(ArtifactPath(g.sourcePath, d, k)) ==>
              (r.Success? <==> Dirname(ArtifactPath(g.sourcePath, d, k)) in fs.dirs)
    ensures !fs.Exists(ArtifactPath(g.sourcePath, d, k)) && r.Success? ==>
              r.value.files == fs.files[ArtifactPath(g.sourcePath, d, k) := ArtifactContent(g, d, k)]
    ensures r.Success? ==> r.value.dirs.Keys == fs.dirs.Keys
    ensures r.Success? ==> r.value.Exists(ArtifactPath(g.sourcePath, d, k))
    ensures r.Success? ==> forall q | fs.Exists(q) :: r.value.Exists(q)
    ensures r.Success? ==> forall q | r.value.Exists(q) :: fs.Exists(q) || q == ArtifactPath(g.sourcePath, d, k)
    ensures r.Success? && fs.WellFormed() ==> r.value.WellFormed()
  {
    Save(fs, ArtifactPath(g.sourcePath, d, k), ArtifactContent(g, d, k), false)
  }

  /** `a` is `b` with some elements left out, the rest in their order. */
  predicate Subsequence<T(==)>(a: seq<T>, b: seq<T>)
    decreases |b|
  {
    |a| == 0 || (|b| > 0 && if a[0] == b[0] then Subsequence(a[1..], b[1..]) else Subsequence(a, b[1..]))
  }

  /** The fields of a domain except those named "id", in their order. */
  function WithoutId(fields: seq<Field>): (r: seq<Field>)
    ensures forall f :: f in r <==> f in fields && f.name != "id"
    ensures forall f: Field | f.name != "id" :: multiset(r)[f] == multiset(fields)[f]
    ensures Subsequence(r, fields)
  {
    if |fields| == 0 then []
    else
      var rest := WithoutId(fields[1..]);
      if fields[0].name == "id" then
        SkipId(fields, rest);
        rest
      else
        KeepField(fields, rest);
        [fields[0]] + rest
  }

  /** Dropping a leading "id" field keeps what the rest keeps. */
  lemma SkipId(fields: seq<Field>, rest: seq<Field>)
    requires |fields| > 0 && fields[0].name == "id"
    requires forall f :: f in rest <==> f in fields[1..] && f.name != "id"
    requires forall f: Field | f.name != "id" :: multiset(rest)[f] == multiset(fields[1..])[f]
    requires Subsequence(rest, fields[1..])
    ensures forall f :: f in rest <==> f in fields && f.name != "id"
    ensures forall f: Field | f.name != "id" :: multiset(rest)[f] == multiset(fields)[f]
    ensures Subsequence(rest, fields)
  {
    assert fields == [fields[0]] + fields[1..];
    assert multiset(fields) == multiset{fields[0]} + multiset(fields[1..]);
    assert |rest| > 0 ==> rest[0] in rest;
  }

  /** Keeping a leading field that is not "id" keeps it in front. */
  lemma KeepField(fields: seq<Field>, rest: seq<Field>)
    requires |fields| > 0 && fields[0].name != "id"
    requires forall f :: f in rest <==> f in fields[1..] && f.name != "id"
    requires forall f: Field | f.name != "id" :: multiset(rest)[f] == multiset(fields[1..])[f]
    requires Subsequence(rest, fields[1..])
    ensures forall f :: f in [fields[0]] + rest <==> f in fields && f.name != "id"
    ensures forall f: Field | f.name != "id" :: multiset([fields[0]] + rest)[f] == multiset(fields)[f]
    ensures Subsequence([fields[0]] + rest, fields)
  {
    var r := [fields[0]] + rest;
    assert fields == [fields[0]] + fields[1..];
    assert multiset(fields) == multiset{fields[0]} + multiset(fields[1..]);
    assert r[1..] == rest;
  }

  /** The copy of a domain the schema is generated from: no module, no "id" field. */
  function SchemaVariant(d: Domain): (r: Domain)
    ensures r.name == d.name && r.moduleName.None?
    ensures forall f :: f in r.fields <==> f in d.fields && f.name != "id"
    ensures Subsequence(r.fields, d.fields)
  {
    Domain(d.name, None, WithoutId(d.fields))
  }

  /** One artifact to emit. */
  datatype Job = Job(domain: Domain, kind: Kind)

  /** The artifacts `generate` emits for one domain, in order. */
  function DomainJobs(d: Domain): (r: seq<Job>)
    ensures |r| == 4 && r[0].kind == Dto && r[1].kind == Service && r[2].kind == Schema && r[3].kind == Controller
    ensures forall i | 0 <= i < 4 :: r[i].domain.name == d.name
    ensures forall i | 0 <= i < 4 && i != 2 :: r[i].domain == d
    ensures r[2].domain.fields == WithoutId(d.fields) && r[2].domain.moduleName.None?
  {
    [Job(d, Dto), Job(d, Service), Job(SchemaVariant(d), Schema), Job(d, Controller)]
  }

  /** The artifacts for all domains, domain after domain. */
  function AllJobs(domains: seq<Domain>): (r: seq<Job>)
    ensures |r| == 4 * |domains|
    ensures forall i, n | 0 <= i < |domains| && 0 <= n < 4 :: r[4 * i + n] == DomainJobs(domains[i])[n]
  {
    if |domains| == 0 then []
    else
      var rest := AllJobs(domains[1..]);
      var r := DomainJobs(domains[0]) + rest;
      assert forall i, n | 0 <= i < |domains| && 0 <= n < 4 :: r[4 * i + n] == DomainJobs(domains[i])[n] by {
        forall i, n | 0 <= i < |domains| && 0 <= n < 4
          ensures r[4 * i + n] == DomainJobs(domains[i])[n]
        {
          if i > 0 {
            assert r[4 * i + n] == rest[4 * (i - 1) + n];
            assert domains[1..][i - 1] == domains[i];
          }
        }
      }
      r
  }

  /** The position of a kind among a domain's jobs. */
  function EmitOrder(k: Kind): (r: nat)
    ensures r < 4
  {
    match k
    case Dto => 0
    case Service => 1
    case Schema => 2
    case Controller => 3
  }

  /** The job of a kind for a domain: the schema is emitted from the schema
      copy, the other kinds from the domain itself. */
  function JobFor(d: Domain, k: Kind): (r: Job)
    ensures r == DomainJobs(d)[EmitOrder(k)] && r.kind == k
  {
    Job(if k == Schema then SchemaVariant(d) else d, k)
  }

  /** Every kind of every domain is among the jobs. */
  lemma AllJobsCover(domains: seq<Domain>, d: Domain, k: Kind)
    requires d in domains
    ensures JobFor(d, k) in AllJobs(domains)
  {
    var i :| 0 <= i < |domains| && domains[i] == d;
    var n := EmitOrder(k);
    JobAt(domains, i, n);
    var jobs := AllJobs(domains);
    assert jobs[4 * i + n] in jobs;
  }

  /** Where a domain's job of a given emit position sits among all jobs. */
  lemma JobAt(domains: seq<Domain>, i: nat, n: nat)
    requires i < |domains| && n < 4
    ensures 4 * i + n < |AllJobs(domains)| && AllJobs(domains)[4 * i + n] == DomainJobs(domains[i])[n]
  {
  }

  /** Emits the jobs in order, stopping at the first failure. */
  function EmitJobs(g: Generator, fs: FileSystem, jobs: seq<Job>): (r: Result<FileSystem>)
    ensures r.Success? ==> forall j | j in jobs :: r.value.Exists(ArtifactPath(g.sourcePath, j.domain, j.kind))
    ensures r.Success? ==> forall q | fs.Exists(q) :: r.value.Exists(q)
    ensures r.Success? ==> r.value.dirs.Keys == fs.dirs.Keys
    ensures r.Success? && fs.WellFormed() ==> r.value.WellFormed()
    decreases |jobs|
  {
    if |jobs| == 0 then Success(fs)
    else
      var first := GenerateItem(g, fs, jobs[0].domain, jobs[0].kind);
      if first.Failure? then Failure(first.error)
      else
        var r := EmitJobs(g, first.value, jobs[1..]);
        assert r.Success? ==> forall j | j in jobs :: j == jobs[0] || j in jobs[1..];
        r
  }

  /** Where a job's artifact is written. */
  function JobPath(g: Generator, j: Job): Path {
    ArtifactPath(g.sourcePath, j.domain, j.kind)
  }

  /** Job `i` is the one that creates its file: nothing is at its path
      beforehand and no earlier job has the same path. */
  predicate FirstWriter(g: Generator, fs: FileSystem, jobs: seq<Job>, i: int) {
    && 0 <= i < |jobs|
    && !fs.Exists(JobPath(g, jobs[i]))
    && forall j | 0 <= j < i :: JobPath(g, jobs[j]) != JobPath(g, jobs[i])
  }

  /** Every job whose path is free has its folder in place. */
  predicate FoldersReady(g: Generator, fs: FileSystem, jobs: seq<Job>) {
    forall j | j in jobs && !fs.Exists(JobPath(g, j)) :: Dirname(JobPath(g, j)) in fs.dirs
  }

  /** Emission succeeds exactly when every job whose path is free has its
      folder in place. */
  lemma {:induction false} EmitJobsSucceeds(g: Generator, fs: FileSystem, jobs: seq<Job>)
    ensures EmitJobs(g, fs, jobs).Success? <==> FoldersReady(g, fs, jobs)
    decreases |jobs|
  {
    if |jobs| > 0 {
      var first := GenerateItem(g, fs, jobs[0].domain, jobs[0].kind);
      if first.Success? {
        assert EmitJobs(g, fs, jobs) == EmitJobs(g, first.value, jobs[1..]);
        EmitJobsSucceeds(g, first.value, jobs[1..]);
        FoldersReadyStep(g, fs, jobs);
      } else {
        assert EmitJobs(g, fs, jobs).Failure?;
        FirstJobNotReady(g, fs, jobs);
      }
    }
  }

  /** A first job that fails leaves some free path without its folder. */
  lemma FirstJobNotReady(g: Generator, fs: FileSystem, jobs: seq<Job>)
    requires |jobs| > 0 && GenerateItem(g, fs, jobs[0].domain, jobs[0].kind).Failure?
    ensures !FoldersReady(g, fs, jobs)
  {
    assert jobs[0] in jobs;
  }

  /** After a first job that succeeds, the remaining jobs are ready exactly
      when all of them were. */
  lemma FoldersReadyStep(g: Generator, fs: FileSystem, jobs: seq<Job>)
    requires |jobs| > 0 && GenerateItem(g, fs, jobs[0].domain, jobs[0].kind).Success?
    ensures FoldersReady(g, GenerateItem(g, fs, jobs[0].domain, jobs[0].kind).value, jobs[1..])
            <==> FoldersReady(g, fs, jobs)
  {
    var p := JobPath(g, jobs[0]);
    var fs1 := GenerateItem(g, fs, jobs[0].domain, jobs[0].kind).value;
    assert !fs.Exists(p) ==> Dirname(p) in fs.dirs;
    assert forall j | j in jobs :: j == jobs[0] || j in jobs[1..];
    assert forall j | j in jobs[1..] :: j in jobs;
    assert forall q | !fs1.Exists(q) :: !fs.Exists(q) && q != p;
    assert forall q | !fs.Exists(q) && q != p :: !fs1.Exists(q);
  }

  /** What emission writes: files already present keep their content, every
      new file is at some job's path, and a new file holds the artifact of
      the first job that writes it. */
  lemma {:induction false} EmitJobsFiles(g: Generator, fs: FileSystem, jobs: seq<Job>)
    ensures var r := EmitJobs(g, fs, jobs);
            r.Success? ==> forall q | q in fs.files :: q in r.value.files && r.value.files[q] == fs.files[q]
    ensures var r := EmitJobs(g, fs, jobs);
            r.Success? ==> forall q | q in r.value.files && q !in fs.files :: exists j | j in jobs :: JobPath(g, j) == q
    ensures var r := EmitJobs(g, fs, jobs);
            r.Success? ==> forall i | FirstWriter(g, fs, jobs, i) ::
              && JobPath(g, jobs[i]) in r.value.files
              && r.value.files[JobPath(g, jobs[i])] == ArtifactContent(g, jobs[i].domain, jobs[i].kind)
    decreases |jobs|
  {
    var r := EmitJobs(g, fs, jobs);
    if |jobs| > 0 && r.Success? {
      var p := JobPath(g, jobs[0]);
      var first := GenerateItem(g, fs, jobs[0].domain, jobs[0].kind);
      var rest := jobs[1..];
      assert r == EmitJobs(g, first.value, rest);
      EmitJobsFiles(g, first.value, rest);
      forall q | q in r.value.files && q !in fs.files
        ensures exists j | j in jobs :: JobPath(g, j) == q
      {
        if q in first.value.files {
          assert jobs[0] in jobs && JobPath(g, jobs[0]) == q;
        } else {
          var j :| j in rest && JobPath(g, j) == q;
          assert j in jobs;
        }
      }
      forall i | FirstWriter(g, fs, jobs, i)
        ensures && JobPath(g, jobs[i]) in r.value.files
                && r.value.files[JobPath(g, jobs[i])] == ArtifactContent(g, jobs[i].domain, jobs[i].kind)
      {
        if i > 0 {
          assert rest[i - 1] == jobs[i];
          assert forall j | 0 <= j < i - 1 :: rest[j] == jobs[j + 1];
          assert JobPath(g, jobs[0]) != JobPath(g, jobs[i]);
          assert FirstWriter(g, first.value, rest, i - 1);
        }
      }
    }
  }

  /** Emitting into a tree that already holds every target changes nothing. */
  lemma {:induction false} EmitJobsSkipsExisting(g: Generator, fs: FileSystem, jobs: seq<Job>)
    requires forall j | j in jobs :: fs.Exists(ArtifactPath(g.sourcePath, j.domain, j.kind))
    ensures EmitJobs(g, fs, jobs) == Success(fs)
    decreases |jobs|
  {
    if |jobs| > 0 {
      assert jobs[0] in jobs;
      EmitJobsSkipsExisting(g, fs, jobs[1..]);
    }
  }

  /** Emission is idempotent: a second run over the tree the first run left
      behind succeeds and leaves it unchanged. */
  lemma EmitJobsIdempotent(g: Generator, fs: FileSystem, jobs: seq<Job>)
    requires EmitJobs(g, fs, jobs).Success?
    ensures EmitJobs(g, EmitJobs(g, fs, jobs).value, jobs) == EmitJobs(g, fs, jobs)
  {
    EmitJobsSkipsExisting(g, EmitJobs(g, fs, jobs).value, jobs);
  }

  /** Artifacts of different kinds never share a path: the kind folders differ
      in their first two letters. */
  lemma ArtifactPathsDistinct(root: Path, d1: Domain, k1: Kind, d2: Domain, k2: Kind)
    requires ArtifactPath(root, d1, k1) == ArtifactPath(root, d2, k2)
    ensures k1 == k2
  {
    FolderLetters(root, d1, k1);
    FolderLetters(root, d2, k2);
  }

  /** An artifact's path shows its folder's first two letters right after
      the root and its slash. */
  lemma FolderLetters(root: Path, d: Domain, k: Kind)
    ensures var p := ArtifactPath(root, d, k);
            |p| > |root| + 2 && p[|root| + 1] == FolderName(k)[0] && p[|root| + 2] == FolderName(k)[1]
  {
    var folder := FolderName(k);
    assert |folder| >= 2 by {
      match k
      case Dto => assert folder == "dto";
      case Controller => assert folder == "controllers";
      case Service => assert folder == "services";
      case Schema => assert folder == "schemas";
    }
    var q := Resolve(root, folder);
    var file := ArtifactFileName(d, k);
    ResolveNameAt(root, folder, 0);
    ResolveNameAt(root, folder, 1);
    ResolveKeepsDir(q, file, |root| + 1);
    ResolveKeepsDir(q, file, |root| + 2);
  }
}
