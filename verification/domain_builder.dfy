/** `CodeGenerator.parseInterfaces`: walks the `interfaces` folder and turns
    every interface file into a domain. A file entry is parsed into one
    domain named after the file; an entry without a dot is taken for a
    module folder, walked in turn and given a fresh barrel; anything else is
    skipped.

    The walk recurses on `interfaces/<entry>` whatever folder the entry was
    found in, so a folder named like its own parent module is walked again
    and again. The model bounds the depth of the recursion by `fuel`, the
    room left on the call stack, and reports `StackExhausted` when it runs
    out. */
module DomainBuilder {
  import opened Results
  import opened Strings
  import opened Files
  import opened TypeInference
  import opened Emitter
  import opened IndexWriter

  /** The folder walked for a module: `interfaces` itself for "", else the
      module's folder right under it. */
  function InterfaceDir(root: Path, moduleName: string): Path {
    if moduleName == "" then Resolve(root, "interfaces")
    else Resolve(Resolve(root, "interfaces"), moduleName)
  }

  /** The barrel folder named for a module is the folder walked for it. */
  lemma ModuleFolderPath(root: Path, m: string)
    requires m != ""
    ensures Resolve(root, "interfaces/" + m) == InterfaceDir(root, m)
  {
    assert "interfaces/" + m == "interfaces" + "/" + m;
  }

  /** An entry parsed as an interface file: a `.ts` name other than an
      `index.ts`. */
  predicate IsInterfaceFile(name: string) {
    !Contains(name, "index.ts") && Contains(name, ".ts")
  }

  /** An entry walked as a module folder: a name without a dot. */
  predicate IsSubModule(name: string) {
    !Contains(name, ".")
  }

  /** An entry is never both: every interface file name holds a dot. */
  lemma EntryKindsDisjoint(name: string)
    ensures !(IsInterfaceFile(name) && IsSubModule(name))
  {
    if IsInterfaceFile(name) {
      assert "." + "ts" == ".ts";
      ContainsPrefix(name, ".", "ts");
    }
  }

  /** The domain name of an interface file: the name without its first
      character and without its first ".ts" (`IAccount.ts` gives `Account`). */
  function DomainName(fileName: string): (r: string)
    ensures |fileName| > 0 && !Contains(DropFirst(fileName), ".ts") ==> r == fileName[1..]
    ensures forall i | FirstAt(DropFirst(fileName), ".ts", i) :: r == fileName[1..][..i] + fileName[1..][i + 3..]
  {
    RemoveFirst(DropFirst(fileName), ".ts")
  }

  /** For the conventional `I<Name>.ts`, the domain name is `<Name>`. */
  lemma DomainNameOfInterfaceFile(x: string)
    requires '.' !in x
    ensures Contains("I" + x + ".ts", ".ts")
    ensures DomainName("I" + x + ".ts") == x
  {
    var file := "I" + x + ".ts";
    assert DropFirst(file) == x + ".ts";
    FirstAtByFirstChar(x + ".ts", ".ts", |x|);
    RemoveTrailing(x, ".ts");
    assert OccursAt(file, ".ts", |x| + 1);
  }

  /** The interface files of a listing, in listing order. */
  function InterfaceFiles(entries: seq<string>): (r: seq<string>)
    ensures forall n :: n in r <==> n in entries && IsInterfaceFile(n)
    ensures |r| <= |entries|
  {
    if |entries| == 0 then []
    else if IsInterfaceFile(entries[0]) then [entries[0]] + InterfaceFiles(entries[1..])
    else InterfaceFiles(entries[1..])
  }

  /** A listing with no module folder in it. */
  predicate Flat(entries: seq<string>) {
    forall i | 0 <= i < |entries| :: !IsSubModule(entries[i])
  }

  /** The domain parsed from one interface file of a module's folder: the
      file is read and parsed, and its first interface gives the fields. */
  function ParseInterfaceFile(g: Generator, fs: FileSystem, moduleName: string, fileName: string): (r: Result<Domain>)
    ensures var path := Resolve(InterfaceDir(g.sourcePath, moduleName), fileName);
            r.Success? <==> path in fs.files && path !in fs.dirs
                            && ExtractFields(g.parse(fs.files[path]), g.casing.lower).Success?
    ensures r.Success? ==> r.value.name == DomainName(fileName) && r.value.moduleName == Some(moduleName)
    ensures r.Success? ==>
              r.value.fields == ExtractFields(g.parse(fs.files[Resolve(InterfaceDir(g.sourcePath, moduleName), fileName)]), g.casing.lower).value
  {
    var text :- ReadFile(fs, Resolve(InterfaceDir(g.sourcePath, moduleName), fileName));
    var fields :- ExtractFields(g.parse(text), g.casing.lower);
    Success(Domain(DomainName(fileName), Some(moduleName), fields))
  }

  /** What a walk produces: the domains in the order they were found, and the
      file system with the module barrels written. */
  datatype Parsed = Parsed(domains: seq<Domain>, fs: FileSystem)

  /** The domains found before the rest of a walk, put in front of what the
      rest finds; a failure of the rest stays a failure. */
  function Prepend(ds: seq<Domain>, r: Result<Parsed>): (p: Result<Parsed>)
    ensures p.Success? <==> r.Success?
    ensures p.Failure? ==> p.error == r.error
    ensures p.Success? ==> p.value.fs == r.value.fs && p.value.domains == ds + r.value.domains
  {
    match r
    case Failure(e) => Failure(e)
    case Success(rest) => Success(Parsed(ds + rest.domains, rest.fs))
  }

  /** `parseInterfaces(moduleName)` with `fuel` frames of stack left. */
  function ParseInterfaces(g: Generator, fs: FileSystem, moduleName: string, fuel: nat): (r: Result<Parsed>)
    ensures fuel == 0 ==> r == Failure(StackExhausted)
    ensures InterfaceDir(g.sourcePath, moduleName) !in fs.dirs ==> r.Failure?
    ensures r.Success? ==> fs.files.Keys <= r.value.fs.files.Keys && r.value.fs.dirs.Keys == fs.dirs.Keys
    ensures r.Success? ==> forall q | fs.Exists(q) :: r.value.fs.Exists(q)
    ensures r.Success? && fs.WellFormed() ==> r.value.fs.WellFormed()
    ensures r.Success? ==> forall d | d in r.value.domains :: d.moduleName.Some?
    decreases fuel, 0, 0
  {
    if fuel == 0 then Failure(StackExhausted)
    else
      var entries :- ReadDir(fs, InterfaceDir(g.sourcePath, moduleName));
      ParseEntries(g, fs, moduleName, entries, fuel - 1)
  }

  /** The `forEach` over a module folder's entries, from a given entry on. */
  function ParseEntries(g: Generator, fs: FileSystem, moduleName: string, entries: seq<string>, fuel: nat): (r: Result<Parsed>)
    ensures r.Success? ==> fs.files.Keys <= r.value.fs.files.Keys && r.value.fs.dirs.Keys == fs.dirs.Keys
    ensures r.Success? ==> forall q | fs.Exists(q) :: r.value.fs.Exists(q)
    ensures r.Success? && fs.WellFormed() ==> r.value.fs.WellFormed()
    ensures r.Success? ==> forall d | d in r.value.domains :: d.moduleName.Some?
    decreases fuel, 1, |entries|
  {
    if |entries| == 0 then Success(Parsed([], fs))
    else
      var name := entries[0];
      if IsInterfaceFile(name) then
        var d := ParseInterfaceFile(g, fs, moduleName, name);
        if d.Failure? then Failure(d.error)
        else
          Prepend([d.value], ParseEntries(g, fs, moduleName, entries[1..], fuel))
      else if IsSubModule(name) then
        var sub := ParseInterfaces(g, fs, name, fuel);
        if sub.Failure? then Failure(sub.error)
        else
          var fs1 := AutoGenerateIndexTs(g, sub.value.fs, ["interfaces/" + name], "");
          if fs1.Failure? then Failure(fs1.error)
          else
            Prepend(sub.value.domains, ParseEntries(g, fs1.value, moduleName, entries[1..], fuel))
      else ParseEntries(g, fs, moduleName, entries[1..], fuel)
  }

  /** Walking a listing in two pieces: the second piece is walked over the
      file system the first left behind, and the domains of the two follow
      one another; the first failure wins. */
  lemma {:induction false} ParseEntriesAppend(g: Generator, fs: FileSystem, m: string, e1: seq<string>, e2: seq<string>, fuel: nat)
    ensures ParseEntries(g, fs, m, e1 + e2, fuel) == ThenWalk(g, m, ParseEntries(g, fs, m, e1, fuel), e2, fuel)
    decreases |e1|
  {
    if |e1| == 0 {
      assert e1 + e2 == e2;
      assert ThenWalk(g, m, Success(Parsed([], fs)), e2, fuel) == Prepend([], ParseEntries(g, fs, m, e2, fuel));
      PrependNothing(ParseEntries(g, fs, m, e2, fuel));
    } else {
      var e := e1 + e2;
      var name := e1[0];
      assert e[0] == name && e[1..] == e1[1..] + e2;
      if IsInterfaceFile(name) {
        FileEntryAppend(g, fs, m, e1, e2, fuel);
      } else if IsSubModule(name) {
        SubModuleAppend(g, fs, m, e1, e2, fuel);
      } else {
        ParseEntriesAppend(g, fs, m, e1[1..], e2, fuel);
      }
    }
  }

  /** The rest of a walk after a first piece that produced `r1`. */
  function ThenWalk(g: Generator, m: string, r1: Result<Parsed>, e2: seq<string>, fuel: nat): Result<Parsed> {
    match r1
    case Failure(e) => Failure(e)
    case Success(p) => Prepend(p.domains, ParseEntries(g, p.fs, m, e2, fuel))
  }

  /** Putting nothing in front changes nothing. */
  lemma PrependNothing(r: Result<Parsed>)
    ensures Prepend([], r) == r
  {
    if r.Success? {
      assert [] + r.value.domains == r.value.domains;
    }
  }

  /** Continuing a walk whose first piece put `ds` in front. */
  lemma ThenWalkPrepend(g: Generator, m: string, ds: seq<Domain>, r: Result<Parsed>, e2: seq<string>, fuel: nat)
    ensures ThenWalk(g, m, Prepend(ds, r), e2, fuel) == Prepend(ds, ThenWalk(g, m, r, e2, fuel))
  {
    if r.Success? {
      var r2 := ParseEntries(g, r.value.fs, m, e2, fuel);
      if r2.Success? {
        assert ds + r.value.domains + r2.value.domains == ds + (r.value.domains + r2.value.domains);
      }
    }
  }

  /** `ParseEntriesAppend` when the first entry is an interface file. */
  lemma {:induction false} FileEntryAppend(g: Generator, fs: FileSystem, m: string, e1: seq<string>, e2: seq<string>, fuel: nat)
    requires |e1| > 0 && IsInterfaceFile(e1[0])
    ensures ParseEntries(g, fs, m, e1 + e2, fuel) == ThenWalk(g, m, ParseEntries(g, fs, m, e1, fuel), e2, fuel)
    decreases |e1|, 0
  {
    var e := e1 + e2;
    assert e[0] == e1[0] && e[1..] == e1[1..] + e2;
    var d := ParseInterfaceFile(g, fs, m, e1[0]);
    if d.Success? {
      ParseEntriesAppend(g, fs, m, e1[1..], e2, fuel);
      ThenWalkPrepend(g, m, [d.value], ParseEntries(g, fs, m, e1[1..], fuel), e2, fuel);
    }
  }

  /** `ParseEntriesAppend` when the first entry is a module folder. */
  lemma {:induction false} SubModuleAppend(g: Generator, fs: FileSystem, m: string, e1: seq<string>, e2: seq<string>, fuel: nat)
    requires |e1| > 0 && IsSubModule(e1[0])
    ensures ParseEntries(g, fs, m, e1 + e2, fuel) == ThenWalk(g, m, ParseEntries(g, fs, m, e1, fuel), e2, fuel)
    decreases |e1|, 0
  {
    var e := e1 + e2;
    assert e[0] == e1[0] && e[1..] == e1[1..] + e2;
    EntryKindsDisjoint(e1[0]);
    var sub := ParseInterfaces(g, fs, e1[0], fuel);
    if sub.Success? {
      var fs1 := AutoGenerateIndexTs(g, sub.value.fs, ["interfaces/" + e1[0]], "");
      if fs1.Success? {
        ParseEntriesAppend(g, fs1.value, m, e1[1..], e2, fuel);
        ThenWalkPrepend(g, m, sub.value.domains, ParseEntries(g, fs1.value, m, e1[1..], fuel), e2, fuel);
      }
    }
  }

  /** A folder of files alone fails exactly when one of its interface
      files does not parse. */
  lemma {:induction false} FlatListingSucceeds(g: Generator, fs: FileSystem, moduleName: string, entries: seq<string>, fuel: nat)
    requires Flat(entries)
    ensures ParseEntries(g, fs, moduleName, entries, fuel).Success? <==>
              forall n | n in InterfaceFiles(entries) :: ParseInterfaceFile(g, fs, moduleName, n).Success?
    decreases |entries|
  {
    if |entries| > 0 {
      var rest := entries[1..];
      FlatRest(entries);
      FlatListingSucceeds(g, fs, moduleName, rest, fuel);
      if IsInterfaceFile(entries[0]) {
        FileEntryStep(g, fs, moduleName, entries, fuel);
        assert InterfaceFiles(entries) == [entries[0]] + InterfaceFiles(rest);
      } else {
        OtherEntryStep(g, fs, moduleName, entries, fuel);
        assert InterfaceFiles(entries) == InterfaceFiles(rest);
      }
    }
  }

  /** A folder of files alone that parses yields one domain per interface
      file, in order, each equal to that file's parse, and writes nothing. */
  lemma {:induction false} FlatListingParsed(g: Generator, fs: FileSystem, moduleName: string, entries: seq<string>, fuel: nat)
    requires Flat(entries)
    ensures var r := ParseEntries(g, fs, moduleName, entries, fuel);
            r.Success? ==>
              && r.value.fs == fs
              && |r.value.domains| == |InterfaceFiles(entries)|
              && forall i | 0 <= i < |r.value.domains| ::
                   Success(r.value.domains[i]) == ParseInterfaceFile(g, fs, moduleName, InterfaceFiles(entries)[i])
    decreases |entries|
  {
    var r := ParseEntries(g, fs, moduleName, entries, fuel);
    if |entries| > 0 && r.Success? {
      var rest := entries[1..];
      var below := ParseEntries(g, fs, moduleName, rest, fuel);
      FlatRest(entries);
      FlatListingParsed(g, fs, moduleName, rest, fuel);
      if IsInterfaceFile(entries[0]) {
        FileEntryStep(g, fs, moduleName, entries, fuel);
        var d := ParseInterfaceFile(g, fs, moduleName, entries[0]);
        var files := InterfaceFiles(entries);
        assert files == [entries[0]] + InterfaceFiles(rest);
        assert r.value == Parsed([d.value] + below.value.domains, below.value.fs);
        forall i | 0 <= i < |r.value.domains|
          ensures Success(r.value.domains[i]) == ParseInterfaceFile(g, fs, moduleName, files[i])
        {
          if i > 0 {
            assert r.value.domains[i] == below.value.domains[i - 1];
            assert files[i] == InterfaceFiles(rest)[i - 1];
          }
        }
      } else {
        OtherEntryStep(g, fs, moduleName, entries, fuel);
        assert InterfaceFiles(entries) == InterfaceFiles(rest);
      }
    }
  }

  /** The tail of a listing without module folders has none either. */
  lemma FlatRest(entries: seq<string>)
    requires |entries| > 0 && Flat(entries)
    ensures Flat(entries[1..]) && !IsSubModule(entries[0])
  {
    assert forall i | 0 <= i < |entries[1..]| :: entries[1..][i] == entries[i + 1];
  }

  /** An interface file at the head of a listing contributes its domain
      ahead of the rest of the listing's. */
  lemma FileEntryStep(g: Generator, fs: FileSystem, moduleName: string, entries: seq<string>, fuel: nat)
    requires |entries| > 0 && IsInterfaceFile(entries[0])
    ensures var r := ParseEntries(g, fs, moduleName, entries, fuel);
            var d := ParseInterfaceFile(g, fs, moduleName, entries[0]);
            var below := ParseEntries(g, fs, moduleName, entries[1..], fuel);
            && (r.Success? <==> d.Success? && below.Success?)
            && (r.Success? ==> r.value == Parsed([d.value] + below.value.domains, below.value.fs))
  {
  }

  /** An entry that is neither an interface file nor a module folder is
      skipped. */
  lemma OtherEntryStep(g: Generator, fs: FileSystem, moduleName: string, entries: seq<string>, fuel: nat)
    requires |entries| > 0 && !IsInterfaceFile(entries[0]) && !IsSubModule(entries[0])
    ensures ParseEntries(g, fs, moduleName, entries, fuel) == ParseEntries(g, fs, moduleName, entries[1..], fuel)
  {
  }

  /** A module folder whose only entry is a folder of its own name is walked
      again and again, since the walk always looks the entry up right under
      `interfaces`: it runs out of stack whatever room it starts with. */
  lemma SelfNamedFolderExhausts(g: Generator, fs: FileSystem, m: string, fuel: nat)
    requires SelfNamedFolder(g, fs, m)
    ensures ParseInterfaces(g, fs, m, fuel) == Failure(StackExhausted)
  {
    var k := 0;
    while k < fuel
      invariant k <= fuel
      invariant ParseInterfaces(g, fs, m, k) == Failure(StackExhausted)
    {
      k := k + 1;
      ExhaustedStep(g, fs, m, k);
    }
  }

  /** The module folder `interfaces/<m>` exists and lists only `m`. */
  predicate SelfNamedFolder(g: Generator, fs: FileSystem, m: string) {
    && IsSubModule(m)
    && InterfaceDir(g.sourcePath, m) in fs.dirs
    && fs.dirs[InterfaceDir(g.sourcePath, m)] == [m]
  }

  /** A self-named folder whose walk below ran out of stack runs out of it
      one frame up as well. */
  lemma ExhaustedStep(g: Generator, fs: FileSystem, m: string, fuel: nat)
    ensures fuel > 0 && SelfNamedFolder(g, fs, m) && ParseInterfaces(g, fs, m, fuel - 1) == Failure(StackExhausted) ==>
              ParseInterfaces(g, fs, m, fuel) == Failure(StackExhausted)
  {
    if fuel > 0 && SelfNamedFolder(g, fs, m) {
      SelfNamedStep(g, fs, m, fuel);
    }
  }

  /** One more frame of a self-named folder's walk ends as the walk below it. */
  lemma SelfNamedStep(g: Generator, fs: FileSystem, m: string, fuel: nat)
    requires fuel > 0 && IsSubModule(m)
    requires InterfaceDir(g.sourcePath, m) in fs.dirs && fs.dirs[InterfaceDir(g.sourcePath, m)] == [m]
    ensures ParseInterfaces(g, fs, m, fuel - 1).Failure? ==>
              ParseInterfaces(g, fs, m, fuel) == ParseInterfaces(g, fs, m, fuel - 1)
  {
    SubModuleFailure(g, fs, m, m, fuel - 1);
    WalkReadsFolder(g, fs, m, fuel);
  }

  /** A walk with stack left over an existing folder walks that folder's
      listing. */
  lemma WalkReadsFolder(g: Generator, fs: FileSystem, m: string, fuel: nat)
    requires fuel > 0 && InterfaceDir(g.sourcePath, m) in fs.dirs
    ensures ParseInterfaces(g, fs, m, fuel) == ParseEntries(g, fs, m, fs.dirs[InterfaceDir(g.sourcePath, m)], fuel - 1)
  {
    assert ReadDir(fs, InterfaceDir(g.sourcePath, m)) == Success(fs.dirs[InterfaceDir(g.sourcePath, m)]);
  }

  /** A lone module folder whose walk fails fails its parent's walk with the
      same error. */
  lemma SubModuleFailure(g: Generator, fs: FileSystem, parent: string, m: string, fuel: nat)
    requires IsSubModule(m)
    ensures ParseInterfaces(g, fs, m, fuel).Failure? ==>
              ParseEntries(g, fs, parent, [m], fuel) == Failure(ParseInterfaces(g, fs, m, fuel).error)
  {
    EntryKindsDisjoint(m);
    var entries := [m];
    assert !IsInterfaceFile(entries[0]) && IsSubModule(entries[0]);
  }

  /** A module folder that holds only files yields one domain per interface
      file, in listing order, each tagged with the folder's name, and gets a
      barrel re-exporting its listing. */
  lemma SubModuleParsed(g: Generator, fs: FileSystem, parent: string, m: string, fuel: nat)
    requires IsSubModule(m) && m != ""
    requires InterfaceDir(g.sourcePath, m) in fs.dirs && Flat(fs.dirs[InterfaceDir(g.sourcePath, m)])
    requires ParseEntries(g, fs, parent, [m], fuel).Success?
    ensures var dir := InterfaceDir(g.sourcePath, m);
            var files := InterfaceFiles(fs.dirs[dir]);
            var r := ParseEntries(g, fs, parent, [m], fuel).value;
            && |r.domains| == |files|
            && (forall i | 0 <= i < |files| :: r.domains[i].moduleName == Some(m) && r.domains[i].name == DomainName(files[i]))
            && r.fs.files == fs.files[Resolve(dir, "index.ts") := BarrelText(fs.dirs[dir], "")]
  {
    EntryKindsDisjoint(m);
    var entries := [m];
    var dir := InterfaceDir(g.sourcePath, m);
    var listing := fs.dirs[dir];
    assert !IsInterfaceFile(entries[0]) && IsSubModule(entries[0]);
    var sub := ParseInterfaces(g, fs, m, fuel);
    assert sub.Success? && fuel > 0;
    FlatModuleWalk(g, fs, m, fuel);
    ModuleFolderPath(g.sourcePath, m);
    var fs1 := AutoGenerateIndexTs(g, fs, ["interfaces/" + m], "");
    assert fs1.Success?;
    assert fs1.value.files == fs.files[Resolve(dir, "index.ts") := BarrelText(listing, "")];
    assert ParseEntries(g, fs1.value, parent, entries[1..], fuel) == Success(Parsed([], fs1.value));
    var r := ParseEntries(g, fs, parent, entries, fuel).value;
    assert r == Parsed(sub.value.domains + [], fs1.value);
    assert r.domains == sub.value.domains;
  }

  /** The walk of a module folder that holds only files writes nothing and
      yields one domain per interface file, each tagged with the folder. */
  lemma FlatModuleWalk(g: Generator, fs: FileSystem, m: string, fuel: nat)
    requires fuel > 0
    requires InterfaceDir(g.sourcePath, m) in fs.dirs && Flat(fs.dirs[InterfaceDir(g.sourcePath, m)])
    requires ParseInterfaces(g, fs, m, fuel).Success?
    ensures var sub := ParseInterfaces(g, fs, m, fuel).value;
            var files := InterfaceFiles(fs.dirs[InterfaceDir(g.sourcePath, m)]);
            && sub.fs == fs
            && |sub.domains| == |files|
            && forall i | 0 <= i < |files| :: sub.domains[i].moduleName == Some(m) && sub.domains[i].name == DomainName(files[i])
  {
    var listing := fs.dirs[InterfaceDir(g.sourcePath, m)];
    WalkReadsFolder(g, fs, m, fuel);
    var inner := ParseEntries(g, fs, m, listing, fuel - 1);
    FlatListingParsed(g, fs, m, listing, fuel - 1);
    var files := InterfaceFiles(listing);
    forall i | 0 <= i < |files|
      ensures inner.value.domains[i].moduleName == Some(m) && inner.value.domains[i].name == DomainName(files[i])
    {
      assert Success(inner.value.domains[i]) == ParseInterfaceFile(g, fs, m, files[i]);
    }
  }
}
