/** The barrel and registry writers of `CodeGenerator`:
    `autoGenerateIndexTs` rewrites a folder's `index.ts` to re-export its
    entries, `getTypesFromFolder` lists the type names a folder defines, and
    `generateRegisterDomain` rewrites `registry.ts` from the controllers,
    services and schemas folders. Both files are always overwritten. */
module IndexWriter {
  import opened Results
  import opened Strings
  import opened Files
  import opened Emitter

  /** A re-export statement for a module. */
  function ExportLine(m: string): string {
    "export * from './" + m + "';"
  }

  /** The line a barrel gets for one directory entry: a `.ts` file other than
      an `index.ts` is re-exported without its first ".ts", an entry without
      a dot is re-exported as a folder module, anything else is skipped. */
  function BarrelLine(name: string): (r: Option<string>)
    ensures Contains(name, ".ts") && !Contains(name, "index.ts") ==> r == Some(ExportLine(RemoveFirst(name, ".ts")))
    ensures !Contains(name, ".") ==> r == Some(ExportLine(name))
    ensures r.None? <==> Contains(name, ".") && (!Contains(name, ".ts") || Contains(name, "index.ts"))
  {
    assert Contains(name, ".ts") ==> Contains(name, ".") by {
      if Contains(name, ".ts") {
        assert "." + "ts" == ".ts";
        ContainsPrefix(name, ".", "ts");
      }
    }
    if Contains(name, ".ts") && !Contains(name, "index.ts") then
      Some(ExportLine(RemoveFirst(name, ".ts")))
    else if !Contains(name, ".") then
      Some(ExportLine(name))
    else None
  }

  /** The re-export lines of a listing, in listing order. */
  function BarrelLines(listing: seq<string>): (r: seq<string>)
    ensures |r| <= |listing|
    ensures forall line | line in r :: exists name | name in listing :: BarrelLine(name) == Some(line)
    ensures forall name | name in listing && BarrelLine(name).Some? :: BarrelLine(name).value in r
  {
    if |listing| == 0 then []
    else
      var rest := BarrelLines(listing[1..]);
      assert forall name | name in listing[1..] :: name in listing;
      match BarrelLine(listing[0])
      case None => rest
      case Some(line) => [line] + rest
  }

  /** The barrel of a listing keeps the listing's order. */
  lemma {:induction false} BarrelLinesAppend(a: seq<string>, b: seq<string>)
    ensures BarrelLines(a + b) == BarrelLines(a) + BarrelLines(b)
  {
    if |a| > 0 {
      assert (a + b)[1..] == a[1..] + b;
      BarrelLinesAppend(a[1..], b);
    } else {
      assert a + b == b;
    }
  }

  /** The text of a barrel: its lines, then `extra` when it is not empty,
      joined by newlines. */
  function BarrelText(listing: seq<string>, extra: string): string {
    Join(BarrelLines(listing) + (if extra != "" then [extra] else []), "\n")
  }

  /** `autoGenerateIndexTs(folders, extra)`: for each folder in turn, reads
      its listing and force-writes `index.ts` with the barrel of it. */
  function AutoGenerateIndexTs(g: Generator, fs: FileSystem, folders: seq<string>, extra: string): (r: Result<FileSystem>)
    ensures r.Success? ==> forall f | f in folders :: Resolve(g.sourcePath, f) in fs.dirs
    ensures r.Success? ==> forall f | f in folders :: Resolve(Resolve(g.sourcePath, f), "index.ts") in r.value.files
    ensures r.Success? ==> fs.files.Keys <= r.value.files.Keys && r.value.dirs.Keys == fs.dirs.Keys
    ensures |folders| == 1 && r.Success? ==>
              var dir := Resolve(g.sourcePath, folders[0]);
              r.value.files == fs.files[Resolve(dir, "index.ts") := BarrelText(fs.dirs[dir], extra)]
    ensures |folders| == 1 && r.Success? ==>
              var dir := Resolve(g.sourcePath, folders[0]);
              r.value.dirs == fs.dirs[dir := Insert(fs.dirs[dir], "index.ts")]
    ensures |folders| == 1 ==>
              var dir := Resolve(g.sourcePath, folders[0]);
              r.Success? <==> dir in fs.dirs && Resolve(dir, "index.ts") !in fs.dirs
    ensures r.Success? ==> forall q | fs.Exists(q) :: r.value.Exists(q)
    ensures r.Success? && fs.WellFormed() ==> r.value.WellFormed()
    decreases |folders|
  {
    if |folders| == 0 then Success(fs)
    else
      var dir := Resolve(g.sourcePath, folders[0]);
      var index := Resolve(dir, "index.ts");
      ResolveSplits(dir, "index.ts");
      var listing := ReadDir(fs, dir);
      if listing.Failure? then Failure(listing.error)
      else
        var fs1 := Save(fs, index, BarrelText(listing.value, extra), true);
        if fs1.Failure? then Failure(fs1.error)
        else
          var r := AutoGenerateIndexTs(g, fs1.value, folders[1..], extra);
          assert forall f | f in folders :: f == folders[0] || f in folders[1..];
          r
  }

  /** The type name `getTypesFromFolder` takes from one entry: a `.ts` file
      other than `index.ts` itself, without its first ".ts". */
  function TypeOfEntry(name: string): (r: Option<string>)
    ensures r.Some? <==> name != "index.ts" && Contains(name, ".ts")
    ensures r.Some? ==> r.value == RemoveFirst(name, ".ts") && |r.value| == |name| - 3
  {
    if name == "index.ts" then None
    else if Contains(name, ".ts") then Some(RemoveFirst(name, ".ts"))
    else None
  }

  /** The type names of a listing, in listing order. */
  function TypesFromListing(listing: seq<string>): (r: seq<string>)
    ensures |r| <= |listing|
    ensures forall t | t in r :: exists name | name in listing :: TypeOfEntry(name) == Some(t)
    ensures forall name | name in listing && TypeOfEntry(name).Some? :: TypeOfEntry(name).value in r
  {
    if |listing| == 0 then []
    else
      var rest := TypesFromListing(listing[1..]);
      assert forall name | name in listing[1..] :: name in listing;
      match TypeOfEntry(listing[0])
      case None => rest
      case Some(t) => [t] + rest
  }

  /** The type list keeps the listing's order. */
  lemma {:induction false} TypesFromListingAppend(a: seq<string>, b: seq<string>)
    ensures TypesFromListing(a + b) == TypesFromListing(a) + TypesFromListing(b)
  {
    if |a| > 0 {
      assert (a + b)[0] == a[0] && (a + b)[1..] == a[1..] + b;
      TypesFromListingAppend(a[1..], b);
    } else {
      assert a + b == b;
    }
  }

  /** Writing a folder's barrel does not change the types read from it:
      `index.ts` names no type, wherever it is listed. */
  lemma TypesIgnoreIndex(listing: seq<string>)
    ensures TypesFromListing(Insert(listing, "index.ts")) == TypesFromListing(listing)
  {
    if "index.ts" !in listing {
      TypesIgnoreNewIndex(listing);
    }
  }

  /** `TypesIgnoreIndex` for a listing without a barrel yet. */
  lemma {:induction false} TypesIgnoreNewIndex(listing: seq<string>)
    requires "index.ts" !in listing
    ensures TypesFromListing(InsertNew(listing, "index.ts")) == TypesFromListing(listing)
  {
    var r := InsertNew(listing, "index.ts");
    if |listing| == 0 {
      assert r == ["index.ts"];
      assert TypesFromListing(r) == TypesFromListing(r[1..]);
    } else if Before("index.ts", listing[0]) {
      assert r == ["index.ts"] + listing && r[1..] == listing;
      assert TypesFromListing(r) == TypesFromListing(r[1..]);
    } else {
      TypesIgnoreNewIndex(listing[1..]);
      assert r == [listing[0]] + InsertNew(listing[1..], "index.ts");
      assert r[0] == listing[0] && r[1..] == InsertNew(listing[1..], "index.ts");
    }
  }

  /** `getTypesFromFolder(folder)`. */
  function GetTypesFromFolder(g: Generator, fs: FileSystem, folder: string): (r: Result<seq<string>>)
    ensures r.Success? <==> Resolve(g.sourcePath, folder) in fs.dirs
    ensures r.Success? ==> r.value == TypesFromListing(fs.dirs[Resolve(g.sourcePath, folder)])
  {
    var listing :- ReadDir(fs, Resolve(g.sourcePath, folder));
    Success(TypesFromListing(listing))
  }

  /** The registry's entry for a schema type: its name without the first
      "Schema", paired with the schema. */
  function ModelEntry(schemaType: string): string {
    var name := RemoveFirst(schemaType, "Schema");
    "{ name: '" + name + "', schema: " + name + "Schema }"
  }

  /** The model entries of the schema types, in order. */
  function ModelEntries(schemaTypes: seq<string>): (r: seq<string>)
    ensures |r| == |schemaTypes| && forall i | 0 <= i < |r| :: r[i] == ModelEntry(schemaTypes[i])
  {
    if |schemaTypes| == 0 then [] else [ModelEntry(schemaTypes[0])] + ModelEntries(schemaTypes[1..])
  }

  /** The text of `registry.ts`: the template's fixed text around the
      joined controllers, services, schema types and model entries. */
  function RegistryText(controllers: seq<string>, services: seq<string>, schemaTypes: seq<string>): string {
    Concat(RegistryPieces(controllers, services, schemaTypes))
  }

  /** The pieces of the registry template, in order. */
  function RegistryPieces(controllers: seq<string>, services: seq<string>, schemaTypes: seq<string>): seq<string> {
    var c := Join(controllers, ",\n  ");
    var s := Join(services, ",\n  ");
    var m := Join(schemaTypes, ",\n  ");
    ["import {\n  ", c, "\n} from './controllers';\n\n",
     "import {\n  ", s, "\n} from './services';\n\n",
     "import {\n  ", m, "\n} from './schemas';\n\n\n",
     "export const controllers = [", c, "];\n\n",
     "export const services = [", s, "];\n\n",
     "export const models = [\n  ", Join(ModelEntries(schemaTypes), ",\n"), "\n];\n    "]
  }

  /** The registry imports and lists every controller and service, and
      holds the model entry of every schema type. */
  lemma RegistryTextLists(controllers: seq<string>, services: seq<string>, schemaTypes: seq<string>)
    ensures forall i | 0 <= i < |controllers| :: Contains(RegistryText(controllers, services, schemaTypes), controllers[i])
    ensures forall i | 0 <= i < |services| :: Contains(RegistryText(controllers, services, schemaTypes), services[i])
    ensures forall i | 0 <= i < |schemaTypes| ::
              Contains(RegistryText(controllers, services, schemaTypes), ModelEntry(schemaTypes[i]))
  {
    var pieces := RegistryPieces(controllers, services, schemaTypes);
    assert |pieces| == 18 && pieces[1] == Join(controllers, ",\n  ") && pieces[4] == Join(services, ",\n  ")
           && pieces[16] == Join(ModelEntries(schemaTypes), ",\n");
    forall i | 0 <= i < |controllers|
      ensures Contains(Concat(pieces), controllers[i])
    {
      JoinContains(controllers, ",\n  ", i);
      ConcatContains(pieces, 1, controllers[i]);
    }
    forall i | 0 <= i < |services|
      ensures Contains(Concat(pieces), services[i])
    {
      JoinContains(services, ",\n  ", i);
      ConcatContains(pieces, 4, services[i]);
    }
    forall i | 0 <= i < |schemaTypes|
      ensures Contains(Concat(pieces), ModelEntry(schemaTypes[i]))
    {
      JoinContains(ModelEntries(schemaTypes), ",\n", i);
      ConcatContains(pieces, 16, ModelEntry(schemaTypes[i]));
    }
  }

  /** A barrel holds the re-export line of every entry that has one, and the
      extra text when there is some. */
  lemma BarrelTextLists(listing: seq<string>, extra: string)
    ensures forall name | name in listing && BarrelLine(name).Some? :: Contains(BarrelText(listing, extra), BarrelLine(name).value)
    ensures extra != "" ==> Contains(BarrelText(listing, extra), extra)
  {
    var lines := BarrelLines(listing) + (if extra != "" then [extra] else []);
    forall name | name in listing && BarrelLine(name).Some?
      ensures Contains(BarrelText(listing, extra), BarrelLine(name).value)
    {
      var i :| 0 <= i < |BarrelLines(listing)| && BarrelLines(listing)[i] == BarrelLine(name).value;
      assert lines[i] == BarrelLine(name).value;
      JoinContains(lines, "\n", i);
    }
    if extra != "" {
      assert lines[|lines| - 1] == extra;
      JoinContains(lines, "\n", |lines| - 1);
    }
  }

  /** The registry's path. */
  function RegistryPath(g: Generator): Path {
    Resolve(g.sourcePath, "registry.ts")
  }

  /** The three typed folders and the source folder are in place and the
      registry's path is free for a file. */
  predicate RegistryReady(g: Generator, fs: FileSystem) {
    && Resolve(g.sourcePath, "controllers") in fs.dirs
    && Resolve(g.sourcePath, "services") in fs.dirs
    && Resolve(g.sourcePath, "schemas") in fs.dirs
    && g.sourcePath in fs.dirs
    && RegistryPath(g) !in fs.dirs
  }

  /** `generateRegisterDomain()`: reads the three folders and force-writes
      the registry. */
  function GenerateRegisterDomain(g: Generator, fs: FileSystem): (r: Result<FileSystem>)
    ensures r.Success? ==>
              && Resolve(g.sourcePath, "controllers") in fs.dirs
              && Resolve(g.sourcePath, "services") in fs.dirs
              && Resolve(g.sourcePath, "schemas") in fs.dirs
              && r.value.files == fs.files[RegistryPath(g) := RegistryText(
                   TypesFromListing(fs.dirs[Resolve(g.sourcePath, "controllers")]),
                   TypesFromListing(fs.dirs[Resolve(g.sourcePath, "services")]),
                   TypesFromListing(fs.dirs[Resolve(g.sourcePath, "schemas")]))]
    ensures r.Success? ==> forall q | fs.Exists(q) :: r.value.Exists(q)
    ensures r.Success? && fs.WellFormed() ==> r.value.WellFormed()
    ensures r.Success? <==> RegistryReady(g, fs)
    ensures r.Success? ==> r.value.dirs.Keys == fs.dirs.Keys
  {
    var controllers :- GetTypesFromFolder(g, fs, "controllers");
    var services :- GetTypesFromFolder(g, fs, "services");
    var schemaTypes :- GetTypesFromFolder(g, fs, "schemas");
    ResolveSplits(g.sourcePath, "registry.ts");
    Save(fs, RegistryPath(g), RegistryText(controllers, services, schemaTypes), true)
  }

  /** A dot-free type name that does not end in 'x' is read back from its
      `.ts` file unchanged. */
  lemma TypeOfTsFile(t: string)
    requires '.' !in t && |t| > 0 && t[|t| - 1] != 'x'
    ensures TypeOfEntry(t + ".ts") == Some(t)
  {
    var file := t + ".ts";
    assert file != "index.ts" by {
      if |file| == 8 {
        assert file[4] == t[|t| - 1] && "index.ts"[4] == 'x';
      }
    }
    FirstAtByFirstChar(file, ".ts", |t|);
    assert Contains(file, ".ts") by {
      assert OccursAt(file, ".ts", |t|);
    }
    RemoveTrailing(t, ".ts");
  }

  /** What the emitter writes, `getTypesFromFolder` reads back: the type of
      an artifact's file is the artifact's type name `<Name><Suffix>`,
      provided the domain name has no dot. */
  lemma TypeOfArtifact(d: Domain, k: Kind)
    requires '.' !in d.name
    ensures TypeOfEntry(ArtifactFileName(d, k)) == Some(UpperFirst(d.name) + FileSuffix(k))
  {
    var x := UpperFirst(d.name);
    UpperFirstKeepsAbsent(d.name, '.');
    FileSuffixPlain(k);
    var suffix := FileSuffix(k);
    var t := x + suffix;
    assert '.' !in t;
    assert t[|t| - 1] == suffix[|suffix| - 1];
    assert ArtifactFileName(d, k) == t + ".ts";
    TypeOfTsFile(t);
  }

  /** The registry's model entry for a schema type `<Name>Schema` is named
      `<Name>`, provided "Schema" first occurs at the end. */
  lemma ModelEntryOfSchema(x: string)
    requires FirstAt(x + "Schema", "Schema", |x|)
    ensures ModelEntry(x + "Schema") == "{ name: '" + x + "', schema: " + x + "Schema }"
  {
    RemoveTrailing(x, "Schema");
  }
}
