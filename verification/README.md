# nestx scaffolding generators and Mongoose service helpers, in Dafny

This project models three parts of the nestx repository:

- **`CodeGenerator`** (`packages/cli/scripts/CodeGenerator.ts`) is the scaffolding
  generator of the CLI. It walks the `interfaces` folder of a server's source tree
  and parses each interface file into a *domain*: a name, the module folder it came
  from, and its fields. For every domain it writes a dto, a service, a schema and a
  controller, rendered from templates. An existing file is never overwritten. It then
  rewrites the `index.ts` barrel of each generated folder and the `registry.ts` that
  lists every controller, service and schema.
- **`SchemaGenerator`** (`packages/cli/scripts/SchemaGenerator.ts`) has three pure
  parts: the SQL-to-Java type table, its directory-creating `save`, and the derivation
  of the template context from a table's metadata.
- **`MongooseService`** (`packages/server/src/commons/mongoose.service.ts`) is the
  generic data service of the server. The model covers its projection builder, the
  removal of undefined criteria, and the page, offset and condition of a paged
  `query`. It also covers the condition, projection, selected-record merge and output
  mapping of `search` and `searchTree`.

The file system is an in-memory value (`Files.FileSystem`). It maps each file path to
its contents, and each directory to its entry names in the order `readdirSync` returns
them. On Linux that is the byte order of the names (libuv sorts the `scandir` result with
`strcmp`), so a new entry takes its sorted place (`Files.Insert`). A tree is well formed
(`FileSystem.WellFormed`) when every path but the root is listed by its parent directory,
no path is both a file and a directory, and every listing is sorted. Every Node call that
can throw becomes a `Result`: `ENOENT`, `ENOTDIR`, `EISDIR`, `EEXIST`, a `TypeError`
from reading a property of `undefined`, and a `SyntaxError` from a keyword that does not
compile as a regular expression.

Some capabilities come from outside the generators and are parameters of the model:

- the Handlebars rendering of a loaded template (`Generator.render`);
- the TypeScript parser (`Generator.parse`);
- lodash's word-splitting case conversions (`Casing`);
- whether a keyword compiles as a regular expression (`validPattern`);
- whether a string is a valid ObjectId (`isObjectId`);
- the formatted clock reading (`datetime`);
- the documents and the selected record that the database returns.

`parseInterfaces` recurses on `interfaces/<entry>` for every dot-free entry. It resolves
that path against the `interfaces` folder itself, whatever folder the entry was found
in. So a folder that holds a folder of its own name is walked forever, until the stack
overflows. The model bounds the recursion depth with `fuel`, which stands for the room
left on the call stack. Running out is the `StackExhausted` error, and
`DomainBuilder.SelfNamedFolderExhausts` proves that this case always runs out.

Modules:

| module | file | models |
|---|---|---|
| `Results` | results.dfy | `Option`, `Result` and the errors |
| `Strings` | strings.dfy | `includes`, `indexOf`, `replace` with a string pattern, `substring(1)`, `join`, `upperFirst`/`lowerFirst` |
| `Files` | files.dfy | `existsSync`, `readdirSync`, `readFileSync`, `writeFileSync`, recursive `mkdirSync`, `dirname`, `basename`, `resolve` |
| `TypeInference` | type_inference.dfy | the field extraction inside `parseInterfaces` |
| `Emitter` | emitter.dfy | `save`, `generateItem` and the emission loop of `generate` |
| `IndexWriter` | index_writer.dfy | `autoGenerateIndexTs`, `getTypesFromFolder`, `generateRegisterDomain` |
| `DomainBuilder` | domain_builder.dfy | `parseInterfaces` |
| `CodeGenerator` | code_generator.dfy | `generate` |
| `SchemaGenerator` | schema_generator.dfy | `typesMapping`, `save`, `getFileName`, `createTemplateContext` |
| `MongooseService` | mongoose_service.dfy | `getFields`, `strip`, `query`, `search`, `searchTree` |
| `FieldVectors`, `NameVectors`, `EmitterVectors`, `BarrelVectors`, `ListingVectors` | vectors.dfy | concrete cases from the generated server package |

## Model

| member | source | states |
|---|---|---|
| Files.Insert | packages/cli/scripts/CodeGenerator.ts:209 | The new listing holds exactly the old names and the new one. A name already listed changes nothing, and a sorted listing stays sorted, so it holds no name twice. |
| Files.BeforeTotal | packages/cli/scripts/CodeGenerator.ts:209 | Two different names are ordered one way or the other. With `BeforeTransitive` and `BeforeIrreflexive`, the listing order is a strict total order. |
| Files.ReadDir | packages/cli/scripts/CodeGenerator.ts:209 | It succeeds exactly on a directory and gives its listing. Otherwise it fails with ENOTDIR when the path or one of its ancestors is a file, and with ENOENT when nothing is there. |
| Files.NoFileAbove | packages/cli/scripts/CodeGenerator.ts:209 | In a well-formed tree no existing path lies below a file, so checking the path itself before its ancestors gives the same outcome as Node's component-by-component resolution. |
| Files.ReadFile | packages/cli/scripts/CodeGenerator.ts:98 | It succeeds exactly on a file and gives its content. Otherwise it fails with EISDIR on a directory, ENOTDIR when an ancestor is a file, and ENOENT when nothing is there. |
| Files.Write | packages/cli/scripts/CodeGenerator.ts:48 | It succeeds exactly when the path is not a directory and its parent directory exists. Otherwise the error is EISDIR when the path is a directory, ENOTDIR when the parent or a further ancestor is a file, and ENOENT when nothing is in the way. The file holds the content and nothing else changes, except that a new name takes its sorted place in the parent's listing. A well-formed tree stays well formed. |
| Files.MakeDirs | packages/cli/scripts/SchemaGenerator.ts:182 | An existing directory is kept as it is, and a file in its place fails with EEXIST. On success the directory exists and no file changes. Every old directory keeps its entries, and every new directory held no file and is no longer than the requested path. A well-formed tree stays well formed. |
| Strings.RemoveFirst | packages/cli/scripts/CodeGenerator.ts:101 | Without an occurrence the string is unchanged. Otherwise exactly the first occurrence is cut out. |
| Strings.DropFirst | packages/cli/scripts/CodeGenerator.ts:101 | The result is the string without its first character, and empty for an empty string. |
| Strings.RemoveAll | packages/cli/scripts/SchemaGenerator.ts:224 | The result has no `c`, and every other character keeps its count. A one-character string loses it exactly when it is `c`. |
| Strings.RemoveAllAppend | packages/cli/scripts/SchemaGenerator.ts:224 | Removal distributes over concatenation, so with the one-character case the result is the text in order without `c`. |
| Strings.JoinAppend | packages/cli/scripts/CodeGenerator.ts:154 | Joining two non-empty lists end to end is joining each, with the separator between. |
| Strings.JoinContains | packages/cli/scripts/CodeGenerator.ts:154 | Every part is found in the joined text. |
| Strings.ConcatContains | packages/cli/scripts/CodeGenerator.ts:165-174 | Text found in one piece of a template literal is found in the whole text. |
| Strings.CaseFirstRoundTrip | packages/cli/scripts/CodeGenerator.ts:61-62 | `lowerFirst` of the `upperFirst` name is the `lowerFirst` name, and the other way round. |
| TypeInference.InferField | packages/cli/scripts/CodeGenerator.ts:108-126 | A member becomes a field with its own name. It throws exactly when the member has no name, has no type, or its label mentions "Array" on a node without an element type. A named type whose name mentions neither "Array" nor "TypeLiteral" is copied into `type` and `baseType`. A keyword keeps its label and is lower-cased for `baseType`. `T[]` of a named type becomes `[T]`, and any other array keeps "ArrayType". An object literal, and any other non-array node whose label mentions "TypeLiteral" but not "Array" (a reference to `MyTypeLiteral`, say), becomes `{[key:string]:any}`/`Object`. |
| TypeInference.LabelFacts | packages/cli/scripts/CodeGenerator.ts:110-112 | An object literal is labelled "TypeLiteral" and an array "ArrayType". Only the first mentions "TypeLiteral", and only the second mentions "Array". |
| TypeInference.InferFields | packages/cli/scripts/CodeGenerator.ts:108-127 | The members give one field each, in order. Extraction fails exactly when some member fails, and with the error of the first failing member, as `forEach` throws there. |
| TypeInference.FirstInterface | packages/cli/scripts/CodeGenerator.ts:103-105 | The members are those of the first interface declaration. There is none exactly when no statement is an interface. |
| TypeInference.ExtractFields | packages/cli/scripts/CodeGenerator.ts:102-128 | A file without an interface gives no fields. Otherwise there is one field per member of the first interface, named after it, and extraction fails exactly when a member fails, with the first failing member's error. |
| Emitter.FileSuffix | packages/cli/scripts/CodeGenerator.ts:74 | The suffix is the capitalised template name: Dto, Controller, Service, Schema. |
| Emitter.ArtifactPathSplits | packages/cli/scripts/CodeGenerator.ts:75-85 | For a slash-free domain name, an artifact's path lies directly in its kind's folder and is named `<Name><Suffix>.ts`. |
| Emitter.FileSuffixPlain | packages/cli/scripts/CodeGenerator.ts:74 | Every suffix is non-empty, has no slash and no dot, and does not end in "x". |
| Emitter.ArtifactPathsDistinct | packages/cli/scripts/CodeGenerator.ts:75-80 | Two artifacts at the same path have the same kind, because the four folders differ. |
| Emitter.Context | packages/cli/scripts/CodeGenerator.ts:60-72 | `Domain` and `domain` are the domain name with only the first letter re-cased, and each is recovered from the other. A domain without a module is routed under "undefined/". The fields are the domain's. |
| Emitter.ArtifactContent | packages/cli/scripts/CodeGenerator.ts:65-72 | The written text is the rendering with its first "``` typescript" marker cut out, and unchanged when there is none. |
| Emitter.Save | packages/cli/scripts/CodeGenerator.ts:46-50 | An unforced save over an existing path changes nothing. Otherwise it writes exactly that file with the content and lists a new name at its sorted place; it fails exactly when the path is a folder or its parent folder is missing. It never removes a path, adds no path but its own, and keeps the tree well formed. |
| Emitter.GenerateItem | packages/cli/scripts/CodeGenerator.ts:59-88 | An existing artifact is left as it is. For a new one it succeeds exactly when its folder exists, and writes the artifact's content at its path. Afterwards the artifact exists, nothing has vanished, no other path appears, the set of folders is unchanged, and the tree stays well formed. |
| Emitter.WithoutId | packages/cli/scripts/CodeGenerator.ts:187-189 | The schema's fields are the domain's fields except those named "id": same elements, same multiplicities, same order. |
| Emitter.SchemaVariant | packages/cli/scripts/CodeGenerator.ts:184-190 | The schema's domain keeps the name, has no module, and holds exactly the fields not named "id", in their order. |
| Emitter.DomainJobs | packages/cli/scripts/CodeGenerator.ts:181-193 | Each domain gives a dto, a service, a schema and a controller, in that order. The schema is built from the copy without module and without "id" fields. |
| Emitter.AllJobs | packages/cli/scripts/CodeGenerator.ts:181-194 | The jobs are the domains' job blocks laid end to end, four per domain, in domain order. |
| Emitter.JobFor | packages/cli/scripts/CodeGenerator.ts:181-193 | The job of a kind is the domain's job at that kind's position in the emission order. |
| Emitter.AllJobsCover | packages/cli/scripts/CodeGenerator.ts:181-194 | Every kind of every parsed domain is emitted. |
| Emitter.EmitJobs | packages/cli/scripts/CodeGenerator.ts:181-194 | After a successful emission, every job's artifact exists, nothing that existed has vanished, no directory is added or removed, and the tree stays well formed. |
| Emitter.EmitJobsSucceeds | packages/cli/scripts/CodeGenerator.ts:181-194 | Emission succeeds exactly when every job whose path is free has its folder in place. |
| Emitter.FoldersReadyStep | packages/cli/scripts/CodeGenerator.ts:181-194 | After a first job that succeeds, the remaining jobs are ready exactly when all the jobs were. |
| Emitter.EmitJobsFiles | packages/cli/scripts/CodeGenerator.ts:181-194 | Files already present keep their content. Every new file is at some job's path, and holds the artifact of the first job that writes it. |
| Emitter.EmitJobsSkipsExisting | packages/cli/scripts/CodeGenerator.ts:46-50 | Emitting into a tree that already holds every target succeeds and changes nothing. |
| Emitter.EmitJobsIdempotent | packages/cli/scripts/CodeGenerator.ts:181-194 | A second emission over the first one's result changes nothing. |
| IndexWriter.BarrelLine | packages/cli/scripts/CodeGenerator.ts:209-216 | A `.ts` entry other than an `index.ts` is re-exported without its first ".ts". A dot-free entry is re-exported as a folder. An entry is skipped exactly when it has a dot and is not such a `.ts` file. |
| IndexWriter.BarrelLines | packages/cli/scripts/CodeGenerator.ts:208-216 | Every line comes from an entry of the listing, and every entry that has a line contributes it. |
| IndexWriter.BarrelLinesAppend | packages/cli/scripts/CodeGenerator.ts:209-216 | The lines follow the listing's order: the barrel of two listings end to end is their barrels end to end. |
| IndexWriter.AutoGenerateIndexTs | packages/cli/scripts/CodeGenerator.ts:205-223 | It succeeds only when every folder exists, and then every folder has an `index.ts`. For one folder it succeeds exactly when the folder exists and its `index.ts` is not a folder; the only change to file contents is that `index.ts` holds the barrel of the folder's listing, and the listing gains `index.ts` at its sorted place. Nothing vanishes, and the tree stays well formed. |
| IndexWriter.BarrelTextLists | packages/cli/scripts/CodeGenerator.ts:218-221 | A barrel holds the re-export line of every entry that has one, and the extra text when there is some. |
| IndexWriter.TypeOfEntry | packages/cli/scripts/CodeGenerator.ts:146-148 | An entry names a type exactly when it contains ".ts" and is not `index.ts`. The type is the name without its first ".ts", three characters shorter. |
| IndexWriter.TypesFromListing | packages/cli/scripts/CodeGenerator.ts:145-149 | Every type comes from an entry, and every entry that names a type contributes it. |
| IndexWriter.TypesFromListingAppend | packages/cli/scripts/CodeGenerator.ts:145-149 | The types follow the listing's order. |
| IndexWriter.TypesIgnoreIndex | packages/cli/scripts/CodeGenerator.ts:145-149 | Listing `index.ts` in a folder does not change the types read from it. |
| IndexWriter.GetTypesFromFolder | packages/cli/scripts/CodeGenerator.ts:142-151 | It succeeds exactly when the folder exists, and then gives the types of its listing. |
| IndexWriter.ModelEntries | packages/cli/scripts/CodeGenerator.ts:158-163 | There is one model entry per schema type, in order. |
| IndexWriter.ModelEntryOfSchema | packages/cli/scripts/CodeGenerator.ts:160-161 | The entry of `<Name>Schema` is named `<Name>` and points at `<Name>Schema`. |
| IndexWriter.RegistryTextLists | packages/cli/scripts/CodeGenerator.ts:165-174 | The registry text names every controller and every service, and holds the model entry of every schema type. |
| IndexWriter.GenerateRegisterDomain | packages/cli/scripts/CodeGenerator.ts:153-177 | It succeeds exactly when the source folder and the three typed folders exist and no directory sits at the registry's path. On success the three folders exist, and the only change to file contents is that `registry.ts` holds the registry of the three folders' type lists. Nothing vanishes, and the tree stays well formed. |
| IndexWriter.TypeOfTsFile | packages/cli/scripts/CodeGenerator.ts:146-147 | A dot-free name that does not end in "x" is read back unchanged from its `.ts` file. |
| IndexWriter.TypeOfArtifact | packages/cli/scripts/CodeGenerator.ts:146-147 | The type read back from an artifact's file is the artifact's type `<Name><Suffix>`, which the registry imports. |
| DomainBuilder.EntryKindsDisjoint | packages/cli/scripts/CodeGenerator.ts:94-135 | No entry is both an interface file and a module folder. |
| DomainBuilder.DomainName | packages/cli/scripts/CodeGenerator.ts:101 | The domain name is the file name without its first character and without the first ".ts" after it, and that whole rest when it holds no ".ts". |
| DomainBuilder.DomainNameOfInterfaceFile | packages/cli/scripts/CodeGenerator.ts:94-101 | `I<Name>.ts` contains ".ts" and names the domain `<Name>`. |
| DomainBuilder.InterfaceFiles | packages/cli/scripts/CodeGenerator.ts:93-94 | The files parsed are exactly the entries that are interface files. |
| DomainBuilder.ParseInterfaceFile | packages/cli/scripts/CodeGenerator.ts:95-134 | Parsing succeeds exactly when the file can be read and its fields extracted. The domain is named after the file and tagged with the module. |
| DomainBuilder.ParseInterfaces | packages/cli/scripts/CodeGenerator.ts:90-93 | With no stack left it fails with StackExhausted, and a missing folder fails. On success no file or folder vanishes, no folder is added, the tree stays well formed, and every domain carries a module. |
| DomainBuilder.ParseEntries | packages/cli/scripts/CodeGenerator.ts:93-139 | It has the same invariants as the walk of a folder: no file or folder vanishes, the tree stays well formed, and every domain names its module. |
| DomainBuilder.ParseEntriesAppend | packages/cli/scripts/CodeGenerator.ts:93-139 | Walking two listings end to end is walking the first, then walking the second from the tree the first left: the domains are laid end to end, and a failure of the first stops the walk. |
| DomainBuilder.FlatListingSucceeds | packages/cli/scripts/CodeGenerator.ts:93-134 | A listing without module folders is walked successfully exactly when every interface file in it parses. |
| DomainBuilder.FlatListingParsed | packages/cli/scripts/CodeGenerator.ts:93-134 | A listing without module folders writes nothing and yields one domain per interface file, in order, each equal to that file's parse. |
| DomainBuilder.FileEntryStep | packages/cli/scripts/CodeGenerator.ts:94-134 | An interface file at the head of a listing puts its domain ahead of the rest, and a failure of either stops the walk. |
| DomainBuilder.OtherEntryStep | packages/cli/scripts/CodeGenerator.ts:93-139 | An entry that is neither an interface file nor a module folder is skipped. |
| DomainBuilder.WalkReadsFolder | packages/cli/scripts/CodeGenerator.ts:90-93 | With stack left, the walk of an existing folder is the walk of its listing. |
| DomainBuilder.SubModuleFailure | packages/cli/scripts/CodeGenerator.ts:135-137 | A module folder whose own walk fails fails its parent's walk with the same error. |
| DomainBuilder.SelfNamedStep | packages/cli/scripts/CodeGenerator.ts:135-137 | For a folder whose only entry has its own name, a failing walk one frame deeper is also the result one frame up. |
| DomainBuilder.FlatModuleWalk | packages/cli/scripts/CodeGenerator.ts:90-134 | The walk of a module folder that holds only files writes nothing and yields one domain per interface file, tagged with the folder. |
| DomainBuilder.SelfNamedFolderExhausts | packages/cli/scripts/CodeGenerator.ts:135-137 | A module folder whose only entry has the module's own name is walked until the stack runs out. |
| DomainBuilder.ModuleFolderPath | packages/cli/scripts/CodeGenerator.ts:136-137 | The folder whose barrel is rewritten after a module's walk is the folder that walk read. |
| DomainBuilder.SubModuleParsed | packages/cli/scripts/CodeGenerator.ts:135-138 | A module folder that holds only files yields one domain per interface file, in order, tagged with the folder's name. Its barrel is the only file written. |
| CodeGenerator.Generate | packages/cli/scripts/CodeGenerator.ts:179-203 | Once the interfaces parse, a run succeeds exactly when every free artifact path has its folder, the five folders exist with no directory at their barrel paths, the source folder exists, and no directory sits at the registry's path. A successful run parsed the interfaces, each barrel holds the barrel of its folder as emission left it, and every artifact of every domain exists. So do the five barrels and the registry. Nothing vanishes and the tree stays well formed. On a well-formed tree with plain domain names, the registry lists every domain's controller, service and schema. |
| CodeGenerator.EmitDomains | packages/cli/scripts/CodeGenerator.ts:181-194 | Emission succeeds exactly when every free artifact path has its folder. Then every kind of every parsed domain exists, files already present keep their content, every new file is an artifact's, and holds the content of the first job that writes it. Nothing vanishes, no directory is added or removed, and the tree stays well formed. |
| CodeGenerator.RewriteBarrels | packages/cli/scripts/CodeGenerator.ts:196-200 | The per-folder calls succeed exactly when every folder exists and no directory sits at its barrel path. Then every folder has a barrel. No file vanishes, no path vanishes, no directory is added or removed, and the tree stays well formed. |
| CodeGenerator.BarrelsWritten | packages/cli/scripts/CodeGenerator.ts:196-200 | A completed run of the per-folder calls is a chain of single barrel writes, one per folder in order, from the starting tree to the result. |
| CodeGenerator.BarrelFoldersDistinct | packages/cli/scripts/CodeGenerator.ts:196-200 | The five folders have different paths and different barrels, and no barrel is the registry. |
| CodeGenerator.BarrelsSurvive | packages/cli/scripts/CodeGenerator.ts:196-201 | Each barrel keeps the text it was written with, the barrel of its folder's listing before the rewrite. |
| CodeGenerator.RegistryAfterBarrels | packages/cli/scripts/CodeGenerator.ts:196-201 | The registry written after the barrels lists the typed folders' types as they were before them. |
| CodeGenerator.RegistryWriteOf | packages/cli/scripts/CodeGenerator.ts:153-177 | `generateRegisterDomain` writes only the registry, holding the types of the folders it reads. |
| CodeGenerator.RewriteOutcome | packages/cli/scripts/CodeGenerator.ts:196-201 | After the five barrel calls and the registry, every barrel holds the barrel of its folder's original listing, and the registry lists the original typed folders. |
| CodeGenerator.RewriteIndexes | packages/cli/scripts/CodeGenerator.ts:196-201 | It succeeds exactly when the five folders and the source folder exist, with no directory at the barrel paths or at the registry's path. On success each of the five barrels holds the barrel of its folder's listing before the rewrite, and the registry lists the controllers, services and schemas found before it. Nothing vanishes and the tree stays well formed. When every artifact of the domains exists beforehand, the registry lists them all. |
| CodeGenerator.ExistingArtifactListed | packages/cli/scripts/CodeGenerator.ts:142-151 | In a well-formed tree, an existing artifact's type is among its folder's types. |
| CodeGenerator.RegistryListsArtifacts | packages/cli/scripts/CodeGenerator.ts:153-177 | On a well-formed tree holding every artifact, a registry of its typed folders lists them all. |
| SchemaGenerator.JavaType | packages/cli/scripts/SchemaGenerator.ts:101-122 | For each Java type, the exact set of SQL types that map to it. Any other type has none. |
| SchemaGenerator.Save | packages/cli/scripts/SchemaGenerator.ts:179-188 | With the parent folder present it succeeds unless the path is a folder. With a file in the parent's place it fails. Afterwards the path exists and, when a write was due, its parent folder exists. File contents change only at the path, and only when forced or new. Folders are kept, and the tree stays well formed. |
| SchemaGenerator.SaveUnforcedIdempotent | packages/cli/scripts/SchemaGenerator.ts:185-187 | A second unforced save to the same path changes nothing. |
| SchemaGenerator.GetFileName | packages/cli/scripts/SchemaGenerator.ts:190-200 | The stub names no file: the result is empty. |
| SchemaGenerator.FirstPrimary | packages/cli/scripts/SchemaGenerator.ts:217 | It finds the first primary-key column, and none exactly when no column is primary. |
| SchemaGenerator.ClassName | packages/cli/scripts/SchemaGenerator.ts:213-215 | A table name without the prefix is camel-cased as it is. Otherwise the name with the first occurrence of the prefix cut out, wherever it sits, is camel-cased. |
| SchemaGenerator.PrefixedClassName | packages/cli/scripts/SchemaGenerator.ts:213-215 | A table name that starts with the prefix loses exactly the prefix. |
| SchemaGenerator.TemplateColumnOf | packages/cli/scripts/SchemaGenerator.ts:218-229 | A column converts exactly when it has a comment. The comment loses all its newlines and nothing else. The property name is camel-cased, with an upper-first twin, and the Java type comes from the table. |
| SchemaGenerator.TemplateColumns | packages/cli/scripts/SchemaGenerator.ts:218-229 | All columns convert, in order, exactly when every column has a comment. |
| SchemaGenerator.CreateTemplateContext | packages/cli/scripts/SchemaGenerator.ts:202-248 | The context exists exactly when some column is primary and every column has a comment. Its key is the property name of the first primary column, as `FirstPrimary` finds it. The class names derive from the unprefixed table name, and the columns correspond one to one. |
| MongooseService.GetFields | packages/server/src/commons/mongoose.service.ts:220-228 | The projection selects exactly the listed fields, each with 1. |
| MongooseService.Strip | packages/server/src/commons/mongoose.service.ts:231-236 | The stripped object keeps exactly the entries that are not undefined, with their values. |
| MongooseService.StripIdempotent | packages/server/src/commons/mongoose.service.ts:231-236 | Stripping twice is stripping once. |
| MongooseService.ClampPage | packages/server/src/commons/mongoose.service.ts:56 | The page is at least 1, and a page of at least 1 is kept. |
| MongooseService.QueryCondition | packages/server/src/commons/mongoose.service.ts:57-60 | It throws exactly when a non-empty keyword does not compile. Without such a keyword the condition is the stripped query. With one, the condition adds a case-insensitive pattern under the search field and keeps the rest. |
| MongooseService.Query | packages/server/src/commons/mongoose.service.ts:56-73 | The page is clamped and the offset is size × (page − 1), never negative for a non-negative size. The projection selects the requested fields, and the call fails exactly when the condition does. |
| MongooseService.PagesTile | packages/server/src/commons/mongoose.service.ts:56-73 | Consecutive pages start one page apart, and the first starts at 0. |
| MongooseService.SearchCondition | packages/server/src/commons/mongoose.service.ts:157-164 | It throws exactly when a non-empty keyword does not compile. The condition mentions only the search field and "category". The search field is present exactly with a non-empty keyword. "category" is present with a non-empty category, which wins over a keyword pattern on a search field of that name. |
| MongooseService.SearchTreeCondition | packages/server/src/commons/mongoose.service.ts:96-102 | It throws exactly when a non-empty keyword does not compile (the empty pattern always compiles). Otherwise it is the condition of `search`. |
| MongooseService.SearchProjection | packages/server/src/commons/mongoose.service.ts:166-168 | It selects exactly the label and value fields. |
| MongooseService.TreeProjection | packages/server/src/commons/mongoose.service.ts:104-107 | It selects the fields `search` selects, plus "parent". |
| MongooseService.WantsSelected | packages/server/src/commons/mongoose.service.ts:177 | The record is looked up only for a non-empty id: any such id when the value field is not "_id", and a valid ObjectId otherwise. |
| MongooseService.SelectedCondition | packages/server/src/commons/mongoose.service.ts:178-179 | The lookup matches only the value field, against the id. |
| MongooseService.FindIndex | packages/server/src/commons/mongoose.service.ts:182 | It finds the first document whose value field loosely equals the id, and none exactly when no document matches. |
| MongooseService.LooseEqualsUnique | packages/server/src/commons/mongoose.service.ts:182 | A document value loosely equals at most one id. |
| MongooseService.MergeSelected | packages/server/src/commons/mongoose.service.ts:181-186 | The found documents stay a prefix. The selected record is appended, last, exactly when it was found and no document carries the id. |
| MongooseService.MergeSelectedIdempotent | packages/server/src/commons/mongoose.service.ts:181-186 | Merging a record that carries its own id a second time adds nothing. |
| MongooseService.Candidates | packages/server/src/commons/mongoose.service.ts:177-187 | The selected record is merged in only when the id is non-empty and is a valid ObjectId or names a value field other than "_id". |
| MongooseService.ToLabelValues | packages/server/src/commons/mongoose.service.ts:189-195 | There is one label/value pair per document, in order, read from the label and value fields. |
| MongooseService.ToTreeNodes | packages/server/src/commons/mongoose.service.ts:128-135 | There is one node per document, in order, with title, id and parent. |
| MongooseService.Search | packages/server/src/commons/mongoose.service.ts:148-196 | The output starts with the mapped documents. It has one extra entry exactly when the record is looked up and found and no document carries the id, and that entry is the selected record's. |
| MongooseService.SearchTree | packages/server/src/commons/mongoose.service.ts:86-136 | It is the same with tree nodes. |
| FieldVectors.KeywordMember | packages/cli/scripts/CodeGenerator.ts:110-116 | A keyword member is labelled with its kind name without "Keyword". |
| FieldVectors.StringMemberVector | packages/server/src/interfaces/core/IAccount.ts:2 | `username: string` is a "String" field. |
| FieldVectors.KeywordArrayMemberVector | packages/server/src/interfaces/core/IAccount.ts:8 | `groups: string[]` keeps the label "ArrayType". |
| FieldVectors.ReferenceArrayVectors | packages/cli/scripts/CodeGenerator.ts:118-120 | `Tag[]` becomes `[Tag]`, and `Array<Tag>` throws. |
| FieldVectors.TypeLiteralNameVector | packages/cli/scripts/CodeGenerator.ts:118-123 | `x: MyTypeLiteral` becomes `{[key:string]:any}`/`Object`, not the named type. |
| NameVectors.AccountIsInterfaceFile | packages/server/src/interfaces/core/IAccount.ts:1 | `IAccount.ts` is parsed as an interface file. |
| NameVectors.AccountDomainName | packages/server/src/interfaces/core/IAccount.ts:1 | `IAccount.ts` names the domain `Account`. |
| EmitterVectors.AccountControllerFileName | packages/server/src/registry.ts:2 | The account's controller file is `AccountController.ts`. |
| EmitterVectors.AccountRouteVector | packages/server/src/controllers/AccountController.ts:30 | The account of module `core` is routed at `core/account`. |
| EmitterVectors.AccountControllerPathVector | packages/cli/scripts/CodeGenerator.ts:82-85 | The controller is written to `controllers/AccountController.ts` under the source root. |
| BarrelVectors.TsFileLine | packages/cli/scripts/CodeGenerator.ts:210-212 | A plain `.ts` file is re-exported without its extension. |
| BarrelVectors.IndexLine | packages/cli/scripts/CodeGenerator.ts:210-215 | A barrel skips its own `index.ts`. |
| BarrelVectors.ControllersBarrelLines | packages/cli/scripts/CodeGenerator.ts:209-216 | The controllers folder re-exports its one controller. |
| BarrelVectors.ControllersBarrelVector | packages/cli/scripts/CodeGenerator.ts:205-221 | The controllers barrel is exactly `export * from './AccountController';`. |
| BarrelVectors.AccountControllerExport | packages/cli/scripts/CodeGenerator.ts:212 | The controller's re-export line is `export * from './AccountController';`. |
| BarrelVectors.InterfacesBarrelLines | packages/cli/scripts/CodeGenerator.ts:212-214 | The interfaces folder re-exports only its module folder. |
| BarrelVectors.CoreExport | packages/cli/scripts/CodeGenerator.ts:214 | The module folder's re-export line is `export * from './core';`. |
| BarrelVectors.InterfacesBarrelVector | packages/cli/scripts/CodeGenerator.ts:213-214 | The interfaces barrel re-exports the `core` module folder. |
| BarrelVectors.AccountModelEntryVector | packages/server/src/registry.ts:19 | The account schema's model entry is the one the registry holds. |
| ListingVectors.SortedWriteVector | packages/cli/scripts/CodeGenerator.ts:48 | Writing `AccountController.ts` into a folder listing `ZooController.ts` lists it first. |

## Left out

- File-system state after a failure: a `Failure` result carries only the error, not the tree. In the program, the writes made before the throw stay on disk. Examples: the artifacts of earlier domains when a later `generateItem` throws (CodeGenerator.ts:181-194), module barrels written at line 137 before a later parse error, and earlier barrels when a later folder or the registry fails (lines 196-201). The model states what a completed run leaves behind, and for a failed run only its error.
- Real I/O is not modelled. The file system is a value, and `console.log` output is dropped.
- `path.resolve` normalisation is not modelled: `Resolve` joins with "/". The root is the generator's `sourcePath` as given, and the constructor's working-directory logic is left out.
- Template loading (`load`, `loadTemplates`) is left out, and so is the Handlebars and Velocity rendering. Rendering is the `render` parameter.
- The TypeScript parser is the `parse` parameter. Its output is reduced to the syntax kinds, type names and element types the generator reads.
- lodash's `kebabCase`, `camelCase` and `lowerCase` are the `Casing` parameters, because their Unicode word rules are out of scope. `upperFirst` and `lowerFirst` are modelled for ASCII letters only.
- DomainBuilder.ParseInterfaces: the depth of recursion is bounded by `fuel`. A real stack's size is not known, so the model cannot say at which depth Node overflows; it only says that running out is the `StackExhausted` error.
- `SchemaGenerator.loadDataSchema` and the database introspection are left out, because they are database I/O. The metadata is the input `Entity`.
- The `dayjs` clock reading is the `datetime` parameter. The commented-out body of `SchemaGenerator.generate` is left out because it does nothing.
- MongooseService.Query: sorting, `populate`, `limit`, `skip`, `countDocuments` and the result envelope are database calls and are left out. A non-integer or `NaN` page is not modelled: pages are integers.
- MongooseService.Strip: the deletion of undefined keys from the caller's own object is not modelled, only the returned copy. The copy has the same entries as the mutated object.
- `LooseEqualsString` covers strings, ObjectIds and regular expressions. Number and boolean document values are not modelled in loose equality.
- `SchemaGenerator.JavaType`: keys inherited from `Object.prototype` (such as "constructor") are not modelled, because a lookup of them returns a function rather than a type name.
- `create`, `update`, `findOne`, `findById` and `remove` of `MongooseService`, and the repository and controller services, are left out: they forward straight to the database.
- The script entry points (`new CodeGenerator("../server/src").generate()`) are left out because they are I/O.
- The full literal text of `registry.ts` for a sample tree is not written out as one vector. Its pieces are: `AccountModelEntryVector`, `AccountControllerFileName`, and the registry lemmas `RegistryTextLists` and `RegistryListsArtifacts`.
- TypeInference.InferField: a member named by a string or numeric literal (`"a-b": string`) is not represented. Its name node has no `escapedText`, so the source pushes a field whose name is `undefined`; the model's members carry an identifier name or none.
- TypeInference.InferField: a qualified type reference (`Types.ObjectId`) is not represented. Its `typeName` has no `escapedText`, so the source's `type.includes` throws a TypeError; the model's type references carry a plain name.
- SchemaGenerator.Save: gives sufficient conditions for success and for failure, not an if-and-only-if. A failure of the recursive `mkdirSync` at a deeper ancestor is not characterised.
