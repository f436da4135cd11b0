/** The pure parts of `SchemaGenerator`: the SQL-to-Java type table, the
    directory-creating `save`, the file-name stub and the derivation of the
    template context from a table's metadata. The database introspection
    that produces the metadata and the Velocity rendering that consumes the
    context are not modelled; the clock reading is a parameter. */
module SchemaGenerator {
  import opened Results
  import opened Strings
  import opened Files

  /** `typesMapping`: the Java type of each SQL column type the generator knows. */
  const TypesMapping: map<string, string> := map[
    "tinyint" := "Integer",
    "smallint" := "Integer",
    "mediumint" := "Integer",
    "int" := "Integer",
    "integer" := "Integer",
    "bigint" := "Long",
    "float" := "Float",
    "double" := "Double",
    "decimal" := "BigDecimal",
    "bit" := "Boolean",
    "char" := "String",
    "varchar" := "String",
    "tinytext" := "String",
    "text" := "String",
    "mediumtext" := "String",
    "longtext" := "String",
    "longblob" := "byte[]",
    "date" := "Date",
    "datetime" := "Date",
    "timestamp" := "Date"]

  /** The Java type of a column, `undefined` for a type the table lacks. */
  function JavaType(sqlType: string): (r: Option<string>)
    ensures r == Some("Integer") <==> sqlType in {"tinyint", "smallint", "mediumint", "int", "integer"}
    ensures r == Some("Long") <==> sqlType == "bigint"
    ensures r == Some("Float") <==> sqlType == "float"
    ensures r == Some("Double") <==> sqlType == "double"
    ensures r == Some("BigDecimal") <==> sqlType == "decimal"
    ensures r == Some("Boolean") <==> sqlType == "bit"
    ensures r == Some("String") <==> sqlType in {"char", "varchar", "tinytext", "text", "mediumtext", "longtext"}
    ensures r == Some("byte[]") <==> sqlType == "longblob"
    ensures r == Some("Date") <==> sqlType in {"date", "datetime", "timestamp"}
    ensures r.Some? ==> r.value in {"Integer", "Long", "Float", "Double", "BigDecimal", "Boolean", "String", "byte[]", "Date"}
  {
    if sqlType in TypesMapping then Some(TypesMapping[sqlType]) else None
  }

  /** `save(filePath, content, force)`: creates the parent directory when
      nothing exists there, then writes only when forced or when nothing
      exists at the path. */
  function Save(fs: FileSystem, p: Path, content: string, force: bool): (r: Result<FileSystem>)
    ensures Dirname(p) in fs.dirs && p !in fs.dirs ==> r.Success?
    ensures Dirname(p) in fs.files && Dirname(p) !in fs.dirs && (force || !fs.Exists(p)) ==> r.Failure?
    ensures r.Success? ==> r.value.Exists(p)
    ensures r.Success? && (force || !fs.Exists(p)) ==> Dirname(p) in r.value.dirs
    ensures r.Success? && p != "" ==>
              r.value.files == if force || !fs.Exists(p) then fs.files[p := content] else fs.files
    ensures r.Success? ==> forall d | d in fs.dirs :: d in r.value.dirs && forall y | y in fs.dirs[d] :: y in r.value.dirs[d]
    ensures r.Success? && fs.WellFormed() ==> r.value.WellFormed()
  {
    var dir := Dirname(p);
    var fs1 :- if !fs.Exists(dir) then MakeDirs(fs, dir) else Success(fs);
    if force || !fs1.Exists(p) then Write(fs1, p, content) else Success(fs1)
  }

  /** An unforced save never overwrites: saving again over its result
      changes nothing. */
  lemma SaveUnforcedIdempotent(fs: FileSystem, p: Path, first: string, second: string)
    requires Save(fs, p, first, false).Success?
    ensures Save(Save(fs, p, first, false).value, p, second, false) == Save(fs, p, first, false)
  {
  }

  /** `getFileName(template, className, packageName, moduleName)`: a stub
      that computes a package path it never uses and names no file. */
  function GetFileName(template: string, className: string, packageName: string, moduleName: string): (r: string)
    ensures |r| == 0
  {
    ""
  }

  /** The Java generation options the context copies. */
  datatype JavaConfig = JavaConfig(
    packageName: string,
    author: string,
    email: string,
    tablePrefix: string,
    mainModule: string,
    serverName: string)

  /** A column of an introspected table: whether it is part of the primary
      key, its property name, its SQL name and type, and its comment, which
      may be absent. */
  datatype Column = Column(primary: bool, tscName: string, name: string, sqlType: string, comment: Option<string>)

  /** An introspected table. */
  datatype Entity = Entity(sqlName: string, columns: seq<Column>)

  /** A column as the templates see it. */
  datatype TemplateColumn = TemplateColumn(
    columnName: string,
    dataType: string,
    comments: string,
    attrName: string,
    attrname: string,
    attrType: Option<string>)

  /** The values the templates are rendered with. */
  datatype TemplateContext = TemplateContext(
    tableName: string,
    comments: string,
    pk: string,
    className: string,
    classname: string,
    pathName: string,
    packageName: string,
    author: string,
    email: string,
    datetime: string,
    moduleName: string,
    secondModuleName: string,
    serverName: string,
    customPackageName: string,
    columns: seq<TemplateColumn>)

  /** The index of the first primary-key column. */
  function FirstPrimary(columns: seq<Column>): (r: Option<nat>)
    ensures r.Some? ==> r.value < |columns| && columns[r.value].primary
    ensures r.Some? ==> forall j | 0 <= j < r.value :: !columns[j].primary
    ensures r.None? <==> forall j | 0 <= j < |columns| :: !columns[j].primary
  {
    if |columns| == 0 then None
    else if columns[0].primary then Some(0)
    else
      match FirstPrimary(columns[1..])
      case None => None
      case Some(i) => Some(i + 1)
  }

  /** The camel-cased class name of a table, from its name with the first
      occurrence of the table prefix removed. */
  function ClassName(cfg: JavaConfig, casing: Casing, sqlName: string): (r: string)
    ensures !Contains(sqlName, cfg.tablePrefix) ==> r == casing.camel(sqlName)
    ensures forall i | FirstAt(sqlName, cfg.tablePrefix, i) ::
              r == casing.camel(sqlName[..i] + sqlName[i + |cfg.tablePrefix|..])
  {
    casing.camel(RemoveFirst(sqlName, cfg.tablePrefix))
  }

  /** A prefixed table name loses exactly its prefix. */
  lemma PrefixedClassName(cfg: JavaConfig, casing: Casing, rest: string)
    ensures ClassName(cfg, casing, cfg.tablePrefix + rest) == casing.camel(rest)
  {
    var s := cfg.tablePrefix + rest;
    assert OccursAt(s, cfg.tablePrefix, 0);
    assert FirstAt(s, cfg.tablePrefix, 0);
    assert s[..0] + s[0 + |cfg.tablePrefix|..] == rest;
    assert RemoveFirst(s, cfg.tablePrefix) == rest;
  }

  /** The template view of one column, or the TypeError of reading an
      absent comment. */
  function TemplateColumnOf(c: Column, casing: Casing): (r: Result<TemplateColumn>)
    ensures r.Success? <==> c.comment.Some?
    ensures r.Success? ==>
              && r.value.columnName == c.name
              && r.value.dataType == c.sqlType
              && r.value.comments == RemoveAll(c.comment.value, '\n')
              && '\n' !in r.value.comments
              && multiset(r.value.comments) == multiset(c.comment.value)['\n' := 0]
              && r.value.attrname == casing.camel(c.name)
              && r.value.attrName == UpperFirst(r.value.attrname)
              && r.value.attrType == JavaType(c.sqlType)
  {
    match c.comment
    case None => Failure(UndefinedProperty("replace"))
    case Some(comment) =>
      var attrname := casing.camel(c.name);
      Success(TemplateColumn(c.name, c.sqlType, RemoveAll(comment, '\n'), UpperFirst(attrname), attrname, JavaType(c.sqlType)))
  }

  /** The template views of the columns, in order. */
  function TemplateColumns(columns: seq<Column>, casing: Casing): (r: Result<seq<TemplateColumn>>)
    ensures r.Success? <==> forall i | 0 <= i < |columns| :: columns[i].comment.Some?
    ensures r.Success? ==> |r.value| == |columns|
    ensures r.Success? ==> forall i | 0 <= i < |columns| :: TemplateColumnOf(columns[i], casing) == Success(r.value[i])
  {
    if |columns| == 0 then Success([])
    else
      var first :- TemplateColumnOf(columns[0], casing);
      var rest :- TemplateColumns(columns[1..], casing);
      Success([first] + rest)
  }

  /** `createTemplateContext(entity)`, with the formatted clock reading as
      `datetime`. It throws when no column is primary or a comment is
      absent. */
  function CreateTemplateContext(cfg: JavaConfig, casing: Casing, datetime: string, entity: Entity): (r: Result<TemplateContext>)
    ensures r.Success? <==>
              && (exists i | 0 <= i < |entity.columns| :: entity.columns[i].primary)
              && (forall i | 0 <= i < |entity.columns| :: entity.columns[i].comment.Some?)
    ensures r.Success? ==>
              && FirstPrimary(entity.columns).Some?
              && r.value.pk == entity.columns[FirstPrimary(entity.columns).value].tscName
    ensures r.Success? ==>
              && r.value.tableName == entity.sqlName
              && r.value.classname == ClassName(cfg, casing, entity.sqlName)
              && r.value.className == UpperFirst(r.value.classname)
              && r.value.customPackageName == r.value.className
              && r.value.secondModuleName == r.value.classname
              && r.value.pathName == casing.lower(r.value.classname)
              && r.value.comments == ""
              && r.value.moduleName == cfg.mainModule
              && r.value.packageName == cfg.packageName
    ensures r.Success? ==>
              && r.value.author == cfg.author
              && r.value.email == cfg.email
              && r.value.serverName == cfg.serverName
              && r.value.datetime == datetime
    ensures r.Success? ==>
              && |r.value.columns| == |entity.columns|
              && forall i | 0 <= i < |entity.columns| :: TemplateColumnOf(entity.columns[i], casing) == Success(r.value.columns[i])
  {
    var classname := ClassName(cfg, casing, entity.sqlName);
    var customPackageName := UpperFirst(classname);
    match FirstPrimary(entity.columns)
    case None => Failure(UndefinedProperty("tscName"))
    case Some(i) =>
      var pk := entity.columns[i].tscName;
      var columns :- TemplateColumns(entity.columns, casing);
      assert forall j | 0 <= j < |entity.columns| :: TemplateColumnOf(entity.columns[j], casing) == Success(columns[j]);
      Success(TemplateContext(
        entity.sqlName, "", pk, UpperFirst(classname), classname, casing.lower(classname),
        cfg.packageName, cfg.author, cfg.email, datetime, cfg.mainModule, classname,
        cfg.serverName, customPackageName, columns))
  }
}
