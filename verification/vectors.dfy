/** Concrete cases taken from the server package the generator produced:
    the `IAccount` interface in `interfaces/core`, the account controller
    routed at `core/account`, and the barrels and registry of its folders. */

/** Fields of `IAccount` members. */
module FieldVectors {
  import opened Results
  import opened Strings
  import opened TypeInference

  /** A member typed by a keyword whose name mentions neither "Array" nor
      "TypeLiteral" is labelled by the kind name without "Keyword". */
  lemma KeywordMember(name: string, x: string, lower: string -> string)
    requires 'K' !in x && 'A' !in x && 'T' !in x
    ensures InferField(Member(Some(name), Some(OtherType(x + "Keyword"))), lower) == Success(Field(name, x, lower(x)))
  {
    FirstAtByFirstChar(x + "Keyword", "Keyword", |x|);
    RemoveTrailing(x, "Keyword");
    AbsentByFirstChar(x, "Array");
    AbsentByFirstChar(x, "TypeLiteral");
  }

  /** `username: string` is a "String" field. */
  lemma StringMemberVector(lower: string -> string)
    ensures InferField(Member(Some("username"), Some(OtherType("StringKeyword"))), lower)
            == Success(Field("username", "String", lower("String")))
  {
    assert "String" + "Keyword" == "StringKeyword";
    KeywordMember("username", "String", lower);
  }

  /** `groups: string[]` is an array of a keyword, so it keeps the label
      "ArrayType" rather than a bracket marker. */
  lemma KeywordArrayMemberVector(lower: string -> string)
    ensures InferField(Member(Some("groups"), Some(ArrayType(OtherType("StringKeyword")))), lower)
            == Success(Field("groups", "ArrayType", lower("ArrayType")))
  {
  }

  /** `tags: Tag[]` becomes the marker `[Tag]`; `tags: Array<Tag>` throws. */
  lemma ReferenceArrayVectors(lower: string -> string)
    ensures InferField(Member(Some("tags"), Some(ArrayType(TypeReference("Tag")))), lower)
            == Success(Field("tags", "[Tag]", "[Tag]"))
    ensures InferField(Member(Some("tags"), Some(TypeReference("Array"))), lower).Failure?
  {
    assert ArrayMarker("Tag") == "[Tag]";
    assert OccursAt("Array", "Array", 0);
  }

  /** `x: MyTypeLiteral` names a type whose name mentions "TypeLiteral", so
      it becomes the open dictionary rather than the named type. */
  lemma TypeLiteralNameVector(lower: string -> string)
    ensures InferField(Member(Some("x"), Some(TypeReference("MyTypeLiteral"))), lower)
            == Success(Field("x", ObjectBagType, ObjectBaseType))
  {
    AbsentByFirstChar("MyTypeLiteral", "Array");
    assert OccursAt("MyTypeLiteral", "TypeLiteral", 2);
  }
}

/** The domain named by `IAccount.ts`. */
module NameVectors {
  import opened Strings
  import opened DomainBuilder

  /** `IAccount.ts` is parsed as an interface file. */
  lemma AccountIsInterfaceFile()
    ensures IsInterfaceFile("IAccount.ts")
  {
    AbsentByFirstChar("IAccount.ts", "index.ts");
    assert OccursAt("IAccount.ts", ".ts", 8);
  }

  /** The interface file `IAccount.ts` names the domain `Account`. */
  lemma AccountDomainName()
    ensures DomainName("IAccount.ts") == "Account"
  {
    var x := "Account";
    assert "I" + x + ".ts" == "IAccount.ts";
    DomainNameOfInterfaceFile(x);
  }
}

/** Where the account's controller goes and how it is routed. */
module EmitterVectors {
  import opened Results
  import opened Strings
  import opened Files
  import opened TypeInference
  import opened Emitter

  /** The file name of the account's controller. */
  lemma AccountControllerFileName(d: Domain)
    requires d.name == "Account"
    ensures ArtifactFileName(d, Controller) == "AccountController.ts"
  {
    assert UpperFirst(d.name) == "Account" by {
      assert UpperChar('A') == 'A';
      assert "Account"[1..] == "ccount";
      assert ['A'] + "ccount" == "Account";
    }
    assert FileSuffix(Controller) == "Controller";
    assert "Account" + "Controller" + ".ts" == "AccountController.ts";
  }

  /** The account of module `core` is routed at `core/account`. */
  lemma AccountRouteVector(g: Generator, fields: seq<Field>)
    requires g.casing.kebab("Account") == "account"
    ensures Context(g, Domain("Account", Some("core"), fields)).controllerPath == "core/account"
  {
    assert "core" + "/" + "account" == "core/account";
  }

  /** The account's controller is written to `controllers/AccountController.ts`
      under the source root. */
  lemma AccountControllerPathVector(root: Path, fields: seq<Field>)
    ensures ArtifactPath(root, Domain("Account", Some("core"), fields), Controller)
            == root + "/controllers/AccountController.ts"
  {
    assert "/" + "controllers" + "/" + "AccountController.ts" == "/controllers/AccountController.ts";
    AccountControllerFileName(Domain("Account", Some("core"), fields));
    ResolveTwice(root, "controllers", "AccountController.ts");
  }

  /** Two resolutions append both names, each after a slash. */
  lemma ResolveTwice(root: Path, a: string, b: string)
    ensures Resolve(Resolve(root, a), b) == root + ("/" + a + "/" + b)
  {
  }

}

/** The barrels and the registry entry of the account. */
module BarrelVectors {
  import opened Results
  import opened Strings
  import opened IndexWriter

  /** The barrel line of a `.ts` file whose name has no dot and no 'i'. */
  lemma TsFileLine(t: string)
    requires '.' !in t && 'i' !in t
    ensures BarrelLine(t + ".ts") == Some(ExportLine(t))
  {
    FirstAtByFirstChar(t + ".ts", ".ts", |t|);
    RemoveTrailing(t, ".ts");
    AbsentByFirstChar(t + ".ts", "index.ts");
    assert OccursAt(t + ".ts", ".ts", |t|);
  }

  /** A barrel skips the `index.ts` it replaces. */
  lemma IndexLine()
    ensures BarrelLine("index.ts") == None
  {
    assert OccursAt("index.ts", "index.ts", 0) && OccursAt("index.ts", ".", 5);
  }

  /** The barrel lines of the controllers folder. */
  lemma ControllersBarrelLines()
    ensures BarrelLines(["AccountController.ts", "index.ts"]) == [ExportLine("AccountController")]
  {
    assert "AccountController" + ".ts" == "AccountController.ts";
    TsFileLine("AccountController");
    IndexLine();
    var listing := ["AccountController.ts", "index.ts"];
    assert listing[1..] == ["index.ts"];
    assert listing[1..][1..] == [];
  }

  /** The barrel of the controllers folder. */
  lemma ControllersBarrelVector()
    ensures BarrelText(["AccountController.ts", "index.ts"], "") == "export * from './AccountController';"
  {
    AccountControllerExport();
    ControllersBarrelLines();
    var lines := BarrelLines(["AccountController.ts", "index.ts"]);
    assert lines + [] == lines;
    assert Join(lines, "\n") == lines[0];
  }

  /** The re-export line of the account's controller. */
  lemma AccountControllerExport()
    ensures ExportLine("AccountController") == "export * from './AccountController';"
  {
  }

  /** The barrel lines of the interfaces folder. */
  lemma InterfacesBarrelLines()
    ensures BarrelLines(["core", "index.ts"]) == [ExportLine("core")]
  {
    AbsentByFirstChar("core", ".");
    IndexLine();
    var listing := ["core", "index.ts"];
    assert BarrelLine(listing[0]) == Some(ExportLine("core"));
    assert listing[1..] == ["index.ts"] && listing[1..][1..] == [];
  }

  /** The re-export line of the `core` module folder. */
  lemma CoreExport()
    ensures ExportLine("core") == "export * from './core';"
  {
  }

  /** The barrel of the interfaces folder re-exports the module folder. */
  lemma InterfacesBarrelVector()
    ensures BarrelText(["core", "index.ts"], "") == "export * from './core';"
  {
    CoreExport();
    InterfacesBarrelLines();
    var lines := BarrelLines(["core", "index.ts"]);
    assert lines + [] == lines;
    assert Join(lines, "\n") == lines[0];
  }

  /** The registry's model entry of the account schema, as the server
      package holds it. */
  lemma AccountModelEntryVector()
    ensures ModelEntry("AccountSchema") == "{ name: 'Account', schema: AccountSchema }"
  {
    assert "{ name: '" + "Account" + "', schema: " + "Account" + "Schema }" == "{ name: 'Account', schema: AccountSchema }";
    assert "Account" + "Schema" == "AccountSchema";
    FirstAtByFirstChar("Account" + "Schema", "Schema", 7);
    ModelEntryOfSchema("Account");
  }
}

/** `readdirSync` order after writes. */
module ListingVectors {
  import opened Results
  import opened Files

  /** A controller written for a domain named `Account` into a folder that
      already holds `ZooController.ts` is listed first. */
  lemma SortedWriteVector(root: Path, content: string)
    ensures Write(FileSystem(map[], map[root := ["ZooController.ts"]]), Resolve(root, "AccountController.ts"), content)
            == Success(FileSystem(map[Resolve(root, "AccountController.ts") := content],
                                  map[root := ["AccountController.ts", "ZooController.ts"]]))
  {
    var p := Resolve(root, "AccountController.ts");
    ResolveSplits(root, "AccountController.ts");
    assert |p| > |root| && p != root;
    assert Before("AccountController.ts", "ZooController.ts");
    assert "AccountController.ts" !in ["ZooController.ts"];
    assert InsertNew(["ZooController.ts"], "AccountController.ts") == ["AccountController.ts", "ZooController.ts"];
    var fs := FileSystem(map[], map[root := ["ZooController.ts"]]);
    assert Write(fs, p, content).Success?;
    assert Write(fs, p, content).value.files == map[p := content];
    assert Write(fs, p, content).value.dirs == map[root := ["AccountController.ts", "ZooController.ts"]];
  }
}
