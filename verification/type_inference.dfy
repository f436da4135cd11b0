/** Field extraction from a parsed interface file: the body of
    `CodeGenerator.parseInterfaces` that walks the members of the first
    interface declaration and derives each field's `type` and `baseType`.
    The TypeScript parser itself is not modelled: its output is the input
    here. */
module TypeInference {
  import opened Results
  import opened Strings

  /** The syntax node of a member's type annotation, reduced to what the
      generator reads from it: its syntax-kind name, its `typeName` and its
      `elementType`. */
  datatype TypeNode =
      /** A named type, `Tag` or `Array<Tag>`: the node has a `typeName`. */
    | TypeReference(name: string)
      /** `T[]`: the node has an `elementType`. */
    | ArrayType(element: TypeNode)
      /** An inline object type `{ ... }`. */
    | TypeLiteral
      /** Any other node, known by its syntax-kind name: "StringKeyword",
          "NumberKeyword", "AnyKeyword", "UnionType", ... */
    | OtherType(kindName: string)
  {
    /** `ts.SyntaxKind[node.kind]`. */
    function KindName(): string {
      match this
      case TypeReference(_) => "TypeReference"
      case ArrayType(_) => "ArrayType"
      case TypeLiteral => "TypeLiteral"
      case OtherType(k) => k
    }

    /** `node.typeName.escapedText`, or `undefined` when the node has no type name. */
    function TypeName(): Option<string> {
      if TypeReference? then Some(name) else None
    }

    /** `node.elementType`, or `undefined` when the node has none. */
    function ElementType(): Option<TypeNode> {
      if ArrayType? then Some(element) else None
    }
  }

  /** An interface member: its name identifier's text and its type
      annotation, either of which may be absent (an index signature has no
      name, `x;` has no type). */
  datatype Member = Member(name: Option<string>, annotation: Option<TypeNode>)

  /** A top-level statement of a source file. */
  datatype Statement = InterfaceDeclaration(members: seq<Member>) | OtherStatement(kindName: string)

  /** A field of a domain: its name, its rendered `type` and its `baseType`. */
  datatype Field = Field(name: string, fieldType: string, baseType: string)

  /** The `type`/`baseType` given to a field whose type is an inline object literal. */
  const ObjectBagType := "{[key:string]:any}"
  const ObjectBaseType := "Object"

  /** The marker for an array of the named element type, `[Tag]`. */
  function ArrayMarker(element: string): string {
    "[" + element + "]"
  }

  /** The `type` a node starts with: its type name, or else its kind name
      with the first "Keyword" removed. */
  function Label(t: TypeNode): string {
    match t.TypeName()
    case Some(n) => n
    case None => RemoveFirst(t.KindName(), "Keyword")
  }

  /** The field `parseInterfaces` derives from one member, or the TypeError
      it throws: the member has no name or no type annotation, or its label
      mentions "Array" while the node has no element type (`Array<Tag>` is
      such a node). */
  function InferField(m: Member, lower: string -> string): (r: Result<Field>)
    ensures r.Success? ==> m.name.Some? && r.value.name == m.name.value
    ensures r.Failure? <==>
              || m.name.None?
              || m.annotation.None?
              || (Contains(Label(m.annotation.value), "Array") && !m.annotation.value.ArrayType?)
    // a named type is copied into both `type` and `baseType`
    ensures m.name.Some? && m.annotation.Some? && m.annotation.value.TypeReference?
            && !Contains(m.annotation.value.name, "Array")
            && !Contains(m.annotation.value.name, "TypeLiteral") ==>
              r == Success(Field(m.name.value, m.annotation.value.name, m.annotation.value.name))
    // a keyword (or any other kind) keeps its label, lower-cased for `baseType`
    ensures m.name.Some? && m.annotation.Some? && m.annotation.value.OtherType?
            && !Contains(Label(m.annotation.value), "Array")
            && !Contains(Label(m.annotation.value), "TypeLiteral") ==>
              r == Success(Field(m.name.value, Label(m.annotation.value), lower(Label(m.annotation.value))))
    // an array of a named type becomes the bracket marker in both
    ensures m.name.Some? && m.annotation.Some? && m.annotation.value.ArrayType?
            && m.annotation.value.element.TypeReference? ==>
              r == Success(Field(m.name.value,
                                 ArrayMarker(m.annotation.value.element.name),
                                 ArrayMarker(m.annotation.value.element.name)))
    // an array of anything else keeps the label "ArrayType"
    ensures m.name.Some? && m.annotation.Some? && m.annotation.value.ArrayType?
            && !m.annotation.value.element.TypeReference? ==>
              r == Success(Field(m.name.value, "ArrayType", lower("ArrayType")))
    // an object literal becomes the open dictionary marker
    ensures m.name.Some? && m.annotation == Some(TypeLiteral) ==>
              r == Success(Field(m.name.value, ObjectBagType, ObjectBaseType))
    // and so does any other node that is no array and whose label mentions
    // "TypeLiteral" without "Array", a reference to `MyTypeLiteral` included
    ensures m.name.Some? && m.annotation.Some? && !m.annotation.value.ArrayType?
            && !Contains(Label(m.annotation.value), "Array")
            && Contains(Label(m.annotation.value), "TypeLiteral") ==>
              r == Success(Field(m.name.value, ObjectBagType, ObjectBaseType))
  {
    LabelFacts();
    if m.name.None? then Failure(UndefinedProperty("escapedText"))
    else if m.annotation.None? then Failure(UndefinedProperty("typeName"))
    else
      var t := m.annotation.value;
      var declared := Label(t);
      var base := if t.TypeName().Some? then t.TypeName().value else lower(declared);
      if Contains(declared, "Array") && t.ElementType().None? then
        Failure(UndefinedProperty("typeName"))
      else if Contains(declared, "Array") && t.ElementType().value.TypeName().Some? then
        var marker := ArrayMarker(t.ElementType().value.TypeName().value);
        Success(Field(m.name.value, marker, marker))
      else if Contains(declared, "TypeLiteral") then
        Success(Field(m.name.value, ObjectBagType, ObjectBaseType))
      else
        Success(Field(m.name.value, declared, base))
  }

  /** The labels of the structural node kinds. */
  lemma LabelFacts()
    ensures Label(TypeLiteral) == "TypeLiteral"
    ensures Contains("TypeLiteral", "TypeLiteral") && !Contains("TypeLiteral", "Array")
    ensures forall e :: Label(ArrayType(e)) == "ArrayType"
    ensures Contains("ArrayType", "Array") && !Contains("ArrayType", "TypeLiteral")
  {
    AbsentByFirstChar("TypeLiteral", "Keyword");
    AbsentByFirstChar("ArrayType", "Keyword");
    AbsentByFirstChar("TypeLiteral", "Array");
    assert OccursAt("TypeLiteral", "TypeLiteral", 0);
    assert OccursAt("ArrayType", "Array", 0);
  }

  /** The fields of a member list, in order, or the first member's failure. */
  function InferFields(members: seq<Member>, lower: string -> string): (r: Result<seq<Field>>)
    ensures r.Success? <==> forall i | 0 <= i < |members| :: InferField(members[i], lower).Success?
    ensures r.Success? ==> |r.value| == |members|
    ensures r.Success? ==> forall i | 0 <= i < |members| :: InferField(members[i], lower) == Success(r.value[i])
    ensures r.Failure? ==> exists i | 0 <= i < |members| ::
              && InferField(members[i], lower) == Failure(r.error)
              && forall j | 0 <= j < i :: InferField(members[j], lower).Success?
  {
    if |members| == 0 then Success([])
    else
      var f :- InferField(members[0], lower);
      var rest :- InferFields(members[1..], lower);
      Success([f] + rest)
  }

  /** The members of the first interface declaration among the statements. */
  function FirstInterface(statements: seq<Statement>): (r: Option<seq<Member>>)
    ensures r.None? <==> forall i | 0 <= i < |statements| :: !statements[i].InterfaceDeclaration?
    ensures r.Some? ==> exists i | 0 <= i < |statements| ::
              && statements[i] == InterfaceDeclaration(r.value)
              && forall j | 0 <= j < i :: !statements[j].InterfaceDeclaration?
  {
    if |statements| == 0 then None
    else if statements[0].InterfaceDeclaration? then Some(statements[0].members)
    else
      var r := FirstInterface(statements[1..]);
      assert r.Some? ==> exists i | 0 <= i < |statements[1..]| ::
               && statements[1..][i] == InterfaceDeclaration(r.value)
               && forall j | 0 <= j < i :: !statements[1..][j].InterfaceDeclaration?;
      if r.Some? then
        var i :| 0 <= i < |statements[1..]|
                 && statements[1..][i] == InterfaceDeclaration(r.value)
                 && forall j | 0 <= j < i :: !statements[1..][j].InterfaceDeclaration?;
        assert statements[i + 1] == InterfaceDeclaration(r.value);
        r
      else r
  }

  /** The fields of a parsed source file: one per member of its first
      interface, none when it declares no interface. */
  function ExtractFields(statements: seq<Statement>, lower: string -> string): (r: Result<seq<Field>>)
    ensures FirstInterface(statements).None? ==> r == Success([])
    ensures FirstInterface(statements).Some? ==>
              var members := FirstInterface(statements).value;
              r.Success? <==> forall i | 0 <= i < |members| :: InferField(members[i], lower).Success?
    ensures FirstInterface(statements).Some? && r.Success? ==>
              var members := FirstInterface(statements).value;
              && |r.value| == |members|
              && forall i | 0 <= i < |members| :: InferField(members[i], lower) == Success(r.value[i])
    // a failure is the error of the first member that fails
    ensures FirstInterface(statements).Some? && r.Failure? ==>
              var members := FirstInterface(statements).value;
              exists i | 0 <= i < |members| ::
                && InferField(members[i], lower) == Failure(r.error)
                && forall j | 0 <= j < i :: InferField(members[j], lower).Success?
  {
    match FirstInterface(statements)
    case None => Success([])
    case Some(members) =>
      var r := InferFields(members, lower);
      assert members == FirstInterface(statements).value;
      if r.Success? then r
      else
        var i :| 0 <= i < |members| && InferField(members[i], lower) == Failure(r.error);
        r
  }
}
