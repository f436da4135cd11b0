/** The pure decisions of the generic `MongooseService`: the projection
    built from a field list, the removal of undefined criteria, the page,
    skip and condition of a paged `query`, and the condition, projection,
    selected-record merge and output mapping of `search` and `searchTree`.
    The database itself is not modelled: the documents a query returns,
    the record a lookup finds, whether a keyword compiles as a regular
    expression and whether a string is a valid ObjectId are all inputs. */
module MongooseService {
  import opened Results

  /** A value in a criteria object or a document. */
  datatype Value =
    | Undefined
    | Null
    | Str(s: string)
    | ObjectId(hex: string)
      /** A regular expression: its source and flags. */
    | Pattern(source: string, flags: string)

  /** A criteria object, a projection's source, or a document. */
  type Doc = map<string, Value>

  /** `doc[key]`: a missing key reads as `undefined`. */
  function Get(doc: Doc, key: string): Value {
    if key in doc then doc[key] else Undefined
  }

  /** JavaScript's loose equality `v == s` against a string: an ObjectId
      compares by its hex text and a regular expression by `/source/flags`. */
  predicate LooseEqualsString(v: Value, s: string) {
    match v
    case Undefined => false
    case Null => false
    case Str(t) => t == s
    case ObjectId(hex) => hex == s
    case Pattern(source, flags) => "/" + source + "/" + flags == s
  }

  /** A value loosely equals at most one string. */
  lemma LooseEqualsUnique(v: Value, s: string, t: string)
    requires LooseEqualsString(v, s) && LooseEqualsString(v, t)
    ensures s == t
  {
  }

  /** A string's truthiness: an absent or empty string is falsy. */
  predicate Truthy(s: Option<string>) {
    s.Some? && s.value != ""
  }

  /** `getFields(fields)`: the projection selecting exactly the given fields. */
  function GetFields(fields: seq<string>): (r: map<string, int>)
    ensures r.Keys == set f | f in fields
    ensures forall f | f in r :: r[f] == 1
  {
    if |fields| == 0 then map[]
    else GetFields(fields[..|fields| - 1])[fields[|fields| - 1] := 1]
  }

  /** `strip(obj)`: the object without its undefined entries. The object
      passed in is left holding the same entries. */
  function Strip(obj: Doc): (r: Doc)
    ensures forall k :: k in r <==> k in obj && obj[k] != Undefined
    ensures forall k | k in r :: r[k] == obj[k]
  {
    map k | k in obj && obj[k] != Undefined :: obj[k]
  }

  /** Stripping twice is stripping once. */
  lemma StripIdempotent(obj: Doc)
    ensures Strip(Strip(obj)) == Strip(obj)
  {
    assert forall k :: k in Strip(Strip(obj)) <==> k in Strip(obj);
  }

  /** `page < 1 ? 1 : page`. */
  function ClampPage(page: int): (r: int)
    ensures r >= 1
    ensures page >= 1 ==> r == page
    ensures page < 1 ==> r == 1
  {
    if page < 1 then 1 else page
  }

  /** The keyword search of a paged query: a field and a keyword that may
      be absent. */
  datatype SearchParam = SearchParam(field: string, keyword: Option<string>)

  /** What a paged `query` asks the database for. */
  datatype QueryPlan = QueryPlan(
    page: int,
    size: int,
    condition: Doc,
    projection: map<string, int>,
    skip: int)

  /** The condition of a paged query: the query without its undefined
      entries, plus a case-insensitive pattern for a non-empty keyword under
      the search field. A keyword that is not a valid regular expression
      throws. */
  function QueryCondition(query: Doc, search: Option<SearchParam>, validPattern: string -> bool): (r: Result<Doc>)
    ensures r.Failure? <==> search.Some? && Truthy(search.value.keyword) && !validPattern(search.value.keyword.value)
    ensures r.Success? && (search.None? || !Truthy(search.value.keyword)) ==> r.value == Strip(query)
    ensures r.Success? && search.Some? && Truthy(search.value.keyword) ==>
              && r.value.Keys == Strip(query).Keys + {search.value.field}
              && r.value[search.value.field] == Pattern(search.value.keyword.value, "i")
              && forall k | k in r.value && k != search.value.field :: r.value[k] == query[k]
  {
    var condition := Strip(query);
    if search.Some? && Truthy(search.value.keyword) then
      if !validPattern(search.value.keyword.value) then Failure(InvalidPattern(search.value.keyword.value))
      else Success(condition[search.value.field := Pattern(search.value.keyword.value, "i")])
    else Success(condition)
  }

  /** `query(page, size, query, search, fields)`: the clamped page, the
      condition, the projection and the offset of the requested page. The
      sort, populate and paging calls themselves are the database's. */
  function Query(page: int, size: int, query: Doc, search: Option<SearchParam>, fields: seq<string>,
                 validPattern: string -> bool): (r: Result<QueryPlan>)
    ensures r.Success? <==> QueryCondition(query, search, validPattern).Success?
    ensures r.Success? ==>
              && r.value.page >= 1
              && (page >= 1 ==> r.value.page == page)
              && r.value.size == size
              && r.value.skip == size * (r.value.page - 1)
              && (size >= 0 ==> r.value.skip >= 0)
              && r.value.condition == QueryCondition(query, search, validPattern).value
              && r.value.projection.Keys == set f | f in fields
  {
    var page' := ClampPage(page);
    var condition :- QueryCondition(query, search, validPattern);
    Success(QueryPlan(page', size, condition, GetFields(fields), size * (page' - 1)))
  }

  /** The consecutive pages of a non-negative size start at offsets one page
      apart, the first at 0. */
  lemma PagesTile(size: int, page: int)
    requires size >= 0 && page >= 1
    ensures size * (ClampPage(page + 1) - 1) == size * (ClampPage(page) - 1) + size
    ensures size * (ClampPage(1) - 1) == 0
  {
  }

  /** The arguments of `search` and `searchTree`. */
  datatype SearchRequest = SearchRequest(
    keyword: Option<string>,
    id: Option<string>,
    category: string,
    labelField: string,
    valueField: string,
    searchField: string)

  /** The condition of `search`: a case-insensitive pattern under the search
      field for a non-empty keyword, and the category when it is not empty.
      A category assigned last wins when the search field is "category". */
  function SearchCondition(req: SearchRequest, validPattern: string -> bool): (r: Result<Doc>)
    ensures r.Failure? <==> Truthy(req.keyword) && !validPattern(req.keyword.value)
    ensures r.Success? ==> r.value.Keys <= {req.searchField, "category"}
    ensures r.Success? && req.searchField != "category" ==> (req.searchField in r.value <==> Truthy(req.keyword))
    ensures r.Success? ==> ("category" in r.value <==> req.category != "" || (req.searchField == "category" && Truthy(req.keyword)))
    ensures r.Success? && req.category != "" ==> r.value["category"] == Str(req.category)
    ensures r.Success? && Truthy(req.keyword) && (req.searchField != "category" || req.category == "") ==>
              r.value[req.searchField] == Pattern(req.keyword.value, "i")
  {
    var empty: Doc := map[];
    var query :-
      if Truthy(req.keyword) then
        if validPattern(req.keyword.value) then Success(empty[req.searchField := Pattern(req.keyword.value, "i")])
        else Failure(InvalidPattern(req.keyword.value))
      else Success(empty);
    Success(if req.category != "" then query["category" := Str(req.category)] else query)
  }

  /** The condition of `searchTree`. Unlike `search`, it builds the pattern
      before looking at the keyword, so any present keyword must compile;
      an absent one compiles to the empty pattern, and so does an empty
      one, whatever `validPattern` says of it. */
  function SearchTreeCondition(req: SearchRequest, validPattern: string -> bool): (r: Result<Doc>)
    ensures r.Failure? <==> Truthy(req.keyword) && !validPattern(req.keyword.value)
    ensures r.Success? ==> r == SearchCondition(req, validPattern)
  {
    var source := match req.keyword case None => "(?:)" case Some(k) => k;
    if req.keyword.Some? && source != "" && !validPattern(source) then Failure(InvalidPattern(source))
    else
      var criteria: Doc := map[req.searchField := Pattern(source, "i")];
      var query := if Truthy(req.keyword) then criteria else map[];
      Success(if req.category != "" then query["category" := Str(req.category)] else query)
  }

  /** The projection of `search`: the label and value fields. */
  function SearchProjection(req: SearchRequest): (r: map<string, int>)
    ensures r.Keys == {req.labelField, req.valueField}
    ensures forall f | f in r :: r[f] == 1
  {
    map[req.labelField := 1][req.valueField := 1]
  }

  /** The projection of `searchTree`: the label, value and parent fields. */
  function TreeProjection(req: SearchRequest): (r: map<string, int>)
    ensures r.Keys == SearchProjection(req).Keys + {"parent"}
    ensures forall f | f in r :: r[f] == 1
  {
    SearchProjection(req)["parent" := 1]
  }

  /** Whether the selected record is looked up: a non-empty id that is a
      valid ObjectId, or any non-empty id when the value field is not "_id". */
  function WantsSelected(req: SearchRequest, isObjectId: string -> bool): (r: bool)
    ensures r ==> req.id.Some? && req.id.value != ""
    ensures req.valueField != "_id" ==> (r <==> Truthy(req.id))
    ensures req.valueField == "_id" ==> (r <==> Truthy(req.id) && isObjectId(req.id.value))
  {
    Truthy(req.id) && (isObjectId(req.id.value) || req.valueField != "_id")
  }

  /** The lookup condition of the selected record. */
  function SelectedCondition(req: SearchRequest): (r: Doc)
    requires req.id.Some?
    ensures r.Keys == {req.valueField} && r[req.valueField] == Str(req.id.value)
  {
    map[req.valueField := Str(req.id.value)]
  }

  /** The index of the first document whose value field loosely equals the id. */
  function FindIndex(docs: seq<Doc>, valueField: string, id: string): (r: Option<nat>)
    ensures r.Some? ==> r.value < |docs| && LooseEqualsString(Get(docs[r.value], valueField), id)
    ensures r.Some? ==> forall j | 0 <= j < r.value :: !LooseEqualsString(Get(docs[j], valueField), id)
    ensures r.None? <==> forall j | 0 <= j < |docs| :: !LooseEqualsString(Get(docs[j], valueField), id)
  {
    if |docs| == 0 then None
    else if LooseEqualsString(Get(docs[0], valueField), id) then Some(0)
    else
      match FindIndex(docs[1..], valueField, id)
      case None => None
      case Some(i) => Some(i + 1)
  }

  /** The selected record, when one was found, appended at the end unless a
      document already carries its id. */
  function MergeSelected(docs: seq<Doc>, selected: Option<Doc>, valueField: string, id: string): (r: seq<Doc>)
    ensures docs <= r && |r| <= |docs| + 1
    ensures |r| == |docs| + 1 <==>
              selected.Some? && forall j | 0 <= j < |docs| :: !LooseEqualsString(Get(docs[j], valueField), id)
    ensures |r| == |docs| + 1 ==> r[|docs|] == selected.value
  {
    if selected.Some? && FindIndex(docs, valueField, id).None? then docs + [selected.value] else docs
  }

  /** Merging the record found by its own id a second time adds nothing. */
  lemma MergeSelectedIdempotent(docs: seq<Doc>, selected: Doc, valueField: string, id: string)
    requires LooseEqualsString(Get(selected, valueField), id)
    ensures var once := MergeSelected(docs, Some(selected), valueField, id);
            MergeSelected(once, Some(selected), valueField, id) == once
  {
    var once := MergeSelected(docs, Some(selected), valueField, id);
    if |once| == |docs| + 1 {
      assert once[|docs|] == selected;
      assert FindIndex(once, valueField, id).Some?;
    }
  }

  /** The documents `search` and `searchTree` map to their output: the found
      ones, merged with the selected record when it is looked up. */
  function Candidates(req: SearchRequest, isObjectId: string -> bool, docs: seq<Doc>, selected: Option<Doc>): (r: seq<Doc>)
    ensures !WantsSelected(req, isObjectId) ==> r == docs
    ensures WantsSelected(req, isObjectId) ==> r == MergeSelected(docs, selected, req.valueField, req.id.value)
  {
    if WantsSelected(req, isObjectId) then MergeSelected(docs, selected, req.valueField, req.id.value) else docs
  }

  /** One entry of a `search` result: its `label` (here `text`, since
      `label` is reserved) and its `value`. */
  datatype LabelValue = LabelValue(text: Value, value: Value)

  /** One entry of a `searchTree` result. */
  datatype TreeNode = TreeNode(title: Value, id: Value, parent: Value)

  /** The `search` output: each document's label and value, in order. */
  function ToLabelValues(docs: seq<Doc>, labelField: string, valueField: string): (r: seq<LabelValue>)
    ensures |r| == |docs|
    ensures forall i | 0 <= i < |docs| :: r[i] == LabelValue(Get(docs[i], labelField), Get(docs[i], valueField))
  {
    if |docs| == 0 then [] else [LabelValue(Get(docs[0], labelField), Get(docs[0], valueField))] + ToLabelValues(docs[1..], labelField, valueField)
  }

  /** The `searchTree` output: each document's title, id and parent, in order. */
  function ToTreeNodes(docs: seq<Doc>, labelField: string, valueField: string): (r: seq<TreeNode>)
    ensures |r| == |docs|
    ensures forall i | 0 <= i < |docs| :: r[i] == TreeNode(Get(docs[i], labelField), Get(docs[i], valueField), Get(docs[i], "parent"))
  {
    if |docs| == 0 then [] else [TreeNode(Get(docs[0], labelField), Get(docs[0], valueField), Get(docs[0], "parent"))] + ToTreeNodes(docs[1..], labelField, valueField)
  }

  /** `search(...)` given the documents the database returned and the
      selected record it found: every returned document keeps its place,
      and the selected record comes last when it is new. */
  function Search(req: SearchRequest, isObjectId: string -> bool, docs: seq<Doc>, selected: Option<Doc>): (r: seq<LabelValue>)
    ensures |docs| <= |r| <= |docs| + 1
    ensures r[..|docs|] == ToLabelValues(docs, req.labelField, req.valueField)
    ensures |r| == |docs| + 1 <==>
              && WantsSelected(req, isObjectId) && selected.Some?
              && forall j | 0 <= j < |docs| :: !LooseEqualsString(Get(docs[j], req.valueField), req.id.value)
    ensures |r| == |docs| + 1 ==>
              r[|docs|] == LabelValue(Get(selected.value, req.labelField), Get(selected.value, req.valueField))
  {
    ToLabelValues(Candidates(req, isObjectId, docs, selected), req.labelField, req.valueField)
  }

  /** `searchTree(...)`, likewise. */
  function SearchTree(req: SearchRequest, isObjectId: string -> bool, docs: seq<Doc>, selected: Option<Doc>): (r: seq<TreeNode>)
    ensures |docs| <= |r| <= |docs| + 1
    ensures r[..|docs|] == ToTreeNodes(docs, req.labelField, req.valueField)
    ensures |r| == |docs| + 1 <==>
              && WantsSelected(req, isObjectId) && selected.Some?
              && forall j | 0 <= j < |docs| :: !LooseEqualsString(Get(docs[j], req.valueField), req.id.value)
    ensures |r| == |docs| + 1 ==>
              r[|docs|] == TreeNode(Get(selected.value, req.labelField), Get(selected.value, req.valueField),
                                    Get(selected.value, "parent"))
  {
    ToTreeNodes(Candidates(req, isObjectId, docs, selected), req.labelField, req.valueField)
  }
}
