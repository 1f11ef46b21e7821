/** OpenAPISpecParser: turns the object model the swagger parser builds from
    a specification into one document per path operation and one per
    component schema. The swagger objects are datatypes here; the parser
    library that builds them from text is a parameter of ParseSpec. */
module SpecParser {
  import opened Wrappers
  import opened Strings
  import opened MapOutputParser
  import opened OpenApiModel
  import SpecFormatter

  // ---------------------------------------------------------------------
  // The swagger object model, as far as the parser reads it

  /** A Schema, with what the parser reads of the schemas nested in it: the
      reference of an ArraySchema's items (null when the items or their
      reference are), and the type, format and description of each property.
      isArray says the schema is an ArraySchema. */
  datatype Schema = Schema(
    ref: Option<string>,
    schemaType: Option<string>,
    format: Option<string>,
    description: Option<string>,
    isArray: bool,
    itemsRef: Option<string>,
    properties: Option<seq<(string, PropertySchema)>>,
    required: Option<seq<string>>)

  datatype PropertySchema = PropertySchema(
    schemaType: Option<string>,
    format: Option<string>,
    description: Option<string>)

  datatype MediaType = MediaType(schema: Option<Schema>)

  /** A Content map: media type name to media type, in document order. */
  type Content = seq<(string, MediaType)>

  datatype RequestBody = RequestBody(content: Option<Content>)

  datatype ApiResponse = ApiResponse(content: Option<Content>)

  datatype Parameter = Parameter(
    name: string,
    location: string,
    schema: Option<Schema>,
    required: Option<bool>,
    description: Option<string>)

  datatype Operation = Operation(
    operationId: Option<string>,
    summary: Option<string>,
    description: Option<string>,
    tags: Option<seq<string>>,
    parameters: Option<seq<Parameter>>,
    requestBody: Option<RequestBody>,
    responses: Option<seq<(string, ApiResponse)>>)

  /** A PathItem: its own parameters and readOperationsMap, the operations
      keyed by upper-case method name in the library's method order. */
  datatype PathItem = PathItem(parameters: Option<seq<Parameter>>, operations: seq<(string, Operation)>)

  datatype Info = Info(title: Option<string>, version: Option<string>, description: Option<string>)

  datatype Components = Components(schemas: Option<seq<(string, Schema)>>)

  datatype OpenApi = OpenApi(
    paths: Option<seq<(string, PathItem)>>,
    components: Option<Components>,
    info: Option<Info>)

  // ---------------------------------------------------------------------
  // Schema names

  /** extractSchemaName: the text after the last '/' of a reference. */
  function ExtractSchemaName(ref: string): (r: string)
    ensures '/' !in r
    ensures EndsWith(ref, r)
    ensures '/' !in ref ==> r == ref
    ensures '/' in ref ==> ref[|ref| - |r| - 1] == '/'
  {
    AfterLast(ref, '/')
  }

  // ---------------------------------------------------------------------
  // Parameters

  /** One swagger parameter as a ParameterInfo. */
  function ParameterOf(p: Parameter): ParameterInfo {
    ParameterInfo(
      p.name,
      p.location,
      if p.schema.Some? && p.schema.value.schemaType.Some? then p.schema.value.schemaType.value else "string",
      p.required.GetOr(false),
      p.description)
  }

  /** A parameter without a schema type is a "string", and one that does not
      say whether it is required is optional. */
  lemma ParameterDefaults(p: Parameter)
    ensures (p.schema.None? || p.schema.value.schemaType.None?) ==> ParameterOf(p).paramType == "string"
    ensures p.schema.Some? && p.schema.value.schemaType.Some? ==>
              ParameterOf(p).paramType == p.schema.value.schemaType.value
    ensures ParameterOf(p).required <==> p.required == Some(true)
    ensures ParameterOf(p).name == p.name && ParameterOf(p).location == p.location
  {
  }

  function NameSet(ps: seq<ParameterInfo>): set<string> {
    set i | 0 <= i < |ps| :: ps[i].name
  }

  /** The path-level loop: each path parameter is added unless a parameter
      of its name is already in the list. */
  function MergePathLevel(acc: seq<ParameterInfo>, pathParams: seq<Parameter>): seq<ParameterInfo>
    decreases |pathParams|
  {
    if pathParams == [] then acc
    else
      var next := if pathParams[0].name in NameSet(acc) then acc else acc + [ParameterOf(pathParams[0])];
      MergePathLevel(next, pathParams[1..])
  }

  /** extractParameters: the operation's parameters, then the path item's. */
  function ParametersOf(op: Operation, item: PathItem): seq<ParameterInfo> {
    MergePathLevel(MapSeq(op.parameters.GetOr([]), ParameterOf), item.parameters.GetOr([]))
  }

  lemma NameSetPrefix(s: seq<ParameterInfo>, n: nat)
    requires n <= |s|
    ensures NameSet(s[..n]) <= NameSet(s)
  {
    forall x | x in NameSet(s[..n]) ensures x in NameSet(s) {
      var i :| 0 <= i < n && s[..n][i].name == x;
      assert s[i].name == x;
    }
  }

  lemma NameSetSnoc(s: seq<ParameterInfo>, x: ParameterInfo)
    ensures NameSet(s + [x]) == NameSet(s) + {x.name}
  {
    var t := s + [x];
    assert forall i :: 0 <= i < |s| ==> t[i] == s[i];
    assert t[|s|] == x;
  }

  lemma NameSetMapped(ops: seq<Parameter>)
    ensures NameSet(MapSeq(ops, ParameterOf)) == set i | 0 <= i < |ops| :: ops[i].name
  {
  }

  /** The merge only appends ... */
  lemma {:induction false} MergeKeepsPrefix(acc: seq<ParameterInfo>, pp: seq<Parameter>)
    ensures |MergePathLevel(acc, pp)| >= |acc|
    ensures MergePathLevel(acc, pp)[..|acc|] == acc
    decreases |pp|
  {
    if pp != [] {
      var next := if pp[0].name in NameSet(acc) then acc else acc + [ParameterOf(pp[0])];
      MergeKeepsPrefix(next, pp[1..]);
      assert MergePathLevel(acc, pp)[..|next|] == next;
      assert next[..|acc|] == acc;
    }
  }

  /** ... each appended parameter is a path parameter whose name was new ... */
  lemma {:induction false} MergeAddsNew(acc: seq<ParameterInfo>, pp: seq<Parameter>)
    ensures var r := MergePathLevel(acc, pp);
            forall j :: |acc| <= j < |r| ==>
              r[j].name !in NameSet(r[..j]) && exists k :: 0 <= k < |pp| && r[j] == ParameterOf(pp[k])
    decreases |pp|
  {
    if pp != [] {
      var r := MergePathLevel(acc, pp);
      var next := if pp[0].name in NameSet(acc) then acc else acc + [ParameterOf(pp[0])];
      assert r == MergePathLevel(next, pp[1..]);
      MergeAddsNew(next, pp[1..]);
      MergeKeepsPrefix(next, pp[1..]);
      forall j | |acc| <= j < |r|
        ensures r[j].name !in NameSet(r[..j]) && exists k :: 0 <= k < |pp| && r[j] == ParameterOf(pp[k])
      {
        if j < |next| {
          assert j == |acc| && next == acc + [ParameterOf(pp[0])];
          assert r[..j] == next[..j] == acc;
          assert r[j] == next[j] == ParameterOf(pp[0]);
        } else {
          var k :| 0 <= k < |pp[1..]| && r[j] == ParameterOf(pp[1..][k]);
          assert r[j] == ParameterOf(pp[k + 1]);
        }
      }
    }
  }

  /** ... every path parameter's name ends up in the list ... */
  lemma {:induction false} MergeCoversNames(acc: seq<ParameterInfo>, pp: seq<Parameter>)
    ensures forall k :: 0 <= k < |pp| ==> pp[k].name in NameSet(MergePathLevel(acc, pp))
    ensures NameSet(acc) <= NameSet(MergePathLevel(acc, pp))
    decreases |pp|
  {
    var r := MergePathLevel(acc, pp);
    MergeKeepsPrefix(acc, pp);
    NameSetPrefix(r, |acc|);
    if pp != [] {
      var next := if pp[0].name in NameSet(acc) then acc else acc + [ParameterOf(pp[0])];
      MergeCoversNames(next, pp[1..]);
      assert pp[0].name in NameSet(next) by {
        if pp[0].name !in NameSet(acc) {
          assert next[|acc|].name == pp[0].name;
        }
      }
      forall k | 1 <= k < |pp| ensures pp[k].name in NameSet(r) {
        assert pp[1..][k - 1] == pp[k];
      }
    }
  }

  /** ... and the first path parameter of each name not already present is
      included as it stands. */
  lemma {:induction false} MergeIncludesFirst(acc: seq<ParameterInfo>, pp: seq<Parameter>, k: int)
    requires 0 <= k < |pp| && pp[k].name !in NameSet(acc)
    requires forall k' :: 0 <= k' < k ==> pp[k'].name != pp[k].name
    ensures ParameterOf(pp[k]) in MergePathLevel(acc, pp)
    decreases |pp|
  {
    var next := if pp[0].name in NameSet(acc) then acc else acc + [ParameterOf(pp[0])];
    var r := MergePathLevel(acc, pp);
    assert r == MergePathLevel(next, pp[1..]);
    if k == 0 {
      MergeKeepsPrefix(next, pp[1..]);
      assert r[|acc|] == r[..|next|][|acc|] == ParameterOf(pp[0]);
    } else {
      assert pp[0].name != pp[k].name;
      if pp[0].name !in NameSet(acc) {
        NameSetSnoc(acc, ParameterOf(pp[0]));
      }
      assert pp[1..][k - 1] == pp[k];
      MergeIncludesFirst(next, pp[1..], k - 1);
    }
  }

  /** extractParameters' promise, first half: the operation-level
      parameters come first and in order, and each later one is a path-level
      parameter whose name no earlier parameter has. */
  lemma ParametersOrdered(op: Operation, item: PathItem)
    ensures var r := ParametersOf(op, item);
            var ops := op.parameters.GetOr([]);
            var pp := item.parameters.GetOr([]);
            && |r| >= |ops|
            && (forall i :: 0 <= i < |ops| ==> r[i] == ParameterOf(ops[i]))
            && (forall j :: |ops| <= j < |r| ==>
                  (forall i :: 0 <= i < j ==> r[i].name != r[j].name)
                  && exists k :: 0 <= k < |pp| && r[j] == ParameterOf(pp[k]))
  {
    var ops := op.parameters.GetOr([]);
    var pp := item.parameters.GetOr([]);
    var acc := MapSeq(ops, ParameterOf);
    var r := MergePathLevel(acc, pp);
    MergeKeepsPrefix(acc, pp);
    assert forall i :: 0 <= i < |ops| ==> r[i] == r[..|acc|][i];
    MergeAddsNew(acc, pp);
    forall j, i | |ops| <= j < |r| && 0 <= i < j ensures r[i].name != r[j].name {
      assert r[..j][i] == r[i];
    }
  }

  /** Second half: every path-level name is represented, and the first
      path-level parameter of a name the operation does not have is kept as
      it stands. */
  lemma ParametersCovered(op: Operation, item: PathItem)
    ensures var r := ParametersOf(op, item);
            var pp := item.parameters.GetOr([]);
            forall k :: 0 <= k < |pp| ==> exists j :: 0 <= j < |r| && r[j].name == pp[k].name
    ensures var r := ParametersOf(op, item);
            var ops := op.parameters.GetOr([]);
            var pp := item.parameters.GetOr([]);
            forall k :: 0 <= k < |pp| && (forall i :: 0 <= i < |ops| ==> ops[i].name != pp[k].name)
                        && (forall k' :: 0 <= k' < k ==> pp[k'].name != pp[k].name)
              ==> ParameterOf(pp[k]) in r
  {
    var ops := op.parameters.GetOr([]);
    var pp := item.parameters.GetOr([]);
    var acc := MapSeq(ops, ParameterOf);
    var r := MergePathLevel(acc, pp);
    MergeCoversNames(acc, pp);
    assert r == ParametersOf(op, item);
    forall k | 0 <= k < |pp| ensures exists j :: 0 <= j < |r| && r[j].name == pp[k].name {
      assert pp[k].name in NameSet(r);
      var j :| 0 <= j < |r| && r[j].name == pp[k].name;
    }
    forall k | 0 <= k < |pp| && (forall i :: 0 <= i < |ops| ==> ops[i].name != pp[k].name)
                && (forall k' :: 0 <= k' < k ==> pp[k'].name != pp[k].name)
      ensures ParameterOf(pp[k]) in r
    {
      NameSetMapped(ops);
      MergeIncludesFirst(acc, pp, k);
    }
  }

  /** When the operation's own parameters have distinct names, so do all. */
  lemma ParametersDistinct(op: Operation, item: PathItem)
    requires var ops := op.parameters.GetOr([]);
             forall i, j :: 0 <= i < j < |ops| ==> ops[i].name != ops[j].name
    ensures var r := ParametersOf(op, item);
            forall i, j :: 0 <= i < j < |r| ==> r[i].name != r[j].name
  {
    ParametersOrdered(op, item);
  }

  /** The two forEach loops of extractParameters. */
  method ExtractParameters(op: Operation, item: PathItem) returns (params: seq<ParameterInfo>)
    ensures params == ParametersOf(op, item)
  {
    var ops := op.parameters.GetOr([]);
    params := [];
    var i := 0;
    while i < |ops|
      invariant 0 <= i <= |ops|
      invariant params == MapSeq(ops[..i], ParameterOf)
    {
      params := params + [ParameterOf(ops[i])];
      i := i + 1;
    }
    assert ops[..i] == ops;
    var pp := item.parameters.GetOr([]);
    var j := 0;
    while j < |pp|
      invariant 0 <= j <= |pp|
      invariant MergePathLevel(params, pp[j..]) == ParametersOf(op, item)
    {
      assert pp[j..][1..] == pp[j + 1..];
      if pp[j].name !in NameSet(params) {
        params := params + [ParameterOf(pp[j])];
      }
      j := j + 1;
    }
  }

  // ---------------------------------------------------------------------
  // Response schemas

  /** What one media type of a response records: the name of a referenced
      schema, the element name and "[]" for an array of a referenced schema,
      and nothing otherwise. */
  function SchemaValue(mt: MediaType): Option<string>
  {
    match mt.schema
    case None => None
    case Some(s) =>
      if s.ref.Some? then Some(ExtractSchemaName(s.ref.value))
      else if s.isArray && s.itemsRef.Some? then
        Some(ExtractSchemaName(s.itemsRef.value) + "[]")
      else None
  }

  /** A reference gives its schema name, an array whose items are a
      reference gives the element name and "[]", and anything else nothing. */
  lemma SchemaValueCases(mt: MediaType)
    ensures var r := SchemaValue(mt);
            && (r.Some? ==> mt.schema.Some?)
            && (r.Some? && mt.schema.value.ref.Some? ==> r.value == ExtractSchemaName(mt.schema.value.ref.value))
            && (r.Some? && mt.schema.value.ref.None? ==>
                  && mt.schema.value.isArray
                  && mt.schema.value.itemsRef.Some?
                  && r.value == ExtractSchemaName(mt.schema.value.itemsRef.value) + "[]")
            && (r.None? <==>
                  || mt.schema.None?
                  || (mt.schema.value.ref.None? &&
                      !(mt.schema.value.isArray && mt.schema.value.itemsRef.Some?)))
  {
  }

  /** The put one media type makes, if any. */
  function SchemaPut(code: string, mt: MediaType): Entries {
    match SchemaValue(mt)
    case None => []
    case Some(v) => [(code, v)]
  }

  /** The puts one response makes, one per media type that names a schema. */
  function MediaPairs(code: string, content: Content): Entries {
    if content == [] then []
    else
      var init := content[..|content| - 1];
      MediaPairs(code, init) + SchemaPut(code, content[|content| - 1].1)
  }

  function ContentOf(response: ApiResponse): Content {
    response.content.GetOr([])
  }

  /** All puts, response by response. */
  function ResponsePairs(responses: seq<(string, ApiResponse)>): Entries {
    if responses == [] then []
    else
      var last := responses[|responses| - 1];
      ResponsePairs(responses[..|responses| - 1]) + MediaPairs(last.0, ContentOf(last.1))
  }

  /** The map extractResponseSchemas builds. */
  function ResponseSchemasOf(op: Operation): Entries {
    Associate(ResponsePairs(op.responses.GetOr([])))
  }

  /** The value of the last media type of a response that names a schema. */
  function LastSchemaValue(content: Content): Option<string> {
    if content == [] then None
    else
      match SchemaValue(content[|content| - 1].1)
      case Some(v) => Some(v)
      case None => LastSchemaValue(content[..|content| - 1])
  }

  /** The last present value of a sequence of optional values. */
  function LastSome(vs: seq<Option<string>>): Option<string> {
    if vs == [] then None
    else
      match vs[|vs| - 1]
      case Some(v) => Some(v)
      case None => LastSome(vs[..|vs| - 1])
  }

  /** The schema value of each media type, in order. */
  function SchemaValues(content: Content): (r: seq<Option<string>>)
    ensures |r| == |content|
    ensures forall j :: 0 <= j < |content| ==> r[j] == SchemaValue(content[j].1)
  {
    if content == [] then [] else SchemaValues(content[..|content| - 1]) + [SchemaValue(content[|content| - 1].1)]
  }

  lemma {:induction false} LastSchemaValueOfValues(content: Content)
    ensures LastSchemaValue(content) == LastSome(SchemaValues(content))
  {
    if content != [] {
      var n := |content| - 1;
      LastSchemaValueOfValues(content[..n]);
      assert SchemaValues(content)[..n] == SchemaValues(content[..n]);
    }
  }

  /** LastSome is a present value after which none is present, and it is
      absent exactly when no value is present. */
  lemma {:induction false} LastSomeIsLast(vs: seq<Option<string>>)
    ensures LastSome(vs).None? <==> forall j :: 0 <= j < |vs| ==> vs[j].None?
    ensures LastSome(vs).Some? ==>
              exists j :: 0 <= j < |vs| && vs[j] == LastSome(vs)
                          && forall j' :: j < j' < |vs| ==> vs[j'].None?
  {
    if vs != [] {
      var n := |vs| - 1;
      var init := vs[..n];
      LastSomeIsLast(init);
      if vs[n].None? {
        assert LastSome(vs) == LastSome(init);
        if LastSome(vs).Some? {
          var j :| 0 <= j < n && init[j] == LastSome(init)
                   && forall j' :: j < j' < n ==> init[j'].None?;
          assert init[j] == vs[j];
          forall j' | j < j' < |vs| ensures vs[j'].None? {
            if j' < n {
              assert init[j'] == vs[j'];
            }
          }
        } else {
          forall j | 0 <= j < |vs| ensures vs[j].None? {
            if j < n {
              assert init[j] == vs[j];
            }
          }
        }
      } else {
        assert vs[n] == LastSome(vs);
      }
    }
  }

  /** LastSchemaValue is the value of a media type after which none names a
      schema, and it is absent exactly when no media type names one. */
  lemma LastSchemaValueIsLast(content: Content)
    ensures LastSchemaValue(content).None? <==>
              forall j :: 0 <= j < |content| ==> SchemaValue(content[j].1).None?
    ensures LastSchemaValue(content).Some? ==>
              exists j :: 0 <= j < |content| && SchemaValue(content[j].1) == LastSchemaValue(content)
                          && forall j' :: j < j' < |content| ==> SchemaValue(content[j'].1).None?
  {
    LastSchemaValueOfValues(content);
    LastSomeIsLast(SchemaValues(content));
  }

  /** Putting one response's pairs sets its code to the last value named,
      and leaves the code alone when none is named. */
  lemma {:induction false} MediaPairsLookup(prior: Entries, code: string, content: Content, k: string)
    ensures Lookup(Associate(prior + MediaPairs(code, content)), k) ==
              if k == code && LastSchemaValue(content).Some? then LastSchemaValue(content)
              else Lookup(Associate(prior), k)
  {
    if content == [] {
      assert prior + [] == prior;
    } else {
      var n := |content| - 1;
      var init := content[..n];
      MediaPairsLookup(prior, code, init, k);
      MediaPairsLast(prior, code, content);
      LastSchemaValueStep(content);
      PutStepLookup(Associate(prior + MediaPairs(code, init)), Associate(prior + MediaPairs(code, content)),
                    code, k, SchemaValue(content[n].1), LastSchemaValue(init), LastSchemaValue(content),
                    Lookup(Associate(prior), k));
    }
  }

  lemma {:induction false} MediaPairsKeys(code: string, content: Content)
    ensures KeysOf(MediaPairs(code, content)) <= {code}
  {
    if content != [] {
      MediaPairsKeys(code, content[..|content| - 1]);
    }
  }

  lemma {:induction false} ResponsePairsKeys(responses: seq<(string, ApiResponse)>)
    ensures forall k :: k in KeysOf(ResponsePairs(responses)) ==>
              exists i :: 0 <= i < |responses| && responses[i].0 == k
  {
    if responses != [] {
      var n := |responses| - 1;
      var init := responses[..n];
      var a := ResponsePairs(init);
      var b := MediaPairs(responses[n].0, ContentOf(responses[n].1));
      ResponsePairsKeys(init);
      MediaPairsKeys(responses[n].0, ContentOf(responses[n].1));
      var ab: Entries := a + b;
      forall k | k in KeysOf(ab) ensures exists i :: 0 <= i < |responses| && responses[i].0 == k {
        var j :| 0 <= j < |ab| && ab[j].0 == k;
        if j < |a| {
          assert k in KeysOf(a);
          var i :| 0 <= i < n && init[i].0 == k;
          assert responses[i].0 == k;
        } else {
          assert b[j - |a|] == ab[j];
          assert k in KeysOf(b);
        }
      }
    }
  }

  /** extractResponseSchemas' promise: with the status codes distinct, as in
      the swagger response map, each code maps to the value of its last media
      type that names a schema, and has no entry when none does. */
  lemma {:induction false} ResponseSchemasLast(responses: seq<(string, ApiResponse)>, i: int)
    requires forall a, b :: 0 <= a < b < |responses| ==> responses[a].0 != responses[b].0
    requires 0 <= i < |responses|
    ensures Lookup(Associate(ResponsePairs(responses)), responses[i].0) == LastSchemaValue(ContentOf(responses[i].1))
  {
    var n := |responses| - 1;
    var init := responses[..n];
    var code := responses[n].0;
    MediaPairsLookup(ResponsePairs(init), code, ContentOf(responses[n].1), responses[i].0);
    if i == n {
      if LastSchemaValue(ContentOf(responses[n].1)).None? {
        ResponsePairsKeys(init);
        assert code !in KeysOf(ResponsePairs(init));
      }
    } else {
      assert init[i] == responses[i];
      ResponseSchemasLast(init, i);
    }
  }

  /** The keys of the map are exactly the codes with a media type naming a
      schema, and every value is one a media type of that code names. */
  lemma ResponseSchemasContents(op: Operation)
    requires var rs := op.responses.GetOr([]);
             forall a, b :: 0 <= a < b < |rs| ==> rs[a].0 != rs[b].0
    ensures var rs := op.responses.GetOr([]);
            forall i :: 0 <= i < |rs| ==>
              Lookup(ResponseSchemasOf(op), rs[i].0) == LastSchemaValue(ContentOf(rs[i].1))
    ensures var rs := op.responses.GetOr([]);
            forall k :: k in KeysOf(ResponseSchemasOf(op)) <==>
              exists i :: 0 <= i < |rs| && rs[i].0 == k && LastSchemaValue(ContentOf(rs[i].1)).Some?
  {
    var rs := op.responses.GetOr([]);
    forall i | 0 <= i < |rs|
      ensures Lookup(ResponseSchemasOf(op), rs[i].0) == LastSchemaValue(ContentOf(rs[i].1))
    {
      ResponseSchemasLast(rs, i);
    }
    ResponsePairsKeys(rs);
  }

  /** A response value read back by the specification formatter: a direct
      reference is written as a reference to that schema, an array of a
      reference as an array whose items reference the element schema. */
  lemma ResponseFormatsAsParsed(code: string, mt: MediaType)
    requires SchemaValue(mt).Some?
    ensures var v := SchemaValue(mt).value;
            var s := mt.schema.value;
            && (s.ref.Some? && !EndsWith(v, "[]") ==>
                  SpecFormatter.ResponseLines((code, v)) ==
                  SpecFormatter.ResponseHead(code) + [SpecFormatter.Line(16, SpecFormatter.SchemaRef(ExtractSchemaName(s.ref.value)))])
            && (s.ref.None? ==>
                  SpecFormatter.ResponseLines((code, v)) ==
                  SpecFormatter.ResponseHead(code) +
                  [SpecFormatter.Line(16, "type: array"), SpecFormatter.Line(16, "items:"),
                   SpecFormatter.Line(18, SpecFormatter.SchemaRef(ExtractSchemaName(s.itemsRef.value)))])
  {
    SchemaValueCases(mt);
    var s := mt.schema.value;
    if s.ref.Some? {
      if !EndsWith(SchemaValue(mt).value, "[]") {
        SpecFormatter.DirectResponse(code, SchemaValue(mt).value);
      }
    } else {
      SpecFormatter.ArrayResponseRoundTrip(code, ExtractSchemaName(s.itemsRef.value));
    }
  }

  /** One optional put on top of a map whose lookup of k is already known. */
  lemma PutStepLookup(before: Entries, after: Entries, code: string, k: string,
                      o: Option<string>, lastBefore: Option<string>, last: Option<string>, base: Option<string>)
    requires DistinctKeys(before)
    requires Lookup(before, k) == if k == code && lastBefore.Some? then lastBefore else base
    requires after == if o.Some? then Put(before, code, o.value) else before
    requires last == if o.Some? then o else lastBefore
    ensures Lookup(after, k) == if k == code && last.Some? then last else base
  {
    if o.Some? {
      if k == code {
        PutLookupSame(before, code, o.value);
      } else {
        PutLookupOther(before, code, o.value, k);
      }
    }
  }

  /** The last media type's put, on top of the others. */
  lemma MediaPairsLast(prior: Entries, code: string, content: Content)
    requires content != []
    ensures Associate(prior + MediaPairs(code, content)) ==
              if SchemaValue(content[|content| - 1].1).Some?
              then Put(Associate(prior + MediaPairs(code, content[..|content| - 1])), code,
                       SchemaValue(content[|content| - 1].1).value)
              else Associate(prior + MediaPairs(code, content[..|content| - 1]))
  {
    var n := |content| - 1;
    var mt := content[n].1;
    var base := prior + MediaPairs(code, content[..n]);
    assert MediaPairs(code, content) == MediaPairs(code, content[..n]) + SchemaPut(code, mt);
    assert prior + MediaPairs(code, content) == base + SchemaPut(code, mt);
    SchemaPutShape(code, mt);
    AssociateOptionalPut(base, code, SchemaValue(mt), SchemaPut(code, mt));
  }

  lemma SchemaPutShape(code: string, mt: MediaType)
    ensures SchemaPut(code, mt) == if SchemaValue(mt).Some? then [(code, SchemaValue(mt).value)] else []
  {
  }

  /** Appending at most one pair puts it on top of the associated list. */
  lemma AssociateOptionalPut(base: Entries, code: string, o: Option<string>, put: Entries)
    requires put == if o.Some? then [(code, o.value)] else []
    ensures Associate(base + put) == if o.Some? then Put(Associate(base), code, o.value) else Associate(base)
  {
    if o.Some? {
      AssociateSnoc(base, code, o.value);
    } else {
      assert base + put == base;
    }
  }

  lemma LastSchemaValueStep(content: Content)
    requires content != []
    ensures LastSchemaValue(content) ==
              if SchemaValue(content[|content| - 1].1).Some? then SchemaValue(content[|content| - 1].1)
              else LastSchemaValue(content[..|content| - 1])
  {
  }

  /** One more media type adds at most one put. */
  lemma MediaPairsStep(prior: Entries, code: string, content: Content, j: int)
    requires 0 <= j < |content|
    ensures var before := Associate(prior + MediaPairs(code, content[..j]));
            Associate(prior + MediaPairs(code, content[..j + 1])) ==
              if SchemaValue(content[j].1).Some? then Put(before, code, SchemaValue(content[j].1).value) else before
  {
    var m := MediaPairs(code, content[..j]);
    var c := content[..j + 1];
    assert c[..|c| - 1] == content[..j];
    assert MediaPairs(code, c) == m + SchemaPut(code, content[j].1);
    if SchemaValue(content[j].1).Some? {
      var v := SchemaValue(content[j].1).value;
      assert prior + MediaPairs(code, c) == (prior + m) + [(code, v)];
      AssociateSnoc(prior + m, code, v);
    } else {
      assert prior + MediaPairs(code, c) == prior + m;
    }
  }

  lemma ResponsePairsStep(responses: seq<(string, ApiResponse)>, i: int)
    requires 0 <= i < |responses|
    ensures ResponsePairs(responses[..i + 1]) ==
              ResponsePairs(responses[..i]) + MediaPairs(responses[i].0, ContentOf(responses[i].1))
  {
    assert responses[..i + 1][..i] == responses[..i];
  }

  /** The nested forEach loops of extractResponseSchemas. */
  method ExtractResponseSchemas(op: Operation) returns (schemas: Entries)
    ensures schemas == ResponseSchemasOf(op)
  {
    var responses := op.responses.GetOr([]);
    schemas := [];
    var i := 0;
    while i < |responses|
      invariant 0 <= i <= |responses|
      invariant schemas == Associate(ResponsePairs(responses[..i]))
    {
      var code := responses[i].0;
      var content := ContentOf(responses[i].1);
      ghost var before := ResponsePairs(responses[..i]);
      assert MediaPairs(code, content[..0]) == [];
      assert before + MediaPairs(code, content[..0]) == before;
      var j := 0;
      while j < |content|
        invariant 0 <= j <= |content|
        invariant schemas == Associate(before + MediaPairs(code, content[..j]))
      {
        MediaPairsStep(before, code, content, j);
        var v := SchemaValue(content[j].1);
        if v.Some? {
          schemas := Put(schemas, code, v.value);
        }
        j := j + 1;
      }
      assert content[..j] == content;
      ResponsePairsStep(responses, i);
      i := i + 1;
    }
    assert responses[..i] == responses;
  }

  // ---------------------------------------------------------------------
  // Request schema

  predicate HasRef(mt: MediaType) {
    mt.schema.Some? && mt.schema.value.ref.Some?
  }

  /** The schema name of the first media type that carries a reference. */
  function FirstRef(content: Content): Option<string> {
    if content == [] then None
    else if HasRef(content[0].1) then Some(ExtractSchemaName(content[0].1.schema.value.ref.value))
    else FirstRef(content[1..])
  }

  /** extractRequestSchema: nothing without a request body. */
  function RequestSchemaOf(op: Operation): Option<string> {
    match op.requestBody
    case None => None
    case Some(body) => FirstRef(body.content.GetOr([]))
  }

  /** The schema name a media type's reference gives, if it has one. */
  function RefValue(mt: MediaType): (r: Option<string>)
    ensures r.None? <==> !HasRef(mt)
    ensures r.Some? ==> r == Some(ExtractSchemaName(mt.schema.value.ref.value))
  {
    if HasRef(mt) then Some(ExtractSchemaName(mt.schema.value.ref.value)) else None
  }

  /** The first present value of a sequence of optional values. */
  function FirstSome(vs: seq<Option<string>>): Option<string> {
    if vs == [] then None else if vs[0].Some? then vs[0] else FirstSome(vs[1..])
  }

  lemma {:induction false} FirstRefOfValues(content: Content)
    ensures FirstRef(content) == FirstSome(MapSeq(content, (c: (string, MediaType)) => RefValue(c.1)))
  {
    if content != [] {
      var f := (c: (string, MediaType)) => RefValue(c.1);
      FirstRefOfValues(content[1..]);
      assert MapSeq(content, f)[1..] == MapSeq(content[1..], f);
    }
  }

  /** FirstSome is a present value before which none is present, and it is
      absent exactly when no value is present. */
  lemma {:induction false} FirstSomeIsFirst(vs: seq<Option<string>>)
    ensures FirstSome(vs).None? <==> forall j :: 0 <= j < |vs| ==> vs[j].None?
    ensures FirstSome(vs).Some? ==>
              exists j :: 0 <= j < |vs| && vs[j] == FirstSome(vs) && forall j' :: 0 <= j' < j ==> vs[j'].None?
  {
    if vs != [] && vs[0].None? {
      var tail := vs[1..];
      FirstSomeIsFirst(tail);
      assert forall j :: 1 <= j < |vs| ==> vs[j] == tail[j - 1];
      if FirstSome(vs).Some? {
        var j :| 0 <= j < |tail| && tail[j] == FirstSome(tail) && forall j' :: 0 <= j' < j ==> tail[j'].None?;
        assert vs[j + 1] == tail[j];
      }
    }
  }

  /** The first media type that carries a reference names the request
      schema; there is none exactly when no media type carries one. */
  lemma FirstRefIsFirst(content: Content)
    ensures FirstRef(content).None? <==> forall j :: 0 <= j < |content| ==> !HasRef(content[j].1)
    ensures FirstRef(content).Some? ==>
              exists j :: 0 <= j < |content| && HasRef(content[j].1)
                          && FirstRef(content) == Some(ExtractSchemaName(content[j].1.schema.value.ref.value))
                          && forall j' :: 0 <= j' < j ==> !HasRef(content[j'].1)
  {
    var vs := MapSeq(content, (c: (string, MediaType)) => RefValue(c.1));
    FirstRefOfValues(content);
    FirstSomeIsFirst(vs);
    if FirstRef(content).Some? {
      var j :| 0 <= j < |vs| && vs[j] == FirstSome(vs) && forall j' :: 0 <= j' < j ==> vs[j'].None?;
      assert vs[j] == RefValue(content[j].1);
    }
  }

  /** The forEach of extractRequestSchema, which returns at the first
      reference. */
  method ExtractRequestSchema(op: Operation) returns (r: Option<string>)
    ensures r == RequestSchemaOf(op)
  {
    if op.requestBody.None? {
      return None;
    }
    var content := op.requestBody.value.content.GetOr([]);
    var i := 0;
    while i < |content|
      invariant 0 <= i <= |content|
      invariant FirstRef(content[i..]) == FirstRef(content)
    {
      assert content[i..][1..] == content[i + 1..];
      if HasRef(content[i].1) {
        return Some(ExtractSchemaName(content[i].1.schema.value.ref.value));
      }
      i := i + 1;
    }
    return None;
  }

  // ---------------------------------------------------------------------
  // Path content

  function ParamDescription(p: ParameterInfo): string {
    p.name + " (" + p.location + ", " + p.paramType + (if p.required then ", required" else "") + ")"
  }

  function ResponseDescription(e: (string, string)): string {
    e.0 + " (" + e.1 + ")"
  }

  /** The parts buildPathContent collects, in order. */
  function PathContentParts(httpMethod: string, path: string, op: Operation, parameters: seq<ParameterInfo>,
                            requestSchema: Option<string>, responseSchemas: Entries): seq<string>
  {
    [httpMethod + " " + path]
    + (if op.summary.Some? then ["- " + op.summary.value]
       else if op.description.Some? then ["- " + op.description.value] else [])
    + (if parameters != [] then ["Parameters: " + Join(MapSeq(parameters, ParamDescription), ", ")] else [])
    + (if requestSchema.Some? then ["Request body: " + requestSchema.value] else [])
    + (if responseSchemas != [] then ["Responses: " + Join(MapSeq(responseSchemas, ResponseDescription), ", ")] else [])
  }

  function Count(b: bool): nat {
    if b then 1 else 0
  }

  /** The content opens with "METHOD path"; the summary is preferred over the
      description; each further section is there exactly when it has
      something to say. */
  lemma PathContentLayout(httpMethod: string, path: string, op: Operation, parameters: seq<ParameterInfo>,
                          requestSchema: Option<string>, responseSchemas: Entries)
    ensures var parts := PathContentParts(httpMethod, path, op, parameters, requestSchema, responseSchemas);
            && parts[0] == httpMethod + " " + path
            && StartsWith(Join(parts, ". "), httpMethod + " " + path)
            && (op.summary.Some? ==> parts[1] == "- " + op.summary.value)
            && (op.summary.None? && op.description.Some? ==> parts[1] == "- " + op.description.value)
            && |parts| == 1 + Count(op.summary.Some? || op.description.Some?) + Count(parameters != [])
                          + Count(requestSchema.Some?) + Count(responseSchemas != [])
            && (requestSchema.Some? ==> "Request body: " + requestSchema.value in parts)
            && (parameters != [] ==> exists i :: 0 <= i < |parts| && StartsWith(parts[i], "Parameters: "))
            && (responseSchemas != [] ==>
                  parts[|parts| - 1] == "Responses: " + Join(MapSeq(responseSchemas, ResponseDescription), ", "))
  {
    var parts := PathContentParts(httpMethod, path, op, parameters, requestSchema, responseSchemas);
    JoinStartsWithFirst(parts, ". ");
    if parameters != [] {
      var i := 1 + Count(op.summary.Some? || op.description.Some?);
      PrefixOfConcat("Parameters: ", Join(MapSeq(parameters, ParamDescription), ", "));
      assert parts[i] == "Parameters: " + Join(MapSeq(parameters, ParamDescription), ", ");
    }
  }

  /** buildPathContent: the parts list grows section by section and is joined
      with ". ". */
  method BuildPathContent(httpMethod: string, path: string, op: Operation, parameters: seq<ParameterInfo>,
                          requestSchema: Option<string>, responseSchemas: Entries) returns (content: string)
    ensures content == Join(PathContentParts(httpMethod, path, op, parameters, requestSchema, responseSchemas), ". ")
  {
    var parts := [httpMethod + " " + path];
    if op.summary.Some? {
      parts := parts + ["- " + op.summary.value];
    } else if op.description.Some? {
      parts := parts + ["- " + op.description.value];
    }
    ghost var expected := PathContentParts(httpMethod, path, op, [], None, []);
    assert parts == expected;
    if parameters != [] {
      parts := parts + ["Parameters: " + Join(MapSeq(parameters, ParamDescription), ", ")];
    }
    expected := PathContentParts(httpMethod, path, op, parameters, None, []);
    assert parts == expected;
    if requestSchema.Some? {
      parts := parts + ["Request body: " + requestSchema.value];
    }
    expected := PathContentParts(httpMethod, path, op, parameters, requestSchema, []);
    assert parts == expected;
    if responseSchemas != [] {
      parts := parts + ["Responses: " + Join(MapSeq(responseSchemas, ResponseDescription), ", ")];
    }
    assert parts == PathContentParts(httpMethod, path, op, parameters, requestSchema, responseSchemas);
    content := Join(parts, ". ");
  }

  // ---------------------------------------------------------------------
  // Path documents

  /** createPathDocument: a missing tag list is empty. */
  function PathDocumentOf(path: string, httpMethod: string, op: Operation, item: PathItem): PathDocument {
    var parameters := ParametersOf(op, item);
    var responseSchemas := ResponseSchemasOf(op);
    var requestSchema := RequestSchemaOf(op);
    PathDocument(
      httpMethod, path, op.operationId, op.summary, op.description, op.tags.GetOr([]),
      parameters, requestSchema, responseSchemas,
      Join(PathContentParts(httpMethod, path, op, parameters, requestSchema, responseSchemas), ". "))
  }

  method CreatePathDocument(path: string, httpMethod: string, op: Operation, item: PathItem)
    returns (doc: PathDocument)
    ensures doc == PathDocumentOf(path, httpMethod, op, item)
  {
    var parameters := ExtractParameters(op, item);
    var responseSchemas := ExtractResponseSchemas(op);
    var requestSchema := ExtractRequestSchema(op);
    var content := BuildPathContent(httpMethod, path, op, parameters, requestSchema, responseSchemas);
    doc := PathDocument(
      httpMethod, path, op.operationId, op.summary, op.description, op.tags.GetOr([]),
      parameters, requestSchema, responseSchemas, content);
  }

  /** The documents of one path item, one per operation in order. */
  function OperationDocuments(path: string, item: PathItem, ops: seq<(string, Operation)>): seq<PathDocument> {
    MapSeq(ops, (o: (string, Operation)) => PathDocumentOf(path, o.0, o.1, item))
  }

  /** extractPaths: path by path. */
  function PathDocumentsOf(paths: seq<(string, PathItem)>): seq<PathDocument> {
    if paths == [] then []
    else
      var last := paths[|paths| - 1];
      PathDocumentsOf(paths[..|paths| - 1]) + OperationDocuments(last.0, last.1, last.1.operations)
  }

  /** Every path document is the document of one operation of one path,
      carrying that path and method. */
  lemma {:induction false} PathDocumentsSound(paths: seq<(string, PathItem)>, d: PathDocument)
    requires d in PathDocumentsOf(paths)
    ensures exists i, j :: 0 <= i < |paths| && 0 <= j < |paths[i].1.operations|
                           && d == PathDocumentOf(paths[i].0, paths[i].1.operations[j].0,
                                                  paths[i].1.operations[j].1, paths[i].1)
  {
    var n := |paths| - 1;
    var init := paths[..n];
    var last := paths[n];
    var docs := OperationDocuments(last.0, last.1, last.1.operations);
    if d in PathDocumentsOf(init) {
      PathDocumentsSound(init, d);
      var i, j :| 0 <= i < |init| && 0 <= j < |init[i].1.operations|
                  && d == PathDocumentOf(init[i].0, init[i].1.operations[j].0, init[i].1.operations[j].1, init[i].1);
      assert init[i] == paths[i];
    } else {
      assert d in docs;
      var j :| 0 <= j < |docs| && docs[j] == d;
      assert d == PathDocumentOf(paths[n].0, paths[n].1.operations[j].0, paths[n].1.operations[j].1, paths[n].1);
    }
  }

  lemma OperationDocumentsStep(path: string, item: PathItem, ops: seq<(string, Operation)>, j: int)
    requires 0 <= j < |ops|
    ensures OperationDocuments(path, item, ops[..j + 1]) ==
              OperationDocuments(path, item, ops[..j]) + [PathDocumentOf(path, ops[j].0, ops[j].1, item)]
  {
    MapSeqPrefixStep(ops, j, (o: (string, Operation)) => PathDocumentOf(path, o.0, o.1, item));
  }

  lemma PathDocumentsStep(paths: seq<(string, PathItem)>, i: int)
    requires 0 <= i < |paths|
    ensures PathDocumentsOf(paths[..i + 1]) ==
              PathDocumentsOf(paths[..i]) + OperationDocuments(paths[i].0, paths[i].1, paths[i].1.operations)
  {
    assert paths[..i + 1][..i] == paths[..i];
  }

  /** The inner forEach of extractPaths, over readOperationsMap. */
  method ExtractOperations(path: string, item: PathItem) returns (docs: seq<PathDocument>)
    ensures docs == OperationDocuments(path, item, item.operations)
  {
    docs := [];
    var j := 0;
    while j < |item.operations|
      invariant 0 <= j <= |item.operations|
      invariant docs == OperationDocuments(path, item, item.operations[..j])
    {
      OperationDocumentsStep(path, item, item.operations, j);
      var doc := CreatePathDocument(path, item.operations[j].0, item.operations[j].1, item);
      docs := docs + [doc];
      j := j + 1;
    }
    assert item.operations[..j] == item.operations;
  }

  /** extractPaths: the operations of every path, path by path. */
  method ExtractPaths(api: OpenApi) returns (docs: seq<PathDocument>)
    ensures docs == PathDocumentsOf(api.paths.GetOr([]))
  {
    var paths := api.paths.GetOr([]);
    docs := [];
    var i := 0;
    while i < |paths|
      invariant 0 <= i <= |paths|
      invariant docs == PathDocumentsOf(paths[..i])
    {
      var ops := ExtractOperations(paths[i].0, paths[i].1);
      PathDocumentsStep(paths, i);
      docs := docs + ops;
      i := i + 1;
    }
    assert paths[..i] == paths;
  }

  // ---------------------------------------------------------------------
  // Component documents

  /** One schema property as a PropertyInfo. */
  function PropertyOf(entry: (string, PropertySchema), required: seq<string>): PropertyInfo {
    PropertyInfo(entry.0, entry.1.schemaType.GetOr("object"), entry.1.format, entry.1.description, entry.0 in required)
  }

  /** extractProperties: a missing property map gives none. */
  function PropertiesOf(schema: Schema): seq<PropertyInfo> {
    var required := schema.required.GetOr([]);
    MapSeq(schema.properties.GetOr([]), e => PropertyOf(e, required))
  }

  /** One property per schema property, in order: named after it, typed
      "object" when no type is given, and required exactly when its name is
      in the schema's required list. */
  lemma PropertiesFaithful(schema: Schema)
    ensures var props := schema.properties.GetOr([]);
            var required := schema.required.GetOr([]);
            var r := PropertiesOf(schema);
            && |r| == |props|
            && forall i :: 0 <= i < |r| ==>
                 && r[i].name == props[i].0
                 && (r[i].required <==> exists k :: 0 <= k < |required| && required[k] == props[i].0)
                 && (props[i].1.schemaType.None? ==> r[i].propType == "object")
                 && (props[i].1.schemaType.Some? ==> r[i].propType == props[i].1.schemaType.value)
                 && r[i].format == props[i].1.format
  {
  }

  /** The forEach of extractProperties. */
  method ExtractProperties(schema: Schema) returns (properties: seq<PropertyInfo>)
    ensures properties == PropertiesOf(schema)
  {
    var required := schema.required.GetOr([]);
    var props := schema.properties.GetOr([]);
    properties := [];
    var i := 0;
    while i < |props|
      invariant 0 <= i <= |props|
      invariant |properties| == i
      invariant forall k :: 0 <= k < i ==> properties[k] == PropertyOf(props[k], required)
    {
      properties := properties + [PropertyOf(props[i], required)];
      i := i + 1;
    }
  }

  function PropertyDescription(p: PropertyInfo): string {
    p.name + ": " + p.propType + (if p.format.Some? then ", " + p.format.value else "")
    + (if p.required then " (required)" else "")
  }

  /** The parts buildComponentContent collects, in order. */
  function ComponentContentParts(name: string, schema: Schema, properties: seq<PropertyInfo>): seq<string> {
    [name + " schema"]
    + (if schema.description.Some? then ["- " + schema.description.value] else [])
    + (if properties != [] then ["Properties: " + Join(MapSeq(properties, PropertyDescription), ", ")] else [])
  }

  /** The content opens with "name schema", then the description when there
      is one, then the properties when there are any. */
  lemma ComponentContentLayout(name: string, schema: Schema, properties: seq<PropertyInfo>)
    ensures var parts := ComponentContentParts(name, schema, properties);
            && StartsWith(Join(parts, ". "), name + " schema")
            && |parts| == 1 + Count(schema.description.Some?) + Count(properties != [])
            && (schema.description.Some? ==> parts[1] == "- " + schema.description.value)
            && (properties != [] ==>
                  parts[|parts| - 1] == "Properties: " + Join(MapSeq(properties, PropertyDescription), ", "))
  {
    JoinStartsWithFirst(ComponentContentParts(name, schema, properties), ". ");
  }

  method BuildComponentContent(name: string, schema: Schema, properties: seq<PropertyInfo>) returns (content: string)
    ensures content == Join(ComponentContentParts(name, schema, properties), ". ")
  {
    var parts := [name + " schema"];
    if schema.description.Some? {
      parts := parts + ["- " + schema.description.value];
    }
    assert parts == ComponentContentParts(name, schema, []);
    if properties != [] {
      parts := parts + ["Properties: " + Join(MapSeq(properties, PropertyDescription), ", ")];
    }
    assert parts == ComponentContentParts(name, schema, properties);
    content := Join(parts, ". ");
  }

  /** createComponentDocument: every schema is of type "schema". */
  function ComponentDocumentOf(name: string, schema: Schema): ComponentDocument {
    var properties := PropertiesOf(schema);
    ComponentDocument("schema", name, schema.description, properties, schema.required.GetOr([]),
                      Join(ComponentContentParts(name, schema, properties), ". "))
  }

  method CreateComponentDocument(name: string, schema: Schema) returns (doc: ComponentDocument)
    ensures doc == ComponentDocumentOf(name, schema)
  {
    var properties := ExtractProperties(schema);
    var required := schema.required.GetOr([]);
    var content := BuildComponentContent(name, schema, properties);
    doc := ComponentDocument("schema", name, schema.description, properties, required, content);
  }

  function ComponentSchemas(api: OpenApi): seq<(string, Schema)> {
    if api.components.Some? then api.components.value.schemas.GetOr([]) else []
  }

  /** extractComponents: one document per named schema, in order. */
  method ExtractComponents(api: OpenApi) returns (docs: seq<ComponentDocument>)
    ensures |docs| == |ComponentSchemas(api)|
    ensures forall i :: 0 <= i < |docs| ==>
              docs[i] == ComponentDocumentOf(ComponentSchemas(api)[i].0, ComponentSchemas(api)[i].1)
  {
    var schemas := ComponentSchemas(api);
    docs := [];
    var i := 0;
    while i < |schemas|
      invariant 0 <= i <= |schemas|
      invariant |docs| == i
      invariant forall k :: 0 <= k < i ==> docs[k] == ComponentDocumentOf(schemas[k].0, schemas[k].1)
    {
      var doc := CreateComponentDocument(schemas[i].0, schemas[i].1);
      docs := docs + [doc];
      i := i + 1;
    }
  }

  // ---------------------------------------------------------------------
  // Info and the whole specification

  /** extractInfo: the title falls back to "Unknown", the version to "1.0.0". */
  function ExtractInfo(api: OpenApi): (r: SpecInfo)
    ensures api.info.None? ==> r == SpecInfo("Unknown", "1.0.0", None)
    ensures api.info.Some? ==> r.description == api.info.value.description
    ensures api.info.Some? && api.info.value.title.Some? ==> r.title == api.info.value.title.value
    ensures api.info.Some? && api.info.value.title.None? ==> r.title == "Unknown"
    ensures api.info.Some? && api.info.value.version.Some? ==> r.version == api.info.value.version.value
    ensures api.info.Some? && api.info.value.version.None? ==> r.version == "1.0.0"
  {
    match api.info
    case None => SpecInfo("Unknown", "1.0.0", None)
    case Some(info) => SpecInfo(info.title.GetOr("Unknown"), info.version.GetOr("1.0.0"), info.description)
  }

  /** parseSpec: read is the swagger parser, giving nothing when the text is
      not a specification; that failure is an error. */
  method ParseSpec(yamlContent: string, read: string -> Option<OpenApi>) returns (r: Result<ParsedSpec>)
    ensures r.Err? <==> read(yamlContent).None?
    ensures r.Ok? ==> var api := read(yamlContent).value;
                      && r.value.paths == PathDocumentsOf(api.paths.GetOr([]))
                      && |r.value.components| == |ComponentSchemas(api)|
                      && (forall i :: 0 <= i < |r.value.components| ==>
                            r.value.components[i] == ComponentDocumentOf(ComponentSchemas(api)[i].0, ComponentSchemas(api)[i].1))
                      && r.value.info == ExtractInfo(api)
  {
    var parsed := read(yamlContent);
    if parsed.None? {
      return Err("Failed to parse OpenAPI spec");
    }
    var api := parsed.value;
    var paths := ExtractPaths(api);
    var components := ExtractComponents(api);
    r := Ok(ParsedSpec(paths, components, ExtractInfo(api)));
  }
}
