/** OpenAPISpecFormatter: writes a small OpenAPI YAML document for one search
    result, line by line, into a StringBuilder. The builder is the list of
    lines appended so far, and its text (toString) is their rendering with a
    line break after each. */
module SpecFormatter {
  import opened Wrappers
  import opened Strings
  import opened MapOutputParser
  import opened OpenApiModel
  import SpecDocument

  /** The builder's text after appendLine of each line in turn. */
  function Render(lines: seq<string>): string {
    if lines == [] then [] else lines[0] + "\n" + Render(lines[1..])
  }

  lemma {:induction false} RenderSnoc(lines: seq<string>, line: string)
    ensures Render(lines + [line]) == Render(lines) + line + "\n"
    decreases |lines|
  {
    if lines != [] {
      assert (lines + [line])[1..] == lines[1..] + [line];
      RenderSnoc(lines[1..], line);
    }
  }

  /** The rendering is the lines joined by line breaks, with one more break at
      the end ... */
  lemma {:induction false} RenderIsJoin(lines: seq<string>)
    ensures Render(lines) == Join(lines + [""], "\n")
    decreases |lines|
  {
    if lines != [] {
      assert (lines + [""])[1..] == lines[1..] + [""];
      RenderIsJoin(lines[1..]);
    }
  }

  /** ... so splitting the text at line breaks gives the lines back, with an
      empty piece after the final break. */
  lemma RenderSplit(lines: seq<string>)
    requires forall l :: l in lines ==> '\n' !in l
    ensures Split(Render(lines), "\n") == lines + [""]
  {
    RenderIsJoin(lines);
    JoinSplit(lines + [""], '\n');
  }

  /** The lines of each element, one element after the other. */
  function Flatten<T>(xs: seq<T>, f: T -> seq<string>): seq<string>
    decreases |xs|
  {
    if xs == [] then [] else Flatten(xs[..|xs| - 1], f) + f(xs[|xs| - 1])
  }

  lemma FlattenStep<T>(xs: seq<T>, i: int, f: T -> seq<string>)
    requires 0 <= i < |xs|
    ensures Flatten(xs[..i + 1], f) == Flatten(xs[..i], f) + f(xs[i])
  {
    assert xs[..i + 1][..i] == xs[..i];
  }

  /** An element that contributes one line each gives one line per element,
      in order. */
  lemma {:induction false} FlattenSingles<T>(xs: seq<T>, f: T -> seq<string>)
    requires forall i :: 0 <= i < |xs| ==> |f(xs[i])| == 1
    ensures |Flatten(xs, f)| == |xs|
    ensures forall i :: 0 <= i < |xs| ==> Flatten(xs, f)[i] == f(xs[i])[0]
    decreases |xs|
  {
    if xs != [] {
      var init := xs[..|xs| - 1];
      assert forall i :: 0 <= i < |init| ==> init[i] == xs[i];
      FlattenSingles(init, f);
    }
  }

  /** The line starts with at least n spaces. */
  predicate Indented(line: string, n: nat) {
    |line| >= n && forall k :: 0 <= k < n ==> line[k] == ' '
  }

  predicate AllIndented(lines: seq<string>, n: nat) {
    forall i :: 0 <= i < |lines| ==> Indented(lines[i], n)
  }

  lemma AllIndentedConcat(a: seq<string>, b: seq<string>, n: nat)
    requires AllIndented(a, n) && AllIndented(b, n)
    ensures AllIndented(a + b, n)
  {
    assert forall i :: 0 <= i < |b| ==> (a + b)[|a| + i] == b[i];
  }

  lemma {:induction false} FlattenIndented<T>(xs: seq<T>, f: T -> seq<string>, n: nat)
    requires forall i :: 0 <= i < |xs| ==> AllIndented(f(xs[i]), n)
    ensures AllIndented(Flatten(xs, f), n)
    decreases |xs|
  {
    if xs != [] {
      var init := xs[..|xs| - 1];
      assert forall i :: 0 <= i < |init| ==> init[i] == xs[i];
      FlattenIndented(init, f, n);
      AllIndentedConcat(Flatten(init, f), f(xs[|xs| - 1]), n);
    }
  }


  /** n spaces. */
  function Pad(n: nat): (r: string)
    ensures |r| == n && forall k :: 0 <= k < n ==> r[k] == ' '
  {
    seq(n, _ => ' ')
  }

  /** A YAML line: text after n spaces of indentation. */
  function Line(n: nat, text: string): string {
    Pad(n) + text
  }

  lemma LineIndented(n: nat, text: string, m: nat)
    requires m <= n
    ensures Indented(Line(n, text), m)
  {
    assert forall k :: 0 <= k < m ==> Line(n, text)[k] == Pad(n)[k];
  }

  lemma AllIndentedWeaken(lines: seq<string>, m: nat, n: nat)
    requires AllIndented(lines, m) && n <= m
    ensures AllIndented(lines, n)
  {
  }

  const HeaderLines: seq<string> :=
    ["openapi: 3.0.0", "info:", Line(2, "title: API Specification"), Line(2, "version: 1.0.0")]

  /** `o?.let { yaml.appendLine(key + it) }` at indentation n. */
  function OptLine(n: nat, key: string, o: Option<string>): seq<string> {
    if o.Some? then [Line(n, key + o.value)] else []
  }

  /** A "- x" list entry, as under tags and required. */
  function ItemLine(x: string): seq<string> {
    [Line(8, "- " + x)]
  }

  function TagBlock(tags: Option<seq<string>>): seq<string> {
    if tags.None? || tags.value == [] then [] else [Line(6, "tags:")] + Flatten(tags.value, ItemLine)
  }

  /** One "name:type:location:required" parameter; fewer than four parts
      write nothing. */
  function ParamLines(param: string): seq<string> {
    var parts := Split(param, ":");
    if |parts| >= 4 then
      [Line(8, "- name: " + parts[0]),
       Line(10, "in: " + parts[2]),
       Line(10, "required: " + parts[3]),
       Line(10, "schema:"),
       Line(12, "type: " + parts[1])]
    else []
  }

  function ParametersBlock(parameters: Option<seq<string>>): seq<string> {
    if parameters.None? || parameters.value == [] then []
    else [Line(6, "parameters:")] + Flatten(parameters.value, ParamLines)
  }

  /** The text of a reference to a component schema. */
  function SchemaRef(name: string): string {
    "$ref: '#/components/schemas/" + name + "'"
  }

  function RequestLines(requestSchema: Option<string>): seq<string> {
    if requestSchema.None? then []
    else [Line(6, "requestBody:"), Line(8, "content:"), Line(10, "application/json:"), Line(12, "schema:"),
          Line(14, SchemaRef(requestSchema.value))]
  }

  /** The fixed lines that open one status code. */
  function ResponseHead(statusCode: string): seq<string> {
    [Line(8, "'" + statusCode + "':"), Line(10, "description: Response"), Line(10, "content:"),
     Line(12, "application/json:"), Line(14, "schema:")]
  }

  /** One status code: a schema ending in "[]" is an array of the named
      schema, any other a direct reference. */
  function ResponseLines(e: (string, string)): seq<string> {
    ResponseHead(e.0)
    + if EndsWith(e.1, "[]") then
        [Line(16, "type: array"), Line(16, "items:"), Line(18, SchemaRef(RemoveSuffix(e.1, "[]")))]
      else [Line(16, SchemaRef(e.1))]
  }

  function ResponsesBlock(responseSchemas: Option<Entries>): seq<string> {
    if responseSchemas.None? || responseSchemas.value == [] then []
    else [Line(6, "responses:")] + Flatten(responseSchemas.value, ResponseLines)
  }

  /** One "name:type[:format...]" property; fewer than two parts write
      nothing, and a blank or missing third part writes no format line. */
  function PropertyLines(prop: string): seq<string> {
    var parts := Split(prop, ":");
    if |parts| >= 2 then
      [Line(8, parts[0] + ":"), Line(10, "type: " + parts[1])]
      + if |parts| > 2 && !IsBlank(parts[2]) then [Line(10, "format: " + parts[2])] else []
    else []
  }

  function PropertiesBlock(properties: seq<string>): seq<string> {
    if properties == [] then [] else [Line(6, "properties:")] + Flatten(properties, PropertyLines)
  }

  function RequiredBlock(required: seq<string>): seq<string> {
    if required == [] then [] else [Line(6, "required:")] + Flatten(required, ItemLine)
  }

  /** One schema under components.schemas, the same in both documents. */
  function SchemaLines(name: string, description: Option<string>, properties: seq<string>, required: seq<string>): seq<string> {
    [Line(4, name + ":"), Line(6, "type: object")]
    + OptLine(6, "description: ", description)
    + PropertiesBlock(properties)
    + RequiredBlock(required)
  }

  function ComponentLines(c: ComponentInfo): seq<string> {
    SchemaLines(c.name, c.description, c.properties, c.required)
  }

  function ComponentsBlock(relatedSchemas: Option<seq<ComponentInfo>>): seq<string> {
    if relatedSchemas.None? || relatedSchemas.value == [] then []
    else ["components:", Line(2, "schemas:")] + Flatten(relatedSchemas.value, ComponentLines)
  }

  function PathHead(httpMethod: string, path: string): seq<string> {
    HeaderLines + ["paths:", Line(2, path + ":"), Line(4, Lower(httpMethod) + ":")]
  }

  /** Everything written under the method key. */
  function OperationLines(operationId: Option<string>, summary: Option<string>, description: Option<string>,
                          tags: Option<seq<string>>, parameters: Option<seq<string>>, requestSchema: Option<string>,
                          responseSchemas: Option<Entries>): seq<string> {
    OptLine(6, "operationId: ", operationId)
    + OptLine(6, "summary: ", summary)
    + OptLine(6, "description: ", description)
    + TagBlock(tags)
    + ParametersBlock(parameters)
    + RequestLines(requestSchema)
    + ResponsesBlock(responseSchemas)
  }

  /** The lines generatePathSpec appends, in order. */
  function PathSpecLines(httpMethod: string, path: string, operationId: Option<string>, summary: Option<string>,
                         description: Option<string>, tags: Option<seq<string>>, parameters: Option<seq<string>>,
                         requestSchema: Option<string>, responseSchemas: Option<Entries>,
                         relatedSchemas: Option<seq<ComponentInfo>>): seq<string> {
    PathHead(httpMethod, path)
    + OptLine(6, "operationId: ", operationId)
    + OptLine(6, "summary: ", summary)
    + OptLine(6, "description: ", description)
    + TagBlock(tags)
    + ParametersBlock(parameters)
    + RequestLines(requestSchema)
    + ResponsesBlock(responseSchemas)
    + ComponentsBlock(relatedSchemas)
  }

  /** The lines generateComponentSpec appends, in order. */
  function ComponentSpecLines(name: string, description: Option<string>, properties: seq<string>, required: seq<string>): seq<string> {
    HeaderLines + ["components:", Line(2, "schemas:")] + SchemaLines(name, description, properties, required)
  }

  // ---------------------------------------------------------------------
  // Properties of the emitted lines

  lemma Regroup<T>(h: seq<T>, a: seq<T>, b: seq<T>, c: seq<T>, d: seq<T>, e: seq<T>, f: seq<T>, g: seq<T>, z: seq<T>)
    ensures h + a + b + c + d + e + f + g + z == h + (a + b + c + d + e + f + g) + z
  {
  }

  lemma PathSpecSections(httpMethod: string, path: string, operationId: Option<string>, summary: Option<string>,
                         description: Option<string>, tags: Option<seq<string>>, parameters: Option<seq<string>>,
                         requestSchema: Option<string>, responseSchemas: Option<Entries>,
                         relatedSchemas: Option<seq<ComponentInfo>>)
    ensures PathSpecLines(httpMethod, path, operationId, summary, description, tags, parameters,
                          requestSchema, responseSchemas, relatedSchemas)
            == PathHead(httpMethod, path)
               + OperationLines(operationId, summary, description, tags, parameters, requestSchema, responseSchemas)
               + ComponentsBlock(relatedSchemas)
  {
    Regroup(PathHead(httpMethod, path), OptLine(6, "operationId: ", operationId), OptLine(6, "summary: ", summary),
            OptLine(6, "description: ", description), TagBlock(tags), ParametersBlock(parameters),
            RequestLines(requestSchema), ResponsesBlock(responseSchemas), ComponentsBlock(relatedSchemas));
  }

  lemma OptLineIndented(n: nat, key: string, o: Option<string>)
    ensures AllIndented(OptLine(n, key, o), n)
  {
    if o.Some? {
      LineIndented(n, key + o.value, n);
    }
  }

  lemma ItemLineIndented(x: string)
    ensures AllIndented(ItemLine(x), 8)
  {
    LineIndented(8, "- " + x, 8);
  }

  lemma ParamLineIndented(param: string)
    ensures AllIndented(ParamLines(param), 8)
  {
    var parts := Split(param, ":");
    if |parts| >= 4 {
      LineIndented(8, "- name: " + parts[0], 8);
      LineIndented(10, "in: " + parts[2], 8);
      LineIndented(10, "required: " + parts[3], 8);
      LineIndented(10, "schema:", 8);
      LineIndented(12, "type: " + parts[1], 8);
    }
  }

  lemma ResponseLineIndented(e: (string, string))
    ensures AllIndented(ResponseLines(e), 8)
  {
    LineIndented(8, "'" + e.0 + "':", 8);
    LineIndented(10, "description: Response", 8);
    LineIndented(10, "content:", 8);
    LineIndented(12, "application/json:", 8);
    LineIndented(14, "schema:", 8);
    LineIndented(16, "type: array", 8);
    LineIndented(16, "items:", 8);
    LineIndented(18, SchemaRef(RemoveSuffix(e.1, "[]")), 8);
    LineIndented(16, SchemaRef(e.1), 8);
  }

  lemma PropertyLineIndented(prop: string)
    ensures AllIndented(PropertyLines(prop), 8)
  {
    var parts := Split(prop, ":");
    if |parts| >= 2 {
      LineIndented(8, parts[0] + ":", 8);
      LineIndented(10, "type: " + parts[1], 8);
      if |parts| > 2 {
        LineIndented(10, "format: " + parts[2], 8);
      }
    }
  }

  /** A block headed by one line at indentation 6 over items at 8. */
  lemma BlockIndented<T>(head: string, xs: seq<T>, f: T -> seq<string>, n: nat)
    requires n <= 6
    requires forall i :: 0 <= i < |xs| ==> AllIndented(f(xs[i]), 8)
    ensures AllIndented([Line(6, head)] + Flatten(xs, f), n)
  {
    LineIndented(6, head, n);
    FlattenIndented(xs, f, 8);
    AllIndentedWeaken(Flatten(xs, f), 8, n);
    AllIndentedConcat([Line(6, head)], Flatten(xs, f), n);
  }

  lemma TagBlockIndented(tags: Option<seq<string>>)
    ensures AllIndented(TagBlock(tags), 6)
  {
    if tags.Some? && tags.value != [] {
      forall i | 0 <= i < |tags.value| ensures AllIndented(ItemLine(tags.value[i]), 8) {
        ItemLineIndented(tags.value[i]);
      }
      BlockIndented("tags:", tags.value, ItemLine, 6);
    }
  }

  lemma ParametersBlockIndented(parameters: Option<seq<string>>)
    ensures AllIndented(ParametersBlock(parameters), 6)
  {
    if parameters.Some? && parameters.value != [] {
      forall i | 0 <= i < |parameters.value| ensures AllIndented(ParamLines(parameters.value[i]), 8) {
        ParamLineIndented(parameters.value[i]);
      }
      BlockIndented("parameters:", parameters.value, ParamLines, 6);
    }
  }

  lemma RequestLinesIndented(requestSchema: Option<string>)
    ensures AllIndented(RequestLines(requestSchema), 6)
  {
    if requestSchema.Some? {
      LineIndented(6, "requestBody:", 6);
      LineIndented(8, "content:", 6);
      LineIndented(10, "application/json:", 6);
      LineIndented(12, "schema:", 6);
      LineIndented(14, SchemaRef(requestSchema.value), 6);
    }
  }

  lemma ResponsesBlockIndented(responseSchemas: Option<Entries>)
    ensures AllIndented(ResponsesBlock(responseSchemas), 6)
  {
    if responseSchemas.Some? && responseSchemas.value != [] {
      var es := responseSchemas.value;
      forall i | 0 <= i < |es| ensures AllIndented(ResponseLines(es[i]), 8) {
        ResponseLineIndented(es[i]);
      }
      BlockIndented("responses:", es, ResponseLines, 6);
    }
  }

  lemma PropertiesBlockIndented(properties: seq<string>)
    ensures AllIndented(PropertiesBlock(properties), 4)
  {
    if properties != [] {
      forall i | 0 <= i < |properties| ensures AllIndented(PropertyLines(properties[i]), 8) {
        PropertyLineIndented(properties[i]);
      }
      BlockIndented("properties:", properties, PropertyLines, 4);
    }
  }

  lemma RequiredBlockIndented(required: seq<string>)
    ensures AllIndented(RequiredBlock(required), 4)
  {
    if required != [] {
      forall i | 0 <= i < |required| ensures AllIndented(ItemLine(required[i]), 8) {
        ItemLineIndented(required[i]);
      }
      BlockIndented("required:", required, ItemLine, 4);
    }
  }

  /** Every line of a schema block sits under the schemas key. */
  lemma SchemaLinesIndented(name: string, description: Option<string>, properties: seq<string>, required: seq<string>)
    ensures AllIndented(SchemaLines(name, description, properties, required), 4)
  {
    var first := [Line(4, name + ":"), Line(6, "type: object")];
    LineIndented(4, name + ":", 4);
    LineIndented(6, "type: object", 4);
    var desc := OptLine(6, "description: ", description);
    OptLineIndented(6, "description: ", description);
    AllIndentedWeaken(desc, 6, 4);
    PropertiesBlockIndented(properties);
    RequiredBlockIndented(required);
    AllIndentedConcat(first, desc, 4);
    AllIndentedConcat(first + desc, PropertiesBlock(properties), 4);
    AllIndentedConcat(first + desc + PropertiesBlock(properties), RequiredBlock(required), 4);
  }

  /** Every line of the operation sits under the method key (six spaces). */
  lemma OperationLinesIndented(operationId: Option<string>, summary: Option<string>, description: Option<string>,
                               tags: Option<seq<string>>, parameters: Option<seq<string>>, requestSchema: Option<string>,
                               responseSchemas: Option<Entries>)
    ensures AllIndented(OperationLines(operationId, summary, description, tags, parameters, requestSchema, responseSchemas), 6)
  {
    var a := OptLine(6, "operationId: ", operationId);
    var b := OptLine(6, "summary: ", summary);
    var c := OptLine(6, "description: ", description);
    var d, e, f, g := TagBlock(tags), ParametersBlock(parameters), RequestLines(requestSchema), ResponsesBlock(responseSchemas);
    OptLineIndented(6, "operationId: ", operationId);
    OptLineIndented(6, "summary: ", summary);
    OptLineIndented(6, "description: ", description);
    TagBlockIndented(tags);
    ParametersBlockIndented(parameters);
    RequestLinesIndented(requestSchema);
    ResponsesBlockIndented(responseSchemas);
    AllIndentedConcat(a, b, 6);
    AllIndentedConcat(a + b, c, 6);
    AllIndentedConcat(a + b + c, d, 6);
    AllIndentedConcat(a + b + c + d, e, 6);
    AllIndentedConcat(a + b + c + d + e, f, 6);
    AllIndentedConcat(a + b + c + d + e + f, g, 6);
  }

  lemma ComponentsIndented(related: seq<ComponentInfo>)
    ensures AllIndented(Flatten(related, ComponentLines), 4)
  {
    forall i | 0 <= i < |related| ensures AllIndented(ComponentLines(related[i]), 4) {
      SchemaLinesIndented(related[i].name, related[i].description, related[i].properties, related[i].required);
    }
    FlattenIndented(related, ComponentLines, 4);
  }

  /** No line of the fixed head is "components:". */
  lemma HeadLacksComponents(httpMethod: string, path: string)
    ensures "components:" !in PathHead(httpMethod, path)
  {
    var head := PathHead(httpMethod, path);
    LineIndented(2, "title: API Specification", 1);
    LineIndented(2, "version: 1.0.0", 1);
    LineIndented(2, path + ":", 1);
    LineIndented(4, Lower(httpMethod) + ":", 1);
    forall i | 0 <= i < |head| ensures head[i] != "components:" {
      if i == 0 {
        assert head[i][0] == 'o';
      } else if i == 1 {
        assert head[i][0] == 'i';
      } else if i == 4 {
        assert head[i][0] == 'p';
      } else {
        assert head[i][0] == ' ';
      }
    }
  }

  /** The layout of a path document: the fixed header, the path and the
      lowercased method; then the operation, nested under the method; then,
      exactly when there are related schemas, a top-level components block
      whose schemas are nested under its schemas key. */
  lemma PathSpecLayout(httpMethod: string, path: string, operationId: Option<string>, summary: Option<string>,
                       description: Option<string>, tags: Option<seq<string>>, parameters: Option<seq<string>>,
                       requestSchema: Option<string>, responseSchemas: Option<Entries>,
                       relatedSchemas: Option<seq<ComponentInfo>>)
    ensures var lines := PathSpecLines(httpMethod, path, operationId, summary, description, tags, parameters,
                                       requestSchema, responseSchemas, relatedSchemas);
            var k := 7 + |OperationLines(operationId, summary, description, tags, parameters, requestSchema, responseSchemas)|;
            && k <= |lines|
            && lines[..7] == ["openapi: 3.0.0", "info:", Line(2, "title: API Specification"), Line(2, "version: 1.0.0"),
                              "paths:", Line(2, path + ":"), Line(4, Lower(httpMethod) + ":")]
            && AllIndented(lines[7..k], 6)
            && (k == |lines| <==> relatedSchemas.None? || relatedSchemas.value == [])
            && (k < |lines| ==> lines[k] == "components:" && lines[k + 1] == Line(2, "schemas:")
                                && AllIndented(lines[k + 2..], 4))
  {
    var head := PathHead(httpMethod, path);
    var op := OperationLines(operationId, summary, description, tags, parameters, requestSchema, responseSchemas);
    var comps := ComponentsBlock(relatedSchemas);
    PathSpecSections(httpMethod, path, operationId, summary, description, tags, parameters,
                     requestSchema, responseSchemas, relatedSchemas);
    var lines := head + op + comps;
    OperationLinesIndented(operationId, summary, description, tags, parameters, requestSchema, responseSchemas);
    assert lines[..7] == head;
    assert lines[7..7 + |op|] == op;
    assert lines[7 + |op|..] == comps;
    if relatedSchemas.Some? && relatedSchemas.value != [] {
      ComponentsIndented(relatedSchemas.value);
      assert comps[2..] == Flatten(relatedSchemas.value, ComponentLines);
    }
  }

  /** A top-level "components:" line is written exactly when there are
      related schemas. */
  lemma ComponentsLineIffRelated(httpMethod: string, path: string, operationId: Option<string>, summary: Option<string>,
                                 description: Option<string>, tags: Option<seq<string>>, parameters: Option<seq<string>>,
                                 requestSchema: Option<string>, responseSchemas: Option<Entries>,
                                 relatedSchemas: Option<seq<ComponentInfo>>)
    ensures "components:" in PathSpecLines(httpMethod, path, operationId, summary, description, tags, parameters,
                                           requestSchema, responseSchemas, relatedSchemas)
            <==> relatedSchemas.Some? && relatedSchemas.value != []
  {
    var head := PathHead(httpMethod, path);
    var op := OperationLines(operationId, summary, description, tags, parameters, requestSchema, responseSchemas);
    var comps := ComponentsBlock(relatedSchemas);
    PathSpecSections(httpMethod, path, operationId, summary, description, tags, parameters,
                     requestSchema, responseSchemas, relatedSchemas);
    if relatedSchemas.None? || relatedSchemas.value == [] {
      OperationLinesIndented(operationId, summary, description, tags, parameters, requestSchema, responseSchemas);
      HeadLacksComponents(httpMethod, path);
      forall i | 0 <= i < |op| ensures op[i] != "components:" {
        assert op[i][0] == ' ';
      }
      assert head + op + comps == head + op;
    } else {
      assert (head + op + comps)[|head| + |op|] == "components:";
    }
  }

  /** The layout of a component document: the fixed header, then the one
      schema under components.schemas, everything nested under its name. */
  lemma ComponentSpecLayout(name: string, description: Option<string>, properties: seq<string>, required: seq<string>)
    ensures var lines := ComponentSpecLines(name, description, properties, required);
            && |lines| >= 8
            && lines[..8] == ["openapi: 3.0.0", "info:", Line(2, "title: API Specification"), Line(2, "version: 1.0.0"),
                              "components:", Line(2, "schemas:"), Line(4, name + ":"), Line(6, "type: object")]
            && AllIndented(lines[6..], 4)
  {
    SchemaLinesIndented(name, description, properties, required);
    var lines := ComponentSpecLines(name, description, properties, required);
    assert lines[6..] == SchemaLines(name, description, properties, required);
  }

  /** The required block is written exactly when the list is non-empty, one
      "- x" line per entry in order; the tag block is built the same way. */
  lemma RequiredBlockItems(required: seq<string>)
    ensures |RequiredBlock(required)| == if required == [] then 0 else |required| + 1
    ensures required != [] ==> RequiredBlock(required)[0] == Line(6, "required:")
    ensures forall i :: 0 <= i < |required| ==> RequiredBlock(required)[i + 1] == Line(8, "- " + required[i])
  {
    FlattenSingles(required, ItemLine);
  }

  lemma TagBlockItems(tags: Option<seq<string>>)
    ensures TagBlock(tags) == [] <==> tags.None? || tags.value == []
    ensures tags.Some? && tags.value != [] ==>
              |TagBlock(tags)| == |tags.value| + 1 && TagBlock(tags)[0] == Line(6, "tags:")
              && forall i :: 0 <= i < |tags.value| ==> TagBlock(tags)[i + 1] == Line(8, "- " + tags.value[i])
  {
    if tags.Some? {
      FlattenSingles(tags.value, ItemLine);
    }
  }

  lemma NoColonInBool(b: bool)
    ensures ':' !in BoolToString(b)
  {
  }

  /** A parameter serialised as "name:type:location:required" lands in the
      matching name, in, required and type lines. */
  lemma ParamRoundTrip(p: ParameterInfo)
    requires ':' !in p.name && ':' !in p.paramType && ':' !in p.location
    ensures ParamLines(SpecDocument.ParamEntry(p)) ==
              [Line(8, "- name: " + p.name),
               Line(10, "in: " + p.location),
               Line(10, "required: " + BoolToString(p.required)),
               Line(10, "schema:"),
               Line(12, "type: " + p.paramType)]
  {
    var parts := [p.name, p.paramType, p.location, BoolToString(p.required)];
    NoColonInBool(p.required);
    JoinSplit(parts, ':');
  }

  /** A parameter string with fewer than four ':'-parts writes nothing. */
  lemma ParamSkipped(param: string)
    requires ':' !in param || |Split(param, ":")| < 4
    ensures ParamLines(param) == []
  {
    if ':' !in param {
      AbsentFirstChar(param, ":");
    }
  }

  /** A property serialised as "name:type:format:required" writes its name
      and type lines, and a format line exactly when it has a non-blank
      format. */
  lemma PropertyRoundTrip(p: PropertyInfo)
    requires ':' !in p.name && ':' !in p.propType && (p.format.Some? ==> ':' !in p.format.value)
    ensures PropertyLines(SpecDocument.PropertyEntry(p)) ==
              [Line(8, p.name + ":"), Line(10, "type: " + p.propType)]
              + if p.format.Some? && !IsBlank(p.format.value) then [Line(10, "format: " + p.format.value)] else []
  {
    var parts := [p.name, p.propType, p.format.GetOr(""), BoolToString(p.required)];
    NoColonInBool(p.required);
    JoinSplit(parts, ':');
  }

  /** A property string without ':' is a single part and writes nothing. */
  lemma PropertySkipped(prop: string)
    requires ':' !in prop
    ensures PropertyLines(prop) == []
  {
    AbsentFirstChar(prop, ":");
  }

  /** The parser writes name + "[]" for an array response; the formatter turns
      it back into an array whose items reference the name. A name without
      that suffix is referenced directly. */
  lemma ArrayResponseRoundTrip(code: string, name: string)
    ensures ResponseLines((code, name + "[]")) ==
              ResponseHead(code) + [Line(16, "type: array"), Line(16, "items:"), Line(18, SchemaRef(name))]
  {
    SuffixOfConcat(name, "[]");
  }

  lemma DirectResponse(code: string, name: string)
    requires !EndsWith(name, "[]")
    ensures ResponseLines((code, name)) == ResponseHead(code) + [Line(16, SchemaRef(name))]
  {
  }

  // ---------------------------------------------------------------------
  // The builder methods

  // Each forEach of the source is a loop that collects the lines it appends;
  // the generators append those blocks in the source's order.

  /** `xs.forEach { yaml.appendLine("        - $it") }`. */
  method ItemBlock(xs: seq<string>) returns (block: seq<string>)
    ensures block == Flatten(xs, ItemLine)
  {
    block := [];
    var i := 0;
    while i < |xs|
      invariant 0 <= i <= |xs|
      invariant block == Flatten(xs[..i], ItemLine)
    {
      block := block + [Line(8, "- " + xs[i])];
      FlattenStep(xs, i, ItemLine);
      i := i + 1;
    }
    assert xs[..|xs|] == xs;
  }

  /** The parameters forEach: a parameter with at least four ':'-parts
      appends its five lines. */
  method ParameterBlock(params: seq<string>) returns (block: seq<string>)
    ensures block == Flatten(params, ParamLines)
  {
    block := [];
    var i := 0;
    while i < |params|
      invariant 0 <= i <= |params|
      invariant block == Flatten(params[..i], ParamLines)
    {
      var parts := Split(params[i], ":");
      if |parts| >= 4 {
        var name, paramType, location, required := parts[0], parts[1], parts[2], parts[3];
        block := block + [Line(8, "- name: " + name),
                          Line(10, "in: " + location),
                          Line(10, "required: " + required),
                          Line(10, "schema:"),
                          Line(12, "type: " + paramType)];
      }
      FlattenStep(params, i, ParamLines);
      i := i + 1;
    }
    assert params[..|params|] == params;
  }

  /** The responses forEach, in the map's insertion order. */
  method ResponseBlock(es: Entries) returns (block: seq<string>)
    ensures block == Flatten(es, ResponseLines)
  {
    block := [];
    var i := 0;
    while i < |es|
      invariant 0 <= i <= |es|
      invariant block == Flatten(es[..i], ResponseLines)
    {
      var (statusCode, schema) := es[i];
      var entry := [Line(8, "'" + statusCode + "':"), Line(10, "description: Response"), Line(10, "content:"),
                    Line(12, "application/json:"), Line(14, "schema:")];
      if EndsWith(schema, "[]") {
        var schemaName := RemoveSuffix(schema, "[]");
        entry := entry + [Line(16, "type: array"), Line(16, "items:"), Line(18, SchemaRef(schemaName))];
      } else {
        entry := entry + [Line(16, SchemaRef(schema))];
      }
      block := block + entry;
      FlattenStep(es, i, ResponseLines);
      i := i + 1;
    }
    assert es[..|es|] == es;
  }

  /** The properties forEach: a property with at least two ':'-parts appends
      its name and type lines, and a format line for a non-blank third part. */
  method PropertyBlock(props: seq<string>) returns (block: seq<string>)
    ensures block == Flatten(props, PropertyLines)
  {
    block := [];
    var i := 0;
    while i < |props|
      invariant 0 <= i <= |props|
      invariant block == Flatten(props[..i], PropertyLines)
    {
      var parts := Split(props[i], ":");
      if |parts| >= 2 {
        var entry := [Line(8, parts[0] + ":"), Line(10, "type: " + parts[1])];
        if |parts| > 2 && !IsBlank(parts[2]) {
          entry := entry + [Line(10, "format: " + parts[2])];
        }
        block := block + entry;
      }
      FlattenStep(props, i, PropertyLines);
      i := i + 1;
    }
    assert props[..|props|] == props;
  }

  /** The schema block written by both generators. */
  method SchemaBlock(name: string, description: Option<string>, properties: seq<string>, required: seq<string>)
    returns (block: seq<string>)
    ensures block == SchemaLines(name, description, properties, required)
  {
    block := [Line(4, name + ":"), Line(6, "type: object")];
    if description.Some? {
      block := block + [Line(6, "description: " + description.value)];
    }
    assert block == [Line(4, name + ":"), Line(6, "type: object")] + OptLine(6, "description: ", description);
    ghost var described := block;
    if properties != [] {
      var props := PropertyBlock(properties);
      block := block + ([Line(6, "properties:")] + props);
    }
    assert block == described + PropertiesBlock(properties);
    ghost var withProperties := block;
    if required != [] {
      var items := ItemBlock(required);
      block := block + ([Line(6, "required:")] + items);
    }
    assert block == withProperties + RequiredBlock(required);
  }

  /** The relatedSchemas forEach. */
  method ComponentBlock(related: seq<ComponentInfo>) returns (block: seq<string>)
    ensures block == Flatten(related, ComponentLines)
  {
    block := [];
    var i := 0;
    while i < |related|
      invariant 0 <= i <= |related|
      invariant block == Flatten(related[..i], ComponentLines)
    {
      var component := related[i];
      var schema := SchemaBlock(component.name, component.description, component.properties, component.required);
      block := block + schema;
      FlattenStep(related, i, ComponentLines);
      i := i + 1;
    }
    assert related[..|related|] == related;
  }

  /** `o?.let { yaml.appendLine(key + it) }`. */
  method OptLineBlock(n: nat, key: string, o: Option<string>) returns (block: seq<string>)
    ensures block == OptLine(n, key, o)
  {
    block := [];
    if o.Some? {
      block := [Line(n, key + o.value)];
    }
  }

  /** The tags section: written only for a non-empty list. */
  method TagSection(tags: Option<seq<string>>) returns (block: seq<string>)
    ensures block == TagBlock(tags)
  {
    block := [];
    if tags.Some? && tags.value != [] {
      var items := ItemBlock(tags.value);
      block := [Line(6, "tags:")] + items;
    }
  }

  /** The parameters section: written only for a non-empty list. */
  method ParametersSection(parameters: Option<seq<string>>) returns (block: seq<string>)
    ensures block == ParametersBlock(parameters)
  {
    block := [];
    if parameters.Some? && parameters.value != [] {
      var params := ParameterBlock(parameters.value);
      block := [Line(6, "parameters:")] + params;
    }
  }

  /** The request body section: written only when there is a request schema. */
  method RequestSection(requestSchema: Option<string>) returns (block: seq<string>)
    ensures block == RequestLines(requestSchema)
  {
    block := [];
    if requestSchema.Some? {
      block := [Line(6, "requestBody:"), Line(8, "content:"), Line(10, "application/json:"),
                Line(12, "schema:"), Line(14, SchemaRef(requestSchema.value))];
    }
  }

  /** The responses section: written only for a non-empty map. */
  method ResponsesSection(responseSchemas: Option<Entries>) returns (block: seq<string>)
    ensures block == ResponsesBlock(responseSchemas)
  {
    block := [];
    if responseSchemas.Some? && responseSchemas.value != [] {
      var responses := ResponseBlock(responseSchemas.value);
      block := [Line(6, "responses:")] + responses;
    }
  }

  /** The components section: written only for a non-empty list. */
  method ComponentsSection(relatedSchemas: Option<seq<ComponentInfo>>) returns (block: seq<string>)
    ensures block == ComponentsBlock(relatedSchemas)
  {
    block := [];
    if relatedSchemas.Some? && relatedSchemas.value != [] {
      var schemas := ComponentBlock(relatedSchemas.value);
      block := ["components:", Line(2, "schemas:")] + schemas;
    }
  }

  /** generatePathSpec: the text is the rendering of PathSpecLines. */
  method GeneratePathSpec(httpMethod: string, path: string, operationId: Option<string>, summary: Option<string>,
                          description: Option<string>, tags: Option<seq<string>>, parameters: Option<seq<string>>,
                          requestSchema: Option<string>, responseSchemas: Option<Entries>,
                          relatedSchemas: Option<seq<ComponentInfo>>) returns (yaml: string)
    ensures yaml == Render(PathSpecLines(httpMethod, path, operationId, summary, description, tags, parameters,
                                         requestSchema, responseSchemas, relatedSchemas))
  {
    var lines := ["openapi: 3.0.0", "info:", Line(2, "title: API Specification"), Line(2, "version: 1.0.0"),
                  "paths:", Line(2, path + ":"), Line(4, Lower(httpMethod) + ":")];
    assert lines == PathHead(httpMethod, path);
    var identified := OptLineBlock(6, "operationId: ", operationId);
    var summarised := OptLineBlock(6, "summary: ", summary);
    var described := OptLineBlock(6, "description: ", description);
    var tagged := TagSection(tags);
    var withParameters := ParametersSection(parameters);
    var withRequest := RequestSection(requestSchema);
    var withResponses := ResponsesSection(responseSchemas);
    var components := ComponentsSection(relatedSchemas);
    lines := lines + identified + summarised + described + tagged + withParameters + withRequest + withResponses
             + components;
    yaml := Render(lines);
  }

  /** generateComponentSpec: the text is the rendering of ComponentSpecLines. */
  method GenerateComponentSpec(name: string, description: Option<string>, properties: seq<string>, required: seq<string>)
    returns (yaml: string)
    ensures yaml == Render(ComponentSpecLines(name, description, properties, required))
  {
    var lines := ["openapi: 3.0.0", "info:", Line(2, "title: API Specification"), Line(2, "version: 1.0.0"),
                  "components:", Line(2, "schemas:")];
    var schema := SchemaBlock(name, description, properties, required);
    lines := lines + schema;
    assert lines == HeaderLines + ["components:", Line(2, "schemas:")] + schema;
    yaml := Render(lines);
  }
}
