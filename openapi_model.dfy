/** The records the OpenAPI sample passes between its parser, its document
    store and its search service. A Kotlin Map<String, String> is its entry
    list in insertion order (MapOutputParser.Entries). */
module OpenApiModel {
  import opened Wrappers
  import opened MapOutputParser

  /** One parameter of an operation. */
  datatype ParameterInfo = ParameterInfo(
    name: string,
    location: string,
    paramType: string,
    required: bool,
    description: Option<string>)

  /** One property of a component schema. */
  datatype PropertyInfo = PropertyInfo(
    name: string,
    propType: string,
    format: Option<string>,
    description: Option<string>,
    required: bool)

  /** One operation of one path. */
  datatype PathDocument = PathDocument(
    httpMethod: string,
    path: string,
    operationId: Option<string>,
    summary: Option<string>,
    description: Option<string>,
    tags: seq<string>,
    parameters: seq<ParameterInfo>,
    requestSchema: Option<string>,
    responseSchemas: Entries,
    content: string)

  /** One component schema. */
  datatype ComponentDocument = ComponentDocument(
    componentType: string,
    name: string,
    description: Option<string>,
    properties: seq<PropertyInfo>,
    required: seq<string>,
    content: string)

  datatype SpecInfo = SpecInfo(title: string, version: string, description: Option<string>)

  datatype ParsedSpec = ParsedSpec(
    paths: seq<PathDocument>,
    components: seq<ComponentDocument>,
    info: SpecInfo)

  /** A vector-store document: its text and its string-valued metadata. */
  datatype Document = Document(text: string, metadata: Entries)

  /** A component found for a path result. */
  datatype ComponentInfo = ComponentInfo(
    name: string,
    description: Option<string>,
    properties: seq<string>,
    required: seq<string>)

  /** What a search returns for one document. */
  datatype SearchResult = SearchResult(
    resultType: string,
    content: string,
    score: real,
    httpMethod: Option<string>,
    path: Option<string>,
    operationId: Option<string>,
    summary: Option<string>,
    description: Option<string>,
    tags: Option<seq<string>>,
    parameters: Option<seq<string>>,
    requestSchema: Option<string>,
    responseSchemas: Option<Entries>,
    name: Option<string>,
    componentType: Option<string>,
    properties: Option<seq<string>>,
    required: Option<seq<string>>,
    relatedSchemas: Option<seq<ComponentInfo>>,
    openApiSpec: Option<string>)
}
