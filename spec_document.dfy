/** SpecDocumentService: every path operation and every component schema of
    a parsed specification becomes one vector-store document whose metadata
    flattens the record into strings joined with ';', ',' and ':'. */
module SpecDocument {
  import opened Wrappers
  import opened Strings
  import opened MapOutputParser
  import opened OpenApiModel

  /** "name:type:location:required" for one parameter. */
  function ParamEntry(p: ParameterInfo): string {
    Join([p.name, p.paramType, p.location, BoolToString(p.required)], ":")
  }

  /** "name:type:format:required" for one property, "" standing for no format. */
  function PropertyEntry(p: PropertyInfo): string {
    Join([p.name, p.propType, p.format.GetOr(""), BoolToString(p.required)], ":")
  }

  /** "code:schema" for one response. */
  function ResponseEntry(e: (string, string)): string {
    Join([e.0, e.1], ":")
  }

  /** In an entry list with distinct keys, each key finds its own entry. */
  lemma {:induction false} LookupAt(m: Entries, i: int)
    requires DistinctKeys(m) && 0 <= i < |m|
    ensures Lookup(m, m[i].0) == Some(m[i].1)
  {
    if i > 0 {
      assert m[1..][i - 1] == m[i];
      LookupAt(m[1..], i - 1);
    }
  }

  /** After put, the key holds the new value and every other key is as before. */
  lemma PutLookup(m: Entries, k: string, v: string)
    requires DistinctKeys(m)
    ensures forall k' :: Lookup(Put(m, k, v), k') == if k' == k then Some(v) else Lookup(m, k')
  {
    PutLookupSame(m, k, v);
    forall k' | k' != k ensures Lookup(Put(m, k, v), k') == Lookup(m, k') {
      PutLookupOther(m, k, v, k');
    }
  }

  /** `o?.let { metadata[k] = it }`. */
  function PutIfPresent(m: Entries, k: string, o: Option<string>): (r: Entries)
    requires DistinctKeys(m)
    ensures DistinctKeys(r)
    ensures KeysOf(r) <= KeysOf(m) + {k}
  {
    match o
    case None => m
    case Some(v) => Put(m, k, v)
  }

  lemma LookupPutIfPresent(m: Entries, k: string, o: Option<string>, k': string)
    requires DistinctKeys(m)
    ensures Lookup(PutIfPresent(m, k, o), k') == if k' == k && o.Some? then o else Lookup(m, k')
  {
    if o.Some? {
      PutLookup(m, k, o.value);
    }
  }

  /** `if (xs.isNotEmpty()) metadata[k] = xs.joinToString(sep)`. */
  function JoinedIfAny(xs: seq<string>, sep: string): Option<string> {
    if xs == [] then None else Some(Join(xs, sep))
  }

  /** The four entries every path document starts with. */
  function PathBase(p: PathDocument): (m: Entries)
    ensures DistinctKeys(m)
    ensures KeysOf(m) == {"type", "method", "path", "tags"}
  {
    var m := [("type", "path"), ("method", p.httpMethod), ("path", p.path), ("tags", Join(p.tags, ","))];
    KeysCons(m[3], []);
    KeysCons(m[2], m[3..]);
    KeysCons(m[1], m[2..]);
    KeysCons(m[0], m[1..]);
    m
  }

  lemma PathBaseLookup(p: PathDocument)
    ensures Lookup(PathBase(p), "type") == Some("path")
    ensures Lookup(PathBase(p), "method") == Some(p.httpMethod)
    ensures Lookup(PathBase(p), "path") == Some(p.path)
    ensures Lookup(PathBase(p), "tags") == Some(Join(p.tags, ","))
  {
    var m := PathBase(p);
    LookupAt(m, 0);
    LookupAt(m, 1);
    LookupAt(m, 2);
    LookupAt(m, 3);
  }

  /** The base entries plus operationId, summary and description when given. */
  function PathDescribed(p: PathDocument): (md: Entries)
    ensures DistinctKeys(md)
  {
    var m1 := PutIfPresent(PathBase(p), "operationId", p.operationId);
    var m2 := PutIfPresent(m1, "summary", p.summary);
    PutIfPresent(m2, "description", p.description)
  }

  /** The metadata of one path operation (createPathDocuments). */
  function PathMetadata(p: PathDocument): (md: Entries)
    ensures DistinctKeys(md)
  {
    var m4 := PutIfPresent(PathDescribed(p), "parameters", JoinedIfAny(MapSeq(p.parameters, ParamEntry), ";"));
    var m5 := PutIfPresent(m4, "requestSchema", p.requestSchema);
    PutIfPresent(m5, "responseSchemas", JoinedIfAny(MapSeq(p.responseSchemas, ResponseEntry), ";"))
  }

  lemma PathDescribedLookup(p: PathDocument, k': string)
    ensures Lookup(PathDescribed(p), k') ==
      if k' == "description" && p.description.Some? then p.description
      else if k' == "summary" && p.summary.Some? then p.summary
      else if k' == "operationId" && p.operationId.Some? then p.operationId
      else Lookup(PathBase(p), k')
  {
    var m1 := PutIfPresent(PathBase(p), "operationId", p.operationId);
    var m2 := PutIfPresent(m1, "summary", p.summary);
    LookupPutIfPresent(PathBase(p), "operationId", p.operationId, k');
    LookupPutIfPresent(m1, "summary", p.summary, k');
    LookupPutIfPresent(m2, "description", p.description, k');
  }

  /** Lookup of k' in PathMetadata(p), layer by layer. */
  lemma PathMetadataLookup(p: PathDocument, k': string)
    ensures Lookup(PathMetadata(p), k') ==
      var rs := JoinedIfAny(MapSeq(p.responseSchemas, ResponseEntry), ";");
      var ps := JoinedIfAny(MapSeq(p.parameters, ParamEntry), ";");
      if k' == "responseSchemas" && rs.Some? then rs
      else if k' == "requestSchema" && p.requestSchema.Some? then p.requestSchema
      else if k' == "parameters" && ps.Some? then ps
      else Lookup(PathDescribed(p), k')
  {
    var m4 := PutIfPresent(PathDescribed(p), "parameters", JoinedIfAny(MapSeq(p.parameters, ParamEntry), ";"));
    var m5 := PutIfPresent(m4, "requestSchema", p.requestSchema);
    LookupPutIfPresent(PathDescribed(p), "parameters", JoinedIfAny(MapSeq(p.parameters, ParamEntry), ";"), k');
    LookupPutIfPresent(m4, "requestSchema", p.requestSchema, k');
    var r := JoinedIfAny(MapSeq(p.responseSchemas, ResponseEntry), ";");
    assert PathMetadata(p) == PutIfPresent(m5, "responseSchemas", r);
    LookupPutIfPresent(m5, "responseSchemas", r, k');
  }

  /** Path metadata always has type "path", the method, the path and the
      comma-joined tags. */
  lemma PathMetadataFixed(p: PathDocument)
    ensures Lookup(PathMetadata(p), "type") == Some("path")
    ensures Lookup(PathMetadata(p), "method") == Some(p.httpMethod)
    ensures Lookup(PathMetadata(p), "path") == Some(p.path)
    ensures Lookup(PathMetadata(p), "tags") == Some(Join(p.tags, ","))
  {
    PathBaseLookup(p);
    PathMetadataLookup(p, "type");
    PathDescribedLookup(p, "type");
    PathMetadataLookup(p, "method");
    PathDescribedLookup(p, "method");
    PathMetadataLookup(p, "path");
    PathDescribedLookup(p, "path");
    PathMetadataLookup(p, "tags");
    PathDescribedLookup(p, "tags");
  }

  /** operationId, summary and description are present exactly when given. */
  lemma PathMetadataDescribed(p: PathDocument)
    ensures Lookup(PathMetadata(p), "operationId") == p.operationId
    ensures Lookup(PathMetadata(p), "summary") == p.summary
    ensures Lookup(PathMetadata(p), "description") == p.description
  {
    var base := PathBase(p);
    assert "operationId" !in KeysOf(base) && "summary" !in KeysOf(base) && "description" !in KeysOf(base);
    PathMetadataLookup(p, "operationId");
    PathDescribedLookup(p, "operationId");
    PathMetadataLookup(p, "summary");
    PathDescribedLookup(p, "summary");
    PathMetadataLookup(p, "description");
    PathDescribedLookup(p, "description");
  }

  /** The parameters entry is present exactly when there are parameters. */
  lemma PathMetadataParameters(p: PathDocument)
    ensures Lookup(PathMetadata(p), "parameters") == JoinedIfAny(MapSeq(p.parameters, ParamEntry), ";")
  {
    assert "parameters" !in KeysOf(PathBase(p));
    PathDescribedLookup(p, "parameters");
    PathMetadataLookup(p, "parameters");
  }

  /** The requestSchema entry is present exactly when there is one. */
  lemma PathMetadataRequest(p: PathDocument)
    ensures Lookup(PathMetadata(p), "requestSchema") == p.requestSchema
  {
    assert "requestSchema" !in KeysOf(PathBase(p));
    PathDescribedLookup(p, "requestSchema");
    PathMetadataLookup(p, "requestSchema");
  }

  /** The responseSchemas entry is present exactly when there are responses. */
  lemma PathMetadataResponses(p: PathDocument)
    ensures Lookup(PathMetadata(p), "responseSchemas")
            == JoinedIfAny(MapSeq(p.responseSchemas, ResponseEntry), ";")
  {
    assert "responseSchemas" !in KeysOf(PathBase(p));
    PathDescribedLookup(p, "responseSchemas");
    PathMetadataLookup(p, "responseSchemas");
  }

  /** The three entries every component document starts with. */
  function ComponentBase(c: ComponentDocument): (m: Entries)
    ensures DistinctKeys(m)
    ensures KeysOf(m) == {"type", "componentType", "name"}
  {
    var m := [("type", "component"), ("componentType", c.componentType), ("name", c.name)];
    KeysCons(m[2], []);
    KeysCons(m[1], m[2..]);
    KeysCons(m[0], m[1..]);
    m
  }

  lemma ComponentBaseLookup(c: ComponentDocument)
    ensures Lookup(ComponentBase(c), "type") == Some("component")
    ensures Lookup(ComponentBase(c), "componentType") == Some(c.componentType)
    ensures Lookup(ComponentBase(c), "name") == Some(c.name)
  {
    var m := ComponentBase(c);
    LookupAt(m, 0);
    LookupAt(m, 1);
    LookupAt(m, 2);
  }

  /** The metadata of one component schema (createComponentDocuments). */
  function ComponentMetadata(c: ComponentDocument): (md: Entries)
    ensures DistinctKeys(md)
  {
    var m1 := PutIfPresent(ComponentBase(c), "description", c.description);
    var m2 := PutIfPresent(m1, "properties", JoinedIfAny(MapSeq(c.properties, PropertyEntry), ";"));
    PutIfPresent(m2, "required", JoinedIfAny(c.required, ","))
  }

  lemma ComponentMetadataLookup(c: ComponentDocument, k': string)
    ensures Lookup(ComponentMetadata(c), k') ==
      if k' == "required" then JoinedIfAny(c.required, ",")
      else if k' == "properties" then JoinedIfAny(MapSeq(c.properties, PropertyEntry), ";")
      else if k' == "description" then c.description
      else Lookup(ComponentBase(c), k')
  {
    var m1 := PutIfPresent(ComponentBase(c), "description", c.description);
    var m2 := PutIfPresent(m1, "properties", JoinedIfAny(MapSeq(c.properties, PropertyEntry), ";"));
    LookupPutIfPresent(ComponentBase(c), "description", c.description, k');
    LookupPutIfPresent(m1, "properties", JoinedIfAny(MapSeq(c.properties, PropertyEntry), ";"), k');
    LookupPutIfPresent(m2, "required", JoinedIfAny(c.required, ","), k');
  }

  /** Component metadata: type "component", componentType and name always;
      description exactly when given; properties (';'-joined) and required
      (','-joined) exactly when non-empty. */
  lemma ComponentMetadataKeys(c: ComponentDocument)
    ensures Lookup(ComponentMetadata(c), "type") == Some("component")
    ensures Lookup(ComponentMetadata(c), "componentType") == Some(c.componentType)
    ensures Lookup(ComponentMetadata(c), "name") == Some(c.name)
    ensures Lookup(ComponentMetadata(c), "description") == c.description
    ensures Lookup(ComponentMetadata(c), "properties")
            == JoinedIfAny(MapSeq(c.properties, PropertyEntry), ";")
    ensures Lookup(ComponentMetadata(c), "required") == JoinedIfAny(c.required, ",")
  {
    ComponentBaseLookup(c);
    ComponentMetadataLookup(c, "type");
    ComponentMetadataLookup(c, "componentType");
    ComponentMetadataLookup(c, "name");
    ComponentMetadataLookup(c, "description");
    ComponentMetadataLookup(c, "properties");
    ComponentMetadataLookup(c, "required");
  }

  function PathDocumentOf(p: PathDocument): Document {
    Document(p.content, PathMetadata(p))
  }

  function ComponentDocumentOf(c: ComponentDocument): Document {
    Document(c.content, ComponentMetadata(c))
  }

  /** One document per path operation, in input order. */
  function CreatePathDocuments(paths: seq<PathDocument>): (r: seq<Document>)
    ensures |r| == |paths|
    ensures forall i :: 0 <= i < |r| ==> r[i].text == paths[i].content
    ensures forall i :: 0 <= i < |r| ==> r[i].metadata == PathMetadata(paths[i])
  {
    MapSeq(paths, PathDocumentOf)
  }

  /** One document per component, in input order. */
  function CreateComponentDocuments(components: seq<ComponentDocument>): (r: seq<Document>)
    ensures |r| == |components|
    ensures forall i :: 0 <= i < |r| ==> r[i].text == components[i].content
    ensures forall i :: 0 <= i < |r| ==> r[i].metadata == ComponentMetadata(components[i])
  {
    MapSeq(components, ComponentDocumentOf)
  }

  /** The document service: what it has added to the vector store, and the
      original YAML it keeps for fragment extraction. */
  class SpecDocumentStore {
    var documents: seq<Document>
    var originalYaml: Option<string>

    constructor()
      ensures documents == [] && originalYaml == None
    {
      documents := [];
      originalYaml := None;
    }

    /** Adds the path documents, then the component documents, and replaces
        the original YAML only when one is given. */
    method StoreSpec(spec: ParsedSpec, yamlContent: Option<string>)
      modifies this
      ensures documents == old(documents) + CreatePathDocuments(spec.paths)
                           + CreateComponentDocuments(spec.components)
      ensures originalYaml == if yamlContent.Some? then yamlContent else old(originalYaml)
    {
      var pathDocuments := CreatePathDocuments(spec.paths);
      var componentDocuments := CreateComponentDocuments(spec.components);
      documents := documents + pathDocuments + componentDocuments;
      if yamlContent.Some? {
        originalYaml := yamlContent;
      }
    }

    /** Starts a fresh, empty vector store and forgets the original YAML. */
    method ClearAll()
      modifies this
      ensures documents == [] && originalYaml == None
    {
      documents := [];
      originalYaml := None;
    }
  }
}
