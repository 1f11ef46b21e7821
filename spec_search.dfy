/** SpecSearchService: turns the documents a similarity search returns back
    into search results. It parses the flattened metadata strings, attaches
    the component schemas a path refers to and, on request, swaps in the
    matching fragment of the original specification. The vector store's
    search and the YAML library's load and dump belong to other code and are
    parameters. */
module SpecSearch {
  import opened Wrappers
  import opened Strings
  import opened MapOutputParser
  import opened OpenApiModel
  import SpecDocument
  import Sorting
  import SpecFormatter
  import YamlExtractor

  /** What the service asks of other code: the vector store's similarity
      search, and SnakeYAML's load and dump. A text that does not load as a
      mapping stands for a load that failed, which the source catches. */
  datatype Backend = Backend(
    similaritySearch: string -> seq<Document>,
    load: string -> YamlExtractor.Yaml,
    dump: YamlExtractor.Yaml -> string)

  /** Kotlin isNullOrBlank. */
  predicate NullOrBlank(value: Option<string>) {
    value.None? || IsBlank(value.value)
  }

  predicate NotBlank(s: string) {
    !IsBlank(s)
  }

  function Min(a: int, b: int): int {
    if a < b then a else b
  }

  /** Splitting on one character: the pieces join back to the text, and no
      piece holds the character. */
  lemma SplitCharFacts(s: string, c: char)
    ensures Join(Split(s, [c]), [c]) == s
    ensures forall i :: 0 <= i < |Split(s, [c])| ==> c !in Split(s, [c])[i]
  {
    var parts := Split(s, [c]);
    SplitJoin(s, [c]);
    SplitPartsFree(s, [c]);
    forall i | 0 <= i < |parts| ensures c !in parts[i] {
      assert parts[i] in parts;
      ContainsChar(parts[i], c);
    }
  }

  // ---------------------------------------------------------------------
  // Parsing the metadata strings

  /** One "code:schema" part: exactly two ':'-pieces make a pair. */
  function SchemaPair(part: string): Option<(string, string)> {
    var pieces := Split(part, ":");
    if |pieces| == 2 then Some((pieces[0], pieces[1])) else None
  }

  /** parseResponseSchemas: null for a null or blank text; otherwise the map
      of the ';'-parts that have exactly one ':', a later code overwriting an
      earlier one. */
  function ParseResponseSchemas(value: Option<string>): (r: Option<Entries>)
    ensures r.None? <==> NullOrBlank(value)
    ensures r.Some? ==> DistinctKeys(r.value)
    ensures r.Some? ==>
              var parts := Split(value.value, ";");
              forall k :: k in KeysOf(r.value) <==>
                exists i :: 0 <= i < |parts| && SchemaPair(parts[i]).Some? && SchemaPair(parts[i]).value.0 == k
  {
    if NullOrBlank(value) then None
    else
      var parts := Split(value.value, ";");
      var pairs := MapNotNull(parts, SchemaPair);
      assert forall k :: k in KeysOf(pairs) <==>
               exists i :: 0 <= i < |parts| && SchemaPair(parts[i]).Some? && SchemaPair(parts[i]).value.0 == k by {
        forall k | k in KeysOf(pairs)
          ensures exists i :: 0 <= i < |parts| && SchemaPair(parts[i]).Some? && SchemaPair(parts[i]).value.0 == k
        {
          var j :| 0 <= j < |pairs| && pairs[j].0 == k;
          MapNotNullSound(parts, SchemaPair, pairs[j]);
        }
        forall k, i | 0 <= i < |parts| && SchemaPair(parts[i]).Some? && SchemaPair(parts[i]).value.0 == k
          ensures k in KeysOf(pairs)
        {
          MapNotNullComplete(parts, SchemaPair, i);
          var j :| 0 <= j < |pairs| && pairs[j] == SchemaPair(parts[i]).value;
        }
      }
      Some(Associate(pairs))
  }

  /** parseParameters: null for a null or blank text; otherwise the plain
      ';'-pieces, which join back to the text and hold no ';'. */
  function ParseParameters(value: Option<string>): (r: Option<seq<string>>)
    ensures r.None? <==> NullOrBlank(value)
    ensures r.Some? ==> |r.value| >= 1 && Join(r.value, ";") == value.value
    ensures r.Some? ==> forall i :: 0 <= i < |r.value| ==> ';' !in r.value[i]
  {
    if NullOrBlank(value) then None
    else
      SplitCharFacts(value.value, ';');
      Some(Split(value.value, ";"))
  }

  /** parseTags: null for a null or blank text; otherwise the non-blank
      ','-pieces, in order. */
  function ParseTags(value: Option<string>): (r: Option<seq<string>>)
    ensures r.None? <==> NullOrBlank(value)
    ensures r.Some? ==> forall i :: 0 <= i < |r.value| ==> !IsBlank(r.value[i]) && ',' !in r.value[i]
    ensures r.Some? ==> forall t :: t in Split(value.value, ",") && !IsBlank(t) ==> t in r.value
  {
    if NullOrBlank(value) then None
    else
      SplitCharFacts(value.value, ',');
      Some(Filter(Split(value.value, ","), NotBlank))
  }

  /** parseProperties: the empty list for a null or blank text; otherwise the
      plain ';'-pieces. */
  function ParseProperties(value: Option<string>): (r: seq<string>)
    ensures NullOrBlank(value) ==> r == []
    ensures !NullOrBlank(value) ==> |r| >= 1 && Join(r, ";") == value.value
    ensures forall i :: 0 <= i < |r| ==> ';' !in r[i]
  {
    if NullOrBlank(value) then []
    else
      SplitCharFacts(value.value, ';');
      Split(value.value, ";")
  }

  /** parseRequired: the empty list for a null or blank text; otherwise the
      non-blank ','-pieces, in order. */
  function ParseRequired(value: Option<string>): (r: seq<string>)
    ensures NullOrBlank(value) ==> r == []
    ensures forall i :: 0 <= i < |r| ==> !IsBlank(r[i]) && ',' !in r[i]
    ensures !NullOrBlank(value) ==> forall t :: t in Split(value.value, ",") && !IsBlank(t) ==> t in r
  {
    if NullOrBlank(value) then []
    else
      SplitCharFacts(value.value, ',');
      Filter(Split(value.value, ","), NotBlank)
  }

  // ---------------------------------------------------------------------
  // Round trips with the document service's serialisation

  /** A text joined with a non-whitespace separator from two or more parts
      is not blank. */
  lemma SeparatorNotBlank(parts: seq<string>, d: char)
    requires |parts| >= 2 && !IsWhitespace(d)
    ensures !IsBlank(Join(parts, [d]))
  {
    assert Join(parts, [d]) == parts[0] + [d] + Join(parts[1..], [d]);
    assert Join(parts, [d])[|parts[0]|] == d;
  }

  lemma NoSeparatorInBool(b: bool)
    ensures ';' !in BoolToString(b) && ',' !in BoolToString(b) && ':' !in BoolToString(b)
  {
  }

  /** The comma-joined tags parse back to the tags when no tag holds a comma
      or is blank; no tags parse as null. */
  lemma TagsRoundTrip(p: PathDocument)
    requires forall i :: 0 <= i < |p.tags| ==> ',' !in p.tags[i] && !IsBlank(p.tags[i])
    ensures ParseTags(Lookup(SpecDocument.PathMetadata(p), "tags")) == if p.tags == [] then None else Some(p.tags)
  {
    SpecDocument.PathMetadataFixed(p);
    if p.tags != [] {
      NotBlankJoin(p.tags, ",");
      JoinSplit(p.tags, ',');
      FilterKeepsAll(p.tags, NotBlank);
    }
  }

  /** The required names of a component parse back the same way. */
  lemma RequiredRoundTrip(c: ComponentDocument)
    requires forall i :: 0 <= i < |c.required| ==> ',' !in c.required[i] && !IsBlank(c.required[i])
    ensures ParseRequired(Lookup(SpecDocument.ComponentMetadata(c), "required")) == c.required
  {
    SpecDocument.ComponentMetadataKeys(c);
    if c.required != [] {
      NotBlankJoin(c.required, ",");
      JoinSplit(c.required, ',');
      FilterKeepsAll(c.required, NotBlank);
    }
  }

  /** Joining entries with ';' and splitting again gives them back. */
  lemma EntriesRoundTrip(entries: seq<string>)
    requires |entries| >= 1
    requires forall i :: 0 <= i < |entries| ==> ';' !in entries[i] && !IsBlank(entries[i])
    ensures ParseParameters(Some(Join(entries, ";"))) == Some(entries)
    ensures ParseProperties(Some(Join(entries, ";"))) == entries
  {
    NotBlankJoin(entries, ";");
    JoinSplit(entries, ';');
  }

  /** A serialised parameter holds no ';' when its fields hold none, and is
      never blank. */
  lemma ParamEntryClean(q: ParameterInfo)
    requires ';' !in q.name && ';' !in q.paramType && ';' !in q.location
    ensures ';' !in SpecDocument.ParamEntry(q) && !IsBlank(SpecDocument.ParamEntry(q))
  {
    var parts := [q.name, q.paramType, q.location, BoolToString(q.required)];
    NoSeparatorInBool(q.required);
    JoinLacksChar(parts, ':', ';');
    SeparatorNotBlank(parts, ':');
  }

  lemma PropertyEntryClean(q: PropertyInfo)
    requires ';' !in q.name && ';' !in q.propType && ';' !in q.format.GetOr("")
    ensures ';' !in SpecDocument.PropertyEntry(q) && !IsBlank(SpecDocument.PropertyEntry(q))
  {
    var parts := [q.name, q.propType, q.format.GetOr(""), BoolToString(q.required)];
    NoSeparatorInBool(q.required);
    JoinLacksChar(parts, ':', ';');
    SeparatorNotBlank(parts, ':');
  }

  /** A serialised response holds no ';', is never blank, and splits back
      into its code and schema. */
  lemma ResponseEntryClean(e: (string, string))
    requires ':' !in e.0 && ';' !in e.0 && ':' !in e.1 && ';' !in e.1
    ensures ';' !in SpecDocument.ResponseEntry(e) && !IsBlank(SpecDocument.ResponseEntry(e))
    ensures SchemaPair(SpecDocument.ResponseEntry(e)) == Some(e)
  {
    JoinLacksChar([e.0, e.1], ':', ';');
    SeparatorNotBlank([e.0, e.1], ':');
    JoinSplit([e.0, e.1], ':');
  }

  /** The parameter entries of a path parse back to the serialised entries
      when no name, type or location holds ';'; no parameters parse as null. */
  lemma ParametersRoundTrip(p: PathDocument)
    requires forall i :: 0 <= i < |p.parameters| ==>
               ';' !in p.parameters[i].name && ';' !in p.parameters[i].paramType && ';' !in p.parameters[i].location
    ensures ParseParameters(Lookup(SpecDocument.PathMetadata(p), "parameters"))
            == if p.parameters == [] then None else Some(MapSeq(p.parameters, SpecDocument.ParamEntry))
  {
    SpecDocument.PathMetadataParameters(p);
    var entries := MapSeq(p.parameters, SpecDocument.ParamEntry);
    if entries != [] {
      forall i | 0 <= i < |entries| ensures ';' !in entries[i] && !IsBlank(entries[i]) {
        ParamEntryClean(p.parameters[i]);
      }
      EntriesRoundTrip(entries);
    }
  }

  /** The property entries of a component parse back the same way. */
  lemma PropertiesRoundTrip(c: ComponentDocument)
    requires forall i :: 0 <= i < |c.properties| ==>
               ';' !in c.properties[i].name && ';' !in c.properties[i].propType
               && ';' !in c.properties[i].format.GetOr("")
    ensures ParseProperties(Lookup(SpecDocument.ComponentMetadata(c), "properties"))
            == MapSeq(c.properties, SpecDocument.PropertyEntry)
  {
    SpecDocument.ComponentMetadataKeys(c);
    var entries := MapSeq(c.properties, SpecDocument.PropertyEntry);
    if entries != [] {
      forall i | 0 <= i < |entries| ensures ';' !in entries[i] && !IsBlank(entries[i]) {
        PropertyEntryClean(c.properties[i]);
      }
      EntriesRoundTrip(entries);
    }
  }

  /** Each serialised response splits back into its own pair. */
  lemma ResponsePairs(rs: Entries)
    requires forall i :: 0 <= i < |rs| ==> ':' !in rs[i].0 && ';' !in rs[i].0 && ':' !in rs[i].1 && ';' !in rs[i].1
    ensures MapNotNull(MapSeq(rs, SpecDocument.ResponseEntry), SchemaPair) == rs
  {
    var entries := MapSeq(rs, SpecDocument.ResponseEntry);
    forall i | 0 <= i < |entries| ensures SchemaPair(entries[i]) == Some(rs[i]) {
      ResponseEntryClean(rs[i]);
    }
    MapNotNullAll(entries, SchemaPair);
  }

  /** A non-empty response map with distinct codes, serialised and parsed
      again, is itself. */
  lemma ResponsesParse(rs: Entries)
    requires rs != [] && DistinctKeys(rs)
    requires forall i :: 0 <= i < |rs| ==> ':' !in rs[i].0 && ';' !in rs[i].0 && ':' !in rs[i].1 && ';' !in rs[i].1
    ensures ParseResponseSchemas(Some(Join(MapSeq(rs, SpecDocument.ResponseEntry), ";"))) == Some(rs)
  {
    var entries := MapSeq(rs, SpecDocument.ResponseEntry);
    forall i | 0 <= i < |entries| ensures ';' !in entries[i] && !IsBlank(entries[i]) {
      ResponseEntryClean(rs[i]);
    }
    NotBlankJoin(entries, ";");
    JoinSplit(entries, ';');
    ResponsePairs(rs);
    AssociateDistinct(rs);
  }

  /** The response map of a path parses back to itself when no code or
      schema holds ':' or ';'; an empty map parses as null. */
  lemma ResponseSchemasRoundTrip(p: PathDocument)
    requires DistinctKeys(p.responseSchemas)
    requires forall i :: 0 <= i < |p.responseSchemas| ==>
               var e := p.responseSchemas[i];
               ':' !in e.0 && ';' !in e.0 && ':' !in e.1 && ';' !in e.1
    ensures ParseResponseSchemas(Lookup(SpecDocument.PathMetadata(p), "responseSchemas"))
            == if p.responseSchemas == [] then None else Some(p.responseSchemas)
  {
    SpecDocument.PathMetadataResponses(p);
    if p.responseSchemas != [] {
      ResponsesParse(p.responseSchemas);
    }
  }

  // ---------------------------------------------------------------------
  // Documents to results

  /** createPathResult. */
  function PathResult(doc: Document): (r: SearchResult)
    ensures r.resultType == "path" && r.content == doc.text && r.score == 0.0
    ensures r.relatedSchemas.None? && r.openApiSpec.None?
  {
    var md := doc.metadata;
    SearchResult("path", doc.text, 0.0, Lookup(md, "method"), Lookup(md, "path"), Lookup(md, "operationId"),
                 Lookup(md, "summary"), Lookup(md, "description"), ParseTags(Lookup(md, "tags")),
                 ParseParameters(Lookup(md, "parameters")), Lookup(md, "requestSchema"),
                 ParseResponseSchemas(Lookup(md, "responseSchemas")), None, None, None, None, None, None)
  }

  /** createComponentResult: a named component also gets its generated
      specification. */
  function ComponentResult(doc: Document): (r: SearchResult)
    ensures r.resultType == "component" && r.content == doc.text && r.score == 0.0
    ensures r.relatedSchemas.None? && (r.openApiSpec.Some? <==> r.name.Some?)
  {
    var md := doc.metadata;
    var properties := ParseProperties(Lookup(md, "properties"));
    var required := ParseRequired(Lookup(md, "required"));
    var name := Lookup(md, "name");
    var description := Lookup(md, "description");
    var openApiSpec :=
      if name.Some? then Some(SpecFormatter.Render(SpecFormatter.ComponentSpecLines(name.value, description, properties, required)))
      else None;
    SearchResult("component", doc.text, 0.0, None, None, None, None, description, None, None, None, None,
                 name, Lookup(md, "componentType"), Some(properties), Some(required), None, openApiSpec)
  }

  /** convertToSearchResult: only type "path" makes a path result; any other
      type, or none at all ("unknown"), makes a component result. */
  function ConvertToSearchResult(doc: Document): (r: SearchResult)
    ensures r.resultType == "path" <==> Lookup(doc.metadata, "type") == Some("path")
    ensures r.resultType != "path" ==> r.resultType == "component"
    ensures r.content == doc.text && r.score == 0.0
    ensures r.relatedSchemas.None?
    ensures r.resultType == "path" ==> r.openApiSpec.None?
    ensures r.resultType == "component" ==> (r.openApiSpec.Some? <==> r.name.Some?)
  {
    var kind := Lookup(doc.metadata, "type").GetOr("unknown");
    assert kind == "path" <==> Lookup(doc.metadata, "type") == Some("path") by {
      assert "unknown"[0] != "path"[0];
    }
    assert "component"[0] != "path"[0];
    if kind == "path" then PathResult(doc) else ComponentResult(doc)
  }

  lemma PathConverts(d: Document)
    requires Lookup(d.metadata, "type") == Some("path")
    ensures ConvertToSearchResult(d) == PathResult(d)
  {
  }

  /** The fields a path document stores come back as the path result when the
      list and map entries hold no separator characters. */
  lemma PathResultRoundTrip(p: PathDocument)
    requires forall i :: 0 <= i < |p.tags| ==> ',' !in p.tags[i] && !IsBlank(p.tags[i])
    requires forall i :: 0 <= i < |p.parameters| ==>
               ';' !in p.parameters[i].name && ';' !in p.parameters[i].paramType && ';' !in p.parameters[i].location
    requires DistinctKeys(p.responseSchemas)
    requires forall i :: 0 <= i < |p.responseSchemas| ==>
               var e := p.responseSchemas[i];
               ':' !in e.0 && ';' !in e.0 && ':' !in e.1 && ';' !in e.1
    ensures var r := ConvertToSearchResult(SpecDocument.PathDocumentOf(p));
            && r.resultType == "path" && r.content == p.content
            && r.httpMethod == Some(p.httpMethod) && r.path == Some(p.path)
            && r.operationId == p.operationId && r.summary == p.summary && r.description == p.description
            && r.tags == (if p.tags == [] then None else Some(p.tags))
            && r.parameters == (if p.parameters == [] then None else Some(MapSeq(p.parameters, SpecDocument.ParamEntry)))
            && r.requestSchema == p.requestSchema
            && r.responseSchemas == (if p.responseSchemas == [] then None else Some(p.responseSchemas))
  {
    var d := SpecDocument.PathDocumentOf(p);
    SpecDocument.PathMetadataFixed(p);
    PathConverts(d);
    SpecDocument.PathMetadataDescribed(p);
    SpecDocument.PathMetadataRequest(p);
    TagsRoundTrip(p);
    ParametersRoundTrip(p);
    ResponseSchemasRoundTrip(p);
  }

  lemma ComponentConverts(d: Document)
    requires Lookup(d.metadata, "type") == Some("component")
    ensures ConvertToSearchResult(d) == ComponentResult(d)
  {
    assert "component" != "path";
  }

  /** The fields a component document stores come back as the component
      result, with the generated specification of that component. */
  lemma ComponentResultRoundTrip(c: ComponentDocument)
    requires forall i :: 0 <= i < |c.properties| ==>
               ';' !in c.properties[i].name && ';' !in c.properties[i].propType
               && ';' !in c.properties[i].format.GetOr("")
    requires forall i :: 0 <= i < |c.required| ==> ',' !in c.required[i] && !IsBlank(c.required[i])
    ensures var r := ConvertToSearchResult(SpecDocument.ComponentDocumentOf(c));
            var properties := MapSeq(c.properties, SpecDocument.PropertyEntry);
            && r.resultType == "component" && r.content == c.content
            && r.name == Some(c.name) && r.componentType == Some(c.componentType)
            && r.description == c.description
            && r.properties == Some(properties) && r.required == Some(c.required)
            && r.openApiSpec == Some(SpecFormatter.Render(SpecFormatter.ComponentSpecLines(c.name, c.description, properties, c.required)))
  {
    var d := SpecDocument.ComponentDocumentOf(c);
    SpecDocument.ComponentMetadataKeys(c);
    ComponentConverts(d);
    PropertiesRoundTrip(c);
    RequiredRoundTrip(c);
  }

  // ---------------------------------------------------------------------
  // Related schemas

  predicate IsComponentNamed(doc: Document, name: string) {
    Lookup(doc.metadata, "type") == Some("component") && Lookup(doc.metadata, "name") == Some(name)
  }

  /** docs.find { ... }: the first component document with that name. */
  function FirstComponentNamed(docs: seq<Document>, name: string): (r: Option<nat>)
    ensures r.None? <==> forall i :: 0 <= i < |docs| ==> !IsComponentNamed(docs[i], name)
    ensures r.Some? ==> r.value < |docs| && IsComponentNamed(docs[r.value], name)
                        && forall j :: 0 <= j < r.value ==> !IsComponentNamed(docs[j], name)
  {
    if docs == [] then None
    else if IsComponentNamed(docs[0], name) then Some(0)
    else
      var rest := FirstComponentNamed(docs[1..], name);
      FirstNamedShift(docs, name, rest);
      if rest.None? then None else Some(rest.value + 1)
  }

  /** The first match in the tail is one position further in the whole list
      when the head does not match. */
  lemma FirstNamedShift(docs: seq<Document>, name: string, rest: Option<nat>)
    requires docs != [] && !IsComponentNamed(docs[0], name)
    requires rest.None? <==> forall i :: 0 <= i < |docs[1..]| ==> !IsComponentNamed(docs[1..][i], name)
    requires rest.Some? ==> rest.value < |docs[1..]| && IsComponentNamed(docs[1..][rest.value], name)
                            && forall j :: 0 <= j < rest.value ==> !IsComponentNamed(docs[1..][j], name)
    ensures var r := if rest.None? then None else Some(rest.value + 1);
      && (r.None? <==> forall i :: 0 <= i < |docs| ==> !IsComponentNamed(docs[i], name))
      && (r.Some? ==> r.value < |docs| && IsComponentNamed(docs[r.value], name)
                      && forall j :: 0 <= j < r.value ==> !IsComponentNamed(docs[j], name))
  {
    assert forall i :: 1 <= i < |docs| ==> docs[i] == docs[1..][i - 1];
  }

  /** findComponentByName: the first component document the search for the
      name returns that has that name; its name is the one asked for. */
  function FindComponentByName(backend: Backend, name: string): (r: Option<ComponentInfo>)
    ensures r.None? <==> forall i :: 0 <= i < |backend.similaritySearch(name)| ==>
                           !IsComponentNamed(backend.similaritySearch(name)[i], name)
    ensures r.Some? ==> r.value.name == name
  {
    var docs := backend.similaritySearch(name);
    match FirstComponentNamed(docs, name)
    case None => None
    case Some(i) =>
      var md := docs[i].metadata;
      Some(ComponentInfo(Lookup(md, "name").GetOr(name), Lookup(md, "description"),
                         ParseProperties(Lookup(md, "properties")), ParseRequired(Lookup(md, "required"))))
  }

  /** The schema names in the order addRelatedSchemas adds them to its set. */
  function SchemaNameCandidates(result: SearchResult): seq<string> {
    (if result.responseSchemas.Some?
     then MapSeq(result.responseSchemas.value, (e: (string, string)) => Replace(e.1, "[]", ""))
     else [])
    + (if result.requestSchema.Some? then [result.requestSchema.value] else [])
  }

  /** A name is a candidate exactly when a response schema gives it once
      "[]" is removed, or when it is the request schema. */
  lemma CandidateMembers(result: SearchResult, n: string)
    ensures n in SchemaNameCandidates(result) <==>
              (result.responseSchemas.Some?
               && exists e :: e in result.responseSchemas.value && n == Replace(e.1, "[]", ""))
              || result.requestSchema == Some(n)
  {
    if result.responseSchemas.Some? {
      var es := result.responseSchemas.value;
      var fromResponses := MapSeq(es, (e: (string, string)) => Replace(e.1, "[]", ""));
      if n in fromResponses {
        var i :| 0 <= i < |fromResponses| && fromResponses[i] == n;
        assert es[i] in es;
      }
      if exists e :: e in es && n == Replace(e.1, "[]", "") {
        var e :| e in es && n == Replace(e.1, "[]", "");
        var i :| 0 <= i < |es| && es[i] == e;
        assert fromResponses[i] == n;
      }
    }
  }

  /** The names addRelatedSchemas collects: every response schema with each
      "[]" removed, and the request schema, each once. */
  function RelatedSchemaNames(result: SearchResult): (r: seq<string>)
    ensures NoDuplicates(r)
    ensures forall n :: n in r <==>
              (result.responseSchemas.Some?
               && exists e :: e in result.responseSchemas.value && n == Replace(e.1, "[]", ""))
              || result.requestSchema == Some(n)
  {
    RelatedNamesMembers(result);
    Distinct(SchemaNameCandidates(result))
  }

  lemma RelatedNamesMembers(result: SearchResult)
    ensures forall n :: n in Distinct(SchemaNameCandidates(result)) <==>
              (result.responseSchemas.Some?
               && exists e :: e in result.responseSchemas.value && n == Replace(e.1, "[]", ""))
              || result.requestSchema == Some(n)
  {
    forall n ensures n in Distinct(SchemaNameCandidates(result)) <==>
                       (result.responseSchemas.Some?
                        && exists e :: e in result.responseSchemas.value && n == Replace(e.1, "[]", ""))
                       || result.requestSchema == Some(n)
    {
      DistinctMembers(SchemaNameCandidates(result), n);
      CandidateMembers(result, n);
    }
  }


  /** The parser writes a schema name, or the name with "[]" for an array;
      removing "[]" gives the name back when it holds no '['. */
  lemma ArraySuffixRemoved(name: string)
    requires '[' !in name
    ensures Replace(name + "[]", "[]", "") == name
    ensures Replace(name, "[]", "") == name
  {
    var s := name + "[]";
    forall k | 0 <= k < |name| ensures !OccursAt(s, "[]", k) {
      assert s[k] == name[k] && name[k] in name;
    }
    assert OccursAt(s, "[]", |name|);
    assert IndexOf(s, "[]") == Some(|name|);
    assert s[..|name|] == name && s[|name| + 2..] == [];
    AbsentFirstChar(name, "[]");
    ReplaceAbsent(name, "[]", "");
  }

  /** addRelatedSchemas: the components found for the collected names, and
      the generated specification when the result has a method and a path;
      nothing else of the result changes. */
  function AddRelatedSchemas(backend: Backend, result: SearchResult): (r: SearchResult)
    ensures r.(relatedSchemas := result.relatedSchemas, openApiSpec := result.openApiSpec) == result
    ensures r.relatedSchemas.Some?
    ensures forall n :: n in RelatedSchemaNames(result) && FindComponentByName(backend, n).Some? ==>
              FindComponentByName(backend, n).value in r.relatedSchemas.value
    ensures forall c :: c in r.relatedSchemas.value ==>
              c.name in RelatedSchemaNames(result) && FindComponentByName(backend, c.name) == Some(c)
    ensures r.openApiSpec.Some? <==> result.httpMethod.Some? && result.path.Some?
    ensures r.openApiSpec.Some? ==>
              r.openApiSpec.value == SpecFormatter.Render(SpecFormatter.PathSpecLines(
                result.httpMethod.value, result.path.value, result.operationId, result.summary, result.description,
                result.tags, result.parameters, result.requestSchema, result.responseSchemas, r.relatedSchemas))
  {
    var names := RelatedSchemaNames(result);
    var related := MapNotNull(names, (n: string) => FindComponentByName(backend, n));
    assert forall c :: c in related ==> c.name in names && FindComponentByName(backend, c.name) == Some(c) by {
      forall c | c in related ensures c.name in names && FindComponentByName(backend, c.name) == Some(c) {
        MapNotNullSound(names, (n: string) => FindComponentByName(backend, n), c);
      }
    }
    assert forall n :: n in names && FindComponentByName(backend, n).Some? ==> FindComponentByName(backend, n).value in related by {
      forall n | n in names && FindComponentByName(backend, n).Some? ensures FindComponentByName(backend, n).value in related {
        var i :| 0 <= i < |names| && names[i] == n;
        MapNotNullComplete(names, (n: string) => FindComponentByName(backend, n), i);
      }
    }
    var openApiSpec :=
      if result.httpMethod.Some? && result.path.Some? then
        Some(SpecFormatter.Render(SpecFormatter.PathSpecLines(
          result.httpMethod.value, result.path.value, result.operationId, result.summary, result.description,
          result.tags, result.parameters, result.requestSchema, result.responseSchemas, Some(related))))
      else None;
    result.(relatedSchemas := Some(related), openApiSpec := openApiSpec)
  }

  /** A path result gains its related schemas; any other passes through. */
  function WithRelatedSchemas(backend: Backend, result: SearchResult): SearchResult {
    if result.resultType == "path" then AddRelatedSchemas(backend, result) else result
  }

  // ---------------------------------------------------------------------
  // Fragments of the original specification

  /** The original fragment for a result: a path needs its method and path,
      a component its name, and any other kind has none. */
  function Fragment(backend: Backend, yaml: string, kind: Option<string>, httpMethod: Option<string>,
                    path: Option<string>, name: Option<string>): (r: Option<string>)
    ensures r.Some? ==> kind == Some("path") || kind == Some("component")
    ensures kind == Some("path") ==>
              (r.Some? <==> httpMethod.Some? && path.Some? && backend.load(yaml).Mapping?
                            && YamlExtractor.Operation(backend.load(yaml).entries, httpMethod.value, path.value).Some?)
    ensures kind == Some("component") && r.Some? ==> name.Some?
  {
    if kind == Some("path") then
      if httpMethod.Some? && path.Some? then
        match YamlExtractor.PathFragment(backend.load(yaml), httpMethod.value, path.value)
        case None => None
        case Some(f) => Some(backend.dump(f))
      else None
    else if kind == Some("component") then
      if name.Some? then
        match YamlExtractor.ComponentFragment(backend.load(yaml), name.value)
        case None => None
        case Some(f) => Some(backend.dump(f))
      else None
    else None
  }

  function ResultFragment(backend: Backend, yaml: string, result: SearchResult): Option<string> {
    Fragment(backend, yaml, Some(result.resultType), result.httpMethod, result.path, result.name)
  }

  function DocumentFragment(backend: Backend, yaml: string, doc: Document): Option<string> {
    var md := doc.metadata;
    Fragment(backend, yaml, Lookup(md, "type"), Lookup(md, "method"), Lookup(md, "path"), Lookup(md, "name"))
  }

  /** extractOriginalYamlFragments: with no stored YAML the results are
      returned as they are; otherwise each result's specification is replaced
      exactly when a fragment is found, and nothing else changes. */
  function ExtractOriginalYamlFragments(backend: Backend, originalYaml: Option<string>, results: seq<SearchResult>)
    : (r: seq<SearchResult>)
    ensures |r| == |results|
    ensures originalYaml.None? ==> r == results
    ensures forall i :: 0 <= i < |r| ==> r[i].(openApiSpec := results[i].openApiSpec) == results[i]
    ensures originalYaml.Some? ==>
              forall i :: 0 <= i < |r| ==>
                var f := ResultFragment(backend, originalYaml.value, results[i]);
                (f.Some? ==> r[i].openApiSpec == f) && (f.None? ==> r[i].openApiSpec == results[i].openApiSpec)
  {
    match originalYaml
    case None => results
    case Some(yaml) =>
      MapSeq(results, (res: SearchResult) =>
        var f := ResultFragment(backend, yaml, res);
        res.(openApiSpec := if f.Some? then f else res.openApiSpec))
  }

  // ---------------------------------------------------------------------
  // The two searches

  /** search: the first topK retrieved documents as results, in retrieval
      order, with related schemas for path results when asked, and original
      fragments for the "yaml" format. A negative topK makes take throw. */
  function Search(backend: Backend, originalYaml: Option<string>, query: string, topK: int,
                  includeRelatedSchemas: bool, responseFormat: string): (r: Result<seq<SearchResult>>)
    ensures r.Err? <==> topK < 0
    ensures r.Err? ==> r.error == Sorting.NegativeCountMessage(topK)
    ensures r.Ok? ==> |r.value| == Min(topK, |backend.similaritySearch(query)|)
    ensures r.Ok? ==> forall i :: 0 <= i < |r.value| ==>
              var doc := backend.similaritySearch(query)[i];
              && r.value[i].content == doc.text
              && (r.value[i].resultType == "path" <==> Lookup(doc.metadata, "type") == Some("path"))
  {
    if topK < 0 then Err(Sorting.NegativeCountMessage(topK))
    else
      var docs := backend.similaritySearch(query);
      var results := MapSeq(docs[..Min(topK, |docs|)], ConvertToSearchResult);
      var withSchemas :=
        if includeRelatedSchemas then MapSeq(results, (res: SearchResult) => WithRelatedSchemas(backend, res))
        else results;
      Ok(if responseFormat == "yaml" then ExtractOriginalYamlFragments(backend, originalYaml, withSchemas)
         else withSchemas)
  }

  /** Outside the "yaml" format a non-path result is exactly the converted
      document; path results carry related schemas exactly when asked for. */
  lemma SearchPassesThrough(backend: Backend, originalYaml: Option<string>, query: string, topK: int,
                            includeRelatedSchemas: bool, responseFormat: string)
    requires topK >= 0 && responseFormat != "yaml"
    ensures var r := Search(backend, originalYaml, query, topK, includeRelatedSchemas, responseFormat).value;
            forall i :: 0 <= i < |r| ==>
              && (r[i].resultType != "path" ==> r[i] == ConvertToSearchResult(backend.similaritySearch(query)[i]))
              && (r[i].resultType == "path" ==> (r[i].relatedSchemas.Some? <==> includeRelatedSchemas))
  {
  }

  /** searchAsYaml: nothing without stored YAML (even for a negative topK,
      which is checked later); otherwise the original fragments of the first
      topK documents that have one, in retrieval order. */
  function SearchAsYaml(backend: Backend, originalYaml: Option<string>, query: string, topK: int,
                        includeRelatedSchemas: bool): (r: Result<seq<string>>)
    ensures originalYaml.None? ==> r == Ok([])
    ensures r.Err? <==> originalYaml.Some? && topK < 0
    ensures r.Err? ==> r.error == Sorting.NegativeCountMessage(topK)
    ensures r.Ok? && originalYaml.Some? ==>
              var docs := backend.similaritySearch(query);
              && |r.value| <= topK
              && forall s :: s in r.value ==>
                   exists i :: 0 <= i < Min(topK, |docs|) && DocumentFragment(backend, originalYaml.value, docs[i]) == Some(s)
    ensures r.Ok? && originalYaml.Some? ==>
              var docs := backend.similaritySearch(query);
              forall i :: 0 <= i < Min(topK, |docs|) && DocumentFragment(backend, originalYaml.value, docs[i]).Some? ==>
                DocumentFragment(backend, originalYaml.value, docs[i]).value in r.value
  {
    match originalYaml
    case None => Ok([])
    case Some(yaml) =>
      if topK < 0 then Err(Sorting.NegativeCountMessage(topK))
      else
        var docs := backend.similaritySearch(query);
        var taken := docs[..Min(topK, |docs|)];
        var fragments := MapNotNull(taken, (doc: Document) => DocumentFragment(backend, yaml, doc));
        assert forall s :: s in fragments ==>
                 exists i :: 0 <= i < |taken| && DocumentFragment(backend, yaml, docs[i]) == Some(s) by {
          forall s | s in fragments
            ensures exists i :: 0 <= i < |taken| && DocumentFragment(backend, yaml, docs[i]) == Some(s)
          {
            MapNotNullSound(taken, (doc: Document) => DocumentFragment(backend, yaml, doc), s);
            var i :| 0 <= i < |taken| && DocumentFragment(backend, yaml, taken[i]) == Some(s);
            assert taken[i] == docs[i];
          }
        }
        assert forall i :: 0 <= i < |taken| && DocumentFragment(backend, yaml, docs[i]).Some? ==>
                 DocumentFragment(backend, yaml, docs[i]).value in fragments by {
          forall i | 0 <= i < |taken| && DocumentFragment(backend, yaml, docs[i]).Some?
            ensures DocumentFragment(backend, yaml, docs[i]).value in fragments
          {
            assert taken[i] == docs[i];
            MapNotNullComplete(taken, (doc: Document) => DocumentFragment(backend, yaml, doc), i);
          }
        }
        Ok(fragments)
  }

  /** The two YAML routes agree: whenever searchAsYaml finds a fragment for a
      retrieved document, search in the "yaml" format puts the same fragment
      in that document's result. */
  lemma YamlRoutesAgree(backend: Backend, yaml: string, query: string, topK: int, includeRelatedSchemas: bool, i: int)
    requires topK >= 0 && 0 <= i < Min(topK, |backend.similaritySearch(query)|)
    requires DocumentFragment(backend, yaml, backend.similaritySearch(query)[i]).Some?
    ensures Search(backend, Some(yaml), query, topK, includeRelatedSchemas, "yaml").value[i].openApiSpec
            == DocumentFragment(backend, yaml, backend.similaritySearch(query)[i])
  {
    var doc := backend.similaritySearch(query)[i];
    SearchYamlElement(backend, yaml, query, topK, includeRelatedSchemas, i);
    KeptFragment(backend, yaml, doc, includeRelatedSchemas);
  }

  /** The result search builds for one document before fragments are added. */
  function KeptResult(backend: Backend, doc: Document, includeRelatedSchemas: bool): SearchResult {
    var converted := ConvertToSearchResult(doc);
    if includeRelatedSchemas then WithRelatedSchemas(backend, converted) else converted
  }

  lemma SearchYamlElement(backend: Backend, yaml: string, query: string, topK: int, includeRelatedSchemas: bool, i: int)
    requires topK >= 0 && 0 <= i < Min(topK, |backend.similaritySearch(query)|)
    ensures var f := ResultFragment(backend, yaml, KeptResult(backend, backend.similaritySearch(query)[i], includeRelatedSchemas));
            f.Some? ==> Search(backend, Some(yaml), query, topK, includeRelatedSchemas, "yaml").value[i].openApiSpec == f
  {
    var docs := backend.similaritySearch(query);
    var taken := docs[..Min(topK, |docs|)];
    assert taken[i] == docs[i];
    var results := MapSeq(taken, ConvertToSearchResult);
    var withSchemas :=
      if includeRelatedSchemas then MapSeq(results, (res: SearchResult) => WithRelatedSchemas(backend, res))
      else results;
    assert withSchemas[i] == KeptResult(backend, docs[i], includeRelatedSchemas);
    assert Search(backend, Some(yaml), query, topK, includeRelatedSchemas, "yaml").value
           == ExtractOriginalYamlFragments(backend, Some(yaml), withSchemas);
  }

  /** Adding related schemas keeps the fields a fragment is looked up by, and
      the converted result carries the document's own type, method, path and
      name wherever a fragment exists. */
  lemma KeptFragment(backend: Backend, yaml: string, doc: Document, includeRelatedSchemas: bool)
    requires DocumentFragment(backend, yaml, doc).Some?
    ensures ResultFragment(backend, yaml, KeptResult(backend, doc, includeRelatedSchemas)) == DocumentFragment(backend, yaml, doc)
  {
    var converted := ConvertToSearchResult(doc);
    var kept := KeptResult(backend, doc, includeRelatedSchemas);
    assert kept.(relatedSchemas := converted.relatedSchemas, openApiSpec := converted.openApiSpec) == converted;
    assert ResultFragment(backend, yaml, kept) == ResultFragment(backend, yaml, converted);
    ConvertedFragment(backend, yaml, doc);
  }

  lemma ConvertedFragment(backend: Backend, yaml: string, doc: Document)
    requires DocumentFragment(backend, yaml, doc).Some?
    ensures ResultFragment(backend, yaml, ConvertToSearchResult(doc)) == DocumentFragment(backend, yaml, doc)
  {
    var md := doc.metadata;
    if Lookup(md, "type") == Some("path") {
      assert ConvertToSearchResult(doc) == PathResult(doc);
    } else {
      assert Lookup(md, "type") == Some("component");
      assert ConvertToSearchResult(doc) == ComponentResult(doc);
    }
  }
}
