/** YamlExtractor: cuts the part of the original specification that belongs
    to one operation or one component out of the loaded YAML tree. Loading
    and dumping text are the YAML library's business; here the tree is a
    datatype. */
module YamlExtractor {
  import opened Wrappers
  import opened Strings

  /** A loaded YAML node. Str is a string scalar, Scalar any other scalar
      (number, boolean), kept as its text; mapping keys are strings. */
  datatype Yaml =
    | Null
    | Str(s: string)
    | Scalar(text: string)
    | Items(items: seq<Yaml>)
    | Mapping(entries: seq<(string, Yaml)>)

  type Entries = seq<(string, Yaml)>

  /** map[k]: the value of the last entry with key k (a repeated key in the
      document overrides the earlier one). */
  function Get(es: Entries, k: string): (r: Option<Yaml>)
    ensures r.None? <==> forall i :: 0 <= i < |es| ==> es[i].0 != k
    ensures r.Some? ==> (k, r.value) in es
  {
    if es == [] then None
    else if es[|es| - 1].0 == k then Some(es[|es| - 1].1)
    else
      var init := es[..|es| - 1];
      assert es == init + [es[|es| - 1]];
      Get(init, k)
  }

  /** No key occurs twice: what a loaded map holds, since the loader keeps
      only the last of repeated keys. */
  predicate DistinctKeys(es: Entries) {
    forall i, j :: 0 <= i < j < |es| ==> es[i].0 != es[j].0
  }

  /** A tree as the YAML loader builds it: every mapping, at any depth, has
      distinct keys. */
  predicate Loaded(y: Yaml)
    decreases y
  {
    match y
    case Mapping(es) => DistinctKeys(es) && forall i :: 0 <= i < |es| ==> Loaded(es[i].1)
    case Items(xs) => forall i :: 0 <= i < |xs| ==> Loaded(xs[i])
    case _ => true
  }

  /** In a mapping with distinct keys an entry is stored exactly when the
      lookup of its key finds its value. */
  lemma {:induction false} GetDistinct(es: Entries, e: (string, Yaml))
    requires DistinctKeys(es)
    ensures e in es <==> Get(es, e.0) == Some(e.1)
    decreases |es|
  {
    if es != [] {
      var init := es[..|es| - 1];
      assert es == init + [es[|es| - 1]];
      assert DistinctKeys(init);
      GetDistinct(init, e);
      if e in es && es[|es| - 1].0 == e.0 {
        var i :| 0 <= i < |es| && es[i] == e;
        assert i == |es| - 1;
      }
    }
  }

  /** Filtering a mapping keeps its keys distinct. */
  lemma {:induction false} FilterDistinct(es: Entries, p: ((string, Yaml)) -> bool)
    requires DistinctKeys(es)
    ensures DistinctKeys(Filter(es, p))
    decreases |es|
  {
    if es != [] {
      var rest := Filter(es[1..], p);
      assert DistinctKeys(es[1..]) by {
        forall i, j | 0 <= i < j < |es[1..]| ensures es[1..][i].0 != es[1..][j].0 {
          assert es[1..][i] == es[i + 1] && es[1..][j] == es[j + 1];
        }
      }
      FilterDistinct(es[1..], p);
      forall k | 0 <= k < |rest| ensures rest[k].0 != es[0].0 {
        var m :| 0 <= m < |es[1..]| && es[1..][m] == rest[k];
        assert es[m + 1] == rest[k];
      }
    }
  }

  /** `as? Map<String, Any>`: the entries of a mapping, nothing otherwise. */
  function AsMapping(o: Option<Yaml>): (r: Option<Entries>)
    ensures r.Some? <==> o.Some? && o.value.Mapping?
    ensures r.Some? ==> o == Some(Mapping(r.value))
  {
    match o
    case Some(Mapping(es)) => Some(es)
    case _ => None
  }

  /** `data[k] ?: default`: a missing key and a null value both give the default. */
  function OrDefault(o: Option<Yaml>, d: Yaml): Yaml {
    if o.Some? && !o.value.Null? then o.value else d
  }

  const RefKey: string := "$ref"
  const DefaultOpenApi: Yaml := Str("3.0.0")
  const DefaultInfo: Yaml := Mapping([("title", Str("API")), ("version", Str("1.0.0"))])

  /** The schema names one mapping entry contributes: the name after the last
      '/' of a string under "$ref", and otherwise whatever is under the value. */
  function EntryRefs(e: (string, Yaml), below: set<string>): set<string> {
    if e.0 == RefKey && e.1.Str? then {AfterLast(e.1.s, '/')} else below
  }

  /** extractReferencedSchemas: every schema name referenced at any depth.
      Null values and scalars contribute nothing. */
  function Refs(y: Yaml): set<string>
    decreases y
  {
    match y
    case Mapping(es) =>
      set i, n | 0 <= i < |es| && n in EntryRefs(es[i], Refs(es[i].1)) :: n
    case Items(xs) =>
      set i, n | 0 <= i < |xs| && n in Refs(xs[i]) :: n
    case _ => {}
  }

  /** An independent description of the same names: path is a route of
      child indices down the tree whose last step is an entry "$ref" holding a
      string that names the schema. */
  ghost predicate RefAt(y: Yaml, path: seq<nat>, name: string)
    decreases y
  {
    match y
    case Mapping(es) =>
      |path| >= 1 && path[0] < |es| &&
      ((|path| == 1 && es[path[0]].0 == RefKey && es[path[0]].1.Str?
        && AfterLast(es[path[0]].1.s, '/') == name)
       || (|path| > 1 && RefAt(es[path[0]].1, path[1..], name)))
    case Items(xs) =>
      |path| >= 1 && path[0] < |xs| && RefAt(xs[path[0]], path[1..], name)
    case _ => false
  }

  /** Every collected name has a route to its "$ref" ... */
  lemma {:induction false} RefsSound(y: Yaml, name: string)
    requires name in Refs(y)
    ensures exists path :: RefAt(y, path, name)
    decreases y
  {
    match y
    case Mapping(es) =>
      var i :| 0 <= i < |es| && name in EntryRefs(es[i], Refs(es[i].1));
      if es[i].0 == RefKey && es[i].1.Str? {
        assert RefAt(y, [i], name);
      } else {
        RefsSound(es[i].1, name);
        var p :| RefAt(es[i].1, p, name);
        RefAtNonEmpty(es[i].1, p, name);
        assert ([i] + p)[1..] == p;
        assert RefAt(y, [i] + p, name);
      }
    case Items(xs) =>
      var i :| 0 <= i < |xs| && name in Refs(xs[i]);
      RefsSound(xs[i], name);
      var p :| RefAt(xs[i], p, name);
      assert ([i] + p)[1..] == p;
      assert RefAt(y, [i] + p, name);
  }

  lemma RefAtNonEmpty(y: Yaml, path: seq<nat>, name: string)
    requires RefAt(y, path, name)
    ensures |path| >= 1
  {
  }

  /** ... and every "$ref" string at any depth is collected. */
  lemma {:induction false} RefsComplete(y: Yaml, path: seq<nat>, name: string)
    requires RefAt(y, path, name)
    ensures name in Refs(y)
    decreases y
  {
    match y
    case Mapping(es) =>
      var i := path[0];
      if |path| == 1 && es[i].0 == RefKey && es[i].1.Str? && AfterLast(es[i].1.s, '/') == name {
        assert name in EntryRefs(es[i], Refs(es[i].1));
      } else {
        RefsComplete(es[i].1, path[1..], name);
        assert !es[i].1.Str?;
        assert name in EntryRefs(es[i], Refs(es[i].1));
      }
    case Items(xs) =>
      RefsComplete(xs[path[0]], path[1..], name);
      assert name in Refs(xs[path[0]]);
  }

  /** paths[path][method.lowercase()], each step required to be a mapping. */
  function Operation(top: Entries, httpMethod: string, path: string): Option<Entries> {
    match AsMapping(Get(top, "paths"))
    case None => None
    case Some(paths) =>
      match AsMapping(Get(paths, path))
      case None => None
      case Some(pathData) => AsMapping(Get(pathData, Lower(httpMethod)))
  }

  /** The schemas of components.schemas whose names are in refs. */
  function ReferencedSchemas(top: Entries, refs: set<string>): (r: Option<Entries>)
    ensures r.Some? ==> r.value != []
    ensures r.Some? ==> forall e :: e in r.value ==> e.0 in refs
    ensures r.Some? && Loaded(Mapping(top)) ==> DistinctKeys(r.value)
  {
    match AsMapping(Get(top, "components"))
    case None => None
    case Some(components) =>
      if refs == {} then None
      else
        match AsMapping(Get(components, "schemas"))
        case None => None
        case Some(schemas) =>
          var kept := Filter(schemas, (e: (string, Yaml)) => e.0 in refs);
          LoadedParts(top, components, schemas);
          if kept == [] then None else Some(kept)
  }

  /** The "openapi" and "info" entries every fragment starts with. */
  function Header(top: Entries): Entries {
    [("openapi", OrDefault(Get(top, "openapi"), DefaultOpenApi)),
     ("info", OrDefault(Get(top, "info"), DefaultInfo))]
  }

  /** extractPathFragment: the header, the one operation under its path and
      lowercased method, and the schemas it references. A document that is not
      a mapping stands for a load that failed or cast wrongly, which the source
      catches and answers with null. */
  function PathFragment(data: Yaml, httpMethod: string, path: string): (r: Option<Yaml>)
    ensures r.Some? <==> data.Mapping? && Operation(data.entries, httpMethod, path).Some?
  {
    match data
    case Mapping(top) =>
      (match Operation(top, httpMethod, path)
       case None => None
       case Some(op) =>
         var paths := ("paths", Mapping([(path, Mapping([(Lower(httpMethod), Mapping(op))]))]));
         var components :=
           match ReferencedSchemas(top, Refs(Mapping(op)))
           case None => []
           case Some(kept) => [("components", Mapping([("schemas", Mapping(kept))]))];
         Some(Mapping(Header(top) + [paths] + components)))
    case _ => None
  }

  /** The fragment keeps the whole operation, and its components entry holds
      exactly the original schemas whose names the operation references; the
      entry is absent when no such schema exists. */
  lemma PathFragmentContents(top: Entries, httpMethod: string, path: string)
    requires Operation(top, httpMethod, path).Some?
    ensures var op := Operation(top, httpMethod, path).value;
            var f := PathFragment(Mapping(top), httpMethod, path).value.entries;
            var refs := Refs(Mapping(op));
            && f[..3] == Header(top) + [("paths", Mapping([(path, Mapping([(Lower(httpMethod), Mapping(op))]))]))]
            && (|f| == 3 <==> ReferencedSchemas(top, refs).None?)
            && (|f| > 3 ==> f[3] == ("components", Mapping([("schemas", Mapping(ReferencedSchemas(top, refs).value))])))
  {
  }

  /** In a loaded tree the components and schemas mappings are loaded too,
      and filtering the schemas keeps one entry per name. */
  lemma LoadedParts(top: Entries, components: Entries, schemas: Entries)
    ensures Loaded(Mapping(top)) && Get(top, "components") == Some(Mapping(components))
            && Get(components, "schemas") == Some(Mapping(schemas))
            ==> DistinctKeys(schemas) && forall p: ((string, Yaml)) -> bool :: DistinctKeys(Filter(schemas, p))
  {
    if Loaded(Mapping(top)) && Get(top, "components") == Some(Mapping(components))
       && Get(components, "schemas") == Some(Mapping(schemas)) {
      LoadedValue(top, "components");
      LoadedValue(components, "schemas");
      forall p: ((string, Yaml)) -> bool ensures DistinctKeys(Filter(schemas, p)) {
        FilterDistinct(schemas, p);
      }
    }
  }

  /** A value found in a loaded mapping is loaded. */
  lemma LoadedValue(es: Entries, k: string)
    requires Loaded(Mapping(es)) && Get(es, k).Some?
    ensures Loaded(Get(es, k).value)
  {
    var i :| 0 <= i < |es| && es[i] == (k, Get(es, k).value);
  }

  /** Which schemas the path fragment carries: every kept schema is an
      original one with a referenced name, and every original schema with a
      referenced name is kept; when the schema names are distinct, as in a
      loaded map, each referenced name keeps its one schema. */
  lemma ReferencedSchemasExact(top: Entries, refs: set<string>, components: Entries, schemas: Entries)
    requires Get(top, "components") == Some(Mapping(components))
    requires Get(components, "schemas") == Some(Mapping(schemas))
    requires refs != {}
    ensures forall e :: e in schemas && e.0 in refs ==> ReferencedSchemas(top, refs).Some?
                                                        && e in ReferencedSchemas(top, refs).value
    ensures ReferencedSchemas(top, refs).Some? ==>
              forall e :: e in ReferencedSchemas(top, refs).value ==> e in schemas && e.0 in refs
    ensures DistinctKeys(schemas) ==>
              forall k :: k in refs && Get(schemas, k).Some? ==>
                ReferencedSchemas(top, refs).Some? && Get(ReferencedSchemas(top, refs).value, k) == Get(schemas, k)
    ensures DistinctKeys(schemas) && ReferencedSchemas(top, refs).Some? ==> DistinctKeys(ReferencedSchemas(top, refs).value)
  {
    var kept := Filter(schemas, (e: (string, Yaml)) => e.0 in refs);
    forall e | e in schemas && e.0 in refs ensures e in kept {
      var i :| 0 <= i < |schemas| && schemas[i] == e;
    }
    if DistinctKeys(schemas) {
      FilterDistinct(schemas, (e: (string, Yaml)) => e.0 in refs);
      forall k | k in refs && Get(schemas, k).Some?
        ensures Get(kept, k) == Get(schemas, k)
      {
        var e := (k, Get(schemas, k).value);
        GetDistinct(schemas, e);
        assert e in kept;
        GetDistinct(kept, e);
      }
    }
  }

  /** The path fragment of a loaded document is itself a well-formed map:
      one entry per key at every depth, so dumping it loses nothing. */
  lemma PathFragmentLoaded(data: Yaml, httpMethod: string, path: string)
    requires Loaded(data) && PathFragment(data, httpMethod, path).Some?
    ensures Loaded(PathFragment(data, httpMethod, path).value)
  {
    var top := data.entries;
    var op := Operation(top, httpMethod, path).value;
    OperationLoaded(top, httpMethod, path);
    var pathsEntry := ("paths", Mapping([(path, Mapping([(Lower(httpMethod), Mapping(op))]))]));
    assert Loaded(pathsEntry.1);
    HeaderLoaded(top);
    var refs := Refs(Mapping(op));
    var comps :=
      match ReferencedSchemas(top, refs)
      case None => []
      case Some(kept) => [("components", Mapping([("schemas", Mapping(kept))]))];
    if ReferencedSchemas(top, refs).Some? {
      KeptLoaded(top, refs);
    }
    assert PathFragment(data, httpMethod, path).value == Mapping(Header(top) + [pathsEntry] + comps);
    FragmentLoaded(Header(top), pathsEntry, comps);
  }

  /** The operation found in a loaded document is loaded. */
  lemma OperationLoaded(top: Entries, httpMethod: string, path: string)
    requires Loaded(Mapping(top)) && Operation(top, httpMethod, path).Some?
    ensures Loaded(Mapping(Operation(top, httpMethod, path).value))
  {
    LoadedValue(top, "paths");
    var paths := AsMapping(Get(top, "paths")).value;
    LoadedValue(paths, path);
    var pathData := AsMapping(Get(paths, path)).value;
    LoadedValue(pathData, Lower(httpMethod));
  }

  /** The schemas kept from a loaded document form a loaded mapping. */
  lemma KeptLoaded(top: Entries, refs: set<string>)
    requires Loaded(Mapping(top)) && ReferencedSchemas(top, refs).Some?
    ensures Loaded(Mapping(ReferencedSchemas(top, refs).value))
  {
    var kept := ReferencedSchemas(top, refs).value;
    LoadedValue(top, "components");
    var components := AsMapping(Get(top, "components")).value;
    LoadedValue(components, "schemas");
    var schemas := AsMapping(Get(components, "schemas")).value;
    ReferencedSchemasExact(top, refs, components, schemas);
    forall i | 0 <= i < |kept| ensures Loaded(kept[i].1) {
      assert kept[i] in kept;
      var j :| 0 <= j < |schemas| && schemas[j] == kept[i];
    }
  }

  /** A fragment made of the header, the paths entry and at most a
      components entry, each loaded, is loaded. */
  lemma FragmentLoaded(header: Entries, pathsEntry: (string, Yaml), comps: Entries)
    requires |header| == 2 && header[0].0 == "openapi" && header[1].0 == "info"
    requires Loaded(header[0].1) && Loaded(header[1].1)
    requires pathsEntry.0 == "paths" && Loaded(pathsEntry.1)
    requires comps == [] || (|comps| == 1 && comps[0].0 == "components" && Loaded(comps[0].1))
    ensures Loaded(Mapping(header + [pathsEntry] + comps))
  {
    var es := header + [pathsEntry] + comps;
    assert es[0] == header[0] && es[1] == header[1] && es[2] == pathsEntry;
    assert |comps| == 1 ==> es[3] == comps[0];
  }

  /** The header of a loaded document is loaded. */
  lemma HeaderLoaded(top: Entries)
    requires Loaded(Mapping(top))
    ensures forall i :: 0 <= i < |Header(top)| ==> Loaded(Header(top)[i].1)
  {
    if Get(top, "openapi").Some? { LoadedValue(top, "openapi"); }
    if Get(top, "info").Some? { LoadedValue(top, "info"); }
    assert Loaded(DefaultInfo);
  }

  /** extractComponentFragment: the header and exactly the one named schema.
      A missing components map, schemas map or schema, or a null schema,
      gives nothing. */
  function ComponentFragment(data: Yaml, name: string): (r: Option<Yaml>)
    ensures r.Some? ==> data.Mapping? && r.value.Mapping? && |r.value.entries| == 3
                        && r.value.entries[..2] == Header(data.entries)
  {
    match data
    case Mapping(top) =>
      (match AsMapping(Get(top, "components"))
       case None => None
       case Some(components) =>
         match AsMapping(Get(components, "schemas"))
         case None => None
         case Some(schemas) =>
           match Get(schemas, name)
           case None => None
           case Some(schema) =>
             if schema.Null? then None
             else Some(Mapping(Header(top) + [("components", Mapping([("schemas", Mapping([(name, schema)]))]))])))
    case _ => None
  }

  /** The component fragment exists exactly when the schema is there, and it
      is that schema. */
  lemma ComponentFragmentFound(top: Entries, name: string, components: Entries, schemas: Entries)
    requires Get(top, "components") == Some(Mapping(components))
    requires Get(components, "schemas") == Some(Mapping(schemas))
    ensures ComponentFragment(Mapping(top), name).Some? <==> Get(schemas, name).Some? && !Get(schemas, name).value.Null?
    ensures ComponentFragment(Mapping(top), name).Some? ==>
              ComponentFragment(Mapping(top), name).value.entries[2]
              == ("components", Mapping([("schemas", Mapping([(name, Get(schemas, name).value)]))]))
  {
  }

  /** A missing or null "openapi" or "info" falls back to the defaults. */
  lemma HeaderDefaults(top: Entries)
    ensures (Get(top, "openapi").None? || Get(top, "openapi") == Some(Null)) ==> Header(top)[0].1 == Str("3.0.0")
    ensures (Get(top, "info").None? || Get(top, "info") == Some(Null)) ==>
              Header(top)[1].1 == Mapping([("title", Str("API")), ("version", Str("1.0.0"))])
    ensures Get(top, "openapi") == Some(Str("3.1.0")) ==> Header(top)[0].1 == Str("3.1.0")
  {
  }
}
