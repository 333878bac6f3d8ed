/** Printing a project's rows as an OpenAPI document. */
module OpenApiSpecBuilder {
  import opened Wrappers
  import opened Json
  import opened HttpMethods
  import opened Endpoints

  datatype SchemaComponent = SchemaComponent(name: string, schema: Value)

  datatype Header = Header(name: string, description: Option<string>, servers: Value)

  /** `paths[path][method.toLowerCase()] = operation`, creating `paths[path]` when it is missing. */
  function AddEndpoint(paths: seq<Field>, e: Endpoint): seq<Field> {
    Put(paths, e.path, Obj(Put(Item(paths, e.path), ToLower(e.verb), e.operation)))
  }

  /** The entries of `paths[path]`, none when it is missing. */
  function Item(paths: seq<Field>, path: string): seq<Field> {
    if Has(paths, path) && Get(paths, path).value.Obj? then Get(paths, path).value.fields else []
  }

  function Paths(rows: seq<Endpoint>): seq<Field> {
    if |rows| == 0 then [] else AddEndpoint(Paths(rows[..|rows| - 1]), rows[|rows| - 1])
  }

  function Schemas(components: seq<SchemaComponent>): seq<Field> {
    if |components| == 0 then []
    else
      var last := components[|components| - 1];
      Put(Schemas(components[..|components| - 1]), last.name, last.schema)
  }

  function Info(header: Header): Value {
    Obj([Field("title", Str(header.name)),
         Field("description", if header.description.Some? then Str(header.description.value) else Null),
         Field("version", Str("1.0.0"))])
  }

  function Servers(servers: Value): Value {
    if servers.Arr? && |servers.items| > 0 then servers else Arr([])
  }

  /** The project's name, description and servers are printed; servers are a list, whatever was stored. */
  lemma HeaderMeaning(header: Header)
    ensures Info(header).Obj? && Servers(header.servers).Arr?
    ensures var info := Info(header).fields;
            && Get(info, "title") == Some(Str(header.name)) && Get(info, "version") == Some(Str("1.0.0"))
            && (header.description == None ==> Get(info, "description") == Some(Null))
            && (header.description.Some? ==> Get(info, "description") == Some(Str(header.description.value)))
    ensures header.servers.Arr? ==> Servers(header.servers) == header.servers
    ensures !header.servers.Arr? ==> Servers(header.servers) == Arr([])
  {
    var info := Info(header).fields;
    assert |"title"| == 5 && |"description"| == 11 && |"version"| == 7;
    SkipOne(info, "description");
    SkipOne(info, "version");
    SkipOne(info[1..], "version");
    assert info[1..][1..] == info[2..] && info[1..][0].key == "description" && info[2..][0].key == "version";
  }

  /** The document around `paths` and `schemas`. */
  function Document(header: Header, paths: seq<Field>, schemas: seq<Field>): Value {
    Obj([Field("openapi", Str("3.0.0")), Field("info", Info(header)), Field("servers", Servers(header.servers)),
         Field("paths", Obj(paths))]
        + if |schemas| > 0 then [Field("components", Obj([Field("schemas", Obj(schemas))]))] else [])
  }

  lemma NothingPrinted()
    ensures Paths([]) == [] && Schemas([]) == []
  {
  }

  lemma PathsStep(rows: seq<Endpoint>, i: nat)
    requires i < |rows|
    ensures Paths(rows[..i + 1]) == AddEndpoint(Paths(rows[..i]), rows[i])
  {
    assert rows[..i + 1][..i] == rows[..i];
  }

  lemma SchemasStep(components: seq<SchemaComponent>, i: nat)
    requires i < |components|
    ensures Schemas(components[..i + 1]) == Put(Schemas(components[..i]), components[i].name, components[i].schema)
  {
    assert components[..i + 1][..i] == components[..i];
  }

  method Build(header: Header, endpoints: seq<Endpoint>, components: seq<SchemaComponent>) returns (document: Value)
    ensures document == Document(header, Paths(endpoints), Schemas(components))
  {
    hide Document, Put, Item, Paths, Schemas;
    NothingPrinted();
    var paths: seq<Field> := [];
    for i := 0 to |endpoints|
      invariant paths == Paths(endpoints[..i])
    {
      PathsStep(endpoints, i);
      var e := endpoints[i];
      var item := Item(paths, e.path);
      item := Put(item, ToLower(e.verb), e.operation);
      paths := Put(paths, e.path, Obj(item));
    }
    assert endpoints[..|endpoints|] == endpoints;
    var schemas: seq<Field> := [];
    for i := 0 to |components|
      invariant schemas == Schemas(components[..i])
    {
      SchemasStep(components, i);
      schemas := Put(schemas, components[i].name, components[i].schema);
    }
    assert components[..|components|] == components;
    document := Document(header, paths, schemas);
  }

  // ---------- reading the document ----------

  /** `paths[path][verb]` */
  function Lookup(paths: seq<Field>, path: string, verb: string): Option<Value> {
    Get(Item(paths, path), verb)
  }

  /** The operation of the last row with a route, as the document spells it. */
  function LastOperation(rows: seq<Endpoint>, path: string, verb: string): Option<Value> {
    if |rows| == 0 then None
    else
      var last := rows[|rows| - 1];
      if last.path == path && ToLower(last.verb) == verb then Some(last.operation)
      else LastOperation(rows[..|rows| - 1], path, verb)
  }

  /** The document holds, under each path and lower-case method, the last row with that route, and nothing else. */
  lemma {:induction false} PathsLookup(rows: seq<Endpoint>, path: string, verb: string)
    ensures Lookup(Paths(rows), path, verb) == LastOperation(rows, path, verb)
  {
    if |rows| > 0 {
      var init, last := rows[..|rows| - 1], rows[|rows| - 1];
      PathsLookup(init, path, verb);
      var before, item := Paths(init), Item(Paths(init), last.path);
      var m, changed := ToLower(last.verb), Put(item, ToLower(last.verb), last.operation);
      if path != last.path {
        PutThenGetOther(before, last.path, Obj(changed), path);
      } else if verb != m {
        PutThenGetOther(item, m, last.operation, verb);
      }
    }
  }

  lemma {:induction false} LastOperationMeaning(rows: seq<Endpoint>, e: Endpoint)
    requires forall i, j :: 0 <= i < j < |rows| ==> RouteOf(rows[i]) != RouteOf(rows[j])
    requires forall f :: f in rows ==> ToLower(f.verb) == f.verb
    requires e in rows
    ensures LastOperation(rows, e.path, e.verb) == Some(e.operation)
  {
    var init, last := rows[..|rows| - 1], rows[|rows| - 1];
    assert rows == init + [last];
    if e != last {
      var i :| 0 <= i < |rows| && rows[i] == e;
      assert init[i] == e;
      LastOperationMeaning(init, e);
    }
  }

  lemma {:induction false} LastOperationHasRow(rows: seq<Endpoint>, path: string, verb: string)
    requires LastOperation(rows, path, verb).Some?
    ensures exists e :: e in rows && e.path == path && ToLower(e.verb) == verb
  {
    var init, last := rows[..|rows| - 1], rows[|rows| - 1];
    assert rows == init + [last];
    if !(last.path == path && ToLower(last.verb) == verb) {
      LastOperationHasRow(init, path, verb);
    }
  }

  predicate DistinctNames(fields: seq<Field>) {
    forall i, j :: 0 <= i < j < |fields| ==> fields[i].key != fields[j].key
  }

  /** Each path is printed once, with at least one method, each method once. */
  predicate Tidy(paths: seq<Field>) {
    && DistinctNames(paths)
    && forall f :: f in paths ==> f.value.Obj? && |f.value.fields| > 0 && DistinctNames(f.value.fields)
  }

  lemma ConsDistinct(head: Field, tail: seq<Field>)
    ensures DistinctNames([head] + tail) <==> DistinctNames(tail) && forall f :: f in tail ==> f.key != head.key
  {
    var all := [head] + tail;
    assert forall i :: 0 <= i < |tail| ==> all[i + 1] == tail[i];
    assert forall i :: 0 < i < |all| ==> all[i] == tail[i - 1];
    if DistinctNames(all) {
      forall f | f in tail ensures f.key != head.key {
        var i :| 0 <= i < |tail| && tail[i] == f;
        assert all[i + 1].key != all[0].key;
      }
    }
  }

  lemma {:induction false} PutMembers(fields: seq<Field>, key: string, value: Value)
    ensures forall f :: f in Put(fields, key, value) ==> f in fields || f == Field(key, value)
  {
    if |fields| > 0 && fields[0].key != key {
      PutMembers(fields[1..], key, value);
    }
  }

  lemma {:induction false} PutKeepsNamesDistinct(fields: seq<Field>, key: string, value: Value)
    requires DistinctNames(fields)
    ensures DistinctNames(Put(fields, key, value))
  {
    if |fields| > 0 {
      hide DistinctNames;
      var rest := fields[1..];
      assert fields == [fields[0]] + rest;
      ConsDistinct(fields[0], rest);
      if fields[0].key != key {
        PutKeepsNamesDistinct(rest, key, value);
        PutMembers(rest, key, value);
        ConsDistinct(fields[0], Put(rest, key, value));
      } else {
        ConsDistinct(Field(key, value), rest);
      }
    }
  }

  lemma {:induction false} PathsAreTidy(rows: seq<Endpoint>)
    ensures Tidy(Paths(rows))
  {
    if |rows| > 0 {
      var init, last := rows[..|rows| - 1], rows[|rows| - 1];
      PathsAreTidy(init);
      var before, item := Paths(init), Item(Paths(init), last.path);
      var changed := Obj(Put(item, ToLower(last.verb), last.operation));
      if Has(before, last.path) {
        assert Field(last.path, Get(before, last.path).value) in before;
      }
      PutKeepsNamesDistinct(item, ToLower(last.verb), last.operation);
      PutKeepsNamesDistinct(before, last.path, changed);
      PutMembers(before, last.path, changed);
    }
  }

  /** The schema of the last component with a name. */
  function LastSchema(components: seq<SchemaComponent>, name: string): Option<Value> {
    if |components| == 0 then None
    else
      var last := components[|components| - 1];
      if last.name == name then Some(last.schema) else LastSchema(components[..|components| - 1], name)
  }

  /** The document's schemas hold, each once, the last component of every name and nothing else. */
  lemma {:induction false} SchemasLookup(components: seq<SchemaComponent>, name: string)
    ensures Get(Schemas(components), name) == LastSchema(components, name)
    ensures DistinctNames(Schemas(components))
  {
    if |components| > 0 {
      var init, last := components[..|components| - 1], components[|components| - 1];
      SchemasLookup(init, name);
      PutKeepsNamesDistinct(Schemas(init), last.name, last.schema);
      if name != last.name {
        PutThenGetOther(Schemas(init), last.name, last.schema, name);
      }
    }
  }

  /** Reading the printed document gives back paths and schemas: no `components` means no schemas. */
  lemma DocumentReads(header: Header, paths: seq<Field>, schemas: seq<Field>)
    ensures var d := Document(header, paths, schemas).fields;
            && Get(d, "openapi") == Some(Str("3.0.0")) && Get(d, "paths") == Some(Obj(paths))
            && Get(d, "info") == Some(Info(header)) && Get(d, "servers") == Some(Servers(header.servers))
            && Get(d, "components") == if schemas == [] then None else Some(Obj([Field("schemas", Obj(schemas))]))
  {
    var d := Document(header, paths, schemas).fields;
    assert |"openapi"| == 7 && |"info"| == 4 && |"servers"| == 7 && |"paths"| == 5 && |"components"| == 10;
    SkipOne(d, "info");
    SkipOne(d, "servers");
    SkipOne(d[1..], "servers");
    assert d[1..][1..] == d[2..] && d[2..][1..] == d[3..] && d[3..][1..] == d[4..];
    assert d[0].key == "openapi" && d[1..][0].key == "info" && d[2..][0].key == "servers" && d[3..][0].key == "paths";
    SkipOne(d, "paths");
    SkipOne(d[1..], "paths");
    SkipOne(d[2..], "paths");
    SkipOne(d, "components");
    SkipOne(d[1..], "components");
    SkipOne(d[2..], "components");
    SkipOne(d[3..], "components");
  }

  lemma SkipOne(fields: seq<Field>, key: string)
    requires |fields| > 0 && fields[0].key != key
    ensures Get(fields, key) == Get(fields[1..], key)
  {
  }

  /** A tidy record is read back entry by entry. */
  lemma {:induction false} GetDistinct(fields: seq<Field>, f: Field)
    requires DistinctNames(fields) && f in fields
    ensures Get(fields, f.key) == Some(f.value)
  {
    if fields[0] != f {
      var i :| 0 < i < |fields| && fields[i] == f;
      assert fields[1..][i - 1] == f;
      GetDistinct(fields[1..], f);
    }
  }
}
