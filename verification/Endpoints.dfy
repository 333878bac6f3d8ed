/** HTTP methods and the `method:path` keys that identify an endpoint inside a project. */
module HttpMethods {
  import Json

  const VALID_HTTP_METHODS: set<string> := {"get", "put", "post", "delete", "options", "head", "patch", "trace"}

  function LowerChar(c: char): char {
    if 'A' <= c <= 'Z' then c + ('a' - 'A') else c
  }

  /** `toLowerCase` on ASCII letters; no other character lower-cases into a valid method name. */
  function ToLower(s: string): (r: string)
    ensures |r| == |s|
    ensures forall i :: 0 <= i < |s| ==> r[i] == LowerChar(s[i])
  {
    seq(|s|, i requires 0 <= i < |s| => LowerChar(s[i]))
  }

  const UPPER := "ABCDEFGHIJKLMNOPQRSTUVWXYZ"
  const LOWER := "abcdefghijklmnopqrstuvwxyz"

  /** Each capital letter becomes its small one, and nothing else changes. */
  lemma LowerCharMeaning(c: char, i: nat)
    requires i < 26
    ensures LowerChar(UPPER[i]) == LOWER[i] && (c !in UPPER ==> LowerChar(c) == c)
  {
    if 'A' <= c <= 'Z' {
      assert UPPER[(c - 'A') as int] == c;
    }
  }

  function EndpointKey(verb: string, path: string): string {
    ToLower(verb) + (":" + path)
  }

  lemma ValidMethodIsPlain(verb: string)
    requires verb in VALID_HTTP_METHODS
    ensures ToLower(verb) == verb && ':' !in verb
  {
  }

  /** The key separates method and path again, because no valid method contains a colon. */
  lemma EndpointKeyIsInjective(m: string, p: string, m': string, p': string)
    requires ToLower(m) in VALID_HTTP_METHODS && ToLower(m') in VALID_HTTP_METHODS
    ensures EndpointKey(m, p) == EndpointKey(m', p') <==> ToLower(m) == ToLower(m') && p == p'
  {
    var a, b := ToLower(m), ToLower(m');
    ValidMethodIsPlain(a);
    ValidMethodIsPlain(b);
    var k, k' := EndpointKey(m, p), EndpointKey(m', p');
    if k == k' {
      Json.SplitAgrees(a, b, ":" + p, ":" + p');
      Json.SplitAgrees(b, a, ":" + p', ":" + p);
      if |a| != |b| {
        assert false;
      }
      Json.SplitAgrees(":", ":", p, p');
    }
  }
}

/** The `x-app-metadata` record an operation carries: who created the endpoint and who edited it last. */
module AppMetadata {
  import opened Wrappers
  import opened Json

  const METADATA_KEY := "x-app-metadata"

  /** Who created an endpoint, and when. */
  datatype Origin = Origin(createdBy: Value, createdAt: Value)

  predicate HasString(fields: seq<Field>, key: string) {
    Has(fields, key) && Get(fields, key).value.Str?
  }

  predicate IsEndpointAppMetadata(v: Value) {
    && v.Obj?
    && HasString(v.fields, "createdBy")
    && HasString(v.fields, "createdAt")
    && HasString(v.fields, "lastEditedBy")
    && HasString(v.fields, "lastEditedAt")
  }

  /** `operation?.['x-app-metadata'] ?? null` */
  function MetadataOf(operation: Value): Value {
    if operation.Obj? && Has(operation.fields, METADATA_KEY) then Get(operation.fields, METADATA_KEY).value else Null
  }

  /** `operation['x-app-metadata'] = metadata`. On an array the assignment adds a property that JSON drops. */
  function WithMetadata(operation: Value, metadata: Value): Value {
    if operation.Obj? then Obj(Put(operation.fields, METADATA_KEY, metadata)) else operation
  }

  /** What the change test looks at: everything but the metadata, and nothing at all of a non-object. */
  function Comparable(operation: Value): Value {
    if operation.Obj? then Obj(Without(operation.fields, METADATA_KEY)) else Obj([])
  }

  /** The operation as its author wrote it. */
  function Stripped(operation: Value): Value {
    if operation.Obj? then Obj(Without(operation.fields, METADATA_KEY)) else operation
  }

  function MakeMetadata(createdBy: Value, createdAt: Value, editor: string, nowIso: string): Value {
    Obj([Field("createdBy", createdBy), Field("createdAt", createdAt),
         Field("lastEditedBy", Str(editor)), Field("lastEditedAt", Str(nowIso))])
  }

  function NewMetadata(username: string, nowIso: string): Value {
    MakeMetadata(Str(username), Str(nowIso), username, nowIso)
  }

  /** Metadata an import writes over an existing endpoint. */
  function UpdatedMetadata(stored: Value, rowCreatedAt: string, username: string, nowIso: string): Value {
    var base := if IsEndpointAppMetadata(MetadataOf(stored)) then MetadataOf(stored)
                else MakeMetadata(Str("unknown"), Str(rowCreatedAt), username, nowIso);
    Obj(Put(Put(base.fields, "lastEditedBy", Str(username)), "lastEditedAt", Str(nowIso)))
  }

  /** `metadata?.[key] ?? fallback` */
  function FieldOr(metadata: Value, key: string, fallback: Value): Value {
    if metadata.Obj? && Has(metadata.fields, key) && !Get(metadata.fields, key).value.Null?
    then Get(metadata.fields, key).value else fallback
  }

  /** Metadata an edit writes over the operation it read. */
  function SavedMetadata(stored: Value, creator: string, rowCreatedAt: string, editor: string, nowIso: string): Value {
    MakeMetadata(FieldOr(MetadataOf(stored), "createdBy", Str(creator)),
                 FieldOr(MetadataOf(stored), "createdAt", Str(rowCreatedAt)), editor, nowIso)
  }

  /** The provenance well-formed metadata records. */
  function OriginIn(metadata: Value): Option<Origin> {
    if IsEndpointAppMetadata(metadata)
    then Some(Origin(Get(metadata.fields, "createdBy").value, Get(metadata.fields, "createdAt").value)) else None
  }

  function OriginOf(operation: Value): Option<Origin> {
    OriginIn(MetadataOf(operation))
  }

  /** Who edited an endpoint last, and when. */
  datatype Editor = Editor(lastEditedBy: Value, lastEditedAt: Value)

  function EditorIn(metadata: Value): Option<Editor> {
    if metadata.Obj? && Has(metadata.fields, "lastEditedBy") && Has(metadata.fields, "lastEditedAt")
    then Some(Editor(Get(metadata.fields, "lastEditedBy").value, Get(metadata.fields, "lastEditedAt").value)) else None
  }

  function EditorOf(operation: Value): Option<Editor> {
    EditorIn(MetadataOf(operation))
  }

  /** Whatever metadata an operation carries, and wherever, the change test and the author's view see the rest of its
      entries in their order; and nothing, or all, of what is not an object. */
  lemma ContentMeaning(before: seq<Field>, metadata: Value, after: seq<Field>, other: Value)
    requires !Has(before, METADATA_KEY) && !Has(after, METADATA_KEY) && !other.Obj?
    ensures var op := Obj(before + [Field(METADATA_KEY, metadata)] + after);
            Comparable(op) == Stripped(op) == Obj(before + after)
    ensures Comparable(Obj(after)) == Stripped(Obj(after)) == Obj(after)
    ensures Comparable(other) == Obj([]) && Stripped(other) == other && MetadataOf(other) == Null
  {
    WithoutMeaning(before, Field(METADATA_KEY, metadata), after);
  }

  /** Well-formedness needs each of the four fields to be there, and to be a string. */
  lemma GuardNeedsEach(fields: seq<Field>, key: string, value: Value)
    requires IsEndpointAppMetadata(Obj(fields))
    requires key in {"createdBy", "createdAt", "lastEditedBy", "lastEditedAt"}
    ensures IsEndpointAppMetadata(Obj(Put(fields, key, value))) <==> value.Str?
    ensures !IsEndpointAppMetadata(Obj(Without(fields, key)))
  {
    hide Get, Put, Without;
    MetadataKeysDiffer();
    forall other | other != key ensures Get(Put(fields, key, value), other) == Get(fields, other) {
      PutThenGetOther(fields, key, value, other);
    }
  }

  /** An edit takes over the creation fields it finds, whatever they hold, and where there are none, or null, those of
      the row. */
  lemma SavedMetadataCreation(stored: Value, creator: string, rowCreatedAt: string, editor: string, nowIso: string)
    ensures var f, m := SavedMetadata(stored, creator, rowCreatedAt, editor, nowIso).fields, MetadataOf(stored);
            && (!m.Obj? ==> Get(f, "createdBy") == Some(Str(creator)) && Get(f, "createdAt") == Some(Str(rowCreatedAt)))
            && (m.Obj? ==>
                  && Get(f, "createdBy") == (if Get(m.fields, "createdBy") in {None, Some(Null)} then Some(Str(creator))
                                             else Get(m.fields, "createdBy"))
                  && Get(f, "createdAt") == (if Get(m.fields, "createdAt") in {None, Some(Null)} then Some(Str(rowCreatedAt))
                                             else Get(m.fields, "createdAt")))
  {
    hide Get;
    MetadataKeysDiffer();
    FourFields(Field("createdBy", FieldOr(MetadataOf(stored), "createdBy", Str(creator))),
               Field("createdAt", FieldOr(MetadataOf(stored), "createdAt", Str(rowCreatedAt))),
               Field("lastEditedBy", Str(editor)), Field("lastEditedAt", Str(nowIso)));
  }

  /** An operation with what linting demands of one: a summary and a successful response. */
  function Sample(summary: string): (r: Value)
    ensures r.Obj?
  {
    Obj([Field("summary", Str(summary)),
         Field("responses", Obj([Field("200", Obj([Field("description", Str("ok"))]))]))])
  }

  lemma SampleMeaning(summary: string)
    ensures var op := Sample(summary); Comparable(op) == op && MetadataOf(op) == Null && !Has(op.fields, "$ref")
  {
    var f := Sample(summary).fields;
    assert |"summary"| == 7 && |"responses"| == 9 && |METADATA_KEY| == 14 && |"$ref"| == 4;
    assert f[1..][1..] == [] && f[1..][0].key == "responses" && f[0].key == "summary";
    assert Without(f[1..], METADATA_KEY) == f[1..];
    assert [f[0]] + f[1..] == f;
  }

  lemma WrittenMetadataIsInvisible(operation: Value, metadata: Value)
    ensures Comparable(WithMetadata(operation, metadata)) == Comparable(operation)
    ensures Stripped(WithMetadata(operation, metadata)) == Stripped(operation)
    ensures operation.Obj? ==> MetadataOf(WithMetadata(operation, metadata)) == metadata
  {
    if operation.Obj? {
      PutThenWithout(operation.fields, METADATA_KEY, metadata);
    }
  }

  lemma LastMetadataWins(operation: Value, earlier: Value, later: Value)
    ensures WithMetadata(WithMetadata(operation, earlier), later) == WithMetadata(operation, later)
  {
    if operation.Obj? {
      PutTwice(operation.fields, METADATA_KEY, earlier, later);
    }
  }

  lemma MetadataKeysDiffer()
    ensures "createdBy" != "createdAt" && "createdBy" != "lastEditedBy" && "createdBy" != "lastEditedAt"
    ensures "createdAt" != "lastEditedBy" && "createdAt" != "lastEditedAt" && "lastEditedBy" != "lastEditedAt"
  {
    assert "createdBy"[7] == 'B' && "createdAt"[7] == 'A';
    assert "lastEditedBy"[10] == 'B' && "lastEditedAt"[10] == 'A';
    assert |"createdBy"| == |"createdAt"| == 9 && |"lastEditedBy"| == |"lastEditedAt"| == 12;
  }

  lemma FourFields(a: Field, b: Field, c: Field, d: Field)
    requires a.key != b.key && a.key != c.key && a.key != d.key
    requires b.key != c.key && b.key != d.key && c.key != d.key
    ensures var f := [a, b, c, d];
            && Get(f, a.key) == Some(a.value) && Get(f, b.key) == Some(b.value)
            && Get(f, c.key) == Some(c.value) && Get(f, d.key) == Some(d.value)
  {
    var f := [a, b, c, d];
    assert f[1..] == [b, c, d] && [b, c, d][1..] == [c, d] && [c, d][1..] == [d];
    assert Get([d], d.key) == Some(d.value);
    assert Get([c, d], d.key) == Get([d], d.key);
    assert Get([b, c, d], d.key) == Get([c, d], d.key) && Get([b, c, d], c.key) == Get([c, d], c.key);
  }

  /** Freshly made metadata is well-formed exactly when its creation fields are strings. */
  lemma MadeMetadataOrigin(createdBy: Value, createdAt: Value, editor: string, nowIso: string)
    ensures OriginIn(MakeMetadata(createdBy, createdAt, editor, nowIso))
         == if createdBy.Str? && createdAt.Str? then Some(Origin(createdBy, createdAt)) else None
  {
    hide Get;
    MetadataKeysDiffer();
    FourFields(Field("createdBy", createdBy), Field("createdAt", createdAt),
               Field("lastEditedBy", Str(editor)), Field("lastEditedAt", Str(nowIso)));
  }

  /** Freshly made metadata names its editor. */
  lemma MadeMetadataEditor(createdBy: Value, createdAt: Value, editor: string, nowIso: string)
    ensures EditorIn(MakeMetadata(createdBy, createdAt, editor, nowIso)) == Some(Editor(Str(editor), Str(nowIso)))
  {
    hide Get;
    MetadataKeysDiffer();
    FourFields(Field("createdBy", createdBy), Field("createdAt", createdAt),
               Field("lastEditedBy", Str(editor)), Field("lastEditedAt", Str(nowIso)));
  }

  lemma PutKeepsOthers(fields: seq<Field>, key: string, value: Value, a: string, b: string, c: string)
    requires a != key && b != key && c != key
    ensures var after := Put(fields, key, value);
            && Get(after, a) == Get(fields, a) && Get(after, b) == Get(fields, b) && Get(after, c) == Get(fields, c)
  {
    PutThenGetOther(fields, key, value, a);
    PutThenGetOther(fields, key, value, b);
    PutThenGetOther(fields, key, value, c);
  }

  lemma PutEditorKeepsOrigin(fields: seq<Field>, key: string, value: string)
    requires OriginIn(Obj(fields)).Some? && (key == "lastEditedBy" || key == "lastEditedAt")
    ensures OriginIn(Obj(Put(fields, key, Str(value)))) == OriginIn(Obj(fields))
  {
    hide Get, Put;
    MetadataKeysDiffer();
    var other := if key == "lastEditedBy" then "lastEditedAt" else "lastEditedBy";
    PutKeepsOthers(fields, key, Str(value), "createdBy", "createdAt", other);
  }

  /** An import keeps the provenance of well-formed metadata, and always leaves well-formed metadata. */
  lemma UpdatedMetadataOrigin(stored: Value, rowCreatedAt: string, username: string, nowIso: string)
    ensures var after := OriginIn(UpdatedMetadata(stored, rowCreatedAt, username, nowIso));
            after == if OriginOf(stored).Some? then OriginOf(stored)
                     else Some(Origin(Str("unknown"), Str(rowCreatedAt)))
  {
    var base := if IsEndpointAppMetadata(MetadataOf(stored)) then MetadataOf(stored)
                else MakeMetadata(Str("unknown"), Str(rowCreatedAt), username, nowIso);
    MadeMetadataOrigin(Str("unknown"), Str(rowCreatedAt), username, nowIso);
    PutEditorKeepsOrigin(base.fields, "lastEditedBy", username);
    PutEditorKeepsOrigin(Put(base.fields, "lastEditedBy", Str(username)), "lastEditedAt", nowIso);
  }

  /** Whoever imports is recorded as the last editor. */
  lemma ImportedMetadataEditor(stored: Value, rowCreatedAt: string, username: string, nowIso: string)
    ensures EditorIn(UpdatedMetadata(stored, rowCreatedAt, username, nowIso)) == Some(Editor(Str(username), Str(nowIso)))
    ensures EditorIn(NewMetadata(username, nowIso)) == Some(Editor(Str(username), Str(nowIso)))
  {
    hide Get, Put, UpdatedMetadata;
    EditorIsRecorded(stored, "", rowCreatedAt, username, nowIso, "");
    UpdatedMetadataIsObject(stored, rowCreatedAt, username, nowIso);
    MadeMetadataEditor(Str(username), Str(nowIso), username, nowIso);
  }

  lemma UpdatedMetadataIsObject(stored: Value, rowCreatedAt: string, username: string, nowIso: string)
    ensures UpdatedMetadata(stored, rowCreatedAt, username, nowIso).Obj?
  {
  }

  /** Whoever imports or edits is recorded as the last editor, and an import leaves every other field of well-formed
      metadata, known or not, as it was. */
  lemma EditorIsRecorded(stored: Value, creator: string, rowCreatedAt: string, editor: string, nowIso: string,
                         other: string)
    ensures var f := UpdatedMetadata(stored, rowCreatedAt, editor, nowIso).fields;
            Get(f, "lastEditedBy") == Some(Str(editor)) && Get(f, "lastEditedAt") == Some(Str(nowIso))
    ensures var f := SavedMetadata(stored, creator, rowCreatedAt, editor, nowIso).fields;
            Get(f, "lastEditedBy") == Some(Str(editor)) && Get(f, "lastEditedAt") == Some(Str(nowIso))
    ensures OriginOf(stored).Some? && other != "lastEditedBy" && other != "lastEditedAt" ==>
            Get(UpdatedMetadata(stored, rowCreatedAt, editor, nowIso).fields, other) == Get(MetadataOf(stored).fields, other)
  {
    hide Get, Put;
    MetadataKeysDiffer();
    var base := if IsEndpointAppMetadata(MetadataOf(stored)) then MetadataOf(stored)
                else MakeMetadata(Str("unknown"), Str(rowCreatedAt), editor, nowIso);
    var once := Put(base.fields, "lastEditedBy", Str(editor));
    PutThenGetOther(once, "lastEditedAt", Str(nowIso), "lastEditedBy");
    if other != "lastEditedBy" && other != "lastEditedAt" {
      PutThenGetOther(base.fields, "lastEditedBy", Str(editor), other);
      PutThenGetOther(once, "lastEditedAt", Str(nowIso), other);
    }
    FourFields(Field("createdBy", FieldOr(MetadataOf(stored), "createdBy", Str(creator))),
               Field("createdAt", FieldOr(MetadataOf(stored), "createdAt", Str(rowCreatedAt))),
               Field("lastEditedBy", Str(editor)), Field("lastEditedAt", Str(nowIso)));
  }

  /** An edit keeps the provenance of well-formed metadata. */
  lemma SavedMetadataOrigin(stored: Value, creator: string, rowCreatedAt: string, editor: string, nowIso: string)
    requires OriginOf(stored).Some?
    ensures OriginIn(SavedMetadata(stored, creator, rowCreatedAt, editor, nowIso)) == OriginOf(stored)
  {
    MadeMetadataOrigin(FieldOr(MetadataOf(stored), "createdBy", Str(creator)),
                       FieldOr(MetadataOf(stored), "createdAt", Str(rowCreatedAt)), editor, nowIso);
  }
}

/** Endpoint rows, and the table that holds those of every project. */
module Endpoints {
  import opened Wrappers
  import opened Json
  import opened HttpMethods

  datatype Status = Draft | InReview | Published | Deprecated

  datatype User = User(id: string, username: string)

  datatype Endpoint = Endpoint(
    id: string, projectId: string, path: string, verb: string, status: Status, operation: Value,
    creatorId: string, createdAt: string, updatedById: string, updatedAt: nat)

  datatype Route = Route(path: string, verb: string)

  function RouteOf(e: Endpoint): Route {
    Route(e.path, e.verb)
  }

  function KeyOf(e: Endpoint): string {
    EndpointKey(e.verb, e.path)
  }

  type Table = map<string, Endpoint>

  /** `@@unique([projectId, path, method])` */
  predicate SameRoute(e: Endpoint, f: Endpoint) {
    e.projectId == f.projectId && RouteOf(e) == RouteOf(f)
  }

  /** Rows sit under their own id, methods are valid and lower-case, and no project has a route twice. */
  predicate WellFormed(t: Table) {
    && (forall id :: id in t ==> t[id].id == id && t[id].verb in VALID_HTTP_METHODS)
    && forall i, j :: i in t && j in t && i != j ==> !SameRoute(t[i], t[j])
  }

  lemma PutRowKeepsWellFormed(t: Table, e: Endpoint)
    requires WellFormed(t) && e.verb in VALID_HTTP_METHODS
    requires forall id :: id in t && id != e.id ==> !SameRoute(t[id], e)
    ensures WellFormed(t[e.id := e])
  {
    var u := t[e.id := e];
    forall i, j | i in u && j in u && i != j ensures !SameRoute(u[i], u[j]) {
    }
  }

  /** What a project looks like from outside: its endpoints by route. */
  ghost function View(t: Table, projectId: string): map<Route, Endpoint>
    requires WellFormed(t)
  {
    map id | id in t && t[id].projectId == projectId :: RouteOf(t[id]) := t[id]
  }

  lemma ViewMeaning(t: Table, projectId: string)
    requires WellFormed(t)
    ensures forall id :: id in t && t[id].projectId == projectId ==>
              RouteOf(t[id]) in View(t, projectId) && View(t, projectId)[RouteOf(t[id])] == t[id]
    ensures forall r :: r in View(t, projectId) ==>
              exists id :: id in t && t[id].projectId == projectId && RouteOf(t[id]) == r
  {
  }

  /** A route leads to a row exactly when that row of the project has it. */
  lemma ViewAt(t: Table, projectId: string, r: Route, id: string)
    requires WellFormed(t)
    ensures id in t && t[id].projectId == projectId && RouteOf(t[id]) == r <==>
            r in View(t, projectId) && View(t, projectId)[r].id == id
    ensures r in View(t, projectId) ==>
              var e := View(t, projectId)[r]; e.projectId == projectId && RouteOf(e) == r && e.id in t && t[e.id] == e
    ensures id in t ==> t[id].id == id
  {
  }

  /** Writing a row puts it under its route, frees the route it had, and changes no other project. */
  lemma ViewAfterPut(t: Table, e: Endpoint, projectId: string)
    requires WellFormed(t) && WellFormed(t[e.id := e]) && (e.id in t ==> t[e.id].projectId == e.projectId)
    ensures View(t[e.id := e], projectId) ==
            if projectId != e.projectId then View(t, projectId)
            else (View(t, projectId) - (if e.id in t then {RouteOf(t[e.id])} else {}))[RouteOf(e) := e]
  {
    hide View, WellFormed, RouteOf;
    var u := t[e.id := e];
    var before, after := View(t, projectId), View(u, projectId);
    var freed := if e.id in t then {RouteOf(t[e.id])} else {};
    var expected := if projectId != e.projectId then before else (before - freed)[RouteOf(e) := e];
    forall r ensures (r in after <==> r in expected) && (r in expected ==> after[r] == expected[r]) {
      ViewAt(t, projectId, r, e.id);
      ViewAt(u, projectId, r, e.id);
      if r in before {
        ViewAt(u, projectId, r, before[r].id);
      }
      if r in after {
        ViewAt(t, projectId, r, after[r].id);
      }
    }
  }

  /** Deleting a row frees its route and changes nothing else. */
  lemma ViewAfterRemove(t: Table, id: string, projectId: string)
    requires WellFormed(t) && WellFormed(t - {id}) && id in t
    ensures View(t - {id}, projectId) ==
            if projectId != t[id].projectId then View(t, projectId) else View(t, projectId) - {RouteOf(t[id])}
  {
    hide View, WellFormed, RouteOf;
    var u := t - {id};
    var before, after := View(t, projectId), View(u, projectId);
    var expected := if projectId != t[id].projectId then before else before - {RouteOf(t[id])};
    forall r ensures (r in after <==> r in expected) && (r in expected ==> after[r] == expected[r]) {
      ViewAt(t, projectId, r, id);
      ViewAt(u, projectId, r, id);
      if r in before {
        ViewAt(u, projectId, r, before[r].id);
      }
      if r in after {
        ViewAt(t, projectId, r, after[r].id);
      }
    }
  }

  /** `rows` is what the database answers when asked for the endpoints of a project, in some order. */
  ghost predicate Lists(rows: seq<Endpoint>, t: Table, projectId: string) {
    && (forall e :: e in rows ==> e.projectId == projectId && e.id in t && t[e.id] == e)
    && (forall id :: id in t && t[id].projectId == projectId ==> t[id] in rows)
    && forall i, j :: 0 <= i < j < |rows| ==> rows[i].id != rows[j].id
  }

  // ---------- statements ----------

  predicate CanInsert(t: Table, e: Endpoint) {
    e.id !in t && forall id :: id in t ==> !SameRoute(t[id], e)
  }

  /** `createMany`: all rows or, on a uniqueness violation, none. */
  function CreateMany(t: Table, rows: seq<Endpoint>): Option<Table>
    decreases rows
  {
    if |rows| == 0 then Some(t)
    else if CanInsert(t, rows[0]) then CreateMany(t[rows[0].id := rows[0]], rows[1..])
    else None
  }

  /** `deleteMany({ where: { id: { in: ids } } })` */
  function DeleteMany(t: Table, ids: seq<string>): Table {
    map id | id in t && id !in ids :: t[id]
  }

  lemma DeleteManyKeeps(t: Table, ids: seq<string>)
    ensures WellFormed(t) ==> WellFormed(DeleteMany(t, ids))
    ensures DeleteMany(t, ids).Keys == t.Keys - set id | id in ids
    ensures forall id :: id in DeleteMany(t, ids) ==> DeleteMany(t, ids)[id] == t[id]
  {
  }

  predicate RoutesFree(t: Table, rows: seq<Endpoint>) {
    forall i, id :: 0 <= i < |rows| && id in t ==> !SameRoute(t[id], rows[i])
  }

  predicate RoutesDistinct(rows: seq<Endpoint>) {
    forall i, j :: 0 <= i < j < |rows| ==> !SameRoute(rows[i], rows[j])
  }

  /** When fresh ids are used, a bulk insert succeeds exactly when no route is taken, in the table or twice
      in the batch; it then adds exactly those rows. */
  lemma {:induction false} CreateManyMeaning(t: Table, rows: seq<Endpoint>)
    requires forall i :: 0 <= i < |rows| ==> rows[i].id !in t
    requires forall i, j :: 0 <= i < j < |rows| ==> rows[i].id != rows[j].id
    ensures CreateMany(t, rows).Some? <==> RoutesFree(t, rows) && RoutesDistinct(rows)
    ensures CreateMany(t, rows).Some? ==>
            var u := CreateMany(t, rows).value;
            && u.Keys == t.Keys + (set i | 0 <= i < |rows| :: rows[i].id)
            && (forall id :: id in t ==> u[id] == t[id])
            && (forall i :: 0 <= i < |rows| ==> u[rows[i].id] == rows[i])
    decreases rows
  {
    if |rows| > 0 {
      var t' := t[rows[0].id := rows[0]];
      var rest := rows[1..];
      assert forall i :: 0 <= i < |rest| ==> rest[i] == rows[i + 1];
      assert forall i :: 0 < i < |rows| ==> rows[i] == rest[i - 1];
      if CanInsert(t, rows[0]) {
        CreateManyMeaning(t', rest);
        CreateManyStep(t, rows);
        assert t'[rows[0].id] == rows[0];
      }
    }
  }

  lemma CreateManyStep(t: Table, rows: seq<Endpoint>)
    requires |rows| > 0 && CanInsert(t, rows[0])
    ensures var t', rest := t[rows[0].id := rows[0]], rows[1..];
            RoutesFree(t', rest) && RoutesDistinct(rest) <==> RoutesFree(t, rows) && RoutesDistinct(rows)
  {
    var t', rest := t[rows[0].id := rows[0]], rows[1..];
    assert forall i :: 0 <= i < |rest| ==> rest[i] == rows[i + 1];
    assert forall i :: 0 < i < |rows| ==> rows[i] == rest[i - 1];
    assert rows[0].id in t';
    assert forall id :: id in t ==> id in t' && t'[id] == t[id];
  }
}
