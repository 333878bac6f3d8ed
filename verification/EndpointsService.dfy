/** Editing single endpoints: the database statements behind create, update, status change and removal. Each
    method covers one stretch between two awaits, so an update or a status change is a read followed, possibly
    much later, by a conditional write. */
module EndpointsService {
  import opened Wrappers
  import opened Json
  import opened HttpMethods
  import opened AppMetadata
  import opened Endpoints

  datatype WriteError = NotFound | Conflict | Stale

  /** A validated request body: methods come from the list of valid ones, operations are objects. */
  datatype Content = Content(path: string, verb: string, status: Option<Status>, operation: Value)

  predicate Valid(c: Content) {
    c.verb in VALID_HTTP_METHODS && c.operation.Obj?
  }

  /** What the database assigns to a new row. */
  datatype Birth = Birth(id: string, createdAt: string)

  datatype Event =
    | Updated(id: string, before: Endpoint, after: Endpoint)
    | StatusUpdated(id: string, from: Status, to: Status)

  predicate RouteTaken(t: Table, projectId: string, path: string, verb: string, exceptId: string) {
    exists id :: id in t && id != exceptId && t[id].projectId == projectId && RouteOf(t[id]) == Route(path, verb)
  }

  /** The row `create` inserts. */
  function CreatedRow(projectId: string, c: Content, creator: User, nowIso: string, b: Birth, now: nat): Endpoint {
    Endpoint(b.id, projectId, c.path, c.verb, if c.status.Some? then c.status.value else Draft,
             WithMetadata(c.operation, NewMetadata(creator.username, nowIso)), creator.id, b.createdAt, creator.id, now)
  }

  /** The row `update` writes over `target`, its metadata computed from the row read earlier. */
  function UpdatedRow(target: Endpoint, read: Endpoint, c: Content, creatorName: string, editor: User,
                      nowIso: string, now: nat): Endpoint {
    target.(path := c.path, verb := c.verb,
            status := if c.status.Some? then c.status.value else target.status,
            operation := WithMetadata(c.operation,
              SavedMetadata(read.operation, creatorName, read.createdAt, editor.username, nowIso)),
            updatedById := editor.id, updatedAt := now)
  }

  /** `endpoint.update({ where: { id, projectId, updatedAt: lastKnownUpdatedAt } })` */
  function UpdateStatement(t: Table, projectId: string, id: string, lastKnownUpdatedAt: nat, read: Endpoint, c: Content,
                           creatorName: string, editor: User, nowIso: string, now: nat): Result<Endpoint, WriteError> {
    if id !in t || t[id].projectId != projectId || t[id].updatedAt != lastKnownUpdatedAt then Err(Stale)
    else if RouteTaken(t, projectId, c.path, c.verb, id) then Err(Conflict)
    else Ok(UpdatedRow(t[id], read, c, creatorName, editor, nowIso, now))
  }

  /** `endpoint.updateMany({ where: { id, status: currentStatus } })` */
  function StatusStatement(t: Table, id: string, currentStatus: Status, newStatus: Status, user: User, now: nat):
    Result<Endpoint, WriteError>
  {
    if id !in t || t[id].status != currentStatus then Err(Stale)
    else Ok(t[id].(status := newStatus, updatedById := user.id, updatedAt := now))
  }

  function Find(t: Table, projectId: string, id: string): Option<Endpoint> {
    if id in t && t[id].projectId == projectId then Some(t[id]) else None
  }

  lemma RouteTakenMeaning(t: Table, projectId: string, path: string, verb: string, exceptId: string)
    requires WellFormed(t)
    ensures var view := View(t, projectId);
            RouteTaken(t, projectId, path, verb, exceptId) <==>
            Route(path, verb) in view && view[Route(path, verb)].id != exceptId
  {
    hide View, WellFormed;
    var r := Route(path, verb);
    forall id | id in t ensures t[id].projectId == projectId && RouteOf(t[id]) == r <==>
                                r in View(t, projectId) && View(t, projectId)[r].id == id
    {
      ViewAt(t, projectId, r, id);
    }
    ViewAt(t, projectId, r, exceptId);
  }

  /** An update succeeds if and only if the row is in the project at the quoted version and no other endpoint has the
      wanted route. The row then has the submitted route, content and, if one is given, status; the editor and the new
      version; and every other column as it was. */
  lemma UpdateMeaning(t: Table, projectId: string, id: string, lastKnownUpdatedAt: nat, read: Endpoint, c: Content,
                      creatorName: string, editor: User, nowIso: string, now: nat)
    requires WellFormed(t)
    ensures var r, view := UpdateStatement(t, projectId, id, lastKnownUpdatedAt, read, c, creatorName, editor, nowIso, now),
                           View(t, projectId);
            var current := id in t && t[id].projectId == projectId && t[id].updatedAt == lastKnownUpdatedAt;
            && (r.Ok? <==> current && (Route(c.path, c.verb) in view ==> view[Route(c.path, c.verb)].id == id))
            && (r == Err(Stale) <==> !current) && (r.Ok? || r == Err(Stale) || r == Err(Conflict))
            && (r.Ok? ==>
                  var e, was := r.value, t[id];
                  && e.path == c.path && e.verb == c.verb && Stripped(e.operation) == Stripped(c.operation)
                  && e.status == (if c.status.Some? then c.status.value else was.status)
                  && e.updatedById == editor.id && e.updatedAt == now
                  && e.id == id && e.projectId == projectId && e.creatorId == was.creatorId && e.createdAt == was.createdAt)
  {
    hide View, WithMetadata, SavedMetadata, Stripped;
    RowsSitUnderTheirIds(t);
    RouteTakenMeaning(t, projectId, c.path, c.verb, id);
    WrittenMetadataIsInvisible(c.operation,
      SavedMetadata(read.operation, creatorName, read.createdAt, editor.username, nowIso));
  }

  /** A new row is a draft unless a status is submitted, with the submitted route and content; whoever creates it is
      its creator and its last editor. */
  lemma CreatedMeaning(projectId: string, c: Content, creator: User, nowIso: string, b: Birth, now: nat)
    requires Valid(c)
    ensures var e := CreatedRow(projectId, c, creator, nowIso, b, now);
            && e.path == c.path && e.verb == c.verb && Stripped(e.operation) == Stripped(c.operation)
            && e.status == (if c.status.Some? then c.status.value else Draft)
            && e.id == b.id && e.projectId == projectId && e.createdAt == b.createdAt && e.updatedAt == now
            && e.creatorId == e.updatedById == creator.id
            && OriginOf(e.operation) == Some(Origin(Str(creator.username), Str(nowIso)))
            && EditorOf(e.operation) == Some(Editor(Str(creator.username), Str(nowIso)))
  {
    hide OriginIn, EditorIn;
    WrittenMetadataIsInvisible(c.operation, NewMetadata(creator.username, nowIso));
    MadeMetadataOrigin(Str(creator.username), Str(nowIso), creator.username, nowIso);
    MadeMetadataEditor(Str(creator.username), Str(nowIso), creator.username, nowIso);
  }

  /** A status change succeeds if and only if the row still has the status read. */
  lemma StatusMeaning(t: Table, id: string, currentStatus: Status, newStatus: Status, user: User, now: nat)
    ensures var r := StatusStatement(t, id, currentStatus, newStatus, user, now);
            && (r.Ok? <==> id in t && t[id].status == currentStatus) && (r.Err? ==> r.error == Stale)
            && (r.Ok? ==> r.value.status == newStatus && r.value.updatedById == user.id && r.value.updatedAt == now
                          && r.value.(status := currentStatus, updatedById := t[id].updatedById, updatedAt := t[id].updatedAt)
                             == t[id])
  {
  }

  lemma RowsSitUnderTheirIds(t: Table)
    requires WellFormed(t)
    ensures forall id :: id in t ==> t[id].id == id
  {
  }

  class EndpointsService {
    var rows: Table
    var events: seq<Event>

    constructor ()
      ensures rows == map[] && events == []
    {
      rows, events := map[], [];
    }

    method Create(projectId: string, c: Content, creator: User, nowIso: string, b: Birth, now: nat)
      returns (r: Result<Endpoint, WriteError>)
      requires WellFormed(rows) && Valid(c) && b.id !in rows
      modifies this
      ensures WellFormed(rows) && events == old(events)
      ensures r.Ok? <==> Route(c.path, c.verb) !in old(View(rows, projectId))
      ensures match r
              case Ok(e) => e == CreatedRow(projectId, c, creator, nowIso, b, now) && rows == old(rows)[b.id := e]
              case Err(error) => error == Conflict && rows == old(rows)
    {
      hide WellFormed, WithMetadata, NewMetadata, View;
      RouteTakenMeaning(rows, projectId, c.path, c.verb, b.id);
      ViewAt(rows, projectId, Route(c.path, c.verb), b.id);
      if RouteTaken(rows, projectId, c.path, c.verb, b.id) {
        return Err(Conflict);
      }
      var e := CreatedRow(projectId, c, creator, nowIso, b, now);
      PutRowKeepsWellFormed(rows, e);
      rows := rows[b.id := e];
      return Ok(e);
    }

    /** The second half of `update`: write if the row still has the quoted version, and report the change. */
    method SaveUpdate(projectId: string, id: string, lastKnownUpdatedAt: nat, read: Endpoint, c: Content,
                      creatorName: string, editor: User, nowIso: string, now: nat)
      returns (r: Result<Endpoint, WriteError>)
      requires WellFormed(rows) && Valid(c)
      modifies this
      ensures WellFormed(rows)
      ensures r == old(UpdateStatement(rows, projectId, id, lastKnownUpdatedAt, read, c, creatorName, editor, nowIso, now))
      ensures r.Ok? ==>
                && r.value.path == c.path && r.value.verb == c.verb && Stripped(r.value.operation) == Stripped(c.operation)
                && r.value.status == (if c.status.Some? then c.status.value else old(rows)[id].status)
                && r.value.updatedById == editor.id && r.value.updatedAt == now
      ensures r.Ok? ==> rows == old(rows)[id := r.value] && events == old(events) + [Updated(id, read, r.value)]
      ensures r.Err? ==> rows == old(rows) && events == old(events)
    {
      hide WellFormed, WithMetadata, SavedMetadata, Stripped;
      UpdateMeaning(rows, projectId, id, lastKnownUpdatedAt, read, c, creatorName, editor, nowIso, now);
      if id !in rows || rows[id].projectId != projectId || rows[id].updatedAt != lastKnownUpdatedAt {
        return Err(Stale);
      }
      RowsSitUnderTheirIds(rows);
      if RouteTaken(rows, projectId, c.path, c.verb, id) {
        return Err(Conflict);
      }
      var metadata := SavedMetadata(read.operation, creatorName, read.createdAt, editor.username, nowIso);
      var e := rows[id].(path := c.path, verb := c.verb, operation := WithMetadata(c.operation, metadata),
                         updatedById := editor.id, updatedAt := now);
      if c.status.Some? {
        e := e.(status := c.status.value);
      }
      PutRowKeepsWellFormed(rows, e);
      rows := rows[id := e];
      events := events + [Updated(id, read, e)];
      return Ok(e);
    }

    /** `updateStatus` after its read: nothing to do if the status is already right, else write if the status is
        still the one read, and report the change. */
    method SaveStatus(id: string, read: Endpoint, newStatus: Status, user: User, now: nat)
      returns (r: Result<Endpoint, WriteError>)
      requires WellFormed(rows)
      modifies this
      ensures WellFormed(rows)
      ensures read.status == newStatus ==> r == Ok(read) && rows == old(rows) && events == old(events)
      ensures read.status != newStatus ==> r == old(StatusStatement(rows, id, read.status, newStatus, user, now))
      ensures r.Ok? && read.status != newStatus ==>
                rows == old(rows)[id := r.value] && events == old(events) + [StatusUpdated(id, read.status, newStatus)]
      ensures r.Err? ==> rows == old(rows) && events == old(events)
    {
      if read.status == newStatus {
        return Ok(read);
      }
      if id !in rows || rows[id].status != read.status {
        return Err(Stale);
      }
      var e := rows[id].(status := newStatus, updatedById := user.id, updatedAt := now);
      rows := rows[id := e];
      events := events + [StatusUpdated(id, read.status, newStatus)];
      return Ok(e);
    }

    method Remove(projectId: string, id: string) returns (r: Result<Endpoint, WriteError>)
      requires WellFormed(rows)
      modifies this
      ensures WellFormed(rows) && events == old(events)
      ensures if id in old(rows) && old(rows)[id].projectId == projectId
              then r == Ok(old(rows)[id]) && rows == old(rows) - {id}
              else r == Err(NotFound) && rows == old(rows)
    {
      if id !in rows || rows[id].projectId != projectId {
        return Err(NotFound);
      }
      r := Ok(rows[id]);
      rows := rows - {id};
    }
  }
}
