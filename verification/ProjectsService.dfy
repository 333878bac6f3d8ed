/** Importing an OpenAPI document: reconcile, then delete, create and update rows in one transaction. */
module Projects {
  import opened Wrappers
  import opened Json
  import opened HttpMethods
  import opened Endpoints
  import opened SpecReconciliation

  datatype Project = Project(name: string, nameNormalized: string, updatedById: string, updatedAt: nat)

  datatype Tables = Tables(projects: map<string, Project>, endpoints: Table)

  datatype ImportError = ConcurrencyError | ConflictError

  datatype Request = Request(projectId: string, title: string, lastKnownUpdatedAt: nat, user: User, nowIso: string)

  /** What the database contributes: the project's rows in some order, ids for new rows, and its clock. */
  datatype Answers = Answers(listing: seq<Endpoint>, ids: seq<string>, createdAt: string, now: nat)

  function NewRow(n: NewEndpoint, id: string, operation: Value, a: Answers): Endpoint {
    Endpoint(id, n.projectId, n.path, n.verb, Draft, operation, n.creatorId, a.createdAt, n.updatedById, a.now)
  }

  function Edited(e: Endpoint, operation: Value, updatedById: string, now: nat): Endpoint {
    e.(operation := operation, updatedById := updatedById, updatedAt := now)
  }

  ghost function NewRows(news: seq<NewEndpoint>, f: Heap, a: Answers): (r: seq<Endpoint>)
    requires |news| <= |a.ids|
    requires forall n :: n in news ==> n.operation in f
    ensures |r| == |news|
  {
    seq(|news|, i requires 0 <= i < |news| => assert news[i] in news; NewRow(news[i], a.ids[i], f[news[i].operation], a))
  }

  /** `toUpdate.map(u => tx.endpoint.update(...))` */
  ghost function UpdateMany(t: Table, updates: seq<EndpointToUpdate>, f: Heap, now: nat): (r: Table)
    requires forall u :: u in updates ==> u.id in t && u.operation in f
    ensures r.Keys == t.Keys
  {
    if |updates| == 0 then t
    else
      var last := updates[|updates| - 1];
      var before := UpdateMany(t, updates[..|updates| - 1], f, now);
      before[last.id := Edited(before[last.id], f[last.operation], last.updatedById, now)]
  }

  /** What the objects of the document hold once the engine has run. */
  ghost function Final(sites: seq<Site>, c: Context): (f: Heap)
    requires Covers(c.h, sites)
    ensures f.Keys == c.h.Keys
  {
    map r | r in c.h :: Replay(Writes(sites, c), r, c.h[r])
  }

  ghost predicate NameTaken(projects: map<string, Project>, projectId: string, title: string) {
    exists id :: id in projects && id != projectId && projects[id].nameNormalized == ToLower(title)
  }

  ghost function ContextOf(req: Request, a: Answers, h: Heap): Context {
    Context(ByKey(a.listing), h, req.user, req.nowIso)
  }

  ghost function Doomed(sites: seq<Site>, req: Request, a: Answers, h: Heap): seq<string>
    requires Covers(h, sites)
  {
    Unseen(KeyOrder(a.listing), ByKey(a.listing), SeenKeys(sites, h))
  }

  /** The database answers a project's import truthfully: its rows, and ids nobody uses. */
  ghost predicate Truthful(t: Table, sites: seq<Site>, req: Request, a: Answers) {
    && Lists(a.listing, t, req.projectId)
    && |sites| <= |a.ids|
    && (forall i :: 0 <= i < |a.ids| ==> a.ids[i] !in t)
    && forall i, j :: 0 <= i < j < |a.ids| ==> a.ids[i] != a.ids[j]
  }

  // ---------- the index of existing rows ----------

  ghost predicate DistinctKeys(rows: seq<Endpoint>) {
    forall i, j :: 0 <= i < j < |rows| ==> KeyOf(rows[i]) != KeyOf(rows[j])
  }

  lemma ListingHasDistinctKeys(rows: seq<Endpoint>, t: Table, projectId: string)
    requires WellFormed(t) && Lists(rows, t, projectId)
    ensures DistinctKeys(rows)
  {
    forall i, j | 0 <= i < j < |rows| ensures KeyOf(rows[i]) != KeyOf(rows[j]) {
      var e, f := rows[i], rows[j];
      assert e in rows && f in rows;
      assert !SameRoute(t[e.id], t[f.id]);
      ValidMethodIsPlain(e.verb);
      ValidMethodIsPlain(f.verb);
      EndpointKeyIsInjective(e.verb, e.path, f.verb, f.path);
    }
  }

  lemma {:induction false} ByKeyMeaning(rows: seq<Endpoint>)
    requires DistinctKeys(rows)
    ensures forall e :: e in rows ==> KeyOf(e) in ByKey(rows) && ByKey(rows)[KeyOf(e)] == e
    ensures forall k :: k in ByKey(rows) ==> ByKey(rows)[k] in rows && KeyOf(ByKey(rows)[k]) == k
  {
    if |rows| > 0 {
      var init, last := rows[..|rows| - 1], rows[|rows| - 1];
      ByKeyMeaning(init);
      assert rows == init + [last];
      forall e | e in init ensures KeyOf(e) != KeyOf(last) {
        var i :| 0 <= i < |init| && init[i] == e;
        assert rows[i] == e;
      }
    }
  }

  lemma {:induction false} UnseenMeaning(order: seq<string>, byKey: map<string, Endpoint>, seen: set<string>)
    requires forall k :: k in order ==> k in byKey
    ensures forall id :: id in Unseen(order, byKey, seen) <==> exists k :: k in order && k !in seen && byKey[k].id == id
  {
    if |order| > 0 {
      var init, last := order[..|order| - 1], order[|order| - 1];
      UnseenMeaning(init, byKey, seen);
      assert order == init + [last];
    }
  }

  /** A listed row is deleted exactly when the document has no accepted operation under its key. */
  lemma DoomedMeaning(t: Table, sites: seq<Site>, req: Request, a: Answers, h: Heap)
    requires WellFormed(t) && Lists(a.listing, t, req.projectId) && Covers(h, sites)
    ensures forall id :: id in Doomed(sites, req, a, h) <==>
            id in t && t[id].projectId == req.projectId && KeyOf(t[id]) !in SeenKeys(sites, h)
  {
    var rows, seen := a.listing, SeenKeys(sites, h);
    ListingHasDistinctKeys(rows, t, req.projectId);
    ByKeyMeaning(rows);
    UnseenMeaning(KeyOrder(rows), ByKey(rows), seen);
    forall id ensures id in Doomed(sites, req, a, h) <==>
            id in t && t[id].projectId == req.projectId && KeyOf(t[id]) !in seen
    {
      if id in Doomed(sites, req, a, h) {
        var k :| k in KeyOrder(rows) && k !in seen && ByKey(rows)[k].id == id;
        assert t[id] == ByKey(rows)[k];
      }
      if id in t && t[id].projectId == req.projectId && KeyOf(t[id]) !in seen {
        assert t[id] in rows;
        assert KeyOf(t[id]) in KeyOrder(rows);
      }
    }
  }

  // ---------- the transaction ----------

  lemma CreatesHold(sites: seq<Site>, c: Context, projectId: string)
    requires Covers(c.h, sites)
    ensures forall n :: n in ToCreate(sites, c, projectId) ==> n.operation in c.h && n.projectId == projectId
    ensures |ToCreate(sites, c, projectId)| <= |sites|
  {
    PickIsShorter(sites, c, Create);
    var picked := Pick(sites, c, Create);
    forall n | n in ToCreate(sites, c, projectId) ensures n.operation in c.h && n.projectId == projectId {
      var i :| 0 <= i < |picked| && ToCreate(sites, c, projectId)[i] == n;
      assert picked[i] in picked;
    }
  }

  lemma {:induction false} PickIsShorter(sites: seq<Site>, c: Context, d: Decision)
    requires Covers(c.h, sites)
    ensures |Pick(sites, c, d)| <= |sites|
  {
    if |sites| > 0 {
      PickIsShorter(sites[..|sites| - 1], c, d);
    }
  }

  /** Every update names a stored row with an accepted key, which the preceding statements leave alone. */
  lemma UpdatesHold(t: Table, sites: seq<Site>, req: Request, a: Answers, h: Heap)
    requires WellFormed(t) && Lists(a.listing, t, req.projectId) && Covers(h, sites)
    ensures forall u :: u in ToUpdate(sites, ContextOf(req, a, h)) ==>
              u.operation in h && u.id in DeleteMany(t, Doomed(sites, req, a, h))
  {
    var c := ContextOf(req, a, h);
    var picked := Pick(sites, c, Update);
    ListingHasDistinctKeys(a.listing, t, req.projectId);
    ByKeyMeaning(a.listing);
    DoomedMeaning(t, sites, req, a, h);
    forall u | u in ToUpdate(sites, c) ensures u.operation in h && u.id in DeleteMany(t, Doomed(sites, req, a, h)) {
      var i :| 0 <= i < |picked| && ToUpdate(sites, c)[i] == u;
      assert picked[i] in picked;
      assert SiteKey(picked[i]) in SeenKeys(sites, h);
      assert t[u.id] == ByKey(a.listing)[SiteKey(picked[i])];
    }
  }

  lemma CreateManyGrows(t: Table, rows: seq<Endpoint>)
    requires CreateMany(t, rows).Some?
    ensures t.Keys <= CreateMany(t, rows).value.Keys
    decreases rows
  {
  }

  /** The statements of the transaction: delete, create, then update. */
  ghost function Statements(t: Table, doomed: seq<string>, creates: seq<NewEndpoint>, updates: seq<EndpointToUpdate>,
                            f: Heap, a: Answers): Option<Table>
    requires |creates| <= |a.ids|
    requires forall n :: n in creates ==> n.operation in f
    requires forall u :: u in updates ==> u.operation in f && u.id in DeleteMany(t, doomed)
  {
    var created := CreateMany(DeleteMany(t, doomed), NewRows(creates, f, a));
    if created.None? then None
    else
      CreateManyGrows(DeleteMany(t, doomed), NewRows(creates, f, a));
      Some(UpdateMany(created.value, updates, f, a.now))
  }

  ghost predicate Current(h: Heap)
    reads h.Keys
  {
    forall r :: r in h ==> r.value == h[r]
  }

  method RunStatements(t: Table, doomed: seq<string>, creates: seq<NewEndpoint>, updates: seq<EndpointToUpdate>,
                       ghost f: Heap, a: Answers) returns (tx: Option<Table>)
    requires |creates| <= |a.ids| && Current(f)
    requires forall n :: n in creates ==> n.operation in f
    requires forall u :: u in updates ==> u.operation in f && u.id in DeleteMany(t, doomed)
    ensures tx == Statements(t, doomed, creates, updates, f, a)
  {
    var rows: seq<Endpoint> := [];
    for i := 0 to |creates|
      invariant rows == NewRows(creates, f, a)[..i]
    {
      assert creates[i] in creates;
      rows := rows + [NewRow(creates[i], a.ids[i], creates[i].operation.value, a)];
    }
    assert rows == NewRows(creates, f, a);
    var created := CreateMany(DeleteMany(t, doomed), rows);
    if created.None? {
      return None;
    }
    CreateManyGrows(DeleteMany(t, doomed), rows);
    var table := created.value;
    for i := 0 to |updates|
      invariant forall u :: u in updates ==> u.id in created.value
      invariant table == UpdateMany(created.value, updates[..i], f, a.now)
    {
      var u := updates[i];
      assert u in updates;
      assert updates[..i + 1][..i] == updates[..i];
      table := table[u.id := Edited(table[u.id], u.operation.value, u.updatedById, a.now)];
    }
    assert updates[..|updates|] == updates;
    tx := Some(table);
  }

  /** `importOpenApiSpec` from the version check to the commit, on values. */
  ghost function Import(db: Tables, sites: seq<Site>, req: Request, a: Answers, h: Heap): Result<Tables, ImportError>
    requires WellFormed(db.endpoints) && Covers(h, sites) && Truthful(db.endpoints, sites, req, a)
  {
    if req.projectId !in db.projects || db.projects[req.projectId].updatedAt != req.lastKnownUpdatedAt
    then Err(ConcurrencyError)
    else
      var c := ContextOf(req, a, h);
      CreatesHold(sites, c, req.projectId);
      UpdatesHold(db.endpoints, sites, req, a, h);
      var after := Statements(db.endpoints, Doomed(sites, req, a, h), ToCreate(sites, c, req.projectId),
                              ToUpdate(sites, c), Final(sites, c), a);
      if after.None? || NameTaken(db.projects, req.projectId, req.title) then Err(ConflictError)
      else Ok(Tables(db.projects[req.projectId := Renamed(req, a)], after.value))
  }

  function Renamed(req: Request, a: Answers): Project {
    Project(req.title, ToLower(req.title), req.user.id, a.now)
  }

  /** Every project's normalised name is its name in lower case, and no two are equal. */
  ghost predicate NamesDiffer(projects: map<string, Project>) {
    && (forall id :: id in projects ==> projects[id].nameNormalized == ToLower(projects[id].name))
    && forall i, j :: i in projects && j in projects && i != j ==> projects[i].nameNormalized != projects[j].nameNormalized
  }

  /** Names that are equal up to case stay impossible, whatever is imported. */
  lemma ImportKeepsNamesDifferent(db: Tables, sites: seq<Site>, req: Request, a: Answers, h: Heap)
    requires WellFormed(db.endpoints) && Covers(h, sites) && Truthful(db.endpoints, sites, req, a)
    requires NamesDiffer(db.projects) && Import(db, sites, req, a, h).Ok?
    ensures NamesDiffer(Import(db, sites, req, a, h).value.projects)
  {
    hide Statements, WellFormed, Truthful;
    var after := Import(db, sites, req, a, h).value.projects;
    assert after == db.projects[req.projectId := Renamed(req, a)];
    forall id | id in db.projects && id != req.projectId ensures db.projects[id].nameNormalized != ToLower(req.title) {
    }
  }

  /** A title that is another project's name up to case is refused. */
  lemma TakenTitleConflicts(db: Tables, sites: seq<Site>, req: Request, a: Answers, h: Heap, other: string)
    requires WellFormed(db.endpoints) && Covers(h, sites) && Truthful(db.endpoints, sites, req, a)
    requires NamesDiffer(db.projects) && other in db.projects && other != req.projectId
    requires req.projectId in db.projects && db.projects[req.projectId].updatedAt == req.lastKnownUpdatedAt
    requires ToLower(db.projects[other].name) == ToLower(req.title)
    ensures Import(db, sites, req, a, h) == Err(ConflictError)
  {
    hide Statements, WellFormed, Truthful;
  }

  /** The service and the tables it works on. */
  class ProjectsService {
    var projects: map<string, Project>
    var endpoints: Table

    constructor ()
      ensures projects == map[] && endpoints == map[]
    {
      projects, endpoints := map[], map[];
    }

    function State(): Tables
      reads this
    {
      Tables(projects, endpoints)
    }

    /** `importOpenApiSpec` on an already dereferenced and linted document: either the whole import is
        committed, or an error is returned and no row has changed. */
    method ImportOpenApiSpec(paths: seq<PathItem>, req: Request, a: Answers) returns (error: Option<ImportError>)
      requires WellFormed(endpoints) && Truthful(endpoints, Sites(paths), req, a)
      modifies this, Refs(Sites(paths))
      ensures var result := old(Import(State(), Sites(paths), req, a, Snapshot(Refs(Sites(paths)))));
              match result
              case Ok(after) => error == None && State() == after && (NamesDiffer(old(projects)) ==> NamesDiffer(projects))
              case Err(e) => error == Some(e) && State() == old(State())
    {
      hide Statements, ToCreate, ToUpdate, Writes, DeleteMany, WellFormed, Unseen, KeyOrder, Replay;
      if req.projectId !in projects || projects[req.projectId].updatedAt != req.lastKnownUpdatedAt {
        return Some(ConcurrencyError);
      }
      ghost var sites, h := Sites(paths), Snapshot(Refs(Sites(paths)));
      ghost var c := ContextOf(req, a, h);
      CreatesHold(sites, c, req.projectId);
      UpdatesHold(endpoints, sites, req, a, h);
      var toCreate, toUpdate, toDeleteIds := Reconcile(a.listing, paths, req.user, req.projectId, req.nowIso);
      var tx := RunStatements(endpoints, toDeleteIds, toCreate, toUpdate, Final(sites, c), a);
      if tx.None?
         || exists id :: id in projects && id != req.projectId && projects[id].nameNormalized == ToLower(req.title) {
        return Some(ConflictError);
      }
      if NamesDiffer(projects) {
        ImportKeepsNamesDifferent(State(), sites, req, a, h);
      }
      projects := projects[req.projectId := Renamed(req, a)];
      endpoints := tx.value;
      return None;
    }
  }
}
