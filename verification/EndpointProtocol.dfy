/** The endpoint editing protocol: any number of requests whose steps interleave. A step ends at an await; each
    database statement or transaction is one step. */
module EndpointProtocol {
  import opened HttpMethods
  import opened AppMetadata
  import opened Endpoints
  import opened SpecReconciliation
  import opened Projects
  import opened ImportSteps
  import opened EndpointsService

  /** An update request: what the client sent, and the clock when it arrived. */
  datatype UpdateRequest = UpdateRequest(
    projectId: string, id: string, quoted: nat, content: Content, editor: User, nowIso: string, arrivedAt: nat)

  /** A request between two of its steps. An update reads the creator's name with the row. */
  datatype Pending =
    | Arrived(update: UpdateRequest)
    | Loaded(update: UpdateRequest, read: Endpoint, creatorName: string, readAt: nat)
    | Restating(id: string, read: Endpoint, newStatus: Status, user: User)

  /** A committed change as its event reports it, with the row it really replaced. */
  datatype Commit =
    | UpdateCommit(event: Event, overwrote: Endpoint, quoted: nat, readAt: nat)
    | StatusCommit(event: Event)

  /** `clock` is the last write timestamp issued; `used` holds every id ever given to a row, `born` the status
      a row was created with. */
  datatype World = World(
    rows: Table, clock: nat, used: set<string>, born: map<string, Status>, pending: map<nat, Pending>, log: seq<Commit>)

  datatype Step =
    | CreateStep(projectId: string, content: Content, creator: User, nowIso: string, birth: Birth, now: nat)
    | ArriveStep(request: nat, update: UpdateRequest)
    | LoadStep(request: nat, creatorName: string)
    | SaveStep(request: nat, now: nat)
    | LoadStatusStep(request: nat, projectId: string, id: string, newStatus: Status, user: User)
    | SaveStatusStep(request: nat, now: nat)
    | RemoveStep(projectId: string, id: string)
    | ImportStep(sites: seq<Site>, req: Request, answers: Answers, heap: Heap)

  /** What the environment guarantees about a step: validated bodies, fresh request numbers and ids, the clock
      moving forward with every write, a truthful database. */
  ghost predicate Possible(w: World, s: Step)
    requires WellFormed(w.rows)
  {
    match s
    case CreateStep(_, c, _, _, b, now) => Valid(c) && b.id !in w.used && w.clock < now
    case ArriveStep(r, u) => r !in w.pending && Valid(u.content) && u.arrivedAt == w.clock
    case LoadStep(r, _) => r in w.pending && w.pending[r].Arrived?
    case SaveStep(r, now) => r in w.pending && w.pending[r].Loaded? && w.clock < now
    case LoadStatusStep(r, _, _, _, _) => r !in w.pending
    case SaveStatusStep(r, now) => r in w.pending && w.pending[r].Restating? && w.clock < now
    case RemoveStep(_, _) => true
    case ImportStep(sites, req, a, h) =>
      && Setting(w.rows, sites, req, a, h) && w.clock < a.now
      && forall i :: 0 <= i < |a.ids| ==> a.ids[i] !in w.used
  }

  /** A row statement commits: the row is in place, the clock has moved, the request is over. */
  function Committed(w: World, request: nat, e: Endpoint, now: nat, c: Commit): World {
    w.(rows := w.rows[e.id := e], clock := now, pending := w.pending - {request}, log := w.log + [c])
  }

  function Dropped(w: World, request: nat): World {
    w.(pending := w.pending - {request})
  }

  function Created(w: World, projectId: string, c: Content, creator: User, nowIso: string, b: Birth, now: nat): World {
    if RouteTaken(w.rows, projectId, c.path, c.verb, b.id) then w
    else
      var e := CreatedRow(projectId, c, creator, nowIso, b, now);
      w.(rows := w.rows[b.id := e], clock := now, used := w.used + {b.id}, born := w.born[b.id := e.status])
  }

  function Load(w: World, request: nat, creatorName: string): World
    requires request in w.pending && w.pending[request].Arrived?
  {
    var u := w.pending[request].update;
    var found := Find(w.rows, u.projectId, u.id);
    if found.None? then Dropped(w, request)
    else w.(pending := w.pending[request := Loaded(u, found.value, creatorName, w.clock)])
  }

  function Save(w: World, request: nat, now: nat): World
    requires request in w.pending && w.pending[request].Loaded?
  {
    var p := w.pending[request];
    var u := p.update;
    var result := UpdateStatement(w.rows, u.projectId, u.id, u.quoted, p.read, u.content,
                                  p.creatorName, u.editor, u.nowIso, now);
    if result.Err? then Dropped(w, request)
    else Committed(w, request, result.value, now,
                   UpdateCommit(Updated(u.id, p.read, result.value), w.rows[u.id], u.quoted, p.readAt))
  }

  function LoadStatus(w: World, request: nat, projectId: string, id: string, newStatus: Status, user: User): World {
    var found := Find(w.rows, projectId, id);
    if found.None? || found.value.status == newStatus then w
    else w.(pending := w.pending[request := Restating(id, found.value, newStatus, user)])
  }

  function SaveStatus(w: World, request: nat, now: nat): World
    requires request in w.pending && w.pending[request].Restating?
  {
    var p := w.pending[request];
    var result := StatusStatement(w.rows, p.id, p.read.status, p.newStatus, p.user, now);
    if result.Err? then Dropped(w, request)
    else Committed(w, request, result.value, now, StatusCommit(StatusUpdated(p.id, p.read.status, p.newStatus)))
  }

  function Removed(w: World, projectId: string, id: string): World {
    if Find(w.rows, projectId, id).None? then w else w.(rows := w.rows - {id})
  }

  ghost function Imported(w: World, sites: seq<Site>, req: Request, a: Answers, h: Heap): World
    requires Setting(w.rows, sites, req, a, h)
  {
    var after := After(w.rows, sites, req, a, h);
    if after.None? then w
    else w.(rows := after.value, clock := a.now, used := w.used + after.value.Keys,
            born := w.born + Drafts(after.value.Keys - w.rows.Keys))
  }

  function Drafts(ids: set<string>): map<string, Status> {
    map id | id in ids :: Draft
  }

  ghost function Next(w: World, s: Step): World
    requires WellFormed(w.rows) && Possible(w, s)
  {
    match s
    case CreateStep(p, c, creator, nowIso, b, now) => Created(w, p, c, creator, nowIso, b, now)
    case ArriveStep(r, u) => w.(pending := w.pending[r := Arrived(u)])
    case LoadStep(r, creatorName) => Load(w, r, creatorName)
    case SaveStep(r, now) => Save(w, r, now)
    case LoadStatusStep(r, projectId, id, newStatus, user) => LoadStatus(w, r, projectId, id, newStatus, user)
    case SaveStatusStep(r, now) => SaveStatus(w, r, now)
    case RemoveStep(projectId, id) => Removed(w, projectId, id)
    case ImportStep(sites, req, a, h) => Imported(w, sites, req, a, h)
  }

  /** Arrivals and reads touch no row and no other request. An update that finds its endpoint in the project remembers
      the row as it is and the clock, and ends if it does not; a status change goes on only if the row has another
      status. */
  lemma ReadsMeaning(w: World, s: Step)
    requires WellFormed(w.rows) && Possible(w, s) && (s.ArriveStep? || s.LoadStep? || s.LoadStatusStep?)
    ensures var w' := Next(w, s);
            && w' == w.(pending := w'.pending) && w'.pending - {s.request} == w.pending - {s.request}
            && match s
               case ArriveStep(r, u) => r in w'.pending && w'.pending[r] == Arrived(u)
               case LoadStep(r, name) =>
                 var u := w.pending[r].update;
                 if u.id in w.rows && w.rows[u.id].projectId == u.projectId
                 then r in w'.pending && w'.pending[r] == Loaded(u, w.rows[u.id], name, w.clock) else r !in w'.pending
               case LoadStatusStep(r, projectId, id, newStatus, user) =>
                 if id in w.rows && w.rows[id].projectId == projectId && w.rows[id].status != newStatus
                 then r in w'.pending && w'.pending[r] == Restating(id, w.rows[id], newStatus, user) else r !in w'.pending
  {
    hide WellFormed;
  }

  // ---------- what every step keeps ----------

  /** A pending update remembers a row that is still there, or was replaced after the read, or is gone. */
  ghost predicate PendingSound(w: World, p: Pending) {
    match p
    case Arrived(u) => Valid(u.content) && u.arrivedAt <= w.clock
    case Loaded(u, read, _, readAt) =>
      && Valid(u.content) && u.arrivedAt <= readAt <= w.clock
      && u.id in w.used && read.id == u.id && read.updatedAt <= readAt
      && read.projectId == u.projectId && (u.id in w.rows ==> w.rows[u.id].projectId == u.projectId)
      && (u.id in w.rows ==> w.rows[u.id] == read || readAt < w.rows[u.id].updatedAt)
    case Restating(id, read, newStatus, _) => read.id == id && read.status != newStatus
  }

  ghost predicate Sound(w: World) {
    && WellFormed(w.rows) && w.rows.Keys <= w.used
    && (forall id :: id in w.rows ==> w.rows[id].updatedAt <= w.clock)
    && forall r :: r in w.pending ==> PendingSound(w, w.pending[r])
  }

  /** In one step a row stays, or is written with a newer version in its project, or appears under an id never used. */
  ghost predicate Evolves(w: World, w': World) {
    && w.clock <= w'.clock && w.used <= w'.used && w'.rows.Keys <= w'.used
    && (forall id :: id in w'.rows && id in w.rows ==>
          w'.rows[id].projectId == w.rows[id].projectId
          && (w'.rows[id] == w.rows[id] || w.clock < w'.rows[id].updatedAt <= w'.clock))
    && (forall id :: id in w'.rows && id !in w.rows ==> id !in w.used && w'.rows[id].updatedAt <= w'.clock)
  }

  lemma PendingSurvives(w: World, w': World, p: Pending)
    requires Evolves(w, w') && PendingSound(w, p)
    ensures PendingSound(w', p)
  {
  }

  lemma SoundAfter(w: World, w': World)
    requires Sound(w) && Evolves(w, w') && WellFormed(w'.rows)
    requires forall r :: r in w'.pending ==>
               PendingSound(w', w'.pending[r]) || (r in w.pending && w'.pending[r] == w.pending[r])
    ensures Sound(w')
  {
    hide WellFormed, PendingSound;
    forall r | r in w'.pending ensures PendingSound(w', w'.pending[r]) {
      if r in w.pending && w'.pending[r] == w.pending[r] {
        PendingSurvives(w, w', w.pending[r]);
      }
    }
  }

  /** What an import may do to a row that stays. */
  predicate SameButWritten(before: Endpoint, after: Endpoint, now: nat) {
    after.projectId == before.projectId && after.status == before.status && (after == before || after.updatedAt == now)
  }

  lemma ImportedRow(t: Table, sites: seq<Site>, req: Request, a: Answers, h: Heap, id: string)
    requires Setting(t, sites, req, a, h) && After(t, sites, req, a, h).Some?
    requires id in After(t, sites, req, a, h).value
    ensures var u := After(t, sites, req, a, h).value;
            && (id in t ==> SameButWritten(t[id], u[id], a.now))
            && (id !in t ==> id in a.ids && u[id].status == Draft && u[id].updatedAt == a.now)
  {
    hide After, WellFormed, Lists;
    if id in t {
      RowAfter(t, sites, req, a, h, id);
    } else {
      IdsAfter(t, sites, req, a, h);
      NewRowsRoutes(t, sites, req, a, h);
    }
  }

  lemma ImportedRows(t: Table, sites: seq<Site>, req: Request, a: Answers, h: Heap, used: set<string>)
    requires Setting(t, sites, req, a, h) && After(t, sites, req, a, h).Some?
    requires forall i :: 0 <= i < |a.ids| ==> a.ids[i] !in used
    ensures var u := After(t, sites, req, a, h).value;
            && (forall id :: id in u && id in t ==> SameButWritten(t[id], u[id], a.now))
            && (forall id :: id in u && id !in t ==> id !in used && u[id].status == Draft && u[id].updatedAt == a.now)
  {
    hide Setting, After;
    var u := After(t, sites, req, a, h).value;
    forall id | id in u
      ensures id in t ==> SameButWritten(t[id], u[id], a.now)
      ensures id !in t ==> id !in used && u[id].status == Draft && u[id].updatedAt == a.now
    {
      ImportedRow(t, sites, req, a, h, id);
    }
  }

  lemma ImportEvolves(w: World, sites: seq<Site>, req: Request, a: Answers, h: Heap)
    requires Sound(w) && Setting(w.rows, sites, req, a, h) && w.clock < a.now
    requires forall i :: 0 <= i < |a.ids| ==> a.ids[i] !in w.used
    ensures Evolves(w, Imported(w, sites, req, a, h)) && WellFormed(Imported(w, sites, req, a, h).rows)
  {
    hide After, WellFormed, Setting, PendingSound, Drafts, Evolves;
    if After(w.rows, sites, req, a, h).Some? {
      ImportKeepsWellFormed(w.rows, sites, req, a, h);
      ImportedRows(w.rows, sites, req, a, h, w.used);
      TableEvolves(w, Imported(w, sites, req, a, h));
    } else {
      TableEvolves(w, w);
    }
  }

  lemma TableEvolves(w: World, w': World)
    requires Sound(w) && w.clock <= w'.clock && w.used <= w'.used && w'.rows.Keys <= w'.used
    requires forall id :: id in w'.rows && id in w.rows ==>
               w'.rows[id].projectId == w.rows[id].projectId
               && (w'.rows[id] == w.rows[id] || (w.clock < w'.clock && w'.rows[id].updatedAt == w'.clock))
    requires forall id :: id in w'.rows && id !in w.rows ==> id !in w.used && w'.rows[id].updatedAt == w'.clock
    ensures Evolves(w, w')
  {
  }

  lemma WriteEvolves(w: World, e: Endpoint, now: nat)
    requires Sound(w) && e.id in w.rows && e.projectId == w.rows[e.id].projectId && w.clock < now && e.updatedAt == now
    requires e.verb in VALID_HTTP_METHODS
    requires forall id :: id in w.rows && id != e.id ==> !SameRoute(w.rows[id], e)
    ensures Evolves(w, w.(rows := w.rows[e.id := e], clock := now)) && WellFormed(w.rows[e.id := e])
  {
    PutRowKeepsWellFormed(w.rows, e);
    hide WellFormed, PendingSound;
  }

  lemma SaveEvolves(w: World, request: nat, now: nat)
    requires Sound(w) && request in w.pending && w.pending[request].Loaded? && w.clock < now
    ensures Evolves(w, Save(w, request, now)) && WellFormed(Save(w, request, now).rows)
  {
    var p := w.pending[request];
    var u := p.update;
    var result := UpdateStatement(w.rows, u.projectId, u.id, u.quoted, p.read, u.content,
                                  p.creatorName, u.editor, u.nowIso, now);
    if result.Ok? {
      WriteEvolves(w, result.value, now);
    }
  }

  lemma SaveStatusEvolves(w: World, request: nat, now: nat)
    requires Sound(w) && request in w.pending && w.pending[request].Restating? && w.clock < now
    ensures Evolves(w, SaveStatus(w, request, now)) && WellFormed(SaveStatus(w, request, now).rows)
  {
    var p := w.pending[request];
    var result := StatusStatement(w.rows, p.id, p.read.status, p.newStatus, p.user, now);
    if result.Ok? {
      WriteEvolves(w, result.value, now);
    }
  }

  lemma CreateEvolves(w: World, projectId: string, c: Content, creator: User, nowIso: string, b: Birth, now: nat)
    requires Sound(w) && Valid(c) && b.id !in w.used && w.clock < now
    ensures var w' := Created(w, projectId, c, creator, nowIso, b, now);
            Evolves(w, w') && WellFormed(w'.rows)
  {
    hide WellFormed, PendingSound, WithMetadata, NewMetadata;
    if !RouteTaken(w.rows, projectId, c.path, c.verb, b.id) {
      PutRowKeepsWellFormed(w.rows, CreatedRow(projectId, c, creator, nowIso, b, now));
    }
  }

  /** Whatever interleaves with whatever, every step keeps the table well-formed and every pending request's
      memory truthful, and only ever replaces a row by a newer version. */
  lemma StepIsSound(w: World, s: Step)
    requires Sound(w) && Possible(w, s)
    ensures Evolves(w, Next(w, s)) && Sound(Next(w, s))
  {
    hide WellFormed, After, Imported, Save, SaveStatus, Created;
    match s {
      case CreateStep(p, c, creator, nowIso, b, now) => CreateEvolves(w, p, c, creator, nowIso, b, now);
      case SaveStep(r, now) => SaveEvolves(w, r, now);
      case SaveStatusStep(r, now) => SaveStatusEvolves(w, r, now);
      case ImportStep(sites, req, a, h) => ImportEvolves(w, sites, req, a, h);
      case RemoveStep(_, _) => RemoveIsWellFormed(w, s.projectId, s.id);
      case _ =>
    }
    OnlyOwnPending(w, s);
    SoundAfter(w, Next(w, s));
  }

  lemma RemoveIsWellFormed(w: World, projectId: string, id: string)
    requires Sound(w)
    ensures WellFormed(Removed(w, projectId, id).rows)
  {
  }

  lemma OnlyOwnPending(w: World, s: Step)
    requires Sound(w) && Possible(w, s)
    ensures var w' := Next(w, s);
            forall r :: r in w'.pending ==>
              PendingSound(w', w'.pending[r]) || (r in w.pending && w'.pending[r] == w.pending[r])
  {
    hide After, UpdateStatement, StatusStatement, CreatedRow;
  }
}
