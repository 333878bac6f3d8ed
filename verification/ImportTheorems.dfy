/** What an import achieves: it reaches the document, changes no more than it must, and settles after one round. */
module ImportTheorems {
  import opened Wrappers
  import opened Sequences
  import opened Json
  import opened HttpMethods
  import opened AppMetadata
  import opened Endpoints
  import opened SpecReconciliation
  import opened Projects
  import opened ImportSteps
  import opened OpenApiSpecBuilder

  ghost function Wanted(sites: seq<Site>, h: Heap): set<Route>
    requires Covers(h, sites)
  {
    set s | s in sites && Accepted(s, h) :: SiteRoute(s)
  }

  lemma ServedContent(e: Endpoint, s: Site, sites: seq<Site>, c: Context)
    requires Covers(c.h, sites) && s in sites && Accepted(s, c.h) && Serves(e, s, sites, c)
    ensures Comparable(e.operation) == Comparable(c.h[s.ref])
    ensures Decide(s, c) != Keep ==> Stripped(e.operation) == Stripped(c.h[s.ref])
  {
    ReplayIsInvisible(Writes(sites, c), s.ref, c.h[s.ref]);
    if Decide(s, c) == Keep {
      SameContentMeaning(e.operation, c.h[s.ref]);
    }
  }

  lemma SiteIsServed(t: Table, sites: seq<Site>, req: Request, a: Answers, h: Heap, s: Site) returns (id: string)
    requires Setting(t, sites, req, a, h) && After(t, sites, req, a, h).Some? && CaseDistinct(sites, h)
    requires s in sites && Accepted(s, h)
    ensures var c, u := ContextOf(req, a, h), After(t, sites, req, a, h).value;
            && id in u && u[id].projectId == req.projectId && Serves(u[id], s, sites, c)
            && (id in t <==> SiteKey(s) in c.byKey)
            && (id in t ==> t[id] == c.byKey[SiteKey(s)])
  {
    if SiteKey(s) in ByKey(a.listing) {
      id := OldRowServes(t, sites, req, a, h, s);
    } else {
      id := NewRowServes(t, sites, req, a, h, s);
    }
  }

  /** Apply-after-diff reaches the target: the import succeeds, its project then has exactly one endpoint per
      accepted operation and no other, each with the content of that operation; other projects are untouched. */
  lemma ImportReachesDocument(t: Table, sites: seq<Site>, req: Request, a: Answers, h: Heap)
    requires Setting(t, sites, req, a, h) && CaseDistinct(sites, h)
    ensures After(t, sites, req, a, h).Some?
    ensures var u := After(t, sites, req, a, h).value;
            && WellFormed(u)
            && View(u, req.projectId).Keys == Wanted(sites, h)
            && (forall s :: s in sites && Accepted(s, h) && SiteRoute(s) in View(u, req.projectId) ==>
                  Comparable(View(u, req.projectId)[SiteRoute(s)].operation) == Comparable(h[s.ref]))
            && (forall id :: (id in t && t[id].projectId != req.projectId) || (id in u && u[id].projectId != req.projectId)
                  ==> id in t && id in u && u[id] == t[id])
  {
    var c := ContextOf(req, a, h);
    CaseDistinctNeverClashes(sites, c);
    ImportClashesIff(t, sites, req, a, h);
    ImportKeepsWellFormed(t, sites, req, a, h);
    var u := After(t, sites, req, a, h).value;
    OtherProjectsKeep(t, sites, req, a, h);
    ProjectReachesDocument(t, sites, req, a, h);
  }

  lemma ProjectReachesDocument(t: Table, sites: seq<Site>, req: Request, a: Answers, h: Heap)
    requires Setting(t, sites, req, a, h) && CaseDistinct(sites, h)
    requires After(t, sites, req, a, h).Some? && WellFormed(After(t, sites, req, a, h).value)
    ensures var view := View(After(t, sites, req, a, h).value, req.projectId);
            && view.Keys == Wanted(sites, h)
            && forall s :: s in sites && Accepted(s, h) && SiteRoute(s) in view ==>
                 Comparable(view[SiteRoute(s)].operation) == Comparable(h[s.ref])
  {
    hide After, WellFormed, View, CaseDistinct, Truthful, Comparable;
    var c, u := ContextOf(req, a, h), After(t, sites, req, a, h).value;
    var view := View(u, req.projectId);
    ViewMeaning(u, req.projectId);
    forall s | s in sites && Accepted(s, h)
      ensures SiteRoute(s) in view && Comparable(view[SiteRoute(s)].operation) == Comparable(h[s.ref])
    {
      var id := SiteIsServed(t, sites, req, a, h, s);
      ServedContent(u[id], s, sites, c);
    }
    forall r | r in view ensures r in Wanted(sites, h) {
      var id :| id in u && u[id].projectId == req.projectId && RouteOf(u[id]) == r;
      var s := RowHasSite(t, sites, req, a, h, id);
    }
  }

  lemma OtherProjectsKeep(t: Table, sites: seq<Site>, req: Request, a: Answers, h: Heap)
    requires Setting(t, sites, req, a, h) && After(t, sites, req, a, h).Some?
    ensures var u := After(t, sites, req, a, h).value;
            forall id :: (id in t && t[id].projectId != req.projectId) || (id in u && u[id].projectId != req.projectId)
              ==> id in t && id in u && u[id] == t[id]
  {
    hide After, WellFormed, Lists;
    var u, rows := After(t, sites, req, a, h).value, RowsToCreate(sites, req, a, h);
    IdsAfter(t, sites, req, a, h);
    NewRowsRoutes(t, sites, req, a, h);
    forall id | id in t ensures t[id].projectId != req.projectId ==> id in u && u[id] == t[id] {
      RowAfter(t, sites, req, a, h, id);
    }
    forall id | id in t && id in u ensures u[id].projectId == t[id].projectId {
      RowAfter(t, sites, req, a, h, id);
    }
  }

  /** The whole transaction commits exactly when the project has the quoted version, no new path has two method keys
      equal up to case, and no other project has the document's title in lower case; it then renames the project
      and stamps it, and no other project changes. */
  lemma ImportCommitsIff(db: Tables, sites: seq<Site>, req: Request, a: Answers, h: Heap)
    requires Setting(db.endpoints, sites, req, a, h)
    ensures Import(db, sites, req, a, h).Ok? <==>
            && req.projectId in db.projects && db.projects[req.projectId].updatedAt == req.lastKnownUpdatedAt
            && !SameKeyTwice(sites, ContextOf(req, a, h), Create)
            && (forall id :: id in db.projects && id != req.projectId ==>
                  db.projects[id].nameNormalized != ToLower(req.title))
    ensures Import(db, sites, req, a, h).Ok? ==>
              var after := Import(db, sites, req, a, h).value;
              && After(db.endpoints, sites, req, a, h) == Some(after.endpoints)
              && after.projects.Keys == db.projects.Keys
              && (forall id :: id in db.projects && id != req.projectId ==> after.projects[id] == db.projects[id])
              && after.projects[req.projectId] == Project(req.title, ToLower(req.title), req.user.id, a.now)
    ensures Import(db, sites, req, a, h) == Err(ConcurrencyError) <==>
            req.projectId !in db.projects || db.projects[req.projectId].updatedAt != req.lastKnownUpdatedAt
  {
    ImportClashesIff(db.endpoints, sites, req, a, h);
  }

  // ---------- diff, apply, print ----------

  /** The change test cannot tell these two operations apart although they differ: it drops whatever is not an
      object, so an array, or another non-object, looks like an operation without content. */
  predicate Blurred(stored: Value, incoming: Value) {
    && Stripped(stored) != Stripped(incoming)
    && !(stored.Obj? && incoming.Obj?)
    && Comparable(stored) == Obj([]) == Comparable(incoming)
  }

  lemma BlurredMeaning(stored: Value, incoming: Value)
    ensures Blurred(stored, incoming) <==>
            Comparable(stored) == Comparable(incoming) && Stripped(stored) != Stripped(incoming)
  {
  }

  /** The document printed from the project's rows says about a route what the imported one said. */
  ghost predicate PrintsAs(rows: seq<Endpoint>, s: Site, h: Heap)
    requires s.ref in h
  {
    var printed := Lookup(Paths(rows), s.path, ToLower(s.key));
    printed.Some? && Stripped(printed.value) == Stripped(h[s.ref])
  }

  lemma ListingRoutes(rows: seq<Endpoint>, t: Table, projectId: string)
    requires WellFormed(t) && Lists(rows, t, projectId)
    ensures forall i, j :: 0 <= i < j < |rows| ==> RouteOf(rows[i]) != RouteOf(rows[j])
    ensures forall e :: e in rows ==> ToLower(e.verb) == e.verb && e.verb in VALID_HTTP_METHODS
  {
    forall e | e in rows ensures ToLower(e.verb) == e.verb && e.verb in VALID_HTTP_METHODS {
      ValidMethodIsPlain(t[e.id].verb);
    }
    forall i, j | 0 <= i < j < |rows| ensures RouteOf(rows[i]) != RouteOf(rows[j]) {
      assert rows[i] in rows && rows[j] in rows;
      assert !SameRoute(t[rows[i].id], t[rows[j].id]);
    }
  }

  lemma ServedIsPrinted(t: Table, sites: seq<Site>, req: Request, a: Answers, h: Heap, rows: seq<Endpoint>, s: Site)
    requires Setting(t, sites, req, a, h) && After(t, sites, req, a, h).Some? && CaseDistinct(sites, h)
    requires Lists(rows, After(t, sites, req, a, h).value, req.projectId)
    requires s in sites && Accepted(s, h)
    ensures var c := ContextOf(req, a, h);
            PrintsAs(rows, s, h) <==> !(SiteKey(s) in c.byKey && Blurred(c.byKey[SiteKey(s)].operation, h[s.ref]))
  {
    var c, u := ContextOf(req, a, h), After(t, sites, req, a, h).value;
    ImportKeepsWellFormed(t, sites, req, a, h);
    ListingRoutes(rows, u, req.projectId);
    var id := SiteIsServed(t, sites, req, a, h, s);
    ServedContent(u[id], s, sites, c);
    LastOperationMeaning(rows, u[id]);
    PathsLookup(rows, s.path, ToLower(s.key));
    if SiteKey(s) in c.byKey {
      BlurredMeaning(c.byKey[SiteKey(s)].operation, h[s.ref]);
      SameContentMeaning(c.byKey[SiteKey(s)].operation, h[s.ref]);
    }
  }

  /** Diff, apply, print is the identity up to metadata: the document built from the rows after an import has
      exactly the accepted routes, and each prints as it was imported, exactly when no stored operation was
      blurred with its incoming one. Between JSON objects nothing is ever blurred. */
  lemma ImportThenBuild(t: Table, sites: seq<Site>, req: Request, a: Answers, h: Heap, rows: seq<Endpoint>)
    requires Setting(t, sites, req, a, h) && CaseDistinct(sites, h)
    requires After(t, sites, req, a, h).Some? && Lists(rows, After(t, sites, req, a, h).value, req.projectId)
    ensures forall path, verb :: Lookup(Paths(rows), path, verb).Some? <==> Route(path, verb) in Wanted(sites, h)
    ensures (forall s :: s in sites && Accepted(s, h) ==> PrintsAs(rows, s, h)) <==>
            (forall s :: s in sites && Accepted(s, h) && SiteKey(s) in ByKey(a.listing) ==>
               !Blurred(ByKey(a.listing)[SiteKey(s)].operation, h[s.ref]))
    ensures Tidy(Paths(rows))
  {
    hide After, WellFormed, Truthful, Lookup, Paths, LastOperation, Blurred, Tidy, CaseDistinct;
    var c, u := ContextOf(req, a, h), After(t, sites, req, a, h).value;
    PathsAreTidy(rows);
    ImportKeepsWellFormed(t, sites, req, a, h);
    ListingRoutes(rows, u, req.projectId);
    forall s | s in sites && Accepted(s, h)
      ensures PrintsAs(rows, s, h) <==> !(SiteKey(s) in c.byKey && Blurred(c.byKey[SiteKey(s)].operation, h[s.ref]))
      ensures Lookup(Paths(rows), s.path, ToLower(s.key)).Some?
    {
      ServedIsPrinted(t, sites, req, a, h, rows, s);
      var id := SiteIsServed(t, sites, req, a, h, s);
      LastOperationMeaning(rows, u[id]);
      PathsLookup(rows, s.path, ToLower(s.key));
    }
    forall path, verb | Lookup(Paths(rows), path, verb).Some? ensures Route(path, verb) in Wanted(sites, h) {
      PathsLookup(rows, path, verb);
      LastOperationHasRow(rows, path, verb);
      var e :| e in rows && e.path == path && ToLower(e.verb) == verb;
      var s := RowHasSite(t, sites, req, a, h, e.id);
      assert SiteRoute(s) == Route(path, verb);
    }
  }

  /** Two arrays look alike to the change test, whatever they hold. */
  lemma ArraysAreBlurred(stored: seq<Value>, incoming: seq<Value>)
    ensures Blurred(Arr(stored), Arr(incoming)) <==> stored != incoming
  {
  }

  ghost predicate HoldsObjects(t: Table, projectId: string) {
    forall id :: id in t && t[id].projectId == projectId ==> t[id].operation.Obj?
  }

  ghost predicate BringsObjects(sites: seq<Site>, h: Heap)
    requires Covers(h, sites)
  {
    forall s :: s in sites && Accepted(s, h) ==> h[s.ref].Obj?
  }

  /** When operations are objects, as linting sees to, every accepted one prints as it was imported, and operations
      are objects afterwards too. */
  lemma ObjectsPrintAsImported(t: Table, sites: seq<Site>, req: Request, a: Answers, h: Heap, rows: seq<Endpoint>)
    requires Setting(t, sites, req, a, h) && CaseDistinct(sites, h)
    requires After(t, sites, req, a, h).Some? && Lists(rows, After(t, sites, req, a, h).value, req.projectId)
    requires HoldsObjects(t, req.projectId) && BringsObjects(sites, h)
    ensures forall s :: s in sites && Accepted(s, h) ==> PrintsAs(rows, s, h)
    ensures HoldsObjects(After(t, sites, req, a, h).value, req.projectId)
  {
    hide After, WellFormed, CaseDistinct, PrintsAs;
    var c, u := ContextOf(req, a, h), After(t, sites, req, a, h).value;
    ListingHasDistinctKeys(a.listing, t, req.projectId);
    ByKeyMeaning(a.listing);
    forall s | s in sites && Accepted(s, h) && SiteKey(s) in c.byKey
      ensures !Blurred(c.byKey[SiteKey(s)].operation, h[s.ref])
    {
      assert c.byKey[SiteKey(s)] in a.listing;
    }
    ImportThenBuild(t, sites, req, a, h, rows);
    forall id | id in u && u[id].projectId == req.projectId ensures u[id].operation.Obj? {
      ObjectsStay(t, sites, req, a, h, id);
    }
  }

  lemma ObjectsStayObjects(sites: seq<Site>, c: Context)
    requires Covers(c.h, sites)
    ensures forall r :: r in c.h ==> Final(sites, c)[r].Obj? == c.h[r].Obj?
  {
    forall r | r in c.h ensures Final(sites, c)[r].Obj? == c.h[r].Obj? {
      ReplayIsInvisible(Writes(sites, c), r, c.h[r]);
    }
  }

  lemma ObjectsStay(t: Table, sites: seq<Site>, req: Request, a: Answers, h: Heap, id: string)
    requires Setting(t, sites, req, a, h) && After(t, sites, req, a, h).Some?
    requires HoldsObjects(t, req.projectId) && BringsObjects(sites, h)
    requires id in After(t, sites, req, a, h).value && After(t, sites, req, a, h).value[id].projectId == req.projectId
    ensures After(t, sites, req, a, h).value[id].operation.Obj?
  {
    hide After, WellFormed, Lists, Accepted, Final;
    ObjectsStayObjects(sites, ContextOf(req, a, h));
    if id in t {
      RowAfter(t, sites, req, a, h, id);
    } else {
      NewRowsHoldObjects(t, sites, req, a, h);
      hide HoldsObjects, BringsObjects, RowsToCreate, Doomed;
      IdsAfter(t, sites, req, a, h);
    }
  }

  lemma NewRowsHoldObjects(t: Table, sites: seq<Site>, req: Request, a: Answers, h: Heap)
    requires Setting(t, sites, req, a, h) && BringsObjects(sites, h)
    ensures forall i :: 0 <= i < |RowsToCreate(sites, req, a, h)| ==> RowsToCreate(sites, req, a, h)[i].operation.Obj?
  {
    hide WellFormed, Lists, Accepted, Final, RowsToCreate;
    var c := ContextOf(req, a, h);
    var rows, picked := RowsToCreate(sites, req, a, h), Pick(sites, c, Create);
    ObjectsStayObjects(sites, c);
    NewRowsRoutes(t, sites, req, a, h);
    forall i | 0 <= i < |rows| ensures rows[i].operation.Obj? {
      assert picked[i] in picked;
    }
  }

  // ---------- reconciliation settles ----------

  /** Nothing is created, or updated, exactly when no entry is so decided. */
  lemma NothingDecided(sites: seq<Site>, c: Context, projectId: string)
    requires Covers(c.h, sites)
    ensures ToCreate(sites, c, projectId) == [] <==> forall s :: s in sites ==> Decide(s, c) != Create
    ensures ToUpdate(sites, c) == [] <==> forall s :: s in sites ==> Decide(s, c) != Update
  {
    hide Decide;
    PickMembers(sites, c, Create);
    PickMembers(sites, c, Update);
    var creates, updates := Pick(sites, c, Create), Pick(sites, c, Update);
    assert |creates| > 0 ==> creates[0] in creates;
    assert |updates| > 0 ==> updates[0] in updates;
  }

  lemma ListedRowIsIndexed(t: Table, rows: seq<Endpoint>, projectId: string, s: Site, id: string)
    requires WellFormed(t) && Lists(rows, t, projectId) && id in t && t[id].projectId == projectId
    requires ToLower(s.key) in VALID_HTTP_METHODS && SiteRoute(s) == RouteOf(t[id])
    ensures SiteKey(s) in ByKey(rows) && ByKey(rows)[SiteKey(s)] == t[id]
  {
    ListingHasDistinctKeys(rows, t, projectId);
    ByKeyMeaning(rows);
    KeyMatchesRoute(s, t[id]);
  }

  /** Accepted entries with the same key have the same content. */
  ghost predicate TwinsAgree(sites: seq<Site>, h: Heap)
    requires Covers(h, sites)
  {
    forall s, s' :: s in sites && s' in sites && Accepted(s, h) && Accepted(s', h) && SiteKey(s) == SiteKey(s') ==>
      Comparable(h[s.ref]) == Comparable(h[s'.ref])
  }

  /** After an import the row under an accepted key holds the content of some accepted entry with that key. */
  lemma RowHoldsSomeTwin(t: Table, sites: seq<Site>, req: Request, a: Answers, h: Heap, s: Site)
    returns (id: string, twin: Site)
    requires Setting(t, sites, req, a, h) && After(t, sites, req, a, h).Some?
    requires s in sites && Accepted(s, h)
    ensures var u := After(t, sites, req, a, h).value;
            && id in u && u[id].projectId == req.projectId && RouteOf(u[id]) == SiteRoute(s)
            && twin in sites && Accepted(twin, h) && SiteKey(twin) == SiteKey(s)
            && Comparable(u[id].operation) == Comparable(h[twin.ref])
  {
    hide After, WellFormed, Comparable, Final;
    var c := ContextOf(req, a, h);
    twin := s;
    if SiteKey(s) in c.byKey {
      var e := c.byKey[SiteKey(s)];
      IndexHoldsRows(t, sites, req, a, h, SiteKey(s));
      id := e.id;
      KeyMatchesRoute(s, e);
      RowAfter(t, sites, req, a, h, id);
      var last := LastRewriter(sites, c, e);
      if last.Some? {
        twin := last.value;
        FinalContent(sites, c, twin);
      } else {
        assert !Rewrites(s, sites, c, e);
        SameContentMeaning(e.operation, h[s.ref]);
      }
    } else {
      id := NewRowServes(t, sites, req, a, h, s);
      FinalContent(sites, c, s);
    }
  }

  lemma IndexHoldsRows(t: Table, sites: seq<Site>, req: Request, a: Answers, h: Heap, k: string)
    requires Setting(t, sites, req, a, h) && k in ByKey(a.listing)
    ensures var e := ByKey(a.listing)[k];
            e.id in t && t[e.id] == e && e.projectId == req.projectId && KeyOf(e) == k && e.verb in VALID_HTTP_METHODS
  {
    ListingHasDistinctKeys(a.listing, t, req.projectId);
    ByKeyMeaning(a.listing);
    var e := ByKey(a.listing)[k];
    assert e in a.listing && t[e.id].verb == e.verb;
  }

  lemma FinalContent(sites: seq<Site>, c: Context, s: Site)
    requires Covers(c.h, sites) && s in sites
    ensures Comparable(Final(sites, c)[s.ref]) == Comparable(c.h[s.ref])
  {
    ReplayIsInvisible(Writes(sites, c), s.ref, c.h[s.ref]);
  }

  /** How a later import of the same document judges an entry. */
  lemma JudgedAgain(t: Table, sites: seq<Site>, req: Request, a: Answers, h: Heap, again: Request, b: Answers, s: Site)
    returns (twin: Site)
    requires Setting(t, sites, req, a, h) && After(t, sites, req, a, h).Some?
    requires again.projectId == req.projectId && Lists(b.listing, After(t, sites, req, a, h).value, req.projectId)
    requires s in sites && Accepted(s, h)
    ensures var c := ContextOf(again, b, h);
            && SiteKey(s) in c.byKey
            && twin in sites && Accepted(twin, h) && SiteKey(twin) == SiteKey(s)
            && Comparable(c.byKey[SiteKey(s)].operation) == Comparable(h[twin.ref])
            && Decide(s, c) == if Comparable(h[s.ref]) == Comparable(h[twin.ref]) then Keep else Update
  {
    hide After, WellFormed, Lists, Comparable;
    var u, id := After(t, sites, req, a, h).value, "";
    ImportKeepsWellFormed(t, sites, req, a, h);
    id, twin := RowHoldsSomeTwin(t, sites, req, a, h, s);
    ListedRowIsIndexed(u, b.listing, req.projectId, s, id);
    SameContentMeaning(u[id].operation, h[s.ref]);
  }

  /** Importing the same document again finds nothing to create or to delete; and nothing to update if and only if
      entries whose method keys are equal up to case have equal content. */
  lemma ImportSettlesIff(t: Table, sites: seq<Site>, req: Request, a: Answers, h: Heap, again: Request, b: Answers)
    requires Setting(t, sites, req, a, h) && After(t, sites, req, a, h).Some?
    requires again.projectId == req.projectId && Lists(b.listing, After(t, sites, req, a, h).value, req.projectId)
    ensures ToCreate(sites, ContextOf(again, b, h), req.projectId) == []
    ensures Doomed(sites, again, b, h) == []
    ensures ToUpdate(sites, ContextOf(again, b, h)) == [] <==> TwinsAgree(sites, h)
  {
    hide After, WellFormed, Lists, Comparable, Doomed, SiteKey;
    var c := ContextOf(again, b, h);
    forall s | s in sites
      ensures Decide(s, c) != Create
      ensures TwinsAgree(sites, h) ==> Decide(s, c) != Update
    {
      if Accepted(s, h) {
        var twin := JudgedAgain(t, sites, req, a, h, again, b, s);
      }
    }
    NothingDecided(sites, c, req.projectId);
    if forall s :: s in sites ==> Decide(s, c) != Update {
      forall s, s' | s in sites && s' in sites && Accepted(s, h) && Accepted(s', h) && SiteKey(s) == SiteKey(s')
        ensures Comparable(h[s.ref]) == Comparable(h[s'.ref])
      {
        var twin := JudgedAgain(t, sites, req, a, h, again, b, s);
        var twin' := JudgedAgain(t, sites, req, a, h, again, b, s');
      }
    }
    NothingIsDoomedAgain(t, sites, req, a, h, again, b);
  }

  lemma NothingIsDoomedAgain(t: Table, sites: seq<Site>, req: Request, a: Answers, h: Heap, again: Request, b: Answers)
    requires Setting(t, sites, req, a, h) && After(t, sites, req, a, h).Some?
    requires again.projectId == req.projectId && Lists(b.listing, After(t, sites, req, a, h).value, req.projectId)
    ensures Doomed(sites, again, b, h) == []
  {
    hide After;
    var u := After(t, sites, req, a, h).value;
    ImportKeepsWellFormed(t, sites, req, a, h);
    DoomedMeaning(u, sites, again, b, h);
    if |Doomed(sites, again, b, h)| > 0 {
      var id := Doomed(sites, again, b, h)[0];
      assert id in Doomed(sites, again, b, h);
      var s := RowHasSite(t, sites, req, a, h, id);
      KeyMatchesRoute(s, u[id]);
      assert false;
    }
  }

  /** A document without method keys equal up to case settles after one import. */
  lemma ImportSettles(t: Table, sites: seq<Site>, req: Request, a: Answers, h: Heap, again: Request, b: Answers)
    requires Setting(t, sites, req, a, h) && CaseDistinct(sites, h)
    requires After(t, sites, req, a, h).Some?
    requires again.projectId == req.projectId && Lists(b.listing, After(t, sites, req, a, h).value, req.projectId)
    ensures ToCreate(sites, ContextOf(again, b, h), req.projectId) == []
    ensures ToUpdate(sites, ContextOf(again, b, h)) == []
    ensures Doomed(sites, again, b, h) == []
  {
    hide After, ToCreate, ToUpdate, Doomed, Lists, WellFormed;
    forall s, s' | s in sites && s' in sites && Accepted(s, h) && Accepted(s', h) && SiteKey(s) == SiteKey(s')
      ensures s == s'
    {
      SameKeySameSite(sites, h, s, s');
    }
    ImportSettlesIff(t, sites, req, a, h, again, b);
  }

  const OLD_ROW := Endpoint("e", "p", "/a", "get", Draft, Sample("old"), "ann", "0", "ann", 0)

  const OLD_LISTING := Answers([OLD_ROW], ["2", "3"], "1", 1)

  /** Two operations for one method of one path. */
  function TwinSites(o: JsonRef, o': JsonRef): seq<Site> {
    [Site("/a", "get", o), Site("/a", "GET", o')]
  }

  ghost function TwinHeap(o: JsonRef, o': JsonRef): Heap {
    map[o := Sample("one"), o' := Sample("four")]
  }

  lemma TwinSetting(o: JsonRef, o': JsonRef, req: Request)
    requires o != o' && req.projectId == "p"
    ensures var t, sites, h := map["e" := OLD_ROW], TwinSites(o, o'), TwinHeap(o, o');
            && Setting(t, sites, req, OLD_LISTING, h) && ByKey([OLD_ROW]) == map[KeyOf(OLD_ROW) := OLD_ROW]
            && forall s :: s in sites ==> Accepted(s, h) && SiteKey(s) == KeyOf(OLD_ROW)
  {
    hide Sample, Get;
    TwinsAreAccepted(o, o');
    hide Accepted, SiteKey, KeyOf;
    assert [OLD_ROW][..0] == [];
    assert ByKey([OLD_ROW]) == map[KeyOf(OLD_ROW) := OLD_ROW];
    assert Lists([OLD_ROW], map["e" := OLD_ROW], "p") by { assert [OLD_ROW][0] == OLD_ROW; }
    assert "e" != "2" && "e" != "3" && "2" != "3" by { assert "e"[0] != "2"[0] && "e"[0] != "3"[0] && "2"[0] != "3"[0]; }
  }

  lemma TwinsAreAccepted(o: JsonRef, o': JsonRef)
    requires o != o'
    ensures Covers(TwinHeap(o, o'), TwinSites(o, o'))
    ensures forall s :: s in TwinSites(o, o') ==> Accepted(s, TwinHeap(o, o')) && SiteKey(s) == KeyOf(OLD_ROW)
  {
    hide Sample, Get;
    SampleMeaning("one");
    SampleMeaning("four");
    assert ToLower("GET") == "get" && ToLower("get") == "get";
  }

  /** A document that gives the existing path `/a` operations under `get` and `GET` is imported, and every later
      import of it, by anyone, finds the endpoint to be updated again. */
  lemma TwinsNeverSettle(o: JsonRef, o': JsonRef, req: Request, again: Request, b: Answers)
    requires o != o' && req.projectId == again.projectId == "p"
    ensures var t, sites, h := map["e" := OLD_ROW], TwinSites(o, o'), TwinHeap(o, o');
            && Setting(t, sites, req, OLD_LISTING, h) && After(t, sites, req, OLD_LISTING, h).Some?
            && (Lists(b.listing, After(t, sites, req, OLD_LISTING, h).value, "p") ==>
                  Covers(h, sites) && ToUpdate(sites, ContextOf(again, b, h)) != [])
  {
    hide Sample, After, Comparable, Accepted, SiteKey, Lists;
    var t, sites, h := map["e" := OLD_ROW], TwinSites(o, o'), TwinHeap(o, o');
    TwinSetting(o, o', req);
    ImportClashesIff(t, sites, req, OLD_LISTING, h);
    TwinsDiffer(o, o');
    if Lists(b.listing, After(t, sites, req, OLD_LISTING, h).value, "p") {
      ImportSettlesIff(t, sites, req, OLD_LISTING, h, again, b);
    }
  }

  lemma TwinsDiffer(o: JsonRef, o': JsonRef)
    requires o != o'
    requires forall s :: s in TwinSites(o, o') ==> Accepted(s, TwinHeap(o, o')) && SiteKey(s) == KeyOf(OLD_ROW)
    ensures !TwinsAgree(TwinSites(o, o'), TwinHeap(o, o'))
  {
    hide Comparable, SiteKey, Accepted;
    SampleMeaning("one");
    SampleMeaning("four");
    assert |"one"| != |"four"|;
    assert Sample("one").fields[0] != Sample("four").fields[0];
    var sites := TwinSites(o, o');
    assert sites[0] in sites && sites[1] in sites;
  }

  /** The sites of a document are the entries of its printed `paths`. */
  ghost predicate Mirrors(sites: seq<Site>, h: Heap, paths: seq<Field>) {
    && Covers(h, sites)
    && (forall s :: s in sites ==> Lookup(paths, s.path, s.key) == Some(h[s.ref]))
    && forall path, verb :: Lookup(paths, path, verb).Some? ==> exists s :: s in sites && s.path == path && s.key == verb
  }

  /** The document's objects spell out `fields`, in the same order. */
  ghost predicate SpellsOut(paths: seq<PathItem>, h: Heap, fields: seq<Field>) {
    && |paths| == |fields|
    && forall i :: 0 <= i < |paths| ==> ItemSpellsOut(paths[i], h, fields[i])
  }

  ghost predicate ItemSpellsOut(item: PathItem, h: Heap, f: Field) {
    && item.path == f.key && f.value.Obj? && |item.entries| == |f.value.fields|
    && forall j :: 0 <= j < |item.entries| ==>
         var e, g := item.entries[j], f.value.fields[j];
         e.key == g.key && e.operation in h && h[e.operation] == g.value
  }

  lemma {:induction false} SitesComeFromItems(paths: seq<PathItem>, s: Site)
    ensures s in Sites(paths) <==> exists i :: 0 <= i < |paths| && s in ItemSites(paths[i])
  {
    if |paths| > 0 {
      var init, last := paths[..|paths| - 1], paths[|paths| - 1];
      SitesComeFromItems(init, s);
      if i :| 0 <= i < |init| && s in ItemSites(init[i]) {
        assert s in ItemSites(paths[i]);
      }
    }
  }

  lemma ItemMirrors(item: PathItem, h: Heap, f: Field)
    requires ItemSpellsOut(item, h, f) && DistinctNames(f.value.fields)
    ensures forall s :: s in ItemSites(item) ==>
              s.path == f.key && s.ref in h && Get(f.value.fields, s.key) == Some(h[s.ref])
    ensures forall verb :: Has(f.value.fields, verb) ==> exists s :: s in ItemSites(item) && s.key == verb
  {
    var fields := f.value.fields;
    forall s | s in ItemSites(item) ensures s.path == f.key && s.ref in h && Get(fields, s.key) == Some(h[s.ref]) {
      var j :| 0 <= j < |ItemSites(item)| && ItemSites(item)[j] == s;
      assert item.entries[j].key == fields[j].key && h[item.entries[j].operation] == fields[j].value;
      GetDistinct(fields, fields[j]);
    }
    forall verb | Has(fields, verb) ensures exists s :: s in ItemSites(item) && s.key == verb {
      var j :| 0 <= j < |fields| && fields[j] == Field(verb, Get(fields, verb).value);
      assert item.entries[j].key == verb;
      assert ItemSites(item)[j].key == verb;
    }
  }

  /** A document read from a tidy text has one entry for every printed operation and no other. */
  lemma ReadDocumentMirrors(paths: seq<PathItem>, h: Heap, fields: seq<Field>)
    requires SpellsOut(paths, h, fields) && Tidy(fields)
    ensures Mirrors(Sites(paths), h, fields)
  {
    hide ItemSpellsOut, ItemSites, DistinctNames;
    var sites := Sites(paths);
    forall s | s in sites ensures s.ref in h && Lookup(fields, s.path, s.key) == Some(h[s.ref]) {
      SitesComeFromItems(paths, s);
      var i :| 0 <= i < |paths| && s in ItemSites(paths[i]);
      assert ItemSpellsOut(paths[i], h, fields[i]) && fields[i] in fields;
      ItemMirrors(paths[i], h, fields[i]);
      GetDistinct(fields, fields[i]);
    }
    forall path, verb | Lookup(fields, path, verb).Some?
      ensures exists s :: s in sites && s.path == path && s.key == verb
    {
      assert Has(fields, path);
      var i :| 0 <= i < |fields| && fields[i] == Field(path, Get(fields, path).value);
      assert ItemSpellsOut(paths[i], h, fields[i]) && fields[i] in fields;
      ItemMirrors(paths[i], h, fields[i]);
      assert Has(fields[i].value.fields, verb);
      var s :| s in ItemSites(paths[i]) && s.key == verb;
      SitesComeFromItems(paths, s);
    }
  }

  lemma MirroredSite(t: Table, sites: seq<Site>, req: Request, a: Answers, h: Heap, rows: seq<Endpoint>, s: Site)
    requires WellFormed(t) && Lists(a.listing, t, req.projectId) && Lists(rows, t, req.projectId)
    requires Mirrors(sites, h, Paths(rows)) && s in sites
    ensures exists e :: e in rows && SiteRoute(s) == RouteOf(e) && ToLower(s.key) in VALID_HTTP_METHODS
                        && SiteKey(s) == KeyOf(e) && h[s.ref] == e.operation
    ensures Decide(s, ContextOf(req, a, h)) == if Operable(h[s.ref]) then Keep else Ignore
  {
    ListingRoutes(rows, t, req.projectId);
    PathsLookup(rows, s.path, s.key);
    LastOperationHasRow(rows, s.path, s.key);
    var e :| e in rows && e.path == s.path && ToLower(e.verb) == s.key;
    LastOperationMeaning(rows, e);
    LowerIsIdempotent(e.verb);
    KeyMatchesRoute(s, e);
    ListedRowIsIndexed(t, a.listing, req.projectId, s, e.id);
  }

  /** Re-importing a project's own printed document creates and updates nothing, and deletes exactly the rows
      whose operation is not an object or array, or carries a top-level `$ref`. */
  lemma ImportingOwnBuild(t: Table, paths: seq<PathItem>, req: Request, a: Answers, h: Heap, rows: seq<Endpoint>)
    requires WellFormed(t) && Lists(a.listing, t, req.projectId) && Lists(rows, t, req.projectId)
    requires SpellsOut(paths, h, Paths(rows))
    ensures Covers(h, Sites(paths))
    ensures ToCreate(Sites(paths), ContextOf(req, a, h), req.projectId) == []
    ensures ToUpdate(Sites(paths), ContextOf(req, a, h)) == []
    ensures forall id :: id in Doomed(Sites(paths), req, a, h) <==>
              id in t && t[id].projectId == req.projectId && !Operable(t[id].operation)
  {
    var sites, c := Sites(paths), ContextOf(req, a, h);
    PathsAreTidy(rows);
    ReadDocumentMirrors(paths, h, Paths(rows));
    forall s | s in sites ensures Decide(s, c) == if Operable(h[s.ref]) then Keep else Ignore {
      MirroredSite(t, sites, req, a, h, rows, s);
    }
    NothingDecided(sites, c, req.projectId);
    DoomedMeaning(t, sites, req, a, h);
    forall id | id in t && t[id].projectId == req.projectId
      ensures KeyOf(t[id]) in SeenKeys(sites, h) <==> Operable(t[id].operation)
    {
      OwnRowIsSeen(t, sites, req, a, h, rows, id);
    }
  }

  const REF_ROW := Endpoint("e", "p", "/a", "get", Draft, Obj([Field("$ref", Null)] + Sample("s").fields),
                            "ann", "0", "ann", 0)

  /** A project whose one operation carries a `$ref` that is no reference, which resolving leaves in place, loses it by
      importing its own printed document. */
  lemma RefRowIsDeleted(o: JsonRef, req: Request, a: Answers)
    requires req.projectId == "p" && a.listing == [REF_ROW]
    ensures var paths, h := [PathItem("/a", [Entry("get", o)])], One(o, REF_ROW.operation);
            && SpellsOut(paths, h, Paths([REF_ROW])) && Covers(h, Sites(paths))
            && "e" in Doomed(Sites(paths), req, a, h)
  {
    var t, rows := map["e" := REF_ROW], [REF_ROW];
    var paths, h := [PathItem("/a", [Entry("get", o)])], One(o, REF_ROW.operation);
    ValidMethodIsPlain("get");
    assert rows[..0] == [] && rows[0] == REF_ROW;
    assert Paths(rows) == [Field("/a", Obj([Field("get", REF_ROW.operation)]))];
    ImportingOwnBuild(t, paths, req, a, h, rows);
  }

  lemma OwnRowIsSeen(t: Table, sites: seq<Site>, req: Request, a: Answers, h: Heap, rows: seq<Endpoint>, id: string)
    requires WellFormed(t) && Lists(a.listing, t, req.projectId) && Lists(rows, t, req.projectId)
    requires Mirrors(sites, h, Paths(rows))
    requires id in t && t[id].projectId == req.projectId
    ensures KeyOf(t[id]) in SeenKeys(sites, h) <==> Operable(t[id].operation)
  {
    var e := t[id];
    ListingRoutes(rows, t, req.projectId);
    if Operable(e.operation) {
      LastOperationMeaning(rows, e);
      PathsLookup(rows, e.path, e.verb);
      var s :| s in sites && s.path == e.path && s.key == e.verb;
      assert Accepted(s, h) && SiteKey(s) == KeyOf(e);
    }
    if KeyOf(e) in SeenKeys(sites, h) {
      var s :| s in sites && Accepted(s, h) && SiteKey(s) == KeyOf(e);
      MirroredSite(t, sites, req, a, h, rows, s);
      KeyMatchesRoute(s, e);
      var f :| f in rows && SiteRoute(s) == RouteOf(f) && h[s.ref] == f.operation;
      assert f == e by {
        assert !SameRoute(t[e.id], t[f.id]) || e.id == f.id;
      }
    }
  }

  // ---------- conservation and minimality ----------

  lemma {:induction false} KeyOrderHasNoDuplicates(rows: seq<Endpoint>)
    ensures NoDuplicates(KeyOrder(rows))
  {
    if |rows| > 0 {
      var init, last := rows[..|rows| - 1], rows[|rows| - 1];
      KeyOrderHasNoDuplicates(init);
      if KeyOf(last) !in ByKey(init) {
        NoDuplicatesSnoc(KeyOrder(init), KeyOf(last));
      } else {
        assert KeyOrder(rows) == KeyOrder(init);
      }
    }
  }

  lemma {:induction false} UnseenHasNoDuplicates(order: seq<string>, byKey: map<string, Endpoint>, seen: set<string>)
    requires NoDuplicates(order) && forall k :: k in order ==> k in byKey
    requires forall k, k' :: k in order && k' in order && k != k' ==> byKey[k].id != byKey[k'].id
    ensures NoDuplicates(Unseen(order, byKey, seen))
  {
    if |order| > 0 {
      var init, last := order[..|order| - 1], order[|order| - 1];
      assert order == init + [last];
      UnseenHasNoDuplicates(init, byKey, seen);
      if last in seen {
        assert Unseen(order, byKey, seen) == Unseen(init, byKey, seen);
      } else {
        UnseenMeaning(init, byKey, seen);
        NoDuplicatesSnoc(Unseen(init, byKey, seen), byKey[last].id);
      }
    }
  }

  lemma DoomedHasNoDuplicates(t: Table, sites: seq<Site>, req: Request, a: Answers, h: Heap)
    requires WellFormed(t) && Lists(a.listing, t, req.projectId) && Covers(h, sites)
    ensures NoDuplicates(Doomed(sites, req, a, h))
  {
    var rows := a.listing;
    ListingHasDistinctKeys(rows, t, req.projectId);
    ByKeyMeaning(rows);
    KeyOrderHasNoDuplicates(rows);
    forall k, k' | k in ByKey(rows) && k' in ByKey(rows) && k != k' ensures ByKey(rows)[k].id != ByKey(rows)[k'].id {
      var e, f := ByKey(rows)[k], ByKey(rows)[k'];
      assert e in rows && f in rows && t[e.id] == e && t[f.id] == f;
    }
    UnseenHasNoDuplicates(KeyOrder(rows), ByKey(rows), SeenKeys(sites, h));
  }

  lemma {:induction false} DistinctCount(ids: seq<string>)
    requires NoDuplicates(ids)
    ensures |set id | id in ids| == |ids|
  {
    if |ids| > 0 {
      var init, last := ids[..|ids| - 1], ids[|ids| - 1];
      DistinctCount(init);
      assert ids == init + [last];
      assert (set id | id in ids) == (set id | id in init) + {last};
    }
  }

  /** Conservation and minimality. Every row of the project is either deleted or survives; a survivor keeps its
      id, route, status, creator and creation date, and is rewritten only where the document's content differs;
      new routes are new and pairwise distinct; the number of endpoints changes by creates minus deletes. */
  lemma ImportIsMinimal(t: Table, sites: seq<Site>, req: Request, a: Answers, h: Heap)
    requires Setting(t, sites, req, a, h) && After(t, sites, req, a, h).Some?
    ensures var u, rows := After(t, sites, req, a, h).value, RowsToCreate(sites, req, a, h);
            var c, doomed := ContextOf(req, a, h), Doomed(sites, req, a, h);
            && (forall id :: id in t ==> (id in doomed <==> id !in u))
            && (forall id :: id in t && id in u ==>
                  && u[id] == t[id].(operation := u[id].operation, updatedById := u[id].updatedById,
                                     updatedAt := u[id].updatedAt)
                  && (u[id] == t[id] || exists s :: s in sites && Rewrites(s, sites, c, t[id])
                                                    && Comparable(t[id].operation) != Comparable(h[s.ref])))
            && RoutesFree(t, rows) && RoutesDistinct(rows)
            && |u| == |t| - |doomed| + |rows|
  {
    var u, rows := After(t, sites, req, a, h).value, RowsToCreate(sites, req, a, h);
    var c, doomed := ContextOf(req, a, h), Doomed(sites, req, a, h);
    ImportClashesIff(t, sites, req, a, h);
    NewRowsAreFree(t, sites, req, a, h);
    forall id | id in t
      ensures id in doomed <==> id !in u
      ensures id in u ==>
        && u[id] == t[id].(operation := u[id].operation, updatedById := u[id].updatedById, updatedAt := u[id].updatedAt)
        && (u[id] == t[id] || exists s :: s in sites && Rewrites(s, sites, c, t[id])
                                          && Comparable(t[id].operation) != Comparable(h[s.ref]))
    {
      SurvivorIsMinimal(t, sites, req, a, h, id);
    }
    CountAfter(t, sites, req, a, h);
  }

  lemma SurvivorIsMinimal(t: Table, sites: seq<Site>, req: Request, a: Answers, h: Heap, id: string)
    requires Setting(t, sites, req, a, h) && After(t, sites, req, a, h).Some? && id in t
    ensures var u, c := After(t, sites, req, a, h).value, ContextOf(req, a, h);
            && (id in Doomed(sites, req, a, h) <==> id !in u)
            && (id in u ==>
                  && u[id] == t[id].(operation := u[id].operation, updatedById := u[id].updatedById,
                                     updatedAt := u[id].updatedAt)
                  && (u[id] == t[id] || exists s :: s in sites && Rewrites(s, sites, c, t[id])
                                                    && Comparable(t[id].operation) != Comparable(h[s.ref])))
  {
    hide After;
    var u, c := After(t, sites, req, a, h).value, ContextOf(req, a, h);
    DoomedMeaning(t, sites, req, a, h);
    RowAfter(t, sites, req, a, h, id);
    if id in u && u[id] != t[id] {
      var s := LastRewriter(sites, c, t[id]).value;
      ListingHasDistinctKeys(a.listing, t, req.projectId);
      ByKeyMeaning(a.listing);
      assert t[id] in a.listing;
      SameContentMeaning(t[id].operation, h[s.ref]);
    }
  }

  lemma SetCount(before: set<string>, gone: set<string>, added: set<string>)
    requires gone <= before && added !! before
    ensures |(before - gone) + added| == |before| - |gone| + |added|
  {
    assert |before - gone| == |before| - |gone|;
  }

  lemma FirstIds(ids: seq<string>, n: nat)
    requires n <= |ids| && NoDuplicates(ids)
    ensures |set i | 0 <= i < n :: ids[i]| == n
  {
    var used := ids[..n];
    DistinctCount(used);
    assert forall i :: 0 <= i < n ==> used[i] == ids[i];
    assert (set i | 0 <= i < n :: ids[i]) == set id | id in used;
  }

  lemma CountAfter(t: Table, sites: seq<Site>, req: Request, a: Answers, h: Heap)
    requires Setting(t, sites, req, a, h) && After(t, sites, req, a, h).Some?
    ensures |After(t, sites, req, a, h).value|
         == |t| - |Doomed(sites, req, a, h)| + |RowsToCreate(sites, req, a, h)|
  {
    hide After, Doomed, RowsToCreate, WellFormed, Lists;
    var u, rows, doomed := After(t, sites, req, a, h).value, RowsToCreate(sites, req, a, h), Doomed(sites, req, a, h);
    IdsAfter(t, sites, req, a, h);
    DoomedMeaning(t, sites, req, a, h);
    DoomedHasNoDuplicates(t, sites, req, a, h);
    DistinctCount(doomed);
    FirstIds(a.ids, |rows|);
    SetCount(t.Keys, (set id | id in doomed), (set i | 0 <= i < |rows| :: a.ids[i]));
    assert |u| == |u.Keys| && |t| == |t.Keys|;
  }
}
