/** Who created an endpoint, over every run of the editing protocol. */
module EndpointOrigins {
  import opened Wrappers
  import opened Json
  import opened HttpMethods
  import opened AppMetadata
  import opened Endpoints
  import opened SpecReconciliation
  import opened Projects
  import opened ImportSteps
  import opened ImportTheorems
  import opened ImportProvenance
  import opened EndpointsService
  import opened EndpointProtocol
  import opened EndpointRuns

  // ---------- what an update under way can still do ----------

  /** The provenance an update will record if it commits. */
  function Recorded(p: Pending): Option<Origin>
    requires p.Loaded?
  {
    OriginIn(SavedMetadata(p.read.operation, p.creatorName, p.read.createdAt, p.update.editor.username, p.update.nowIso))
  }

  /** The version an update quotes has been issued, and its row is gone or has another one: it can never commit. */
  ghost predicate Hopeless(w: World, p: Pending)
    requires p.Loaded?
  {
    p.update.id in w.rows ==> p.update.quoted <= w.clock && p.update.quoted != w.rows[p.update.id].updatedAt
  }

  /** No update of the endpoint that can still commit would record another origin. */
  ghost predicate UpdatesAgree(w: World, id: string, o: Origin) {
    forall r :: r in w.pending && w.pending[r].Loaded? && w.pending[r].update.id == id ==>
      Recorded(w.pending[r]) == Some(o) || Hopeless(w, w.pending[r])
  }

  /** The endpoint, if it lives, carries this origin, and no update under way threatens it. */
  ghost predicate Remembers(w: World, id: string, o: Origin) {
    && id in w.used
    && (id in w.rows ==> OriginOf(w.rows[id].operation) == Some(o))
    && UpdatesAgree(w, id, o)
  }

  /** If the step is an import into the endpoint's project, the endpoint's row comes out of it undisturbed. */
  ghost predicate Considerate(w: World, s: Step, id: string) {
    s.ImportStep? && Covers(s.heap, s.sites) && id in w.rows && w.rows[id].projectId == s.req.projectId ==>
      Undisturbed(w.rows[id], s.sites, ContextOf(s.req, s.answers, s.heap))
  }

  /** In particular imports whose written operations are pairwise distinct objects are considerate of everybody. */
  lemma UnsharedIsConsiderate(w: World, s: Step, id: string)
    requires s.ImportStep? && Covers(s.heap, s.sites)
    requires Unshared(s.sites, ContextOf(s.req, s.answers, s.heap))
    requires ObjectsOnly(s.sites, ContextOf(s.req, s.answers, s.heap))
    ensures Considerate(w, s, id)
  {
    hide Unshared, Decide;
    var c := ContextOf(s.req, s.answers, s.heap);
    if id in w.rows {
      var last := LastRewriter(s.sites, c, w.rows[id]);
      if last.Some? {
        UnsharedIsOwnWriter(s.sites, c, last.value);
      }
    }
  }

  lemma HopelessStays(w: World, w': World, p: Pending)
    requires Sound(w) && Evolves(w, w') && p.Loaded? && PendingSound(w, p) && Hopeless(w, p)
    ensures Hopeless(w', p)
  {
  }

  lemma SaveRecords(w: World, request: nat, now: nat)
    requires Sound(w) && request in w.pending && w.pending[request].Loaded? && Commits(w, request, now)
    ensures var p, w' := w.pending[request], Save(w, request, now);
            p.update.id in w'.rows && OriginOf(w'.rows[p.update.id].operation) == Recorded(p) && !Hopeless(w, p)
  {
    var p := w.pending[request];
    var u := p.update;
    assert PendingSound(w, p);
    WrittenMetadataIsInvisible(u.content.operation,
      SavedMetadata(p.read.operation, p.creatorName, p.read.createdAt, u.editor.username, u.nowIso));
  }

  /** The updates still under way after a step were under way before it, or have just read the row. */
  lemma StepKeepsUpdatesAgree(w: World, s: Step, id: string, o: Origin)
    requires Sound(w) && Possible(w, s) && Remembers(w, id, o)
    ensures UpdatesAgree(Next(w, s), id, o)
  {
    hide WellFormed, After, UpdateStatement, StatusStatement, CreatedRow, OriginOf, Recorded, Hopeless, Evolves;
    hide PendingSound;
    var w' := Next(w, s);
    StepIsSound(w, s);
    forall r | r in w'.pending && w'.pending[r].Loaded? && w'.pending[r].update.id == id
      ensures Recorded(w'.pending[r]) == Some(o) || Hopeless(w', w'.pending[r])
    {
      if r in w.pending && w'.pending[r] == w.pending[r] {
        if Recorded(w.pending[r]) != Some(o) {
          HopelessStays(w, w', w.pending[r]);
        }
      } else {
        assert s.LoadStep? && s.request == r;
        ReadRecords(w'.pending[r]);
      }
    }
  }

  lemma ReadRecords(p: Pending)
    requires p.Loaded?
    ensures OriginOf(p.read.operation).Some? ==> Recorded(p) == OriginOf(p.read.operation)
  {
    if OriginOf(p.read.operation).Some? {
      SavedMetadataOrigin(p.read.operation, p.creatorName, p.read.createdAt, p.update.editor.username, p.update.nowIso);
    }
  }

  /** Across one import an endpoint that survives keeps its origin exactly when the import is considerate of it. */
  lemma ImportKeepsRecordIff(w: World, sites: seq<Site>, req: Request, a: Answers, h: Heap, id: string)
    requires Sound(w) && Setting(w.rows, sites, req, a, h) && After(w.rows, sites, req, a, h).Some?
    requires id in w.rows && id in Imported(w, sites, req, a, h).rows && OriginOf(w.rows[id].operation).Some?
    ensures OriginOf(Imported(w, sites, req, a, h).rows[id].operation) == OriginOf(w.rows[id].operation) <==>
            Considerate(w, ImportStep(sites, req, a, h), id)
  {
    hide After, WellFormed, OriginOf, Undisturbed, PendingSound;
    if w.rows[id].projectId == req.projectId {
      ImportKeepsOriginIff(w.rows, sites, req, a, h, id);
    } else {
      RowAfter(w.rows, sites, req, a, h, id);
    }
  }

  lemma StepKeepsRow(w: World, s: Step, id: string, o: Origin)
    requires Sound(w) && Possible(w, s) && Considerate(w, s, id) && Remembers(w, id, o)
    ensures id in Next(w, s).rows ==> OriginOf(Next(w, s).rows[id].operation) == Some(o)
  {
    hide WellFormed, After, Save, Imported, SaveStatus, PendingSound, OriginOf, CreatedRow, Considerate;
    hide Hopeless, Recorded;
    StepIsSound(w, s);
    if id in w.rows && id in Next(w, s).rows {
      match s {
        case SaveStep(r, now) => SaveKeepsRow(w, r, now, id, o);
        case ImportStep(sites, req, a, h) =>
          if After(w.rows, sites, req, a, h).Some? {
            ImportKeepsRecordIff(w, sites, req, a, h, id);
          } else {
            NothingImported(w, sites, req, a, h);
          }
        case SaveStatusStep(r, now) => SaveStatusCommit(w, r, now);
        case _ =>
      }
    }
  }

  lemma NothingImported(w: World, sites: seq<Site>, req: Request, a: Answers, h: Heap)
    requires Setting(w.rows, sites, req, a, h) && After(w.rows, sites, req, a, h).None?
    ensures Imported(w, sites, req, a, h) == w
  {
  }

  lemma SaveKeepsRow(w: World, request: nat, now: nat, id: string, o: Origin)
    requires Sound(w) && Remembers(w, id, o) && id in w.rows
    requires request in w.pending && w.pending[request].Loaded? && w.clock < now
    ensures id in Save(w, request, now).rows && OriginOf(Save(w, request, now).rows[id].operation) == Some(o)
  {
    hide OriginOf, Recorded, Hopeless, PendingSound;
    if Commits(w, request, now) {
      SaveRecords(w, request, now);
      SaveCommit(w, request, now);
    }
  }

  lemma StepKeepsMemory(w: World, s: Step, id: string, o: Origin)
    requires Sound(w) && Possible(w, s) && Considerate(w, s, id) && Remembers(w, id, o)
    ensures Remembers(Next(w, s), id, o)
  {
    hide Next, Possible, WellFormed, OriginOf, UpdatesAgree, Considerate, PendingSound;
    StepIsSound(w, s);
    StepKeepsUpdatesAgree(w, s, id, o);
    StepKeepsRow(w, s, id, o);
  }

  // ---------- every run keeps the record ----------

  ghost predicate ConsiderateRun(trace: seq<World>, steps: seq<Step>, m: nat, n: nat, id: string)
    requires m <= n <= |steps| < |trace|
  {
    forall i :: m <= i < n ==> Considerate(trace[i], steps[i], id)
  }

  lemma {:induction false} RunKeepsMemory(trace: seq<World>, steps: seq<Step>, m: nat, n: nat, id: string, o: Origin)
    requires Behaves(trace, steps) && m <= n <= |steps| && Remembers(trace[m], id, o)
    requires ConsiderateRun(trace, steps, m, n, id)
    ensures Remembers(trace[n], id, o)
    decreases n
  {
    hide Next, WellFormed, Remembers, Possible, Considerate;
    if m < n {
      RunKeepsMemory(trace, steps, m, n - 1, id, o);
      RunIsSound(trace, steps, n - 1);
      StepKeepsMemory(trace[n - 1], steps[n - 1], id, o);
    }
  }

  /** Over every run of considerate imports, whatever versions clients quote: once an endpoint carries well-formed
      metadata, who created it and when never changes for as long as its id lives, provided no update under way that
      can still commit would record something else. */
  lemma RunKeepsOrigin(trace: seq<World>, steps: seq<Step>, m: nat, n: nat, id: string)
    requires Behaves(trace, steps) && m <= n <= |steps| && ConsiderateRun(trace, steps, m, n, id)
    requires id in trace[m].rows && id in trace[n].rows && OriginOf(trace[m].rows[id].operation).Some?
    requires UpdatesAgree(trace[m], id, OriginOf(trace[m].rows[id].operation).value)
    ensures OriginOf(trace[n].rows[id].operation) == OriginOf(trace[m].rows[id].operation)
  {
    hide Next, WellFormed, OriginOf, ConsiderateRun;
    RunIsSound(trace, steps, m);
    RunKeepsMemory(trace, steps, m, n, id, OriginOf(trace[m].rows[id].operation).value);
  }

  /** The proviso holds by itself at the start of a run and at the birth of an endpoint, so whoever is recorded then
      is recorded for good. */
  lemma OriginIsForLife(trace: seq<World>, steps: seq<Step>, m: nat, n: nat, id: string)
    requires Behaves(trace, steps) && Initial(trace[0]) && m <= n <= |steps| && ConsiderateRun(trace, steps, m, n, id)
    requires id in trace[m].rows && id in trace[n].rows && OriginOf(trace[m].rows[id].operation).Some?
    requires m > 0 ==> id !in trace[m - 1].rows
    ensures OriginOf(trace[n].rows[id].operation) == OriginOf(trace[m].rows[id].operation)
  {
    hide Next, Sound, Possible, WellFormed, OriginOf, ConsiderateRun, UpdatesAgree, Initial;
    NobodyHasRead(trace, steps, m, id, OriginOf(trace[m].rows[id].operation).value);
    RunKeepsOrigin(trace, steps, m, n, id);
  }

  lemma NobodyHasRead(trace: seq<World>, steps: seq<Step>, m: nat, id: string, o: Origin)
    requires Behaves(trace, steps) && Initial(trace[0]) && m <= |steps|
    requires id in trace[m].rows && (m > 0 ==> id !in trace[m - 1].rows)
    ensures UpdatesAgree(trace[m], id, o)
  {
    hide Next, Sound, Possible, WellFormed, OriginOf;
    if m > 0 {
      RunIsSound(trace, steps, m - 1);
      NewRowIsUnread(trace[m - 1], steps[m - 1], id);
    }
  }

  lemma NewRowIsUnread(w: World, s: Step, id: string)
    requires Sound(w) && Possible(w, s) && id !in w.rows && id in Next(w, s).rows
    ensures forall r :: r in Next(w, s).pending && Next(w, s).pending[r].Loaded? ==>
              Next(w, s).pending[r].update.id != id
  {
    hide WellFormed, After, UpdateStatement, StatusStatement, CreatedRow;
    StepIsSound(w, s);
    forall r | r in w.pending && w.pending[r].Loaded? ensures w.pending[r].update.id in w.used {
      assert PendingSound(w, w.pending[r]);
    }
  }

  /** The proviso also holds by itself wherever clients quote versions they may have seen: an update that read
      another version can never commit. */
  lemma TimelyUpdatesAgree(w: World, id: string)
    requires Sound(w) && AllQuotesKnown(w) && id in w.rows && OriginOf(w.rows[id].operation).Some?
    ensures UpdatesAgree(w, id, OriginOf(w.rows[id].operation).value)
  {
    hide OriginOf, Recorded;
    forall r | r in w.pending && w.pending[r].Loaded? && w.pending[r].update.id == id
      ensures Recorded(w.pending[r]) == OriginOf(w.rows[id].operation) || Hopeless(w, w.pending[r])
    {
      assert PendingSound(w, w.pending[r]) && QuotesKnown(w.pending[r]);
      ReadRecords(w.pending[r]);
    }
  }

  /** Over every run of considerate imports and of clients that quote versions they may have seen: once an endpoint
      carries well-formed metadata, from whatever moment on and whatever updates are under way, who created it and
      when never changes for as long as its id lives. */
  lemma TimelyRunKeepsOrigin(trace: seq<World>, steps: seq<Step>, m: nat, n: nat, id: string)
    requires Behaves(trace, steps) && Initial(trace[0]) && m <= n <= |steps| && ConsiderateRun(trace, steps, m, n, id)
    requires forall i :: 0 <= i < |steps| ==> Timely(steps[i])
    requires id in trace[m].rows && id in trace[n].rows && OriginOf(trace[m].rows[id].operation).Some?
    ensures OriginOf(trace[n].rows[id].operation) == OriginOf(trace[m].rows[id].operation)
  {
    hide Next, Sound, Possible, WellFormed, OriginOf, ConsiderateRun, UpdatesAgree, Initial, Timely;
    RunIsSound(trace, steps, m);
    TimelyRunKeepsQuotesKnown(trace, steps, m);
    TimelyUpdatesAgree(trace[m], id);
    RunKeepsOrigin(trace, steps, m, n, id);
  }

  // ---------- the proviso is needed ----------

  predicate NoImports(steps: seq<Step>) {
    forall i :: 0 <= i < |steps| ==> !steps[i].ImportStep?
  }

  /** A run with one more step. */
  lemma RunGoesOn(trace: seq<World>, steps: seq<Step>, s: Step)
    requires Behaves(trace, steps) && NoImports(steps) && !s.ImportStep?
    requires WellFormed(trace[|steps|].rows) && Possible(trace[|steps|], s)
    ensures var trace', steps' := trace + [Next(trace[|steps|], s)], steps + [s];
            && Behaves(trace', steps') && NoImports(steps') && trace'[0] == trace[0]
            && Sound(trace'[|steps'|]) && WellFormed(trace'[|steps'|].rows)
  {
    hide Next, Possible, WellFormed, Sound;
    var trace', steps' := trace + [Next(trace[|steps|], s)], steps + [s];
    forall i | 0 <= i < |steps'|
      ensures WellFormed(trace'[i].rows) && Possible(trace'[i], steps'[i]) && trace'[i + 1] == Next(trace'[i], steps'[i])
    {
      assert i < |steps| ==> trace'[i] == trace[i] && steps'[i] == steps[i] && trace'[i + 1] == trace[i + 1];
    }
    assert Sound(trace'[0]);
    RunIsSound(trace', steps', |steps'|);
    SoundIsWellFormed(trace'[|steps'|]);
  }

  lemma SoundIsWellFormed(w: World)
    requires Sound(w)
    ensures WellFormed(w.rows)
  {
  }

  lemma {:induction false} FreshNumber(used: set<nat>) returns (n: nat)
    ensures forall x :: x in used ==> x < n
    decreases |used|
  {
    n := 0;
    if used != {} {
      var x :| x in used;
      var m := FreshNumber(used - {x});
      n := if x < m then m else x + 1;
      forall y | y in used ensures y < n {
        if y != x {
          assert y in used - {x};
        }
      }
    }
  }

  /** The update is loaded, of a row that is there, and the version it quotes is or can become the row's. */
  ghost predicate Ready(w: World, request: nat, p: Pending) {
    && Sound(w) && request in w.pending && w.pending[request] == p && p.Loaded? && p.update.id in w.rows
    && !Hopeless(w, p)
  }

  predicate RouteFree(w: World, p: Pending)
    requires p.Loaded?
  {
    !RouteTaken(w.rows, p.update.projectId, p.update.content.path, p.update.content.verb, p.update.id)
  }

  /** Whoever holds the route the update wants can be removed. */
  lemma RouteCanBeFreed(w: World, request: nat, p: Pending) returns (trace: seq<World>, steps: seq<Step>)
    requires Ready(w, request, p)
    ensures Behaves(trace, steps) && |trace| == |steps| + 1 && NoImports(steps) && trace[0] == w
    ensures Ready(trace[|steps|], request, p) && RouteFree(trace[|steps|], p)
  {
    trace, steps := [w], [];
    if !RouteFree(w, p) {
      var u := p.update;
      var id :| id in w.rows && id != u.id && w.rows[id].projectId == u.projectId
                && RouteOf(w.rows[id]) == Route(u.content.path, u.content.verb);
      RunGoesOn(trace, steps, RemoveStep(u.projectId, id));
      trace, steps := trace + [Removed(w, u.projectId, id)], steps + [RemoveStep(u.projectId, id)];
      OnlyOneHolder(w, id, p);
    }
  }

  lemma OnlyOneHolder(w: World, id: string, p: Pending)
    requires WellFormed(w.rows) && p.Loaded? && id in w.rows && w.rows[id].projectId == p.update.projectId
    requires RouteOf(w.rows[id]) == Route(p.update.content.path, p.update.content.verb)
    ensures RouteFree(Removed(w, p.update.projectId, id), p)
  {
  }

  /** A status change can issue the version the update quotes. */
  lemma VersionCanBeIssued(trace0: seq<World>, steps0: seq<Step>, request: nat, p: Pending)
    returns (trace: seq<World>, steps: seq<Step>)
    requires Behaves(trace0, steps0) && NoImports(steps0)
    requires Ready(trace0[|steps0|], request, p) && RouteFree(trace0[|steps0|], p)
    ensures Behaves(trace, steps) && |trace| == |steps| + 1 && NoImports(steps) && trace[0] == trace0[0]
    ensures Ready(trace[|steps|], request, p) && RouteFree(trace[|steps|], p)
    ensures trace[|steps|].rows[p.update.id].updatedAt == p.update.quoted
  {
    var w, u := trace0[|steps0|], p.update;
    trace, steps := trace0, steps0;
    if w.rows[u.id].updatedAt != u.quoted {
      var other := FreshNumber(w.pending.Keys);
      var status := if w.rows[u.id].status == Draft then InReview else Draft;
      var load, save := LoadStatusStep(other, u.projectId, u.id, status, u.editor), SaveStatusStep(other, u.quoted);
      StatusChangeIssues(w, request, p, other, status);
      RunGoesOn(trace, steps, load);
      trace, steps := trace + [Next(w, load)], steps + [load];
      RunGoesOn(trace, steps, save);
      trace, steps := trace + [Next(Next(w, load), save)], steps + [save];
    }
  }

  lemma StatusChangeIssues(w: World, request: nat, p: Pending, other: nat, status: Status)
    requires Ready(w, request, p) && RouteFree(w, p) && other !in w.pending
    requires w.rows[p.update.id].updatedAt != p.update.quoted && w.rows[p.update.id].status != status
    ensures var u := p.update;
            var load, save := LoadStatusStep(other, u.projectId, u.id, status, u.editor), SaveStatusStep(other, u.quoted);
            && WellFormed(w.rows) && Possible(w, load) && WellFormed(Next(w, load).rows) && Possible(Next(w, load), save)
            && var w' := Next(Next(w, load), save);
               && request in w'.pending && w'.pending[request] == p && u.id in w'.rows && RouteFree(w', p)
               && w'.rows[u.id].updatedAt == u.quoted
  {
    assert PendingSound(w, p);
  }

  /** An update under way that can still commit and would record another origin does so in some continuation, without
      any import. */
  lemma ThreatCanCommit(w: World, request: nat, id: string) returns (trace: seq<World>, steps: seq<Step>)
    requires Sound(w) && id in w.rows && request in w.pending && w.pending[request].Loaded?
    requires w.pending[request].update.id == id && !Hopeless(w, w.pending[request])
    ensures Behaves(trace, steps) && |trace| == |steps| + 1 && NoImports(steps) && trace[0] == w
    ensures id in trace[|steps|].rows && OriginOf(trace[|steps|].rows[id].operation) == Recorded(w.pending[request])
  {
    hide OriginOf, Recorded, Hopeless, Behaves, Next, Possible, WellFormed, RouteFree;
    var p := w.pending[request];
    trace, steps := RouteCanBeFreed(w, request, p);
    trace, steps := VersionCanBeIssued(trace, steps, request, p);
    var last := trace[|steps|];
    var save := SaveStep(request, last.clock + 1);
    LastSave(last, request, p);
    RunGoesOn(trace, steps, save);
    trace, steps := trace + [Next(last, save)], steps + [save];
  }

  lemma LastSave(w: World, request: nat, p: Pending)
    requires Ready(w, request, p) && RouteFree(w, p) && w.rows[p.update.id].updatedAt == p.update.quoted
    ensures var save := SaveStep(request, w.clock + 1);
            && WellFormed(w.rows) && Possible(w, save) && p.update.id in Next(w, save).rows
            && OriginOf(Next(w, save).rows[p.update.id].operation) == Recorded(p)
  {
    hide OriginOf, Recorded;
    assert PendingSound(w, p);
    SaveRecords(w, request, w.clock + 1);
  }

  /** The record of an endpoint's creation stays in every continuation of considerate imports if and only if no
      update under way that can still commit would record something else. */
  lemma OriginIsSettledIff(w: World, id: string, o: Origin)
    requires Sound(w) && id in w.rows && OriginOf(w.rows[id].operation) == Some(o)
    ensures UpdatesAgree(w, id, o) <==>
            forall trace: seq<World>, steps: seq<Step> |
              Behaves(trace, steps) && trace[0] == w && ConsiderateRun(trace, steps, 0, |steps|, id)
              && id in trace[|steps|].rows ::
              OriginOf(trace[|steps|].rows[id].operation) == Some(o)
  {
    hide OriginOf, Recorded, Hopeless, Next, Possible, WellFormed, Considerate;
    if UpdatesAgree(w, id, o) {
      forall trace: seq<World>, steps: seq<Step> |
        Behaves(trace, steps) && trace[0] == w && ConsiderateRun(trace, steps, 0, |steps|, id)
        && id in trace[|steps|].rows
        ensures OriginOf(trace[|steps|].rows[id].operation) == Some(o)
      {
        RunKeepsOrigin(trace, steps, 0, |steps|, id);
      }
    } else {
      var r :| r in w.pending && w.pending[r].Loaded? && w.pending[r].update.id == id
               && Recorded(w.pending[r]) != Some(o) && !Hopeless(w, w.pending[r]);
      var trace, steps := ThreatCanCommit(w, r, id);
      NoImportsAreConsiderate(trace, steps, id);
    }
  }

  lemma NoImportsAreConsiderate(trace: seq<World>, steps: seq<Step>, id: string)
    requires NoImports(steps) && |steps| < |trace|
    ensures ConsiderateRun(trace, steps, 0, |steps|, id)
  {
  }

  // ---------- an update that read the row before its metadata was well-formed ----------

  function RepairSites(o: JsonRef): seq<Site> {
    [Site("/a", "get", o)]
  }

  const REPAIR := Answers([DRAFT_ROW], ["2"], "1", 1)

  function RepairStep(o: JsonRef): Step {
    ImportStep(RepairSites(o), BOBS_IMPORT, REPAIR, map[o := INCOMING])
  }

  lemma RepairIsPossible(o: JsonRef)
    ensures var sites, h := RepairSites(o), One(o, INCOMING);
            && Setting(map["e" := DRAFT_ROW], sites, BOBS_IMPORT, REPAIR, h) && CaseDistinct(sites, h)
            && ByKey([DRAFT_ROW]) == map[KeyOf(DRAFT_ROW) := DRAFT_ROW]
            && SiteKey(sites[0]) == KeyOf(DRAFT_ROW) && Accepted(sites[0], h)
  {
    SampleMeaning("new");
    ValidMethodIsPlain("get");
    assert [DRAFT_ROW][..0] == [];
    assert Lists([DRAFT_ROW], map["e" := DRAFT_ROW], "p") by { assert [DRAFT_ROW][0] == DRAFT_ROW; }
    assert "e" != "2" by { assert "e"[0] != "2"[0]; }
  }

  lemma NoMetadata()
    ensures OriginOf(DRAFT_ROW.operation) == None && MetadataOf(DRAFT_ROW.operation) == Null
    ensures Comparable(DRAFT_ROW.operation) != Comparable(INCOMING)
  {
    SampleMeaning("draft");
    SampleMeaning("new");
    assert |"draft"| != |"new"|;
    assert Sample("draft").fields[0] != Sample("new").fields[0];
  }

  lemma RepairRewrites(o: JsonRef)
    ensures var sites, h := RepairSites(o), One(o, INCOMING);
            && Covers(h, sites) && Setting(map["e" := DRAFT_ROW], sites, BOBS_IMPORT, REPAIR, h)
            && var c := ContextOf(BOBS_IMPORT, REPAIR, h);
               && Decide(sites[0], c) == Update && LastRewriter(sites, c, DRAFT_ROW) == Some(sites[0])
               && PlannedOrigin(sites[0], c) == Origin(Str("unknown"), Str("0"))
               && LastWriter(sites, c, o) == Some(sites[0]) && Undisturbed(DRAFT_ROW, sites, c)
  {
    hide Comparable, OriginIn, Stringify, Setting, CaseDistinct, Accepted, SiteKey, ByKey;
    RepairIsPossible(o);
    NoMetadata();
    SameContentMeaning(DRAFT_ROW.operation, INCOMING);
  }

  /** Bob's import finds the row without metadata and records that nobody knows who created it. */
  lemma RepairedRow(o: JsonRef)
    ensures var t, sites, h := map["e" := DRAFT_ROW], RepairSites(o), One(o, INCOMING);
            && Setting(t, sites, BOBS_IMPORT, REPAIR, h) && After(t, sites, BOBS_IMPORT, REPAIR, h).Some?
            && var u := After(t, sites, BOBS_IMPORT, REPAIR, h).value;
               && "e" in u
               && u["e"] == DRAFT_ROW.(operation := u["e"].operation, updatedById := u["e"].updatedById, updatedAt := 1)
               && OriginOf(u["e"].operation) == Some(Origin(Str("unknown"), Str("0")))
  {
    hide Comparable, OriginIn, Setting, CaseDistinct, SiteKey, ByKey, Decide, After, Unshared, LastWriter, LastRewriter;
    hide PlannedOrigin, Final, View;
    var t, sites, h := map["e" := DRAFT_ROW], RepairSites(o), One(o, INCOMING);
    var c := ContextOf(BOBS_IMPORT, REPAIR, h);
    RepairIsPossible(o);
    RepairRewrites(o);
    ImportReachesDocument(t, sites, BOBS_IMPORT, REPAIR, h);
    assert sites[0] in sites;
    RowAfter(t, sites, BOBS_IMPORT, REPAIR, h, "e");
    FinalOrigin(sites, c, sites[0]);
  }

  function StaleSteps(o: JsonRef): (r: seq<Step>)
    ensures |r| == 4
  {
    [ArriveStep(0, EARLY_UPDATE), LoadStep(0, "ann"), RepairStep(o), SaveStep(0, 2)]
  }

  lemma StaleSave(w: World)
    requires Sound(w) && w.clock < 2 && w.pending == map[0 := Loaded(EARLY_UPDATE, DRAFT_ROW, "ann", 0)]
    requires "e" in w.rows && w.rows["e"].projectId == "p" && w.rows["e"].updatedAt == 1
    requires RouteOf(w.rows["e"]) == Route("/a", "get")
    ensures !UpdatesAgree(w, "e", Origin(Str("unknown"), Str("0")))
    ensures "e" in Save(w, 0, 2).rows && OriginOf(Save(w, 0, 2).rows["e"].operation) == Some(Origin(Str("ann"), Str("0")))
  {
    hide OriginIn, MakeMetadata, PendingSound;
    NoMetadata();
    MadeMetadataOrigin(Str("ann"), Str("0"), "ann", "0");
    assert Recorded(w.pending[0]) == Some(Origin(Str("ann"), Str("0")));
    assert |"ann"| != |"unknown"|;
    assert !RouteTaken(w.rows, "p", "/a", "get", "e");
    SaveRecords(w, 0, 2);
  }

  lemma EarlyLoaded()
    ensures EarlyTrace()[2].rows == map["e" := DRAFT_ROW]
  {
    hide WithMetadata, SavedMetadata, Sample;
  }

  lemma StaleReads(o: JsonRef)
    ensures var w := EarlyTrace()[2];
            && Leads(EarlyTrace()[0], StaleSteps(o)[0], EarlyTrace()[1]) && Leads(EarlyTrace()[1], StaleSteps(o)[1], w)
            && WellFormed(w.rows) && Possible(w, RepairStep(o)) && Sound(w)
  {
    hide WellFormed, WithMetadata, SavedMetadata, Setting;
    EarlyStart();
    EarlyReads(0);
    EarlyReads(1);
    StepIsSound(EarlyTrace()[0], EarlySteps()[0]);
    StepIsSound(EarlyTrace()[1], EarlySteps()[1]);
    RepairIsPossible(o);
    assert "e" != "2" by { assert "e"[0] != "2"[0]; }
  }

  lemma RepairedWorld(o: JsonRef) returns (w: World)
    ensures Leads(EarlyTrace()[2], RepairStep(o), w)
    ensures Sound(w) && w.clock == 1 && w.pending == map[0 := Loaded(EARLY_UPDATE, DRAFT_ROW, "ann", 0)]
    ensures "e" in w.rows && w.rows["e"].projectId == "p" && w.rows["e"].updatedAt == 1
    ensures RouteOf(w.rows["e"]) == Route("/a", "get")
    ensures OriginOf(w.rows["e"].operation) == Some(Origin(Str("unknown"), Str("0")))
  {
    hide WellFormed, After, OriginOf, Setting, WithMetadata, SavedMetadata, PendingSound, Evolves;
    StaleReads(o);
    RepairedRow(o);
    w := Next(EarlyTrace()[2], RepairStep(o));
    StepIsSound(EarlyTrace()[2], RepairStep(o));
  }

  /** The proviso is needed: an update reads the row before it has metadata and quotes the version that Bob's import
      is about to issue. The import records an unknown creator, and the update then records Ann. */
  lemma StaleSaveChangesOrigin(o: JsonRef) returns (trace: seq<World>, steps: seq<Step>)
    ensures Behaves(trace, steps) && Initial(trace[0]) && |steps| == 4
    ensures ConsiderateRun(trace, steps, 0, 4, "e")
    ensures "e" in trace[3].rows && OriginOf(trace[3].rows["e"].operation) == Some(Origin(Str("unknown"), Str("0")))
    ensures "e" in trace[4].rows && OriginOf(trace[4].rows["e"].operation) == Some(Origin(Str("ann"), Str("0")))
    ensures !UpdatesAgree(trace[3], "e", Origin(Str("unknown"), Str("0")))
  {
    hide *;
    steps := StaleSteps(o);
    var w := RepairedWorld(o);
    var early := EarlyTrace();
    trace := [early[0], early[1], early[2], w, Save(w, 0, 2)];
    StaleReads(o);
    StaleRunIsConsiderate(trace, o);
    EarlyStart();
    StaleSave(w);
    SaveLeads(w);
    StaleRun(trace, steps);
  }

  lemma StaleRunIsConsiderate(trace: seq<World>, o: JsonRef)
    requires |trace| == 5 && trace[2] == EarlyTrace()[2]
    ensures ConsiderateRun(trace, StaleSteps(o), 0, 4, "e")
    ensures StaleSteps(o)[2] == RepairStep(o) && StaleSteps(o)[3] == SaveStep(0, 2)
  {
    hide Undisturbed, Setting, EarlyTrace, Sample, LastRewriter, LastWriter, Decide, PlannedOrigin, Covers;
    RepairRewrites(o);
    EarlyLoaded();
  }

  lemma SaveLeads(w: World)
    requires Sound(w) && w.clock < 2 && w.pending == map[0 := Loaded(EARLY_UPDATE, DRAFT_ROW, "ann", 0)]
    ensures Leads(w, SaveStep(0, 2), Save(w, 0, 2))
  {
  }

  lemma StaleRun(trace: seq<World>, steps: seq<Step>)
    requires |trace| == 5 && |steps| == 4 && Initial(trace[0])
    requires Leads(trace[0], steps[0], trace[1]) && Leads(trace[1], steps[1], trace[2])
    requires Leads(trace[2], steps[2], trace[3]) && Leads(trace[3], steps[3], trace[4])
    ensures Behaves(trace, steps)
  {
    hide Next, Possible, WellFormed;
    forall i | 0 <= i < 4
      ensures WellFormed(trace[i].rows) && Possible(trace[i], steps[i]) && trace[i + 1] == Next(trace[i], steps[i])
    {
      assert Leads(trace[i], steps[i], trace[i + 1]);
    }
  }
}
