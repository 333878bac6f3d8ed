/** What holds over every run of the endpoint editing protocol. */
module EndpointRuns {
  import opened Wrappers
  import opened AppMetadata
  import opened Endpoints
  import opened SpecReconciliation
  import opened Projects
  import opened ImportSteps
  import opened EndpointsService
  import opened EndpointProtocol

  /** A run: the worlds it goes through, each made from the one before by a possible step. */
  ghost predicate Behaves(trace: seq<World>, steps: seq<Step>) {
    && |trace| == |steps| + 1
    && Sound(trace[0])
    && forall i :: 0 <= i < |steps| ==>
         WellFormed(trace[i].rows) && Possible(trace[i], steps[i]) && trace[i + 1] == Next(trace[i], steps[i])
  }

  /** The service starts on some table, with no request under way and nothing reported yet. */
  ghost predicate Initial(w: World) {
    && Sound(w) && w.pending == map[] && w.log == []
    && w.born.Keys == w.rows.Keys && forall id :: id in w.rows ==> w.born[id] == w.rows[id].status
  }

  lemma {:induction false} RunIsSound(trace: seq<World>, steps: seq<Step>, n: nat)
    requires Behaves(trace, steps) && n <= |steps|
    ensures Sound(trace[n])
  {
    if n > 0 {
      RunIsSound(trace, steps, n - 1);
      StepIsSound(trace[n - 1], steps[n - 1]);
    }
  }

  // ---------- what commits leave in a project ----------

  /** After a committed update the project shows exactly the written row under the submitted route, the route it had
      is free unless it is the same, and nothing else has changed. */
  lemma SavedView(w: World, request: nat, now: nat, projectId: string)
    requires Sound(w) && request in w.pending && w.pending[request].Loaded? && w.clock < now && Commits(w, request, now)
    ensures var u, w' := w.pending[request].update, Save(w, request, now);
            && u.id in w.rows && u.id in w'.rows && WellFormed(w'.rows)
            && RouteOf(w'.rows[u.id]) == Route(u.content.path, u.content.verb)
            && Stripped(w'.rows[u.id].operation) == Stripped(u.content.operation)
            && w'.rows[u.id].updatedById == u.editor.id && w'.rows[u.id].updatedAt == now
            && View(w'.rows, projectId) ==
               if projectId != u.projectId then View(w.rows, projectId)
               else (View(w.rows, projectId) - {RouteOf(w.rows[u.id])})[Route(u.content.path, u.content.verb) := w'.rows[u.id]]
  {
    var p := w.pending[request];
    var u := p.update;
    SaveEvolves(w, request, now);
    UpdateMeaning(w.rows, u.projectId, u.id, u.quoted, p.read, u.content, p.creatorName, u.editor, u.nowIso, now);
    hide View, Stripped, UpdatedRow, WellFormed;
    ViewAfterPut(w.rows, Save(w, request, now).rows[u.id], projectId);
  }

  /** A create adds exactly one endpoint if its route is free in the project, and otherwise nothing. */
  lemma CreatedView(w: World, projectId: string, c: Content, creator: User, nowIso: string, b: Birth, now: nat,
                    any: string)
    requires Sound(w) && Valid(c) && b.id !in w.used && w.clock < now
    ensures var w' := Created(w, projectId, c, creator, nowIso, b, now);
            && WellFormed(w'.rows)
            && if Route(c.path, c.verb) in View(w.rows, projectId) then w' == w
               else
                 && b.id in w'.rows && w'.rows[b.id] == CreatedRow(projectId, c, creator, nowIso, b, now)
                 && View(w'.rows, any) == if any != projectId then View(w.rows, any)
                                          else View(w.rows, any)[Route(c.path, c.verb) := w'.rows[b.id]]
  {
    hide View, WellFormed, WithMetadata, NewMetadata, RouteTaken, PendingSound;
    CreateEvolves(w, projectId, c, creator, nowIso, b, now);
    RouteTakenMeaning(w.rows, projectId, c.path, c.verb, b.id);
    ViewAt(w.rows, projectId, Route(c.path, c.verb), b.id);
    if !RouteTaken(w.rows, projectId, c.path, c.verb, b.id) {
      ViewAfterPut(w.rows, CreatedRow(projectId, c, creator, nowIso, b, now), any);
    }
  }

  /** A removal takes exactly the named endpoint out of its project. */
  lemma RemovedView(w: World, projectId: string, id: string, any: string)
    requires Sound(w)
    ensures var w' := Removed(w, projectId, id);
            && WellFormed(w'.rows)
            && if id in w.rows && w.rows[id].projectId == projectId
               then View(w'.rows, any) == if any != projectId then View(w.rows, any)
                                          else View(w.rows, any) - {RouteOf(w.rows[id])}
               else w' == w
  {
    RemoveIsWellFormed(w, projectId, id);
    hide View, WellFormed;
    if id in w.rows && w.rows[id].projectId == projectId {
      ViewAfterRemove(w.rows, id, any);
    }
  }

  // ---------- lost updates ----------

  predicate Commits(w: World, request: nat, now: nat)
    requires request in w.pending && w.pending[request].Loaded?
  {
    var p := w.pending[request];
    var u := p.update;
    UpdateStatement(w.rows, u.projectId, u.id, u.quoted, p.read, u.content, p.creatorName, u.editor, u.nowIso, now).Ok?
  }

  /** A committing update overwrites exactly the row it read if and only if the version its client quoted had
      been issued by the time of the read. The write tests the quoted version, not the version read. */
  lemma UpdateOverwritesWhatItReadIff(w: World, request: nat, now: nat)
    requires Sound(w) && request in w.pending && w.pending[request].Loaded? && Commits(w, request, now)
    ensures var p := w.pending[request];
            w.rows[p.update.id] == p.read <==> p.update.quoted <= p.readAt
  {
    assert PendingSound(w, w.pending[request]);
  }

  ghost predicate UpdateOf(c: Commit, id: string) {
    c.UpdateCommit? && c.event.Updated? && c.event.id == id
  }

  ghost predicate CommitSound(w: World, c: Commit) {
    match c
    case UpdateCommit(event, overwrote, quoted, readAt) =>
      && event.Updated? && event.id in w.used
      && overwrote.updatedAt == quoted < event.after.updatedAt <= w.clock
      && (event.before == overwrote <==> quoted <= readAt)
      && (event.id in w.rows ==> event.after.updatedAt <= w.rows[event.id].updatedAt)
    case StatusCommit(event) => event.StatusUpdated? && event.id in w.used && event.from != event.to
  }

  ghost predicate LogSound(w: World) {
    && (forall i :: 0 <= i < |w.log| ==> CommitSound(w, w.log[i]))
    && forall i, j :: 0 <= i < j < |w.log| && w.log[i].UpdateCommit? && UpdateOf(w.log[j], w.log[i].event.id) ==>
         w.log[i].event.after.updatedAt <= w.log[j].quoted
  }

  lemma CommitSurvives(w: World, w': World, c: Commit)
    requires Evolves(w, w') && CommitSound(w, c)
    ensures CommitSound(w', c)
  {
  }

  /** What a committing update adds to the log. */
  lemma SaveCommit(w: World, request: nat, now: nat)
    requires Sound(w) && request in w.pending && w.pending[request].Loaded? && w.clock < now
    requires Commits(w, request, now)
    ensures var p, w' := w.pending[request], Save(w, request, now);
            && p.update.id in w.rows && |w'.log| == |w.log| + 1 && w'.log == w.log + [w'.log[|w.log|]]
            && var c := w'.log[|w.log|];
               UpdateOf(c, p.update.id) && CommitSound(w', c) && c.quoted == w.rows[p.update.id].updatedAt
               && c.overwrote == w.rows[p.update.id] && c.event.before == p.read && c.event.after == w'.rows[p.update.id]
  {
    UpdateOverwritesWhatItReadIff(w, request, now);
  }

  lemma SaveStatusCommit(w: World, request: nat, now: nat)
    requires Sound(w) && request in w.pending && w.pending[request].Restating? && w.clock < now
    ensures var p, w' := w.pending[request], SaveStatus(w, request, now);
            || (w'.log == w.log && w'.rows == w.rows)
            || (p.id in w.rows
                && w'.rows == w.rows[p.id := w.rows[p.id].(status := p.newStatus, updatedById := p.user.id, updatedAt := now)]
                && w'.log == w.log + [StatusCommit(StatusUpdated(p.id, w.rows[p.id].status, p.newStatus))]
                && w.rows[p.id].status != p.newStatus)
  {
    assert PendingSound(w, w.pending[request]);
  }

  lemma LogGrows(w: World, w': World, c: Commit)
    requires LogSound(w) && Evolves(w, w') && w'.log == w.log + [c] && CommitSound(w', c)
    requires forall i :: 0 <= i < |w.log| && w.log[i].UpdateCommit? && UpdateOf(c, w.log[i].event.id) ==>
               w.log[i].event.after.updatedAt <= c.quoted
    ensures LogSound(w')
  {
    forall i | 0 <= i < |w.log| ensures w'.log[i] == w.log[i] && CommitSound(w', w'.log[i]) {
      CommitSurvives(w, w', w.log[i]);
    }
  }

  lemma LogStays(w: World, w': World)
    requires LogSound(w) && Evolves(w, w') && w'.log == w.log
    ensures LogSound(w')
  {
    forall i | 0 <= i < |w.log| ensures CommitSound(w', w.log[i]) {
      CommitSurvives(w, w', w.log[i]);
    }
  }

  lemma StepKeepsLogSound(w: World, s: Step)
    requires Sound(w) && LogSound(w) && Possible(w, s)
    ensures LogSound(Next(w, s))
  {
    hide CommitSound, LogSound, WellFormed, After, Evolves, UpdateStatement, StatusStatement, CreatedRow;
    var w' := Next(w, s);
    StepIsSound(w, s);
    if s.SaveStep? && Commits(w, s.request, s.now) {
      SaveCommit(w, s.request, s.now);
      EarlierUpdates(w);
      LogGrows(w, w', w'.log[|w.log|]);
    } else if s.SaveStatusStep? && w'.log != w.log {
      SaveStatusCommit(w, s.request, s.now);
      StatusCommitIsSound(w, s);
      LogGrows(w, w', w'.log[|w.log|]);
    } else {
      LogStays(w, w');
    }
  }

  lemma StatusCommitIsSound(w: World, s: Step)
    requires Sound(w) && Possible(w, s) && s.SaveStatusStep? && Next(w, s).log != w.log
    ensures var w' := Next(w, s);
            |w'.log| == |w.log| + 1 && CommitSound(w', w'.log[|w.log|]) && w'.log[|w.log|].StatusCommit?
  {
    SaveStatusCommit(w, s.request, s.now);
  }

  lemma EarlierUpdates(w: World)
    requires LogSound(w)
    ensures forall i :: 0 <= i < |w.log| && w.log[i].UpdateCommit? && w.log[i].event.id in w.rows ==>
              w.log[i].event.after.updatedAt <= w.rows[w.log[i].event.id].updatedAt
  {
    forall i | 0 <= i < |w.log| ensures CommitSound(w, w.log[i]) {
    }
  }

  lemma {:induction false} RunLogIsSound(trace: seq<World>, steps: seq<Step>, n: nat)
    requires Behaves(trace, steps) && Initial(trace[0]) && n <= |steps|
    ensures LogSound(trace[n])
  {
    if n > 0 {
      RunLogIsSound(trace, steps, n - 1);
      RunIsSound(trace, steps, n - 1);
      StepKeepsLogSound(trace[n - 1], steps[n - 1]);
    }
  }

  /** No lost update, over every run: each reported update replaced a row with the version its client quoted; the
      row it reports as `before` is the one it replaced exactly when that version had been issued by the time
      the request read the row; and no version of an endpoint is ever updated twice. */
  lemma NoLostUpdates(trace: seq<World>, steps: seq<Step>, n: nat, i: nat)
    requires Behaves(trace, steps) && Initial(trace[0]) && n <= |steps|
    requires i < |trace[n].log| && trace[n].log[i].UpdateCommit?
    ensures var c := trace[n].log[i];
            && c.event.Updated? && c.overwrote.updatedAt == c.quoted
            && (c.event.before == c.overwrote <==> c.quoted <= c.readAt)
            && forall j :: i < j < |trace[n].log| && UpdateOf(trace[n].log[j], c.event.id) ==>
                 trace[n].log[j].quoted != c.quoted
  {
    RunLogIsSound(trace, steps, n);
    assert CommitSound(trace[n], trace[n].log[i]);
  }

  // ---------- requests that quote versions they have seen ----------

  predicate QuotesKnown(p: Pending) {
    match p
    case Arrived(u) => u.quoted <= u.arrivedAt
    case Loaded(u, _, _, _) => u.quoted <= u.arrivedAt
    case Restating(_, _, _, _) => true
  }

  ghost predicate AllQuotesKnown(w: World) {
    forall r :: r in w.pending ==> QuotesKnown(w.pending[r])
  }

  /** The quoted version had been issued when the request arrived, as it is if the client was ever shown it. */
  predicate Timely(s: Step) {
    s.ArriveStep? ==> s.update.quoted <= s.update.arrivedAt
  }

  lemma StepKeepsQuotesKnown(w: World, s: Step)
    requires Sound(w) && AllQuotesKnown(w) && Possible(w, s) && Timely(s)
    ensures AllQuotesKnown(Next(w, s))
  {
    hide WellFormed, After, UpdateStatement, StatusStatement, CreatedRow;
  }

  lemma {:induction false} TimelyRunKeepsQuotesKnown(trace: seq<World>, steps: seq<Step>, n: nat)
    requires Behaves(trace, steps) && Initial(trace[0]) && n <= |steps|
    requires forall i :: 0 <= i < |steps| ==> Timely(steps[i])
    ensures AllQuotesKnown(trace[n])
  {
    if n > 0 {
      TimelyRunKeepsQuotesKnown(trace, steps, n - 1);
      RunIsSound(trace, steps, n - 1);
      StepKeepsQuotesKnown(trace[n - 1], steps[n - 1]);
    }
  }

  // ---------- the status chain ----------

  function EventId(c: Commit): string {
    c.event.id
  }

  function From(e: Event): Status {
    match e
    case Updated(_, before, _) => before.status
    case StatusUpdated(_, from, _) => from
  }

  function To(e: Event): Status {
    match e
    case Updated(_, _, after) => after.status
    case StatusUpdated(_, _, to) => to
  }

  /** The status an endpoint's events lead to from `start`, or None if one of them does not start where the one
      before it ended. */
  function Trail(log: seq<Commit>, id: string, start: Status): Option<Status> {
    if |log| == 0 then Some(start)
    else
      var last := log[|log| - 1];
      var before := Trail(log[..|log| - 1], id, start);
      if EventId(last) != id then before
      else if before == Some(From(last.event)) then Some(To(last.event))
      else None
  }

  lemma TrailSnoc(log: seq<Commit>, c: Commit, id: string, start: Status)
    ensures Trail(log + [c], id, start) ==
            if EventId(c) != id then Trail(log, id, start)
            else if Trail(log, id, start) == Some(From(c.event)) then Some(To(c.event)) else None
  {
    assert (log + [c])[..|log|] == log;
  }

  lemma {:induction false} NoEventsNoMoves(log: seq<Commit>, id: string, start: Status)
    requires forall i :: 0 <= i < |log| ==> EventId(log[i]) != id
    ensures Trail(log, id, start) == Some(start)
  {
    if |log| > 0 {
      NoEventsNoMoves(log[..|log| - 1], id, start);
    }
  }

  /** The status an update reports as the old one is the one it replaced. */
  predicate Faithful(c: Commit) {
    c.UpdateCommit? && c.event.Updated? ==> c.event.before.status == c.overwrote.status
  }

  predicate FaithfulTo(log: seq<Commit>, id: string) {
    forall i :: 0 <= i < |log| && EventId(log[i]) == id ==> Faithful(log[i])
  }

  lemma FaithfulSnoc(log: seq<Commit>, c: Commit, id: string)
    ensures FaithfulTo(log + [c], id) <==> FaithfulTo(log, id) && (EventId(c) == id ==> Faithful(c))
  {
    var more := log + [c];
    assert more[|log|] == c && forall i :: 0 <= i < |log| ==> more[i] == log[i];
  }

  /** An endpoint's events chain from the status it was born with to the one it has, deleted or not. */
  ghost predicate ChainOf(w: World, id: string)
    requires id in w.born
  {
    var end := Trail(w.log, id, w.born[id]);
    end.Some? && (id in w.rows ==> end.value == w.rows[id].status)
  }

  /** The chain stands as long as every event has reported the status it replaced, and is broken for good by the
      first that has not. */
  ghost predicate Chained(w: World) {
    && w.rows.Keys <= w.born.Keys <= w.used
    && (forall i :: 0 <= i < |w.log| ==> EventId(w.log[i]) in w.born)
    && forall id :: id in w.born ==>
         if FaithfulTo(w.log, id) then ChainOf(w, id) else Trail(w.log, id, w.born[id]) == None
  }

  /** A row is written with a new status and the event that reports it. */
  lemma CommitKeepsChained(w: World, w': World, c: Commit)
    requires Chained(w) && w'.log == w.log + [c] && EventId(c) in w.rows
    requires w'.rows.Keys == w.rows.Keys && w'.born == w.born && w.used <= w'.used
    requires forall id :: id in w.rows && id != EventId(c) ==> w'.rows[id] == w.rows[id]
    requires To(c.event) == w'.rows[EventId(c)].status
    requires Faithful(c) <==> From(c.event) == w.rows[EventId(c)].status
    ensures Chained(w')
  {
    hide Faithful, FaithfulTo, Trail, From, To;
    forall id | id in w.born
      ensures if FaithfulTo(w'.log, id) then ChainOf(w', id) else Trail(w'.log, id, w.born[id]) == None
    {
      FaithfulSnoc(w.log, c, id);
      TrailSnoc(w.log, c, id, w.born[id]);
    }
  }

  lemma SaveKeepsChained(w: World, request: nat, now: nat)
    requires Sound(w) && Chained(w)
    requires request in w.pending && w.pending[request].Loaded? && w.clock < now
    ensures Chained(Save(w, request, now))
  {
    if Commits(w, request, now) {
      var w' := Save(w, request, now);
      SaveCommit(w, request, now);
      CommitKeepsChained(w, w', w'.log[|w.log|]);
    }
  }

  lemma SaveStatusKeepsChained(w: World, request: nat, now: nat)
    requires Sound(w) && Chained(w)
    requires request in w.pending && w.pending[request].Restating? && w.clock < now
    ensures Chained(SaveStatus(w, request, now))
  {
    var p, w' := w.pending[request], SaveStatus(w, request, now);
    SaveStatusCommit(w, request, now);
    if w'.log != w.log {
      CommitKeepsChained(w, w', StatusCommit(StatusUpdated(p.id, w.rows[p.id].status, p.newStatus)));
    }
  }

  /** Steps that report nothing keep the chain, provided new rows are born with their status. */
  lemma SilentKeepsChained(w: World, w': World)
    requires Chained(w) && w'.log == w.log
    requires w'.rows.Keys <= w'.born.Keys <= w'.used && w.born.Keys <= w'.born.Keys
    requires forall id :: id in w.born ==> w'.born[id] == w.born[id]
    requires forall id :: id in w'.rows ==>
               if id in w.rows then w'.rows[id].status == w.rows[id].status
               else id !in w.born && w'.rows[id].status == w'.born[id]
    ensures Chained(w')
  {
    hide Faithful, Trail;
    forall id | id in w'.born
      ensures if FaithfulTo(w'.log, id) then ChainOf(w', id) else Trail(w'.log, id, w'.born[id]) == None
    {
      if id !in w.born {
        NoEventsNoMoves(w.log, id, w'.born[id]);
      }
    }
  }

  lemma ImportKeepsChained(w: World, sites: seq<Site>, req: Request, a: Answers, h: Heap)
    requires Sound(w) && Chained(w) && Setting(w.rows, sites, req, a, h)
    requires forall i :: 0 <= i < |a.ids| ==> a.ids[i] !in w.used
    ensures Chained(Imported(w, sites, req, a, h))
  {
    hide After, WellFormed, Setting, PendingSound, FaithfulTo, Trail;
    var after := After(w.rows, sites, req, a, h);
    if after.Some? {
      ImportedRows(w.rows, sites, req, a, h, w.used);
      SilentKeepsChained(w, Imported(w, sites, req, a, h));
    }
  }

  lemma StepKeepsChained(w: World, s: Step)
    requires Sound(w) && Chained(w) && Possible(w, s)
    ensures Chained(Next(w, s))
  {
    hide WellFormed, After, Save, SaveStatus, Imported, PendingSound, Trail, FaithfulTo;
    match s {
      case SaveStep(r, now) => SaveKeepsChained(w, r, now);
      case SaveStatusStep(r, now) => SaveStatusKeepsChained(w, r, now);
      case ImportStep(sites, req, a, h) => ImportKeepsChained(w, sites, req, a, h);
      case _ => SilentKeepsChained(w, Next(w, s));
    }
  }

  lemma InitialIsChained(w: World)
    requires Initial(w)
    ensures LogSound(w) && Chained(w)
  {
  }

  lemma {:induction false} RunIsChained(trace: seq<World>, steps: seq<Step>, n: nat)
    requires Behaves(trace, steps) && Initial(trace[0]) && n <= |steps|
    ensures Chained(trace[n])
  {
    hide Next, WellFormed, Chained, LogSound, Sound;
    if n == 0 {
      InitialIsChained(trace[0]);
    } else {
      RunIsChained(trace, steps, n - 1);
      RunIsSound(trace, steps, n - 1);
      StepKeepsChained(trace[n - 1], steps[n - 1]);
    }
  }

  /** Over every run, and for every endpoint that ever was: its reported status changes form an unbroken chain from
      the status it was created with to the one it has if and only if each of its updates reported the status it
      replaced. A break is never mended. No status change goes from a status to itself. */
  lemma StatusChainIff(trace: seq<World>, steps: seq<Step>, n: nat, id: string)
    requires Behaves(trace, steps) && Initial(trace[0]) && n <= |steps| && id in trace[n].born
    ensures ChainOf(trace[n], id) <==> FaithfulTo(trace[n].log, id)
    ensures !FaithfulTo(trace[n].log, id) ==> Trail(trace[n].log, id, trace[n].born[id]) == None
    ensures forall i :: 0 <= i < |trace[n].log| && trace[n].log[i].StatusCommit? ==>
              From(trace[n].log[i].event) != To(trace[n].log[i].event)
  {
    RunIsChained(trace, steps, n);
    RunLogIsSound(trace, steps, n);
    forall i | 0 <= i < |trace[n].log| ensures CommitSound(trace[n], trace[n].log[i]) {
    }
  }

  /** Every update was committed on a version issued before its read. */
  ghost predicate LogTimely(w: World) {
    forall i :: 0 <= i < |w.log| && w.log[i].UpdateCommit? ==> w.log[i].quoted <= w.log[i].readAt
  }

  lemma StepKeepsLogTimely(w: World, s: Step)
    requires Sound(w) && AllQuotesKnown(w) && LogTimely(w) && Possible(w, s)
    ensures LogTimely(Next(w, s))
  {
    hide WellFormed, After, UpdateStatement, StatusStatement, CreatedRow;
    if s.SaveStep? {
      assert PendingSound(w, w.pending[s.request]) && QuotesKnown(w.pending[s.request]);
    }
  }

  lemma {:induction false} TimelyRunHasTimelyLog(trace: seq<World>, steps: seq<Step>, n: nat)
    requires Behaves(trace, steps) && Initial(trace[0]) && n <= |steps|
    requires forall i :: 0 <= i < |steps| ==> Timely(steps[i])
    ensures LogTimely(trace[n])
  {
    if n > 0 {
      TimelyRunHasTimelyLog(trace, steps, n - 1);
      RunIsSound(trace, steps, n - 1);
      TimelyRunKeepsQuotesKnown(trace, steps, n - 1);
      StepKeepsLogTimely(trace[n - 1], steps[n - 1]);
    }
  }

  /** If clients quote versions they may have seen, updates report what they replaced, so every chain is unbroken. */
  lemma StatusChainIsUnbroken(trace: seq<World>, steps: seq<Step>, n: nat)
    requires Behaves(trace, steps) && Initial(trace[0]) && n <= |steps|
    requires forall i :: 0 <= i < |steps| ==> Timely(steps[i])
    ensures trace[n].rows.Keys <= trace[n].born.Keys
    ensures forall i :: 0 <= i < |trace[n].log| && trace[n].log[i].UpdateCommit? ==>
              trace[n].log[i].event.Updated? && trace[n].log[i].event.before == trace[n].log[i].overwrote
    ensures forall id :: id in trace[n].born ==> ChainOf(trace[n], id)
  {
    hide Next, Sound, ChainOf, FaithfulTo;
    TimelyRunHasTimelyLog(trace, steps, n);
    RunLogIsSound(trace, steps, n);
    RunIsChained(trace, steps, n);
    var log := trace[n].log;
    forall i | 0 <= i < |log| && log[i].UpdateCommit?
      ensures log[i].event.Updated? && log[i].event.before == log[i].overwrote
    {
      assert CommitSound(trace[n], log[i]);
    }
    forall id | id in trace[n].born ensures ChainOf(trace[n], id) {
      StatusChainIff(trace, steps, n, id);
      AllFaithful(log, id);
    }
  }

  lemma AllFaithful(log: seq<Commit>, id: string)
    requires forall i :: 0 <= i < |log| && log[i].UpdateCommit? ==>
               log[i].event.Updated? && log[i].event.before == log[i].overwrote
    ensures FaithfulTo(log, id)
  {
  }

  /** The id of a deleted endpoint is never given to another. */
  lemma {:induction false} IdsNeverReturn(trace: seq<World>, steps: seq<Step>, m: nat, n: nat, id: string)
    requires Behaves(trace, steps) && m <= n <= |steps| && id in trace[m].used && id !in trace[m].rows
    ensures id in trace[n].used && id !in trace[n].rows
    decreases n
  {
    hide Next, Sound, WellFormed, Possible;
    if m < n {
      IdsNeverReturn(trace, steps, m, n - 1, id);
      RunIsSound(trace, steps, n - 1);
      StepIsSound(trace[n - 1], steps[n - 1]);
    }
  }

  // ---------- a client that quotes a version not yet issued ----------

  const DRAFT_ROW := Endpoint("e", "p", "/a", "get", Draft, Sample("draft"), "ann", "0", "ann", 0)

  const ANN := User("ann", "ann")

  const EARLY_UPDATE := UpdateRequest("p", "e", 1, Content("/a", "get", Some(Draft), Sample("edited")), ANN, "0", 0)

  function EarlyWorld(row: Endpoint, clock: nat, pending: map<nat, Pending>, log: seq<Commit>): World {
    World(map["e" := row], clock, {"e"}, map["e" := Draft], pending, log)
  }

  const REVIEWED := DRAFT_ROW.(status := InReview, updatedById := "ann", updatedAt := 1)

  function EarlyTrace(): (r: seq<World>)
    ensures |r| == 6
  {
    var toReview := Restating("e", DRAFT_ROW, InReview, ANN);
    var loaded := Loaded(EARLY_UPDATE, DRAFT_ROW, "ann", 0);
    var reviewed := StatusCommit(StatusUpdated("e", Draft, InReview));
    var saved := UpdatedRow(REVIEWED, DRAFT_ROW, EARLY_UPDATE.content, "ann", ANN, "0", 2);
    [EarlyWorld(DRAFT_ROW, 0, map[], []),
     EarlyWorld(DRAFT_ROW, 0, map[0 := Arrived(EARLY_UPDATE)], []),
     EarlyWorld(DRAFT_ROW, 0, map[0 := loaded], []),
     EarlyWorld(DRAFT_ROW, 0, map[0 := loaded, 1 := toReview], []),
     EarlyWorld(REVIEWED, 1, map[0 := loaded], [reviewed]),
     EarlyWorld(saved, 2, map[], [reviewed, UpdateCommit(Updated("e", DRAFT_ROW, saved), REVIEWED, 1, 0)])]
  }

  function EarlySteps(): (r: seq<Step>)
    ensures |r| == 5
  {
    [ArriveStep(0, EARLY_UPDATE), LoadStep(0, "ann"), LoadStatusStep(1, "p", "e", InReview, ANN),
     SaveStatusStep(1, 1), SaveStep(0, 2)]
  }

  ghost predicate Leads(w: World, s: Step, w': World) {
    WellFormed(w.rows) && Possible(w, s) && w' == Next(w, s)
  }

  lemma OneRowIsWellFormed(row: Endpoint)
    requires row.id == "e" && row.verb == "get"
    ensures WellFormed(map["e" := row])
  {
  }

  lemma EarlyReads(i: nat)
    requires i < 3
    ensures Leads(EarlyTrace()[i], EarlySteps()[i], EarlyTrace()[i + 1])
  {
    hide WellFormed, WithMetadata, SavedMetadata;
    OneRowIsWellFormed(DRAFT_ROW);
    var loaded := Loaded(EARLY_UPDATE, DRAFT_ROW, "ann", 0);
    assert map[0 := Arrived(EARLY_UPDATE)][0 := loaded] == map[0 := loaded];
    assert map[0 := loaded][1 := Restating("e", DRAFT_ROW, InReview, ANN)]
        == map[0 := loaded, 1 := Restating("e", DRAFT_ROW, InReview, ANN)];
  }

  lemma EarlyReview()
    ensures Leads(EarlyTrace()[3], EarlySteps()[3], EarlyTrace()[4])
  {
    hide WellFormed, WithMetadata, SavedMetadata;
    OneRowIsWellFormed(DRAFT_ROW);
    var loaded, toReview := Loaded(EARLY_UPDATE, DRAFT_ROW, "ann", 0), Restating("e", DRAFT_ROW, InReview, ANN);
    assert map[0 := loaded, 1 := toReview] - {1} == map[0 := loaded];
    assert map["e" := DRAFT_ROW]["e" := REVIEWED] == map["e" := REVIEWED];
  }

  lemma EarlySave()
    ensures Leads(EarlyTrace()[4], EarlySteps()[4], EarlyTrace()[5])
  {
    hide WellFormed, WithMetadata, SavedMetadata;
    OneRowIsWellFormed(REVIEWED);
    var loaded := Loaded(EARLY_UPDATE, DRAFT_ROW, "ann", 0);
    assert map[0 := loaded] - {0} == map[];
    var saved := UpdatedRow(REVIEWED, DRAFT_ROW, EARLY_UPDATE.content, "ann", ANN, "0", 2);
    assert map["e" := REVIEWED]["e" := saved] == map["e" := saved];
    assert !RouteTaken(map["e" := REVIEWED], "p", "/a", "get", "e");
  }

  lemma EarlyStart()
    ensures Initial(EarlyTrace()[0])
  {
    hide WellFormed, WithMetadata, SavedMetadata;
    OneRowIsWellFormed(DRAFT_ROW);
  }

  lemma EarlyChain(reviewed: Commit, saved: Commit)
    requires reviewed == StatusCommit(StatusUpdated("e", Draft, InReview))
    requires UpdateOf(saved, "e") && saved.event.before.status == Draft
    ensures Trail([reviewed, saved], "e", Draft) == None
  {
    TrailSnoc([reviewed], saved, "e", Draft);
    TrailSnoc([], reviewed, "e", Draft);
    assert [reviewed] + [saved] == [reviewed, saved] && [] + [reviewed] == [reviewed];
  }

  lemma EarlyRun()
    ensures Behaves(EarlyTrace(), EarlySteps())
  {
    hide WellFormed, Possible, Next, EarlyTrace, EarlySteps, Sound;
    var trace, steps := EarlyTrace(), EarlySteps();
    EarlyStart();
    forall i | 0 <= i < |steps|
      ensures WellFormed(trace[i].rows) && Possible(trace[i], steps[i]) && trace[i + 1] == Next(trace[i], steps[i])
    {
      if i < 3 {
        EarlyReads(i);
      } else if i == 3 {
        EarlyReview();
      } else {
        EarlySave();
      }
      assert Leads(trace[i], steps[i], trace[i + 1]);
    }
  }

  /** Without timeliness the chain can break: a client quotes version 1 while the row is at version 0; a status
      change then issues version 1, and the update, which read the draft, overwrites the reviewed row. */
  lemma FutureQuoteBreaksTheChain() returns (trace: seq<World>, steps: seq<Step>)
    ensures Behaves(trace, steps) && Initial(trace[0])
    ensures var w := trace[|steps|];
            && "e" in w.rows && "e" in w.born && Trail(w.log, "e", w.born["e"]) == None
            && |w.log| == 2 && UpdateOf(w.log[1], "e")
            && w.log[1].event.before == DRAFT_ROW && w.log[1].overwrote != DRAFT_ROW
  {
    hide Behaves, Initial, Trail;
    trace, steps := EarlyTrace(), EarlySteps();
    EarlyStart();
    EarlyRun();
    EarlyChain(trace[5].log[0], trace[5].log[1]);
  }
}
