/** One import, statement by statement and row by row: when the inserts clash, what becomes of each row, and
    which row answers for which operation of the document. */
module ImportSteps {
  import opened Wrappers
  import opened Json
  import opened HttpMethods
  import opened AppMetadata
  import opened Endpoints
  import opened SpecReconciliation
  import opened Projects

  /** The rows, the document and the database's answers an import starts from. */
  ghost predicate Setting(t: Table, sites: seq<Site>, req: Request, a: Answers, h: Heap) {
    WellFormed(t) && Covers(h, sites) && Truthful(t, sites, req, a)
  }

  /** The table after the three statements, if none of them fails. */
  ghost function After(t: Table, sites: seq<Site>, req: Request, a: Answers, h: Heap): Option<Table>
    requires Setting(t, sites, req, a, h)
  {
    var c := ContextOf(req, a, h);
    CreatesHold(sites, c, req.projectId);
    UpdatesHold(t, sites, req, a, h);
    Statements(t, Doomed(sites, req, a, h), ToCreate(sites, c, req.projectId), ToUpdate(sites, c), Final(sites, c), a)
  }

  ghost function RowsToCreate(sites: seq<Site>, req: Request, a: Answers, h: Heap): (r: seq<Endpoint>)
    requires Covers(h, sites) && |sites| <= |a.ids|
    ensures |r| <= |a.ids|
    ensures forall i :: 0 <= i < |r| ==> r[i].id == a.ids[i]
  {
    var c := ContextOf(req, a, h);
    CreatesHold(sites, c, req.projectId);
    NewRows(ToCreate(sites, c, req.projectId), Final(sites, c), a)
  }

  /** No two accepted method keys of one path are equal up to case. */
  ghost predicate CaseDistinct(sites: seq<Site>, h: Heap)
    requires Covers(h, sites)
  {
    forall i, j :: 0 <= i < j < |sites| && Accepted(sites[i], h) && Accepted(sites[j], h) ==>
      SiteKey(sites[i]) != SiteKey(sites[j])
  }

  // ---------- keys, routes and picks ----------

  lemma KeyMatchesRoute(s: Site, e: Endpoint)
    requires ToLower(s.key) in VALID_HTTP_METHODS && e.verb in VALID_HTTP_METHODS
    ensures SiteKey(s) == KeyOf(e) <==> SiteRoute(s) == RouteOf(e)
  {
    ValidMethodIsPlain(e.verb);
    EndpointKeyIsInjective(s.key, s.path, e.verb, e.path);
  }

  lemma KeysMatchRoutes(s: Site, s': Site)
    requires ToLower(s.key) in VALID_HTTP_METHODS && ToLower(s'.key) in VALID_HTTP_METHODS
    ensures SiteKey(s) == SiteKey(s') <==> SiteRoute(s) == SiteRoute(s')
  {
    EndpointKeyIsInjective(s.key, s.path, s'.key, s'.path);
  }

  /** Two sites ask for the same decision under the same key. */
  ghost predicate SameKeyTwice(sites: seq<Site>, c: Context, d: Decision)
    requires Covers(c.h, sites)
  {
    exists i, j :: 0 <= i < j < |sites| && Decide(sites[i], c) == d && Decide(sites[j], c) == d
                   && SiteKey(sites[i]) == SiteKey(sites[j])
  }

  ghost predicate DistinctSiteKeys(sites: seq<Site>) {
    forall i, j :: 0 <= i < j < |sites| ==> SiteKey(sites[i]) != SiteKey(sites[j])
  }

  lemma DistinctSnoc(before: seq<Site>, last: Site)
    ensures DistinctSiteKeys(before + [last]) <==>
            DistinctSiteKeys(before) && forall s :: s in before ==> SiteKey(s) != SiteKey(last)
  {
    var now := before + [last];
    assert now[|before|] == last;
    assert forall i :: 0 <= i < |before| ==> now[i] == before[i];
    if DistinctSiteKeys(now) {
      forall s | s in before ensures SiteKey(s) != SiteKey(last) {
        var i :| 0 <= i < |before| && before[i] == s;
        assert now[i] == s;
      }
    }
  }

  lemma SameKeySnoc(init: seq<Site>, last: Site, c: Context, d: Decision)
    requires Covers(c.h, init + [last]) && Covers(c.h, init) && last.ref in c.h
    ensures SameKeyTwice(init + [last], c, d) <==>
            (SameKeyTwice(init, c, d)
             || (Decide(last, c) == d && exists s :: s in init && Decide(s, c) == d && SiteKey(s) == SiteKey(last)))
  {
    hide SiteKey, Decide;
    var sites := init + [last];
    assert sites[|init|] == last;
    assert forall i :: 0 <= i < |init| ==> sites[i] == init[i];
    if Decide(last, c) == d && exists s :: s in init && Decide(s, c) == d && SiteKey(s) == SiteKey(last) {
      var s :| s in init && Decide(s, c) == d && SiteKey(s) == SiteKey(last);
      var i :| 0 <= i < |init| && init[i] == s;
      assert sites[i] == s;
    }
  }

  lemma {:induction false} PickKeepsDistinctness(sites: seq<Site>, c: Context, d: Decision)
    requires Covers(c.h, sites)
    ensures DistinctSiteKeys(Pick(sites, c, d)) <==> !SameKeyTwice(sites, c, d)
  {
    hide SiteKey, Decide, DistinctSiteKeys, SameKeyTwice;
    if |sites| > 0 {
      var init, last := sites[..|sites| - 1], sites[|sites| - 1];
      assert sites == init + [last];
      PickKeepsDistinctness(init, c, d);
      PickMembers(init, c, d);
      SameKeySnoc(init, last, c, d);
      DistinctSnoc(Pick(init, c, d), last);
      assert Pick(sites, c, d) == if Decide(last, c) == d then Pick(init, c, d) + [last] else Pick(init, c, d);
    } else {
      NothingTwice(c, d);
    }
  }

  lemma NothingTwice(c: Context, d: Decision)
    ensures DistinctSiteKeys([]) && !SameKeyTwice([], c, d)
  {
  }

  // ---------- which imports clash ----------

  lemma NewRowsRoutes(t: Table, sites: seq<Site>, req: Request, a: Answers, h: Heap)
    requires Setting(t, sites, req, a, h)
    ensures var c := ContextOf(req, a, h);
            var rows, picked := RowsToCreate(sites, req, a, h), Pick(sites, c, Create);
            && |rows| == |picked|
            && (forall i :: 0 <= i < |rows| ==>
                  rows[i] == Endpoint(a.ids[i], req.projectId, picked[i].path, ToLower(picked[i].key), Draft,
                                      Final(sites, c)[picked[i].ref], req.user.id, a.createdAt, req.user.id, a.now))
  {
    var c := ContextOf(req, a, h);
    CreatesHold(sites, c, req.projectId);
    var news := ToCreate(sites, c, req.projectId);
    forall i | 0 <= i < |news| ensures news[i] in news {
    }
  }

  /** A bulk insert of the new rows can only fail on two of those rows. */
  lemma NewRowsAreFree(t: Table, sites: seq<Site>, req: Request, a: Answers, h: Heap)
    requires Setting(t, sites, req, a, h)
    ensures var c := ContextOf(req, a, h);
            var rows := RowsToCreate(sites, req, a, h);
            && RoutesFree(t, rows)
            && (RoutesDistinct(rows) <==> !SameKeyTwice(sites, c, Create))
  {
    var c := ContextOf(req, a, h);
    var rows, picked := RowsToCreate(sites, req, a, h), Pick(sites, c, Create);
    NewRowsRoutes(t, sites, req, a, h);
    ListingHasDistinctKeys(a.listing, t, req.projectId);
    ByKeyMeaning(a.listing);
    forall i, id | 0 <= i < |rows| && id in t ensures !SameRoute(t[id], rows[i]) {
      assert picked[i] in picked;
      if t[id].projectId == req.projectId {
        assert t[id] in a.listing;
        KeyMatchesRoute(picked[i], t[id]);
      }
    }
    forall i, j | 0 <= i < j < |rows| ensures SameRoute(rows[i], rows[j]) <==> SiteKey(picked[i]) == SiteKey(picked[j]) {
      assert picked[i] in picked && picked[j] in picked;
      KeysMatchRoutes(picked[i], picked[j]);
    }
    PickKeepsDistinctness(sites, c, Create);
  }

  /** The create step violates uniqueness, and the import changes nothing, exactly when the document gives one
      new path two method keys that are equal up to case. */
  lemma ImportClashesIff(t: Table, sites: seq<Site>, req: Request, a: Answers, h: Heap)
    requires Setting(t, sites, req, a, h)
    ensures After(t, sites, req, a, h).None? <==> SameKeyTwice(sites, ContextOf(req, a, h), Create)
  {
    var c := ContextOf(req, a, h);
    NewRowsAreFree(t, sites, req, a, h);
    CreateManyMeaning(DeleteMany(t, Doomed(sites, req, a, h)), RowsToCreate(sites, req, a, h));
  }

  // ---------- row by row ----------

  lemma {:induction false} UpdatesOfOthers(t: Table, updates: seq<EndpointToUpdate>, f: Heap, now: nat, id: string)
    requires id in t && forall u :: u in updates ==> u.id in t && u.operation in f && u.id != id
    ensures UpdateMany(t, updates, f, now)[id] == t[id]
  {
    if |updates| > 0 {
      UpdatesOfOthers(t, updates[..|updates| - 1], f, now, id);
      assert updates[|updates| - 1] in updates;
    }
  }

  /** A document entry rewrites row `e`. */
  ghost predicate Rewrites(s: Site, sites: seq<Site>, c: Context, e: Endpoint)
    requires Covers(c.h, sites)
  {
    s in sites && Decide(s, c) == Update && SiteKey(s) == KeyOf(e)
  }

  /** The last entry that rewrites row `e`. */
  ghost function LastRewriter(sites: seq<Site>, c: Context, e: Endpoint): (r: Option<Site>)
    requires Covers(c.h, sites)
    ensures r.Some? ==> Rewrites(r.value, sites, c, e)
    ensures r.None? ==> forall s :: s in sites ==> !Rewrites(s, sites, c, e)
  {
    if |sites| == 0 then None
    else
      var init, last := sites[..|sites| - 1], sites[|sites| - 1];
      assert sites == init + [last];
      if Rewrites(last, sites, c, e) then Some(last) else LastRewriter(init, c, e)
  }

  /** What becomes of a row of the imported project that is not deleted. */
  ghost function Rewritten(e: Endpoint, sites: seq<Site>, c: Context, f: Heap, now: nat): Endpoint
    requires Covers(c.h, sites) && f.Keys == c.h.Keys
  {
    var s := LastRewriter(sites, c, e);
    if s.None? then e else Edited(e, f[s.value.ref], c.user.id, now)
  }

  lemma {:induction false} LastRewriterWins(sites: seq<Site>, c: Context, grown: Table, e: Endpoint, f: Heap, now: nat)
    requires Covers(c.h, sites) && f.Keys == c.h.Keys && e.id in grown && grown[e.id] == e
    requires forall k :: k in c.byKey ==> (c.byKey[k].id == e.id <==> k == KeyOf(e))
    requires forall u :: u in ToUpdate(sites, c) ==> u.id in grown && u.operation in f
    ensures UpdateMany(grown, ToUpdate(sites, c), f, now)[e.id] == Rewritten(e, sites, c, f, now)
  {
    if |sites| > 0 {
      hide Decide, SiteKey, KeyOf, ToUpdate;
      var init, last := sites[..|sites| - 1], sites[|sites| - 1];
      assert sites == init + [last];
      Extend(init, last, c, "");
      UpdateMeansIndexed(last, c);
      LastRewriterWins(init, c, grown, e, f, now);
      if Decide(last, c) == Update {
        var updates := ToUpdate(sites, c);
        assert updates[..|updates| - 1] == ToUpdate(init, c);
      } else {
        assert ToUpdate(sites, c) == ToUpdate(init, c);
      }
    } else {
      assert ToUpdate(sites, c) == [];
    }
  }

  lemma UpdateMeansIndexed(s: Site, c: Context)
    requires s.ref in c.h
    ensures Decide(s, c) == Update ==> SiteKey(s) in c.byKey
  {
  }

  /** Rows of other projects stay, rows without an accepted operation go, and every other row is as its last
      rewriting entry leaves it. */
  lemma RowAfter(t: Table, sites: seq<Site>, req: Request, a: Answers, h: Heap, id: string)
    requires Setting(t, sites, req, a, h) && After(t, sites, req, a, h).Some?
    requires id in t
    ensures var u, c := After(t, sites, req, a, h).value, ContextOf(req, a, h);
            && (t[id].projectId != req.projectId ==> id in u && u[id] == t[id])
            && (t[id].projectId == req.projectId && KeyOf(t[id]) !in SeenKeys(sites, h) ==> id !in u)
            && (t[id].projectId == req.projectId && KeyOf(t[id]) in SeenKeys(sites, h) ==>
                  id in u && u[id] == Rewritten(t[id], sites, c, Final(sites, c), a.now))
  {
    hide CreateMany, UpdateMany, NewRows, Final, WellFormed, ToUpdate;
    var c := ContextOf(req, a, h);
    var f, doomed, updates := Final(sites, c), Doomed(sites, req, a, h), ToUpdate(sites, c);
    var rows := RowsToCreate(sites, req, a, h);
    DoomedMeaning(t, sites, req, a, h);
    UpdatesHold(t, sites, req, a, h);
    var kept := DeleteMany(t, doomed);
    CreateManyMeaning(kept, rows);
    CreateManyGrows(kept, rows);
    var grown := CreateMany(kept, rows).value;
    if id in doomed {
      assert forall i :: 0 <= i < |rows| ==> rows[i].id != id;
    } else if t[id].projectId == req.projectId {
      IndexNamesRow(t, sites, req, a, h, id);
      LastRewriterWins(sites, c, grown, t[id], f, a.now);
    } else {
      OnlyOwnRowsUpdated(t, sites, req, a, h);
      UpdatesOfOthers(grown, updates, f, a.now, id);
    }
  }

  lemma IndexNamesRow(t: Table, sites: seq<Site>, req: Request, a: Answers, h: Heap, id: string)
    requires Setting(t, sites, req, a, h) && id in t && t[id].projectId == req.projectId
    ensures var byKey := ByKey(a.listing);
            && t[id].id == id && KeyOf(t[id]) in byKey && byKey[KeyOf(t[id])] == t[id]
            && forall k :: k in byKey ==> (byKey[k].id == id <==> k == KeyOf(t[id]))
  {
    ListingHasDistinctKeys(a.listing, t, req.projectId);
    ByKeyMeaning(a.listing);
    assert t[id] in a.listing;
  }

  lemma OnlyOwnRowsUpdated(t: Table, sites: seq<Site>, req: Request, a: Answers, h: Heap)
    requires Setting(t, sites, req, a, h)
    ensures forall u :: u in ToUpdate(sites, ContextOf(req, a, h)) ==> u.id in t && t[u.id].projectId == req.projectId
  {
    var c := ContextOf(req, a, h);
    var picked, updates := Pick(sites, c, Update), ToUpdate(sites, c);
    ListingHasDistinctKeys(a.listing, t, req.projectId);
    ByKeyMeaning(a.listing);
    forall u | u in updates ensures u.id in t && t[u.id].projectId == req.projectId {
      var i :| 0 <= i < |updates| && updates[i] == u;
      assert picked[i] in picked && c.byKey[SiteKey(picked[i])] in a.listing;
    }
  }

  lemma UpdatesKeepNewRows(t: Table, sites: seq<Site>, req: Request, a: Answers, h: Heap, grown: Table, id: string)
    requires Setting(t, sites, req, a, h) && id !in t && id in grown && grown[id].id == id
    requires forall u :: u in ToUpdate(sites, ContextOf(req, a, h)) ==> u.id in grown && u.operation in h
    ensures var c := ContextOf(req, a, h);
            UpdateMany(grown, ToUpdate(sites, c), Final(sites, c), a.now)[id] == grown[id]
  {
    var c := ContextOf(req, a, h);
    OnlyOwnRowsUpdated(t, sites, req, a, h);
    UpdatesOfOthers(grown, ToUpdate(sites, c), Final(sites, c), a.now, id);
  }

  /** The ids after the import: the rows that were not deleted, and the new ones, which are as planned. */
  lemma IdsAfter(t: Table, sites: seq<Site>, req: Request, a: Answers, h: Heap)
    requires Setting(t, sites, req, a, h) && After(t, sites, req, a, h).Some?
    ensures var u, rows := After(t, sites, req, a, h).value, RowsToCreate(sites, req, a, h);
            && u.Keys == (t.Keys - (set id | id in Doomed(sites, req, a, h))) + (set i | 0 <= i < |rows| :: a.ids[i])
            && (forall i :: 0 <= i < |rows| ==> u[a.ids[i]] == rows[i])
  {
    hide WellFormed, Lists, ToUpdate, Doomed, UpdateMany, CreateMany, Final, ToCreate, NewRows;
    var c := ContextOf(req, a, h);
    var doomed, rows := Doomed(sites, req, a, h), RowsToCreate(sites, req, a, h);
    UpdatesHold(t, sites, req, a, h);
    var kept := DeleteMany(t, doomed);
    CreateManyMeaning(kept, rows);
    CreateManyGrows(kept, rows);
    var grown := CreateMany(kept, rows).value;
    assert (set i | 0 <= i < |rows| :: a.ids[i]) == (set i | 0 <= i < |rows| :: rows[i].id);
    forall i | 0 <= i < |rows| ensures UpdateMany(grown, ToUpdate(sites, c), Final(sites, c), a.now)[a.ids[i]] == rows[i] {
      UpdatesKeepNewRows(t, sites, req, a, h, grown, a.ids[i]);
    }
  }

  // ---------- the table stays well-formed, statement by statement ----------

  lemma {:induction false} CreateManyKeepsWellFormed(t: Table, rows: seq<Endpoint>)
    requires WellFormed(t) && forall e :: e in rows ==> e.verb in VALID_HTTP_METHODS
    ensures CreateMany(t, rows).Some? ==> WellFormed(CreateMany(t, rows).value)
    decreases rows
  {
    if |rows| > 0 && CanInsert(t, rows[0]) {
      var t' := t[rows[0].id := rows[0]];
      assert rows[0] in rows;
      PutRowKeepsWellFormed(t, rows[0]);
      CreateManyKeepsWellFormed(t', rows[1..]);
    }
  }

  lemma {:induction false} UpdateManyKeepsWellFormed(t: Table, updates: seq<EndpointToUpdate>, f: Heap, now: nat)
    requires WellFormed(t) && forall u :: u in updates ==> u.id in t && u.operation in f
    ensures WellFormed(UpdateMany(t, updates, f, now))
  {
    if |updates| > 0 {
      var init, last := updates[..|updates| - 1], updates[|updates| - 1];
      UpdateManyKeepsWellFormed(t, init, f, now);
      var before := UpdateMany(t, init, f, now);
      PutRowKeepsWellFormed(before, Edited(before[last.id], f[last.operation], last.updatedById, now));
    }
  }

  /** After the deletes, after the creates and after the updates, methods are valid and lower-case and no
      project has a route twice. */
  lemma ImportKeepsWellFormed(t: Table, sites: seq<Site>, req: Request, a: Answers, h: Heap)
    requires Setting(t, sites, req, a, h)
    ensures var afterDelete := DeleteMany(t, Doomed(sites, req, a, h));
            && WellFormed(afterDelete)
            && var created := CreateMany(afterDelete, RowsToCreate(sites, req, a, h));
               (created.Some? ==> WellFormed(created.value))
               && (After(t, sites, req, a, h).Some? ==> WellFormed(After(t, sites, req, a, h).value))
  {
    hide WellFormed, Lists, CreateMany, UpdateMany, NewRows, Final;
    var c := ContextOf(req, a, h);
    var rows, picked := RowsToCreate(sites, req, a, h), Pick(sites, c, Create);
    DeleteManyKeeps(t, Doomed(sites, req, a, h));
    var afterDelete := DeleteMany(t, Doomed(sites, req, a, h));
    NewRowsRoutes(t, sites, req, a, h);
    forall e | e in rows ensures e.verb in VALID_HTTP_METHODS {
      var i :| 0 <= i < |rows| && rows[i] == e;
      assert picked[i] in picked;
    }
    CreateManyKeepsWellFormed(afterDelete, rows);
    if CreateMany(afterDelete, rows).Some? {
      UpdatesHold(t, sites, req, a, h);
      CreateManyGrows(afterDelete, rows);
      UpdateManyKeepsWellFormed(CreateMany(afterDelete, rows).value, ToUpdate(sites, c), Final(sites, c), a.now);
    }
  }

  // ---------- the table reaches the document ----------

  lemma CaseDistinctNeverClashes(sites: seq<Site>, c: Context)
    requires Covers(c.h, sites) && CaseDistinct(sites, c.h)
    ensures !SameKeyTwice(sites, c, Create)
  {
  }

  lemma SameKeySameSite(sites: seq<Site>, h: Heap, s: Site, s': Site)
    requires Covers(h, sites) && CaseDistinct(sites, h)
    requires s in sites && s' in sites && Accepted(s, h) && Accepted(s', h) && SiteKey(s) == SiteKey(s')
    ensures s == s'
  {
    var i :| 0 <= i < |sites| && sites[i] == s;
    var j :| 0 <= j < |sites| && sites[j] == s';
  }

  lemma SameContentMeaning(stored: Value, incoming: Value)
    ensures SameContent(stored, incoming) <==> Comparable(stored) == Comparable(incoming)
  {
    StringifyIsInjective(Comparable(stored), Comparable(incoming));
  }

  /** How the row that answers for an accepted site came to hold its operation. */
  ghost predicate Serves(e: Endpoint, s: Site, sites: seq<Site>, c: Context)
    requires Covers(c.h, sites) && s in sites
  {
    && RouteOf(e) == SiteRoute(s)
    && (Decide(s, c) == Keep ==> e == c.byKey[SiteKey(s)])
    && (Decide(s, c) != Keep ==> e.operation == Final(sites, c)[s.ref])
  }

  lemma OldRowServes(t: Table, sites: seq<Site>, req: Request, a: Answers, h: Heap, s: Site) returns (id: string)
    requires Setting(t, sites, req, a, h) && After(t, sites, req, a, h).Some? && CaseDistinct(sites, h)
    requires s in sites && Accepted(s, h) && SiteKey(s) in ByKey(a.listing)
    ensures var u := After(t, sites, req, a, h).value;
            && id in t && t[id] == ByKey(a.listing)[SiteKey(s)]
            && id in u && u[id].projectId == req.projectId && Serves(u[id], s, sites, ContextOf(req, a, h))
  {
    var c, u := ContextOf(req, a, h), After(t, sites, req, a, h).value;
    ListingHasDistinctKeys(a.listing, t, req.projectId);
    ByKeyMeaning(a.listing);
    var e := c.byKey[SiteKey(s)];
    assert e in a.listing;
    id := e.id;
    KeyMatchesRoute(s, e);
    assert SiteKey(s) in SeenKeys(sites, h);
    RowAfter(t, sites, req, a, h, id);
    var last := LastRewriter(sites, c, e);
    if last.Some? {
      SameKeySameSite(sites, h, s, last.value);
    }
    assert Decide(s, c) == Update ==> Rewrites(s, sites, c, e);
    ServesWhenRewritten(e, s, sites, c, a.now);
  }

  lemma ServesWhenRewritten(e: Endpoint, s: Site, sites: seq<Site>, c: Context, now: nat)
    requires Covers(c.h, sites) && s in sites && Accepted(s, c.h)
    requires SiteKey(s) in c.byKey && c.byKey[SiteKey(s)] == e && RouteOf(e) == SiteRoute(s)
    requires LastRewriter(sites, c, e) == if Decide(s, c) == Update then Some(s) else None
    ensures var after := Rewritten(e, sites, c, Final(sites, c), now);
            after.projectId == e.projectId && Serves(after, s, sites, c)
  {
  }

  lemma NewRowServes(t: Table, sites: seq<Site>, req: Request, a: Answers, h: Heap, s: Site) returns (id: string)
    requires Setting(t, sites, req, a, h) && After(t, sites, req, a, h).Some?
    requires s in sites && Decide(s, ContextOf(req, a, h)) == Create
    ensures var u := After(t, sites, req, a, h).value;
            id !in t && id in u && u[id].projectId == req.projectId && Serves(u[id], s, sites, ContextOf(req, a, h))
  {
    var c := ContextOf(req, a, h);
    var rows, picked := RowsToCreate(sites, req, a, h), Pick(sites, c, Create);
    PickMembers(sites, c, Create);
    NewRowsRoutes(t, sites, req, a, h);
    IdsAfter(t, sites, req, a, h);
    assert s in picked;
    var i :| 0 <= i < |picked| && picked[i] == s;
    assert rows[i].operation == Final(sites, c)[s.ref];
    id := a.ids[i];
  }

  lemma OldRowHasSite(t: Table, sites: seq<Site>, req: Request, a: Answers, h: Heap, id: string) returns (s: Site)
    requires Setting(t, sites, req, a, h) && After(t, sites, req, a, h).Some?
    requires id in t && id in After(t, sites, req, a, h).value && t[id].projectId == req.projectId
    ensures s in sites && Accepted(s, h) && SiteRoute(s) == RouteOf(After(t, sites, req, a, h).value[id])
  {
    hide After, Lists;
    RowAfter(t, sites, req, a, h, id);
    assert KeyOf(t[id]) in SeenKeys(sites, h);
    s :| s in sites && Accepted(s, h) && SiteKey(s) == KeyOf(t[id]);
    KeyMatchesRoute(s, t[id]);
  }

  /** Every row of the project answers for some accepted site. */
  lemma RowHasSite(t: Table, sites: seq<Site>, req: Request, a: Answers, h: Heap, id: string) returns (s: Site)
    requires Setting(t, sites, req, a, h) && After(t, sites, req, a, h).Some?
    requires id in After(t, sites, req, a, h).value && After(t, sites, req, a, h).value[id].projectId == req.projectId
    ensures s in sites && Accepted(s, h) && SiteRoute(s) == RouteOf(After(t, sites, req, a, h).value[id])
  {
    hide After, WellFormed, Lists, Accepted, SeenKeys;
    if id in t {
      hide Rewritten;
      RowAfter(t, sites, req, a, h, id);
      OtherRowsKeepProject(t, sites, req, a, h, id);
      s := OldRowHasSite(t, sites, req, a, h, id);
    } else {
      s := NewRowHasSite(t, sites, req, a, h, id);
    }
  }

  lemma OtherRowsKeepProject(t: Table, sites: seq<Site>, req: Request, a: Answers, h: Heap, id: string)
    requires Setting(t, sites, req, a, h) && After(t, sites, req, a, h).Some?
    requires id in t && id in After(t, sites, req, a, h).value
    ensures After(t, sites, req, a, h).value[id].projectId == t[id].projectId
  {
    hide After, WellFormed, Lists, LastRewriter;
    RowAfter(t, sites, req, a, h, id);
  }

  lemma NewRowHasSite(t: Table, sites: seq<Site>, req: Request, a: Answers, h: Heap, id: string) returns (s: Site)
    requires Setting(t, sites, req, a, h) && After(t, sites, req, a, h).Some?
    requires id !in t && id in After(t, sites, req, a, h).value
    ensures s in sites && Accepted(s, h) && SiteRoute(s) == RouteOf(After(t, sites, req, a, h).value[id])
  {
    hide After, WellFormed, Lists, RowsToCreate;
    var c, rows := ContextOf(req, a, h), RowsToCreate(sites, req, a, h);
    IdsAfter(t, sites, req, a, h);
    NewRowsRoutes(t, sites, req, a, h);
    var i :| 0 <= i < |rows| && a.ids[i] == id;
    s := Pick(sites, c, Create)[i];
    assert s in Pick(sites, c, Create);
  }
}
