/** Who created an endpoint, as an import leaves it. Reconciliation writes metadata into the objects it was
    given, so an object that stands at two places of the document ends up with the metadata of the later one. */
module ImportProvenance {
  import opened Wrappers
  import opened Json
  import opened HttpMethods
  import opened AppMetadata
  import opened Endpoints
  import opened SpecReconciliation
  import opened Projects
  import opened ImportSteps
  import opened ImportTheorems

  predicate Written(d: Decision) {
    d == Create || d == Update
  }

  /** The last site that wrote to an object. */
  ghost function LastWriter(sites: seq<Site>, c: Context, ref: JsonRef): (r: Option<Site>)
    requires Covers(c.h, sites)
    ensures r.Some? ==> r.value in sites && r.value.ref == ref && Written(Decide(r.value, c))
  {
    if |sites| == 0 then None
    else
      var last := sites[|sites| - 1];
      if last.ref == ref && Written(Decide(last, c)) then Some(last) else LastWriter(sites[..|sites| - 1], c, ref)
  }

  /** An object holds its incoming value with the metadata of the last site that wrote to it. */
  lemma {:induction false} LastWriterWins(sites: seq<Site>, c: Context, ref: JsonRef)
    requires Covers(c.h, sites) && ref in c.h
    ensures var w := LastWriter(sites, c, ref);
            Final(sites, c)[ref] == if w.None? then c.h[ref] else WithMetadata(c.h[ref], MetadataFor(w.value, c))
  {
    if |sites| > 0 {
      var init, last := sites[..|sites| - 1], sites[|sites| - 1];
      LastWriterWins(init, c, ref);
      var v := LastWriter(init, c, ref);
      if Written(Decide(last, c)) {
        ReplayOneMore(Writes(init, c), Write(last.ref, MetadataFor(last, c)), ref, c.h[ref]);
        if last.ref == ref && v.Some? {
          LastMetadataWins(c.h[ref], MetadataFor(v.value, c), MetadataFor(last, c));
        }
      } else {
        assert Writes(sites, c) == Writes(init, c);
      }
    }
  }

  lemma {:induction false} WriterExists(sites: seq<Site>, c: Context, s: Site)
    requires Covers(c.h, sites) && s in sites && Written(Decide(s, c))
    ensures LastWriter(sites, c, s.ref).Some?
  {
    var init, last := sites[..|sites| - 1], sites[|sites| - 1];
    assert sites == init + [last];
    if s != last {
      WriterExists(init, c, s);
    }
  }

  /** The provenance a site's own metadata carries, known before the import: that of the stored endpoint if it
      has one, `unknown` if the stored metadata is malformed, the importing user for a new endpoint. */
  ghost function PlannedOrigin(s: Site, c: Context): Origin {
    if SiteKey(s) !in c.byKey then Origin(Str(c.user.username), Str(c.nowIso))
    else
      var e := c.byKey[SiteKey(s)];
      if OriginOf(e.operation).Some? then OriginOf(e.operation).value else Origin(Str("unknown"), Str(e.createdAt))
  }

  lemma PlannedOriginIsWritten(s: Site, c: Context)
    ensures OriginIn(MetadataFor(s, c)) == Some(PlannedOrigin(s, c))
  {
    if SiteKey(s) in c.byKey {
      var e := c.byKey[SiteKey(s)];
      UpdatedMetadataOrigin(e.operation, e.createdAt, c.user.username, c.nowIso);
    } else {
      MadeMetadataOrigin(Str(c.user.username), Str(c.nowIso), c.user.username, c.nowIso);
    }
  }

  /** What a written site's operation says about its origin once the engine has run. */
  lemma FinalOrigin(sites: seq<Site>, c: Context, s: Site)
    requires Covers(c.h, sites) && s in sites && Written(Decide(s, c))
    ensures LastWriter(sites, c, s.ref).Some?
    ensures OriginOf(Final(sites, c)[s.ref]) ==
            if c.h[s.ref].Obj? then Some(PlannedOrigin(LastWriter(sites, c, s.ref).value, c)) else None
  {
    WriterExists(sites, c, s);
    LastWriterWins(sites, c, s.ref);
    var w := LastWriter(sites, c, s.ref).value;
    WrittenMetadataIsInvisible(c.h[s.ref], MetadataFor(w, c));
    PlannedOriginIsWritten(w, c);
  }

  /** The last document entry that rewrites row `e`, if there is one, is an object, and no entry with another
      provenance writes to that object after it. This can be read off the rows and the document before the import. */
  ghost predicate Undisturbed(e: Endpoint, sites: seq<Site>, c: Context)
    requires Covers(c.h, sites)
  {
    var s := LastRewriter(sites, c, e);
    s.Some? ==>
      && c.h[s.value.ref].Obj? && LastWriter(sites, c, s.value.ref).Some?
      && PlannedOrigin(LastWriter(sites, c, s.value.ref).value, c) == PlannedOrigin(s.value, c)
  }

  /** An import keeps the provenance of a surviving row exactly when it is undisturbed. */
  lemma ImportKeepsOriginIff(t: Table, sites: seq<Site>, req: Request, a: Answers, h: Heap, id: string)
    requires Setting(t, sites, req, a, h) && After(t, sites, req, a, h).Some?
    requires id in t && t[id].projectId == req.projectId && id in After(t, sites, req, a, h).value
    requires OriginOf(t[id].operation).Some?
    ensures OriginOf(After(t, sites, req, a, h).value[id].operation) == OriginOf(t[id].operation)
            <==> Undisturbed(t[id], sites, ContextOf(req, a, h))
  {
    hide After, OriginIn, MetadataOf, WellFormed, Decide, Final;
    var c, e := ContextOf(req, a, h), t[id];
    RowAfter(t, sites, req, a, h, id);
    IndexNamesRow(t, sites, req, a, h, id);
    var s := LastRewriter(sites, c, e);
    if s.Some? {
      FinalOrigin(sites, c, s.value);
      assert PlannedOrigin(s.value, c) == OriginOf(e.operation).value;
    }
  }

  /** No two entries the engine writes to are the same object. */
  ghost predicate Unshared(sites: seq<Site>, c: Context)
    requires Covers(c.h, sites)
  {
    forall i, j :: 0 <= i < j < |sites| && Written(Decide(sites[i], c)) && Written(Decide(sites[j], c)) ==>
      sites[i].ref != sites[j].ref
  }

  /** The entries the engine writes to are objects, not arrays. */
  ghost predicate ObjectsOnly(sites: seq<Site>, c: Context)
    requires Covers(c.h, sites)
  {
    forall s :: s in sites && Written(Decide(s, c)) ==> c.h[s.ref].Obj?
  }

  lemma UnsharedIsOwnWriter(sites: seq<Site>, c: Context, s: Site)
    requires Covers(c.h, sites) && Unshared(sites, c) && s in sites && Written(Decide(s, c))
    ensures LastWriter(sites, c, s.ref) == Some(s)
  {
    WriterExists(sites, c, s);
    var w := LastWriter(sites, c, s.ref).value;
    var i :| 0 <= i < |sites| && sites[i] == s;
    var j :| 0 <= j < |sites| && sites[j] == w;
  }

  /** With pairwise distinct operation objects an import keeps who created an endpoint, unless an array, on which
      metadata is lost, takes the place of its operation. */
  lemma UnsharedImportKeepsOrigins(t: Table, sites: seq<Site>, req: Request, a: Answers, h: Heap, id: string)
    requires Setting(t, sites, req, a, h) && After(t, sites, req, a, h).Some?
    requires Unshared(sites, ContextOf(req, a, h))
    requires id in t && id in After(t, sites, req, a, h).value && OriginOf(t[id].operation).Some?
    ensures var c, kept := ContextOf(req, a, h), After(t, sites, req, a, h).value[id].operation;
            && (t[id].projectId != req.projectId || ObjectsOnly(sites, c) ==> OriginOf(kept) == OriginOf(t[id].operation))
            && (t[id].projectId == req.projectId ==>
                  (OriginOf(kept) == OriginOf(t[id].operation) <==>
                     var s := LastRewriter(sites, c, t[id]); s.Some? ==> h[s.value.ref].Obj?))
  {
    hide After, OriginIn, MetadataOf, Unshared, WellFormed, Decide;
    var c, e := ContextOf(req, a, h), t[id];
    RowAfter(t, sites, req, a, h, id);
    if e.projectId == req.projectId {
      ImportKeepsOriginIff(t, sites, req, a, h, id);
      var s := LastRewriter(sites, c, e);
      if s.Some? {
        UnsharedIsOwnWriter(sites, c, s.value);
      }
    }
  }

  /** Whoever imports is recorded as the last editor of every row the import creates or rewrites, by id in the row and by
      name in its operation, however objects are shared. */
  lemma ImportRecordsImporter(t: Table, sites: seq<Site>, req: Request, a: Answers, h: Heap, id: string)
    requires Setting(t, sites, req, a, h) && After(t, sites, req, a, h).Some?
    requires id in After(t, sites, req, a, h).value
    ensures var e := After(t, sites, req, a, h).value[id];
            id !in t || e != t[id] ==>
              && e.projectId == req.projectId && e.updatedById == req.user.id && e.updatedAt == a.now
              && (id !in t ==> e.creatorId == req.user.id && e.createdAt == a.createdAt && e.status == Draft)
              && (e.operation.Obj? ==> EditorOf(e.operation) == Some(Editor(Str(req.user.username), Str(req.nowIso))))
  {
    hide After, WellFormed, Lists, EditorIn, Decide, Final;
    var c := ContextOf(req, a, h);
    if id in t {
      RowAfter(t, sites, req, a, h, id);
      var s := LastRewriter(sites, c, t[id]);
      if t[id].projectId == req.projectId && s.Some? {
        FinalEditor(sites, c, s.value);
      }
    } else {
      var rows, picked := RowsToCreate(sites, req, a, h), Pick(sites, c, Create);
      hide RowsToCreate;
      IdsAfter(t, sites, req, a, h);
      NewRowsRoutes(t, sites, req, a, h);
      var i :| 0 <= i < |rows| && a.ids[i] == id;
      assert picked[i] in picked;
      FinalEditor(sites, c, picked[i]);
    }
  }

  lemma FinalEditor(sites: seq<Site>, c: Context, s: Site)
    requires Covers(c.h, sites) && s in sites && Written(Decide(s, c))
    ensures var v := Final(sites, c)[s.ref];
            v.Obj? ==> EditorOf(v) == Some(Editor(Str(c.user.username), Str(c.nowIso)))
  {
    hide EditorIn, UpdatedMetadata, NewMetadata;
    WriterExists(sites, c, s);
    LastWriterWins(sites, c, s.ref);
    var w := LastWriter(sites, c, s.ref).value;
    WrittenMetadataIsInvisible(c.h[s.ref], MetadataFor(w, c));
    if SiteKey(w) in c.byKey {
      var e := c.byKey[SiteKey(w)];
      ImportedMetadataEditor(e.operation, e.createdAt, c.user.username, c.nowIso);
    } else {
      ImportedMetadataEditor(Null, "", c.user.username, c.nowIso);
    }
  }

  // ---------- a document that shares an operation object ----------

  /** One operation object under `/a` and `/b`. */
  function SharedSites(o: JsonRef): seq<Site> {
    [Site("/a", "get", o), Site("/b", "get", o)]
  }

  const ANNS := Endpoint("1", "p", "/a", "get", Draft, WithMetadata(Sample("old"), NewMetadata("ann", "0")),
                         "ann", "0", "ann", 0)

  const BOBS_IMPORT := Request("p", "T", 0, User("bob", "bob"), "1")

  const ONE_ROW := Answers([ANNS], ["2", "3"], "1", 1)

  const INCOMING := Sample("new")

  lemma SharedKeys(o: JsonRef)
    ensures var sites, h := SharedSites(o), One(o, INCOMING);
            && SiteKey(sites[0]) == KeyOf(ANNS) && SiteKey(sites[1]) != KeyOf(ANNS)
            && Accepted(sites[0], h) && Accepted(sites[1], h)
  {
    hide Sample, WithMetadata, NewMetadata, Get;
    SampleMeaning("new");
    ValidMethodIsPlain("get");
    EndpointKeyIsInjective("get", "/a", "get", "/b");
    assert "/a" != "/b" by { assert "/a"[1] != "/b"[1]; }
  }

  lemma SharedSetting(o: JsonRef)
    ensures var t, sites, h := map["1" := ANNS], SharedSites(o), One(o, INCOMING);
            && Setting(t, sites, BOBS_IMPORT, ONE_ROW, h) && CaseDistinct(sites, h)
            && ByKey([ANNS]) == map[KeyOf(ANNS) := ANNS]
            && SiteKey(sites[0]) == KeyOf(ANNS) && SiteKey(sites[1]) != KeyOf(ANNS)
            && Accepted(sites[0], h) && Accepted(sites[1], h)
  {
    hide Sample, WithMetadata, NewMetadata, Get;
    SharedKeys(o);
    hide SiteKey, KeyOf, Accepted;
    var t, sites, h := map["1" := ANNS], SharedSites(o), One(o, INCOMING);
    assert [ANNS][..0] == [];
    assert ByKey([ANNS]) == map[KeyOf(ANNS) := ANNS];
    assert Lists([ANNS], t, "p") by { assert [ANNS][0] == ANNS; }
    assert "1" != "2" && "1" != "3" && "2" != "3" by { assert "1"[0] != "2"[0] && "1"[0] != "3"[0] && "2"[0] != "3"[0]; }
  }

  /** Ann created `/a`. Bob imports a document in which `/a` and the new `/b` are the same object, as resolving
      a shared reference makes them. Afterwards the stored operation of `/a` says that Bob created it. */
  lemma SharedObjectLosesOrigin(o: JsonRef)
    ensures var t, sites, h := map["1" := ANNS], SharedSites(o), One(o, INCOMING);
            && Setting(t, sites, BOBS_IMPORT, ONE_ROW, h) && After(t, sites, BOBS_IMPORT, ONE_ROW, h).Some?
            && var u := After(t, sites, BOBS_IMPORT, ONE_ROW, h).value;
               "1" in u && OriginOf(t["1"].operation) == Some(Origin(Str("ann"), Str("0")))
               && OriginOf(u["1"].operation) != OriginOf(t["1"].operation)
  {
    var t, sites, h := map["1" := ANNS], SharedSites(o), One(o, INCOMING);
    var c := ContextOf(BOBS_IMPORT, ONE_ROW, h);
    SharedSetting(o);
    AnnsOrigin();
    ImportReachesDocument(t, sites, BOBS_IMPORT, ONE_ROW, h);
    var id := SiteIsServed(t, sites, BOBS_IMPORT, ONE_ROW, h, sites[0]);
    SharedIsDisturbed(o);
    ImportKeepsOriginIff(t, sites, BOBS_IMPORT, ONE_ROW, h, "1");
  }

  lemma AnnsOrigin()
    ensures OriginOf(ANNS.operation) == Some(Origin(Str("ann"), Str("0")))
    ensures Comparable(ANNS.operation) == Sample("old") && Comparable(INCOMING) == INCOMING != Sample("old")
  {
    hide OriginIn, MakeMetadata, Comparable, MetadataOf;
    SampleMeaning("old");
    SampleMeaning("new");
    WrittenMetadataIsInvisible(Sample("old"), NewMetadata("ann", "0"));
    MadeMetadataOrigin(Str("ann"), Str("0"), "ann", "0");
    assert "old"[0] != "new"[0];
    assert Sample("old").fields[0] != Sample("new").fields[0];
  }

  lemma SharedDecisions(o: JsonRef)
    ensures var sites, c := SharedSites(o), ContextOf(BOBS_IMPORT, ONE_ROW, One(o, INCOMING));
            Decide(sites[0], c) == Update && Decide(sites[1], c) == Create
  {
    hide Comparable, OriginIn, MakeMetadata, Stringify, Sample, WithMetadata, SiteKey, KeyOf, Accepted, ByKey, Setting;
    SharedSetting(o);
    AnnsOrigin();
    SameContentMeaning(ANNS.operation, INCOMING);
  }

  lemma SharedIsDisturbed(o: JsonRef)
    ensures Covers(One(o, INCOMING), SharedSites(o))
    ensures !Undisturbed(ANNS, SharedSites(o), ContextOf(BOBS_IMPORT, ONE_ROW, One(o, INCOMING)))
  {
    hide Decide, OriginOf, Comparable, SiteKey, ByKey, Accepted;
    var sites, h := SharedSites(o), One(o, INCOMING);
    var c := ContextOf(BOBS_IMPORT, ONE_ROW, h);
    SharedSetting(o);
    SharedDecisions(o);
    AnnsOrigin();
    assert Rewrites(sites[0], sites, c, ANNS);
    assert LastRewriter(sites, c, ANNS) == Some(sites[0]);
    assert LastWriter(sites, c, o) == Some(sites[1]);
    assert PlannedOrigin(sites[0], c) == Origin(Str("ann"), Str("0"));
    assert PlannedOrigin(sites[1], c) == Origin(Str("bob"), Str("1"));
    assert "0" != "1" by { assert "0"[0] != "1"[0]; }
  }
}
