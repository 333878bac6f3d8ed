/** The diff engine behind spec import: which endpoints to create, update and delete so that a project
    matches an incoming OpenAPI document. Operations are JavaScript objects: the engine writes metadata into
    the very objects it was given, and hands those objects on. */
module SpecReconciliation {
  import opened Json
  import opened HttpMethods
  import opened AppMetadata
  import opened Endpoints

  /** A property value of the incoming document, by reference. */
  class JsonRef {
    var value: Value

    constructor (value: Value)
      ensures this.value == value
    {
      this.value := value;
    }
  }

  datatype Entry = Entry(key: string, operation: JsonRef)

  /** A path item; anything that is not an object has no entries. */
  datatype PathItem = PathItem(path: string, entries: seq<Entry>)

  /** One `paths[path][key]` of the document, in iteration order. */
  datatype Site = Site(path: string, key: string, ref: JsonRef)

  type Heap = map<JsonRef, Value>

  ghost function One(ref: JsonRef, value: Value): Heap {
    map[ref := value]
  }

  function ItemSites(item: PathItem): (r: seq<Site>)
    ensures |r| == |item.entries|
  {
    seq(|item.entries|, i requires 0 <= i < |item.entries| =>
      Site(item.path, item.entries[i].key, item.entries[i].operation))
  }

  function Sites(paths: seq<PathItem>): seq<Site> {
    if |paths| == 0 then [] else Sites(paths[..|paths| - 1]) + ItemSites(paths[|paths| - 1])
  }

  ghost function Refs(sites: seq<Site>): set<JsonRef> {
    set s | s in sites :: s.ref
  }

  ghost function Snapshot(refs: set<JsonRef>): (h: Heap)
    reads refs
    ensures h.Keys == refs
  {
    map r | r in refs :: r.value
  }

  ghost predicate Covers(h: Heap, sites: seq<Site>) {
    forall s :: s in sites ==> s.ref in h
  }

  // ---------- decisions ----------

  /** `typeof op === 'object' && op !== null && !('$ref' in op)` */
  predicate Operable(v: Value) {
    v.Arr? || (v.Obj? && !Has(v.fields, "$ref"))
  }

  /** Operations are arrays, and objects without a top-level `$ref`. */
  lemma OperableMeaning(v: Value, fields: seq<Field>, target: Value)
    ensures Operable(Arr([v])) && Operable(Arr([])) && Operable(Obj([]))
    ensures v.Null? || v.Bool? || v.Num? || v.Str? ==> !Operable(v)
    ensures !Operable(Obj(Put(fields, "$ref", target))) && Operable(Obj(Without(fields, "$ref")))
  {
  }

  function SiteKey(s: Site): string {
    EndpointKey(s.key, s.path)
  }

  function SiteRoute(s: Site): Route {
    Route(s.path, ToLower(s.key))
  }

  ghost predicate Accepted(s: Site, h: Heap)
    requires s.ref in h
  {
    ToLower(s.key) in VALID_HTTP_METHODS && Operable(h[s.ref])
  }

  /** An entry is accepted if and only if its key is a valid method in some case and its value an array, or an object
      without a field `$ref`. */
  lemma AcceptedMeaning(s: Site, h: Heap)
    requires s.ref in h
    ensures Accepted(s, h) <==>
            && ToLower(s.key) in {"get", "put", "post", "delete", "options", "head", "patch", "trace"}
            && (h[s.ref].Arr? || (h[s.ref].Obj? && forall f :: f in h[s.ref].fields ==> f.key != "$ref"))
  {
  }

  /** `existingEndpointsByKey`: a later row replaces an earlier one with the same key. */
  function ByKey(existing: seq<Endpoint>): map<string, Endpoint> {
    if |existing| == 0 then map[]
    else ByKey(existing[..|existing| - 1])[KeyOf(existing[|existing| - 1]) := existing[|existing| - 1]]
  }

  /** The order in which that map is iterated: keys by first insertion. */
  function KeyOrder(existing: seq<Endpoint>): (r: seq<string>)
    ensures forall k :: k in r <==> k in ByKey(existing)
  {
    if |existing| == 0 then []
    else
      var before, key := existing[..|existing| - 1], KeyOf(existing[|existing| - 1]);
      KeyOrder(before) + if key in ByKey(before) then [] else [key]
  }

  /** Everything the engine reads besides the sites. */
  datatype Context = Context(byKey: map<string, Endpoint>, h: Heap, user: User, nowIso: string)

  datatype Decision = Ignore | Keep | Create | Update

  predicate SameContent(stored: Value, incoming: Value) {
    Stringify(Comparable(stored)) == Stringify(Comparable(incoming))
  }

  ghost function Decide(s: Site, c: Context): Decision
    requires s.ref in c.h
  {
    if !Accepted(s, c.h) then Ignore
    else if SiteKey(s) !in c.byKey then Create
    else if SameContent(c.byKey[SiteKey(s)].operation, c.h[s.ref]) then Keep
    else Update
  }

  ghost function Pick(sites: seq<Site>, c: Context, d: Decision): (r: seq<Site>)
    requires Covers(c.h, sites)
    ensures forall s :: s in r ==> s in sites && Decide(s, c) == d
  {
    if |sites| == 0 then []
    else
      var last := sites[|sites| - 1];
      Pick(sites[..|sites| - 1], c, d) + if Decide(last, c) == d then [last] else []
  }

  ghost function SeenKeys(sites: seq<Site>, h: Heap): set<string>
    requires Covers(h, sites)
  {
    set s | s in sites && Accepted(s, h) :: SiteKey(s)
  }

  function Unseen(order: seq<string>, byKey: map<string, Endpoint>, seen: set<string>): seq<string>
    requires forall k :: k in order ==> k in byKey
  {
    if |order| == 0 then []
    else
      var last := order[|order| - 1];
      Unseen(order[..|order| - 1], byKey, seen) + if last in seen then [] else [byKey[last].id]
  }

  // ---------- writes ----------

  datatype Write = Write(ref: JsonRef, metadata: Value)

  function MetadataFor(s: Site, c: Context): Value {
    if SiteKey(s) in c.byKey
    then var e := c.byKey[SiteKey(s)]; UpdatedMetadata(e.operation, e.createdAt, c.user.username, c.nowIso)
    else NewMetadata(c.user.username, c.nowIso)
  }

  /** Every assignment `operation['x-app-metadata'] = ...`, in order. */
  ghost function Writes(sites: seq<Site>, c: Context): seq<Write>
    requires Covers(c.h, sites)
  {
    if |sites| == 0 then []
    else
      var last := sites[|sites| - 1];
      Writes(sites[..|sites| - 1], c)
      + if Decide(last, c) in {Create, Update} then [Write(last.ref, MetadataFor(last, c))] else []
  }

  /** The value an object holds after some writes. */
  function Replay(writes: seq<Write>, ref: JsonRef, start: Value): Value {
    if |writes| == 0 then start
    else
      var last := writes[|writes| - 1];
      var before := Replay(writes[..|writes| - 1], ref, start);
      if last.ref == ref then WithMetadata(before, last.metadata) else before
  }

  /** Writing metadata changes nothing the engine looks at, so an object met twice is judged the same twice. */
  lemma {:induction false} ReplayIsInvisible(writes: seq<Write>, ref: JsonRef, start: Value)
    ensures var end := Replay(writes, ref, start);
            && Comparable(end) == Comparable(start) && Stripped(end) == Stripped(start)
            && Operable(end) == Operable(start) && end.Obj? == start.Obj?
  {
    if |writes| > 0 {
      var init, last := writes[..|writes| - 1], writes[|writes| - 1];
      ReplayIsInvisible(init, ref, start);
      var before := Replay(init, ref, start);
      WrittenMetadataIsInvisible(before, last.metadata);
      if before.Obj? {
        PutThenGetOther(before.fields, METADATA_KEY, last.metadata, "$ref");
      }
    }
  }

  lemma LowerIsIdempotent(s: string)
    ensures ToLower(ToLower(s)) == ToLower(s)
  {
  }

  // ---------- the engine ----------

  datatype NewEndpoint = NewEndpoint(
    path: string, verb: string, operation: JsonRef, projectId: string, creatorId: string, updatedById: string)

  datatype EndpointToUpdate = EndpointToUpdate(id: string, operation: JsonRef, updatedById: string)

  function CreateFor(s: Site, projectId: string, user: User): NewEndpoint {
    NewEndpoint(s.path, ToLower(s.key), s.ref, projectId, user.id, user.id)
  }

  function UpdateFor(s: Site, c: Context): EndpointToUpdate
    requires SiteKey(s) in c.byKey
  {
    EndpointToUpdate(c.byKey[SiteKey(s)].id, s.ref, c.user.id)
  }

  lemma {:induction false} PickMembers(sites: seq<Site>, c: Context, d: Decision)
    requires Covers(c.h, sites)
    ensures forall s :: s in Pick(sites, c, d) <==> s in sites && Decide(s, c) == d
  {
    if |sites| > 0 {
      PickMembers(sites[..|sites| - 1], c, d);
      assert sites == sites[..|sites| - 1] + [sites[|sites| - 1]];
    }
  }

  ghost function ToCreate(sites: seq<Site>, c: Context, projectId: string): seq<NewEndpoint>
    requires Covers(c.h, sites)
  {
    var picked := Pick(sites, c, Create);
    seq(|picked|, i requires 0 <= i < |picked| => CreateFor(picked[i], projectId, c.user))
  }

  ghost function ToUpdate(sites: seq<Site>, c: Context): seq<EndpointToUpdate>
    requires Covers(c.h, sites)
  {
    var picked := Pick(sites, c, Update);
    seq(|picked|, i requires 0 <= i < |picked| => assert picked[i] in picked; UpdateFor(picked[i], c))
  }

  /** `existingEndpointsByKey` and its iteration order. */
  method IndexByKey(existing: seq<Endpoint>) returns (byKey: map<string, Endpoint>, order: seq<string>)
    ensures byKey == ByKey(existing) && order == KeyOrder(existing)
  {
    byKey, order := map[], [];
    for i := 0 to |existing|
      invariant byKey == ByKey(existing[..i]) && order == KeyOrder(existing[..i])
    {
      var e := existing[i];
      assert existing[..i + 1][..i] == existing[..i];
      if KeyOf(e) !in byKey {
        order := order + [KeyOf(e)];
      }
      byKey := byKey[KeyOf(e) := e];
    }
    assert existing[..|existing|] == existing;
  }

  /** The body of the engine's inner loop, for one `paths[path][key]`. */
  method Visit(s: Site, byKey: map<string, Endpoint>, user: User, projectId: string, nowIso: string)
    returns (creates: seq<NewEndpoint>, updates: seq<EndpointToUpdate>, seen: set<string>)
    modifies s.ref
    ensures var c := Context(byKey, One(s.ref, old(s.ref.value)), user, nowIso);
            && creates == (if Decide(s, c) == Create then [CreateFor(s, projectId, user)] else [])
            && updates == (if Decide(s, c) == Update then [UpdateFor(s, c)] else [])
            && seen == (if Accepted(s, c.h) then {SiteKey(s)} else {})
            && s.ref.value == if Decide(s, c) in {Create, Update} then WithMetadata(old(s.ref.value), MetadataFor(s, c))
                              else old(s.ref.value)
  {
    creates, updates, seen := [], [], {};
    var lowerMethod := ToLower(s.key);
    if lowerMethod !in VALID_HTTP_METHODS {
      return;
    }
    var operation := s.ref.value;
    if !operation.Arr? && (!operation.Obj? || Has(operation.fields, "$ref")) {
      return;
    }
    LowerIsIdempotent(s.key);
    var key := EndpointKey(lowerMethod, s.path);
    seen := {key};
    if key in byKey {
      var existing := byKey[key];
      if Stringify(Comparable(existing.operation)) == Stringify(Comparable(operation)) {
        return;
      }
      s.ref.value := WithMetadata(operation, UpdatedMetadata(existing.operation, existing.createdAt, user.username, nowIso));
      updates := [EndpointToUpdate(existing.id, s.ref, user.id)];
      return;
    }
    s.ref.value := WithMetadata(operation, NewMetadata(user.username, nowIso));
    creates := [NewEndpoint(s.path, lowerMethod, s.ref, projectId, user.id, user.id)];
  }

  method CollectUnseen(order: seq<string>, byKey: map<string, Endpoint>, seen: set<string>)
    returns (ids: seq<string>)
    requires forall k :: k in order ==> k in byKey
    ensures ids == Unseen(order, byKey, seen)
  {
    ids := [];
    for i := 0 to |order|
      invariant ids == Unseen(order[..i], byKey, seen)
    {
      assert order[..i + 1][..i] == order[..i];
      if order[i] !in seen {
        ids := ids + [byKey[order[i]].id];
      }
    }
    assert order[..|order|] == order;
  }

  /** Judging a site by the current value of its object, or by its value before any write, is the same. */
  lemma DecisionIgnoresWrites(s: Site, c: Context, writes: seq<Write>)
    requires s.ref in c.h
    ensures var now := Replay(writes, s.ref, c.h[s.ref]);
            var c' := c.(h := One(s.ref, now));
            Decide(s, c') == Decide(s, c) && Accepted(s, c'.h) == Accepted(s, c.h)
            && MetadataFor(s, c') == MetadataFor(s, c)
  {
    ReplayIsInvisible(writes, s.ref, c.h[s.ref]);
  }

  lemma {:induction false} SitesPrefix(paths: seq<PathItem>, i: nat)
    requires i <= |paths|
    ensures forall s :: s in Sites(paths[..i]) ==> s in Sites(paths)
    decreases |paths| - i
  {
    if i < |paths| {
      SitesPrefix(paths, i + 1);
      assert paths[..i + 1][..i] == paths[..i];
    } else {
      assert paths[..i] == paths;
    }
  }

  lemma SitesStep(paths: seq<PathItem>, i: nat)
    requires i < |paths|
    ensures Sites(paths[..i + 1]) == Sites(paths[..i]) + ItemSites(paths[i])
    ensures forall s :: s in ItemSites(paths[i]) ==> s in Sites(paths)
  {
    assert paths[..i + 1][..i] == paths[..i];
    SitesPrefix(paths, i + 1);
  }

  /** What the accumulators hold after the sites `done`. */
  ghost predicate Progress(done: seq<Site>, c: Context, projectId: string,
                           toCreate: seq<NewEndpoint>, toUpdate: seq<EndpointToUpdate>, seen: set<string>)
    reads c.h.Keys
  {
    && Covers(c.h, done)
    && toCreate == ToCreate(done, c, projectId)
    && toUpdate == ToUpdate(done, c)
    && seen == SeenKeys(done, c.h)
    && forall r :: r in c.h ==> r.value == Replay(Writes(done, c), r, c.h[r])
  }

  lemma NothingYet(c: Context, projectId: string)
    requires forall r :: r in c.h ==> r.value == c.h[r]
    ensures Progress([], c, projectId, [], [], {})
  {
  }

  lemma Extend(done: seq<Site>, s: Site, c: Context, projectId: string)
    requires Covers(c.h, done) && s.ref in c.h
    ensures var more := done + [s];
            && Covers(c.h, more)
            && ToCreate(more, c, projectId) == ToCreate(done, c, projectId)
                 + (if Decide(s, c) == Create then [CreateFor(s, projectId, c.user)] else [])
            && ToUpdate(more, c) == ToUpdate(done, c) + (if Decide(s, c) == Update then [UpdateFor(s, c)] else [])
            && SeenKeys(more, c.h) == SeenKeys(done, c.h) + (if Accepted(s, c.h) then {SiteKey(s)} else {})
            && Writes(more, c) == Writes(done, c)
                 + (if Decide(s, c) in {Create, Update} then [Write(s.ref, MetadataFor(s, c))] else [])
  {
    assert (done + [s])[..|done|] == done;
  }

  lemma ReplayOneMore(writes: seq<Write>, w: Write, ref: JsonRef, start: Value)
    ensures Replay(writes + [w], ref, start)
         == if w.ref == ref then WithMetadata(Replay(writes, ref, start), w.metadata) else Replay(writes, ref, start)
  {
    assert (writes + [w])[..|writes|] == writes;
  }

  /** One turn of the inner loop: the site's results are added to what was accumulated so far. */
  method Accumulate(s: Site, byKey: map<string, Endpoint>, user: User, projectId: string, nowIso: string,
                    creates0: seq<NewEndpoint>, updates0: seq<EndpointToUpdate>, seen0: set<string>,
                    ghost done: seq<Site>, ghost c: Context)
    returns (creates: seq<NewEndpoint>, updates: seq<EndpointToUpdate>, seen: set<string>)
    requires s.ref in c.h && c == Context(byKey, c.h, user, nowIso)
    requires Progress(done, c, projectId, creates0, updates0, seen0)
    modifies s.ref
    ensures Progress(done + [s], c, projectId, creates, updates, seen)
  {
    hide Decide, Accepted, SiteKey, MetadataFor, Replay, WithMetadata, CreateFor, Pick, ToCreate, ToUpdate, Writes, SeenKeys;
    DecisionIgnoresWrites(s, c, Writes(done, c));
    Extend(done, s, c, projectId);
    creates, updates, seen := Visit(s, byKey, user, projectId, nowIso);
    creates, updates, seen := creates0 + creates, updates0 + updates, seen0 + seen;
    assert Writes(done, c) + [] == Writes(done, c);
    forall r | r in c.h ensures r.value == Replay(Writes(done + [s], c), r, c.h[r]) {
      ReplayOneMore(Writes(done, c), Write(s.ref, MetadataFor(s, c)), r, c.h[r]);
    }
  }

  /** The inner loop: all keys of one path item. */
  method AccumulateItem(item: PathItem, byKey: map<string, Endpoint>, user: User, projectId: string, nowIso: string,
                        creates0: seq<NewEndpoint>, updates0: seq<EndpointToUpdate>, seen0: set<string>,
                        ghost done: seq<Site>, ghost c: Context)
    returns (creates: seq<NewEndpoint>, updates: seq<EndpointToUpdate>, seen: set<string>)
    requires c == Context(byKey, c.h, user, nowIso) && Covers(c.h, ItemSites(item))
    requires Progress(done, c, projectId, creates0, updates0, seen0)
    modifies c.h.Keys
    ensures Progress(done + ItemSites(item), c, projectId, creates, updates, seen)
  {
    hide Progress;
    creates, updates, seen := creates0, updates0, seen0;
    ghost var sites := ItemSites(item);
    assert done + sites[..0] == done;
    for j := 0 to |item.entries|
      invariant Progress(done + sites[..j], c, projectId, creates, updates, seen)
    {
      var s := Site(item.path, item.entries[j].key, item.entries[j].operation);
      assert sites[j] == s;
      assert done + sites[..j + 1] == done + sites[..j] + [s];
      creates, updates, seen := Accumulate(s, byKey, user, projectId, nowIso, creates, updates, seen, done + sites[..j], c);
    }
    assert sites[..|item.entries|] == sites;
  }

  /** The engine's three lists, and what it leaves in the objects it was given. No assumption is made on how
      those objects are shared: the decisions are those the incoming values call for, and an object holds its
      own value with the metadata of the last site that wrote to it. */
  method Reconcile(existing: seq<Endpoint>, paths: seq<PathItem>, user: User, projectId: string, nowIso: string)
    returns (toCreate: seq<NewEndpoint>, toUpdate: seq<EndpointToUpdate>, toDeleteIds: seq<string>)
    modifies Refs(Sites(paths))
    ensures var sites, h := Sites(paths), old(Snapshot(Refs(Sites(paths))));
            var c := Context(ByKey(existing), h, user, nowIso);
            && toCreate == ToCreate(sites, c, projectId)
            && toUpdate == ToUpdate(sites, c)
            && toDeleteIds == Unseen(KeyOrder(existing), ByKey(existing), SeenKeys(sites, h))
            && forall r :: r in h ==> r.value == Replay(Writes(sites, c), r, h[r])
  {
    hide ToCreate, ToUpdate, Writes, SeenKeys, Replay;
    ghost var h := Snapshot(Refs(Sites(paths)));
    ghost var c := Context(ByKey(existing), h, user, nowIso);
    var byKey, order := IndexByKey(existing);
    var seenKeys: set<string> := {};
    toCreate, toUpdate := [], [];
    NothingYet(c, projectId);
    for i := 0 to |paths|
      invariant Progress(Sites(paths[..i]), c, projectId, toCreate, toUpdate, seenKeys)
    {
      SitesStep(paths, i);
      toCreate, toUpdate, seenKeys :=
        AccumulateItem(paths[i], byKey, user, projectId, nowIso, toCreate, toUpdate, seenKeys, Sites(paths[..i]), c);
    }
    assert paths[..|paths|] == paths;
    toDeleteIds := CollectUnseen(order, byKey, seenKeys);
  }
}
