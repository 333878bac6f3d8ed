/** What the lock service guarantees over whole runs. */
module LockRuns {
  import opened Wrappers
  import opened Locking

  datatype Op =
    | Acquire(resourceId: string, user: LockUser, now: int, later: int)
    | Release(resourceId: string, userId: string, now: int)
    | Sweep(now: int)
    | Subscribe(client: Client, resourceId: string, now: int)
    | Unsubscribe(client: Client, resourceId: string, now: int)

  /** The clock when an operation starts and when it ends. */
  function Start(op: Op): int {
    op.now
  }

  function End(op: Op): int {
    if op.Acquire? then op.later else op.now
  }

  function Next(s: State, op: Op, duration: int): State {
    match op
    case Acquire(k, user, now, later) => Acquired(s, k, user, now, later, duration)
    case Release(k, userId, _) => Released(s, k, userId)
    case Sweep(now) => Swept(s, now)
    case Subscribe(c, k, now) => Subscribed(s, c, k, now)
    case Unsubscribe(c, k, _) => Unsubscribed(s, c, k)
  }

  // ---------- refinement: a map of live locks ----------

  /** The abstraction: the locks that have not expired. */
  function LiveLocks(locks: LockTable, now: int): LockTable {
    map k | k in locks && now < locks[k].expiresAt :: locks[k]
  }

  /** Acquire is refused exactly when somebody else's lock is live; otherwise the caller's lock is there, for one
      duration. */
  lemma AcquireRefines(s: State, k: string, user: LockUser, now: int, later: int, duration: int, t: int)
    requires now <= later <= t
    ensures var before, live := LiveLocks(s.locks, t), LiveLocks(s.locks, now);
            var after := LiveLocks(Acquired(s, k, user, now, later, duration).locks, t);
            if k in live && live[k].userId != user.id then after == before
            else
              var name := if k in live then live[k].username else user.username;
              after == if t < later + duration then before[k := LockView(user.id, name, later + duration)] else before - {k}
  {
    hide Broadcast;
    var before, after := LiveLocks(s.locks, t), LiveLocks(Acquired(s, k, user, now, later, duration).locks, t);
    assert forall j :: j != k ==> (j in after <==> j in before) && (j in after ==> after[j] == before[j]);
  }

  /** Release removes the caller's own live lock and nothing else; the lock of a caller that has expired is not
      missed. */
  lemma ReleaseRefines(s: State, k: string, userId: string, t: int)
    ensures var before := LiveLocks(s.locks, t);
            LiveLocks(Released(s, k, userId).locks, t) ==
            if k in before && before[k].userId == userId then before - {k} else before
  {
    hide Broadcast;
  }

  /** The sweep, like the passing of time and like subscriptions, is invisible: what is dead never matters. */
  lemma OthersAreInvisible(s: State, op: Op, duration: int, t: int)
    requires !op.Acquire? && !op.Release? && End(op) <= t
    ensures LiveLocks(Next(s, op, duration).locks, t) == LiveLocks(s.locks, t)
  {
    hide Broadcast;
  }

  /** Answers depend on live locks only. */
  lemma QueriesSeeLiveLocks(s: State, k: string, userId: string, now: int)
    ensures Status(s.locks, k, now) == if k in LiveLocks(s.locks, now) then Some(LiveLocks(s.locks, now)[k]) else None
    ensures Refused(s.locks, k, LockUser(userId, ""), now) <==>
            k in LiveLocks(s.locks, now) && LiveLocks(s.locks, now)[k].userId != userId
    ensures HeldBy(s.locks, k, userId, now) <==>
            k in LiveLocks(s.locks, now) && LiveLocks(s.locks, now)[k].userId == userId
  {
  }

  // ---------- runs ----------

  /** The states a run goes through; the clock never goes back. */
  ghost predicate Behaves(states: seq<State>, ops: seq<Op>, duration: int) {
    && duration > 0
    && |states| == |ops| + 1
    && (forall i :: 0 <= i < |ops| ==> Start(ops[i]) <= End(ops[i]) && states[i + 1] == Next(states[i], ops[i], duration))
    && forall i :: 0 < i < |ops| ==> End(ops[i - 1]) <= Start(ops[i])
  }

  function ClockAt(ops: seq<Op>, n: nat, start: int): int
    requires n <= |ops|
  {
    if n == 0 then start else End(ops[n - 1])
  }

  /** A service starts empty, no later than its first operation. */
  ghost predicate Initial(states: seq<State>, ops: seq<Op>, start: int) {
    && |states| > 0 && states[0] == State(map[], map[], map[])
    && (|ops| > 0 ==> start <= Start(ops[0]))
  }

  /** No stored lock outlives one duration from now. */
  ghost predicate Bounded(s: State, clock: int, duration: int) {
    forall k :: k in s.locks ==> s.locks[k].expiresAt <= clock + duration
  }

  lemma StepKeepsBounded(s: State, op: Op, clock: int, duration: int)
    requires Bounded(s, clock, duration) && clock <= Start(op) <= End(op)
    ensures Bounded(Next(s, op, duration), End(op), duration)
  {
    hide Broadcast;
  }

  lemma {:induction false} ExpiriesAreBounded(states: seq<State>, ops: seq<Op>, duration: int, start: int, n: nat)
    requires Behaves(states, ops, duration) && Initial(states, ops, start) && n <= |ops|
    ensures Bounded(states[n], ClockAt(ops, n, start), duration)
  {
    hide Next, Bounded;
    if n > 0 {
      ExpiriesAreBounded(states, ops, duration, start, n - 1);
      assert ClockAt(ops, n - 1, start) <= Start(ops[n - 1]);
      StepKeepsBounded(states[n - 1], ops[n - 1], ClockAt(ops, n - 1, start), duration);
    } else {
      NothingIsBounded(states[0], start, duration);
    }
  }

  lemma NothingIsBounded(s: State, clock: int, duration: int)
    requires s.locks == map[]
    ensures Bounded(s, clock, duration)
  {
  }

  // ---------- the lease ----------

  /** User `u` holds `k` until at least `e`, or `e` has passed. */
  ghost predicate Leased(s: State, k: string, u: string, e: int, clock: int) {
    (k in s.locks && s.locks[k].userId == u && e <= s.locks[k].expiresAt) || e <= clock
  }

  lemma StepKeepsLease(s: State, op: Op, k: string, u: string, e: int, clock: int, duration: int)
    requires Leased(s, k, u, e, clock) && clock <= Start(op) <= End(op) && e <= clock + duration
    requires op != Release(k, u, op.now)
    ensures Leased(Next(s, op, duration), k, u, e, End(op))
    ensures op.Acquire? && op.resourceId == k && op.user.id != u && op.now < e ==> Refused(s.locks, k, op.user, op.now)
  {
    hide Broadcast;
  }

  /** The operation grants `k` to `u`. */
  predicate Grants(s: State, op: Op, k: string, u: string) {
    op.Acquire? && op.resourceId == k && op.user.id == u && !Refused(s.locks, k, op.user, op.now)
  }

  lemma {:induction false} LeaseStands(states: seq<State>, ops: seq<Op>, duration: int, start: int,
                                       i: nat, n: nat, k: string, u: string)
    requires Behaves(states, ops, duration) && Initial(states, ops, start)
    requires i < n <= |ops| && Grants(states[i], ops[i], k, u)
    requires forall j :: i < j < n ==> ops[j] != Release(k, u, ops[j].now)
    ensures Leased(states[n], k, u, End(ops[i]) + duration, End(ops[n - 1])) && End(ops[i]) <= End(ops[n - 1])
    decreases n
  {
    hide Next, Leased;
    if n == i + 1 {
      GrantIsLease(states[i], ops[i], k, u, duration);
    } else {
      LeaseStands(states, ops, duration, start, i, n - 1, k, u);
      StepKeepsLease(states[n - 1], ops[n - 1], k, u, End(ops[i]) + duration, End(ops[n - 2]), duration);
    }
  }

  lemma GrantIsLease(s: State, op: Op, k: string, u: string, duration: int)
    requires Grants(s, op, k, u)
    ensures Leased(Next(s, op, duration), k, u, End(op) + duration, End(op))
  {
    hide Broadcast;
  }

  /** After a lock on `k` is granted to `u` until `e`, nobody else's acquire succeeds before `e` unless `u`
      released it in between, over every run and whatever sweeps and refreshes happen. */
  lemma LeaseExcludesOthers(states: seq<State>, ops: seq<Op>, duration: int, start: int,
                            i: nat, n: nat, k: string, u: string)
    requires Behaves(states, ops, duration) && Initial(states, ops, start)
    requires i < n < |ops| && Grants(states[i], ops[i], k, u)
    requires forall j :: i < j < n ==> ops[j] != Release(k, u, ops[j].now)
    requires ops[n].Acquire? && ops[n].resourceId == k && ops[n].user.id != u
    requires ops[n].now < End(ops[i]) + duration
    ensures Refused(states[n].locks, k, ops[n].user, ops[n].now)
  {
    LeaseStands(states, ops, duration, start, i, n, k, u);
    StepKeepsLease(states[n], ops[n], k, u, End(ops[i]) + duration, End(ops[n - 1]), duration);
  }

  /** Until then the holder, and nobody else, passes the save gate. */
  lemma HolderAlonePassesGuard(states: seq<State>, ops: seq<Op>, duration: int, start: int,
                               i: nat, n: nat, k: string, u: string, t: int)
    requires Behaves(states, ops, duration) && Initial(states, ops, start)
    requires i < n <= |ops| && Grants(states[i], ops[i], k, u)
    requires forall j :: i < j < n ==> ops[j] != Release(k, u, ops[j].now)
    requires End(ops[n - 1]) <= t < End(ops[i]) + duration
    ensures forall v :: HeldBy(states[n].locks, k, v, t) <==> v == u
  {
    LeaseStands(states, ops, duration, start, i, n, k, u);
  }

  // ---------- subscribers ----------

  /** What a client shows for a resource: its last message, dropped once expired. */
  function Shown(s: State, c: Client, k: string, now: int): Option<LockView> {
    var received := Received(s.inbox, c, k);
    if |received| > 0 && received[|received| - 1].Some? && now < received[|received| - 1].value.expiresAt
    then received[|received| - 1] else None
  }

  /** Every subscriber shows the truth, now and until the next operation. */
  ghost predicate ViewsAgree(s: State, clock: int) {
    forall c, k, t :: c in Room(s.rooms, k) && clock <= t ==> Shown(s, c, k, t) == Status(s.locks, k, t)
  }

  lemma AcquireKeepsViews(s: State, op: Op, clock: int, duration: int)
    requires op.Acquire? && ViewsAgree(s, clock) && clock <= Start(op) <= End(op)
    ensures ViewsAgree(Next(s, op, duration), End(op))
  {
    if !Refused(s.locks, op.resourceId, op.user, op.now) {
      var lock := Granted(s.locks, op.resourceId, op.user, op.now, op.later, duration);
      var s' := Next(s, op, duration);
      hide Broadcast;
      forall c, k, t | c in Room(s.rooms, k) && End(op) <= t ensures Shown(s', c, k, t) == Status(s'.locks, k, t) {
        BroadcastMeaning(s.rooms, s.inbox, {op.resourceId}, Some(lock), c, k);
        assert Shown(s, c, k, t) == Status(s.locks, k, t);
      }
    }
  }

  lemma RemovalKeepsViews(s: State, gone: set<string>, clock: int, now: int)
    requires ViewsAgree(s, clock) && clock <= now
    ensures ViewsAgree(s.(locks := s.locks - gone, inbox := Broadcast(s.rooms, s.inbox, gone, None)), now)
  {
    var s' := s.(locks := s.locks - gone, inbox := Broadcast(s.rooms, s.inbox, gone, None));
    hide Broadcast;
    forall c, k, t | c in Room(s.rooms, k) && now <= t ensures Shown(s', c, k, t) == Status(s'.locks, k, t) {
      BroadcastMeaning(s.rooms, s.inbox, gone, None, c, k);
      assert Shown(s, c, k, t) == Status(s.locks, k, t);
    }
  }

  lemma SubscribeKeepsViews(s: State, op: Op, clock: int, duration: int)
    requires (op.Subscribe? || op.Unsubscribe?) && ViewsAgree(s, clock) && clock <= Start(op)
    ensures ViewsAgree(Next(s, op, duration), End(op))
  {
    var s' := Next(s, op, duration);
    forall c, k, t | c in Room(s'.rooms, k) && End(op) <= t ensures Shown(s', c, k, t) == Status(s'.locks, k, t) {
      if c in Room(s.rooms, k) {
        assert Shown(s, c, k, t) == Status(s.locks, k, t);
      }
    }
  }

  lemma StepKeepsViews(s: State, op: Op, clock: int, duration: int)
    requires ViewsAgree(s, clock) && clock <= Start(op) <= End(op)
    ensures ViewsAgree(Next(s, op, duration), End(op))
  {
    hide Broadcast;
    match op
    case Acquire(_, _, _, _) => AcquireKeepsViews(s, op, clock, duration);
    case Release(k, userId, now) =>
      if k in s.locks && s.locks[k].userId == userId {
        RemovalKeepsViews(s, {k}, clock, now);
      }
    case Sweep(now) => RemovalKeepsViews(s, Expired(s.locks, now), clock, now);
    case _ => SubscribeKeepsViews(s, op, clock, duration);
  }

  /** Over every run, what the clients in a room show is the lock status. */
  lemma {:induction false} RoomsSeeTheTruth(states: seq<State>, ops: seq<Op>, duration: int, start: int, n: nat)
    requires Behaves(states, ops, duration) && Initial(states, ops, start) && n <= |ops|
    ensures ViewsAgree(states[n], ClockAt(ops, n, start))
  {
    hide Next, ViewsAgree;
    if n > 0 {
      RoomsSeeTheTruth(states, ops, duration, start, n - 1);
      assert ClockAt(ops, n - 1, start) <= Start(ops[n - 1]);
      StepKeepsViews(states[n - 1], ops[n - 1], ClockAt(ops, n - 1, start), duration);
    } else {
      NobodyIsMisled(states[0], start);
    }
  }

  /** The operations so far have subscribed the client to the resource and not unsubscribed it since. */
  ghost predicate Follows(ops: seq<Op>, n: nat, c: Client, k: string)
    requires n <= |ops|
  {
    && k != ""
    && exists i :: 0 <= i < n && ops[i].Subscribe? && ops[i].client == c && ops[i].resourceId == k
                   && forall j :: i < j < n ==> !(ops[j].Unsubscribe? && ops[j].client == c && ops[j].resourceId == k)
  }

  lemma FollowsNext(ops: seq<Op>, n: nat, c: Client, k: string)
    requires n < |ops|
    ensures Follows(ops, n + 1, c, k) <==>
            if ops[n].Subscribe? && ops[n].client == c && ops[n].resourceId == k then k != ""
            else if ops[n].Unsubscribe? && ops[n].client == c && ops[n].resourceId == k then false
            else Follows(ops, n, c, k)
  {
  }

  /** Over every run the room of a resource holds exactly the clients that follow it. */
  lemma {:induction false} RoomsHoldFollowers(states: seq<State>, ops: seq<Op>, duration: int, start: int, n: nat,
                                              c: Client, k: string)
    requires Behaves(states, ops, duration) && Initial(states, ops, start) && n <= |ops|
    ensures c in Room(states[n].rooms, k) <==> Follows(ops, n, c, k)
  {
    hide Broadcast, Follows, Acquired, Released, Swept;
    if n > 0 {
      RoomsHoldFollowers(states, ops, duration, start, n - 1, c, k);
      FollowsNext(ops, n - 1, c, k);
      NobodyFollowsNothing(ops, n - 1, c);
      OthersKeepRooms(states[n - 1], ops[n - 1], duration);
    } else {
      NobodyFollowsYet(ops, c, k);
    }
  }

  lemma OthersKeepRooms(s: State, op: Op, duration: int)
    ensures !op.Subscribe? && !op.Unsubscribe? ==> Next(s, op, duration).rooms == s.rooms
  {
  }

  lemma NobodyFollowsNothing(ops: seq<Op>, n: nat, c: Client)
    requires n <= |ops|
    ensures !Follows(ops, n, c, "")
  {
  }

  lemma NobodyFollowsYet(ops: seq<Op>, c: Client, k: string)
    ensures !Follows(ops, 0, c, k)
  {
  }

  /** Over every run, what a client that has subscribed and not unsubscribed since shows for a resource is the lock
      status the server would answer at that instant. */
  lemma SubscribersSeeTheTruth(states: seq<State>, ops: seq<Op>, duration: int, start: int, n: nat,
                               c: Client, k: string, t: int)
    requires Behaves(states, ops, duration) && Initial(states, ops, start) && n <= |ops|
    requires Follows(ops, n, c, k) && ClockAt(ops, n, start) <= t
    ensures Shown(states[n], c, k, t) == Status(states[n].locks, k, t)
  {
    RoomsHoldFollowers(states, ops, duration, start, n, c, k);
    RoomsSeeTheTruth(states, ops, duration, start, n);
  }

  /** What an operation sends a client about a resource: a granted lock to the whole room, the end of a lock to the
      whole room when its owner releases it or the sweep takes it, the status to whoever subscribes, and nothing else. */
  lemma MessagesMeaning(s: State, op: Op, duration: int, c: Client, k: string)
    ensures var inRoom, sent := c in Room(s.rooms, k), Received(Next(s, op, duration).inbox, c, k);
            match op
            case Acquire(r, user, now, later) =>
              sent == Received(s.inbox, c, k)
                + if inRoom && r == k && !(k in LiveLocks(s.locks, now) && LiveLocks(s.locks, now)[k].userId != user.id)
                  then [Some(Next(s, op, duration).locks[k])] else []
            case Release(r, userId, _) =>
              sent == Received(s.inbox, c, k)
                + if inRoom && r == k && k in s.locks && s.locks[k].userId == userId then [None] else []
            case Sweep(now) =>
              sent == Received(s.inbox, c, k)
                + if inRoom && k in s.locks && k !in LiveLocks(s.locks, now) then [None] else []
            case Subscribe(d, r, now) =>
              sent == Received(s.inbox, c, k)
                + if d == c && r == k != ""
                  then [if k in LiveLocks(s.locks, now) then Some(LiveLocks(s.locks, now)[k]) else None] else []
            case Unsubscribe(_, _, _) => sent == Received(s.inbox, c, k)
  {
    match op {
      case Acquire(r, user, now, later) =>
        if !Refused(s.locks, r, user, now) {
          var lock := Granted(s.locks, r, user, now, later, duration);
          hide Broadcast;
          BroadcastMeaning(s.rooms, s.inbox, {r}, Some(lock), c, k);
        }
      case Release(r, userId, _) =>
        hide Broadcast;
        BroadcastMeaning(s.rooms, s.inbox, {r}, None, c, k);
      case Sweep(now) =>
        hide Broadcast;
        BroadcastMeaning(s.rooms, s.inbox, Expired(s.locks, now), None, c, k);
      case _ =>
    }
  }

  /** A sweep leaves no expired lock and takes no live one. */
  lemma SweepMeaning(s: State, now: int)
    ensures Swept(s, now).locks == LiveLocks(s.locks, now)
  {
    hide Broadcast;
  }

  lemma NobodyIsMisled(s: State, clock: int)
    requires s == State(map[], map[], map[])
    ensures ViewsAgree(s, clock)
  {
  }
}
