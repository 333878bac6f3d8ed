/** Editing locks: an in-memory lease table with lazy expiry and a background sweep, and the sockets that
    follow it. */
module Locking {
  import opened Wrappers

  datatype LockUser = LockUser(id: string, username: string)

  /** A lock as it is sent over the wire: a snapshot. */
  datatype LockView = LockView(userId: string, username: string, expiresAt: int)

  type LockTable = map<string, LockView>

  type Client = string

  /** A client following a resource. */
  datatype Seat = Seat(client: Client, resourceId: string)

  /** Which clients are in the room of a resource. */
  type Rooms = map<string, set<Client>>

  /** What each client has been sent about each resource, in order. */
  type Inbox = map<Seat, seq<Option<LockView>>>

  datatype State = State(locks: LockTable, rooms: Rooms, inbox: Inbox)

  // ---------- what the operations do to the state ----------

  function Room(rooms: Rooms, resourceId: string): set<Client> {
    if resourceId in rooms then rooms[resourceId] else {}
  }

  function Received(inbox: Inbox, client: Client, resourceId: string): seq<Option<LockView>> {
    if Seat(client, resourceId) in inbox then inbox[Seat(client, resourceId)] else []
  }

  function Audience(rooms: Rooms, resources: set<string>): set<Seat> {
    set k, c | k in resources && k in rooms && c in rooms[k] :: Seat(c, k)
  }

  function Append(inbox: Inbox, audience: set<Seat>, lock: Option<LockView>): Inbox {
    inbox + map p | p in audience :: Received(inbox, p.client, p.resourceId) + [lock]
  }

  /** `server.to(room).emit('lock_updated', ...)` for every resource of a set. */
  function Broadcast(rooms: Rooms, inbox: Inbox, resources: set<string>, lock: Option<LockView>): Inbox {
    Append(inbox, Audience(rooms, resources), lock)
  }

  lemma BroadcastMeaning(rooms: Rooms, inbox: Inbox, resources: set<string>, lock: Option<LockView>, c: Client, k: string)
    ensures Received(Broadcast(rooms, inbox, resources, lock), c, k) ==
            Received(inbox, c, k) + if k in resources && c in Room(rooms, k) then [lock] else []
  {
    assert Seat(c, k) in Audience(rooms, resources) <==> k in resources && c in Room(rooms, k);
  }

  predicate Live(locks: LockTable, resourceId: string, now: int) {
    resourceId in locks && now < locks[resourceId].expiresAt
  }

  predicate HeldBy(locks: LockTable, resourceId: string, userId: string, now: int) {
    Live(locks, resourceId, now) && locks[resourceId].userId == userId
  }

  predicate Refused(locks: LockTable, resourceId: string, user: LockUser, now: int) {
    Live(locks, resourceId, now) && locks[resourceId].userId != user.id
  }

  /** The lock `acquireLock` leaves behind when it grants: refreshed in place, or new. */
  function Granted(locks: LockTable, resourceId: string, user: LockUser, now: int, later: int, duration: int): LockView {
    if Live(locks, resourceId, now) then locks[resourceId].(expiresAt := later + duration)
    else LockView(user.id, user.username, later + duration)
  }

  function Acquired(s: State, resourceId: string, user: LockUser, now: int, later: int, duration: int): State {
    if Refused(s.locks, resourceId, user, now) then s
    else
      var lock := Granted(s.locks, resourceId, user, now, later, duration);
      s.(locks := s.locks[resourceId := lock], inbox := Broadcast(s.rooms, s.inbox, {resourceId}, Some(lock)))
  }

  function Released(s: State, resourceId: string, userId: string): State {
    if resourceId in s.locks && s.locks[resourceId].userId == userId
    then s.(locks := s.locks - {resourceId}, inbox := Broadcast(s.rooms, s.inbox, {resourceId}, None))
    else s
  }

  function Expired(locks: LockTable, now: int): set<string> {
    set k | k in locks && locks[k].expiresAt <= now
  }

  function Swept(s: State, now: int): State {
    s.(locks := s.locks - Expired(s.locks, now), inbox := Broadcast(s.rooms, s.inbox, Expired(s.locks, now), None))
  }

  function Status(locks: LockTable, resourceId: string, now: int): Option<LockView> {
    if Live(locks, resourceId, now) then Some(locks[resourceId]) else None
  }

  function Subscribed(s: State, client: Client, resourceId: string, now: int): State {
    if resourceId == "" then s
    else
      var received := Received(s.inbox, client, resourceId) + [Status(s.locks, resourceId, now)];
      s.(inbox := s.inbox[Seat(client, resourceId) := received],
         rooms := s.rooms[resourceId := Room(s.rooms, resourceId) + {client}])
  }

  function Unsubscribed(s: State, client: Client, resourceId: string): State {
    if resourceId == "" then s else s.(rooms := s.rooms[resourceId := Room(s.rooms, resourceId) - {client}])
  }

  // ---------- the services ----------

  class Lock {
    const userId: string
    const username: string
    var expiresAt: int

    constructor (userId: string, username: string, expiresAt: int)
      ensures this.userId == userId && this.username == username && this.expiresAt == expiresAt
    {
      this.userId, this.username, this.expiresAt := userId, username, expiresAt;
    }

    function View(): LockView
      reads this
    {
      LockView(userId, username, expiresAt)
    }
  }

  class LockingGateway {
    var rooms: Rooms
    var inbox: Inbox

    constructor ()
      ensures rooms == map[] && inbox == map[]
    {
      rooms, inbox := map[], map[];
    }

    /** Every client in the room gets a copy of the lock as it is now. */
    method BroadcastLockUpdate(resourceId: string, lock: Option<LockView>)
      modifies this`inbox
      ensures inbox == Broadcast(rooms, old(inbox), {resourceId}, lock)
    {
      inbox := Broadcast(rooms, inbox, {resourceId}, lock);
    }

    /** Tell the client the current status, then let it into the room. */
    method HandleSubscribe(client: Client, resourceId: string, service: LockingService, now: int)
      requires service.gateway == this && service.Valid()
      modifies this
      ensures service.Model() == old(Subscribed(service.Model(), client, resourceId, now))
    {
      if resourceId != "" {
        var currentLock := service.GetLockStatus(resourceId, now);
        inbox := inbox[Seat(client, resourceId) := Received(inbox, client, resourceId) + [currentLock]];
        rooms := rooms[resourceId := Room(rooms, resourceId) + {client}];
      }
    }

    method HandleUnsubscribe(client: Client, resourceId: string, service: LockingService)
      requires service.gateway == this && service.Valid()
      modifies this`rooms
      ensures service.Model() == old(Unsubscribed(service.Model(), client, resourceId))
    {
      if resourceId != "" {
        rooms := rooms[resourceId := Room(rooms, resourceId) - {client}];
      }
    }
  }

  class LockingService {
    const gateway: LockingGateway
    const lockDurationMs: int
    var locks: map<string, Lock>

    constructor (gateway: LockingGateway, lockDurationMs: int)
      ensures Valid() && this.gateway == gateway && this.lockDurationMs == lockDurationMs && locks == map[]
    {
      this.gateway, this.lockDurationMs, this.locks := gateway, lockDurationMs, map[];
    }

    /** No lock object stands under two resources, so changing one in place changes one lock. */
    ghost predicate Valid()
      reads this
    {
      forall i, j :: i in locks && j in locks && i != j ==> locks[i] != locks[j]
    }

    ghost function Table(): (t: LockTable)
      reads this, locks.Values
      ensures t.Keys == locks.Keys
    {
      map k | k in locks :: locks[k].View()
    }

    ghost function Model(): State
      reads this, locks.Values, gateway
    {
      State(Table(), gateway.rooms, gateway.inbox)
    }

    /** The holder's lock is extended in place and announced. */
    method Refresh(resourceId: string, expiresAt: int)
      requires Valid() && resourceId in locks
      modifies locks[resourceId], gateway`inbox
      ensures Valid() && Table() == old(Table())[resourceId := old(Table())[resourceId].(expiresAt := expiresAt)]
      ensures gateway.inbox == Broadcast(gateway.rooms, old(gateway.inbox), {resourceId}, Some(Table()[resourceId]))
    {
      hide Broadcast;
      var existingLock := locks[resourceId];
      existingLock.expiresAt := expiresAt;
      gateway.BroadcastLockUpdate(resourceId, Some(existingLock.View()));
    }

    /** A new lock takes the place of whatever was there, and is announced. */
    method Install(resourceId: string, user: LockUser, expiresAt: int)
      requires Valid()
      modifies this`locks, gateway`inbox
      ensures Valid() && fresh(locks.Values - old(locks.Values))
      ensures Table() == old(Table())[resourceId := LockView(user.id, user.username, expiresAt)]
      ensures gateway.inbox == Broadcast(gateway.rooms, old(gateway.inbox), {resourceId}, Some(Table()[resourceId]))
    {
      hide Broadcast;
      var newLock := new Lock(user.id, user.username, expiresAt);
      ghost var before := locks;
      locks := locks[resourceId := newLock];
      assert newLock !in before.Values && Valid();
      gateway.BroadcastLockUpdate(resourceId, Some(newLock.View()));
    }

    /** `now` is the clock when the lock is looked at, `later` when its expiry is computed. */
    method AcquireLock(resourceId: string, user: LockUser, now: int, later: int) returns (r: Result<LockView, LockView>)
      requires Valid() && now <= later
      modifies this`locks, locks.Values, gateway`inbox
      ensures Valid() && fresh(locks.Values - old(locks.Values))
      ensures Model() == old(Acquired(Model(), resourceId, user, now, later, lockDurationMs))
      ensures r == if old(Refused(Table(), resourceId, user, now)) then Err(old(Table())[resourceId])
                   else Ok(old(Granted(Table(), resourceId, user, now, later, lockDurationMs)))
    {
      hide Broadcast, Valid;
      if resourceId in locks && locks[resourceId].expiresAt > now {
        if locks[resourceId].userId == user.id {
          Refresh(resourceId, later + lockDurationMs);
          return Ok(locks[resourceId].View());
        }
        return Err(locks[resourceId].View());
      }
      Install(resourceId, user, later + lockDurationMs);
      return Ok(locks[resourceId].View());
    }

    /** `this.locks.delete(...)` and the broadcast that goes with it. */
    method Evict(resourceId: string)
      requires Valid() && resourceId in locks
      modifies this`locks, gateway`inbox
      ensures Valid() && locks == old(locks) - {resourceId} && Table() == old(Table()) - {resourceId}
      ensures gateway.inbox == Broadcast(gateway.rooms, old(gateway.inbox), {resourceId}, None)
    {
      hide Broadcast;
      locks := locks - {resourceId};
      gateway.BroadcastLockUpdate(resourceId, None);
    }

    method ReleaseLock(resourceId: string, userId: string)
      requires Valid()
      modifies this`locks, gateway`inbox
      ensures Valid()
      ensures Model() == old(Released(Model(), resourceId, userId))
    {
      hide Broadcast;
      if resourceId in locks && locks[resourceId].userId == userId {
        Evict(resourceId);
      }
    }

    method IsLockedBy(resourceId: string, userId: string, now: int) returns (r: bool)
      requires Valid()
      ensures r <==> HeldBy(Table(), resourceId, userId, now)
      ensures r <==> resourceId in locks && locks[resourceId].userId == userId && now < locks[resourceId].expiresAt
    {
      r := resourceId in locks && locks[resourceId].userId == userId && locks[resourceId].expiresAt > now;
    }

    method GetLockStatus(resourceId: string, now: int) returns (r: Option<LockView>)
      requires Valid()
      ensures r == Status(Table(), resourceId, now)
    {
      if resourceId in locks && locks[resourceId].expiresAt > now {
        return Some(locks[resourceId].View());
      }
      return None;
    }

    /** One turn of the sweep: `gone` are the resources already swept since the table was `before`. */
    method EvictIfExpired(resourceId: string, now: int,
                          ghost before: LockTable, ghost inbox0: Inbox, ghost gone: set<string>)
      returns (ghost more: set<string>)
      requires Valid() && resourceId in locks && Table() == before - gone
      requires gateway.inbox == Broadcast(gateway.rooms, inbox0, gone, None)
      modifies this`locks, gateway`inbox
      ensures Valid() && resourceId in before
      ensures more == gone + if before[resourceId].expiresAt <= now then {resourceId} else {}
      ensures Table() == before - more && old(locks.Keys) - {resourceId} <= locks.Keys
      ensures gateway.inbox == Broadcast(gateway.rooms, inbox0, more, None)
    {
      hide Broadcast, Audience;
      more := gone;
      assert resourceId in Table() && before[resourceId] == locks[resourceId].View();
      if locks[resourceId].expiresAt <= now {
        BroadcastTwice(gateway.rooms, inbox0, gone, {resourceId}, None);
        assert before - gone - {resourceId} == before - (gone + {resourceId});
        Evict(resourceId);
        more := gone + {resourceId};
      }
    }

    /** The map is walked while expired entries are taken out of it. */
    method CleanupExpiredLocks(now: int)
      requires Valid()
      modifies this`locks, gateway`inbox
      ensures Valid()
      ensures Model() == old(Swept(Model(), now))
    {
      hide Broadcast, Audience, Expired, Table, Valid;
      ghost var before, inbox0 := Table(), gateway.inbox;
      ghost var gone: set<string> := {};
      BroadcastToNobody(gateway.rooms, inbox0, None);
      NothingSwept(before, now);
      var todo := locks.Keys;
      while todo != {}
        invariant Valid() && todo <= locks.Keys
        invariant gone == Expired(before, now) - todo
        invariant Table() == before - gone
        invariant gateway.inbox == Broadcast(gateway.rooms, inbox0, gone, None)
        decreases |todo|
      {
        var resourceId :| resourceId in todo;
        assert resourceId in Table();
        SweptSoFar(before, now, todo, resourceId);
        todo := todo - {resourceId};
        gone := EvictIfExpired(resourceId, now, before, inbox0, gone);
      }
      assert gone == Expired(before, now);
    }
  }

  datatype GuardError = NoEndpointId | NotTheHolder

  /** The gate every save passes: only the holder of the endpoint's live lock gets through. */
  class LockOwnerGuard {
    const lockingService: LockingService

    constructor (lockingService: LockingService)
      ensures this.lockingService == lockingService
    {
      this.lockingService := lockingService;
    }

    method CanActivate(endpointId: string, userId: string, now: int) returns (r: Result<(), GuardError>)
      requires lockingService.Valid()
      ensures r == if endpointId == "" then Err(NoEndpointId)
                   else if HeldBy(lockingService.Table(), endpointId, userId, now) then Ok(()) else Err(NotTheHolder)
    {
      if endpointId == "" {
        return Err(NoEndpointId);
      }
      var hasLock := lockingService.IsLockedBy(endpointId, userId, now);
      if !hasLock {
        return Err(NotTheHolder);
      }
      return Ok(());
    }
  }

  lemma NothingSwept(locks: LockTable, now: int)
    ensures Expired(locks, now) - locks.Keys == {}
  {
  }

  lemma SweptSoFar(locks: LockTable, now: int, todo: set<string>, k: string)
    requires k in locks && k in todo
    ensures Expired(locks, now) - (todo - {k}) ==
            (Expired(locks, now) - todo) + if locks[k].expiresAt <= now then {k} else {}
  {
  }

  lemma AppendAt(inbox: Inbox, audience: set<Seat>, lock: Option<LockView>, p: Seat)
    ensures var after := Append(inbox, audience, lock);
            && (p in after <==> p in inbox || p in audience)
            && (p in after ==> after[p] == Received(inbox, p.client, p.resourceId) + if p in audience then [lock] else [])
  {
  }

  lemma AppendTwice(inbox: Inbox, first: set<Seat>, second: set<Seat>, lock: Option<LockView>)
    requires first !! second
    ensures Append(Append(inbox, first, lock), second, lock) == Append(inbox, first + second, lock)
  {
    var once := Append(inbox, first, lock);
    var twice, both := Append(once, second, lock), Append(inbox, first + second, lock);
    hide Append;
    forall p: Seat ensures (p in twice <==> p in both) && (p in twice ==> twice[p] == both[p]) {
      AppendAt(inbox, first, lock, p);
      AppendAt(once, second, lock, p);
      AppendAt(inbox, first + second, lock, p);
    }
  }

  lemma BroadcastTwice(rooms: Rooms, inbox: Inbox, first: set<string>, second: set<string>, lock: Option<LockView>)
    requires first !! second
    ensures Broadcast(rooms, Broadcast(rooms, inbox, first, lock), second, lock) ==
            Broadcast(rooms, inbox, first + second, lock)
  {
    hide Append;
    assert Audience(rooms, first + second) == Audience(rooms, first) + Audience(rooms, second);
    AppendTwice(inbox, Audience(rooms, first), Audience(rooms, second), lock);
  }

  lemma BroadcastToNobody(rooms: Rooms, inbox: Inbox, lock: Option<LockView>)
    ensures Broadcast(rooms, inbox, {}, lock) == inbox
  {
    assert Audience(rooms, {}) == {};
  }
}
