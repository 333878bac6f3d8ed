/** Sign-in tokens and the version number that revokes them. */
module Sessions {
  import opened Wrappers

  /** The columns of a user row that sign-in looks at; `password` is a hash. */
  datatype User = User(username: string, password: Option<string>, tokenVersion: nat, deleted: bool)

  type Users = map<string, User>

  datatype Payload = Payload(sub: string, tokenVersion: nat)

  datatype Unauthorized = UserGone | TokenRevoked

  /** `JwtStrategy.validate` on a token whose signature and expiry are good. */
  function Validate(users: Users, p: Payload): Result<User, Unauthorized> {
    if p.sub !in users || users[p.sub].deleted then Err(UserGone)
    else if users[p.sub].tokenVersion != p.tokenVersion then Err(TokenRevoked)
    else Ok(users[p.sub])
  }

  /** The socket gateway asks for the version only. */
  predicate SocketAdmits(users: Users, p: Payload) {
    p.sub in users && users[p.sub].tokenVersion == p.tokenVersion
  }

  datatype Credentials = Local(passwordsMatch: bool) | OAuth

  /** `validateUser` and `validateOAuthUser`: may this row sign in? */
  predicate MaySignIn(u: User, c: Credentials) {
    match c
    case Local(passwordsMatch) => u.password.Some? && !u.deleted && passwordsMatch
    case OAuth => !u.deleted
  }

  datatype AccountError = NotFound | BadRequest | Forbidden

  /** `updatePassword` before its write: there must be a password, and the caller must know it. */
  function MayUpdatePassword(users: Users, id: string, currentMatches: bool): Result<(), AccountError> {
    if id !in users then Err(NotFound)
    else if users[id].password.None? || !currentMatches then Err(BadRequest)
    else Ok(())
  }

  /** `setPassword` before its write: there must not be a password yet. */
  function MaySetPassword(users: Users, id: string): Result<(), AccountError> {
    if id !in users then Err(NotFound) else if users[id].password.Some? then Err(BadRequest) else Ok(())
  }

  /** `remove` before its write: the row, whose name is kept, unless it is one's own account or already gone. */
  function MayRemove(users: Users, id: string, actor: string): Result<User, AccountError> {
    if id == actor then Err(Forbidden)
    else if id !in users || users[id].deleted then Err(NotFound)
    else Ok(users[id])
  }

  function WithPassword(u: User, hash: string): User {
    u.(password := Some(hash), tokenVersion := u.tokenVersion + 1)
  }

  function SoftDeleted(u: User, nameRead: string, stamp: string): User {
    User(nameRead + "_deleted_" + stamp, None, u.tokenVersion + 1, true)
  }

  // ---------- the system ----------

  /** A request between two of its steps, with the row it checked. `readAt` counts the version bumps before the row
      was read. */
  datatype Pending =
    | SigningIn(sub: string, tokenVersion: nat, readAt: nat)
    | ChangingPassword(id: string, read: User, readAt: nat)
    | Deleting(id: string, read: User, readAt: nat)

  /** Why a version was raised: a new password, or deletion. */
  datatype Bump = PasswordSet(id: string) | Removed(id: string)

  datatype Issued = Issued(payload: Payload, readAt: nat)

  /** `bumps` lists, in order, whose version was raised and why. */
  datatype System = System(users: Users, pending: map<nat, Pending>, issued: seq<Issued>, bumps: seq<Bump>)

  datatype Step =
    | CreateUser(id: string, username: string, password: Option<string>)
    | ReadForSignIn(request: nat, id: string, credentials: Credentials)
    | IssueToken(request: nat)
    | ReadForUpdatePassword(request: nat, id: string, currentMatches: bool)
    | ReadForSetPassword(request: nat, id: string)
    | WritePassword(request: nat, hash: string)
    | AdminUpdate(id: string, newHash: Option<string>)
    | ReadForRemove(request: nat, id: string, actor: string)
    | WriteRemove(request: nat, stamp: string)

  /** New users get new ids; request numbers are not reused while a request is under way. */
  predicate Possible(s: System, step: Step) {
    match step
    case CreateUser(id, _, _) => id !in s.users
    case ReadForSignIn(r, _, _) => r !in s.pending
    case IssueToken(r) => r in s.pending && s.pending[r].SigningIn?
    case ReadForUpdatePassword(r, _, _) => r !in s.pending
    case ReadForSetPassword(r, _) => r !in s.pending
    case WritePassword(r, _) => r in s.pending && s.pending[r].ChangingPassword? && s.pending[r].id in s.users
    case AdminUpdate(_, _) => true
    case ReadForRemove(r, _, _) => r !in s.pending
    case WriteRemove(r, _) => r in s.pending && s.pending[r].Deleting? && s.pending[r].id in s.users
  }

  function Raise(s: System, b: Bump, u: User): System {
    s.(users := s.users[b.id := u], bumps := s.bumps + [b])
  }

  function Next(s: System, step: Step): System
    requires Possible(s, step)
  {
    match step
    case CreateUser(id, username, password) => s.(users := s.users[id := User(username, password, 1, false)])
    case ReadForSignIn(r, id, credentials) =>
      if id in s.users && MaySignIn(s.users[id], credentials)
      then s.(pending := s.pending[r := SigningIn(id, s.users[id].tokenVersion, |s.bumps|)]) else s
    case IssueToken(r) =>
      var p := s.pending[r];
      s.(pending := s.pending - {r}, issued := s.issued + [Issued(Payload(p.sub, p.tokenVersion), p.readAt)])
    case ReadForUpdatePassword(r, id, currentMatches) =>
      if MayUpdatePassword(s.users, id, currentMatches).Ok?
      then s.(pending := s.pending[r := ChangingPassword(id, s.users[id], |s.bumps|)]) else s
    case ReadForSetPassword(r, id) =>
      if MaySetPassword(s.users, id).Ok?
      then s.(pending := s.pending[r := ChangingPassword(id, s.users[id], |s.bumps|)]) else s
    case WritePassword(r, hash) =>
      var id := s.pending[r].id;
      Raise(s, PasswordSet(id), WithPassword(s.users[id], hash)).(pending := s.pending - {r})
    case AdminUpdate(id, hash) =>
      if id in s.users && hash.Some? then Raise(s, PasswordSet(id), WithPassword(s.users[id], hash.value)) else s
    case ReadForRemove(r, id, actor) =>
      var row := MayRemove(s.users, id, actor);
      if row.Ok? then s.(pending := s.pending[r := Deleting(id, row.value, |s.bumps|)]) else s
    case WriteRemove(r, stamp) =>
      var p := s.pending[r];
      Raise(s, Removed(p.id), SoftDeleted(s.users[p.id], p.read.username, stamp)).(pending := s.pending - {r})
  }

  // ---------- revocation ----------

  /** Every token of the user that was good is turned away now, at both doors; everybody else's are as they were. */
  ghost predicate Revokes(before: Users, after: Users, id: string) {
    forall p: Payload ::
      if p.sub == id
      then SocketAdmits(before, p) || Validate(before, p).Ok? ==> Validate(after, p).Err? && !SocketAdmits(after, p)
      else Validate(after, p) == Validate(before, p) && SocketAdmits(after, p) == SocketAdmits(before, p)
  }

  /** Writing a row of a user revokes exactly that user's tokens if and only if it changes the version and does not
      bring a deleted user back. */
  lemma RevokesIff(users: Users, id: string, u: User)
    requires id in users && (users[id].deleted ==> u.deleted)
    ensures Revokes(users, users[id := u], id) <==> u.tokenVersion != users[id].tokenVersion
  {
    var p := Payload(id, users[id].tokenVersion);
    assert SocketAdmits(users, p);
    if u.tokenVersion == users[id].tokenVersion {
      assert SocketAdmits(users[id := u], p);
    }
  }

  // ---------- the service ----------

  /** The user table behind the account services. Each method is one database statement with the checks that precede
      it without an await, and takes a step of the system. What a request remembers across its awaits, and the record
      of tokens and versions, are kept beside the table. */
  class AccountService {
    var users: Users
    ghost var pending: map<nat, Pending>
    ghost var issued: seq<Issued>
    ghost var bumps: seq<Bump>

    constructor ()
      ensures Model() == System(map[], map[], [], [])
    {
      users, pending, issued, bumps := map[], map[], [], [];
    }

    ghost function Model(): System
      reads this
    {
      System(users, pending, issued, bumps)
    }

    method ReadForSignIn(ghost request: nat, id: string, credentials: Credentials) returns (row: Option<User>)
      requires request !in pending
      modifies this`pending
      ensures Model() == Next(old(Model()), Step.ReadForSignIn(request, id, credentials))
      ensures row.Some? <==> id in users && !users[id].deleted
                             && (credentials.Local? ==> users[id].password.Some? && credentials.passwordsMatch)
      ensures row.Some? ==> row == Some(users[id]) && request in pending
      ensures row.None? ==> Model() == old(Model())
    {
      if id !in users || users[id].deleted {
        return None;
      }
      if credentials.Local? && (users[id].password.None? || !credentials.passwordsMatch) {
        return None;
      }
      pending := pending[request := SigningIn(id, users[id].tokenVersion, |bumps|)];
      return Some(users[id]);
    }

    /** `login`: a token for the row read. */
    method Login(ghost request: nat, sub: string, tokenVersion: nat) returns (token: Payload)
      requires request in pending && pending[request].SigningIn?
      requires pending[request].sub == sub && pending[request].tokenVersion == tokenVersion
      modifies this`pending, this`issued
      ensures Model() == Next(old(Model()), IssueToken(request)) && token == issued[|old(issued)|].payload
    {
      token := Payload(sub, tokenVersion);
      issued := issued + [Issued(token, pending[request].readAt)];
      pending := pending - {request};
    }

    method ReadForUpdatePassword(ghost request: nat, id: string, currentMatches: bool)
      returns (r: Result<(), AccountError>)
      requires request !in pending
      modifies this`pending
      ensures Model() == Next(old(Model()), Step.ReadForUpdatePassword(request, id, currentMatches))
      ensures r.Ok? <==> id in users && users[id].password.Some? && currentMatches
      ensures r.Err? ==> (r.error == NotFound <==> id !in users) && r.error != Forbidden
    {
      if id !in users {
        return Err(NotFound);
      }
      if users[id].password.None? || !currentMatches {
        return Err(BadRequest);
      }
      pending := pending[request := ChangingPassword(id, users[id], |bumps|)];
      return Ok(());
    }

    method ReadForSetPassword(ghost request: nat, id: string) returns (r: Result<(), AccountError>)
      requires request !in pending
      modifies this`pending
      ensures Model() == Next(old(Model()), Step.ReadForSetPassword(request, id))
      ensures r.Ok? <==> id in users && users[id].password.None?
      ensures r.Err? ==> (r.error == NotFound <==> id !in users) && r.error != Forbidden
    {
      if id !in users {
        return Err(NotFound);
      }
      if users[id].password.Some? {
        return Err(BadRequest);
      }
      pending := pending[request := ChangingPassword(id, users[id], |bumps|)];
      return Ok(());
    }

    method WritePassword(ghost request: nat, id: string, hash: string)
      requires request in pending && pending[request].ChangingPassword? && pending[request].id == id && id in users
      modifies this
      ensures Model() == Next(old(Model()), Step.WritePassword(request, hash))
      ensures Revokes(old(users), users, id)
      ensures users == old(users)[id := old(users)[id].(password := Some(hash), tokenVersion := users[id].tokenVersion)]
    {
      var u := users[id];
      RevokesIff(users, id, WithPassword(u, hash));
      users := users[id := u.(password := Some(hash), tokenVersion := u.tokenVersion + 1)];
      bumps := bumps + [PasswordSet(id)];
      pending := pending - {request};
    }

    /** `newHash` is there when a password was given. Only a new password raises the version. */
    method AdminUpdate(id: string, newHash: Option<string>) returns (r: Result<(), AccountError>)
      modifies this
      ensures Model() == Next(old(Model()), Step.AdminUpdate(id, newHash))
      ensures r == if id in old(users) then Ok(()) else Err(NotFound)
      ensures id in old(users) ==> (Revokes(old(users), users, id) <==> newHash.Some?)
      ensures newHash.None? ==> users == old(users)
      ensures newHash.Some? && id in old(users) ==>
                users == old(users)[id := old(users)[id].(password := newHash, tokenVersion := users[id].tokenVersion)]
    {
      if id !in users {
        return Err(NotFound);
      }
      var u := users[id];
      if newHash.Some? {
        u := u.(password := newHash, tokenVersion := u.tokenVersion + 1);
        bumps := bumps + [PasswordSet(id)];
      }
      RevokesIff(users, id, u);
      users := users[id := u];
      return Ok(());
    }

    method ReadForRemove(ghost request: nat, id: string, actor: string) returns (r: Result<User, AccountError>)
      requires request !in pending
      modifies this`pending
      ensures Model() == Next(old(Model()), Step.ReadForRemove(request, id, actor))
      ensures r.Ok? <==> id in users && !users[id].deleted && id != actor
      ensures match r
              case Ok(row) => row == users[id]
              case Err(error) => if id == actor then error == Forbidden else error == NotFound
    {
      if id == actor {
        return Err(Forbidden);
      }
      if id !in users || users[id].deleted {
        return Err(NotFound);
      }
      pending := pending[request := Deleting(id, users[id], |bumps|)];
      return Ok(users[id]);
    }

    method WriteRemove(ghost request: nat, id: string, nameRead: string, stamp: string)
      requires request in pending && pending[request].Deleting? && pending[request].id == id && id in users
      requires pending[request].read.username == nameRead
      modifies this
      ensures Model() == Next(old(Model()), Step.WriteRemove(request, stamp))
      ensures Revokes(old(users), users, id)
      ensures users == old(users)[id := User(nameRead + "_deleted_" + stamp, None, users[id].tokenVersion, true)]
    {
      var u := users[id];
      RevokesIff(users, id, SoftDeleted(u, nameRead, stamp));
      users := users[id := u.(deleted := true, username := nameRead + "_deleted_" + stamp, password := None,
                             tokenVersion := u.tokenVersion + 1)];
      bumps := bumps + [Removed(id)];
      pending := pending - {request};
    }
  }

  // ---------- what every step keeps ----------

  /** How often a user's version was raised. */
  function Count(bumps: seq<Bump>, id: string): nat {
    if |bumps| == 0 then 0 else Count(bumps[..|bumps| - 1], id) + if bumps[|bumps| - 1].id == id then 1 else 0
  }

  predicate Bumped(bumps: seq<Bump>, id: string) {
    exists i :: 0 <= i < |bumps| && bumps[i].id == id
  }

  /** Why a user's version was last raised. */
  function LastBump(bumps: seq<Bump>, id: string): (r: Option<Bump>)
    ensures r.None? <==> !Bumped(bumps, id)
  {
    if |bumps| == 0 then None
    else if bumps[|bumps| - 1].id == id then Some(bumps[|bumps| - 1])
    else LastBump(bumps[..|bumps| - 1], id)
  }

  lemma {:induction false} CountIsMembership(bumps: seq<Bump>, id: string)
    ensures Count(bumps, id) > 0 <==> Bumped(bumps, id)
  {
    if |bumps| > 0 {
      var init, last := bumps[..|bumps| - 1], bumps[|bumps| - 1];
      CountIsMembership(init, id);
      BumpedSnoc(init, last, id);
      assert bumps == init + [last];
    }
  }

  lemma BumpedSnoc(bumps: seq<Bump>, last: Bump, id: string)
    ensures Bumped(bumps + [last], id) <==> Bumped(bumps, id) || last.id == id
  {
    var more := bumps + [last];
    assert more[|bumps|] == last && forall i :: 0 <= i < |bumps| ==> more[i] == bumps[i];
  }

  lemma Since(bumps: seq<Bump>, last: Bump, readAt: nat, id: string)
    requires readAt <= |bumps|
    ensures var before, since := bumps[readAt..], (bumps + [last])[readAt..];
            && since == before + [last]
            && Count(since, id) == Count(before, id) + (if last.id == id then 1 else 0)
            && LastBump(since, id) == (if last.id == id then Some(last) else LastBump(before, id))
            && (Removed(id) in since <==> Removed(id) in before || last == Removed(id))
  {
    var since := bumps[readAt..];
    assert (bumps + [last])[readAt..] == since + [last];
    assert (since + [last])[..|since|] == since;
  }

  /** A version read at `readAt` and the bumps since then add up to the present version; a user deleted by now was
      bumped since. */
  ghost predicate Traced(s: System, sub: string, tokenVersion: nat, readAt: nat) {
    && sub in s.users && readAt <= |s.bumps|
    && s.users[sub].tokenVersion == tokenVersion + Count(s.bumps[readAt..], sub)
    && (s.users[sub].deleted ==> Count(s.bumps[readAt..], sub) > 0)
  }

  /** The present row is the one read at `readAt` as the bumps since then have left it. */
  ghost predicate Tracked(s: System, id: string, read: User, readAt: nat) {
    && id in s.users && readAt <= |s.bumps|
    && var now, since := s.users[id], s.bumps[readAt..];
    && now.tokenVersion == read.tokenVersion + Count(since, id)
    && (now.deleted <==> read.deleted || Removed(id) in since)
    && match LastBump(since, id)
       case None => now == read
       case Some(PasswordSet(_)) => now.password.Some?
       case Some(Removed(_)) => now.password.None?
  }

  ghost predicate PendingSound(s: System, p: Pending) {
    match p
    case SigningIn(sub, version, readAt) => Traced(s, sub, version, readAt)
    case ChangingPassword(id, read, readAt) => Tracked(s, id, read, readAt)
    case Deleting(id, read, readAt) => Tracked(s, id, read, readAt) && !read.deleted
  }

  ghost predicate Inv(s: System) {
    && (forall i :: 0 <= i < |s.issued| ==>
          Traced(s, s.issued[i].payload.sub, s.issued[i].payload.tokenVersion, s.issued[i].readAt))
    && forall r :: r in s.pending ==> PendingSound(s, s.pending[r])
  }

  /** The row a bump writes: one version higher, with a password or deleted without one. */
  ghost predicate Raised(s: System, b: Bump, u: User) {
    && b.id in s.users && u.tokenVersion == s.users[b.id].tokenVersion + 1
    && match b
       case PasswordSet(id) => u.password.Some? && u.deleted == s.users[id].deleted
       case Removed(_) => u.password.None? && u.deleted
  }

  lemma RaiseKeepsPending(s: System, b: Bump, u: User, p: Pending)
    requires Raised(s, b, u) && PendingSound(s, p)
    ensures PendingSound(Raise(s, b, u), p)
  {
    hide Count, LastBump, Tracked, Raised;
    match p
    case SigningIn(sub, version, readAt) => RaiseKeepsTraced(s, b, u, sub, version, readAt);
    case ChangingPassword(id, read, readAt) => RaiseKeepsTracked(s, b, u, id, read, readAt);
    case Deleting(id, read, readAt) => RaiseKeepsTracked(s, b, u, id, read, readAt);
  }

  lemma RaiseKeepsTraced(s: System, b: Bump, u: User, sub: string, tokenVersion: nat, readAt: nat)
    requires Raised(s, b, u) && Traced(s, sub, tokenVersion, readAt)
    ensures Traced(Raise(s, b, u), sub, tokenVersion, readAt)
  {
    hide Count, LastBump;
    Since(s.bumps, b, readAt, sub);
  }

  lemma RaiseKeepsTracked(s: System, b: Bump, u: User, id: string, read: User, readAt: nat)
    requires Raised(s, b, u) && Tracked(s, id, read, readAt)
    ensures Tracked(Raise(s, b, u), id, read, readAt)
  {
    hide Count, LastBump;
    Since(s.bumps, b, readAt, id);
  }

  lemma RaiseKeepsInv(s: System, b: Bump, u: User)
    requires Inv(s) && Raised(s, b, u)
    ensures Inv(Raise(s, b, u))
  {
    hide PendingSound, Raised;
    var s' := Raise(s, b, u);
    forall i | 0 <= i < |s.issued|
      ensures Traced(s', s.issued[i].payload.sub, s.issued[i].payload.tokenVersion, s.issued[i].readAt)
    {
      var t := SigningIn(s.issued[i].payload.sub, s.issued[i].payload.tokenVersion, s.issued[i].readAt);
      IssuedIsPending(s, t);
      RaiseKeepsPending(s, b, u, t);
      IssuedIsPending(s', t);
    }
    forall r | r in s.pending ensures PendingSound(s', s.pending[r]) {
      RaiseKeepsPending(s, b, u, s.pending[r]);
    }
  }

  lemma IssuedIsPending(s: System, p: Pending)
    requires p.SigningIn?
    ensures PendingSound(s, p) <==> Traced(s, p.sub, p.tokenVersion, p.readAt)
  {
  }

  /** Steps that raise no version keep what every request remembers. */
  lemma SilentKeepsPending(s: System, s': System)
    requires s'.bumps == s.bumps && forall id :: id in s.users ==> id in s'.users && s'.users[id] == s.users[id]
    ensures forall p :: PendingSound(s, p) ==> PendingSound(s', p)
    ensures forall sub, version, readAt :: Traced(s, sub, version, readAt) ==> Traced(s', sub, version, readAt)
  {
  }

  lemma FreshReadIsSound(s: System, id: string)
    requires id in s.users
    ensures PendingSound(s, ChangingPassword(id, s.users[id], |s.bumps|))
    ensures !s.users[id].deleted ==>
              && PendingSound(s, SigningIn(id, s.users[id].tokenVersion, |s.bumps|))
              && PendingSound(s, Deleting(id, s.users[id], |s.bumps|))
  {
    assert s.bumps[|s.bumps|..] == [];
  }

  lemma StepKeepsInv(s: System, step: Step)
    requires Inv(s) && Possible(s, step)
    ensures Inv(Next(s, step))
  {
    hide Traced, PendingSound;
    match step {
      case WritePassword(r, hash) =>
        var id := s.pending[r].id;
        var u := WithPassword(s.users[id], hash);
        RaiseKeepsInv(s, PasswordSet(id), u);
        SilentKeepsPending(Raise(s, PasswordSet(id), u), Next(s, step));
      case AdminUpdate(id, hash) =>
        if id in s.users && hash.Some? {
          RaiseKeepsInv(s, PasswordSet(id), WithPassword(s.users[id], hash.value));
        }
      case WriteRemove(r, stamp) =>
        var id := s.pending[r].id;
        var u := SoftDeleted(s.users[id], s.pending[r].read.username, stamp);
        RaiseKeepsInv(s, Removed(id), u);
        SilentKeepsPending(Raise(s, Removed(id), u), Next(s, step));
      case IssueToken(r) =>
        SilentKeepsPending(s, Next(s, step));
        IssuedIsPending(s, s.pending[r]);
      case CreateUser(_, _, _) => SilentKeepsPending(s, Next(s, step));
      case _ =>
        SilentKeepsPending(s, Next(s, step));
        if step.id in s.users {
          FreshReadIsSound(s, step.id);
        }
    }
  }

  // ---------- runs ----------

  ghost predicate Behaves(trace: seq<System>, steps: seq<Step>) {
    && |trace| == |steps| + 1
    && trace[0] == System(map[], map[], [], [])
    && forall i :: 0 <= i < |steps| ==> Possible(trace[i], steps[i]) && trace[i + 1] == Next(trace[i], steps[i])
  }

  lemma {:induction false} RunKeepsInv(trace: seq<System>, steps: seq<Step>, n: nat)
    requires Behaves(trace, steps) && n <= |steps|
    ensures Inv(trace[n])
  {
    if n > 0 {
      RunKeepsInv(trace, steps, n - 1);
      StepKeepsInv(trace[n - 1], steps[n - 1]);
    }
  }

  /** Over every run, an issued token is accepted exactly when its user is not deleted and no version bump followed
      the row read it was issued from; and the socket gateway, which does not look at deletion, agrees. */
  lemma TokensAreRevokedExactly(trace: seq<System>, steps: seq<Step>, n: nat, i: nat)
    requires Behaves(trace, steps) && n <= |steps| && i < |trace[n].issued|
    ensures var s, t := trace[n], trace[n].issued[i];
            && t.payload.sub in s.users && t.readAt <= |s.bumps|
            && (Validate(s.users, t.payload).Ok? <==>
                  !s.users[t.payload.sub].deleted && !Bumped(s.bumps[t.readAt..], t.payload.sub))
            && Validate(s.users, t.payload) == (if s.users[t.payload.sub].deleted then Err(UserGone)
                                                else if Bumped(s.bumps[t.readAt..], t.payload.sub) then Err(TokenRevoked)
                                                else Ok(s.users[t.payload.sub]))
            && (SocketAdmits(s.users, t.payload) <==> Validate(s.users, t.payload).Ok?)
  {
    RunKeepsInv(trace, steps, n);
    var s, t := trace[n], trace[n].issued[i];
    assert Traced(s, t.payload.sub, t.payload.tokenVersion, t.readAt);
    CountIsMembership(s.bumps[t.readAt..], t.payload.sub);
  }

  // ---------- where requests and tokens come from ----------

  /** The step read this row of this user and found it fit to sign in. */
  ghost predicate SignsIn(s: System, step: Step, sub: string, tokenVersion: nat, readAt: nat) {
    && step.ReadForSignIn? && step.id == sub && sub in s.users && !s.users[sub].deleted
    && (step.credentials.Local? ==> s.users[sub].password.Some? && step.credentials.passwordsMatch)
    && tokenVersion == s.users[sub].tokenVersion && readAt == |s.bumps|
  }

  /** The step checked this row for a change of password or a deletion. */
  ghost predicate Checks(s: System, step: Step, p: Pending)
    requires !p.SigningIn?
  {
    && p.id in s.users && p.read == s.users[p.id] && p.readAt == |s.bumps|
    && (p.ChangingPassword? ==>
          || (step.ReadForUpdatePassword? && step.id == p.id && step.currentMatches && p.read.password.Some?)
          || (step.ReadForSetPassword? && step.id == p.id && p.read.password.None?))
    && (p.Deleting? ==> step.ReadForRemove? && step.id == p.id && step.actor != p.id && !p.read.deleted)
  }

  ghost predicate SignedIn(trace: seq<System>, steps: seq<Step>, n: nat, sub: string, tokenVersion: nat, readAt: nat)
    requires n <= |steps| < |trace|
  {
    exists i :: 0 <= i < n && SignsIn(trace[i], steps[i], sub, tokenVersion, readAt)
  }

  ghost predicate Checked(trace: seq<System>, steps: seq<Step>, n: nat, p: Pending)
    requires n <= |steps| < |trace|
  {
    if p.SigningIn? then SignedIn(trace, steps, n, p.sub, p.tokenVersion, p.readAt)
    else exists i :: 0 <= i < n && Checks(trace[i], steps[i], p)
  }

  ghost predicate AllChecked(trace: seq<System>, steps: seq<Step>, n: nat)
    requires n <= |steps| < |trace|
  {
    && (forall r :: r in trace[n].pending ==> Checked(trace, steps, n, trace[n].pending[r]))
    && forall i :: 0 <= i < |trace[n].issued| ==>
         var t := trace[n].issued[i]; SignedIn(trace, steps, n, t.payload.sub, t.payload.tokenVersion, t.readAt)
  }

  /** What a step adds to the requests under way and to the tokens. */
  lemma StepAdds(s: System, step: Step)
    requires Possible(s, step)
    ensures var s' := Next(s, step);
            && (forall r :: r in s'.pending && (r !in s.pending || s'.pending[r] != s.pending[r]) ==>
                  var p := s'.pending[r];
                  if p.SigningIn? then SignsIn(s, step, p.sub, p.tokenVersion, p.readAt) else Checks(s, step, p))
            && |s.issued| <= |s'.issued| && (forall i :: 0 <= i < |s.issued| ==> s'.issued[i] == s.issued[i])
            && (forall i :: |s.issued| <= i < |s'.issued| ==>
                  exists r :: r in s.pending && s.pending[r] == SigningIn(s'.issued[i].payload.sub,
                                s'.issued[i].payload.tokenVersion, s'.issued[i].readAt))
  {
    if step.IssueToken? {
      assert s.pending[step.request].SigningIn?;
    }
  }

  lemma CheckedStays(trace: seq<System>, steps: seq<Step>, n: nat, p: Pending)
    requires n < |steps| < |trace| && Checked(trace, steps, n, p)
    ensures Checked(trace, steps, n + 1, p)
  {
  }

  lemma CheckedNow(trace: seq<System>, steps: seq<Step>, n: nat, p: Pending)
    requires n < |steps| < |trace|
    requires if p.SigningIn? then SignsIn(trace[n], steps[n], p.sub, p.tokenVersion, p.readAt)
             else Checks(trace[n], steps[n], p)
    ensures Checked(trace, steps, n + 1, p)
  {
  }

  /** Over every run, every token was issued to a user that an earlier step had found existing, not deleted, and signed
      in through a provider or with a matching password; and every password change or deletion under way was allowed by
      an earlier check of the row it remembers. */
  lemma {:induction false} RequestsAreChecked(trace: seq<System>, steps: seq<Step>, n: nat)
    requires Behaves(trace, steps) && n <= |steps|
    ensures AllChecked(trace, steps, n)
  {
    if n > 0 {
      RequestsAreChecked(trace, steps, n - 1);
      hide Next, Possible, Checked, SignedIn;
      hide Behaves;
      forall r | r in trace[n].pending ensures Checked(trace, steps, n, trace[n].pending[r]) {
        PendingIsChecked(trace, steps, n, r);
      }
      forall i | 0 <= i < |trace[n].issued|
        ensures var t := trace[n].issued[i]; SignedIn(trace, steps, n, t.payload.sub, t.payload.tokenVersion, t.readAt)
      {
        TokenIsChecked(trace, steps, n, i);
      }
    }
  }

  lemma PendingIsChecked(trace: seq<System>, steps: seq<Step>, n: nat, r: nat)
    requires Behaves(trace, steps) && 0 < n <= |steps| && r in trace[n].pending
    requires AllChecked(trace, steps, n - 1)
    ensures Checked(trace, steps, n, trace[n].pending[r])
  {
    hide Next, Possible, SignsIn, Checks, Checked, SignedIn;
    var s, s' := trace[n - 1], trace[n];
    StepAdds(s, steps[n - 1]);
    if r in s.pending && s'.pending[r] == s.pending[r] {
      CheckedStays(trace, steps, n - 1, s.pending[r]);
    } else {
      CheckedNow(trace, steps, n - 1, s'.pending[r]);
    }
  }

  lemma TokenIsChecked(trace: seq<System>, steps: seq<Step>, n: nat, i: nat)
    requires Behaves(trace, steps) && 0 < n <= |steps| && i < |trace[n].issued|
    requires AllChecked(trace, steps, n - 1)
    ensures var t := trace[n].issued[i]; SignedIn(trace, steps, n, t.payload.sub, t.payload.tokenVersion, t.readAt)
  {
    hide Next, Possible, SignsIn, Checks;
    StepAdds(trace[n - 1], steps[n - 1]);
    var t := trace[n].issued[i];
    var p := SigningIn(t.payload.sub, t.payload.tokenVersion, t.readAt);
    assert Checked(trace, steps, n - 1, p);
    CheckedStays(trace, steps, n - 1, p);
  }

  /** A checked row is still the one a password change or a deletion is about to overwrite exactly when no version of
      that user was raised since the check. */
  lemma WriteMeetsItsCheckIff(trace: seq<System>, steps: seq<Step>, n: nat, r: nat)
    requires Behaves(trace, steps) && n <= |steps| && r in trace[n].pending && !trace[n].pending[r].SigningIn?
    ensures var s, p := trace[n], trace[n].pending[r];
            p.id in s.users && p.readAt <= |s.bumps| && (s.users[p.id] == p.read <==> !Bumped(s.bumps[p.readAt..], p.id))
  {
    RunKeepsInv(trace, steps, n);
    var s, p := trace[n], trace[n].pending[r];
    assert PendingSound(s, p);
    CountIsMembership(s.bumps[p.readAt..], p.id);
  }

  /** `setPassword` found no password. Its write replaces none exactly when the user's version was not raised since,
      or last by a deletion; if it was last raised by another password, that one is lost. */
  lemma SetPasswordReplacesNoneIff(trace: seq<System>, steps: seq<Step>, n: nat, r: nat)
    requires Behaves(trace, steps) && n <= |steps| && r in trace[n].pending
    requires trace[n].pending[r].ChangingPassword? && trace[n].pending[r].read.password.None?
    ensures var s, p := trace[n], trace[n].pending[r];
            && p.id in s.users && p.readAt <= |s.bumps|
            && (s.users[p.id].password.None? <==> LastBump(s.bumps[p.readAt..], p.id) != Some(PasswordSet(p.id)))
  {
    RunKeepsInv(trace, steps, n);
    var s, p := trace[n], trace[n].pending[r];
    assert PendingSound(s, p);
    LastBumpIsOwn(s.bumps[p.readAt..], p.id);
  }

  lemma {:induction false} LastBumpIsOwn(bumps: seq<Bump>, id: string)
    ensures LastBump(bumps, id).Some? ==> LastBump(bumps, id).value.id == id
  {
    if |bumps| > 0 {
      LastBumpIsOwn(bumps[..|bumps| - 1], id);
    }
  }

  /** A deletion strikes a user already deleted exactly when another deletion committed since its check. */
  lemma DeletedTwiceIff(trace: seq<System>, steps: seq<Step>, n: nat, r: nat)
    requires Behaves(trace, steps) && n <= |steps| && r in trace[n].pending && trace[n].pending[r].Deleting?
    ensures var s, p := trace[n], trace[n].pending[r];
            p.id in s.users && p.readAt <= |s.bumps| && (s.users[p.id].deleted <==> Removed(p.id) in s.bumps[p.readAt..])
  {
    RunKeepsInv(trace, steps, n);
    assert PendingSound(trace[n], trace[n].pending[r]);
  }

  /** Two requests set a first password at once: both find none, and the second write replaces the first. */
  lemma BothSetPassword() returns (trace: seq<System>, steps: seq<Step>)
    ensures Behaves(trace, steps) && |steps| == 5
    ensures steps[3] == WritePassword(0, "a") && steps[4] == WritePassword(1, "b")
    ensures "u" in trace[4].users && trace[4].users["u"].password == Some("a")
    ensures "u" in trace[5].users && trace[5].users["u"].password == Some("b")
  {
    steps := [CreateUser("u", "ann", None), ReadForSetPassword(0, "u"), ReadForSetPassword(1, "u"),
              WritePassword(0, "a"), WritePassword(1, "b")];
    var s0 := System(map[], map[], [], []);
    var s1 := Next(s0, steps[0]);
    var s2 := Next(s1, steps[1]);
    var s3 := Next(s2, steps[2]);
    var s4 := Next(s3, steps[3]);
    trace := [s0, s1, s2, s3, s4, Next(s4, steps[4])];
  }

  /** Over every run a user's version is one more than the number of times it was raised. */
  lemma {:induction false} VersionsCountBumps(trace: seq<System>, steps: seq<Step>, n: nat, id: string)
    requires Behaves(trace, steps) && n <= |steps|
    ensures if id in trace[n].users then trace[n].users[id].tokenVersion == 1 + Count(trace[n].bumps, id)
            else Count(trace[n].bumps, id) == 0
  {
    if n > 0 {
      VersionsCountBumps(trace, steps, n - 1, id);
      StepCountsBumps(trace[n - 1], steps[n - 1], id);
    }
  }

  lemma StepCountsBumps(s: System, step: Step, id: string)
    requires Possible(s, step)
    requires if id in s.users then s.users[id].tokenVersion == 1 + Count(s.bumps, id) else Count(s.bumps, id) == 0
    ensures var s' := Next(s, step);
            if id in s'.users then s'.users[id].tokenVersion == 1 + Count(s'.bumps, id) else Count(s'.bumps, id) == 0
  {
    var s' := Next(s, step);
    if s'.bumps != s.bumps {
      assert s'.bumps[..|s.bumps|] == s.bumps;
    }
  }

  /** Users stay, versions never decrease, and deletion is final. */
  lemma {:induction false} RunIsMonotone(trace: seq<System>, steps: seq<Step>, m: nat, n: nat, id: string)
    requires Behaves(trace, steps) && m <= n <= |steps| && id in trace[m].users
    ensures id in trace[n].users
    ensures trace[m].users[id].tokenVersion <= trace[n].users[id].tokenVersion
    ensures trace[m].users[id].deleted ==> trace[n].users[id].deleted
    decreases n
  {
    if m < n {
      RunIsMonotone(trace, steps, m, n - 1, id);
      var s, step := trace[n - 1], steps[n - 1];
      assert trace[n] == Next(s, step);
    }
  }

  /** A deleted user is never again let in: every token of theirs is refused everywhere, whenever it was issued, and
      every later sign-in stops at the read. */
  lemma DeletedUserStaysOut(trace: seq<System>, steps: seq<Step>, m: nat, n: nat, id: string)
    requires Behaves(trace, steps) && m <= n <= |steps|
    requires id in trace[m].users && trace[m].users[id].deleted
    ensures forall i :: 0 <= i < |trace[n].issued| && trace[n].issued[i].payload.sub == id ==>
              Validate(trace[n].users, trace[n].issued[i].payload) == Err(UserGone)
              && !SocketAdmits(trace[n].users, trace[n].issued[i].payload)
    ensures n < |steps| && steps[n].ReadForSignIn? && steps[n].id == id ==> trace[n + 1] == trace[n]
  {
    RunIsMonotone(trace, steps, m, n, id);
    forall i | 0 <= i < |trace[n].issued| && trace[n].issued[i].payload.sub == id
      ensures !SocketAdmits(trace[n].users, trace[n].issued[i].payload)
    {
      TokensAreRevokedExactly(trace, steps, n, i);
    }
  }
}
