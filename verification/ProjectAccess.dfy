/** Who may see and own a project, and replacing a project's access list in one transaction. */
module ProjectAccess {
  import opened Wrappers
  import opened Sequences

  datatype AccessType = Owner | Viewer

  /** The access rows of one project; a user or team has at most one (`@@id([userId, projectId])`). */
  type Grants = map<string, AccessType>

  datatype Project = Project(
    updatedAt: nat, updatedById: string, userAccesses: Grants, teamAccesses: Grants, deniedUsers: set<string>)

  /** The signed-in user, with the teams the token strategy loaded. */
  datatype Caller = Caller(id: string, admin: bool, teams: seq<string>)

  /** The submitted lists; an absent list is an empty one. */
  datatype Acl = Acl(ownerUsers: seq<string>, ownerTeams: seq<string>, viewerUsers: seq<string>, viewerTeams: seq<string>,
                     deniedUsers: seq<string>)

  datatype AccessError = Forbidden | ProjectNotFound | ConcurrencyError | DatabaseError

  // ---------- queries ----------

  predicate HasTeam(grants: Grants, teams: seq<string>, types: set<AccessType>) {
    exists i :: 0 <= i < |teams| && teams[i] in grants && grants[teams[i]] in types
  }

  predicate CanOwnProject(projects: map<string, Project>, c: Caller, projectId: string) {
    c.admin || (projectId in projects
                && ((c.id in projects[projectId].userAccesses && projects[projectId].userAccesses[c.id] == Owner)
                    || HasTeam(projects[projectId].teamAccesses, c.teams, {Owner})))
  }

  predicate CanViewProject(projects: map<string, Project>, c: Caller, projectId: string) {
    c.admin || (projectId in projects && c.id !in projects[projectId].deniedUsers
                && (c.id in projects[projectId].userAccesses
                    || HasTeam(projects[projectId].teamAccesses, c.teams, {Owner, Viewer})))
  }

  /** `_createAccessControlWhereClause`: the filter every project listing and read uses. */
  predicate WhereClause(p: Project, c: Caller) {
    c.admin || (c.id !in p.deniedUsers
                && (c.id in p.userAccesses || exists t :: t in p.teamAccesses && t in c.teams))
  }

  /** The filter of the listings and the guard on single projects let the same projects through. */
  lemma ListingAgreesWithGuard(projects: map<string, Project>, c: Caller, projectId: string)
    requires projectId in projects
    ensures WhereClause(projects[projectId], c) <==> CanViewProject(projects, c, projectId)
  {
    var p := projects[projectId];
    if t :| t in p.teamAccesses && t in c.teams {
      var i :| 0 <= i < |c.teams| && c.teams[i] == t;
      assert p.teamAccesses[t] == Owner || p.teamAccesses[t] == Viewer;
    }
    if i :| 0 <= i < |c.teams| && c.teams[i] in p.teamAccesses && p.teamAccesses[c.teams[i]] in {Owner, Viewer} {
      assert c.teams[i] in c.teams;
    }
  }

  /** Who owns and who sees a project, in terms of the lists its detail shows: an owner by oneself or through a team;
      an owner or a viewer, by oneself or through a team, and not denied. */
  lemma AccessMeaning(projects: map<string, Project>, c: Caller, projectId: string)
    requires projectId in projects && !c.admin
    ensures var a := AccessOf(projects[projectId]);
            && (CanOwnProject(projects, c, projectId) <==>
                  c.id in a.ownerUsers || exists i :: 0 <= i < |c.teams| && c.teams[i] in a.ownerTeams)
            && (CanViewProject(projects, c, projectId) <==>
                  c.id !in a.deniedUsers
                  && (c.id in a.ownerUsers + a.viewerUsers
                      || exists i :: 0 <= i < |c.teams| && c.teams[i] in a.ownerTeams + a.viewerTeams))
  {
    var p := projects[projectId];
    var a := AccessOf(p);
    forall id ensures id in p.userAccesses <==> id in a.ownerUsers + a.viewerUsers
              ensures id in p.teamAccesses <==> id in a.ownerTeams + a.viewerTeams
    {
    }
    if HasTeam(p.teamAccesses, c.teams, {Owner}) {
      var i :| 0 <= i < |c.teams| && c.teams[i] in p.teamAccesses && p.teamAccesses[c.teams[i]] in {Owner};
      assert c.teams[i] in a.ownerTeams;
    }
    if HasTeam(p.teamAccesses, c.teams, {Owner, Viewer}) {
      var i :| 0 <= i < |c.teams| && c.teams[i] in p.teamAccesses && p.teamAccesses[c.teams[i]] in {Owner, Viewer};
      assert c.teams[i] in a.ownerTeams + a.viewerTeams;
    }
    if i :| 0 <= i < |c.teams| && c.teams[i] in a.ownerTeams {
      assert p.teamAccesses[c.teams[i]] in {Owner};
    }
    if i :| 0 <= i < |c.teams| && c.teams[i] in a.ownerTeams + a.viewerTeams {
      assert c.teams[i] in p.teamAccesses && p.teamAccesses[c.teams[i]] in {Owner, Viewer};
    }
  }

  /** Admins own and see every project; nobody else owns or sees one that does not exist. */
  lemma AccessToMissing(projects: map<string, Project>, c: Caller, projectId: string)
    requires projectId !in projects
    ensures CanOwnProject(projects, c, projectId) == CanViewProject(projects, c, projectId) == c.admin
  {
  }

  /** Owning a project lets one see it unless one is denied; a denied owner still owns. */
  lemma OwnersSeeUnlessDenied(projects: map<string, Project>, c: Caller, projectId: string)
    requires !c.admin && CanOwnProject(projects, c, projectId)
    ensures CanViewProject(projects, c, projectId) <==> c.id !in projects[projectId].deniedUsers
  {
  }

  // ---------- bulk inserts ----------

  /** `createMany`: fails on an unknown id and on an id that already has a row. */
  function CreateAccess(grants: Grants, ids: seq<string>, known: set<string>, access: AccessType): Option<Grants>
    decreases |ids|
  {
    if |ids| == 0 then Some(grants)
    else if ids[0] !in known || ids[0] in grants then None
    else CreateAccess(grants[ids[0] := access], ids[1..], known, access)
  }

  lemma GrantOneMore(grants: Grants, first: string, rest: seq<string>, access: AccessType)
    ensures grants[first := access] + (map id | id in rest :: access) == grants + map id | id in [first] + rest :: access
  {
  }

  lemma {:induction false} CreateAccessMeaning(grants: Grants, ids: seq<string>, known: set<string>, access: AccessType)
    ensures CreateAccess(grants, ids, known, access).Some? <==>
            NoDuplicates(ids) && (forall id :: id in ids ==> id in known && id !in grants)
    ensures CreateAccess(grants, ids, known, access).Some? ==>
            CreateAccess(grants, ids, known, access).value == grants + map id | id in ids :: access
    decreases |ids|
  {
    if |ids| > 0 {
      hide NoDuplicates;
      var first, rest := ids[0], ids[1..];
      NoDuplicatesCons(ids);
      assert ids == [first] + rest;
      CreateAccessMeaning(grants[first := access], rest, known, access);
      GrantOneMore(grants, first, rest, access);
    }
  }

  /** Owners first, then viewers, into an emptied table. */
  function Replace(owners: seq<string>, viewers: seq<string>, known: set<string>): Option<Grants> {
    var o := CreateAccess(map[], owners, known, Owner);
    if o.None? then None else CreateAccess(o.value, viewers, known, Viewer)
  }

  function Holders(grants: Grants, access: AccessType): set<string> {
    set id | id in grants && grants[id] == access
  }

  function Elements(s: seq<string>): set<string> {
    set x | x in s
  }

  /** Replacing succeeds exactly when all ids are known and none is listed twice across both lists, and then reads
      back as submitted. */
  lemma ReplaceMeaning(owners: seq<string>, viewers: seq<string>, known: set<string>)
    ensures Replace(owners, viewers, known).Some? <==> NoDuplicates(owners + viewers) && Elements(owners + viewers) <= known
    ensures Replace(owners, viewers, known).Some? ==>
            var g := Replace(owners, viewers, known).value;
            Holders(g, Owner) == Elements(owners) && Holders(g, Viewer) == Elements(viewers)
  {
    CreateAccessMeaning(map[], owners, known, Owner);
    NoDuplicatesConcat(owners, viewers);
    var o := CreateAccess(map[], owners, known, Owner);
    if o.Some? {
      CreateAccessMeaning(o.value, viewers, known, Viewer);
    }
  }

  // ---------- updateAccess ----------

  /** The caller is still an owner under the submitted lists. */
  predicate StillOwner(c: Caller, acl: Acl) {
    c.id in acl.ownerUsers || exists i :: 0 <= i < |acl.ownerTeams| && acl.ownerTeams[i] in c.teams
  }

  /** The submitted lists fit the database: known ids, nobody listed twice across owners and viewers. */
  predicate Consistent(acl: Acl, users: set<string>, teams: set<string>) {
    && NoDuplicates(acl.ownerUsers + acl.viewerUsers) && Elements(acl.ownerUsers + acl.viewerUsers) <= users
    && NoDuplicates(acl.ownerTeams + acl.viewerTeams) && Elements(acl.ownerTeams + acl.viewerTeams) <= teams
    && Elements(acl.deniedUsers) <= users
  }

  /** What a project detail shows of its access list. */
  datatype Access = Access(ownerUsers: set<string>, viewerUsers: set<string>, ownerTeams: set<string>,
                           viewerTeams: set<string>, deniedUsers: set<string>)

  function AccessOf(p: Project): Access {
    Access(Holders(p.userAccesses, Owner), Holders(p.userAccesses, Viewer),
           Holders(p.teamAccesses, Owner), Holders(p.teamAccesses, Viewer), p.deniedUsers)
  }

  class AccessService {
    var projects: map<string, Project>
    var users: set<string>
    var teams: set<string>

    constructor ()
      ensures projects == map[] && users == {} && teams == {}
    {
      projects, users, teams := map[], {}, {};
    }

    /** Succeeds exactly when the caller keeps ownership or is an admin, the project has the quoted version and the
        lists are consistent; then the lists read back as submitted and the caller can still own the project.
        Otherwise nothing has changed. */
    method UpdateAccess(projectId: string, acl: Acl, lastKnownUpdatedAt: nat, caller: Caller, now: nat)
      returns (r: Result<Access, AccessError>)
      modifies this`projects
      ensures r.Ok? <==> (caller.admin || StillOwner(caller, acl))
                         && projectId in old(projects) && old(projects)[projectId].updatedAt == lastKnownUpdatedAt
                         && Consistent(acl, users, teams)
      ensures r.Ok? ==>
                && projects.Keys == old(projects).Keys
                && (forall p :: p in projects && p != projectId ==> projects[p] == old(projects)[p])
                && r.value == AccessOf(projects[projectId])
                && r.value == Access(Elements(acl.ownerUsers), Elements(acl.viewerUsers), Elements(acl.ownerTeams),
                                     Elements(acl.viewerTeams), Elements(acl.deniedUsers))
                && projects[projectId].updatedAt == now && projects[projectId].updatedById == caller.id
                && CanOwnProject(projects, caller, projectId)
      ensures r.Err? ==>
                && projects == old(projects)
                && r.error == if !caller.admin && !StillOwner(caller, acl) then Forbidden
                              else if projectId !in projects then ProjectNotFound
                              else if projects[projectId].updatedAt != lastKnownUpdatedAt then ConcurrencyError
                              else DatabaseError
    {
      var stillOwner := caller.id in acl.ownerUsers
                        || exists i :: 0 <= i < |acl.ownerTeams| && acl.ownerTeams[i] in caller.teams;
      if !caller.admin && !stillOwner {
        return Err(Forbidden);
      }
      if projectId !in projects {
        return Err(ProjectNotFound);
      }
      if projects[projectId].updatedAt != lastKnownUpdatedAt {
        return Err(ConcurrencyError);
      }
      ReplaceMeaning(acl.ownerUsers, acl.viewerUsers, users);
      ReplaceMeaning(acl.ownerTeams, acl.viewerTeams, teams);
      var userAccesses := Replace(acl.ownerUsers, acl.viewerUsers, users);
      var teamAccesses := Replace(acl.ownerTeams, acl.viewerTeams, teams);
      if userAccesses.None? || teamAccesses.None?
         || exists i :: 0 <= i < |acl.deniedUsers| && acl.deniedUsers[i] !in users {
        assert !Consistent(acl, users, teams);
        return Err(DatabaseError);
      }
      var denied := set x | x in acl.deniedUsers;
      var p := Project(now, caller.id, userAccesses.value, teamAccesses.value, denied);
      projects := projects[projectId := p];
      CallerStillOwns(p, caller, acl);
      return Ok(AccessOf(p));
    }
  }

  /** The guard against giving up ownership is exact: it lets through those who would own the project under the
      submitted lists, and nobody else. */
  lemma GuardIsExact(projects: map<string, Project>, projectId: string, c: Caller, acl: Acl)
    requires projectId in projects && !c.admin
    requires AccessOf(projects[projectId]).ownerUsers == Elements(acl.ownerUsers)
    requires AccessOf(projects[projectId]).ownerTeams == Elements(acl.ownerTeams)
    ensures StillOwner(c, acl) <==> CanOwnProject(projects, c, projectId)
  {
    AccessMeaning(projects, c, projectId);
    if i :| 0 <= i < |c.teams| && c.teams[i] in Elements(acl.ownerTeams) {
      var j :| 0 <= j < |acl.ownerTeams| && acl.ownerTeams[j] == c.teams[i];
    }
    if i :| 0 <= i < |acl.ownerTeams| && acl.ownerTeams[i] in c.teams {
      var j :| 0 <= j < |c.teams| && c.teams[j] == acl.ownerTeams[i];
      assert c.teams[j] in Elements(acl.ownerTeams);
    }
  }

  lemma CallerStillOwns(p: Project, c: Caller, acl: Acl)
    requires Holders(p.userAccesses, Owner) == Elements(acl.ownerUsers)
    requires Holders(p.teamAccesses, Owner) == Elements(acl.ownerTeams)
    requires c.admin || StillOwner(c, acl)
    ensures c.admin || (c.id in p.userAccesses && p.userAccesses[c.id] == Owner)
            || HasTeam(p.teamAccesses, c.teams, {Owner})
  {
    if c.id in acl.ownerUsers {
      assert c.id in Elements(acl.ownerUsers);
    } else if i :| 0 <= i < |acl.ownerTeams| && acl.ownerTeams[i] in c.teams {
      var t := acl.ownerTeams[i];
      assert t in Elements(acl.ownerTeams);
      var j :| 0 <= j < |c.teams| && c.teams[j] == t;
      assert p.teamAccesses[c.teams[j]] in {Owner};
    }
  }
}
