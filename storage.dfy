/** The browser-side store that stands in for a backend: three storage slots (the user list,
    the project catalog, the current-user snapshot) and the operations of `auth` and
    `projects` that read, change and write them back. */
module Storage {
  import opened Wrappers
  import opened Lists
  import opened Records
  import opened Seed

  /** The `{ success, error? }` object that signup and login return. */
  datatype AuthResult = Success | Failure(error: string)

  const EmailExists: string := "Email already exists"
  const InvalidCredentials: string := "Invalid credentials"

  /** The user record that signup creates: a volunteer with empty profile and no projects. */
  function NewUser(id: string, email: string, name: string): (u: User)
    ensures u.id == id && u.email == email && u.name == name
    ensures u.role == Volunteer && u.bio == ""
    ensures u.skills == [] && u.interests == [] && u.joinedProjects == []
  {
    User(id, email, name, Volunteer, [], [], "", [])
  }

  /** The search predicates the store hands to `find`, `findIndex` and `filter`. */
  function EmailIs(email: string): User -> bool {
    (u: User) => u.email == email
  }

  function UserIdIs(id: string): User -> bool {
    (u: User) => u.id == id
  }

  function ProjectIdIs(id: string): Project -> bool {
    (p: Project) => p.id == id
  }

  /** `allProjects.filter(p => p.id !== id)`: the catalog without any project that has `id`. */
  function WithoutProject(ps: seq<Project>, id: string): (r: seq<Project>)
    ensures forall p :: p in r ==> p.id != id
    ensures forall p :: p in ps && p.id != id ==> p in r
    ensures SubsequenceOf(r, ps)
    ensures (forall p :: p in ps ==> p.id != id) ==> r == ps
    ensures forall q :: multiset(r)[q] == if q.id != id then multiset(ps)[q] else 0
  {
    Filter(ps, (p: Project) => p.id != id)
  }

  /** Whether applying to `pid` goes ahead: someone is signed in, the project exists, it has a
      free place, and the user has not joined it yet. */
  predicate CanApply(session: Option<User>, catalog: seq<Project>, pid: string): (r: bool)
    ensures r ==> session.Some? && pid !in session.value.joinedProjects
    ensures r ==> exists p :: p in catalog && p.id == pid && p.volunteers < p.maxVolunteers
    ensures session.None? || (forall p :: p in catalog ==> p.id != pid) ==> !r
  {
    && session.Some?
    && var p := Find(catalog, ProjectIdIs(pid));
       && p.Some?
       && p.value.volunteers < p.value.maxVolunteers
       && pid !in session.value.joinedProjects
  }

  /** No two users share an email address. */
  predicate DistinctEmails(us: seq<User>) {
    forall i, j :: 0 <= i < j < |us| ==> us[i].email != us[j].email
  }

  /** No two users share an identifier. */
  predicate DistinctIds(us: seq<User>) {
    forall i, j :: 0 <= i < j < |us| ==> us[i].id != us[j].id
  }

  /** A user update that leaves the account keys alone and keeps the joined list duplicate-free:
      the updates the pages send (profile fields, an extended `joinedProjects`). */
  predicate KeepsAccountKeys(patch: UserPatch) {
    && patch.id.None?
    && patch.email.None?
    && (patch.joinedProjects.Some? ==> NoDuplicates(patch.joinedProjects.value))
  }

  /** Every project of the catalog respects its capacity. */
  predicate AllWithinCapacity(ps: seq<Project>) {
    forall p :: p in ps ==> WithinCapacity(p)
  }

  /** The catalog `projects.update` leaves: the first project with `id` merged with `patch`, or
      the catalog as it was when no project has `id`. */
  function UpdatedCatalog(ps: seq<Project>, id: string, patch: ProjectPatch): (r: seq<Project>)
    ensures |r| == |ps|
  {
    var i := FindIndex(ps, ProjectIdIs(id));
    if i == -1 then ps else ps[i := MergeProject(ps[i], patch)]
  }

  /** The user list `auth.updateUser` leaves: the first user with `id` replaced by `u`, or the
      list as it was when no user has `id`. */
  function UpdatedUsers(us: seq<User>, id: string, u: User): (r: seq<User>)
    ensures |r| == |us|
  {
    var i := FindIndex(us, UserIdIs(id));
    if i == -1 then us else us[i := u]
  }

  /** `projects.update` touches the first project with `id` and no other position: an unknown
      identifier leaves the catalog as it was, and a patch that keeps the identifier makes
      `getById` return the merged project. */
  lemma {:induction false} UpdateTouchesFirstMatchOnly(ps: seq<Project>, id: string, patch: ProjectPatch)
    ensures var r := UpdatedCatalog(ps, id, patch);
            && |r| == |ps|
            && ((forall q :: q in ps ==> q.id != id) ==> r == ps)
            && (forall k :: 0 <= k < |ps| && k != FindIndex(ps, ProjectIdIs(id)) ==> r[k] == ps[k])
            && (Find(ps, ProjectIdIs(id)).Some? && patch.id.None? ==>
                  Find(r, ProjectIdIs(id)) == Some(MergeProject(Find(ps, ProjectIdIs(id)).value, patch)))
  {
    var r := UpdatedCatalog(ps, id, patch);
    var i := FindIndex(ps, ProjectIdIs(id));
    if i == -1 {
      assert forall q :: q in ps ==> q.id != id;
    } else {
      assert ps[i] in ps;
      if patch.id.None? {
        var j := FindIndex(r, ProjectIdIs(id));
        assert ProjectIdIs(id)(r[i]);
        assert j == i;
      }
    }
  }

  /** `auth.updateUser` writes over the first user with the session's identifier and no other
      position; with no such user the list is left as it was. */
  lemma {:induction false} UpdateUserTouchesFirstMatchOnly(us: seq<User>, id: string, u: User)
    ensures var r := UpdatedUsers(us, id, u);
            && |r| == |us|
            && ((forall v :: v in us ==> v.id != id) ==> r == us)
            && (forall k :: 0 <= k < |us| && k != FindIndex(us, UserIdIs(id)) ==> r[k] == us[k])
            && ((exists v :: v in us && v.id == id) ==> u in r)
  {
    var i := FindIndex(us, UserIdIs(id));
    if i == -1 {
      assert forall v :: v in us ==> v.id != id;
    } else {
      assert us[i] in us;
      assert UpdatedUsers(us, id, u)[i] == u;
    }
  }

  /** The update sent when someone applies to a project with a free place gives that project
      exactly one more volunteer, leaves every project with another identifier alone, and keeps
      a catalog within capacity. */
  lemma {:induction false} OneMoreVolunteer(ps: seq<Project>, pid: string)
    requires Find(ps, ProjectIdIs(pid)).Some?
    requires Find(ps, ProjectIdIs(pid)).value.volunteers < Find(ps, ProjectIdIs(pid)).value.maxVolunteers
    ensures var p := Find(ps, ProjectIdIs(pid)).value;
            var r := UpdatedCatalog(ps, pid, VolunteersPatch(p.volunteers + 1));
            && |r| == |ps|
            && Find(r, ProjectIdIs(pid)) == Some(p.(volunteers := p.volunteers + 1))
            && (forall k :: 0 <= k < |ps| && ps[k].id != pid ==> r[k] == ps[k])
            && (AllWithinCapacity(ps) ==> AllWithinCapacity(r))
  {
    var p := Find(ps, ProjectIdIs(pid)).value;
    var i := FindIndex(ps, ProjectIdIs(pid));
    MergeVolunteers(p, p.volunteers + 1);
    var r := UpdatedCatalog(ps, pid, VolunteersPatch(p.volunteers + 1));
    assert r == ps[i := p.(volunteers := p.volunteers + 1)];
    var j := FindIndex(r, ProjectIdIs(pid));
    assert ProjectIdIs(pid)(r[i]);
    assert j == i;
    if AllWithinCapacity(ps) {
      forall q | q in r
        ensures WithinCapacity(q)
      {
        var k :| 0 <= k < |r| && r[k] == q;
        assert ps[k] in ps;
      }
    }
  }

  /** The account invariant on the two user slots: emails and identifiers are unique, no user
      lists a project twice, and the session snapshot is one of the stored users. */
  ghost predicate Consistent(us: seq<User>, session: Option<User>) {
    && DistinctEmails(us)
    && DistinctIds(us)
    && (forall u :: u in us ==> NoDuplicates(u.joinedProjects))
    && (session.Some? ==> session.value in us)
  }

  /** Writing a key-preserving update of the session user back over its stored record keeps the
      account invariant. */
  lemma {:induction false} ReplaceSessionUser(us: seq<User>, s: User, patch: UserPatch)
    requires Consistent(us, Some(s)) && KeepsAccountKeys(patch)
    ensures Consistent(UpdatedUsers(us, s.id, MergeUser(s, patch)), Some(MergeUser(s, patch)))
  {
    var k := FindIndex(us, UserIdIs(s.id));
    var j :| 0 <= j < |us| && us[j] == s;
    assert UserIdIs(s.id)(us[j]);
    assert k == j;
    var updated := us[k := MergeUser(s, patch)];
    assert forall i :: 0 <= i < |us| ==> updated[i].id == us[i].id && updated[i].email == us[i].email;
    forall u | u in updated
      ensures NoDuplicates(u.joinedProjects)
    {
      var i :| 0 <= i < |updated| && updated[i] == u;
      assert us[i] in us;
    }
  }

  /** Appending an element that is not there yet keeps a list duplicate-free. */
  lemma AppendFreshKeepsNoDuplicates<T>(s: seq<T>, x: T)
    requires x !in s
    ensures NoDuplicates(s) ==> NoDuplicates(s + [x])
  {
  }

  /** After a signup with an unused email, logging in with that email finds the new user. */
  lemma SignedUpUserLogsIn(us: seq<User>, id: string, email: string, name: string)
    requires forall u :: u in us ==> u.email != email
    ensures Find(us + [NewUser(id, email, name)], EmailIs(email)) == Some(NewUser(id, email, name))
  {
    assert forall i :: 0 <= i < |us| ==> us[i] in us;
    FindAppended(us, NewUser(id, email, name), EmailIs(email));
  }

  /** A project created under an unused identifier is what `getById` then returns. */
  lemma CreatedProjectFound(ps: seq<Project>, draft: ProjectDraft, id: string)
    requires forall q :: q in ps ==> q.id != id
    ensures Find(ps + [WithId(draft, id)], ProjectIdIs(id)) == Some(WithId(draft, id))
  {
    assert forall i :: 0 <= i < |ps| ==> ps[i] in ps;
    FindAppended(ps, WithId(draft, id), ProjectIdIs(id));
  }

  /** After `delete`, `getById` no longer finds the identifier. */
  lemma DeletedProjectGone(ps: seq<Project>, id: string)
    ensures Find(WithoutProject(ps, id), ProjectIdIs(id)) == None
  {
    var r := WithoutProject(ps, id);
    assert forall i :: 0 <= i < |r| ==> r[i] in r;
  }

  class Store {
    /** `volunteer_link_users`; an absent slot reads as the empty list. */
    var users: seq<User>
    /** `volunteer_link_projects`; `None` until the catalog is first read or written. */
    var projects: Option<seq<Project>>
    /** `volunteer_link_current_user`; `None` when nobody is signed in. */
    var currentUser: Option<User>

    /** A store over whatever the three slots hold when the page loads. */
    constructor (storedUsers: seq<User>, storedProjects: Option<seq<Project>>, storedSession: Option<User>)
      ensures users == storedUsers && projects == storedProjects && currentUser == storedSession
    {
      users, projects, currentUser := storedUsers, storedProjects, storedSession;
    }

    /** What a read of the catalog yields: the stored list, or the seed when none is stored. */
    function Catalog(): seq<Project>
      reads this
    {
      projects.GetOr(SeedProjects())
    }

    /** The account invariant: emails and identifiers are unique, no user lists a project twice,
        and the session snapshot is one of the stored users. */
    ghost predicate AccountsConsistent()
      reads this
    {
      Consistent(users, currentUser)
    }

    /** `initializeStorage`: seed the catalog only when its slot is absent. */
    method InitializeStorage()
      modifies this`projects
      ensures old(projects).None? ==> projects == Some(SeedProjects())
      ensures old(projects).Some? ==> projects == old(projects)
    {
      if projects.None? {
        projects := Some(SeedProjects());
      }
    }

    /** `auth.signup` (the password is accepted and ignored). */
    method Signup(email: string, name: string, freshId: string) returns (r: AuthResult)
      modifies this`users, this`currentUser
      ensures r.Failure? <==> exists u :: u in old(users) && u.email == email
      ensures r.Failure? ==> r.error == EmailExists
      ensures r.Failure? ==> users == old(users) && currentUser == old(currentUser)
      ensures r.Success? ==> users == old(users) + [NewUser(freshId, email, name)]
      ensures r.Success? ==> currentUser == Some(NewUser(freshId, email, name))
      ensures DistinctEmails(old(users)) ==> DistinctEmails(users)
      ensures old(AccountsConsistent()) && (forall u :: u in old(users) ==> u.id != freshId) ==>
                AccountsConsistent()
    {
      if Find(users, EmailIs(email)).Some? {
        return Failure(EmailExists);
      }
      var newUser := NewUser(freshId, email, name);
      users := users + [newUser];
      currentUser := Some(newUser);
      return Success;
    }

    /** `auth.login` (the password is accepted and ignored): the session becomes the first user
        with the email; the user list is never written. */
    method Login(email: string) returns (r: AuthResult)
      modifies this`currentUser
      ensures r.Failure? <==> forall u :: u in users ==> u.email != email
      ensures r.Failure? ==> r.error == InvalidCredentials && currentUser == old(currentUser)
      ensures r.Success? ==> currentUser == Some(users[FindIndex(users, EmailIs(email))])
      ensures r.Success? ==> currentUser.value.email == email
      ensures old(AccountsConsistent()) ==> AccountsConsistent()
    {
      var user := Find(users, EmailIs(email));
      if user.None? {
        return Failure(InvalidCredentials);
      }
      currentUser := user;
      return Success;
    }

    /** `auth.logout`: the session slot is removed. */
    method Logout()
      modifies this`currentUser
      ensures currentUser == None
    {
      currentUser := None;
    }

    /** `auth.getCurrentUser`: the session snapshot, read without changing anything. */
    method GetCurrentUser() returns (u: Option<User>)
      ensures u == currentUser
    {
      u := currentUser;
    }

    /** `auth.updateUser`: merge `patch` into the session snapshot, store the result as the
        session and in place of the first stored user with the session's identifier. */
    method UpdateUser(patch: UserPatch)
      modifies this`users, this`currentUser
      ensures old(currentUser).None? ==> currentUser == None && users == old(users)
      ensures old(currentUser).Some? ==>
                currentUser == Some(MergeUser(old(currentUser).value, patch))
      ensures old(currentUser).Some? ==>
                users == UpdatedUsers(old(users), old(currentUser).value.id, currentUser.value)
      ensures old(AccountsConsistent()) && KeepsAccountKeys(patch) ==> AccountsConsistent()
    {
      var session := GetCurrentUser();
      if session.None? {
        return;
      }
      var updated := MergeUser(session.value, patch);
      currentUser := Some(updated);
      var index := FindIndex(users, UserIdIs(session.value.id));
      if index != -1 {
        users := users[index := updated];
      }
      if old(AccountsConsistent()) && KeepsAccountKeys(patch) {
        ReplaceSessionUser(old(users), session.value, patch);
      }
    }

    /** `projects.getAll`: seed if needed, then read the catalog. */
    method GetAll() returns (ps: seq<Project>)
      modifies this`projects
      ensures ps == old(Catalog())
      ensures projects == Some(ps)
    {
      InitializeStorage();
      ps := projects.value;
    }

    /** `projects.getById`: the first project with the identifier, after seeding. */
    method GetById(id: string) returns (p: Option<Project>)
      modifies this`projects
      ensures projects == Some(old(Catalog()))
      ensures p == Find(old(Catalog()), ProjectIdIs(id))
    {
      var all := GetAll();
      p := Find(all, ProjectIdIs(id));
    }

    /** `projects.create`: append the draft under a fresh identifier. */
    method Create(draft: ProjectDraft, freshId: string) returns (p: Project)
      modifies this`projects
      ensures p.id == freshId && Draft(p) == draft
      ensures projects == Some(old(Catalog()) + [p])
    {
      var all := GetAll();
      p := WithId(draft, freshId);
      projects := Some(all + [p]);
    }

    /** `projects.update`: merge `patch` into the first project with the identifier, if any. */
    method Update(id: string, patch: ProjectPatch)
      modifies this`projects
      ensures projects == Some(UpdatedCatalog(old(Catalog()), id, patch))
    {
      var all := GetAll();
      var index := FindIndex(all, ProjectIdIs(id));
      if index != -1 {
        projects := Some(all[index := MergeProject(all[index], patch)]);
      }
    }

    /** `projects.delete`: drop every project with the identifier. */
    method Delete(id: string)
      modifies this`projects
      ensures projects == Some(WithoutProject(old(Catalog()), id))
    {
      var all := GetAll();
      projects := Some(WithoutProject(all, id));
    }

    /** The two writes `applyToProject` makes once its checks have passed: one more volunteer on
        the project, then the project appended to the session user's joined list. */
    method Enrol(pid: string, session: User, project: Project)
      requires currentUser == Some(session) && projects.Some?
      requires Find(projects.value, ProjectIdIs(pid)) == Some(project)
      requires project.volunteers < project.maxVolunteers && pid !in session.joinedProjects
      modifies this`projects, this`users, this`currentUser
      ensures projects == Some(UpdatedCatalog(old(Catalog()), pid, VolunteersPatch(project.volunteers + 1)))
      ensures currentUser == Some(session.(joinedProjects := session.joinedProjects + [pid]))
      ensures users == UpdatedUsers(old(users), session.id, currentUser.value)
      ensures old(AccountsConsistent()) ==> AccountsConsistent()
      ensures AllWithinCapacity(old(Catalog())) ==> AllWithinCapacity(Catalog())
    {
      OneMoreVolunteer(projects.value, pid);
      Update(pid, VolunteersPatch(project.volunteers + 1));
      var joined := session.joinedProjects + [pid];
      AppendFreshKeepsNoDuplicates(session.joinedProjects, pid);
      UpdateUser(JoinedProjectsPatch(joined));
      MergeJoinedProjects(session, joined);
    }

    /** `projects.applyToProject`: the one step that touches both a project and a user. */
    method ApplyToProject(pid: string) returns (ok: bool)
      modifies this
      ensures ok == CanApply(old(currentUser), old(Catalog()), pid)
      ensures !ok ==> users == old(users) && currentUser == old(currentUser)
      ensures !ok && old(currentUser).None? ==> projects == old(projects)
      ensures !ok && old(currentUser).Some? ==> projects == Some(old(Catalog()))
      ensures ok ==>
                var p := Find(old(Catalog()), ProjectIdIs(pid)).value;
                projects == Some(UpdatedCatalog(old(Catalog()), pid, VolunteersPatch(p.volunteers + 1)))
      ensures ok ==>
                var s := old(currentUser).value;
                && currentUser == Some(s.(joinedProjects := s.joinedProjects + [pid]))
                && users == UpdatedUsers(old(users), s.id, currentUser.value)
      ensures ok ==> !CanApply(currentUser, Catalog(), pid)
      ensures old(AccountsConsistent()) ==> AccountsConsistent()
      ensures AllWithinCapacity(old(Catalog())) ==> AllWithinCapacity(Catalog())
    {
      var user := GetCurrentUser();
      if user.None? {
        return false;
      }
      var project := GetById(pid);
      if project.None? || project.value.volunteers >= project.value.maxVolunteers {
        return false;
      }
      if pid in user.value.joinedProjects {
        return false;
      }
      Enrol(pid, user.value, project.value);
      return true;
    }
  }
}
