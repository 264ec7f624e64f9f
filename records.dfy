/** The two record kinds the store keeps, and the shallow merges (`{ ...record, ...updates }`)
    it applies to them. */
module Records {
  import opened Wrappers

  datatype Role = Volunteer | Admin

  datatype Status = Active | Completed | Upcoming

  datatype User = User(
    id: string,
    email: string,
    name: string,
    role: Role,
    skills: seq<string>,
    interests: seq<string>,
    bio: string,
    joinedProjects: seq<string>)

  datatype Project = Project(
    id: string,
    title: string,
    description: string,
    category: string,
    location: string,
    duration: string,
    volunteers: int,
    maxVolunteers: int,
    startDate: string,
    status: Status,
    organizer: string,
    requirements: seq<string>,
    image: string)

  /** A `Partial<User>`: each field is either given or absent. */
  datatype UserPatch = UserPatch(
    id: Option<string>,
    email: Option<string>,
    name: Option<string>,
    role: Option<Role>,
    skills: Option<seq<string>>,
    interests: Option<seq<string>>,
    bio: Option<string>,
    joinedProjects: Option<seq<string>>)

  /** A `Partial<Project>`. */
  datatype ProjectPatch = ProjectPatch(
    id: Option<string>,
    title: Option<string>,
    description: Option<string>,
    category: Option<string>,
    location: Option<string>,
    duration: Option<string>,
    volunteers: Option<int>,
    maxVolunteers: Option<int>,
    startDate: Option<string>,
    status: Option<Status>,
    organizer: Option<string>,
    requirements: Option<seq<string>>,
    image: Option<string>)

  /** An `Omit<Project, 'id'>`: every field of a project but its identifier. */
  datatype ProjectDraft = ProjectDraft(
    title: string,
    description: string,
    category: string,
    location: string,
    duration: string,
    volunteers: int,
    maxVolunteers: int,
    startDate: string,
    status: Status,
    organizer: string,
    requirements: seq<string>,
    image: string)

  /** `{ ...u, ...patch }`: every field given in the patch overrides, every absent one is kept. */
  function MergeUser(u: User, patch: UserPatch): (r: User)
    ensures patch.id.None? ==> r.id == u.id
    ensures patch.email.None? ==> r.email == u.email
    ensures patch.name.None? ==> r.name == u.name
    ensures patch.role.None? ==> r.role == u.role
    ensures patch.skills.None? ==> r.skills == u.skills
    ensures patch.interests.None? ==> r.interests == u.interests
    ensures patch.bio.None? ==> r.bio == u.bio
    ensures patch.joinedProjects.None? ==> r.joinedProjects == u.joinedProjects
    ensures patch.id.Some? ==> r.id == patch.id.value
    ensures patch.email.Some? ==> r.email == patch.email.value
    ensures patch.name.Some? ==> r.name == patch.name.value
    ensures patch.role.Some? ==> r.role == patch.role.value
    ensures patch.skills.Some? ==> r.skills == patch.skills.value
    ensures patch.interests.Some? ==> r.interests == patch.interests.value
    ensures patch.bio.Some? ==> r.bio == patch.bio.value
    ensures patch.joinedProjects.Some? ==> r.joinedProjects == patch.joinedProjects.value
  {
    User(
      patch.id.GetOr(u.id),
      patch.email.GetOr(u.email),
      patch.name.GetOr(u.name),
      patch.role.GetOr(u.role),
      patch.skills.GetOr(u.skills),
      patch.interests.GetOr(u.interests),
      patch.bio.GetOr(u.bio),
      patch.joinedProjects.GetOr(u.joinedProjects))
  }

  /** `{ ...p, ...patch }` on a project. */
  function MergeProject(p: Project, patch: ProjectPatch): (r: Project)
    ensures patch.id.None? ==> r.id == p.id
    ensures patch.title.None? ==> r.title == p.title
    ensures patch.description.None? ==> r.description == p.description
    ensures patch.category.None? ==> r.category == p.category
    ensures patch.location.None? ==> r.location == p.location
    ensures patch.duration.None? ==> r.duration == p.duration
    ensures patch.volunteers.None? ==> r.volunteers == p.volunteers
    ensures patch.maxVolunteers.None? ==> r.maxVolunteers == p.maxVolunteers
    ensures patch.startDate.None? ==> r.startDate == p.startDate
    ensures patch.status.None? ==> r.status == p.status
    ensures patch.organizer.None? ==> r.organizer == p.organizer
    ensures patch.requirements.None? ==> r.requirements == p.requirements
    ensures patch.image.None? ==> r.image == p.image
    ensures patch.id.Some? ==> r.id == patch.id.value
    ensures patch.title.Some? ==> r.title == patch.title.value
    ensures patch.description.Some? ==> r.description == patch.description.value
    ensures patch.category.Some? ==> r.category == patch.category.value
    ensures patch.location.Some? ==> r.location == patch.location.value
    ensures patch.duration.Some? ==> r.duration == patch.duration.value
    ensures patch.volunteers.Some? ==> r.volunteers == patch.volunteers.value
    ensures patch.maxVolunteers.Some? ==> r.maxVolunteers == patch.maxVolunteers.value
    ensures patch.startDate.Some? ==> r.startDate == patch.startDate.value
    ensures patch.status.Some? ==> r.status == patch.status.value
    ensures patch.organizer.Some? ==> r.organizer == patch.organizer.value
    ensures patch.requirements.Some? ==> r.requirements == patch.requirements.value
    ensures patch.image.Some? ==> r.image == patch.image.value
  {
    Project(
      patch.id.GetOr(p.id),
      patch.title.GetOr(p.title),
      patch.description.GetOr(p.description),
      patch.category.GetOr(p.category),
      patch.location.GetOr(p.location),
      patch.duration.GetOr(p.duration),
      patch.volunteers.GetOr(p.volunteers),
      patch.maxVolunteers.GetOr(p.maxVolunteers),
      patch.startDate.GetOr(p.startDate),
      patch.status.GetOr(p.status),
      patch.organizer.GetOr(p.organizer),
      patch.requirements.GetOr(p.requirements),
      patch.image.GetOr(p.image))
  }

  /** The patch `{ joinedProjects: ids }` that applying to a project sends. */
  function JoinedProjectsPatch(ids: seq<string>): UserPatch {
    UserPatch(None, None, None, None, None, None, None, Some(ids))
  }

  /** The patch `{ volunteers: n }` that applying to a project sends. */
  function VolunteersPatch(n: int): ProjectPatch {
    ProjectPatch(None, None, None, None, None, None, Some(n), None, None, None, None, None, None)
  }

  /** `{ ...draft, id }`: the draft's fields under the given identifier. */
  function WithId(draft: ProjectDraft, id: string): (p: Project)
    ensures p.id == id
    ensures Draft(p) == draft
  {
    Project(id, draft.title, draft.description, draft.category, draft.location, draft.duration,
            draft.volunteers, draft.maxVolunteers, draft.startDate, draft.status, draft.organizer,
            draft.requirements, draft.image)
  }

  /** A project's fields without its identifier. */
  function Draft(p: Project): ProjectDraft {
    ProjectDraft(p.title, p.description, p.category, p.location, p.duration, p.volunteers,
                 p.maxVolunteers, p.startDate, p.status, p.organizer, p.requirements, p.image)
  }

  /** The capacity rule of a project: `0 <= volunteers <= maxVolunteers`. */
  predicate WithinCapacity(p: Project) {
    0 <= p.volunteers <= p.maxVolunteers
  }

  /** The patch sent by applying to a project changes the volunteer count and nothing else. */
  lemma MergeVolunteers(p: Project, n: int)
    ensures MergeProject(p, VolunteersPatch(n)) == p.(volunteers := n)
  {
  }

  /** The patch sent by applying to a project changes the joined list and nothing else. */
  lemma MergeJoinedProjects(u: User, ids: seq<string>)
    ensures MergeUser(u, JoinedProjectsPatch(ids)) == u.(joinedProjects := ids)
  {
  }

  /** A patch that touches no field leaves a user as it was. */
  lemma MergeUserEmpty(u: User)
    ensures MergeUser(u, UserPatch(None, None, None, None, None, None, None, None)) == u
  {
  }

  /** Merging the same patch twice is merging it once. */
  lemma MergeUserIdempotent(u: User, patch: UserPatch)
    ensures MergeUser(MergeUser(u, patch), patch) == MergeUser(u, patch)
  {
  }
}
