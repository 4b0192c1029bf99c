/** The relational store behind the ORM, as immutable sequences of records,
    with the integrity the database enforces (primary and foreign keys). */
module Store {
  import opened Common
  import opened Seqs

  datatype Role = MEMBER | ADMIN

  /** An account. `password` holds the hash, absent for accounts created by
      an external sign-in provider. */
  datatype User = User(
    id: Id,
    name: string,
    username: string,
    email: string,
    password: Option<string>,
    image: Option<string>,
    role: Role)

  /** `members` lists the ids of the collaborating accounts. */
  datatype Project = Project(
    id: Id,
    name: string,
    description: Option<string>,
    status: string,
    ownerId: Id,
    members: seq<Id>)

  /** Dates are kept as the strings the client sent; parsing them is not modelled. */
  datatype Task = Task(
    id: Id,
    title: string,
    description: Option<string>,
    projectId: Id,
    creatorId: Id,
    assigneeId: Option<Id>,
    startDate: Option<string>,
    dueDate: Option<string>,
    priority: string,
    status: string,
    createdAt: int,
    updatedAt: int)

  datatype Milestone = Milestone(id: Id, projectId: Id, title: string, date: int)

  /** `kind` is the column the source calls `type`. */
  datatype Notification = Notification(
    id: Id,
    userId: Id,
    kind: string,
    title: string,
    message: string,
    linkUrl: Option<string>,
    read: bool,
    createdAt: int)

  datatype Store = Store(
    users: seq<User>,
    projects: seq<Project>,
    tasks: seq<Task>,
    milestones: seq<Milestone>,
    notifications: seq<Notification>)

  /** A handler's reply together with the store it leaves behind. */
  datatype Outcome<+T> = Outcome(response: Response<T>, store: Store)

  /** What the database does with one write: the ids it assigns to the new
      rows, in order, and whether the statement raises for a reason the model
      does not otherwise see (a lost connection, a timeout). */
  datatype DbWrite = DbWrite(ids: nat -> Id, fault: bool)

  function UserIds(users: seq<User>): set<Id> {
    set u | u in users :: u.id
  }

  function ProjectIds(projects: seq<Project>): set<Id> {
    set p | p in projects :: p.id
  }

  function TaskIds(tasks: seq<Task>): set<Id> {
    set t | t in tasks :: t.id
  }

  function NotificationIds(ns: seq<Notification>): set<Id> {
    set n | n in ns :: n.id
  }

  predicate HasUser(s: Store, id: Id) {
    id in UserIds(s.users)
  }

  predicate HasProject(s: Store, id: Id) {
    id in ProjectIds(s.projects)
  }

  /** The `ids` of a write name `n` rows that are new: pairwise different and
      not already used in `taken`. A write that breaks this raises a
      unique-constraint error. */
  predicate FreshIds(w: DbWrite, n: nat, taken: set<Id>) {
    && (forall i, j :: 0 <= i < j < n ==> w.ids(i) != w.ids(j))
    && (forall i :: 0 <= i < n ==> w.ids(i) !in taken)
  }

  function ProjectById(id: Id): Project -> bool {
    (p: Project) => p.id == id
  }

  /** `project.findUnique({ where: { id } })`. */
  function FindProject(s: Store, id: Id): (r: Option<Project>)
    ensures r.None? <==> !HasProject(s, id)
    ensures r.Some? ==> r.value in s.projects && r.value.id == id
  {
    FindFirst(s.projects, ProjectById(id), 0)
  }

  function ToUser(userId: Id): Notification -> bool {
    (n: Notification) => n.userId == userId
  }

  /** The notifications addressed to `userId`, in store order. */
  function Inbox(ns: seq<Notification>, userId: Id): seq<Notification> {
    Filter(ns, ToUser(userId))
  }

  /** The project-access rule: the owner or a listed member. */
  predicate HasAccess(p: Project, userId: Id) {
    p.ownerId == userId || userId in p.members
  }

  ghost predicate UniqueUserIds(users: seq<User>) {
    forall i, j :: 0 <= i < j < |users| ==> users[i].id != users[j].id
  }

  ghost predicate UniqueUsers(users: seq<User>) {
    && UniqueUserIds(users)
    && (forall i, j :: 0 <= i < j < |users| ==> users[i].email != users[j].email)
    && (forall i, j :: 0 <= i < j < |users| ==> users[i].username != users[j].username)
  }

  ghost predicate UniqueProjects(projects: seq<Project>) {
    forall i, j :: 0 <= i < j < |projects| ==> projects[i].id != projects[j].id
  }

  ghost predicate UniqueTasks(tasks: seq<Task>) {
    forall i, j :: 0 <= i < j < |tasks| ==> tasks[i].id != tasks[j].id
  }

  ghost predicate UniqueNotifications(ns: seq<Notification>) {
    forall i, j :: 0 <= i < j < |ns| ==> ns[i].id != ns[j].id
  }

  /** Every foreign key points at an existing row. */
  ghost predicate ReferencesResolve(s: Store) {
    && (forall p :: p in s.projects ==> HasUser(s, p.ownerId))
    && (forall t :: t in s.tasks ==>
          && HasProject(s, t.projectId)
          && HasUser(s, t.creatorId)
          && (t.assigneeId.Some? ==> HasUser(s, t.assigneeId.value)))
    && (forall n :: n in s.notifications ==> HasUser(s, n.userId))
  }

  /** The integrity every handler keeps: unique ids, resolving foreign keys
      (which the database enforces), and unique emails and usernames (which
      the registration route's duplicate check, not an index, ensures). */
  ghost predicate Valid(s: Store) {
    && UniqueUsers(s.users)
    && UniqueProjects(s.projects)
    && UniqueTasks(s.tasks)
    && UniqueNotifications(s.notifications)
    && ReferencesResolve(s)
  }
}
