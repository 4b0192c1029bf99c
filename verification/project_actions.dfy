/** The server actions `getProjectById`, `createProject` and `createTask`.
    Unlike the route handlers they throw on a missing session or missing
    fields, and report a failed insert as `{ success: false }`. The task
    action makes no owner-or-member check. */
module ProjectActions {
  import opened Common
  import opened Seqs
  import opened Store
  import opened Auth
  import TasksRoute

  /** An action either throws with a message or returns a value. */
  datatype Thrown<+T> = Threw(message: string) | Returned(value: T)

  /** The action's outcome together with the store it leaves behind. */
  datatype Action<+T> = Action(result: Thrown<T>, store: Store)

  /** `{ success: true, <id> }` or `{ success: false, error }`. */
  datatype Created = Success(id: Id) | Failure(error: string)

  const Unauthorized := "Unauthorized"
  const NameRequired := "Name is required"
  const TitleAndProjectRequired := "Title and Project ID are required"
  const ProjectCreateFailed := "Failed to create project"
  const TaskCreateFailed := "Failed to create task"

  /** A project with its tasks, most recently updated first, and its
      milestones, earliest first. */
  datatype ProjectView = ProjectView(project: Project, tasks: seq<Task>, milestones: seq<Milestone>)

  function UpdatedAtOf(t: Task): int {
    t.updatedAt
  }

  /** Sorting by the negated date newest-first is sorting by date earliest-first. */
  function NegatedDate(m: Milestone): int {
    -m.date
  }

  function MilestoneOfProject(projectId: Id): Milestone -> bool {
    (m: Milestone) => m.projectId == projectId
  }

  /** `getProjectById`: throws without a signed-in user (an id is not
      required); a missing project and a failed query (`fault`) are both `null`. */
  function GetProjectById(session: Option<Session>, id: Id, s: Store, fault: bool): (r: Thrown<Option<ProjectView>>)
    ensures !SignedIn(session) ==> r == Threw(Unauthorized)
    ensures SignedIn(session) ==> r.Returned?
    ensures SignedIn(session) && (fault || !HasProject(s, id)) ==> r == Returned(None)
    ensures r.Returned? && r.value.Some? ==>
              var v := r.value.value;
              && v.project in s.projects && v.project.id == id
              && multiset(v.tasks) == multiset(Filter(s.tasks, TasksRoute.InProject(id)))
              && (forall i, j :: 0 <= i < j < |v.tasks| ==> v.tasks[i].updatedAt >= v.tasks[j].updatedAt)
              && multiset(v.milestones) == multiset(Filter(s.milestones, MilestoneOfProject(id)))
              && (forall i, j :: 0 <= i < j < |v.milestones| ==> v.milestones[i].date <= v.milestones[j].date)
    ensures SignedIn(session) && !fault && HasProject(s, id) ==> r.value.Some?
  {
    if !SignedIn(session) then Threw(Unauthorized)
    else if fault then Returned(None)
    else
      match FindProject(s, id)
      case None => Returned(None)
      case Some(p) =>
        var tasks := SortDesc(Filter(s.tasks, TasksRoute.InProject(id)), UpdatedAtOf);
        var milestones := SortDesc(Filter(s.milestones, MilestoneOfProject(id)), NegatedDate);
        assert forall i, j :: 0 <= i < j < |milestones| ==> NegatedDate(milestones[i]) >= NegatedDate(milestones[j]);
        Returned(Some(ProjectView(p, tasks, milestones)))
  }

  datatype ProjectForm = ProjectForm(name: Option<string>, description: Option<string>)

  /** `createProject`: the caller becomes the owner, the status is
      "PLANNING"; a failed insert (a dangling owner, an id in use, a database
      error) is reported, not thrown. */
  function CreateProject(session: Option<Session>, form: ProjectForm, s: Store, w: DbWrite): (a: Action<Created>)
    ensures CallerId(session).None? ==> a == Action(Threw(Unauthorized), s)
    ensures CallerId(session).Some? && !Truthy(form.name) ==> a == Action(Threw(NameRequired), s)
    ensures a.result.Threw? <==> CallerId(session).None? || !Truthy(form.name)
    ensures a.result.Returned? && a.result.value.Failure? ==> a.store == s
    ensures a.result.Returned? && a.result.value.Success? ==>
              && CallerId(session).Some? && Truthy(form.name)
              && a.store == s.(projects := s.projects + [Project(a.result.value.id, form.name.value, form.description, "PLANNING", CallerId(session).value, [])])
              && a.result.value.id !in ProjectIds(s.projects)
    ensures a.result.Returned? ==>
              (a.result.value.Success? <==> !w.fault && HasUser(s, CallerId(session).value) && w.ids(0) !in ProjectIds(s.projects))
  {
    match CallerId(session)
    case None => Action(Threw(Unauthorized), s)
    case Some(callerId) =>
      if !Truthy(form.name) then Action(Threw(NameRequired), s)
      else
        var p := Project(w.ids(0), form.name.value, form.description, "PLANNING", callerId, []);
        if w.fault || !HasUser(s, callerId) || p.id in ProjectIds(s.projects) then
          Action(Returned(Failure(ProjectCreateFailed)), s)
        else
          Action(Returned(Success(p.id)), s.(projects := s.projects + [p]))
  }

  datatype TaskForm = TaskForm(title: Option<string>, projectId: Option<string>, priority: Option<string>)

  /** The row the action inserts: priority "MEDIUM" unless given, status
      always "TODO", no description, assignee or dates. */
  function ActionTask(form: TaskForm, callerId: Id, id: Id, now: int): Task
    requires Truthy(form.title) && Truthy(form.projectId)
  {
    Task(id, form.title.value, None, form.projectId.value, callerId, None, None, None,
         OrElse(form.priority, "MEDIUM"), "TODO", now, now)
  }

  /** `createTask` (the action): no owner-or-member check; only the database's
      own keys can make the insert fail. */
  function CreateTask(session: Option<Session>, form: TaskForm, s: Store, w: DbWrite, now: int): (a: Action<Created>)
    ensures CallerId(session).None? ==> a == Action(Threw(Unauthorized), s)
    ensures CallerId(session).Some? && !(Truthy(form.title) && Truthy(form.projectId)) ==>
              a == Action(Threw(TitleAndProjectRequired), s)
    ensures a.result.Returned? && a.result.value.Failure? ==> a.store == s
    ensures a.result.Returned? ==>
              var t := ActionTask(form, CallerId(session).value, w.ids(0), now);
              && (a.result.value.Success? <==> TasksRoute.TaskInsertOk(s, t, w))
              && (a.result.value.Success? ==> a.result.value.id == t.id && a.store == s.(tasks := s.tasks + [t]))
  {
    match CallerId(session)
    case None => Action(Threw(Unauthorized), s)
    case Some(callerId) =>
      if !Truthy(form.title) || !Truthy(form.projectId) then Action(Threw(TitleAndProjectRequired), s)
      else
        var t := ActionTask(form, callerId, w.ids(0), now);
        if !TasksRoute.TaskInsertOk(s, t, w) then Action(Returned(Failure(TaskCreateFailed)), s)
        else Action(Returned(Success(t.id)), s.(tasks := s.tasks + [t]))
  }

  /** The same request that the route refuses with 403 succeeds through the
      action: a caller who neither owns nor belongs to the project can still
      add a task to it. */
  lemma ActionSkipsAccessCheck(session: Option<Session>, form: TaskForm, s: Store, w: DbWrite, env: TasksRoute.TaskWrites)
    requires CallerId(session).Some? && Truthy(form.title) && Truthy(form.projectId)
    requires HasProject(s, form.projectId.value)
    requires !HasAccess(FindProject(s, form.projectId.value).value, CallerId(session).value)
    requires HasUser(s, CallerId(session).value) && !w.fault && w.ids(0) !in TaskIds(s.tasks)
    requires !env.lookupFault
    ensures var body := TasksRoute.TaskInput(form.title, None, form.projectId, None, None, None, form.priority, None);
            TasksRoute.CreateTask(session, Some(body), s, env).response.status == StatusForbidden
    ensures CreateTask(session, form, s, w, env.now).result.value.Success?
  {
  }

  /** Both creations keep the store's integrity. */
  lemma CreateProjectPreservesValid(session: Option<Session>, form: ProjectForm, s: Store, w: DbWrite)
    requires Valid(s)
    ensures Valid(CreateProject(session, form, s, w).store)
  {
    var a := CreateProject(session, form, s, w);
    if a.store != s {
      var p := a.store.projects[|s.projects|];
      assert a.store.projects == s.projects + [p];
      assert forall i :: 0 <= i < |s.projects| ==> a.store.projects[i] == s.projects[i] && s.projects[i] in s.projects;
      assert ProjectIds(a.store.projects) == ProjectIds(s.projects) + {p.id};
    }
  }

  lemma CreateTaskPreservesValid(session: Option<Session>, form: TaskForm, s: Store, w: DbWrite, now: int)
    requires Valid(s)
    ensures Valid(CreateTask(session, form, s, w, now).store)
  {
    var a := CreateTask(session, form, s, w, now);
    if a.result.Returned? && a.result.value.Success? {
      TasksRoute.InsertTaskPreservesValid(s, ActionTask(form, CallerId(session).value, w.ids(0), now), w);
    }
  }

  /** The task the action stores: the caller is its creator, the status is
      TODO, the priority MEDIUM unless one is given, and no assignee. */
  lemma ActionTaskDefaults(session: Option<Session>, form: TaskForm, s: Store, w: DbWrite, now: int)
    requires CreateTask(session, form, s, w, now).result.Returned?
    requires CreateTask(session, form, s, w, now).result.value.Success?
    ensures var a := CreateTask(session, form, s, w, now);
            var t := a.store.tasks[|s.tasks|];
            && |a.store.tasks| == |s.tasks| + 1
            && t.id == a.result.value.id
            && t.creatorId == CallerId(session).value
            && t.title == form.title.value && t.projectId == form.projectId.value
            && t.status == "TODO"
            && t.priority == (if Truthy(form.priority) then form.priority.value else "MEDIUM")
            && t.assigneeId.None?
  {
  }
}
