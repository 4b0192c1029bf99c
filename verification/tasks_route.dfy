/** `GET /api/tasks` and `POST /api/tasks`. Creation checks, in this order,
    the session (401), the required fields (400), the project (404, or 500
    when its lookup raises) and the caller's access to it (403); then it
    inserts the task and sends the assignment and team notifications, whose
    failures never change the reply. */
module TasksRoute {
  import opened Common
  import opened Seqs
  import opened Store
  import opened Auth
  import opened Notifications

  datatype TaskInput = TaskInput(
    title: Option<string>,
    description: Option<string>,
    projectId: Option<string>,
    assigneeId: Option<string>,
    startDate: Option<string>,
    dueDate: Option<string>,
    priority: Option<string>,
    status: Option<string>)

  /** The database's side of one creation: the clock, whether the project
      lookup raises, and the three writes (task, assignment notification,
      team notifications). */
  datatype TaskWrites = TaskWrites(now: int, lookupFault: bool, task: DbWrite, assignment: DbWrite, team: DbWrite)

  const Unauthorized := "Unauthorized"
  const TitleAndProjectRequired := "Title and project are required"
  const ProjectNotFound := "Project not found"
  const AccessDenied := "Access denied"
  const CreateFailed := "Failed to create task"
  const FetchFailed := "Failed to fetch tasks"
  const TaskAssigned := "TASK_ASSIGNED"
  const TaskCreated := "TASK_CREATED"

  /** The row the route inserts, with its defaults for falsy fields. */
  function NewTask(b: TaskInput, callerId: Id, id: Id, now: int): Task
    requires Truthy(b.title) && Truthy(b.projectId)
  {
    Task(id, b.title.value, b.description, b.projectId.value, callerId,
         OrNull(b.assigneeId), OrNull(b.startDate), OrNull(b.dueDate),
         OrElse(b.priority, "MEDIUM"), OrElse(b.status, "TODO"), now, now)
  }

  /** Whether the task insert goes through: a fresh id, resolving foreign
      keys (project, creator, assignee) and no database error. */
  predicate TaskInsertOk(s: Store, t: Task, w: DbWrite) {
    && !w.fault
    && t.id !in TaskIds(s.tasks)
    && HasProject(s, t.projectId)
    && HasUser(s, t.creatorId)
    && (t.assigneeId.Some? ==> HasUser(s, t.assigneeId.value))
  }

  function TaskLink(t: Task): string {
    "/dashboard/projects/" + t.projectId + "?task=" + t.id
  }

  function AssignedContent(t: Task): Content {
    Content(TaskAssigned, "New Task Assigned", "You have been assigned to task \"" + t.title + "\"", Some(TaskLink(t)))
  }

  function CreatedContent(callerName: string, t: Task, p: Project): Content {
    Content(TaskCreated, "New Task Created", callerName + " created task \"" + t.title + "\" in " + p.name, Some(TaskLink(t)))
  }

  /** The assignee is told when there is one and it is not the creator. */
  predicate NotifiesAssignee(t: Task, callerId: Id) {
    t.assigneeId.Some? && t.assigneeId.value != callerId
  }

  function AssignStep(s: Store, callerId: Id, t: Task, env: TaskWrites): Store {
    if NotifiesAssignee(t, callerId) then CreateNotification(s, t.assigneeId.value, AssignedContent(t), env.assignment, env.now)
    else s
  }

  function TeamStep(s: Store, callerId: Id, callerName: string, t: Task, p: Project, env: TaskWrites): Store {
    NotifyAllTeamMembers(s, callerId, CreatedContent(callerName, t, p), env.team, env.now)
  }

  /** An admitted creation: the insert of `t`, then the assignment and team
      notifications, which only ever add rows. */
  function Commit(callerId: Id, callerName: string, t: Task, p: Project, s: Store, env: TaskWrites): (o: Outcome<Task>)
    ensures o.response.status == StatusCreated <==> TaskInsertOk(s, t, env.task)
    ensures o.response.status != StatusCreated ==> o == Outcome(Error(StatusInternal, CreateFailed), s)
    ensures o.response.status == StatusCreated ==>
              && o.response == Json(StatusCreated, t)
              && o.store.tasks == s.tasks + [t]
              && o.store.users == s.users && o.store.projects == s.projects && o.store.milestones == s.milestones
              && |o.store.notifications| >= |s.notifications|
              && o.store.notifications[..|s.notifications|] == s.notifications
  {
    if !TaskInsertOk(s, t, env.task) then Outcome(Error(StatusInternal, CreateFailed), s)
    else
      var s1 := s.(tasks := s.tasks + [t]);
      var s2 := AssignStep(s1, callerId, t, env);
      var s3 := TeamStep(s2, callerId, callerName, t, p, env);
      assert s3.notifications[..|s2.notifications|] == s2.notifications;
      assert s2.notifications[..|s1.notifications|] == s1.notifications;
      assert s3.notifications[..|s.notifications|] == s3.notifications[..|s2.notifications|][..|s.notifications|];
      Outcome(Json(StatusCreated, t), s3)
  }

  /** `POST`. `body` is `None` when the request body is not JSON or is
      `null`. */
  function CreateTask(session: Option<Session>, body: Option<TaskInput>, s: Store, env: TaskWrites): (o: Outcome<Task>)
    ensures CallerId(session).None? ==> o == Outcome(Error(StatusUnauthorized, Unauthorized), s)
    ensures CallerId(session).Some? && body.None? ==> o == Outcome(Error(StatusInternal, CreateFailed), s)
    ensures CallerId(session).Some? && body.Some? && !(Truthy(body.value.title) && Truthy(body.value.projectId)) ==>
              o == Outcome(Error(StatusBadRequest, TitleAndProjectRequired), s)
    ensures CallerId(session).Some? && body.Some? && Truthy(body.value.title) && Truthy(body.value.projectId) && env.lookupFault ==>
              o == Outcome(Error(StatusInternal, CreateFailed), s)
    ensures CallerId(session).Some? && body.Some? && Truthy(body.value.title) && Truthy(body.value.projectId) && !env.lookupFault ==>
              && (!HasProject(s, body.value.projectId.value) ==> o == Outcome(Error(StatusNotFound, ProjectNotFound), s))
              && (HasProject(s, body.value.projectId.value) && !HasAccess(FindProject(s, body.value.projectId.value).value, CallerId(session).value) ==>
                    o == Outcome(Error(StatusForbidden, AccessDenied), s))
    ensures o.response.status != StatusCreated ==> o.store == s
    ensures o.response.status == StatusCreated <==>
              && CallerId(session).Some? && body.Some?
              && Truthy(body.value.title) && Truthy(body.value.projectId) && !env.lookupFault
              && HasProject(s, body.value.projectId.value)
              && HasAccess(FindProject(s, body.value.projectId.value).value, CallerId(session).value)
              && TaskInsertOk(s, NewTask(body.value, CallerId(session).value, env.task.ids(0), env.now), env.task)
    ensures o.response.status == StatusCreated ==>
              && o.response.Json?
              && var t := o.response.value;
              && t == NewTask(body.value, CallerId(session).value, env.task.ids(0), env.now)
              && o.store.tasks == s.tasks + [t]
              && o.store.users == s.users && o.store.projects == s.projects && o.store.milestones == s.milestones
              && |o.store.notifications| >= |s.notifications|
              && o.store.notifications[..|s.notifications|] == s.notifications
  {
    match CallerId(session)
    case None => Outcome(Error(StatusUnauthorized, Unauthorized), s)
    case Some(callerId) =>
      if body.None? then Outcome(Error(StatusInternal, CreateFailed), s)
      else
        var b := body.value;
        if !Truthy(b.title) || !Truthy(b.projectId) then Outcome(Error(StatusBadRequest, TitleAndProjectRequired), s)
        else if env.lookupFault then Outcome(Error(StatusInternal, CreateFailed), s)
        else
          match FindProject(s, b.projectId.value)
          case None => Outcome(Error(StatusNotFound, ProjectNotFound), s)
          case Some(p) =>
            if !HasAccess(p, callerId) then Outcome(Error(StatusForbidden, AccessDenied), s)
            else Commit(callerId, CallerName(session), NewTask(b, callerId, env.task.ids(0), env.now), p, s, env)
  }

  function CreatedAtOf(t: Task): int {
    t.createdAt
  }

  function InProject(projectId: Id): Task -> bool {
    (t: Task) => t.projectId == projectId
  }

  /** `GET`: every task, or those of one project when `projectId` is truthy,
      newest first. No ownership or membership filter applies. */
  function ListTasks(session: Option<Session>, projectId: Option<string>, s: Store, fault: bool): (r: Response<seq<Task>>)
    ensures CallerId(session).None? ==> r == Error(StatusUnauthorized, Unauthorized)
    ensures CallerId(session).Some? && fault ==> r == Error(StatusInternal, FetchFailed)
    ensures CallerId(session).Some? && !fault ==>
              && r.Json? && r.status == StatusOk
              && SortedDesc(r.value, CreatedAtOf)
              && (forall t :: t in r.value <==> t in s.tasks && (Truthy(projectId) ==> t.projectId == projectId.value))
              && (!Truthy(projectId) ==> multiset(r.value) == multiset(s.tasks))
              && (Truthy(projectId) ==> multiset(r.value) == multiset(Filter(s.tasks, InProject(projectId.value))))
  {
    if CallerId(session).None? then Error(StatusUnauthorized, Unauthorized)
    else if fault then Error(StatusInternal, FetchFailed)
    else
      var wanted := if Truthy(projectId) then Filter(s.tasks, InProject(projectId.value)) else s.tasks;
      var sorted := SortDesc(wanted, CreatedAtOf);
      assert forall t :: t in sorted <==> t in multiset(wanted);
      Json(StatusOk, sorted)
  }

  /** Both notification writes of a creation go through. */
  predicate Delivered(s: Store, callerId: Id, t: Task, env: TaskWrites) {
    && (NotifiesAssignee(t, callerId) ==>
          !env.assignment.fault && env.assignment.ids(0) !in NotificationIds(s.notifications))
    && BatchAccepted(AssignStep(s.(tasks := s.tasks + [t]), callerId, t, env), callerId, env.team)
  }

  /** What the team step adds, counted per account and type. */
  lemma TeamStepCount(s2: Store, callerId: Id, callerName: string, t: Task, p: Project, env: TaskWrites, u: Id, kind: string)
    requires UniqueUserIds(s2.users)
    requires BatchAccepted(s2, callerId, env.team)
    ensures var s3 := TeamStep(s2, callerId, callerName, t, p, env);
            && |s3.notifications| >= |s2.notifications|
            && s3.notifications[..|s2.notifications|] == s2.notifications
            && Received(s3.notifications[|s2.notifications|..], u, kind) ==
                 (if kind == TaskCreated && u in UserIds(s2.users) && u != callerId then 1 else 0)
  {
    FanOutCounts(s2, callerId, CreatedContent(callerName, t, p), env.team, env.now, u, kind);
  }

  /** The assignment notification's row. */
  function AssignedRow(t: Task, env: TaskWrites): Notification
    requires t.assigneeId.Some?
  {
    Compose(env.assignment.ids(0), t.assigneeId.value, AssignedContent(t), env.now)
  }

  /** An accepted assignment step appends exactly its row. */
  lemma AssignStepAppends(s1: Store, callerId: Id, t: Task, env: TaskWrites)
    requires NotifiesAssignee(t, callerId) && HasUser(s1, t.assigneeId.value)
    requires !env.assignment.fault && env.assignment.ids(0) !in NotificationIds(s1.notifications)
    ensures var s2 := AssignStep(s1, callerId, t, env);
            s2.notifications == s1.notifications + [AssignedRow(t, env)] && s2.users == s1.users
  {
  }

  /** The assignment step writes its row and the team step follows: the row
      is counted once, ahead of what the team step adds. */
  lemma {:induction false} AssignedThenTeam(s1: Store, callerId: Id, callerName: string, t: Task, p: Project, env: TaskWrites, u: Id, kind: string)
    requires UniqueUserIds(s1.users)
    requires NotifiesAssignee(t, callerId) && HasUser(s1, t.assigneeId.value)
    requires !env.assignment.fault && env.assignment.ids(0) !in NotificationIds(s1.notifications)
    requires BatchAccepted(AssignStep(s1, callerId, t, env), callerId, env.team)
    ensures var s3 := TeamStep(AssignStep(s1, callerId, t, env), callerId, callerName, t, p, env);
            && |s3.notifications| >= |s1.notifications| + 1
            && Received(s3.notifications[|s1.notifications|..], u, kind) ==
                 (if kind == TaskAssigned && u == t.assigneeId.value then 1 else 0)
                 + (if kind == TaskCreated && u in UserIds(s1.users) && u != callerId then 1 else 0)
  {
    var s2 := AssignStep(s1, callerId, t, env);
    AssignStepAppends(s1, callerId, t, env);
    TeamStepCount(s2, callerId, callerName, t, p, env, u, kind);
    assert |TaskAssigned| != |TaskCreated|;
    PrependOne(s1.notifications, AssignedRow(t, env), TeamStep(s2, callerId, callerName, t, p, env).notifications, u, kind);
  }

  /** The two notification steps after the insert of `t` into `s1`: what
      they add, counted per account and type. */
  lemma {:induction false} NotifyStepsCount(s1: Store, callerId: Id, callerName: string, t: Task, p: Project, env: TaskWrites, u: Id, kind: string)
    requires UniqueUserIds(s1.users)
    requires t.assigneeId.Some? ==> HasUser(s1, t.assigneeId.value)
    requires NotifiesAssignee(t, callerId) ==>
               !env.assignment.fault && env.assignment.ids(0) !in NotificationIds(s1.notifications)
    requires BatchAccepted(AssignStep(s1, callerId, t, env), callerId, env.team)
    ensures var s3 := TeamStep(AssignStep(s1, callerId, t, env), callerId, callerName, t, p, env);
            && |s3.notifications| >= |s1.notifications|
            && Received(s3.notifications[|s1.notifications|..], u, kind) ==
                 (if kind == TaskAssigned && NotifiesAssignee(t, callerId) && u == t.assigneeId.value then 1 else 0)
                 + (if kind == TaskCreated && u in UserIds(s1.users) && u != callerId then 1 else 0)
  {
    if NotifiesAssignee(t, callerId) {
      AssignedThenTeam(s1, callerId, callerName, t, p, env, u, kind);
    } else {
      assert AssignStep(s1, callerId, t, env) == s1;
      TeamStepCount(s1, callerId, callerName, t, p, env, u, kind);
    }
  }

  /** Counting over `[a]` followed by what came after it. */
  lemma PrependOne(ns: seq<Notification>, a: Notification, all: seq<Notification>, u: Id, kind: string)
    requires |all| >= |ns| + 1 && all[..|ns| + 1] == ns + [a]
    ensures Received(all[|ns|..], u, kind) == (if a.userId == u && a.kind == kind then 1 else 0) + Received(all[|ns| + 1..], u, kind)
  {
    assert all[|ns|..] == [a] + all[|ns| + 1..];
    FilterConcat([a], all[|ns| + 1..], OfKind(u, kind));
  }

  /** Who hears about a new task: the assignee, when there is one and it is
      not the creator, gets exactly one TASK_ASSIGNED; every account but the
      creator gets exactly one TASK_CREATED, the assignee included; the
      creator gets neither. */
  lemma {:induction false} CreateTaskNotifies(session: Option<Session>, b: TaskInput, s: Store, env: TaskWrites, u: Id)
    requires UniqueUserIds(s.users)
    requires CreateTask(session, Some(b), s, env).response.status == StatusCreated
    requires Delivered(s, CallerId(session).value, NewTask(b, CallerId(session).value, env.task.ids(0), env.now), env)
    ensures var o := CreateTask(session, Some(b), s, env);
            var callerId := CallerId(session).value;
            var t := NewTask(b, callerId, env.task.ids(0), env.now);
            var added := o.store.notifications[|s.notifications|..];
            && Received(added, u, TaskAssigned) == (if NotifiesAssignee(t, callerId) && u == t.assigneeId.value then 1 else 0)
            && Received(added, u, TaskCreated) == (if u in UserIds(s.users) && u != callerId then 1 else 0)
  {
    var callerId := CallerId(session).value;
    var t := NewTask(b, callerId, env.task.ids(0), env.now);
    var p := FindProject(s, b.projectId.value).value;
    var s1 := s.(tasks := s.tasks + [t]);
    assert CreateTask(session, Some(b), s, env).store == TeamStep(AssignStep(s1, callerId, t, env), callerId, CallerName(session), t, p, env);
    NotifyStepsCount(s1, callerId, CallerName(session), t, p, env, u, TaskAssigned);
    NotifyStepsCount(s1, callerId, CallerName(session), t, p, env, u, TaskCreated);
  }

  /** Notification failures never change the reply to a creation, nor the
      task it stores. */
  lemma NotificationFailuresInvisible(session: Option<Session>, body: Option<TaskInput>, s: Store, env: TaskWrites, assignment: DbWrite, team: DbWrite)
    ensures var o1 := CreateTask(session, body, s, env);
            var o2 := CreateTask(session, body, s, env.(assignment := assignment, team := team));
            o1.response == o2.response && o1.store.tasks == o2.store.tasks
  {
  }

  /** A task created under a project is among the tasks listed for it. */
  lemma CreatedTaskIsListed(session: Option<Session>, b: TaskInput, s: Store, env: TaskWrites)
    requires CreateTask(session, Some(b), s, env).response.status == StatusCreated
    ensures var o := CreateTask(session, Some(b), s, env);
            var listed := ListTasks(session, b.projectId, o.store, false);
            listed.Json? && o.response.value in listed.value
  {
    var o := CreateTask(session, Some(b), s, env);
    assert o.response.value in o.store.tasks;
  }

  /** An insert that the database accepts keeps the store's integrity. */
  lemma InsertTaskPreservesValid(s: Store, t: Task, w: DbWrite)
    requires Valid(s) && TaskInsertOk(s, t, w)
    ensures Valid(s.(tasks := s.tasks + [t]))
  {
    var s1 := s.(tasks := s.tasks + [t]);
    assert forall i :: 0 <= i < |s.tasks| ==> s1.tasks[i] == s.tasks[i] && s.tasks[i] in s.tasks;
  }

  /** A task creation keeps the store's integrity: the task's keys resolve,
      and both notification steps keep it too. */
  lemma CreateTaskPreservesValid(session: Option<Session>, body: Option<TaskInput>, s: Store, env: TaskWrites)
    requires Valid(s)
    ensures Valid(CreateTask(session, body, s, env).store)
  {
    var o := CreateTask(session, body, s, env);
    if o.response.status == StatusCreated {
      var callerId := CallerId(session).value;
      var b := body.value;
      var t := NewTask(b, callerId, env.task.ids(0), env.now);
      var p := FindProject(s, b.projectId.value).value;
      var s1 := s.(tasks := s.tasks + [t]);
      InsertTaskPreservesValid(s, t, env.task);
      var s2 := AssignStep(s1, callerId, t, env);
      if NotifiesAssignee(t, callerId) {
        CreateNotificationPreservesValid(s1, t.assigneeId.value, AssignedContent(t), env.assignment, env.now);
      }
      NotifyAllPreservesValid(s2, callerId, CreatedContent(CallerName(session), t, p), env.team, env.now);
      assert o.store == TeamStep(s2, callerId, CallerName(session), t, p, env);
    }
  }

  /** The task a 201 stores and returns: the caller is its creator, falsy
      assignee and dates become `null`, priority and status fall back to
      MEDIUM and TODO, and the caller owns or belongs to its project. */
  lemma CreatedTaskDefaults(session: Option<Session>, b: TaskInput, s: Store, env: TaskWrites)
    requires CreateTask(session, Some(b), s, env).response.status == StatusCreated
    ensures var o := CreateTask(session, Some(b), s, env);
            var t := o.response.value;
            var callerId := CallerId(session).value;
            && o.store.tasks == s.tasks + [t]
            && t.creatorId == callerId
            && t.title == b.title.value && t.projectId == b.projectId.value && t.description == b.description
            && (t.assigneeId.Some? <==> Truthy(b.assigneeId)) && (Truthy(b.assigneeId) ==> t.assigneeId == b.assigneeId)
            && (t.startDate.Some? <==> Truthy(b.startDate)) && (t.dueDate.Some? <==> Truthy(b.dueDate))
            && t.priority == (if Truthy(b.priority) then b.priority.value else "MEDIUM")
            && t.status == (if Truthy(b.status) then b.status.value else "TODO")
            && HasAccess(FindProject(s, t.projectId).value, callerId)
  {
  }
}
