/** The role-permission table and the guards of the authentication
    middleware: `validateAction`, `restrictTo` and the bearer-token step of
    `protect`. Token verification and the user lookup are passed in. */
module Auth {
  import opened Strings
  import opened Wrappers

  /** The roles a user record can hold. */
  datatype Role = Admin | User | OperationsManager | ProjectManager | Technician

  function RoleName(r: Role): string {
    match r
    case Admin => "Admin"
    case User => "User"
    case OperationsManager => "Operations Manager"
    case ProjectManager => "ProjectManager"
    case Technician => "Technician"
  }

  /** Every action name the permission table mentions. */
  datatype Action =
    | CreateProject | ViewAllProjects | SearchTasksAndProjects | ProjectDetails | ProjectHistory
    | UpdateProject | DeleteProject | DeleteClient | UpdateClient | AddClient | CreateTask
    | ViewAllTasks | ViewProjectTasks | UpdateTaskTime | UpdateManHours | UpdateDistance
    | UploadPhotos | DeletePhotos | SubmitForReview | MarkAsDone | AssignTask
    | CreateTaskOnSchedule | ViewTaskDetails | DeleteTask | AddProduct | AddForm | FormImage
    | ServiceReport

  function ActionName(a: Action): string {
    match a
    case CreateProject => "createProject"
    case ViewAllProjects => "viewAllProjects"
    case SearchTasksAndProjects => "searchTasksAndProjects"
    case ProjectDetails => "projectDetails"
    case ProjectHistory => "projectHistory"
    case UpdateProject => "updateProject"
    case DeleteProject => "deleteProject"
    case DeleteClient => "deleteClient"
    case UpdateClient => "updateClient"
    case AddClient => "addClient"
    case CreateTask => "createTask"
    case ViewAllTasks => "viewAllTasks"
    case ViewProjectTasks => "viewProjectTasks"
    case UpdateTaskTime => "updateTaskTime"
    case UpdateManHours => "updateManHours"
    case UpdateDistance => "updateDistance"
    case UploadPhotos => "uploadPhotos"
    case DeletePhotos => "deletePhotos"
    case SubmitForReview => "submitForReview"
    case MarkAsDone => "markAsDone"
    case AssignTask => "assignTask"
    case CreateTaskOnSchedule => "createTaskOnSchedule"
    case ViewTaskDetails => "viewTaskDetails"
    case DeleteTask => "deleteTask"
    case AddProduct => "addProduct"
    case AddForm => "addForm"
    case FormImage => "FormImage"
    case ServiceReport => "serviceReport"
  }

  const AdminActions: set<Action> := {
    CreateProject, ViewAllProjects, SearchTasksAndProjects, ProjectDetails, ProjectHistory,
    UpdateProject, DeleteProject, DeleteClient, UpdateClient, AddClient, CreateTask,
    ViewAllTasks, ViewProjectTasks, UpdateTaskTime, UpdateManHours, UpdateDistance,
    UploadPhotos, DeletePhotos, SubmitForReview, MarkAsDone, AssignTask,
    CreateTaskOnSchedule, ViewTaskDetails, DeleteTask, AddProduct, AddForm, FormImage,
    ServiceReport}

  const ProjectManagerActions: set<Action> := {
    CreateProject, ViewAllProjects, UpdateProject, ProjectDetails, SearchTasksAndProjects,
    ProjectHistory, DeleteClient, UpdateClient, AddClient, CreateTask, ViewAllTasks,
    ViewProjectTasks, UpdateTaskTime, UpdateManHours, UpdateDistance, UploadPhotos,
    DeletePhotos, SubmitForReview, MarkAsDone, AssignTask, CreateTaskOnSchedule,
    ViewTaskDetails, DeleteTask, FormImage, ServiceReport}

  const TechnicianActions: set<Action> := {
    ProjectDetails, ViewAllTasks, SearchTasksAndProjects, UpdateDistance, UploadPhotos,
    DeletePhotos, SubmitForReview, ViewTaskDetails, FormImage, ServiceReport}

  /** `ROLE_PERMISSIONS`; `includes` only asks for membership, so each
      role's list is a set. */
  function RolePermissions(role: Role): Option<set<Action>> {
    match role
    case Admin => Some(AdminActions)
    case ProjectManager => Some(ProjectManagerActions)
    case Technician => Some(TechnicianActions)
    case _ => None
  }

  /** `ROLE_PERMISSIONS[role]?.includes(name)`: a role without an entry
      grants nothing. */
  predicate Permits(role: Role, name: string) {
    RolePermissions(role).Some? && exists a :: a in RolePermissions(role).value && ActionName(a) == name
  }

  /** The table lists the action for the role. */
  predicate Grants(role: Role, a: Action) {
    RolePermissions(role).Some? && a in RolePermissions(role).value
  }

  /** `Object.values(ROLE_PERMISSIONS).flat().includes(name)`. */
  predicate KnownAction(name: string) {
    exists role :: Permits(role, name)
  }

  function InvalidActionMessage(name: string): string {
    "Invalid action: " + name + ". Make sure it's defined in ROLE_PERMISSIONS."
  }

  /** `validateAction(name)`: throws for a name no role lists. */
  function ValidateAction(name: string): (r: Result<(), string>)
    ensures r.Ok? <==> exists role :: Permits(role, name)
    ensures r.Err? ==> r.error == InvalidActionMessage(name)
  {
    if KnownAction(name) then Ok(()) else Err(InvalidActionMessage(name))
  }

  /** How a request leaves a guard. */
  datatype Verdict = Next | Denied(status: nat, message: string)

  const Unauthorized: nat := 401
  const Forbidden: nat := 403
  const NotFound: nat := 404

  function AccessDeniedMessage(role: Role, name: string): string {
    "Access denied. The " + RoleName(role) + " role cannot perform the " + name + " action."
  }

  /** `restrictTo(name)`: fails when the guard is built for an unknown
      action; the guard it returns then lets a request through exactly when
      the user's role permits the action. */
  function RestrictTo(name: string): (r: Result<Role -> Verdict, string>)
    ensures r.Err? <==> !KnownAction(name)
    ensures r.Ok? ==> forall role :: (r.value(role) == Next) <==> Permits(role, name)
    ensures r.Ok? ==> forall role :: r.value(role) != Next ==>
      r.value(role) == Denied(Forbidden, AccessDeniedMessage(role, name))
  {
    match ValidateAction(name)
    case Err(e) => Err(e)
    case Ok(_) =>
      Ok((role: Role) => if Permits(role, name) then Next else Denied(Forbidden, AccessDeniedMessage(role, name)))
  }

  /** Technician's actions are all ProjectManager's, and ProjectManager's
      are all Admin's. */
  lemma PermissionsNest(a: Action)
    ensures a in TechnicianActions ==> a in ProjectManagerActions
    ensures a in ProjectManagerActions ==> a in AdminActions
  {
  }

  /** Every action some role holds is Admin's, so `restrictTo` accepts
      exactly the names on Admin's list. */
  lemma KnownActionsAreAdmin(name: string)
    ensures KnownAction(name) <==> Permits(Admin, name)
  {
    if KnownAction(name) {
      var role :| Permits(role, name);
      var a :| a in RolePermissions(role).value && ActionName(a) == name;
      PermissionsNest(a);
    }
  }

  /** A role is granted a listed action's name exactly when its list holds
      the action: no two actions share a name. */
  lemma PermitsByName(role: Role, a: Action)
    ensures Permits(role, ActionName(a)) <==> Grants(role, a)
  {
    if Permits(role, ActionName(a)) {
      var b :| b in RolePermissions(role).value && ActionName(b) == ActionName(a);
      NamesDistinct(a, b);
    }
  }

  /** Distinct actions have distinct names. */
  lemma NamesDistinct(a: Action, b: Action)
    requires ActionName(a) == ActionName(b)
    ensures a == b
  {
    NameGivesKey(a);
    NameGivesKey(b);
    KeyInjective(a, b);
  }

  /** The length, the first letter and the last letter but one of each
      action's name. */
  function Key(a: Action): (int, char, char) {
    match a
    case CreateProject => (13, 'c', 'c')
    case ViewAllProjects => (15, 'v', 't')
    case SearchTasksAndProjects => (22, 's', 't')
    case ProjectDetails => (14, 'p', 'l')
    case ProjectHistory => (14, 'p', 'r')
    case UpdateProject => (13, 'u', 'c')
    case DeleteProject => (13, 'd', 'c')
    case DeleteClient => (12, 'd', 'n')
    case UpdateClient => (12, 'u', 'n')
    case AddClient => (9, 'a', 'n')
    case CreateTask => (10, 'c', 's')
    case ViewAllTasks => (12, 'v', 'k')
    case ViewProjectTasks => (16, 'v', 'k')
    case UpdateTaskTime => (14, 'u', 'm')
    case UpdateManHours => (14, 'u', 'r')
    case UpdateDistance => (14, 'u', 'c')
    case UploadPhotos => (12, 'u', 'o')
    case DeletePhotos => (12, 'd', 'o')
    case SubmitForReview => (15, 's', 'e')
    case MarkAsDone => (10, 'm', 'n')
    case AssignTask => (10, 'a', 's')
    case CreateTaskOnSchedule => (20, 'c', 'l')
    case ViewTaskDetails => (15, 'v', 'l')
    case DeleteTask => (10, 'd', 's')
    case AddProduct => (10, 'a', 'c')
    case AddForm => (7, 'a', 'r')
    case FormImage => (9, 'F', 'g')
    case ServiceReport => (13, 's', 'r')
  }

  /** The key read off the name. */
  lemma NameGivesKey(a: Action)
    ensures var n := ActionName(a); |n| >= 2 && (|n|, n[0], n[|n| - 2]) == Key(a)
  {
    match a
    case CreateProject =>
    case ViewAllProjects =>
    case SearchTasksAndProjects =>
    case ProjectDetails =>
    case ProjectHistory =>
    case UpdateProject =>
    case DeleteProject =>
    case DeleteClient =>
    case UpdateClient =>
    case AddClient =>
    case CreateTask =>
    case ViewAllTasks =>
    case ViewProjectTasks =>
    case UpdateTaskTime =>
    case UpdateManHours =>
    case UpdateDistance =>
    case UploadPhotos =>
    case DeletePhotos =>
    case SubmitForReview =>
    case MarkAsDone =>
    case AssignTask =>
    case CreateTaskOnSchedule =>
    case ViewTaskDetails =>
    case DeleteTask =>
    case AddProduct =>
    case AddForm =>
    case FormImage =>
    case ServiceReport =>
  }

  /** The action a key belongs to. */
  function ActionOfKey(k: (int, char, char)): Option<Action> {
    if k == (13, 'c', 'c') then Some(CreateProject)
    else if k == (15, 'v', 't') then Some(ViewAllProjects)
    else if k == (22, 's', 't') then Some(SearchTasksAndProjects)
    else if k == (14, 'p', 'l') then Some(ProjectDetails)
    else if k == (14, 'p', 'r') then Some(ProjectHistory)
    else if k == (13, 'u', 'c') then Some(UpdateProject)
    else if k == (13, 'd', 'c') then Some(DeleteProject)
    else if k == (12, 'd', 'n') then Some(DeleteClient)
    else if k == (12, 'u', 'n') then Some(UpdateClient)
    else if k == (9, 'a', 'n') then Some(AddClient)
    else if k == (10, 'c', 's') then Some(CreateTask)
    else if k == (12, 'v', 'k') then Some(ViewAllTasks)
    else if k == (16, 'v', 'k') then Some(ViewProjectTasks)
    else if k == (14, 'u', 'm') then Some(UpdateTaskTime)
    else if k == (14, 'u', 'r') then Some(UpdateManHours)
    else if k == (14, 'u', 'c') then Some(UpdateDistance)
    else if k == (12, 'u', 'o') then Some(UploadPhotos)
    else if k == (12, 'd', 'o') then Some(DeletePhotos)
    else if k == (15, 's', 'e') then Some(SubmitForReview)
    else if k == (10, 'm', 'n') then Some(MarkAsDone)
    else if k == (10, 'a', 's') then Some(AssignTask)
    else if k == (20, 'c', 'l') then Some(CreateTaskOnSchedule)
    else if k == (15, 'v', 'l') then Some(ViewTaskDetails)
    else if k == (10, 'd', 's') then Some(DeleteTask)
    else if k == (10, 'a', 'c') then Some(AddProduct)
    else if k == (7, 'a', 'r') then Some(AddForm)
    else if k == (9, 'F', 'g') then Some(FormImage)
    else if k == (13, 's', 'r') then Some(ServiceReport)
    else None
  }

  /** No two actions share a key: the key gives the action back. */
  lemma KeyInjective(a: Action, b: Action)
    requires Key(a) == Key(b)
    ensures a == b
  {
    KeyInverse(a);
    KeyInverse(b);
  }

  lemma KeyInverse(a: Action)
    ensures ActionOfKey(Key(a)) == Some(a)
  {
    match a
    case CreateProject =>
    case ViewAllProjects =>
    case SearchTasksAndProjects =>
    case ProjectDetails =>
    case ProjectHistory =>
    case UpdateProject =>
    case DeleteProject =>
    case DeleteClient =>
    case UpdateClient =>
    case AddClient =>
    case CreateTask =>
    case ViewAllTasks =>
    case ViewProjectTasks =>
    case UpdateTaskTime =>
    case UpdateManHours =>
    case UpdateDistance =>
    case UploadPhotos =>
    case DeletePhotos =>
    case SubmitForReview =>
    case MarkAsDone =>
    case AssignTask =>
    case CreateTaskOnSchedule =>
    case ViewTaskDetails =>
    case DeleteTask =>
    case AddProduct =>
    case AddForm =>
    case FormImage =>
    case ServiceReport =>
  }

  /** The table has exactly three roles; `User` and `Operations Manager` are
      denied everything. */
  lemma TableRoles(role: Role, name: string)
    ensures RolePermissions(role).Some? <==> role == Admin || role == ProjectManager || role == Technician
    ensures !Permits(User, name) && !Permits(OperationsManager, name)
  {
  }

  /** Deleting projects and adding products or forms is for Admin alone. */
  lemma AdminOnlyActions(role: Role)
    ensures Grants(role, DeleteProject) <==> role == Admin
    ensures Grants(role, AddProduct) <==> role == Admin
    ensures Grants(role, AddForm) <==> role == Admin
  {
  }

  /** A Technician submits work for review but cannot approve it or manage
      tasks. */
  lemma TechnicianLimits()
    ensures Grants(Technician, SubmitForReview)
    ensures !Grants(Technician, MarkAsDone) && !Grants(Technician, AssignTask)
    ensures !Grants(Technician, CreateTask) && !Grants(Technician, DeleteTask)
  {
  }

  /** The token of `protect`: the second space-separated word of an
      Authorization header that starts with `Bearer`; `None` when there is no
      such header or the word is missing or empty. */
  function BearerToken(header: Option<string>): (token: Option<string>)
    ensures token.Some? ==> header.Some? && StartsWith(header.value, "Bearer")
    ensures token.Some? ==> token.value != "" && ' ' !in token.value
  {
    if header.None? || header.value == "" || !StartsWith(header.value, "Bearer") then None
    else
      var words := Split(header.value, ' ');
      if |words| < 2 || words[1] == "" then None else Some(words[1])
  }

  /** The word after the first space is the token, whatever follows
      `Bearer` in the first word: `protect` checks only that prefix. */
  lemma {:induction false} BearerTokenOf(w: string, t: string, rest: string)
    requires StartsWith(w, "Bearer") && ' ' !in w
    requires t != "" && ' ' !in t
    ensures BearerToken(Some(w + " " + t)) == Some(t)
    ensures BearerToken(Some(w + " " + t + " " + rest)) == Some(t)
  {
    var h1 := w + " " + t;
    var h2 := w + " " + t + " " + rest;
    assert h1 == w + " " + t + "";
    assert h2 == w + " " + t + (" " + rest);
    SplitWord(w, t, "");
    SplitWord(w, t, " " + rest);
    assert h1[..6] == w[..6];
    assert h2[..6] == w[..6];
  }

  /** A header without a second word, or with two spaces after the scheme,
      has no token. */
  lemma {:induction false} NoBearerToken(w: string)
    requires ' ' !in w
    ensures BearerToken(Some(w)) == None
    ensures StartsWith(w, "Bearer") ==> BearerToken(Some(w + "  x")) == None
  {
    SplitNoSeparator(w, ' ');
    var h := w + "  x";
    assert h == w + ("  x");
    SplitPrefix(w, "  x");
    assert "  x"[1..] == " x";
    assert Split(" x", ' ') == [""] + Split("x", ' ');
    if StartsWith(w, "Bearer") {
      assert h[..6] == w[..6];
    }
  }

  /** Splitting `w + " " + t + tail`, where `tail` is empty or starts with a
      space, gives `w` and `t` as the first two parts. */
  lemma {:induction false} SplitWord(w: string, t: string, tail: string)
    requires ' ' !in w && ' ' !in t
    requires tail == [] || tail[0] == ' '
    ensures var parts := Split(w + " " + t + tail, ' ');
      |parts| >= 2 && parts[0] == w && parts[1] == t
  {
    var s := w + " " + t + tail;
    assert s == w + (" " + t + tail);
    SplitPrefix(w, " " + t + tail);
    assert (" " + t + tail)[1..] == t + tail;
    SplitPrefix(t, tail);
    if tail == [] {
      assert t + tail == t;
    }
  }

  /** A word without the separator followed by `tail`: the first part is the
      word unless `tail` continues it. */
  lemma {:induction false} SplitPrefix(w: string, tail: string)
    requires ' ' !in w
    ensures tail == [] ==> Split(w + tail, ' ') == [w]
    ensures tail != [] && tail[0] == ' ' ==> Split(w + tail, ' ') == [w] + Split(tail[1..], ' ')
    decreases |w|
  {
    if w == [] {
      assert w + tail == tail;
    } else {
      SplitPrefix(w[1..], tail);
      assert (w + tail)[1..] == w[1..] + tail;
      assert [w[0]] + w[1..] == w;
    }
  }

  /** The user record `protect` loads. */
  datatype UserRecord = UserRecord(role: Role, isDeleted: bool)

  /** `protect`: a missing token is 401 before any verification; a token
      that fails verification is 401 too; the lookup skips soft-deleted
      users, so an unknown or deleted user is 404. `verify` stands for
      `jwt.verify` and yields the user id of a good token. */
  function Protect(header: Option<string>, verify: string -> Option<string>, users: map<string, UserRecord>): (r: Result<UserRecord, Verdict>)
    ensures BearerToken(header).None? ==> r == Err(Denied(Unauthorized, "Not authorized, no token"))
    ensures r.Ok? <==>
      (BearerToken(header).Some? && verify(BearerToken(header).value).Some? &&
       verify(BearerToken(header).value).value in users &&
       !users[verify(BearerToken(header).value).value].isDeleted)
    ensures BearerToken(header).Some? && verify(BearerToken(header).value).None? ==>
      r == Err(Denied(Unauthorized, "Not authorized, no token"))
    ensures BearerToken(header).Some? && verify(BearerToken(header).value).Some? ==>
      var id := verify(BearerToken(header).value).value;
      (id !in users || users[id].isDeleted) ==> r == Err(Denied(NotFound, "User not found"))
    ensures r.Ok? ==> !r.value.isDeleted
    ensures r.Ok? ==> r.value == users[verify(BearerToken(header).value).value]
  {
    match BearerToken(header)
    case None => Err(Denied(Unauthorized, "Not authorized, no token"))
    case Some(token) =>
      match verify(token)
      case None => Err(Denied(Unauthorized, "Not authorized, no token"))
      case Some(id) =>
        if id !in users || users[id].isDeleted then Err(Denied(NotFound, "User not found"))
        else Ok(users[id])
  }

  /** The deactivated-account answer is never given: the lookup has already
      excluded soft-deleted users. */
  lemma ProtectNeverReportsDeactivated(header: Option<string>, verify: string -> Option<string>, users: map<string, UserRecord>)
    ensures Protect(header, verify, users).Err? ==>
      Protect(header, verify, users).error.Denied? &&
      Protect(header, verify, users).error.status != Forbidden
  {
  }
}
