/** The checks `createProject` runs on a request (`validateProjectData`,
    `validateProjectManagers`) and the client clean-up of `deleteProject`.
    The users and clients stored in the database are passed in as sets. */
module ProjectRules {
  import opened Wrappers
  import opened TaskModel
  import opened Team

  // ---------------------------------------------------------------------
  // validateProjectData

  /** The fields of a project request the check reads. `teamMembers` holds
      each listed member's user id, `""` where it is absent. */
  datatype ProjectData = ProjectData(
    handoverDate: Option<Instant>,
    startDate: Option<Instant>,
    capacity: Option<int>,
    teamMembers: seq<UserId>)

  datatype ProjectDataError = HandoverNotAfterStart | CapacityOutOfRange | InvalidTeamMember

  /** The text `createProject` joins into its validation error. */
  function Message(e: ProjectDataError): string {
    match e
    case HandoverNotAfterStart => "Handover date must be after start date"
    case CapacityOutOfRange => "Capacity must be between 0 and 100,000"
    case InvalidTeamMember => "Invalid team member ID"
  }

  /** The order the errors are pushed in. */
  function Rank(e: ProjectDataError): nat {
    match e
    case HandoverNotAfterStart => 0
    case CapacityOutOfRange => 1
    case InvalidTeamMember => 2
  }

  predicate HandoverTooEarly(data: ProjectData) {
    data.handoverDate.Some? && data.startDate.Some? &&
    Timestamp(data.handoverDate.value) <= Timestamp(data.startDate.value)
  }

  /** A capacity of 0 is falsy and skips the check, but it is in range
      anyway. */
  predicate CapacityInvalid(capacity: Option<int>) {
    capacity.Some? && capacity.value != 0 && (capacity.value < 0 || capacity.value > 100000)
  }

  /** `validateTeamMember`: an absent id passes, a present one must exist. */
  predicate MemberKnown(user: UserId, users: set<UserId>) {
    user == "" || user in users
  }

  /** Every error whose condition holds, in the order they are checked. */
  function ProjectDataErrors(data: ProjectData, users: set<UserId>): (errors: seq<ProjectDataError>)
    ensures HandoverNotAfterStart in errors <==> HandoverTooEarly(data)
    ensures CapacityOutOfRange in errors <==> CapacityInvalid(data.capacity)
    ensures InvalidTeamMember in errors <==>
      exists i :: 0 <= i < |data.teamMembers| && !MemberKnown(data.teamMembers[i], users)
    ensures forall i, j :: 0 <= i < j < |errors| ==> Rank(errors[i]) < Rank(errors[j])
  {
    (if HandoverTooEarly(data) then [HandoverNotAfterStart] else []) +
    (if CapacityInvalid(data.capacity) then [CapacityOutOfRange] else []) +
    (if exists i :: 0 <= i < |data.teamMembers| && !MemberKnown(data.teamMembers[i], users)
     then [InvalidTeamMember] else [])
  }

  /** The errors never repeat, and a capacity of 0 is always accepted. */
  lemma ProjectDataErrorsShape(data: ProjectData, users: set<UserId>)
    ensures NoDuplicates(ProjectDataErrors(data, users))
    ensures |ProjectDataErrors(data, users)| <= 3
    ensures data.capacity == Some(0) ==> CapacityOutOfRange !in ProjectDataErrors(data, users)
  {
    var errors := ProjectDataErrors(data, users);
    forall i, j | 0 <= i < j < |errors| ensures errors[i] != errors[j] {
      assert Rank(errors[i]) < Rank(errors[j]);
    }
  }

  /** `validateProjectData(data)`: the error list, accumulated rather than
      stopping at the first. */
  method ValidateProjectData(data: ProjectData, users: set<UserId>) returns (errors: seq<ProjectDataError>)
    ensures errors == ProjectDataErrors(data, users)
  {
    errors := [];
    if data.handoverDate.Some? && data.startDate.Some? &&
       Timestamp(data.handoverDate.value) <= Timestamp(data.startDate.value) {
      errors := errors + [HandoverNotAfterStart];
    }
    if data.capacity.Some? && data.capacity.value != 0 && (data.capacity.value < 0 || data.capacity.value > 100000) {
      errors := errors + [CapacityOutOfRange];
    }
    var allKnown := true;
    var i := 0;
    while i < |data.teamMembers|
      invariant 0 <= i <= |data.teamMembers|
      invariant allKnown <==> forall k :: 0 <= k < i ==> MemberKnown(data.teamMembers[k], users)
    {
      if !(data.teamMembers[i] == "" || data.teamMembers[i] in users) {
        allKnown := false;
      }
      i := i + 1;
    }
    if !allKnown {
      errors := errors + [InvalidTeamMember];
    }
  }

  // ---------------------------------------------------------------------
  // validateProjectManagers

  datatype ManagerError = InvalidPrimaryManager | SameManagers

  /** `teamMembers.find(m => m.role === role)?.user || null`: the user of the
      first member with that role, if it is not empty. */
  function FirstUserWithRole(members: seq<TeamMember>, role: TeamRole): (r: Option<UserId>)
    ensures r.Some? ==> r.value != "" && TeamMember(role, r.value) in members
    ensures (forall i :: 0 <= i < |members| ==> members[i].role != role) ==> r.None?
    decreases |members|
  {
    if members == [] then None
    else if members[0].role == role then (if members[0].user != "" then Some(members[0].user) else None)
    else FirstUserWithRole(members[1..], role)
  }

  /** `validPMIds`: those of the two named managers whose id is well formed
      and belongs to a stored user. */
  function ValidManagerIds(primary: Option<UserId>, secondary: Option<UserId>, users: set<UserId>): (ids: set<UserId>)
    ensures forall u :: u in ids <==> (primary == Some(u) || secondary == Some(u)) && IsObjectId(u) && u in users
  {
    (if primary.Some? && IsObjectId(primary.value) && primary.value in users then {primary.value} else {}) +
    (if secondary.Some? && IsObjectId(secondary.value) && secondary.value in users then {secondary.value} else {})
  }

  /** The members whose user is in `ids`, in order. */
  function KeepUsers(members: seq<TeamMember>, ids: set<UserId>): (r: seq<TeamMember>)
    ensures |r| <= |members|
    ensures forall m :: m in r <==> m in members && m.user in ids
    decreases |members|
  {
    if members == [] then []
    else (if members[0].user in ids then [members[0]] else []) + KeepUsers(members[1..], ids)
  }

  /** Concatenation regroups freely; stated over any element type so that
      the regrouping does not compare the elements themselves. */
  lemma Associative<T>(p: seq<T>, q: seq<T>, r: seq<T>)
    ensures p + (q + r) == (p + q) + r
  {
  }

  /** One step of `KeepUsers`: the first element, kept or not, then the rest. */
  lemma KeepUsersCons(x: TeamMember, rest: seq<TeamMember>, ids: set<UserId>)
    ensures KeepUsers([x] + rest, ids) == (if x.user in ids then [x] else []) + KeepUsers(rest, ids)
  {
    assert ([x] + rest)[0] == x;
    assert ([x] + rest)[1..] == rest;
  }

  /** `KeepUsers` is the order-keeping filter: it distributes over
      concatenation, and a single member is kept exactly when its user is in
      `ids`. Together these fix the result for every list. */
  lemma {:induction false} KeepUsersAppend(a: seq<TeamMember>, b: seq<TeamMember>, ids: set<UserId>)
    ensures KeepUsers(a + b, ids) == KeepUsers(a, ids) + KeepUsers(b, ids)
    ensures |a| == 1 ==> KeepUsers(a, ids) == (if a[0].user in ids then a else [])
    decreases |a|
  {
    if a != [] {
      var x, t := a[0], a[1..];
      assert a == [x] + t;
      Associative([x], t, b);
      KeepUsersCons(x, t + b, ids);
      KeepUsersCons(x, t, ids);
      KeepUsersAppend(t, b, ids);
      Associative(if x.user in ids then [x] else [], KeepUsers(t, ids), KeepUsers(b, ids));
      if |a| == 1 {
        assert t == [];
      }
    } else {
      assert a + b == b;
    }
  }

  /** The primary manager named by the request is well formed and stored. */
  predicate PrimaryAccepted(members: seq<TeamMember>, users: set<UserId>) {
    var p := FirstUserWithRole(members, PrimaryProjectManager);
    p.Some? && IsObjectId(p.value) && p.value in users
  }

  /** `validateProjectManagers(teamMembers)`: fails on a missing or unknown
      primary manager, then on a primary equal to the surviving secondary;
      otherwise keeps only the members who are one of the two valid
      managers. */
  function ValidateProjectManagers(members: seq<TeamMember>, users: set<UserId>): (r: Result<seq<TeamMember>, ManagerError>)
    ensures r == Err(InvalidPrimaryManager) <==> !PrimaryAccepted(members, users)
    ensures r == Err(SameManagers) <==>
      (PrimaryAccepted(members, users) &&
       FirstUserWithRole(members, SecondaryProjectManager) == FirstUserWithRole(members, PrimaryProjectManager))
    ensures r.Ok? ==> forall m :: m in r.value <==>
      (m in members && m.user in ValidManagerIds(FirstUserWithRole(members, PrimaryProjectManager),
                                                 FirstUserWithRole(members, SecondaryProjectManager), users))
  {
    var primary := FirstUserWithRole(members, PrimaryProjectManager);
    var secondary := FirstUserWithRole(members, SecondaryProjectManager);
    var ids := ValidManagerIds(primary, secondary, users);
    if primary.None? || primary.value !in ids then Err(InvalidPrimaryManager)
    else
      var finalSecondary := if secondary.Some? && secondary.value in ids then secondary else None;
      if primary == finalSecondary then Err(SameManagers)
      else Ok(KeepUsers(members, ids))
  }

  /** An invalid or unknown secondary manager does not fail the check; it is
      dropped with every other member who is not the primary. */
  lemma InvalidSecondaryIsDropped(members: seq<TeamMember>, users: set<UserId>)
    requires PrimaryAccepted(members, users)
    requires var s := FirstUserWithRole(members, SecondaryProjectManager);
      s.Some? && (!IsObjectId(s.value) || s.value !in users)
    ensures ValidateProjectManagers(members, users).Ok?
    ensures forall m :: m in ValidateProjectManagers(members, users).value <==>
      m in members && Some(m.user) == FirstUserWithRole(members, PrimaryProjectManager)
  {
  }

  /** On success the primary manager's entry survives, and so does every
      entry of the valid secondary: the result names its managers again. */
  lemma AcceptedTeamKeepsManagers(members: seq<TeamMember>, users: set<UserId>)
    requires ValidateProjectManagers(members, users).Ok?
    ensures var p := FirstUserWithRole(members, PrimaryProjectManager);
      p.Some? && TeamMember(PrimaryProjectManager, p.value) in ValidateProjectManagers(members, users).value
    ensures var s := FirstUserWithRole(members, SecondaryProjectManager);
      s.Some? && IsObjectId(s.value) && s.value in users ==>
        TeamMember(SecondaryProjectManager, s.value) in ValidateProjectManagers(members, users).value
  {
  }

  // ---------------------------------------------------------------------
  // deleteProject

  type ClientId = string

  /** Some other project lists the client. */
  predicate ReferencedElsewhere(c: ClientId, otherProjects: seq<seq<ClientId>>) {
    exists k :: 0 <= k < |otherProjects| && c in otherProjects[k]
  }

  /** `clientsToDelete`: the project's clients that no other project lists,
      in their order. */
  function ClientsToDelete(clients: seq<ClientId>, otherProjects: seq<seq<ClientId>>): (r: seq<ClientId>)
    ensures |r| <= |clients|
    ensures forall c :: c in r <==> c in clients && !ReferencedElsewhere(c, otherProjects)
    decreases |clients|
  {
    if clients == [] then []
    else
      var head := if ReferencedElsewhere(clients[0], otherProjects) then [] else [clients[0]];
      head + ClientsToDelete(clients[1..], otherProjects)
  }

  /** One step of `ClientsToDelete`: the first element, kept or not, then the rest. */
  lemma ClientsToDeleteCons(x: ClientId, rest: seq<ClientId>, otherProjects: seq<seq<ClientId>>)
    ensures ClientsToDelete([x] + rest, otherProjects) == (if !ReferencedElsewhere(x, otherProjects) then [x] else []) + ClientsToDelete(rest, otherProjects)
  {
    assert ([x] + rest)[0] == x;
    assert ([x] + rest)[1..] == rest;
  }

  /** `ClientsToDelete` is the order-keeping filter: it distributes over
      concatenation, and a single client is kept exactly when no other
      project lists it. */
  lemma {:induction false} ClientsToDeleteAppend(a: seq<ClientId>, b: seq<ClientId>, otherProjects: seq<seq<ClientId>>)
    ensures ClientsToDelete(a + b, otherProjects) == ClientsToDelete(a, otherProjects) + ClientsToDelete(b, otherProjects)
    ensures |a| == 1 ==> ClientsToDelete(a, otherProjects) == (if ReferencedElsewhere(a[0], otherProjects) then [] else a)
    decreases |a|
  {
    if a != [] {
      var x, t := a[0], a[1..];
      assert a == [x] + t;
      Associative([x], t, b);
      ClientsToDeleteCons(x, t + b, otherProjects);
      ClientsToDeleteCons(x, t, otherProjects);
      ClientsToDeleteAppend(t, b, otherProjects);
      Associative(if !ReferencedElsewhere(x, otherProjects) then [x] else [], ClientsToDelete(t, otherProjects), ClientsToDelete(b, otherProjects));
      if |a| == 1 {
        assert t == [];
      }
    } else {
      assert a + b == b;
    }
  }

  /** Deleting a project leaves every other project all of its clients. */
  lemma OtherProjectsKeepClients(clients: seq<ClientId>, otherProjects: seq<seq<ClientId>>, k: int, c: ClientId)
    requires 0 <= k < |otherProjects| && c in otherProjects[k]
    ensures c !in ClientsToDelete(clients, otherProjects)
  {
  }
}
