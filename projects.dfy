/** A project's status aggregation (`analyzeProjectStages`,
    `determineProjectStatus`, `updateProjectStatus`), its stage counters
    (`getProjectById`) and the technician part of its team
    (`syncProjectTechnicians`). */
module Projects {
  import opened Wrappers
  import opened TaskModel
  import opened Team

  /** A project stage: its name, the statuses of its tasks in order, and the
      two counters stored with it. */
  datatype Stage = Stage(name: StageName, statuses: seq<TaskStatus>, totalTasks: int, completedTasks: int)

  /** The three facts `analyzeProjectStages` returns. */
  datatype Analysis = Analysis(hasWIPTask: bool, hasPendingTasksInOtherStages: bool, totalTasksCount: nat)

  // ---------------------------------------------------------------------
  // Status aggregation

  /** Some task of the stage is `On-going`. */
  predicate StageHasWip(st: Stage) {
    OnGoing in st.statuses
  }

  /** The stage is not the Maintenance stage and some task of it is `To-do`
      or `On-going`; a `Delayed` task does not count. */
  predicate StageHasPending(st: Stage) {
    st.name != MaintenanceStage && (ToDo in st.statuses || OnGoing in st.statuses)
  }

  /** The number of tasks over all stages. */
  function TaskCount(stages: seq<Stage>): (n: nat)
    ensures n == 0 <==> forall i :: 0 <= i < |stages| ==> stages[i].statuses == []
    decreases |stages|
  {
    if stages == [] then 0
    else TaskCount(stages[..|stages| - 1]) + |stages[|stages| - 1].statuses|
  }

  /** The analysis of the stages, one stage at a time in order. */
  function Analyze(stages: seq<Stage>): (a: Analysis)
    ensures a.hasWIPTask <==> exists i :: 0 <= i < |stages| && StageHasWip(stages[i])
    ensures a.hasPendingTasksInOtherStages <==> exists i :: 0 <= i < |stages| && StageHasPending(stages[i])
    ensures a.totalTasksCount == TaskCount(stages)
    decreases |stages|
  {
    if stages == [] then Analysis(false, false, 0)
    else
      var a := Analyze(stages[..|stages| - 1]);
      var st := stages[|stages| - 1];
      Analysis(
        a.hasWIPTask || StageHasWip(st),
        a.hasPendingTasksInOtherStages || StageHasPending(st),
        a.totalTasksCount + |st.statuses|)
  }

  /** `analyzeProjectStages(stages)`. */
  method AnalyzeProjectStages(stages: seq<Stage>) returns (a: Analysis)
    ensures a == Analyze(stages)
  {
    a := Analysis(false, false, 0);
    var i := 0;
    while i < |stages|
      invariant 0 <= i <= |stages|
      invariant a == Analyze(stages[..i])
    {
      var st := stages[i];
      var isWip := OnGoing in st.statuses;
      var hasPending := ToDo in st.statuses || OnGoing in st.statuses;
      assert stages[..i + 1][..i] == stages[..i];
      a := a.(totalTasksCount := a.totalTasksCount + |st.statuses|);
      if st.name != MaintenanceStage && hasPending {
        a := a.(hasPendingTasksInOtherStages := true);
      }
      if isWip {
        a := a.(hasWIPTask := true);
      }
      i := i + 1;
    }
    assert stages[..i] == stages;
  }

  /** `determineProjectStatus`: its rules in order, and never `Archive`. */
  function DetermineProjectStatus(a: Analysis): (s: ProjectStatus)
    ensures s != Archive
    ensures a.totalTasksCount == 0 ==> s == ToStart
    ensures a.totalTasksCount > 0 ==>
      (s == Maintenance <==> !a.hasPendingTasksInOtherStages && !a.hasWIPTask)
    ensures a.totalTasksCount > 0 ==> (s == ProjectOnGoing <==> a.hasWIPTask)
  {
    if a.totalTasksCount == 0 then ToStart
    else if !a.hasPendingTasksInOtherStages && !a.hasWIPTask then Maintenance
    else if a.hasWIPTask then ProjectOnGoing
    else ToStart
  }

  /** The status a project with these stages gets. */
  function ProjectStatusOf(stages: seq<Stage>): ProjectStatus {
    DetermineProjectStatus(Analyze(stages))
  }

  /** Some task of some stage has status `s`. */
  predicate AnyTask(stages: seq<Stage>, s: TaskStatus) {
    exists i :: 0 <= i < |stages| && s in stages[i].statuses
  }

  /** A project is in maintenance exactly when it has tasks, none of them is
      `On-going` and none outside the Maintenance stage is `To-do`. */
  lemma MaintenanceExactly(stages: seq<Stage>)
    ensures ProjectStatusOf(stages) == Maintenance <==>
      && TaskCount(stages) > 0
      && !AnyTask(stages, OnGoing)
      && (forall i :: 0 <= i < |stages| && stages[i].name != MaintenanceStage ==> ToDo !in stages[i].statuses)
  {
    var a := Analyze(stages);
    if a.hasPendingTasksInOtherStages {
      var i :| 0 <= i < |stages| && StageHasPending(stages[i]);
      assert stages[i].name != MaintenanceStage;
    }
    if AnyTask(stages, OnGoing) {
      var i :| 0 <= i < |stages| && OnGoing in stages[i].statuses;
      assert StageHasWip(stages[i]);
    }
  }

  /** A project whose tasks are all `Delayed`, `To-review` or `Completed`
      is in maintenance: a delayed task is neither pending nor in progress. */
  lemma SettledProjectIsInMaintenance(stages: seq<Stage>)
    requires TaskCount(stages) > 0
    requires forall i, j :: 0 <= i < |stages| && 0 <= j < |stages[i].statuses| ==>
      stages[i].statuses[j] in {Delayed, ToReview, Completed}
    ensures ProjectStatusOf(stages) == Maintenance
  {
    MaintenanceExactly(stages);
    forall i | 0 <= i < |stages|
      ensures OnGoing !in stages[i].statuses
      ensures stages[i].name != MaintenanceStage ==> ToDo !in stages[i].statuses
    {
    }
  }

  /** Any `On-going` task makes the project `On-going`. */
  lemma OnGoingTaskMakesProjectOnGoing(stages: seq<Stage>, i: int)
    requires 0 <= i < |stages| && OnGoing in stages[i].statuses
    ensures ProjectStatusOf(stages) == ProjectOnGoing
  {
    assert StageHasWip(stages[i]);
    var a := Analyze(stages);
    assert stages[i].statuses != [];
    assert a.totalTasksCount > 0;
  }

  // ---------------------------------------------------------------------
  // Stage counters

  /** The number of `Completed` statuses. */
  function CountCompleted(statuses: seq<TaskStatus>): (n: nat)
    ensures n <= |statuses|
    ensures n == |statuses| <==> forall j :: 0 <= j < |statuses| ==> statuses[j] == Completed
    ensures n == 0 <==> Completed !in statuses
    decreases |statuses|
  {
    if statuses == [] then 0
    else CountCompleted(statuses[1..]) + (if statuses[0] == Completed then 1 else 0)
  }

  /** A stage with its counters set from its task list. */
  function Counted(st: Stage): (r: Stage)
    ensures r.name == st.name && r.statuses == st.statuses
    ensures r.totalTasks == |st.statuses| && r.completedTasks == CountCompleted(st.statuses)
    ensures 0 <= r.completedTasks <= r.totalTasks
  {
    st.(totalTasks := |st.statuses|, completedTasks := CountCompleted(st.statuses))
  }

  /** Setting the counters does not change the project's status. */
  lemma CountingKeepsStatus(stages: seq<Stage>)
    ensures ProjectStatusOf(seq(|stages|, i requires 0 <= i < |stages| => Counted(stages[i]))) == ProjectStatusOf(stages)
  {
    var counted := seq(|stages|, i requires 0 <= i < |stages| => Counted(stages[i]));
    SameTasksSameAnalysis(stages, counted);
  }

  /** The analysis only looks at stage names and task statuses. */
  lemma {:induction false} SameTasksSameAnalysis(a: seq<Stage>, b: seq<Stage>)
    requires |a| == |b|
    requires forall i :: 0 <= i < |a| ==> a[i].name == b[i].name && a[i].statuses == b[i].statuses
    ensures Analyze(a) == Analyze(b)
    decreases |a|
  {
    if a != [] {
      SameTasksSameAnalysis(a[..|a| - 1], b[..|b| - 1]);
    }
  }

  // ---------------------------------------------------------------------
  // Technician sync

  /** The owners recorded on a task. */
  datatype TaskOwners = TaskOwners(primaryOwner: Option<UserId>, secondaryOwner: Option<UserId>)

  /** `Set.add` on an insertion-ordered set. */
  function AddId(ids: seq<UserId>, o: Option<UserId>): seq<UserId> {
    if o.Some? && o.value !in ids then ids + [o.value] else ids
  }

  predicate OwnedBy(owners: seq<TaskOwners>, u: UserId) {
    exists i :: 0 <= i < |owners| && (owners[i].primaryOwner == Some(u) || owners[i].secondaryOwner == Some(u))
  }

  /** The distinct owners of the tasks in first-seen order. */
  function OwnerIds(owners: seq<TaskOwners>): (ids: seq<UserId>)
    ensures NoDuplicates(ids)
    ensures forall u :: u in ids <==> OwnedBy(owners, u)
    decreases |owners|
  {
    if owners == [] then []
    else
      var last := owners[|owners| - 1];
      var prev := OwnerIds(owners[..|owners| - 1]);
      assert forall u :: OwnedBy(owners[..|owners| - 1], u) ==> OwnedBy(owners, u) by {
        forall u | OwnedBy(owners[..|owners| - 1], u) ensures OwnedBy(owners, u) {
          var i :| 0 <= i < |owners| - 1 &&
            (owners[..|owners| - 1][i].primaryOwner == Some(u) || owners[..|owners| - 1][i].secondaryOwner == Some(u));
          assert owners[i] == owners[..|owners| - 1][i];
        }
      }
      assert forall u :: OwnedBy(owners, u) ==>
        OwnedBy(owners[..|owners| - 1], u) || last.primaryOwner == Some(u) || last.secondaryOwner == Some(u) by {
        forall u | OwnedBy(owners, u)
          ensures OwnedBy(owners[..|owners| - 1], u) || last.primaryOwner == Some(u) || last.secondaryOwner == Some(u)
        {
          var i :| 0 <= i < |owners| && (owners[i].primaryOwner == Some(u) || owners[i].secondaryOwner == Some(u));
          if i < |owners| - 1 {
            assert owners[..|owners| - 1][i] == owners[i];
          }
        }
      }
      AddId(AddId(prev, last.primaryOwner), last.secondaryOwner)
  }

  /** The first `filter`: the members that are not technicians, in order. */
  function NonTechnicians(team: seq<TeamMember>): seq<TeamMember>
    decreases |team|
  {
    if team == [] then []
    else (if team[0].role != Technician then [team[0]] else []) + NonTechnicians(team[1..])
  }

  /** The members kept are exactly the non-technicians of the team. */
  lemma {:induction false} NonTechniciansMembers(team: seq<TeamMember>, m: TeamMember)
    ensures m in NonTechnicians(team) <==> m in team && m.role != Technician
    decreases |team|
  {
    if team != [] {
      NonTechniciansMembers(team[1..], m);
      assert team == [team[0]] + team[1..];
    }
  }

  /** The users of the technician entries, in order. */
  function TechnicianUsers(team: seq<TeamMember>): seq<UserId>
    decreases |team|
  {
    if team == [] then []
    else (if team[0].role == Technician then [team[0].user] else []) + TechnicianUsers(team[1..])
  }

  function TechnicianEntries(ids: seq<UserId>): (r: seq<TeamMember>)
    ensures |r| == |ids| && forall i :: 0 <= i < |ids| ==> r[i] == TeamMember(Technician, ids[i])
  {
    seq(|ids|, i requires 0 <= i < |ids| => TeamMember(Technician, ids[i]))
  }

  /** The second `filter`: the first entry of each technician user is kept,
      later ones are dropped, other members pass. */
  function DedupFrom(team: seq<TeamMember>, seen: set<UserId>): seq<TeamMember>
    decreases |team|
  {
    if team == [] then []
    else if team[0].role == Technician && team[0].user in seen then DedupFrom(team[1..], seen)
    else [team[0]] + DedupFrom(team[1..], if team[0].role == Technician then seen + {team[0].user} else seen)
  }

  /** The team `syncProjectTechnicians` stores. */
  function SyncedTeam(team: seq<TeamMember>, owners: seq<TaskOwners>): seq<TeamMember> {
    DedupFrom(NonTechnicians(team) + TechnicianEntries(OwnerIds(owners)), {})
  }

  lemma {:induction false} NonTechniciansConcat(a: seq<TeamMember>, b: seq<TeamMember>)
    ensures NonTechnicians(a + b) == NonTechnicians(a) + NonTechnicians(b)
    decreases |a|
  {
    if a == [] {
      assert a + b == b;
    } else {
      var head := if a[0].role != Technician then [a[0]] else [];
      assert (a + b)[0] == a[0];
      assert (a + b)[1..] == a[1..] + b;
      assert NonTechnicians(a + b) == head + NonTechnicians(a[1..] + b);
      assert NonTechnicians(a) == head + NonTechnicians(a[1..]);
      NonTechniciansConcat(a[1..], b);
    }
  }

  lemma {:induction false} TechnicianUsersConcat(a: seq<TeamMember>, b: seq<TeamMember>)
    ensures TechnicianUsers(a + b) == TechnicianUsers(a) + TechnicianUsers(b)
    decreases |a|
  {
    if a == [] {
      assert a + b == b;
    } else {
      var head := if a[0].role == Technician then [a[0].user] else [];
      assert (a + b)[0] == a[0];
      assert (a + b)[1..] == a[1..] + b;
      assert TechnicianUsers(a + b) == head + TechnicianUsers(a[1..] + b);
      assert TechnicianUsers(a) == head + TechnicianUsers(a[1..]);
      TechnicianUsersConcat(a[1..], b);
    }
  }

  lemma {:induction false} EntriesAreTechnicians(ids: seq<UserId>)
    ensures NonTechnicians(TechnicianEntries(ids)) == []
    ensures TechnicianUsers(TechnicianEntries(ids)) == ids
    decreases |ids|
  {
    if ids != [] {
      assert TechnicianEntries(ids)[1..] == TechnicianEntries(ids[1..]);
      EntriesAreTechnicians(ids[1..]);
    }
  }

  lemma {:induction false} NoTechniciansAmongOthers(team: seq<TeamMember>)
    ensures TechnicianUsers(NonTechnicians(team)) == []
    decreases |team|
  {
    if team != [] {
      NoTechniciansAmongOthers(team[1..]);
      TechnicianUsersConcat(if team[0].role != Technician then [team[0]] else [], NonTechnicians(team[1..]));
    }
  }

  /** The dedup filter keeps everything when technician users are distinct
      and not yet seen. */
  lemma {:induction false} DedupKeepsDistinct(team: seq<TeamMember>, seen: set<UserId>)
    requires NoDuplicates(TechnicianUsers(team))
    requires forall u :: u in TechnicianUsers(team) ==> u !in seen
    ensures DedupFrom(team, seen) == team
    decreases |team|
  {
    if team != [] {
      var rest := TechnicianUsers(team[1..]);
      assert TechnicianUsers(team) == (if team[0].role == Technician then [team[0].user] else []) + rest;
      var seen' := if team[0].role == Technician then seen + {team[0].user} else seen;
      forall u | u in rest ensures u !in seen' {
        if team[0].role == Technician {
          var k :| 0 <= k < |rest| && rest[k] == u;
          assert TechnicianUsers(team)[k + 1] == u && TechnicianUsers(team)[0] == team[0].user;
        }
      }
      assert NoDuplicates(rest) by {
        var pre := if team[0].role == Technician then [team[0].user] else [];
        forall i, j | 0 <= i < j < |rest| ensures rest[i] != rest[j] {
          assert TechnicianUsers(team)[|pre| + i] == rest[i];
          assert TechnicianUsers(team)[|pre| + j] == rest[j];
        }
      }
      DedupKeepsDistinct(team[1..], seen');
    }
  }

  /** The dedup filter changes nothing: the owners are already distinct and
      the old technicians were removed first. */
  lemma SyncedTeamIsConcat(team: seq<TeamMember>, owners: seq<TaskOwners>)
    ensures SyncedTeam(team, owners) == NonTechnicians(team) + TechnicianEntries(OwnerIds(owners))
  {
    var ids := OwnerIds(owners);
    var joined := NonTechnicians(team) + TechnicianEntries(ids);
    TechnicianUsersConcat(NonTechnicians(team), TechnicianEntries(ids));
    NoTechniciansAmongOthers(team);
    EntriesAreTechnicians(ids);
    assert TechnicianUsers(joined) == ids;
    DedupKeepsDistinct(joined, {});
  }

  /** After the sync the non-technician members are the old ones in their
      old order, and the technicians are exactly the tasks' distinct owners,
      each once. */
  lemma SyncedTeamShape(team: seq<TeamMember>, owners: seq<TaskOwners>)
    ensures NonTechnicians(SyncedTeam(team, owners)) == NonTechnicians(team)
    ensures NoDuplicates(TechnicianUsers(SyncedTeam(team, owners)))
    ensures forall u :: u in TechnicianUsers(SyncedTeam(team, owners)) <==> OwnedBy(owners, u)
  {
    var ids := OwnerIds(owners);
    SyncedTeamIsConcat(team, owners);
    NonTechniciansConcat(NonTechnicians(team), TechnicianEntries(ids));
    NonTechniciansIdempotent(team);
    EntriesAreTechnicians(ids);
    TechnicianUsersConcat(NonTechnicians(team), TechnicianEntries(ids));
    NoTechniciansAmongOthers(team);
    assert NonTechnicians(team) + [] == NonTechnicians(team);
  }

  lemma {:induction false} NonTechniciansIdempotent(team: seq<TeamMember>)
    ensures NonTechnicians(NonTechnicians(team)) == NonTechnicians(team)
    decreases |team|
  {
    if team != [] {
      var head := if team[0].role != Technician then [team[0]] else [];
      NonTechniciansConcat(head, NonTechnicians(team[1..]));
      NonTechniciansIdempotent(team[1..]);
      assert NonTechnicians(head) == head;
    }
  }

  /** The first loop of `syncProjectTechnicians`: the owners' ids gathered
      into an insertion-ordered set. */
  method CollectOwnerIds(owners: seq<TaskOwners>) returns (technicianIds: seq<UserId>)
    ensures technicianIds == OwnerIds(owners)
  {
    technicianIds := [];
    var i := 0;
    while i < |owners|
      invariant 0 <= i <= |owners|
      invariant technicianIds == OwnerIds(owners[..i])
    {
      assert owners[..i + 1][..i] == owners[..i];
      var task := owners[i];
      if task.primaryOwner.Some? && task.primaryOwner.value !in technicianIds {
        technicianIds := technicianIds + [task.primaryOwner.value];
      }
      if task.secondaryOwner.Some? && task.secondaryOwner.value !in technicianIds {
        technicianIds := technicianIds + [task.secondaryOwner.value];
      }
      i := i + 1;
    }
    assert owners[..i] == owners;
  }

  /** The second loop: one technician entry pushed per id. */
  method AppendTechnicians(others: seq<TeamMember>, technicianIds: seq<UserId>) returns (newTeamMembers: seq<TeamMember>)
    ensures newTeamMembers == others + TechnicianEntries(technicianIds)
  {
    newTeamMembers := others;
    var j := 0;
    while j < |technicianIds|
      invariant 0 <= j <= |technicianIds|
      invariant newTeamMembers == others + TechnicianEntries(technicianIds[..j])
    {
      assert TechnicianEntries(technicianIds[..j + 1]) == TechnicianEntries(technicianIds[..j]) + [TeamMember(Technician, technicianIds[j])];
      newTeamMembers := newTeamMembers + [TeamMember(Technician, technicianIds[j])];
      j := j + 1;
    }
    assert technicianIds[..j] == technicianIds;
  }

  /** The final `filter` with its `seen` set. */
  method DropRepeatedTechnicians(newTeamMembers: seq<TeamMember>) returns (kept: seq<TeamMember>)
    ensures kept == DedupFrom(newTeamMembers, {})
  {
    var seenTechnicians: set<UserId> := {};
    kept := [];
    var k := 0;
    while k < |newTeamMembers|
      invariant 0 <= k <= |newTeamMembers|
      invariant kept + DedupFrom(newTeamMembers[k..], seenTechnicians) == DedupFrom(newTeamMembers, {})
    {
      var member := newTeamMembers[k];
      ghost var rest := newTeamMembers[k..];
      assert rest[0] == member && rest[1..] == newTeamMembers[k + 1..];
      if member.role == Technician {
        if member.user !in seenTechnicians {
          assert DedupFrom(rest, seenTechnicians) == [member] + DedupFrom(rest[1..], seenTechnicians + {member.user});
          seenTechnicians := seenTechnicians + {member.user};
          kept := kept + [member];
        } else {
          assert DedupFrom(rest, seenTechnicians) == DedupFrom(rest[1..], seenTechnicians);
        }
      } else {
        assert DedupFrom(rest, seenTechnicians) == [member] + DedupFrom(rest[1..], seenTechnicians);
        kept := kept + [member];
      }
      k := k + 1;
    }
    assert newTeamMembers[k..] == [];
  }

  // ---------------------------------------------------------------------
  // The stored project

  class Project {
    var status: ProjectStatus
    var stages: seq<Stage>
    var teamMembers: seq<TeamMember>

    /** A new project is `To-start` (the schema default). */
    constructor (stages: seq<Stage>, teamMembers: seq<TeamMember>)
      ensures status == ToStart && this.stages == stages && this.teamMembers == teamMembers
    {
      status := ToStart;
      this.stages := stages;
      this.teamMembers := teamMembers;
    }

    /** `updateProjectStatus(project)`: the computed status is always written,
        even over `Archive`; `notify` says whether the maintenance mail goes
        out. */
    method UpdateStatus() returns (notify: bool)
      modifies this
      ensures status == ProjectStatusOf(old(stages)) && status != Archive
      ensures stages == old(stages) && teamMembers == old(teamMembers)
      ensures notify <==> status == Maintenance && old(status) != Maintenance
    {
      var originalStatus := status;
      var analysis := AnalyzeProjectStages(stages);
      var newStatus := DetermineProjectStatus(analysis);
      status := newStatus;
      notify := newStatus == Maintenance && originalStatus != newStatus;
    }

    /** The team-member merge of `updateProject` for a request that carries
        `teamMembers`, as the code has it: old managers are removed even
        when the request gives them a new role (`Team.ManagerSwap`). */
    method UpdateTeamMembers(request: seq<TeamMember>)
      modifies this
      ensures teamMembers == MergeTeamAsWritten(old(teamMembers), request)
      ensures status == old(status) && stages == old(stages)
    {
      var current := BuildTeamMap(teamMembers);
      var existingPrimary, existingSecondary := FindManagerKeys(current);
      var newPrimary, newSecondary, hasSecondary;
      current, newPrimary, newSecondary, hasSecondary := ApplyRequestMembers(current, request);
      current := RemoveOldManagers(current, existingPrimary, existingSecondary, newPrimary, newSecondary, hasSecondary);
      teamMembers := current;
    }

    /** The counter loop of `getProjectById`. */
    method RefreshStageCounts()
      modifies this
      ensures |stages| == |old(stages)|
      ensures forall i :: 0 <= i < |stages| ==> stages[i] == Counted(old(stages)[i])
      ensures status == old(status) && teamMembers == old(teamMembers)
    {
      var i := 0;
      while i < |stages|
        invariant 0 <= i <= |stages| == |old(stages)|
        invariant forall k :: 0 <= k < i ==> stages[k] == Counted(old(stages)[k])
        invariant forall k :: i <= k < |stages| ==> stages[k] == old(stages)[k]
        invariant status == old(status) && teamMembers == old(teamMembers)
      {
        var st := stages[i];
        st := st.(totalTasks := |st.statuses|);
        st := st.(completedTasks := CountCompleted(st.statuses));
        stages := stages[i := st];
        i := i + 1;
      }
    }

    /** `syncProjectTechnicians` for a project whose tasks have these
        owners. */
    method SyncTechnicians(owners: seq<TaskOwners>)
      modifies this
      ensures teamMembers == SyncedTeam(old(teamMembers), owners)
      ensures status == old(status) && stages == old(stages)
    {
      var technicianIds := CollectOwnerIds(owners);
      var newTeamMembers := AppendTechnicians(NonTechnicians(teamMembers), technicianIds);
      var kept := DropRepeatedTechnicians(newTeamMembers);
      teamMembers := kept;
    }
  }
}
