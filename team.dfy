/** A project's team: its members, the user-keyed map `updateProject` edits
    them through, and that map merge itself.

    A JavaScript `Map` from user id to member is modelled by the sequence of
    its values in insertion order, each user at most once: `set` on a
    present key replaces the value where it stands, on a new key it
    appends, and `delete` removes the entry. */
module Team {
  import opened Wrappers

  type UserId = string

  /** `teamMembers[].role` of a project. */
  datatype TeamRole = PrimaryProjectManager | SecondaryProjectManager | InstallationManager | MaintenanceManager | Technician

  datatype TeamMember = TeamMember(role: TeamRole, user: UserId)

  predicate IsHexDigit(c: char) {
    '0' <= c <= '9' || 'a' <= c <= 'f' || 'A' <= c <= 'F'
  }

  /** `mongoose.Types.ObjectId.isValid` on a string id: 24 hexadecimal
      digits. */
  predicate IsObjectId(s: string) {
    |s| == 24 && forall i :: 0 <= i < |s| ==> IsHexDigit(s[i])
  }

  /** A present id that JavaScript treats as true. */
  predicate Truthy(key: Option<UserId>) {
    key.Some? && key.value != ""
  }

  // ---------------------------------------------------------------------
  // The map

  /** `map.get(u)?.role`: the role of the first entry for `u`. */
  function Lookup(team: seq<TeamMember>, u: UserId): Option<TeamRole>
    decreases |team|
  {
    if team == [] then None
    else if team[0].user == u then Some(team[0].role)
    else Lookup(team[1..], u)
  }

  /** The keys of the map, in order. */
  function Users(team: seq<TeamMember>): (r: seq<UserId>)
    ensures |r| == |team|
    ensures forall u :: u in r <==> Lookup(team, u).Some?
    decreases |team|
  {
    if team == [] then [] else [team[0].user] + Users(team[1..])
  }

  /** No user has two entries. */
  predicate UniqueKeys(team: seq<TeamMember>)
    decreases |team|
  {
    team == [] || (Lookup(team[1..], team[0].user).None? && UniqueKeys(team[1..]))
  }

  /** A map is exactly a member list without a repeated user. */
  lemma {:induction false} UniqueKeysDistinct(team: seq<TeamMember>)
    ensures UniqueKeys(team) <==> NoDuplicates(Users(team))
    decreases |team|
  {
    if team != [] {
      UniqueKeysDistinct(team[1..]);
      var us := Users(team);
      assert us == [team[0].user] + Users(team[1..]);
      if NoDuplicates(us) {
        assert forall k :: 0 <= k < |Users(team[1..])| ==> Users(team[1..])[k] != team[0].user by {
          forall k | 0 <= k < |Users(team[1..])| ensures Users(team[1..])[k] != team[0].user {
            assert us[k + 1] == Users(team[1..])[k] && us[0] == team[0].user;
          }
        }
        assert NoDuplicates(Users(team[1..])) by {
          forall i, j | 0 <= i < j < |Users(team[1..])| ensures Users(team[1..])[i] != Users(team[1..])[j] {
            assert us[i + 1] == Users(team[1..])[i] && us[j + 1] == Users(team[1..])[j];
          }
        }
      }
    }
  }

  /** `map.set(m.user, m)`. */
  function MapSet(team: seq<TeamMember>, m: TeamMember): (r: seq<TeamMember>)
    ensures forall u :: Lookup(r, u) == if u == m.user then Some(m.role) else Lookup(team, u)
    ensures UniqueKeys(team) ==> UniqueKeys(r)
    decreases |team|
  {
    if team == [] then [m]
    else if team[0].user == m.user then [m] + team[1..]
    else [team[0]] + MapSet(team[1..], m)
  }

  /** `map.delete(k)`. */
  function MapDelete(team: seq<TeamMember>, k: UserId): (r: seq<TeamMember>)
    ensures forall u :: Lookup(r, u) == if u == k then None else Lookup(team, u)
    ensures UniqueKeys(team) ==> UniqueKeys(r)
    decreases |team|
  {
    if team == [] then []
    else if team[0].user == k then MapDelete(team[1..], k)
    else [team[0]] + MapDelete(team[1..], k)
  }

  /** The role of the last member listed for `u`. */
  function LastRole(members: seq<TeamMember>, u: UserId): Option<TeamRole>
    decreases |members|
  {
    if members == [] then None
    else if members[|members| - 1].user == u then Some(members[|members| - 1].role)
    else LastRole(members[..|members| - 1], u)
  }

  /** `new Map(members.map(m => [m.user, m]))`: one entry per user, at its
      first position, holding its last listed role. */
  function FromMembers(members: seq<TeamMember>): (r: seq<TeamMember>)
    ensures UniqueKeys(r)
    ensures forall u :: Lookup(r, u) == LastRole(members, u)
    decreases |members|
  {
    if members == [] then []
    else MapSet(FromMembers(members[..|members| - 1]), members[|members| - 1])
  }

  /** The key of the last entry with `role`, as the `for … of` loop over the
      map leaves it. */
  function ManagerKey(team: seq<TeamMember>, role: TeamRole): (r: Option<UserId>)
    ensures r.Some? ==> TeamMember(role, r.value) in team
    ensures r.None? <==> forall i :: 0 <= i < |team| ==> team[i].role != role
    decreases |team|
  {
    if team == [] then None
    else if team[|team| - 1].role == role then Some(team[|team| - 1].user)
    else ManagerKey(team[..|team| - 1], role)
  }

  // ---------------------------------------------------------------------
  // The request

  /** The role the request finally gives `u`: that of its last member for
      `u` with a valid id. */
  function RequestRole(request: seq<TeamMember>, u: UserId): Option<TeamRole>
    decreases |request|
  {
    if request == [] then None
    else
      var m := request[|request| - 1];
      if IsObjectId(m.user) && m.user == u then Some(m.role)
      else RequestRole(request[..|request| - 1], u)
  }

  /** The request gives a role to this key. */
  predicate Mentioned(request: seq<TeamMember>, key: Option<UserId>) {
    key.Some? && RequestRole(request, key.value).Some?
  }

  /** The `forEach` over the request: each member with a valid id is set in
      the map, the others are ignored. */
  function ApplyRequest(team: seq<TeamMember>, request: seq<TeamMember>): (r: seq<TeamMember>)
    ensures UniqueKeys(team) ==> UniqueKeys(r)
    ensures forall u :: Lookup(r, u) == if RequestRole(request, u).Some? then RequestRole(request, u) else Lookup(team, u)
    decreases |request|
  {
    if request == [] then team
    else
      var prev := ApplyRequest(team, request[..|request| - 1]);
      var m := request[|request| - 1];
      if IsObjectId(m.user) then MapSet(prev, m) else prev
  }

  /** `newPrimaryManager` / `newSecondaryManager`: the last member of the
      request with a valid id and this role. */
  function NewManager(request: seq<TeamMember>, role: TeamRole): (r: Option<UserId>)
    ensures r.Some? ==> IsObjectId(r.value) && TeamMember(role, r.value) in request
    ensures r.Some? ==> Mentioned(request, r)
    ensures r.None? <==> forall i :: 0 <= i < |request| && IsObjectId(request[i].user) ==> request[i].role != role
    decreases |request|
  {
    if request == [] then None
    else
      var m := request[|request| - 1];
      if IsObjectId(m.user) && m.role == role then Some(m.user)
      else NewManager(request[..|request| - 1], role)
  }

  /** The key of the old primary or secondary manager. */
  function OldManager(existing: seq<TeamMember>, role: TeamRole): Option<UserId> {
    ManagerKey(FromMembers(existing), role)
  }

  /** `if (cond && key) map.delete(key)`. */
  function DeleteIf(team: seq<TeamMember>, key: Option<UserId>, cond: bool): (r: seq<TeamMember>)
    ensures UniqueKeys(team) ==> UniqueKeys(r)
    ensures forall u :: Lookup(r, u) == if cond && Truthy(key) && u == key.value then None else Lookup(team, u)
  {
    if cond && Truthy(key) then MapDelete(team, key.value) else team
  }

  // ---------------------------------------------------------------------
  // The merge

  /** The team-member merge of `updateProject` as written: an old manager is
      removed whenever the request names a different one for that role (and
      an old secondary also when the request names none), even when
      the same request gives that old manager's user a new role. */
  function MergeTeamAsWritten(existing: seq<TeamMember>, request: seq<TeamMember>): (r: seq<TeamMember>)
    ensures UniqueKeys(r)
    ensures forall u ::
      (RequestRole(request, u).Some? && Some(u) != OldManager(existing, PrimaryProjectManager)
       && Some(u) != OldManager(existing, SecondaryProjectManager)) ==> Lookup(r, u) == RequestRole(request, u)
    ensures forall u ::
      (!Mentioned(request, Some(u)) && Some(u) != OldManager(existing, PrimaryProjectManager)
       && Some(u) != OldManager(existing, SecondaryProjectManager)) ==> Lookup(r, u) == LastRole(existing, u)
  {
    var current := FromMembers(existing);
    var oldPrimary := ManagerKey(current, PrimaryProjectManager);
    var oldSecondary := ManagerKey(current, SecondaryProjectManager);
    var merged := ApplyRequest(current, request);
    var newPrimary := NewManager(request, PrimaryProjectManager);
    var newSecondary := NewManager(request, SecondaryProjectManager);
    var m1 := DeleteIf(merged, oldPrimary, newPrimary.Some? && newPrimary != oldPrimary);
    var m2 := DeleteIf(m1, oldSecondary, newSecondary.Some? && newSecondary != oldSecondary);
    DeleteIf(m2, oldSecondary, newSecondary.None?)
  }

  /** The merge as intended: the same rules, but an old manager whom the
      request itself gives a role keeps the entry (with that role). */
  function MergeTeam(existing: seq<TeamMember>, request: seq<TeamMember>): (r: seq<TeamMember>)
    ensures UniqueKeys(r)
    ensures forall u :: RequestRole(request, u).Some? ==> Lookup(r, u) == RequestRole(request, u)
    ensures forall u ::
      (!Mentioned(request, Some(u)) && Some(u) != OldManager(existing, PrimaryProjectManager)
       && Some(u) != OldManager(existing, SecondaryProjectManager)) ==> Lookup(r, u) == LastRole(existing, u)
  {
    var current := FromMembers(existing);
    var oldPrimary := ManagerKey(current, PrimaryProjectManager);
    var oldSecondary := ManagerKey(current, SecondaryProjectManager);
    var merged := ApplyRequest(current, request);
    var newPrimary := NewManager(request, PrimaryProjectManager);
    var newSecondary := NewManager(request, SecondaryProjectManager);
    var keepPrimary := Mentioned(request, oldPrimary);
    var keepSecondary := Mentioned(request, oldSecondary);
    var m1 := DeleteIf(merged, oldPrimary, newPrimary.Some? && newPrimary != oldPrimary && !keepPrimary);
    var m2 := DeleteIf(m1, oldSecondary, newSecondary.Some? && newSecondary != oldSecondary && !keepSecondary);
    DeleteIf(m2, oldSecondary, newSecondary.None? && !keepSecondary)
  }

  /** As written, the old primary manager is gone whenever the request names
      another primary, and the old secondary whenever it names no secondary
      or another one. */
  lemma AsWrittenRemovesOldManagers(existing: seq<TeamMember>, request: seq<TeamMember>)
    ensures var p := OldManager(existing, PrimaryProjectManager);
      var np := NewManager(request, PrimaryProjectManager);
      Truthy(p) && np.Some? && np != p ==> Lookup(MergeTeamAsWritten(existing, request), p.value).None?
    ensures var s := OldManager(existing, SecondaryProjectManager);
      Truthy(s) && NewManager(request, SecondaryProjectManager) != s ==> Lookup(MergeTeamAsWritten(existing, request), s.value).None?
  {
  }

  /** In the intended merge an old manager the request does not mention is
      removed when replaced; an old secondary is removed also when the
      request names no secondary. */
  lemma MergeTeamRemovesOldManagers(existing: seq<TeamMember>, request: seq<TeamMember>)
    ensures var p := OldManager(existing, PrimaryProjectManager);
      Truthy(p) && !Mentioned(request, p) && NewManager(request, PrimaryProjectManager).Some? ==>
        Lookup(MergeTeam(existing, request), p.value).None?
    ensures var s := OldManager(existing, SecondaryProjectManager);
      Truthy(s) && !Mentioned(request, s) ==> Lookup(MergeTeam(existing, request), s.value).None?
  {
  }

  /** Swapping the two managers in one request removes both of them as
      written; the intended merge keeps both with their new roles. */
  lemma ManagerSwap(a: UserId, b: UserId)
    requires IsObjectId(a) && IsObjectId(b) && a != b
    ensures var existing := [TeamMember(PrimaryProjectManager, a), TeamMember(SecondaryProjectManager, b)];
      var request := [TeamMember(PrimaryProjectManager, b), TeamMember(SecondaryProjectManager, a)];
      && MergeTeamAsWritten(existing, request) == []
      && MergeTeam(existing, request) == [TeamMember(SecondaryProjectManager, a), TeamMember(PrimaryProjectManager, b)]
  {
    SwapStart(a, b);
    SwapRequest(a, b);
    SwapDeletes(a, b);
  }

  /** The map and old managers before the swap request. */
  lemma SwapStart(a: UserId, b: UserId)
    requires a != b
    ensures var existing := [TeamMember(PrimaryProjectManager, a), TeamMember(SecondaryProjectManager, b)];
      && FromMembers(existing) == existing
      && OldManager(existing, PrimaryProjectManager) == Some(a)
      && OldManager(existing, SecondaryProjectManager) == Some(b)
  {
    var pa, sb := TeamMember(PrimaryProjectManager, a), TeamMember(SecondaryProjectManager, b);
    var existing := [pa, sb];
    assert existing[..1] == [pa] && [pa][..0] == [] && [pa][1..] == [];
    assert FromMembers([pa]) == [pa];
    assert FromMembers(existing) == MapSet([pa], sb) == [pa] + MapSet([], sb) == existing;
    assert ManagerKey(existing, PrimaryProjectManager) == Some(a) by {
      assert existing[..1] == [pa];
    }
  }

  /** The swap request applied to the map, and what it names. */
  lemma SwapRequest(a: UserId, b: UserId)
    requires IsObjectId(a) && IsObjectId(b) && a != b
    ensures var existing := [TeamMember(PrimaryProjectManager, a), TeamMember(SecondaryProjectManager, b)];
      var request := [TeamMember(PrimaryProjectManager, b), TeamMember(SecondaryProjectManager, a)];
      && ApplyRequest(existing, request) == [TeamMember(SecondaryProjectManager, a), TeamMember(PrimaryProjectManager, b)]
      && NewManager(request, PrimaryProjectManager) == Some(b)
      && NewManager(request, SecondaryProjectManager) == Some(a)
      && RequestRole(request, a).Some? && RequestRole(request, b).Some?
  {
    var pa, sb := TeamMember(PrimaryProjectManager, a), TeamMember(SecondaryProjectManager, b);
    var pb, sa := TeamMember(PrimaryProjectManager, b), TeamMember(SecondaryProjectManager, a);
    var existing, request := [pa, sb], [pb, sa];
    assert request[..1] == [pb] && [pb][..0] == [];
    assert ApplyRequest(existing, [pb]) == MapSet(existing, pb) == [pa, pb] by {
      assert existing[1..] == [sb];
      assert MapSet([sb], pb) == [pb];
    }
    assert ApplyRequest(existing, request) == MapSet([pa, pb], sa) == [sa, pb] by {
      assert [pa, pb][1..] == [pb];
    }
    assert RequestRole([pb], b) == Some(PrimaryProjectManager);
  }

  /** The deletions after the swap request. */
  lemma SwapDeletes(a: UserId, b: UserId)
    requires a != b
    ensures var pb, sa := TeamMember(PrimaryProjectManager, b), TeamMember(SecondaryProjectManager, a);
      MapDelete([sa, pb], a) == [pb] && MapDelete([pb], b) == []
  {
    var pb, sa := TeamMember(PrimaryProjectManager, b), TeamMember(SecondaryProjectManager, a);
    assert [sa, pb][1..] == [pb] && [pb][1..] == [];
    assert MapDelete([pb], a) == [pb] + MapDelete([], a);
  }

  // ---------------------------------------------------------------------
  // The loops of the merge

  /** Building the map from the stored members. */
  method BuildTeamMap(members: seq<TeamMember>) returns (current: seq<TeamMember>)
    ensures current == FromMembers(members)
  {
    current := [];
    var i := 0;
    while i < |members|
      invariant 0 <= i <= |members|
      invariant current == FromMembers(members[..i])
    {
      assert members[..i + 1][..i] == members[..i];
      current := MapSet(current, members[i]);
      i := i + 1;
    }
    assert members[..i] == members;
  }

  /** The `for … of` loop that finds the old managers' keys. */
  method FindManagerKeys(current: seq<TeamMember>) returns (primaryKey: Option<UserId>, secondaryKey: Option<UserId>)
    ensures primaryKey == ManagerKey(current, PrimaryProjectManager)
    ensures secondaryKey == ManagerKey(current, SecondaryProjectManager)
  {
    primaryKey, secondaryKey := None, None;
    var i := 0;
    while i < |current|
      invariant 0 <= i <= |current|
      invariant primaryKey == ManagerKey(current[..i], PrimaryProjectManager)
      invariant secondaryKey == ManagerKey(current[..i], SecondaryProjectManager)
    {
      assert current[..i + 1][..i] == current[..i];
      if current[i].role == PrimaryProjectManager {
        primaryKey := Some(current[i].user);
      }
      if current[i].role == SecondaryProjectManager {
        secondaryKey := Some(current[i].user);
      }
      i := i + 1;
    }
    assert current[..i] == current;
  }

  /** The `forEach` over the request, with the flags it sets. */
  method ApplyRequestMembers(current: seq<TeamMember>, request: seq<TeamMember>)
    returns (merged: seq<TeamMember>, newPrimary: Option<UserId>, newSecondary: Option<UserId>, hasSecondary: bool)
    ensures merged == ApplyRequest(current, request)
    ensures newPrimary == NewManager(request, PrimaryProjectManager)
    ensures newSecondary == NewManager(request, SecondaryProjectManager)
    ensures hasSecondary <==> newSecondary.Some?
  {
    merged, newPrimary, newSecondary, hasSecondary := current, None, None, false;
    var i := 0;
    while i < |request|
      invariant 0 <= i <= |request|
      invariant merged == ApplyRequest(current, request[..i])
      invariant newPrimary == NewManager(request[..i], PrimaryProjectManager)
      invariant newSecondary == NewManager(request[..i], SecondaryProjectManager)
      invariant hasSecondary <==> newSecondary.Some?
    {
      assert request[..i + 1][..i] == request[..i];
      var m := request[i];
      if IsObjectId(m.user) {
        if m.role == PrimaryProjectManager {
          newPrimary := Some(m.user);
        }
        if m.role == SecondaryProjectManager {
          newSecondary := Some(m.user);
          hasSecondary := true;
        }
        merged := MapSet(merged, m);
      }
      i := i + 1;
    }
    assert request[..i] == request;
  }

  /** The three guarded deletions that end the merge. */
  method RemoveOldManagers(merged: seq<TeamMember>, existingPrimary: Option<UserId>, existingSecondary: Option<UserId>,
                           newPrimary: Option<UserId>, newSecondary: Option<UserId>, hasSecondary: bool)
    returns (current: seq<TeamMember>)
    requires hasSecondary <==> newSecondary.Some?
    ensures current == DeleteIf(DeleteIf(DeleteIf(merged,
      existingPrimary, newPrimary.Some? && newPrimary != existingPrimary),
      existingSecondary, newSecondary.Some? && newSecondary != existingSecondary),
      existingSecondary, newSecondary.None?)
  {
    current := merged;
    if newPrimary.Some? && newPrimary != existingPrimary {
      if Truthy(existingPrimary) {
        current := MapDelete(current, existingPrimary.value);
      }
    }
    if newSecondary.Some? && newSecondary != existingSecondary {
      if Truthy(existingSecondary) {
        current := MapDelete(current, existingSecondary.value);
      }
    }
    if !hasSecondary && Truthy(existingSecondary) {
      current := MapDelete(current, existingSecondary.value);
    }
  }
}
