/** The group directory used by the first server (utils/groups.js): a list of
    group records looked up by trimmed, case-insensitive name, whose member
    lists are edited in place. */
module LegacyGroups {
  import opened Common
  import opened Text
  import opened Members
  import GroupModel

  /** `{ name, members, createdAt }`; `createdAt` is the creation clock reading. */
  datatype Group = Group(name: string, members: seq<Member>, createdAt: int)

  /** `{ group, joinTime }`, the success result of create and join. */
  datatype Joined = Joined(group: Group, joinTime: int)

  /** `a.toLowerCase() === b.toLowerCase()`. */
  predicate SameName(a: string, b: string)
  {
    ToLower(a) == ToLower(b)
  }

  /** No two groups have names equal up to letter case. */
  predicate NamesDistinct(groups: seq<Group>)
  {
    forall i, j :: 0 <= i < j < |groups| ==> !SameName(groups[i].name, groups[j].name)
  }

  /** The index `getGroup` finds: the first group whose name matches the
      trimmed argument case-insensitively, or -1. With distinct names it is the
      only match. */
  function Lookup(groups: seq<Group>, groupName: string): (i: int)
    ensures -1 <= i < |groups|
    ensures i == -1 <==> forall k :: 0 <= k < |groups| ==> !SameName(groups[k].name, Trim(groupName))
    ensures 0 <= i ==> SameName(groups[i].name, Trim(groupName))
  {
    var name := Trim(groupName);
    FindIndex(groups, (g: Group) => ToLower(g.name) == ToLower(name))
  }

  /** With names distinct up to case, the group found is the only match. */
  lemma LookupUnique(groups: seq<Group>, groupName: string)
    requires NamesDistinct(groups) && 0 <= Lookup(groups, groupName)
    ensures forall k :: 0 <= k < |groups| && k != Lookup(groups, groupName) ==>
              !SameName(groups[k].name, Trim(groupName))
  {
    var i := Lookup(groups, groupName);
    forall k | 0 <= k < |groups| && k != i ensures !SameName(groups[k].name, Trim(groupName)) {
      if k < i {
        assert !SameName(groups[k].name, groups[i].name);
      } else {
        assert !SameName(groups[i].name, groups[k].name);
      }
    }
  }

  /** The directory state: names distinct up to case, every group non-empty
      with no socket id twice. */
  predicate WellFormed(groups: seq<Group>)
  {
    NamesDistinct(groups) &&
    forall k :: 0 <= k < |groups| ==> groups[k].members != [] && UniqueIds(groups[k].members)
  }

  /** Replacing one group's record by one with the same name and a well-formed
      member list keeps the directory well formed. */
  lemma ReplaceKeepsWellFormed(groups: seq<Group>, i: nat, g: Group)
    requires WellFormed(groups) && i < |groups|
    requires g.name == groups[i].name && g.members != [] && UniqueIds(g.members)
    ensures WellFormed(groups[i := g])
  {
    var after := groups[i := g];
    forall a, b | 0 <= a < b < |after| ensures !SameName(after[a].name, after[b].name) {
      assert after[a].name == groups[a].name && after[b].name == groups[b].name;
    }
  }

  /** Deleting one group keeps the directory well formed. */
  lemma RemoveKeepsWellFormed(groups: seq<Group>, i: nat)
    requires WellFormed(groups) && i < |groups|
    ensures WellFormed(RemoveAt(groups, i))
  {
    var r := RemoveAt(groups, i);
    forall a, b | 0 <= a < b < |r| ensures !SameName(r[a].name, r[b].name) {
      var a' := if a < i then a else a + 1;
      var b' := if b < i then b else b + 1;
      assert r[a] == groups[a'] && r[b] == groups[b'];
    }
  }

  /** The outcome of `createGroup` against the current groups: the trimmed
      name must be non-empty and free up to letter case; the creator joins at
      tJoin and the record is stamped with the clock reading tCreated. */
  function CheckCreate(groups: seq<Group>, groupName: string, creatorUsername: string, creatorId: string,
                       tJoin: int, tCreated: int): (r: Result<Joined>)
    ensures r.Ok? <==> Trim(groupName) != [] && Lookup(groups, groupName) == -1
    ensures Trim(groupName) == [] ==> r == Err("Group name is required")
    ensures Trim(groupName) != [] && Lookup(groups, groupName) != -1 ==> r == Err("Group name already exists")
    ensures r.Ok? ==> r.value == Joined(Group(Trim(groupName), [Member(creatorUsername, creatorId, tJoin)], tCreated), tJoin)
  {
    var name := Trim(groupName);
    if name == [] then Err("Group name is required")
    else if Lookup(groups, groupName) != -1 then Err("Group name already exists")
    else Ok(Joined(Group(name, [Member(creatorUsername, creatorId, tJoin)], tCreated), tJoin))
  }

  /** Appending a non-empty group with distinct member ids, whose name
      matches no stored group up to letter case, keeps the directory well
      formed. */
  lemma AppendKeepsWellFormed(groups: seq<Group>, g: Group)
    requires WellFormed(groups) && g.members != [] && UniqueIds(g.members)
    requires forall k :: 0 <= k < |groups| ==> !SameName(groups[k].name, g.name)
    ensures WellFormed(groups + [g])
  {
    var after := groups + [g];
    forall a, b | 0 <= a < b < |after| ensures !SameName(after[a].name, after[b].name) {
      assert after[a] == groups[a];
      if b < |groups| {
        assert after[b] == groups[b];
      }
    }
  }

  /** The module-level `groups` array. */
  class GroupList {
    var groups: seq<Group>

    ghost predicate Valid()
      reads this
    {
      WellFormed(groups)
    }

    constructor ()
      ensures Valid() && groups == []
    {
      groups := [];
    }

    /** `createGroup(groupName, creatorUsername, creatorId)`: appends the
        group `CheckCreate` accepts. */
    method CreateGroup(groupName: string, creatorUsername: string, creatorId: string, tJoin: int, tCreated: int)
      returns (r: Result<Joined>)
      requires Valid()
      modifies this
      ensures Valid()
      ensures r == CheckCreate(old(groups), groupName, creatorUsername, creatorId, tJoin, tCreated)
      ensures r.Err? ==> groups == old(groups)
      ensures r.Ok? ==> groups == old(groups) + [r.value.group]
    {
      var name := Trim(groupName);
      if name == [] {
        return Err("Group name is required");
      }
      if Lookup(groups, groupName) != -1 {
        return Err("Group name already exists");
      }
      var joinTime := tJoin;
      var group := Group(name, [Member(creatorUsername, creatorId, joinTime)], tCreated);
      AppendKeepsWellFormed(groups, group);
      groups := groups + [group];
      r := Ok(Joined(group, joinTime));
    }

    /** `getGroup(groupName)`: the group whose name matches the trimmed
        argument up to letter case. */
    function GetGroup(groupName: string): (r: Option<Group>)
      reads this
      ensures r.None? <==> forall k :: 0 <= k < |groups| ==> !SameName(groups[k].name, Trim(groupName))
      ensures r.Some? ==> r.value in groups && SameName(r.value.name, Trim(groupName))
    {
      var i := Lookup(groups, groupName);
      if i == -1 then None else Some(groups[i])
    }

    /** `joinGroup(groupName, username, userId)`. A socket that is already a
        member gets its recorded join time back (the clock reading now when
        that is 0) and nothing changes; otherwise one member is appended. */
    method JoinGroup(groupName: string, username: string, id: string, now: int) returns (r: Result<Joined>)
      requires Valid()
      modifies this
      ensures Valid()
      ensures var i := Lookup(old(groups), groupName);
              if i == -1 then r == Err("Group not found") && groups == old(groups)
              else
                var g := old(groups)[i];
                match MemberById(g.members, id)
                case Some(m) =>
                  groups == old(groups) &&
                  r == Ok(Joined(g, if m.joinTime != 0 then m.joinTime else now))
                case None =>
                  var g' := g.(members := g.members + [Member(username, id, now)]);
                  groups == old(groups)[i := g'] && r == Ok(Joined(g', now))
      ensures r.Ok? ==> HasId(r.value.group.members, id) && r.value.group in groups
      ensures old(IsGroupMember(groupName, id)) ==> groups == old(groups)
    {
      var i := Lookup(groups, groupName);
      if i == -1 {
        return Err("Group not found");
      }
      var group := groups[i];
      var existing := MemberById(group.members, id);
      if existing.Some? {
        assert HasId(group.members, id);
        return Ok(Joined(group, if existing.value.joinTime != 0 then existing.value.joinTime else now));
      }
      var joinTime := now;
      var member := Member(username, id, joinTime);
      UniqueAppend(group.members, member);
      HasIdAppend(group.members, member, id);
      group := group.(members := group.members + [member]);
      ReplaceKeepsWellFormed(groups, i, group);
      groups := groups[i := group];
      assert groups[i] == group;
      r := Ok(Joined(group, joinTime));
    }

    /** `leaveGroup(groupName, userId)`: removes the socket's member entry and
        deletes the group once it is empty; an unknown group or a non-member is
        an error that changes nothing. */
    method LeaveGroup(groupName: string, id: string) returns (r: Result<Group>)
      requires Valid()
      modifies this
      ensures Valid()
      ensures var i := Lookup(old(groups), groupName);
              if i == -1 then r == Err("Group not found") && groups == old(groups)
              else
                var g := old(groups)[i];
                var j := FindIndex(g.members, (m: Member) => m.id == id);
                if j == -1 then r == Err("You are not a member of this group") && groups == old(groups)
                else
                  var g' := g.(members := RemoveAt(g.members, j));
                  r == Ok(g') && !HasId(g'.members, id) &&
                  groups == if g'.members == [] then RemoveAt(old(groups), i) else old(groups)[i := g']
    {
      var i := Lookup(groups, groupName);
      if i == -1 {
        return Err("Group not found");
      }
      var group := groups[i];
      var index := FindIndex(group.members, (m: Member) => m.id == id);
      if index == -1 {
        return Err("You are not a member of this group");
      }
      RemoveOnlyEntry(group.members, index, id);
      group := group.(members := RemoveAt(group.members, index));
      ghost var before := groups;
      groups := groups[i := group];
      if group.members == [] {
        var groupIndex := FindIndex(groups, (g: Group) => g.name == group.name);
        assert groupIndex == i by {
          assert groups[i].name == group.name == before[i].name;
        }
        if groupIndex != -1 {
          assert RemoveAt(groups, groupIndex) == RemoveAt(before, i);
          groups := RemoveAt(groups, groupIndex);
          RemoveKeepsWellFormed(before, i);
        }
      } else {
        ReplaceKeepsWellFormed(before, i, group);
      }
      r := Ok(group);
    }

    /** `getAllGroups()`: name, usernames and member count of every group, in
        creation order; no group shown is empty. */
    function GetAllGroups(): (r: seq<GroupModel.GroupInfo>)
      reads this
      requires Valid()
      ensures |r| == |groups|
      ensures forall k :: 0 <= k < |r| ==>
                r[k] == GroupModel.Info(groups[k].name, groups[k].members) && r[k].memberCount > 0
    {
      seq(|groups|, k requires 0 <= k < |groups| reads this => GroupModel.Info(groups[k].name, groups[k].members))
    }

    /** `getGroupMembers(groupName)`: the members of the matching group, or none. */
    function GetGroupMembers(groupName: string): (r: seq<Member>)
      reads this
      ensures GetGroup(groupName).None? ==> r == []
      ensures GetGroup(groupName).Some? ==> r == GetGroup(groupName).value.members
    {
      var g := GetGroup(groupName);
      if g.None? then [] else g.value.members
    }

    /** `isGroupMember(groupName, userId)`. */
    predicate IsGroupMember(groupName: string, id: string)
      reads this
    {
      var g := GetGroup(groupName);
      g.Some? && HasId(g.value.members, id)
    }
  }
}
