/** The group directory of the modular server (server/services/groupService.js):
    an insertion-ordered map from exact group name to Group object. */
module Groups {
  import opened Common
  import opened Text
  import opened Members
  import opened GroupModel

  /** `{ group, joinTime }`, the success result of create and join. */
  datatype Joined = Joined(group: GroupDetail, joinTime: int)

  /** Every group has a member and no socket id appears twice in one group. */
  predicate WellFormed(ms: map<string, seq<Member>>)
  {
    forall n :: n in ms ==> ms[n] != [] && UniqueIds(ms[n])
  }

  /** The effect of `leaveGroup(name, id)` on the member lists: the id leaves
      that group, which disappears once it has no members; other groups keep
      their lists. */
  function Leave(ms: map<string, seq<Member>>, name: string, id: string): (r: map<string, seq<Member>>)
    ensures name !in ms ==> r == ms
    ensures name in ms ==> (name in r <==> WithoutId(ms[name], id) != [])
    ensures name in r ==> r[name] == WithoutId(ms[name], id) && !HasId(r[name], id)
    ensures forall n :: n != name ==> (n in r <==> n in ms)
    ensures forall n :: n != name && n in r ==> r[n] == ms[n]
    ensures WellFormed(ms) ==> WellFormed(r)
  {
    if name !in ms then ms
    else
      var rest := WithoutId(ms[name], id);
      WithoutIdLength(ms[name], id);
      WithoutIdUnique(ms[name], id);
      if rest == [] then ms - {name} else ms[name := rest]
  }

  /** Leave in the two cases of a known group: the group goes once its list
      is empty, else its list is replaced. */
  lemma LeaveCases(ms: map<string, seq<Member>>, name: string, id: string)
    requires name in ms
    ensures WithoutId(ms[name], id) == [] ==> Leave(ms, name, id) == ms - {name}
    ensures WithoutId(ms[name], id) != [] ==> Leave(ms, name, id) == ms[name := WithoutId(ms[name], id)]
  {
  }

  /** `order.filter(n => n !== name)`: the name list without one name, in order. */
  function WithoutName(order: seq<string>, name: string): (r: seq<string>)
    ensures forall n :: n in r <==> n in order && n != name
    ensures Distinct(order) ==> Distinct(r)
    ensures IsSubsequence(r, order)
  {
    if order == [] then []
    else
      var rest := WithoutName(order[1..], name);
      if order[0] == name then SubsequenceDropFront(rest, order); rest
      else
        assert Distinct(order) ==> order[0] !in order[1..];
        [order[0]] + rest
  }

  /** Each group is stored under its own name and carries the member list
      recorded for it; no group is empty or holds an id twice; `order` lists
      every stored name once. */
  ghost predicate Consistent(groups: map<string, Group>, ms: map<string, seq<Member>>, order: seq<string>)
    reads groups.Values
  {
    groups.Keys == ms.Keys &&
    (forall n :: n in groups ==> groups[n].name == n && groups[n].members == ms[n]) &&
    WellFormed(ms) &&
    Distinct(order) && (forall n :: n in groups <==> n in order)
  }

  /** Storing a fresh group under a new name, and appending the name, keeps
      the directory consistent. */
  lemma CreateConsistent(groups: map<string, Group>, ms: map<string, seq<Member>>, order: seq<string>, g: Group)
    requires Consistent(groups, ms, order) && g.name !in groups
    requires g.members != [] && UniqueIds(g.members)
    ensures Consistent(groups[g.name := g], ms[g.name := g.members], order + [g.name])
  {
    var after := order + [g.name];
    forall i, j | 0 <= i < j < |after| ensures after[i] != after[j] {
      assert after[i] == order[i];
      if j < |order| { assert after[j] == order[j]; }
    }
  }

  /** Changing the members of one stored group, to a list that is non-empty
      and free of repeated ids, keeps the directory consistent once the new
      list is recorded. */
  lemma UpdateConsistent(groups: map<string, Group>, ms: map<string, seq<Member>>, order: seq<string>, name: string)
    requires name in groups && groups.Keys == ms.Keys && WellFormed(ms)
    requires forall n :: n in groups ==> groups[n].name == n
    requires forall n :: n in groups && n != name ==> groups[n].members == ms[n]
    requires Distinct(order) && (forall n :: n in groups <==> n in order)
    requires groups[name].members != [] && UniqueIds(groups[name].members)
    ensures Consistent(groups, ms[name := groups[name].members], order)
  {
  }

  /** Dropping a group that has become empty, and its name, keeps the
      directory consistent. */
  lemma DropConsistent(groups: map<string, Group>, ms: map<string, seq<Member>>, order: seq<string>, name: string)
    requires name in groups && groups.Keys == ms.Keys && WellFormed(ms)
    requires forall n :: n in groups ==> groups[n].name == n
    requires forall n :: n in groups && n != name ==> groups[n].members == ms[n]
    requires Distinct(order) && (forall n :: n in groups <==> n in order)
    ensures Consistent(groups - {name}, ms - {name}, WithoutName(order, name))
  {
  }

  class GroupService {
    var groups: map<string, Group>
    var order: seq<string>
    /** Each group's member list, by name. */
    ghost var memberships: map<string, seq<Member>>

    /** Each group is stored under its own name and carries the member list
        recorded for it; no group is empty or holds an id twice; `order`
        lists every stored name once. */
    ghost predicate Valid()
      reads this, groups.Values
    {
      Consistent(groups, memberships, order)
    }

    constructor ()
      ensures Valid() && groups == map[] && order == [] && memberships == map[]
    {
      groups := map[];
      order := [];
      memberships := map[];
    }

    /** `createGroup(groupName, creatorUsername, creatorId)`. The member's
        join time (tMember) and the returned join time (tReturn) are two
        separate clock readings. */
    method CreateGroup(groupName: string, creatorUsername: string, creatorId: string, tMember: int, tReturn: int)
      returns (r: Result<Joined>)
      requires Valid()
      modifies this
      ensures Valid()
      ensures r.Ok? <==> !IsBlank(groupName) && groupName !in old(groups)
      ensures IsBlank(groupName) ==> r == Err("Group name cannot be empty")
      ensures !IsBlank(groupName) && groupName in old(groups) ==>
                r == Err("Group \"" + groupName + "\" already exists")
      ensures r.Err? ==> groups == old(groups) && order == old(order) && memberships == old(memberships)
      ensures r.Ok? ==>
                var m := [Member(creatorUsername, creatorId, tMember)];
                r.value == Joined(Detail(groupName, m), tReturn) &&
                memberships == old(memberships)[groupName := m] &&
                order == old(order) + [groupName] &&
                groupName in groups && fresh(groups[groupName]) &&
                groups == old(groups)[groupName := groups[groupName]]
    {
      if TrimsToEmpty(groupName) {
        return Err("Group name cannot be empty");
      }
      if groupName in groups {
        return Err("Group \"" + groupName + "\" already exists");
      }
      var group := new Group(groupName, creatorUsername, creatorId, tMember);
      ghost var stored, listed, before := groups, order, memberships;
      groups := groups[groupName := group];
      order := order + [groupName];
      memberships := memberships[groupName := group.members];
      CreateConsistent(stored, before, listed, group);
      r := Ok(Joined(group.ToDetailedJSON(), tReturn));
    }

    /** `joinGroup(groupName, username, socketId)`: refuses an unknown group
        and a socket that is already a member, else appends one member. */
    method JoinGroup(groupName: string, username: string, id: string, now: int) returns (r: Result<Joined>)
      requires Valid()
      modifies this, groups.Values
      ensures Valid()
      ensures groups == old(groups) && order == old(order)
      ensures r.Ok? <==> groupName in old(groups) && !HasId(old(memberships)[groupName], id)
      ensures groupName !in old(groups) ==> r == Err("Group \"" + groupName + "\" does not exist")
      ensures groupName in old(groups) && HasId(old(memberships)[groupName], id) ==>
                r == Err("You are already a member of this group")
      ensures r.Err? ==> memberships == old(memberships)
      ensures r.Ok? ==>
                var m := old(memberships)[groupName] + [Member(username, id, now)];
                memberships == old(memberships)[groupName := m] &&
                r.value == Joined(Detail(groupName, m), now)
    {
      if groupName !in groups {
        return Err("Group \"" + groupName + "\" does not exist");
      }
      var group := groups[groupName];
      assert forall n :: n in groups && n != groupName ==> groups[n] != group;
      if group.HasMember(id) {
        return Err("You are already a member of this group");
      }
      UniqueAppend(group.members, Member(username, id, now));
      var member := group.AddMember(username, id, now);
      ghost var before := memberships;
      memberships := memberships[groupName := group.members];
      UpdateConsistent(groups, before, order, groupName);
      r := Ok(Joined(group.ToDetailedJSON(), member.joinTime));
    }

    /** `leaveGroup(groupName, socketId)`: false for an unknown group, else
        whether a member was removed; a group left empty is deleted. */
    method LeaveGroup(groupName: string, id: string) returns (removed: bool)
      requires Valid()
      modifies this, groups.Values
      ensures Valid()
      ensures removed <==> groupName in old(groups) && HasId(old(memberships)[groupName], id)
      ensures memberships == Leave(old(memberships), groupName, id)
      ensures !IsGroupMember(groupName, id)
      ensures forall n :: n in groups ==> n in old(groups) && groups[n] == old(groups)[n]
      ensures groupName in old(groups) && groupName !in groups ==>
                order == WithoutName(old(order), groupName)
      ensures groupName !in old(groups) || groupName in groups ==> order == old(order)
    {
      if groupName !in groups {
        return false;
      }
      var group := groups[groupName];
      assert forall n :: n in groups && n != groupName ==> groups[n] != group;
      removed := group.RemoveMember(id);
      ghost var before := memberships;
      assert group.members == WithoutId(before[groupName], id);
      if group.members == [] {
        ghost var stored := groups;
        ghost var listed := order;
        groups := groups - {groupName};
        memberships := memberships - {groupName};
        order := WithoutName(order, groupName);
        DropConsistent(stored, before, listed, groupName);
        LeaveCases(before, groupName, id);
      } else {
        memberships := memberships[groupName := group.members];
        UpdateConsistent(groups, before, order, groupName);
        LeaveCases(before, groupName, id);
      }
    }

    /** `getGroup(groupName)`. */
    function GetGroup(groupName: string): (r: Option<Group>)
      reads this, groups.Values
      requires Valid()
      ensures r.Some? <==> groupName in memberships
      ensures r.Some? ==> r.value.name == groupName && r.value.members == memberships[groupName]
    {
      if groupName in groups then Some(groups[groupName]) else None
    }

    /** `getGroupMembers(groupName)`: the members, or none for an unknown group. */
    function GetGroupMembers(groupName: string): (r: seq<Member>)
      reads this, groups.Values
      requires Valid()
      ensures r == [] <==> groupName !in memberships
      ensures groupName in memberships ==> r == memberships[groupName]
    {
      if groupName in groups then groups[groupName].members else []
    }

    /** `isGroupMember(groupName, socketId)`. */
    predicate IsGroupMember(groupName: string, id: string)
      reads this, groups.Values
    {
      groupName in groups && groups[groupName].HasMember(id)
    }

    /** `getAllGroups()`: every group in creation order, none of them empty. */
    function GetAllGroups(): (r: seq<GroupInfo>)
      reads this, groups.Values
      requires Valid()
      ensures |r| == |order|
      ensures forall k :: 0 <= k < |r| ==>
                r[k] == Info(order[k], memberships[order[k]]) && r[k].memberCount > 0
    {
      ListGroups(order)
    }

    /** The `toJSON()` of each named group, in the order given. */
    function ListGroups(names: seq<string>): (r: seq<GroupInfo>)
      reads this, groups.Values
      requires Valid()
      requires forall k :: 0 <= k < |names| ==> names[k] in groups
      ensures |r| == |names|
      ensures forall k :: 0 <= k < |names| ==>
                r[k] == Info(names[k], memberships[names[k]]) && r[k].memberCount > 0
    {
      if names == [] then [] else [groups[names[0]].ToJSON()] + ListGroups(names[1..])
    }
  }
}
