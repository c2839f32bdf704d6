/** The group record of the modular server (server/models/Group.js): a name
    and an ordered member list that the object updates in place. */
module GroupModel {
  import opened Common
  import opened Members

  /** `toJSON()`: what every client may see of a group; no socket ids. */
  datatype GroupInfo = GroupInfo(name: string, members: seq<string>, memberCount: nat)

  /** `toDetailedJSON()`: the full member records. */
  datatype GroupDetail = GroupDetail(name: string, members: seq<Member>, memberCount: nat)

  /** The public projection of a group with the given name and members. */
  function Info(name: string, members: seq<Member>): (r: GroupInfo)
    ensures r.name == name && r.memberCount == |r.members| == |members|
    ensures forall k :: 0 <= k < |members| ==> r.members[k] == members[k].username
  {
    GroupInfo(name, Usernames(members), |members|)
  }

  /** The detailed projection of a group with the given name and members. */
  function Detail(name: string, members: seq<Member>): GroupDetail
  {
    GroupDetail(name, members, |members|)
  }

  class Group {
    const name: string
    var members: seq<Member>

    /** `new Group(name, creatorUsername, creatorId)`: the creator is the only
        member, joined at the clock reading now. */
    constructor (name: string, creatorUsername: string, creatorId: string, now: int)
      ensures this.name == name
      ensures members == [Member(creatorUsername, creatorId, now)]
    {
      this.name := name;
      members := [Member(creatorUsername, creatorId, now)];
    }

    /** `addMember(username, id)`: appends one member, with no duplicate check,
        and returns it. */
    method AddMember(username: string, id: string, now: int) returns (m: Member)
      modifies this
      ensures m == Member(username, id, now)
      ensures members == old(members) + [m]
      ensures HasMember(id)
      ensures forall other :: other != id ==> (HasMember(other) <==> old(HasMember(other)))
    {
      m := Member(username, id, now);
      forall other {
        HasIdAppend(members, m, other);
      }
      members := members + [m];
    }

    /** `removeMember(id)`: keeps the members with another id, in order, and
        reports whether the list got shorter. */
    method RemoveMember(id: string) returns (removed: bool)
      modifies this
      ensures members == WithoutId(old(members), id)
      ensures removed <==> old(HasMember(id))
      ensures !HasMember(id)
      ensures UniqueIds(old(members)) ==> UniqueIds(members)
    {
      var initialLength := |members|;
      WithoutIdLength(members, id);
      WithoutIdUnique(members, id);
      members := WithoutId(members, id);
      removed := |members| < initialLength;
    }

    /** `hasMember(id)`. */
    predicate HasMember(id: string)
      reads this
    {
      HasId(members, id)
    }

    /** `getMember(id)`: the first member with that id. */
    function GetMember(id: string): (r: Option<Member>)
      reads this
      ensures r.None? <==> !HasMember(id)
      ensures r.Some? ==> r.value.id == id &&
                          exists k :: 0 <= k < |members| && members[k] == r.value &&
                                      forall j :: 0 <= j < k ==> members[j].id != id
    {
      MemberById(members, id)
    }

    /** `toJSON()`. */
    function ToJSON(): (r: GroupInfo)
      reads this
      ensures r.name == name && r.memberCount == |r.members| == |members|
      ensures forall k :: 0 <= k < |members| ==> r.members[k] == members[k].username
    {
      Info(name, members)
    }

    /** `toDetailedJSON()`. */
    function ToDetailedJSON(): (r: GroupDetail)
      reads this
      ensures r.name == name && r.members == members && r.memberCount == |members|
    {
      Detail(name, members)
    }
  }
}
