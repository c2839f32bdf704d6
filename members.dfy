/** A group member `{ username, id, joinTime }` and the searches both group
    directories make over a member list. */
module Members {
  import opened Common

  datatype Member = Member(username: string, id: string, joinTime: int)

  /** `members.some(m => m.id === id)`. */
  predicate HasId(members: seq<Member>, id: string)
  {
    exists k :: 0 <= k < |members| && members[k].id == id
  }

  /** No socket id occurs twice in the list. */
  predicate UniqueIds(members: seq<Member>)
  {
    forall i, j :: 0 <= i < j < |members| ==> members[i].id != members[j].id
  }

  /** `members.filter(m => m.id !== id)`: every entry for id goes, the others
      stay, in order. */
  function WithoutId(members: seq<Member>, id: string): (r: seq<Member>)
    ensures IsSubsequence(r, members)
    ensures !HasId(r, id)
    ensures forall k :: 0 <= k < |members| && members[k].id != id ==> members[k] in r
  {
    if members == [] then []
    else
      var rest := WithoutId(members[1..], id);
      if members[0].id == id then
        SubsequenceDropFront(rest, members);
        rest
      else
        assert ([members[0]] + rest)[1..] == rest;
        [members[0]] + rest
  }

  /** A non-empty list holds id exactly when its head or its tail does. */
  lemma HasIdCons(members: seq<Member>, id: string)
    requires members != []
    ensures HasId(members, id) <==> members[0].id == id || HasId(members[1..], id)
  {
    if HasId(members, id) {
      var k :| 0 <= k < |members| && members[k].id == id;
      if k > 0 { assert members[1..][k - 1].id == id; }
    }
    if HasId(members[1..], id) {
      var k :| 0 <= k < |members[1..]| && members[1..][k].id == id;
      assert members[k + 1].id == id;
    }
  }

  /** Removing id shortens the list exactly when id was present; on a list
      without repeated ids exactly one entry goes. */
  lemma {:induction false} WithoutIdLength(members: seq<Member>, id: string)
    ensures |WithoutId(members, id)| < |members| <==> HasId(members, id)
    ensures |WithoutId(members, id)| <= |members|
    ensures UniqueIds(members) && HasId(members, id) ==> |WithoutId(members, id)| == |members| - 1
  {
    if members != [] {
      var tail := members[1..];
      WithoutIdLength(tail, id);
      HasIdCons(members, id);
      if UniqueIds(members) {
        assert UniqueIds(tail);
        if members[0].id == id {
          assert !HasId(tail, id);
        }
      }
    }
  }

  /** Removing id keeps the ids of a list unique. */
  lemma {:induction false} WithoutIdUnique(members: seq<Member>, id: string)
    ensures UniqueIds(members) ==> UniqueIds(WithoutId(members, id))
  {
    if members != [] && UniqueIds(members) {
      var tail := members[1..];
      assert UniqueIds(tail);
      WithoutIdUnique(tail, id);
      if members[0].id != id {
        var rest := WithoutId(tail, id);
        SubsequenceMembers(rest, tail);
        forall k | 0 <= k < |rest| ensures rest[k].id != members[0].id {
          assert rest[k] in tail;
          var j :| 0 <= j < |tail| && tail[j] == rest[k];
          assert members[j + 1] == rest[k];
        }
        assert WithoutId(members, id) == [members[0]] + rest;
      }
    }
  }

  /** Appending a member adds exactly its id to the ids present. */
  lemma HasIdAppend(members: seq<Member>, m: Member, id: string)
    ensures HasId(members + [m], id) <==> HasId(members, id) || m.id == id
  {
    if HasId(members + [m], id) && m.id != id {
      var k :| 0 <= k < |members| + 1 && (members + [m])[k].id == id;
      assert members[k].id == id;
    }
    if HasId(members, id) {
      var k :| 0 <= k < |members| && members[k].id == id;
      assert (members + [m])[k].id == id;
    }
    if m.id == id {
      assert (members + [m])[|members|].id == id;
    }
  }

  /** Appending a member whose id is absent keeps the ids unique. */
  lemma UniqueAppend(members: seq<Member>, m: Member)
    requires UniqueIds(members) && !HasId(members, m.id)
    ensures UniqueIds(members + [m])
  {
    var after := members + [m];
    forall i, j | 0 <= i < j < |after| ensures after[i].id != after[j].id {
      if j == |members| {
        assert after[i] == members[i];
      } else {
        assert after[i] == members[i] && after[j] == members[j];
      }
    }
  }

  /** Removing one entry keeps the ids unique. */
  lemma UniqueRemoveAt(members: seq<Member>, i: nat)
    requires i < |members| && UniqueIds(members)
    ensures UniqueIds(RemoveAt(members, i))
  {
    var r := RemoveAt(members, i);
    forall a, b | 0 <= a < b < |r| ensures r[a].id != r[b].id {
      var a' := if a < i then a else a + 1;
      var b' := if b < i then b else b + 1;
      assert r[a] == members[a'] && r[b] == members[b'];
    }
  }

  /** Removing the one entry that holds an id from a list without repeated
      ids leaves no entry for that id. */
  lemma RemoveOnlyEntry(members: seq<Member>, i: nat, id: string)
    requires i < |members| && UniqueIds(members) && members[i].id == id
    ensures UniqueIds(RemoveAt(members, i)) && !HasId(RemoveAt(members, i), id)
  {
    UniqueRemoveAt(members, i);
    var r := RemoveAt(members, i);
    forall k | 0 <= k < |r| ensures r[k].id != id {
      if k < i {
        assert r[k] == members[k];
      } else {
        assert r[k] == members[k + 1];
      }
    }
  }

  /** Removing an id that is absent changes nothing. */
  lemma {:induction false} WithoutAbsentId(members: seq<Member>, id: string)
    requires !HasId(members, id)
    ensures WithoutId(members, id) == members
  {
    if members != [] {
      assert !HasId(members[1..], id);
      WithoutAbsentId(members[1..], id);
      assert members[0].id != id;
      assert members == [members[0]] + members[1..];
    }
  }

  /** `members.find(m => m.id === id)`: the first entry for id. */
  function MemberById(members: seq<Member>, id: string): (r: Option<Member>)
    ensures r.None? <==> !HasId(members, id)
    ensures r.Some? ==> r.value.id == id &&
                        exists k :: 0 <= k < |members| && members[k] == r.value &&
                                    forall j :: 0 <= j < k ==> members[j].id != id
  {
    Find(members, (m: Member) => m.id == id)
  }

  /** `members.map(m => m.username)`. */
  function Usernames(members: seq<Member>): (r: seq<string>)
    ensures |r| == |members|
    ensures forall k :: 0 <= k < |members| ==> r[k] == members[k].username
  {
    if members == [] then [] else [members[0].username] + Usernames(members[1..])
  }
}
