/** The identity registry used by the first server (utils/user.js): a list of
    bound users and the set of their lower-cased names, which reserves each name
    case-insensitively. */
module LegacyUsers {
  import opened Common
  import opened Text

  /** The longest username accepted, in UTF-16 code units. */
  const MAX_USERNAME_LENGTH: nat := 20

  /** `{ id, username, room, _key }`, where `_key` is the lower-cased username. */
  datatype User = User(id: string, username: string, room: string, key: string)

  function TakenMessage(name: string): string
  {
    "Username \"" + name + "\" is already taken. Please choose a different username."
  }

  /** Everything utils/user.js demands of a username once trimmed. */
  predicate ValidName(name: string)
  {
    name != [] && Utf16Length(name) <= MAX_USERNAME_LENGTH && !HasDoubleSpace(name)
  }

  /** The outcome of `userJoin` against the reserved keys: the checks in source
      order (username, then duplicate, then room) and, on success, the user to store. */
  function CheckJoin(usernames: set<string>, id: string, username: string, room: string): (r: Result<User>)
    ensures r.Ok? <==> ValidName(Trim(username)) && ToLower(Trim(username)) !in usernames && Trim(room) != []
    ensures Trim(username) == [] ==> r == Err("Username is required")
    ensures Trim(username) != [] && Utf16Length(Trim(username)) > MAX_USERNAME_LENGTH ==>
              r == Err("Username must be 20 characters or less")
    ensures Trim(username) != [] && Utf16Length(Trim(username)) <= MAX_USERNAME_LENGTH && HasDoubleSpace(Trim(username)) ==>
              r == Err("Username cannot contain consecutive spaces")
    ensures ValidName(Trim(username)) && ToLower(Trim(username)) in usernames ==>
              r == Err(TakenMessage(Trim(username)))
    ensures ValidName(Trim(username)) && ToLower(Trim(username)) !in usernames && Trim(room) == [] ==>
              r == Err("Room is required")
    ensures r.Ok? ==> r.value == User(id, Trim(username), Trim(room), ToLower(Trim(username)))
  {
    var name := Trim(username);
    var roomName := Trim(room);
    if name == [] then Err("Username is required")
    else if Utf16Length(name) > MAX_USERNAME_LENGTH then Err("Username must be 20 characters or less")
    else if HasDoubleSpace(name) then Err("Username cannot contain consecutive spaces")
    else if ToLower(name) in usernames then Err(TakenMessage(name))
    else if roomName == [] then Err("Room is required")
    else Ok(User(id, name, roomName, ToLower(name)))
  }

  /** The reserved keys of a list of users. */
  function Keys(users: seq<User>): set<string>
  {
    set u | u in users :: u.key
  }

  /** No key is held by two entries. */
  predicate KeysDistinct(users: seq<User>)
  {
    forall i, j :: 0 <= i < j < |users| ==> users[i].key != users[j].key
  }

  /** Removing one entry from a list with distinct keys frees exactly its key. */
  lemma KeysRemoveAt(users: seq<User>, i: nat)
    requires i < |users| && KeysDistinct(users)
    ensures Keys(RemoveAt(users, i)) == Keys(users) - {users[i].key}
    ensures KeysDistinct(RemoveAt(users, i))
  {
    var r := RemoveAt(users, i);
    forall k | k in Keys(users) - {users[i].key} ensures k in Keys(r) {
      var j :| 0 <= j < |users| && users[j].key == k;
      assert j != i;
      if j < i { assert r[j] == users[j]; } else { assert r[j - 1] == users[j]; }
    }
    forall k | k in Keys(r) ensures k in Keys(users) - {users[i].key} {
      var j :| 0 <= j < |r| && r[j].key == k;
      if j < i { assert r[j] == users[j]; } else { assert r[j] == users[j + 1]; }
    }
  }

  /** `usernames` is exactly the set of keys of `users`, each key held once,
      and every stored key is the lower-cased stored username. */
  predicate Registry(users: seq<User>, usernames: set<string>)
  {
    usernames == Keys(users) && KeysDistinct(users) &&
    forall k :: 0 <= k < |users| ==> users[k].key == ToLower(users[k].username)
  }

  /** Appending a user whose key is free, and reserving that key, keeps the
      registry consistent. */
  lemma JoinKeepsRegistry(users: seq<User>, usernames: set<string>, user: User)
    requires Registry(users, usernames)
    requires user.key !in usernames && user.key == ToLower(user.username)
    ensures Registry(users + [user], usernames + {user.key})
  {
    var after := users + [user];
    assert Keys(after) == Keys(users) + {user.key} by {
      assert forall u :: u in after <==> u in users || u == user;
    }
    forall i, j | 0 <= i < j < |after| ensures after[i].key != after[j].key {
      assert after[i] == users[i];
      if j < |users| {
        assert after[j] == users[j];
      } else {
        assert users[i].key in Keys(users);
      }
    }
  }

  /** Two names that differ only in letter case reserve the same key, so once
      one is bound the other is refused. */
  lemma CaseInsensitiveConflict(usernames: set<string>, id: string, a: string, b: string, room: string)
    requires CheckJoin(usernames, id, a, room).Ok?
    requires ToLower(Trim(a)) == ToLower(Trim(b)) && ValidName(Trim(b))
    ensures CheckJoin(usernames + {CheckJoin(usernames, id, a, room).value.key}, id, b, room)
            == Err(TakenMessage(Trim(b)))
  {
  }

  /** The registry of utils/user.js: `users` and the `usernames` key set. */
  class UserList {
    var users: seq<User>
    var usernames: set<string>

    /** The list and the key set agree, as Registry says. */
    ghost predicate Valid()
      reads this
    {
      Registry(users, usernames)
    }

    constructor ()
      ensures Valid() && users == [] && usernames == {}
    {
      users := [];
      usernames := {};
    }

    /** `userJoin(id, username, room)`. A previous entry for the same id is not
        released. */
    method UserJoin(id: string, username: string, room: string) returns (r: Result<User>)
      requires Valid()
      modifies this
      ensures Valid()
      ensures r == CheckJoin(old(usernames), id, username, room)
      ensures r.Err? ==> users == old(users) && usernames == old(usernames)
      ensures r.Ok? ==> users == old(users) + [r.value] && usernames == old(usernames) + {r.value.key}
    {
      var name := Trim(username);
      var roomName := Trim(room);
      if name == [] {
        return Err("Username is required");
      }
      if Utf16Length(name) > MAX_USERNAME_LENGTH {
        return Err("Username must be 20 characters or less");
      }
      if HasDoubleSpace(name) {
        return Err("Username cannot contain consecutive spaces");
      }
      var key := ToLower(name);
      if key in usernames {
        return Err(TakenMessage(name));
      }
      if roomName == [] {
        return Err("Room is required");
      }
      var user := User(id, name, roomName, key);
      JoinKeepsRegistry(users, usernames, user);
      users := users + [user];
      usernames := usernames + {key};
      r := Ok(user);
    }

    /** `getCurrentUser(id)`: the first entry bound to id. */
    function GetCurrentUser(id: string): (r: Option<User>)
      reads this
      ensures r.None? <==> forall k :: 0 <= k < |users| ==> users[k].id != id
      ensures r.Some? ==> r.value in users && r.value.id == id
      ensures r.Some? ==> exists k :: 0 <= k < |users| && users[k] == r.value &&
                                      forall j :: 0 <= j < k ==> users[j].id != id
    {
      Find(users, (u: User) => u.id == id)
    }

    /** `userLeave(id)`: removes the first entry bound to id and frees its key;
        an unknown id changes nothing. */
    method UserLeave(id: string) returns (r: Option<User>)
      requires Valid()
      modifies this
      ensures Valid()
      ensures r.None? ==> users == old(users) && usernames == old(usernames) &&
                          forall k :: 0 <= k < |users| ==> users[k].id != id
      ensures r.Some? ==> var i := FindIndex(old(users), (u: User) => u.id == id);
                          0 <= i && r.value == old(users)[i] && r.value.id == id &&
                          users == RemoveAt(old(users), i) &&
                          usernames == old(usernames) - {r.value.key}
    {
      var i := FindIndex(users, (u: User) => u.id == id);
      if i == -1 {
        return None;
      }
      var removed := users[i];
      KeysRemoveAt(users, i);
      users := RemoveAt(users, i);
      usernames := usernames - {removed.key};
      r := Some(removed);
    }

    /** `getRoomUsers(room)`: the users whose room equals the trimmed argument, in order. */
    function GetRoomUsers(room: string): (r: seq<User>)
      reads this
      ensures IsSubsequence(r, users)
      ensures forall k :: 0 <= k < |r| ==> r[k].room == Trim(room)
      ensures forall k :: 0 <= k < |users| && users[k].room == Trim(room) ==> users[k] in r
    {
      var name := Trim(room);
      FilterIsSubsequence(users, (u: User) => u.room == name);
      Filter(users, (u: User) => u.room == name)
    }
  }

  /** The registry does not release a connection's earlier binding: a
      connection already bound that joins again under a free name ends up with
      two entries, and `userLeave` later removes only the first of them. */
  lemma RejoinKeepsOldBinding(users: seq<User>, id: string, username: string, room: string)
    requires exists k :: 0 <= k < |users| && users[k].id == id
    requires CheckJoin(Keys(users), id, username, room).Ok?
    ensures var after := users + [CheckJoin(Keys(users), id, username, room).value];
            exists i, j :: 0 <= i < j < |after| && after[i].id == id && after[j].id == id
  {
    var k :| 0 <= k < |users| && users[k].id == id;
    var after := users + [CheckJoin(Keys(users), id, username, room).value];
    assert after[k].id == id && after[|users|].id == id;
  }

  /** A connection already bound under a name that joins again with that
      name (up to surrounding whitespace) is refused as taken: its own entry
      still reserves the key. */
  lemma RejoinSameNameRefused(users: seq<User>, usernames: set<string>, id: string, username: string, room: string)
    requires Registry(users, usernames) && ValidName(Trim(username))
    requires exists k :: 0 <= k < |users| && users[k].id == id && users[k].username == Trim(username)
    ensures CheckJoin(usernames, id, username, room) == Err(TakenMessage(Trim(username)))
  {
    var k :| 0 <= k < |users| && users[k].id == id && users[k].username == Trim(username);
    assert users[k] in users;
    assert users[k].key in Keys(users);
  }
}
