/** The identity registry of the modular server (server/services/userService.js
    with the record of server/models/User.js): bound users, matched exactly and
    case-sensitively, and each username's theme preference. */
module Users {
  import opened Common
  import Config

  /** `new User(id, username, room, joinTime)`. */
  datatype User = User(id: string, username: string, room: string, joinTime: int)

  function TakenMessage(username: string): string
  {
    "Username \"" + username + "\" is already taken. Please choose a different name."
  }

  /** No socket id is bound twice. */
  predicate IdsUnique(users: seq<User>)
  {
    forall i, j :: 0 <= i < j < |users| ==> users[i].id != users[j].id
  }

  /** No username is bound twice (exact comparison). */
  predicate NamesUnique(users: seq<User>)
  {
    forall i, j :: 0 <= i < j < |users| ==> users[i].username != users[j].username
  }

  /** Some entry carries exactly this username. */
  predicate NameBound(users: seq<User>, username: string)
  {
    exists k :: 0 <= k < |users| && users[k].username == username
  }

  /** The first step of `userJoin`: the first entry bound to id is spliced out.
      On a registry with one entry per id, the id is unbound afterwards and the
      other entries stay, in order. */
  function Release(users: seq<User>, id: string): (r: seq<User>)
    ensures IsSubsequence(r, users)
    ensures |r| == |users| || |r| == |users| - 1
    ensures IdsUnique(users) ==> IdsUnique(r) && forall k :: 0 <= k < |r| ==> r[k].id != id
    ensures NamesUnique(users) ==> NamesUnique(r)
    ensures forall k :: 0 <= k < |users| && users[k].id != id ==> users[k] in r
  {
    var i := FindIndex(users, (u: User) => u.id == id);
    if i == -1 then
      SubsequenceReflexive(users);
      users
    else
      RemoveAtIsSubsequence(users, i);
      RemoveAt(users, i)
  }

  lemma {:induction false} RemoveAtIsSubsequence<T>(s: seq<T>, i: nat)
    requires i < |s|
    ensures IsSubsequence(RemoveAt(s, i), s)
  {
    if i == 0 {
      assert RemoveAt(s, i) == s[1..];
      SubsequenceReflexive(s[1..]);
      SubsequenceDropFront(s[1..], s);
    } else {
      RemoveAtIsSubsequence(s[1..], i - 1);
      assert RemoveAt(s, i)[1..] == RemoveAt(s[1..], i - 1);
    }
  }

  /** Whatever `userJoin` decides, a registry with unique ids and unique names
      keeps both, and the joining id ends up with at most one entry: exactly one
      after a success, none after a refusal (its earlier binding was released). */
  lemma JoinKeepsOneBindingPerId(users: seq<User>, id: string, username: string, room: string, now: int)
    requires IdsUnique(users) && NamesUnique(users)
    ensures var rest := Release(users, id);
            !NameBound(rest, username) ==>
              var after := rest + [User(id, username, room, now)];
              IdsUnique(after) && NamesUnique(after) && after[|after| - 1].id == id
    ensures var rest := Release(users, id);
            NameBound(rest, username) ==> forall k :: 0 <= k < |rest| ==> rest[k].id != id
  {
  }

  /** Names are compared exactly: with "Alice" bound on one connection,
      another connection may bind "alice". */
  lemma CaseDistinctNamesCoexist(id1: string, id2: string, room: string, t1: int)
    requires id1 != id2
    ensures !NameBound(Release([User(id1, "Alice", room, t1)], id2), "alice")
  {
    var users := [User(id1, "Alice", room, t1)];
    assert Release(users, id2) == users;
    assert "Alice"[0] != "alice"[0];
  }

  /** `getUserTheme`: the stored theme, unless it is missing or empty (falsy),
      in which case the default. */
  function ThemeOf(themes: map<string, string>, username: string): (t: string)
    ensures t != ""
    ensures username !in themes ==> t == Config.DEFAULT_THEME
    ensures username in themes && themes[username] != "" ==> t == themes[username]
  {
    if username in themes && themes[username] != "" then themes[username] else Config.DEFAULT_THEME
  }

  /** After `setUserTheme(u, t)`, `hasUserTheme(u)` holds and `getUserTheme(u)`
      gives t back (the default when t is empty); other users are unaffected. */
  lemma ThemeRoundTrip(themes: map<string, string>, username: string, theme: string, other: string)
    requires other != username
    ensures username in themes[username := theme]
    ensures ThemeOf(themes[username := theme], username) == if theme == "" then Config.DEFAULT_THEME else theme
    ensures ThemeOf(themes[username := theme], other) == ThemeOf(themes, other)
  {
  }

  /** The registry object: `users` and `userThemes`. */
  class UserService {
    var users: seq<User>
    var userThemes: map<string, string>

    /** One entry per socket id and one per username. */
    ghost predicate Valid()
      reads this
    {
      IdsUnique(users) && NamesUnique(users)
    }

    constructor ()
      ensures Valid() && users == [] && userThemes == map[]
    {
      users := [];
      userThemes := map[];
    }

    /** `userJoin(id, username, room)`: release the id's entry, then refuse a
        username bound to another entry, else append the new user at the end.
        Neither the username nor the room is trimmed or validated. */
    method UserJoin(id: string, username: string, room: string, now: int) returns (r: Result<User>)
      requires Valid()
      modifies this
      ensures Valid()
      ensures userThemes == old(userThemes)
      ensures var rest := Release(old(users), id);
              if NameBound(rest, username) then r == Err(TakenMessage(username)) && users == rest
              else r == Ok(User(id, username, room, now)) && users == rest + [r.value]
    {
      var indexById := FindIndex(users, (u: User) => u.id == id);
      if indexById != -1 {
        users := RemoveAt(users, indexById);
      }
      assert users == Release(old(users), id);
      JoinKeepsOneBindingPerId(old(users), id, username, room, now);
      var existing := Find(users, (u: User) => u.username == username);
      if existing.Some? {
        return Err(TakenMessage(username));
      }
      var user := User(id, username, room, now);
      users := users + [user];
      r := Ok(user);
    }

    /** `getCurrentUser(id)`. */
    function GetCurrentUser(id: string): (r: Option<User>)
      reads this
      ensures r.None? <==> forall k :: 0 <= k < |users| ==> users[k].id != id
      ensures r.Some? ==> r.value in users && r.value.id == id
    {
      Find(users, (u: User) => u.id == id)
    }

    /** `userLeave(id)`: removes and returns the entry bound to id; nothing
        changes when there is none. */
    method UserLeave(id: string) returns (r: Option<User>)
      requires Valid()
      modifies this
      ensures Valid()
      ensures userThemes == old(userThemes)
      ensures users == Release(old(users), id)
      ensures r == old(GetCurrentUser(id))
      ensures forall k :: 0 <= k < |users| ==> users[k].id != id
    {
      var index := FindIndex(users, (u: User) => u.id == id);
      if index == -1 {
        return None;
      }
      r := Some(users[index]);
      users := RemoveAt(users, index);
    }

    /** `getRoomUsers(room)`: the users in room, in registry order. */
    function GetRoomUsers(room: string): (r: seq<User>)
      reads this
      ensures IsSubsequence(r, users)
      ensures forall k :: 0 <= k < |r| ==> r[k].room == room
      ensures forall k :: 0 <= k < |users| && users[k].room == room ==> users[k] in r
    {
      FilterIsSubsequence(users, (u: User) => u.room == room);
      Filter(users, (u: User) => u.room == room)
    }

    /** `setUserTheme(username, theme)`. */
    method SetUserTheme(username: string, theme: string)
      modifies this
      ensures users == old(users)
      ensures userThemes == old(userThemes)[username := theme]
    {
      userThemes := userThemes[username := theme];
    }

    /** `getUserTheme(username)`. */
    function GetUserTheme(username: string): (t: string)
      reads this
      ensures t != ""
      ensures !HasUserTheme(username) ==> t == Config.DEFAULT_THEME
      ensures HasUserTheme(username) && userThemes[username] != "" ==> t == userThemes[username]
      ensures HasUserTheme(username) && userThemes[username] == "" ==> t == Config.DEFAULT_THEME
    {
      ThemeOf(userThemes, username)
    }

    /** `hasUserTheme(username)`. */
    predicate HasUserTheme(username: string)
      reads this
    {
      username in userThemes
    }
  }
}
