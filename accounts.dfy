/** The account handlers: `POST /api/register`, `GET /api/users` and
    `DELETE /api/users/:id`. Password hashing is done outside the model:
    `Register` receives the hash of the submitted password. */
module Accounts {
  import opened Records
  import opened Lookup

  ghost predicate UsernameInUse(users: seq<User>, name: string) {
    exists k :: 0 <= k < |users| && users[k].username == name
  }

  ghost predicate UniqueUsernames(users: seq<User>) {
    forall i, j :: 0 <= i < j < |users| ==> users[i].username != users[j].username
  }

  ghost predicate HasUser(users: seq<User>, id: int) {
    exists k :: 0 <= k < |users| && users[k].id == id
  }

  /** Position `k` holds the first account with id `id`. */
  ghost predicate FirstUserAt(users: seq<User>, id: int, k: int) {
    0 <= k < |users| && users[k].id == id &&
    forall j :: 0 <= j < k ==> users[j].id != id
  }

  /** `POST /api/register`: refuses an empty username or password, then a
      username already in use; otherwise appends an ordinary user (never an
      administrator) under a fresh id and answers its public view. */
  function Register(s: Snapshot, username: string, password: string, passwordHash: string): (o: Outcome<PublicUser>)
    ensures o.result.Err? ==> o.after == s
    ensures username == "" || password == "" ==> o.result == Err(MissingFields)
    ensures username != "" && password != "" && UsernameInUse(s.users, username) ==>
      o.result == Err(UsernameTaken)
    ensures username != "" && password != "" && !UsernameInUse(s.users, username) ==>
      o.result.Ok? &&
      var u := o.result.value;
      u.username == username && u.role == Regular &&
      o.after == s.(users := s.users + [User(u.id, username, passwordHash, Regular)]) &&
      u.id == NextId(UserIds(s.users)) &&
      (forall k :: 0 <= k < |s.users| ==> s.users[k].id < u.id) &&
      (|s.users| == 0 ==> u.id == 1)
  {
    if username == "" || password == "" then Outcome(Err(MissingFields), s)
    else if FirstIndex(s.users, UserNamed(username)) != -1 then Outcome(Err(UsernameTaken), s)
    else
      var ids := UserIds(s.users);
      assert forall k :: 0 <= k < |s.users| ==> s.users[k].id == ids[k];
      var id := NextId(ids);
      Outcome(Ok(PublicUser(id, username, Regular)), s.(users := s.users + [User(id, username, passwordHash, Regular)]))
  }

  /** Registration keeps usernames unique. */
  lemma {:induction false} RegisterKeepsUsernamesUnique(s: Snapshot, username: string, password: string, passwordHash: string)
    requires UniqueUsernames(s.users)
    ensures UniqueUsernames(Register(s, username, password, passwordHash).after.users)
  {
    var o := Register(s, username, password, passwordHash);
    if o.result.Ok? {
      var users := o.after.users;
      assert users[|s.users|].username == username;
      forall i, j | 0 <= i < j < |users|
        ensures users[i].username != users[j].username
      {
        if j == |s.users| {
          assert users[i] == s.users[i];
        }
      }
    }
  }

  /** `GET /api/users`: administrators only; every account without its hash. */
  function ListUsers(s: Snapshot, caller: Identity): (r: Result<seq<PublicUser>>)
    ensures !IsAdmin(caller) <==> r == Err(Forbidden)
    ensures IsAdmin(caller) ==> r.Ok?
    ensures r.Ok? ==>
              |r.value| == |s.users| &&
              forall k :: 0 <= k < |s.users| ==>
                r.value[k] == PublicUser(s.users[k].id, s.users[k].username, s.users[k].role)
  {
    if !IsAdmin(caller) then Err(Forbidden)
    else Ok(seq(|s.users|, k requires 0 <= k < |s.users| => PublicUser(s.users[k].id, s.users[k].username, s.users[k].role)))
  }

  /** `DELETE /api/users/:id`: refuses a non-administrator, then an
      administrator deleting their own account, then an unknown id;
      otherwise removes the first account with that id. The caller's own
      account therefore always survives its owner's requests. */
  function DeleteUser(s: Snapshot, caller: Identity, userId: int): (o: Outcome<()>)
    ensures o.result.Err? ==> o.after == s
    ensures !IsAdmin(caller) ==> o.result == Err(Forbidden)
    ensures IsAdmin(caller) && caller.id == userId ==> o.result == Err(CannotDeleteSelf)
    ensures IsAdmin(caller) && caller.id != userId && !HasUser(s.users, userId) ==>
      o.result == Err(UserNotFound)
    ensures IsAdmin(caller) && caller.id != userId && HasUser(s.users, userId) ==> o.result.Ok?
    ensures o.result.Ok? ==> IsAdmin(caller) && caller.id != userId && HasUser(s.users, userId)
    ensures IsAdmin(caller) && caller.id != userId ==> forall k :: FirstUserAt(s.users, userId, k) ==>
      o.after == s.(users := s.users[..k] + s.users[k + 1..])
    ensures forall k :: 0 <= k < |s.users| && s.users[k].id == caller.id ==> s.users[k] in o.after.users
  {
    if !IsAdmin(caller) then Outcome(Err(Forbidden), s)
    else if caller.id == userId then Outcome(Err(CannotDeleteSelf), s)
    else
      var k := FirstIndex(s.users, UserWithId(userId));
      if k == -1 then Outcome(Err(UserNotFound), s)
      else
        assert FirstUserAt(s.users, userId, k);
        var rest := s.users[..k] + s.users[k + 1..];
        assert forall j :: 0 <= j < |s.users| && j != k ==> s.users[j] == rest[if j < k then j else j - 1];
        Outcome(Ok(()), s.(users := rest))
  }
}
