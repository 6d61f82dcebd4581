/** The user handlers: registration, username availability and updates,
    the follow relation, profiles and user search. */
module UserController {
  import opened Wrappers
  import opened Text
  import opened Seqs
  import opened Store

  const UserNotAuthenticated := "User not authenticated"

  // ---------------------------------------------------------------
  // registerUser
  // ---------------------------------------------------------------

  /** The answer and the users table after registering `uid`; an empty uid
      stands for a missing one. */
  function RegisterSpec(users: map<string, User>, uid: string, email: string, password: string, username: string)
    : (Response<User>, map<string, User>)
  {
    if uid == [] then (Error(400, "Firebase UID is required"), users)
    else if EmailTaken(users, email) then (Error(400, "Email já registrado"), users)
    else if UsernameTaken(users, username) then (Error(400, "Nome de usuário já está em uso"), users)
    else if uid in users then (Error(500, "Erro ao registrar o usuário"), users)
    else
      var u := NewUser(uid, email, username, password);
      (Ok(201, u), users[uid := u])
  }

  /** The checks run in order (uid, email, username) and each refusal leaves
      the table as it was; a registration adds exactly the new user. */
  lemma RegisterFacts(users: map<string, User>, uid: string, email: string, password: string, username: string)
    ensures var (res, after) := RegisterSpec(users, uid, email, password, username);
      && (res.Error? ==> after == users)
      && (uid == [] ==> res == Error(400, "Firebase UID is required"))
      && (uid != [] && EmailTaken(users, email) ==> res == Error(400, "Email já registrado"))
      && (uid != [] && !EmailTaken(users, email) && UsernameTaken(users, username) ==>
            res == Error(400, "Nome de usuário já está em uso"))
      && (uid != [] && !EmailTaken(users, email) && !UsernameTaken(users, username) && uid in users ==>
            res == Error(500, "Erro ao registrar o usuário"))
      && (res.Ok? <==> uid != [] && uid !in users && !EmailTaken(users, email) && !UsernameTaken(users, username))
      && (res.Ok? ==>
            && res.status == 201
            && after.Keys == users.Keys + {uid}
            && after[uid] == res.value
            && res.value.email == email && res.value.username == username && res.value.password == password
            && (forall v :: v in users ==> after[v] == users[v]))
  {
  }

  method RegisterUser(db: Db, uid: string, email: string, password: string, username: string) returns (res: Response<User>)
    requires db.Valid()
    modifies db`users
    ensures db.Valid()
    ensures (res, db.users) == RegisterSpec(old(db.users), uid, email, password, username)
  {
    if uid == [] {
      return Error(400, "Firebase UID is required");
    }
    if EmailTaken(db.users, email) {
      return Error(400, "Email já registrado");
    }
    if UsernameTaken(db.users, username) {
      return Error(400, "Nome de usuário já está em uso");
    }
    if uid in db.users {
      return Error(500, "Erro ao registrar o usuário");
    }
    var created := db.CreateUser(uid, email, username, password);
    return Ok(201, NewUser(uid, email, username, password));
  }

  // ---------------------------------------------------------------
  // checkUsernameAvailability
  // ---------------------------------------------------------------

  /** `checkUsernameAvailability`: whether no user holds the name. */
  function UsernameAvailability(users: map<string, User>, username: string): (r: Response<bool>)
    ensures username == [] <==> r == Error(400, "Username parameter is required")
    ensures r.Ok? ==> r.status == 200 && (r.value <==> forall v :: v in users ==> users[v].username != username)
  {
    if username == [] then Error(400, "Username parameter is required")
    else Ok(200, !UsernameTaken(users, username))
  }

  // ---------------------------------------------------------------
  // updateUsername
  // ---------------------------------------------------------------

  /** The validation of a new username: None when it may be used. */
  function UsernameProblem(username: string): (r: Option<string>)
    ensures r.None? <==> |username| >= 3 && AllWordChars(username)
  {
    if username == [] then Some("Username is required")
    else if |username| < 3 then Some("Username must be at least 3 characters long")
    else if !AllWordChars(username) then Some("Username can only contain letters, numbers, and underscore")
    else None
  }

  /** Someone other than `uid` holds the name. */
  predicate HeldByOther(users: map<string, User>, uid: string, username: string)
  {
    exists v :: v in users && v != uid && users[v].username == username
  }

  /** The answer and the users table after `updateUsername`: a caller
      without a record is created with the new name. */
  function UpdateUsernameSpec(users: map<string, User>, auth: Option<AuthUser>, username: string)
    : (Response<string>, map<string, User>)
  {
    if auth.None? then (Error(401, UserNotAuthenticated), users)
    else if UsernameProblem(username).Some? then (Error(400, UsernameProblem(username).value), users)
    else if HeldByOther(users, auth.value.uid, username) then (Error(400, "Username already taken"), users)
    else
      var uid := auth.value.uid;
      if uid in users then (Ok(200, "Username updated successfully"), users[uid := users[uid].(username := username)])
      else if EmailTaken(users, auth.value.email.GetOr("")) then (Error(500, "Error updating username"), users)
      else (Ok(200, "Username updated successfully"), users[uid := NewUser(uid, auth.value.email.GetOr(""), username, "")])
  }

  /** A name that is too short, has a character outside `[a-zA-Z0-9_]` or is
      held by another user is refused; re-setting one's own name is allowed;
      on success the caller holds the name and nobody else changes. */
  lemma UpdateUsernameFacts(users: map<string, User>, auth: Option<AuthUser>, username: string)
    requires UsersKeyed(users) && UniqueLogins(users)
    ensures var (res, after) := UpdateUsernameSpec(users, auth, username);
      && (res.Error? ==> after == users)
      && (auth.Some? && (|username| < 3 || !AllWordChars(username)) ==> res.Error? && res.status == 400)
      && (auth.Some? && HeldByOther(users, auth.value.uid, username) ==> res.Error? && res.status == 400)
      && ((auth.Some? && auth.value.uid in users && users[auth.value.uid].username == username
            && |username| >= 3 && AllWordChars(username)) ==> res.Ok? && after == users)
      && (res.Ok? ==>
            && auth.Some? && after.Keys == users.Keys + {auth.value.uid}
            && after[auth.value.uid].username == username
            && (forall v :: v in users && v != auth.value.uid ==> after[v] == users[v]))
  {
    if auth.Some? && auth.value.uid in users && users[auth.value.uid].username == username
       && |username| >= 3 && AllWordChars(username) {
      var uid := auth.value.uid;
      assert !HeldByOther(users, uid, username);
      assert users[uid := users[uid].(username := username)] == users by {
        assert users[uid].(username := username) == users[uid];
      }
    }
  }

  method UpdateUsername(db: Db, auth: Option<AuthUser>, username: string) returns (res: Response<string>)
    requires db.Valid()
    modifies db`users
    ensures db.Valid()
    ensures (res, db.users) == UpdateUsernameSpec(old(db.users), auth, username)
  {
    if auth.None? {
      return Error(401, UserNotAuthenticated);
    }
    var problem := UsernameProblem(username);
    if problem.Some? {
      return Error(400, problem.value);
    }
    if HeldByOther(db.users, auth.value.uid, username) {
      return Error(400, "Username already taken");
    }
    var uid := auth.value.uid;
    if uid in db.users {
      db.SetUsername(uid, username);
    } else {
      var created := db.CreateUser(uid, auth.value.email.GetOr(""), username, "");
      if !created {
        return Error(500, "Error updating username");
      }
    }
    return Ok(200, "Username updated successfully");
  }

  // ---------------------------------------------------------------
  // followUser and unfollowUser
  // ---------------------------------------------------------------

  function FollowMessage(username: string): string
  {
    username + " começou a te seguir"
  }

  /** The answer, users table and notifications after the caller follows
      `target`; an empty target stands for a missing one. */
  function FollowSpec(users: map<string, User>, notifications: seq<Notification>, auth: Option<AuthUser>,
                      target: string, now: int): (Response<string>, map<string, User>, seq<Notification>)
  {
    if auth.None? then (Error(401, UserNotAuthenticated), users, notifications)
    else if target == [] then (Error(400, "Target user ID is required"), users, notifications)
    else if target !in users then (Error(404, "Target user not found"), users, notifications)
    else
      var uid := auth.value.uid;
      if uid in users && target in users[uid].following then (Error(400, "Already following this user"), users, notifications)
      else if uid !in users then (Error(500, "Error following user"), users, notifications)
      else
        var u := users[uid];
        (Ok(200, "User followed successfully"),
         users[uid := u.(following := u.following + {target})],
         notifications + [Notification(Follow, FollowMessage(u.username), target, uid, None, false, now)])
  }

  /** A missing target or an existing follow changes nothing; otherwise the
      target joins the caller's following set and exactly one FOLLOW
      notification, addressed to the target, is created. */
  lemma FollowFacts(users: map<string, User>, notifications: seq<Notification>, auth: Option<AuthUser>, target: string, now: int)
    ensures var (res, after, notes) := FollowSpec(users, notifications, auth, target, now);
      && (res.Error? ==> after == users && notes == notifications)
      && (auth.Some? && target != [] && target !in users ==> res.Error? && res.status == 404)
      && (auth.Some? && target in users && auth.value.uid in users && target in users[auth.value.uid].following ==>
            res.Error? && res.status == 400)
      && (res.Ok? ==>
            && auth.Some? && auth.value.uid in users && target in users
            && target !in users[auth.value.uid].following
            && after.Keys == users.Keys
            && after[auth.value.uid].following == users[auth.value.uid].following + {target}
            && (forall v :: v in users && v != auth.value.uid ==> after[v] == users[v])
            && |notes| == |notifications| + 1 && notes[..|notifications|] == notifications
            && notes[|notifications|].kind == Follow
            && notes[|notifications|].userId == target
            && notes[|notifications|].fromUserId == auth.value.uid)
  {
    var (res, after, notes) := FollowSpec(users, notifications, auth, target, now);
    if res.Ok? {
      assert notes[..|notifications|] == notifications;
    }
  }

  method FollowUser(db: Db, auth: Option<AuthUser>, target: string, now: int) returns (res: Response<string>)
    requires db.Valid()
    modifies db`users, db`notifications
    ensures db.Valid()
    ensures (res, db.users, db.notifications) == FollowSpec(old(db.users), old(db.notifications), auth, target, now)
  {
    if auth.None? {
      return Error(401, UserNotAuthenticated);
    }
    if target == [] {
      return Error(400, "Target user ID is required");
    }
    if target !in db.users {
      return Error(404, "Target user not found");
    }
    var uid := auth.value.uid;
    if uid in db.users && target in db.users[uid].following {
      return Error(400, "Already following this user");
    }
    if uid !in db.users {
      return Error(500, "Error following user");
    }
    var u := db.users[uid];
    assert UserLinksResolve(u, db.users, db.books, |db.tropes|, db.categories, db.authors, db.languages);
    db.PutUser(uid, u.(following := u.following + {target}));
    db.AddNotification(Notification(Follow, FollowMessage(u.username), target, uid, None, false, now));
    return Ok(200, "User followed successfully");
  }

  /** The answer and the users table after the caller unfollows `target`. */
  function UnfollowSpec(users: map<string, User>, auth: Option<AuthUser>, target: string)
    : (Response<string>, map<string, User>)
  {
    if auth.None? then (Error(401, UserNotAuthenticated), users)
    else if target == [] then (Error(400, "Target user ID is required"), users)
    else if auth.value.uid !in users then (Error(500, "Error unfollowing user"), users)
    else
      var u := users[auth.value.uid];
      (Ok(200, "User unfollowed successfully"), users[auth.value.uid := u.(following := u.following - {target})])
  }

  /** Unfollowing removes only `target` from the caller's following set. */
  lemma UnfollowFacts(users: map<string, User>, auth: Option<AuthUser>, target: string)
    ensures var (res, after) := UnfollowSpec(users, auth, target);
      && (res.Error? ==> after == users)
      && (auth.Some? && target == [] ==> res == Error(400, "Target user ID is required"))
      && (res.Ok? ==>
            && auth.Some? && after.Keys == users.Keys
            && after[auth.value.uid].following == users[auth.value.uid].following - {target}
            && after[auth.value.uid].(following := users[auth.value.uid].following) == users[auth.value.uid]
            && (forall v :: v in users && v != auth.value.uid ==> after[v] == users[v]))
  {
  }

  /** Following and then unfollowing a user one did not follow restores the table. */
  lemma FollowThenUnfollow(users: map<string, User>, notifications: seq<Notification>, auth: Option<AuthUser>, target: string, now: int)
    requires FollowSpec(users, notifications, auth, target, now).0.Ok?
    ensures UnfollowSpec(FollowSpec(users, notifications, auth, target, now).1, auth, target).1 == users
  {
    var uid := auth.value.uid;
    var u := users[uid];
    assert target !in u.following;
    assert (u.following + {target}) - {target} == u.following;
    assert users[uid := u] == users;
  }

  method UnfollowUser(db: Db, auth: Option<AuthUser>, target: string) returns (res: Response<string>)
    requires db.Valid()
    modifies db`users
    ensures db.Valid()
    ensures (res, db.users) == UnfollowSpec(old(db.users), auth, target)
  {
    if auth.None? {
      return Error(401, UserNotAuthenticated);
    }
    if target == [] {
      return Error(400, "Target user ID is required");
    }
    var uid := auth.value.uid;
    if uid !in db.users {
      return Error(500, "Error unfollowing user");
    }
    var u := db.users[uid];
    assert UserLinksResolve(u, db.users, db.books, |db.tropes|, db.categories, db.authors, db.languages);
    db.PutUser(uid, u.(following := u.following - {target}));
    return Ok(200, "User unfollowed successfully");
  }

  // ---------------------------------------------------------------
  // getUserProfile
  // ---------------------------------------------------------------

  datatype Profile = Profile(
    id: string,
    email: Option<string>,
    username: string,
    followers: nat,
    following: nat,
    books: nat,
    favorites: nat,
    isFollowing: bool)

  /** `getUserProfile`: the profile of `userId`, or of the caller when it is
      empty, with counts of followers, followed users, books and favourites. */
  function ProfileOf(users: map<string, User>, auth: Option<AuthUser>, userId: string): Response<Profile>
  {
    if auth.None? then Error(401, UserNotAuthenticated)
    else
      var uid := auth.value.uid;
      var target := if userId != [] then userId else uid;
      if target !in users then Error(404, "User not found")
      else
        var t := users[target];
        var followers := set v | v in users && target in users[v].following;
        Ok(200, Profile(
          target,
          if target == uid then Some(t.email) else None,
          t.username,
          |followers|, |t.following|, |t.books|, |t.favorites|,
          userId != [] && userId != uid && uid in users && userId in users[uid].following))
  }

  /** The email is shown only on one's own profile; `isFollowing` holds only
      when the caller views another user they follow. */
  lemma ProfileFacts(users: map<string, User>, auth: Option<AuthUser>, userId: string)
    ensures var r := ProfileOf(users, auth, userId);
      && (auth.None? <==> r == Error(401, UserNotAuthenticated))
      && (r.Ok? ==>
            && auth.Some?
            && r.value.id == (if userId != [] then userId else auth.value.uid)
            && r.value.id in users && r.value.username == users[r.value.id].username
            && (r.value.email.Some? <==> r.value.id == auth.value.uid)
            && (r.value.email.Some? ==> r.value.email.value == users[r.value.id].email)
            && (r.value.isFollowing <==>
                  r.value.id != auth.value.uid && auth.value.uid in users && r.value.id in users[auth.value.uid].following))
      && (auth.Some? && (if userId != [] then userId else auth.value.uid) !in users ==> r == Error(404, "User not found"))
  {
  }

  // ---------------------------------------------------------------
  // searchUsers
  // ---------------------------------------------------------------

  /** `searchUsers`: the ids of at most ten other users whose usernames
      contain the query, ignoring case; the store returns them in no
      particular order, and fewer than ten only when there are no more. */
  method SearchUsers(db: Db, auth: Option<AuthUser>, query: string) returns (res: Response<seq<string>>)
    ensures auth.None? ==> res == Error(401, UserNotAuthenticated)
    ensures auth.Some? && query == [] ==> res == Error(400, QueryRequired)
    ensures auth.Some? && query != [] ==> res.Ok? && res.status == 200
    ensures res.Ok? ==>
      var r := res.value;
      && |r| <= 10 && NoDup(r)
      && (forall i :: 0 <= i < |r| ==>
            r[i] in db.users && r[i] != auth.value.uid && IncludesIgnoringCase(db.users[r[i]].username, query))
      && (|r| < 10 ==> forall v :: v in db.users && v != auth.value.uid && IncludesIgnoringCase(db.users[v].username, query) ==> v in r)
  {
    if auth.None? {
      return Error(401, UserNotAuthenticated);
    }
    if query == [] {
      return Error(400, QueryRequired);
    }
    var uid := auth.value.uid;
    var left := db.users.Keys;
    var found: seq<string> := [];
    while left != {} && |found| < 10
      invariant left <= db.users.Keys && |found| <= 10 && NoDup(found)
      invariant forall v :: v in found ==> v in db.users && v !in left && v != uid && IncludesIgnoringCase(db.users[v].username, query)
      invariant forall v :: v in db.users && v !in left && v != uid && IncludesIgnoringCase(db.users[v].username, query) ==> v in found
      decreases left
    {
      var v :| v in left;
      if v != uid && IncludesIgnoringCase(db.users[v].username, query) {
        found := found + [v];
      }
      left := left - {v};
    }
    assert forall i :: 0 <= i < |found| ==> found[i] in found;
    return Ok(200, found);
  }
}
