/** The relational store the controllers read and write, as tables of values.
    Records are keyed by their natural keys: users by their authentication
    uid, books by `googleBookId`, tropes and notifications by position, the
    category, author and language tables by name or code. Relations between
    records are sets of keys. */
module Store {
  import opened Wrappers
  import GB = GoogleBooks

  /** The user the request's token resolves to. */
  datatype AuthUser = AuthUser(uid: string, email: Option<string>, username: Option<string>)

  datatype User = User(
    id: string,
    email: string,
    username: string,
    password: string,
    books: set<string>,
    favorites: set<string>,
    readingList: set<string>,
    tropes: set<nat>,
    likedTropes: set<nat>,
    dislikedTropes: set<nat>,
    likedCategories: set<string>,
    dislikedCategories: set<string>,
    likedAuthors: set<string>,
    dislikedAuthors: set<string>,
    languages: set<string>,
    following: set<string>)

  /** A freshly created user: no relation holds anything yet. */
  function NewUser(id: string, email: string, username: string, password: string): (u: User)
    ensures u.id == id && u.email == email && u.username == username && u.password == password
    ensures u.books == {} && u.favorites == {} && u.readingList == {} && u.following == {}
    ensures u.tropes == {} && u.likedTropes == {} && u.dislikedTropes == {}
    ensures u.likedCategories == {} && u.dislikedCategories == {}
    ensures u.likedAuthors == {} && u.dislikedAuthors == {} && u.languages == {}
  {
    User(id, email, username, password, {}, {}, {}, {}, {}, {}, {}, {}, {}, {}, {}, {})
  }

  datatype Rating = Rating(userId: string, bookId: string, rating: int, review: string, createdAt: int)

  datatype NotificationKind = Follow | BookShare

  datatype Notification = Notification(
    kind: NotificationKind,
    message: string,
    userId: string,
    fromUserId: string,
    bookId: Option<string>,
    isRead: bool,
    createdAt: int)

  datatype TropeCategory = Romance | SciFiFantasy | Drama

  datatype Trope = Trope(name: string, description: string, category: TropeCategory)

  /** What a handler answers: a status with a body, or a status with an error message. */
  datatype Response<T> = Ok(status: int, value: T) | Error(status: int, error: string)

  /** The 401 answer of the handlers that need a signed-in user. */
  const NotAuthenticated := "Usuário não autenticado"
  /** The 400 answer of the search handlers called without a query. */
  const QueryRequired := "Query parameter is required"

  // ---------------------------------------------------------------
  // Integrity of the tables
  // ---------------------------------------------------------------

  predicate UsersKeyed(users: map<string, User>)
  {
    forall u :: u in users ==> users[u].id == u
  }

  /** Emails and usernames are unique columns. */
  predicate UniqueLogins(users: map<string, User>)
  {
    forall a, b :: a in users && b in users && a != b ==>
      users[a].email != users[b].email && users[a].username != users[b].username
  }

  predicate EmailTaken(users: map<string, User>, email: string)
  {
    exists u :: u in users && users[u].email == email
  }

  predicate UsernameTaken(users: map<string, User>, username: string)
  {
    exists u :: u in users && users[u].username == username
  }

  /** Every relation of every user points at a stored record. */
  predicate LinksResolve(users: map<string, User>, books: map<string, GB.BookData>, tropeCount: nat,
                         categories: set<string>, authors: set<string>, languages: map<string, string>)
  {
    forall u :: u in users ==> UserLinksResolve(users[u], users, books, tropeCount, categories, authors, languages)
  }

  predicate UserLinksResolve(u: User, users: map<string, User>, books: map<string, GB.BookData>, tropeCount: nat,
                             categories: set<string>, authors: set<string>, languages: map<string, string>)
  {
    && u.books <= books.Keys && u.favorites <= books.Keys && u.readingList <= books.Keys
    && (forall t :: t in u.tropes + u.likedTropes + u.dislikedTropes ==> t < tropeCount)
    && u.likedCategories <= categories && u.dislikedCategories <= categories
    && u.likedAuthors <= authors && u.dislikedAuthors <= authors
    && u.languages <= languages.Keys
    && u.following <= users.Keys
  }

  /** At most one rating per (user, book), each pointing at stored records. */
  predicate RatingsValid(ratings: seq<Rating>, users: map<string, User>, books: map<string, GB.BookData>)
  {
    && (forall i, j :: 0 <= i < j < |ratings| ==>
          !(ratings[i].userId == ratings[j].userId && ratings[i].bookId == ratings[j].bookId))
    && (forall i :: 0 <= i < |ratings| ==> ratings[i].userId in users && ratings[i].bookId in books)
  }

  predicate NotificationsValid(notifications: seq<Notification>, users: map<string, User>, books: map<string, GB.BookData>)
  {
    forall i :: 0 <= i < |notifications| ==>
      && notifications[i].userId in users && notifications[i].fromUserId in users
      && (notifications[i].bookId.Some? ==> notifications[i].bookId.value in books)
  }

  /** Trope names are unique. */
  predicate UniqueTropeNames(tropes: seq<Trope>)
  {
    forall i, j :: 0 <= i < j < |tropes| ==> tropes[i].name != tropes[j].name
  }

  class Db {
    var users: map<string, User>
    var books: map<string, GB.BookData>
    var ratings: seq<Rating>
    var notifications: seq<Notification>
    var tropes: seq<Trope>
    var categories: set<string>
    var authors: set<string>
    /** The language table: code to display name. */
    var languages: map<string, string>
    /** Whether each user has automated recommendations enabled. */
    var settings: map<string, bool>

    ghost predicate Valid()
      reads this
    {
      && UsersKeyed(users)
      && UniqueLogins(users)
      && LinksResolve(users, books, |tropes|, categories, authors, languages)
      && RatingsValid(ratings, users, books)
      && NotificationsValid(notifications, users, books)
      && UniqueTropeNames(tropes)
    }

    constructor()
      ensures Valid()
      ensures users == map[] && books == map[] && ratings == [] && notifications == []
      ensures tropes == [] && categories == {} && authors == {} && languages == map[] && settings == map[]
    {
      users, books, ratings, notifications := map[], map[], [], [];
      tropes, categories, authors, languages, settings := [], {}, {}, map[], map[];
    }

    /** `prisma.user.create`: fails with a unique-constraint error when the
        email or the username is already taken. */
    method CreateUser(id: string, email: string, username: string, password: string) returns (created: bool)
      requires Valid() && id !in users
      modifies this`users
      ensures Valid()
      ensures created <==> !EmailTaken(old(users), email) && !UsernameTaken(old(users), username)
      ensures users == if created then old(users)[id := NewUser(id, email, username, password)] else old(users)
    {
      created := !EmailTaken(users, email) && !UsernameTaken(users, username);
      if created {
        var u := NewUser(id, email, username, password);
        assert UserLinksResolve(u, users[id := u], books, |tropes|, categories, authors, languages);
        users := users[id := u];
      }
    }

    /** The find-or-create step several handlers share: a missing user is
        created with the token's email and username, or `''` for each, and an
        empty password. */
    method EnsureUser(auth: AuthUser) returns (ok: bool)
      requires Valid()
      modifies this`users
      ensures Valid()
      ensures ok <==> auth.uid in users
      ensures users == if auth.uid in old(users) || !ok then old(users) else old(users)[auth.uid := AutoUser(auth)]
      ensures auth.uid !in old(users) ==>
        (ok <==> !EmailTaken(old(users), AutoUser(auth).email) && !UsernameTaken(old(users), AutoUser(auth).username))
      ensures ok == Ensured(old(users), auth).Some? && users == Ensured(old(users), auth).GetOr(old(users))
    {
      if auth.uid in users {
        return true;
      }
      var u := AutoUser(auth);
      ok := CreateUser(auth.uid, u.email, u.username, u.password);
    }

    /** Replaces the user record under `id`, whose links must resolve. */
    method PutUser(id: string, u: User)
      requires Valid() && id in users && u.id == id
      requires u.email == users[id].email && u.username == users[id].username
      requires UserLinksResolve(u, users, books, |tropes|, categories, authors, languages)
      modifies this`users
      ensures Valid()
      ensures users == old(users)[id := u]
    {
      users := users[id := u];
      assert forall v :: v in users ==> UserLinksResolve(users[v], users, books, |tropes|, categories, authors, languages) by {
        forall v | v in users
          ensures UserLinksResolve(users[v], users, books, |tropes|, categories, authors, languages)
        {
          if v != id {
            assert UserLinksResolve(old(users)[v], old(users), books, |tropes|, categories, authors, languages);
          }
        }
      }
    }

    /** Gives user `id` a new username, held by no other user. */
    method SetUsername(id: string, name: string)
      requires Valid() && id in users
      requires forall v :: v in users && v != id ==> users[v].username != name
      modifies this`users
      ensures Valid()
      ensures users == old(users)[id := old(users)[id].(username := name)]
    {
      var u := users[id].(username := name);
      assert UserLinksResolve(users[id], users, books, |tropes|, categories, authors, languages);
      users := users[id := u];
      assert forall v :: v in users ==> UserLinksResolve(users[v], users, books, |tropes|, categories, authors, languages) by {
        forall v | v in users
          ensures UserLinksResolve(users[v], users, books, |tropes|, categories, authors, languages)
        {
          assert UserLinksResolve(old(users)[v], old(users), books, |tropes|, categories, authors, languages);
        }
      }
    }

    /** `prisma.notification.create`: the recipient, the sender and the book
        it names must exist. */
    method AddNotification(n: Notification)
      requires Valid()
      requires n.userId in users && n.fromUserId in users && (n.bookId.Some? ==> n.bookId.value in books)
      modifies this`notifications
      ensures Valid()
      ensures notifications == old(notifications) + [n]
    {
      notifications := notifications + [n];
    }
  }

  /** The users table after the find-or-create step, or None when creating
      the missing user breaks a unique constraint. */
  function Ensured(users: map<string, User>, auth: AuthUser): (r: Option<map<string, User>>)
    ensures auth.uid in users ==> r == Some(users)
    ensures r.Some? ==> auth.uid in r.value && r.value.Keys == users.Keys + {auth.uid}
    ensures r.Some? ==> forall u :: u in users ==> r.value[u] == users[u]
    ensures r.None? <==> auth.uid !in users && (EmailTaken(users, AutoUser(auth).email) || UsernameTaken(users, AutoUser(auth).username))
  {
    if auth.uid in users then Some(users)
    else if EmailTaken(users, AutoUser(auth).email) || UsernameTaken(users, AutoUser(auth).username) then None
    else Some(users[auth.uid := AutoUser(auth)])
  }

  /** The record a handler creates for a token whose user is not stored yet. */
  function AutoUser(auth: AuthUser): User
  {
    NewUser(auth.uid, auth.email.GetOr(""), auth.username.GetOr(""), "")
  }
}
