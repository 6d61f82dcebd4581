/** The notification handlers: listing, marking as read, book shares and the
    follow notification. Notifications are identified by their position in
    the store. */
module NotificationController {
  import opened Wrappers
  import opened Seqs
  import GB = GoogleBooks
  import opened Store
  import BookController

  const UserNotAuthenticated := "User not authenticated"

  // ---------------------------------------------------------------
  // getUserNotifications
  // ---------------------------------------------------------------

  /** The positions of the notifications addressed to `uid`, in store order. */
  function OwnedBy(ns: seq<Notification>, uid: string): (r: seq<nat>)
    ensures forall k :: 0 <= k < |r| ==> r[k] < |ns| && ns[r[k]].userId == uid
    ensures forall i :: 0 <= i < |ns| && ns[i].userId == uid ==> i in r
    ensures forall k, l :: 0 <= k < l < |r| ==> r[k] < r[l]
  {
    Positions(ns, (x: Notification) => x.userId == uid)
  }

  /** The creation time of notification `i`, or 0 outside the store. */
  function CreatedAt(ns: seq<Notification>, i: nat): int
  {
    if i < |ns| then ns[i].createdAt else 0
  }

  /** `orderBy: { createdAt: 'desc' }` as a comparator on positions. */
  function Newest(ns: seq<Notification>): (nat, nat) -> bool
  {
    (i: nat, j: nat) => CreatedAt(ns, i) >= CreatedAt(ns, j)
  }

  /** `getUserNotifications`: the caller's notifications, newest first. */
  function NotificationsOf(ns: seq<Notification>, auth: Option<AuthUser>): Response<seq<nat>>
  {
    if auth.None? then Error(401, UserNotAuthenticated)
    else Ok(200, SortBy(OwnedBy(ns, auth.value.uid), Newest(ns)))
  }

  /** The listing holds exactly the caller's notifications, each once. */
  lemma NotificationsOfContents(ns: seq<Notification>, auth: Option<AuthUser>)
    ensures var r := NotificationsOf(ns, auth);
      && (auth.None? <==> r.Error?)
      && (r.Ok? ==>
            && NoDup(r.value)
            && (forall i :: i in r.value <==> 0 <= i < |ns| && ns[i].userId == auth.value.uid))
  {
    if auth.Some? {
      var owned := OwnedBy(ns, auth.value.uid);
      var r := SortBy(owned, Newest(ns));
      assert NoDup(owned) by {
        forall k, l | 0 <= k < l < |owned| ensures owned[k] != owned[l] { }
      }
      NoDupPermutation(owned, r);
      forall x ensures x in r <==> x in owned {
        assert x in r <==> x in multiset(r);
        assert x in owned <==> x in multiset(owned);
      }
    }
  }

  /** The listing puts later `createdAt` first. */
  lemma NotificationsOfOrder(ns: seq<Notification>, auth: Option<AuthUser>)
    requires auth.Some?
    ensures var r := NotificationsOf(ns, auth).value;
      forall k, l :: 0 <= k < l < |r| ==> r[k] < |ns| && r[l] < |ns| && ns[r[k]].createdAt >= ns[r[l]].createdAt
  {
    NotificationsOfContents(ns, auth);
    var r := NotificationsOf(ns, auth).value;
    assert Total(Newest(ns)) && Transitive(Newest(ns));
    SortBySorted(OwnedBy(ns, auth.value.uid), Newest(ns));
    forall k, l | 0 <= k < l < |r|
      ensures r[k] < |ns| && r[l] < |ns| && ns[r[k]].createdAt >= ns[r[l]].createdAt
    {
      assert r[k] in r && r[l] in r;
      assert Newest(ns)(r[k], r[l]);
    }
  }

  // ---------------------------------------------------------------
  // markNotificationAsRead and markAllNotificationsAsRead
  // ---------------------------------------------------------------

  /** Replaces notification `i` by one with the same recipient, sender and book. */
  method SetNotification(db: Db, i: nat, n: Notification)
    requires db.Valid() && i < |db.notifications|
    requires n.userId == db.notifications[i].userId && n.fromUserId == db.notifications[i].fromUserId
    requires n.bookId == db.notifications[i].bookId
    modifies db`notifications
    ensures db.Valid()
    ensures db.notifications == old(db.notifications)[i := n]
  {
    db.notifications := db.notifications[i := n];
  }

  /** `markNotificationAsRead`: only a notification addressed to the caller
      can be marked; it alone changes. */
  method MarkNotificationAsRead(db: Db, auth: Option<AuthUser>, id: int) returns (res: Response<string>)
    requires db.Valid()
    modifies db`notifications
    ensures db.Valid()
    ensures auth.None? ==> res == Error(401, UserNotAuthenticated) && db.notifications == old(db.notifications)
    ensures auth.Some? ==>
      var owned := 0 <= id < |old(db.notifications)| && old(db.notifications)[id].userId == auth.value.uid;
      && (!owned ==> res == Error(404, "Notification not found") && db.notifications == old(db.notifications))
      && (owned ==> res == Ok(200, "Notification marked as read")
                    && db.notifications == old(db.notifications)[id := old(db.notifications)[id].(isRead := true)])
  {
    if auth.None? {
      return Error(401, UserNotAuthenticated);
    }
    if !(0 <= id < |db.notifications|) || db.notifications[id].userId != auth.value.uid {
      return Error(404, "Notification not found");
    }
    SetNotification(db, id, db.notifications[id].(isRead := true));
    return Ok(200, "Notification marked as read");
  }

  /** The notification as marked by `updateMany`: read when addressed to `uid`. */
  function ReadIfOwned(n: Notification, uid: string): Notification
  {
    if n.userId == uid then n.(isRead := true) else n
  }

  /** The notifications after marking all of `uid`'s as read. */
  function MarkAllRead(ns: seq<Notification>, uid: string): (r: seq<Notification>)
    ensures |r| == |ns|
  {
    if ns == [] then [] else MarkAllRead(ns[..|ns| - 1], uid) + [ReadIfOwned(ns[|ns| - 1], uid)]
  }

  /** Every notification of `uid` ends up read with nothing else about it
      changed, and every other user's notification is untouched. */
  lemma {:induction false} MarkAllReadFacts(ns: seq<Notification>, uid: string)
    ensures forall i :: 0 <= i < |ns| && ns[i].userId == uid ==> MarkAllRead(ns, uid)[i] == ns[i].(isRead := true)
    ensures forall i :: 0 <= i < |ns| && ns[i].userId != uid ==> MarkAllRead(ns, uid)[i] == ns[i]
  {
    if ns != [] {
      MarkAllReadFacts(ns[..|ns| - 1], uid);
    }
  }

  /** Marking all as read a second time changes nothing. */
  lemma {:induction false} MarkAllReadIdempotent(ns: seq<Notification>, uid: string)
    ensures MarkAllRead(MarkAllRead(ns, uid), uid) == MarkAllRead(ns, uid)
  {
    if ns != [] {
      var r := MarkAllRead(ns, uid);
      MarkAllReadIdempotent(ns[..|ns| - 1], uid);
      assert r[..|r| - 1] == MarkAllRead(ns[..|ns| - 1], uid);
    }
  }

  /** `markAllNotificationsAsRead`: one `updateMany` over the caller's unread notifications. */
  method MarkAllNotificationsAsRead(db: Db, auth: Option<AuthUser>) returns (res: Response<string>)
    requires db.Valid()
    modifies db`notifications
    ensures db.Valid()
    ensures auth.None? ==> res == Error(401, UserNotAuthenticated) && db.notifications == old(db.notifications)
    ensures auth.Some? ==> res == Ok(200, "All notifications marked as read")
                           && db.notifications == MarkAllRead(old(db.notifications), auth.value.uid)
  {
    if auth.None? {
      return Error(401, UserNotAuthenticated);
    }
    MarkAllReadFacts(db.notifications, auth.value.uid);
    db.notifications := MarkAllRead(db.notifications, auth.value.uid);
    return Ok(200, "All notifications marked as read");
  }

  // ---------------------------------------------------------------
  // shareBook
  // ---------------------------------------------------------------

  const DefaultShareMessage := "te recomendou um livro"

  /** The BOOK_SHARE notification a share creates; an empty message gets the default. */
  function ShareNotification(toUserId: string, fromUserId: string, bookKey: string, message: string, now: int)
    : (n: Notification)
    ensures n.kind == BookShare && n.userId == toUserId && n.fromUserId == fromUserId && n.bookId == Some(bookKey)
    ensures n.message == if message == [] then DefaultShareMessage else message
    ensures !n.isRead
  {
    Notification(BookShare, if message == [] then DefaultShareMessage else message, toUserId, fromUserId, Some(bookKey), false, now)
  }

  /** `shareBook`: an unknown recipient is refused; otherwise the book is
      looked up or fetched and stored as in `getBookDetails`, and one
      BOOK_SHARE notification to the recipient is created. A book that
      cannot be stored, or a sender without a record, makes the handler
      fail after the book step. */
  method ShareBook(db: Db, gw: GB.Gateway, auth: Option<AuthUser>, googleBookId: string, toUserId: string,
                   message: string, now: int, outcome: GB.Outcome<GB.Volume>) returns (res: Response<Notification>)
    requires db.Valid() && gw.Valid()
    modifies db`books, db`notifications, gw
    ensures db.Valid() && gw.Valid()
    ensures db.users == old(db.users)
    ensures auth.None? || toUserId !in db.users ==>
      && res == (if auth.None? then Error(401, UserNotAuthenticated) else Error(404, "Recipient user not found"))
      && db.books == old(db.books) && db.notifications == old(db.notifications) && gw.cache == old(gw.cache)
    ensures auth.Some? && toUserId in db.users ==>
      var key := BookController.ResolveBook(old(db.books), old(gw.cache), googleBookId, now, outcome);
      && db.books == BookController.BooksAfterResolve(old(db.books), old(gw.cache), googleBookId, now, outcome)
      && gw.cache == BookController.CacheAfterResolve(old(db.books), old(gw.cache), googleBookId, now, outcome)
      && (key.None? || auth.value.uid !in db.users ==>
            res == Error(500, "Error sharing book") && db.notifications == old(db.notifications))
      && (key.Some? && auth.value.uid in db.users ==>
            var n := ShareNotification(toUserId, auth.value.uid, key.value, message, now);
            res == Ok(201, n) && db.notifications == old(db.notifications) + [n])
  {
    if auth.None? {
      return Error(401, UserNotAuthenticated);
    }
    if toUserId !in db.users {
      return Error(404, "Recipient user not found");
    }
    var key := BookController.EnsureBook(db, gw, googleBookId, now, outcome);
    if key.None? || auth.value.uid !in db.users {
      return Error(500, "Error sharing book");
    }
    var n := ShareNotification(toUserId, auth.value.uid, key.value, message, now);
    db.AddNotification(n);
    return Ok(201, n);
  }

  // ---------------------------------------------------------------
  // followUser (notification only)
  // ---------------------------------------------------------------

  /** This file's `followUser`: creates a FOLLOW notification with the fixed
      message and leaves the follow relation alone. */
  method NotifyFollow(db: Db, auth: Option<AuthUser>, targetUserId: string, now: int) returns (res: Response<string>)
    requires db.Valid()
    modifies db`notifications
    ensures db.Valid()
    ensures auth.None? ==> res == Error(401, UserNotAuthenticated) && db.notifications == old(db.notifications)
    ensures auth.Some? && targetUserId !in db.users ==>
      res == Error(404, "Target user not found") && db.notifications == old(db.notifications)
    ensures auth.Some? && targetUserId in db.users && auth.value.uid !in db.users ==>
      res == Error(500, "Error following user") && db.notifications == old(db.notifications)
    ensures auth.Some? && targetUserId in db.users && auth.value.uid in db.users ==>
      && res == Ok(200, "User followed successfully")
      && db.notifications == old(db.notifications) + [Notification(Follow, "começou a te seguir", targetUserId, auth.value.uid, None, false, now)]
  {
    if auth.None? {
      return Error(401, UserNotAuthenticated);
    }
    if targetUserId !in db.users {
      return Error(404, "Target user not found");
    }
    if auth.value.uid !in db.users {
      return Error(500, "Error following user");
    }
    db.AddNotification(Notification(Follow, "começou a te seguir", targetUserId, auth.value.uid, None, false, now));
    return Ok(200, "User followed successfully");
  }
}
