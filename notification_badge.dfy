/** The bell badge: its list and counter, marking as read with a counter
    that never goes below zero, marking all, and clicks on notifications
    that carry a book. A click marks the notification whether or not it was
    already read; `ClickChecked` is the click that keeps the counter exact. */
module NotificationBadge {
  import opened Wrappers
  import opened NotificationViews

  /** Where a badge click leads: the book's page, when the notification has a book. */
  function BadgeRoute(n: Note): (r: Option<string>)
    ensures r.Some? <==> n.bookId != []
    ensures r.Some? ==> r.value == BookPath + n.bookId && r.value[|BookPath|..] == n.bookId
  {
    if n.bookId != [] then Some(BookPath + n.bookId) else None
  }

  /** `Math.max(0, count - 1)`. */
  function Decrement(count: int): (r: int)
    ensures r >= 0
    ensures count > 0 ==> r == count - 1
    ensures count <= 0 ==> r == 0
  {
    if count - 1 > 0 then count - 1 else 0
  }

  class Badge {
    var notifications: seq<Note>
    var unreadCount: int

    /** The counter is the number of unread notifications in the list. */
    predicate Consistent()
      reads this
    {
      UniqueIds(notifications) && unreadCount == Unread(notifications)
    }

    constructor()
      ensures notifications == [] && unreadCount == 0 && Consistent()
    {
      notifications, unreadCount := [], 0;
    }

    /** `fetchNotifications`; a failed request (`None`) changes nothing. */
    method Fetch(data: Option<seq<Note>>)
      modifies this
      ensures data.Some? ==> notifications == data.value && unreadCount == Unread(data.value)
      ensures data.None? ==> notifications == old(notifications) && unreadCount == old(unreadCount)
    {
      if data.Some? {
        notifications := data.value;
        unreadCount := Unread(data.value);
      }
    }

    /** `markAsRead`: after a successful request the matching notification
        is read and the counter drops by one, but not below zero. */
    method MarkAsRead(id: string, succeeded: bool)
      modifies this`notifications, this`unreadCount
      ensures succeeded ==> notifications == MarkRead(old(notifications), id) && unreadCount == Decrement(old(unreadCount))
      ensures !succeeded ==> notifications == old(notifications) && unreadCount == old(unreadCount)
      ensures old(unreadCount) >= 0 ==> unreadCount >= 0
    {
      if succeeded {
        notifications := MarkRead(notifications, id);
        unreadCount := Decrement(unreadCount);
      }
    }

    /** `markAllAsRead`. */
    method MarkAllAsRead(succeeded: bool)
      modifies this`notifications, this`unreadCount
      ensures succeeded ==> notifications == MarkAll(old(notifications)) && unreadCount == 0
      ensures !succeeded ==> notifications == old(notifications) && unreadCount == old(unreadCount)
      ensures old(Consistent()) ==> Consistent()
    {
      if succeeded {
        MarkAllUnread(notifications);
        notifications := MarkAll(notifications);
        unreadCount := 0;
      }
    }

    /** A click as written: only a notification with a book reacts; it is
        marked as read, read or not, and the book's page is opened. */
    method Click(n: Note, succeeded: bool) returns (route: Option<string>)
      modifies this`notifications, this`unreadCount
      ensures route == BadgeRoute(n)
      ensures n.bookId == [] ==> notifications == old(notifications) && unreadCount == old(unreadCount)
      ensures n.bookId != [] && succeeded ==>
        notifications == MarkRead(old(notifications), n.id) && unreadCount == Decrement(old(unreadCount))
      ensures n.bookId != [] && !succeeded ==> notifications == old(notifications) && unreadCount == old(unreadCount)
      ensures old(unreadCount) >= 0 ==> unreadCount >= 0
    {
      if n.bookId != [] {
        MarkAsRead(n.id, succeeded);
      }
      route := BadgeRoute(n);
    }

    /** The click with the unread check the other two views make: the
        counter keeps matching the list. */
    method ClickChecked(n: Note, succeeded: bool) returns (route: Option<string>)
      modifies this`notifications, this`unreadCount
      ensures route == BadgeRoute(n)
      ensures n.bookId == [] || n.isRead ==> notifications == old(notifications) && unreadCount == old(unreadCount)
      ensures n.bookId != [] && !n.isRead && succeeded ==>
        notifications == MarkRead(old(notifications), n.id) && unreadCount == Decrement(old(unreadCount))
      ensures n.bookId != [] && !n.isRead && !succeeded ==>
        notifications == old(notifications) && unreadCount == old(unreadCount)
      ensures old(Consistent()) && n in old(notifications) ==> Consistent()
    {
      if old(Consistent()) && n in notifications && !n.isRead {
        MarkReadKeepsIds(notifications, n.id);
        MarkReadUnread(notifications, n.id);
        var i :| 0 <= i < |notifications| && notifications[i] == n;
        assert forall j :: 0 <= j < |notifications| && notifications[j].id == n.id ==> j == i;
        assert Unread(notifications) > 0;
      }
      if n.bookId != [] && !n.isRead {
        MarkAsRead(n.id, succeeded);
      }
      route := BadgeRoute(n);
    }
  }

  /** One read and one unread notification, both with a book: clicking the
      read one leaves the counter at 0 while one notification is unread. */
  method ReadClickUndercounts() returns (count: int, unread: nat)
    ensures count == 0 && unread == 1
  {
    var b := new Badge();
    var seen := Note("n1", BookShare, true, None, "book1");
    var unseen := Note("n2", BookShare, false, None, "book2");
    b.Fetch(Some([seen, unseen]));
    var _ := b.Click(seen, true);
    assert b.notifications == [seen, unseen];
    count, unread := b.unreadCount, Unread(b.notifications);
  }

  /** The same clicks through `ClickChecked` keep the counter exact. */
  method CheckedClickCounts() returns (count: int, unread: nat)
    ensures count == unread == 1
  {
    var b := new Badge();
    var seen := Note("n1", BookShare, true, None, "book1");
    var unseen := Note("n2", BookShare, false, None, "book2");
    b.Fetch(Some([seen, unseen]));
    var _ := b.ClickChecked(seen, true);
    count, unread := b.unreadCount, Unread(b.notifications);
  }
}
