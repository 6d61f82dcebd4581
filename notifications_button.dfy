/** The bell button with its popover: the list and its counter, a click
    that marks only unread notifications, the two-item preview and the
    "+N" overflow entry. */
module NotificationsButton {
  import opened Wrappers
  import opened Seqs
  import opened NotificationViews

  /** The number of notifications the popover previews. */
  const PreviewSize := 2

  /** `notifications.slice(0, 2)`. */
  function Preview(ns: seq<Note>): (r: seq<Note>)
    ensures |r| <= PreviewSize && |r| <= |ns| && r == ns[..|r|]
    ensures |ns| <= PreviewSize ==> r == ns
  {
    Take(ns, PreviewSize)
  }

  /** The N of the "+N" entry, shown only when more notifications exist than
      are previewed. */
  function Overflow(ns: seq<Note>): (r: Option<nat>)
    ensures r.Some? <==> |ns| > PreviewSize
  {
    if |ns| > PreviewSize then Some(|ns| - PreviewSize) else None
  }

  /** The preview and the overflow count account for every notification,
      each once. */
  lemma PreviewAccounts(ns: seq<Note>)
    ensures |Preview(ns)| + Overflow(ns).GetOr(0) == |ns|
    ensures Preview(ns) + ns[|Preview(ns)|..] == ns
  {
  }

  const AllNotificationsPath := "/notifications"

  class Button {
    var notifications: seq<Note>
    var unreadCount: int
    var isOpen: bool

    /** The counter is the number of unread notifications in the list. */
    predicate Consistent()
      reads this
    {
      UniqueIds(notifications) && unreadCount == Unread(notifications)
    }

    constructor()
      ensures notifications == [] && unreadCount == 0 && !isOpen && Consistent()
    {
      notifications, unreadCount, isOpen := [], 0, false;
    }

    /** `fetchNotifications`; a failed request (`None`) changes nothing. */
    method Fetch(data: Option<seq<Note>>)
      modifies this`notifications, this`unreadCount
      ensures data.Some? ==> notifications == data.value && unreadCount == Unread(data.value)
      ensures data.None? ==> notifications == old(notifications) && unreadCount == old(unreadCount)
    {
      if data.Some? {
        notifications := data.value;
        unreadCount := Unread(data.value);
      }
    }

    /** `handleNotificationClick`. An unread notification is marked first;
        if that request fails the handler stops there with nothing changed
        and no navigation. Otherwise the counter drops by one for an unread
        notification, the popover closes and the route is followed. */
    method Click(n: Note, succeeded: bool) returns (route: Option<string>)
      modifies this`notifications, this`unreadCount, this`isOpen
      ensures !n.isRead && !succeeded ==>
        route.None? && notifications == old(notifications) && unreadCount == old(unreadCount) && isOpen == old(isOpen)
      ensures n.isRead || succeeded ==> route == Route(n) && !isOpen
      ensures n.isRead ==> notifications == old(notifications) && unreadCount == old(unreadCount)
      ensures !n.isRead && succeeded ==>
        notifications == MarkRead(old(notifications), n.id) && unreadCount == old(unreadCount) - 1
      ensures old(Consistent()) && n in old(notifications) ==> Consistent()
    {
      if old(Consistent()) && n in notifications {
        MarkReadKeepsIds(notifications, n.id);
        MarkReadUnread(notifications, n.id);
        var i :| 0 <= i < |notifications| && notifications[i] == n;
        assert forall j :: 0 <= j < |notifications| && notifications[j].id == n.id ==> j == i;
      }
      if !n.isRead {
        if !succeeded {
          return None;
        }
        notifications := MarkRead(notifications, n.id);
        unreadCount := unreadCount - 1;
      }
      isOpen := false;
      route := Route(n);
    }

    /** `handleViewAll`: go to the notifications page and close the popover. */
    method ViewAll() returns (route: string)
      modifies this`isOpen
      ensures route == AllNotificationsPath && !isOpen
    {
      isOpen := false;
      route := AllNotificationsPath;
    }
  }
}
