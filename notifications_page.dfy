/** The notifications page: the list, its unread counter, marking as read
    (one by click, or all), routing on click, and following a sender back. */
module NotificationsPage {
  import opened Wrappers
  import opened Seqs
  import opened NotificationViews

  class Page {
    var notifications: seq<Note>
    var unreadCount: int
    var followingIds: set<string>

    /** The counter is the number of unread notifications in the list. */
    predicate Consistent()
      reads this
    {
      UniqueIds(notifications) && unreadCount == Unread(notifications)
    }

    constructor()
      ensures notifications == [] && unreadCount == 0 && followingIds == {}
      ensures Consistent()
    {
      notifications, unreadCount, followingIds := [], 0, {};
    }

    /** The load effect. `data` is the notification list (`None` when that
        request fails, which changes nothing); `following` the followed users'
        ids (`None` when that second request fails after the list was set). */
    method Load(data: Option<seq<Note>>, following: Option<seq<string>>)
      modifies this
      ensures data.None? ==>
        notifications == old(notifications) && unreadCount == old(unreadCount) && followingIds == old(followingIds)
      ensures data.Some? ==> notifications == data.value && unreadCount == Unread(data.value)
      ensures data.Some? ==> followingIds == if following.Some? then Elems(following.value) else old(followingIds)
      ensures data.Some? && UniqueIds(data.value) ==> Consistent()
    {
      if data.None? {
        return;
      }
      notifications := data.value;
      unreadCount := Unread(data.value);
      if following.Some? {
        followingIds := Elems(following.value);
      }
    }

    /** `handleMarkAsRead`: after a successful request the matching
        notification is read and the counter drops by one, without a floor;
        a failed request changes nothing. */
    method MarkAsRead(id: string, succeeded: bool)
      modifies this`notifications, this`unreadCount
      ensures succeeded ==> notifications == MarkRead(old(notifications), id) && unreadCount == old(unreadCount) - 1
      ensures !succeeded ==> notifications == old(notifications) && unreadCount == old(unreadCount)
    {
      if succeeded {
        notifications := MarkRead(notifications, id);
        unreadCount := unreadCount - 1;
      }
    }

    /** `handleMarkAllAsRead`. */
    method MarkAllAsRead(succeeded: bool)
      modifies this`notifications, this`unreadCount
      ensures succeeded ==> notifications == MarkAll(old(notifications)) && unreadCount == 0
      ensures !succeeded ==> notifications == old(notifications) && unreadCount == old(unreadCount)
      ensures old(Consistent()) ==> Consistent()
    {
      if succeeded {
        MarkAllUnread(notifications);
        notifications := MarkAll(notifications);
        unreadCount := 0;
      }
    }

    /** `handleNotificationClick` on a listed notification: it is marked only
        when unread, so the counter keeps matching the list; the result is
        the page navigated to. */
    method Click(n: Note, succeeded: bool) returns (route: Option<string>)
      modifies this`notifications, this`unreadCount
      ensures route == Route(n)
      ensures n.isRead ==> notifications == old(notifications) && unreadCount == old(unreadCount)
      ensures !n.isRead && succeeded ==>
        notifications == MarkRead(old(notifications), n.id) && unreadCount == old(unreadCount) - 1
      ensures !n.isRead && !succeeded ==> notifications == old(notifications) && unreadCount == old(unreadCount)
      ensures old(Consistent()) && n in old(notifications) ==> Consistent()
    {
      if old(Consistent()) && n in notifications {
        MarkReadKeepsIds(notifications, n.id);
        MarkReadUnread(notifications, n.id);
        var i :| 0 <= i < |notifications| && notifications[i] == n;
        assert forall j :: 0 <= j < |notifications| && notifications[j].id == n.id ==> j == i;
      }
      if !n.isRead {
        MarkAsRead(n.id, succeeded);
      }
      route := Route(n);
    }

    /** The "Já segue" badge is shown on a follow from a sender already followed. */
    predicate FollowedBadgeShown(n: Note)
      reads this
    {
      n.kind == Follow && n.fromUserId.Some? && n.fromUserId.value in followingIds
    }

    /** The follow-back button is offered on a follow from a sender not yet
        followed; on a follow with a sender exactly one of the button and the
        badge is shown, and on anything else neither. */
    predicate FollowBackOffered(n: Note): (offered: bool)
      reads this
      ensures offered ==> !FollowedBadgeShown(n)
      ensures n.kind == Follow && n.fromUserId.Some? ==> offered || FollowedBadgeShown(n)
      ensures !(n.kind == Follow && n.fromUserId.Some?) ==> !offered && !FollowedBadgeShown(n)
    {
      n.kind == Follow && n.fromUserId.Some? && n.fromUserId.value !in followingIds
    }

    /** `handleFollowUser`: a successful follow adds the id and keeps every
        id already there. */
    method FollowBack(userId: string, succeeded: bool)
      modifies this`followingIds
      ensures followingIds == if succeeded then old(followingIds) + {userId} else old(followingIds)
      ensures old(followingIds) <= followingIds
      ensures succeeded ==> forall n: Note :: n.fromUserId == Some(userId) ==> !FollowBackOffered(n)
    {
      if succeeded {
        followingIds := followingIds + {userId};
      }
    }
  }
}
