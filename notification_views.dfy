/** What the three notification views (the notifications page, the bell
    badge and the bell button) share: a notification as the views hold it,
    the unread count, marking one or all as read, and where a click leads. */
module NotificationViews {
  import opened Wrappers
  import opened Seqs

  datatype Kind = Follow | BookShare | OtherKind

  /** A notification as a view holds it. `fromUserId` is the sender object's
      id when the sender is attached; `bookId` is the book's id, empty when
      there is none (an empty id is falsy, so it counts as absent). */
  datatype Note = Note(id: string, kind: Kind, isRead: bool, fromUserId: Option<string>, bookId: string)

  /** No two notifications share an id, as the store guarantees. */
  predicate UniqueIds(ns: seq<Note>)
  {
    forall i, j :: 0 <= i < j < |ns| ==> ns[i].id != ns[j].id
  }

  /** `ns.filter(n => !n.isRead).length`. */
  function Unread(ns: seq<Note>): (n: nat)
    ensures n <= |ns|
    ensures n == 0 <==> forall i :: 0 <= i < |ns| ==> ns[i].isRead
  {
    if ns == [] then 0
    else
      assert forall i :: 1 <= i < |ns| ==> ns[i] == ns[1..][i - 1];
      (if ns[0].isRead then 0 else 1) + Unread(ns[1..])
  }

  /** `ns.map(n => n.id === id ? { ...n, isRead: true } : n)`. */
  function MarkRead(ns: seq<Note>, id: string): (r: seq<Note>)
    ensures |r| == |ns|
    ensures forall i :: 0 <= i < |ns| ==> r[i] == if ns[i].id == id then ns[i].(isRead := true) else ns[i]
  {
    if ns == [] then [] else [if ns[0].id == id then ns[0].(isRead := true) else ns[0]] + MarkRead(ns[1..], id)
  }

  /** Marking by id keeps the ids, so it keeps them unique. */
  lemma MarkReadKeepsIds(ns: seq<Note>, id: string)
    ensures forall i :: 0 <= i < |ns| ==> MarkRead(ns, id)[i].id == ns[i].id
    ensures UniqueIds(ns) ==> UniqueIds(MarkRead(ns, id))
  {
  }

  /** Marking an unread notification lowers the unread count by exactly one;
      marking an id that is absent or already read leaves it. */
  lemma {:induction false} MarkReadUnread(ns: seq<Note>, id: string)
    requires UniqueIds(ns)
    ensures (exists i :: 0 <= i < |ns| && ns[i].id == id && !ns[i].isRead) ==>
      Unread(MarkRead(ns, id)) == Unread(ns) - 1
    ensures (forall i :: 0 <= i < |ns| && ns[i].id == id ==> ns[i].isRead) ==>
      Unread(MarkRead(ns, id)) == Unread(ns)
  {
    if ns != [] {
      var r := MarkRead(ns, id);
      assert UniqueIds(ns[1..]) by {
        forall i, j | 0 <= i < j < |ns[1..]| ensures ns[1..][i].id != ns[1..][j].id {
          assert ns[1..][i] == ns[i + 1] && ns[1..][j] == ns[j + 1];
        }
      }
      MarkReadUnread(ns[1..], id);
      assert r[1..] == MarkRead(ns[1..], id);
      assert forall i :: 1 <= i < |ns| ==> ns[i] == ns[1..][i - 1];
      if ns[0].id == id {
        assert forall i :: 0 <= i < |ns[1..]| ==> ns[1..][i].id != id by {
          forall i | 0 <= i < |ns[1..]| ensures ns[1..][i].id != id {
            assert ns[1..][i] == ns[i + 1];
          }
        }
      }
    }
  }

  /** `ns.map(n => ({ ...n, isRead: true }))`. */
  function MarkAll(ns: seq<Note>): (r: seq<Note>)
    ensures |r| == |ns|
    ensures forall i :: 0 <= i < |ns| ==> r[i] == ns[i].(isRead := true)
  {
    if ns == [] then [] else [ns[0].(isRead := true)] + MarkAll(ns[1..])
  }

  /** After marking all, nothing is unread and the ids are those before. */
  lemma MarkAllUnread(ns: seq<Note>)
    ensures Unread(MarkAll(ns)) == 0
    ensures UniqueIds(ns) ==> UniqueIds(MarkAll(ns))
  {
  }

  /** Marking all as read a second time changes nothing. */
  lemma MarkAllIdempotent(ns: seq<Note>)
    ensures MarkAll(MarkAll(ns)) == MarkAll(ns)
  {
  }

  const UserPath := "/user/"
  const BookPath := "/books/"

  /** Where a click leads on the page and in the bell button: a follow with
      its sender to the sender's profile, a share with its book to the book's
      page, anything else nowhere. */
  function Route(n: Note): (r: Option<string>)
    ensures r.Some? <==> (n.kind == Follow && n.fromUserId.Some?) || (n.kind == BookShare && n.bookId != [])
  {
    if n.kind == Follow && n.fromUserId.Some? then Some(UserPath + n.fromUserId.value)
    else if n.kind == BookShare && n.bookId != [] then Some(BookPath + n.bookId)
    else None
  }

  /** A route names its target: two notifications leading to the same page
      lead to the same profile or to the same book. */
  lemma RouteDeterminesTarget(a: Note, b: Note)
    requires Route(a).Some? && Route(a) == Route(b)
    ensures a.kind == b.kind
    ensures a.kind == Follow ==> a.fromUserId == b.fromUserId
    ensures a.kind == BookShare ==> a.bookId == b.bookId
  {
    var p := Route(a).value;
    assert p[1] == (if a.kind == Follow then 'u' else 'b');
    assert p[1] == (if b.kind == Follow then 'u' else 'b');
    if a.kind == Follow {
      assert a.fromUserId.value == p[|UserPath|..] == b.fromUserId.value;
    } else {
      assert a.bookId == p[|BookPath|..] == b.bookId;
    }
  }
}
