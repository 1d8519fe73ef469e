/**
 * The notification list the mobile app keeps in `NotificationContext`:
 * newest first, each item with a `read` flag. Every operation maps the old
 * list to a new one; persistence to the device store is not modelled.
 */
module NotificationContext {
  import opened Common

  datatype NotificationType = Like | CommentNote | Follow | Mention | System | Reward

  /** The optional `data` payload (the avatar URL is left out). */
  datatype NotificationData = NotificationData(
    userId: Option<string>,
    username: Option<string>,
    postId: Option<string>,
    commentId: Option<string>,
    rewardId: Option<string>)

  datatype Notification = Notification(
    id: string,
    kind: NotificationType,
    title: string,
    message: string,
    read: bool,
    createdAt: int,
    data: Option<NotificationData>)

  /** `Omit<Notification, 'id' | 'createdAt'>`: what a caller of `addNotification` supplies. */
  datatype NotificationDraft = NotificationDraft(
    kind: NotificationType,
    title: string,
    message: string,
    read: bool,
    data: Option<NotificationData>)

  predicate IsUnread(n: Notification) { !n.read }

  /** `notifications.filter(n => !n.read).length`. */
  function UnreadCount(ns: seq<Notification>): (c: nat)
    ensures c <= |ns|
    ensures c == 0 <==> forall i :: 0 <= i < |ns| ==> ns[i].read
  {
    CountZero(IsUnread, ns);
    Count(IsUnread, ns)
  }

  /**
   * `addNotification(draft)`: the new item, with the id and creation time the
   * clock supplies, goes in front of the others.
   */
  function AddNotification(ns: seq<Notification>, draft: NotificationDraft, id: string, now: int)
    : (r: seq<Notification>)
    ensures |r| == |ns| + 1
    ensures r[0] == Notification(id, draft.kind, draft.title, draft.message, draft.read, now, draft.data)
    ensures r[1..] == ns
  {
    [Notification(id, draft.kind, draft.title, draft.message, draft.read, now, draft.data)] + ns
  }

  /** Adding a notification raises the unread count by one exactly when it arrives unread. */
  lemma AddNotificationUnread(ns: seq<Notification>, draft: NotificationDraft, id: string, now: int)
    ensures UnreadCount(AddNotification(ns, draft, id, now))
            == UnreadCount(ns) + (if draft.read then 0 else 1)
  {
    var r := AddNotification(ns, draft, id, now);
    assert r[1..] == ns;
  }

  /** `markAsRead(id)`: the items with that id become read. */
  function MarkAsRead(ns: seq<Notification>, id: string): (r: seq<Notification>)
    ensures |r| == |ns|
    ensures forall i :: 0 <= i < |ns| ==>
              if ns[i].id == id then r[i] == ns[i].(read := true) else r[i] == ns[i]
  {
    if ns == [] then []
    else
      var rest := MarkAsRead(ns[1..], id);
      var r := [if ns[0].id == id then ns[0].(read := true) else ns[0]] + rest;
      assert forall i :: 1 <= i < |ns| ==> r[i] == rest[i - 1] && ns[i] == ns[1..][i - 1];
      r
  }

  /** `markAllAsRead()`. */
  function MarkAllAsRead(ns: seq<Notification>): (r: seq<Notification>)
    ensures |r| == |ns|
    ensures forall i :: 0 <= i < |ns| ==> r[i] == ns[i].(read := true)
  {
    if ns == [] then []
    else
      var rest := MarkAllAsRead(ns[1..]);
      var r := [ns[0].(read := true)] + rest;
      assert forall i :: 1 <= i < |ns| ==> r[i] == rest[i - 1] && ns[i] == ns[1..][i - 1];
      r
  }

  /** After `markAllAsRead` nothing is unread. */
  lemma MarkAllAsReadClearsUnread(ns: seq<Notification>)
    ensures UnreadCount(MarkAllAsRead(ns)) == 0
  {
  }

  /** Marking the same id twice is the same as marking it once. */
  lemma MarkAsReadIdempotent(ns: seq<Notification>, id: string)
    ensures MarkAsRead(MarkAsRead(ns, id), id) == MarkAsRead(ns, id)
  {
  }

  lemma MarkAllAsReadIdempotent(ns: seq<Notification>)
    ensures MarkAllAsRead(MarkAllAsRead(ns)) == MarkAllAsRead(ns)
  {
  }

  /** Once everything is read, marking one item first makes no difference. */
  lemma MarkAllAbsorbsMarkAsRead(ns: seq<Notification>, id: string)
    ensures MarkAllAsRead(MarkAsRead(ns, id)) == MarkAllAsRead(ns)
  {
  }

  /** How many unread items carry the id. */
  function UnreadWithId(ns: seq<Notification>, id: string): nat {
    if ns == [] then 0 else (if ns[0].id == id && !ns[0].read then 1 else 0) + UnreadWithId(ns[1..], id)
  }

  /** `markAsRead` lowers the unread count by exactly the unread items with the id. */
  lemma {:induction false} MarkAsReadCount(ns: seq<Notification>, id: string)
    ensures UnreadCount(MarkAsRead(ns, id)) + UnreadWithId(ns, id) == UnreadCount(ns)
  {
    if ns != [] {
      MarkAsReadCount(ns[1..], id);
      assert MarkAsRead(ns, id)[1..] == MarkAsRead(ns[1..], id);
    }
  }

  lemma {:induction false} UnreadWithIdZero(ns: seq<Notification>, id: string)
    ensures UnreadWithId(ns, id) == 0 <==> forall i :: 0 <= i < |ns| && ns[i].id == id ==> ns[i].read
  {
    if ns != [] {
      UnreadWithIdZero(ns[1..], id);
      assert forall i :: 1 <= i < |ns| ==> ns[i] == ns[1..][i - 1];
    }
  }

  /**
   * `markAsRead` never raises the unread count; it lowers it exactly when an
   * unread item has the id, and otherwise leaves the list as it was.
   */
  lemma MarkAsReadUnread(ns: seq<Notification>, id: string)
    ensures UnreadCount(MarkAsRead(ns, id)) <= UnreadCount(ns)
    ensures (exists i :: 0 <= i < |ns| && ns[i].id == id && !ns[i].read) <==>
              UnreadCount(MarkAsRead(ns, id)) < UnreadCount(ns)
    ensures (forall i :: 0 <= i < |ns| && ns[i].id == id ==> ns[i].read) ==>
              MarkAsRead(ns, id) == ns
  {
    MarkAsReadCount(ns, id);
    UnreadWithIdZero(ns, id);
  }
}
