/**
 * The notifications screen: the all/unread tab, what a tap on a notification
 * does, and when the "mark all read" control appears. Its `formatDate` is
 * `RelativeTime.FormatDate`.
 */
module NotificationsScreen {
  import opened Common
  import opened NotificationContext

  datatype NotificationFilter = AllNotifications | UnreadOnly

  /** `getFilteredNotifications()`. */
  function FilteredNotifications(ns: seq<Notification>, filter: NotificationFilter): (r: seq<Notification>)
    ensures filter == AllNotifications ==> r == ns
    ensures filter == UnreadOnly ==> forall n :: n in r <==> n in ns && !n.read
  {
    match filter
    case AllNotifications => ns
    case UnreadOnly => FilterMembers(IsUnread, ns); Filter(IsUnread, ns)
  }

  /** The unread tab lists as many items as the badge counts. */
  lemma UnreadTabMatchesCount(ns: seq<Notification>)
    ensures |FilteredNotifications(ns, UnreadOnly)| == UnreadCount(ns)
  {
    CountIsFilterLength(IsUnread, ns);
  }

  /** The unread tab keeps the list's order: it commutes with splitting the list. */
  lemma UnreadTabKeepsOrder(a: seq<Notification>, b: seq<Notification>)
    ensures FilteredNotifications(a + b, UnreadOnly)
            == FilteredNotifications(a, UnreadOnly) + FilteredNotifications(b, UnreadOnly)
  {
    FilterAppend(IsUnread, a, b);
  }

  /**
   * Where a tap leads. Only a reward notification actually navigates; the post
   * and profile branches only write a log line naming their target.
   */
  datatype TapEffect =
    | LogPost(postId: string)
    | LogProfile(username: Option<string>)
    | OpenRewards
    | NoEffect

  /** The tap result: the notification list after the tap, and its navigation effect. */
  datatype Tap = Tap(notifications: seq<Notification>, effect: TapEffect)

  /** `handleNotificationPress(n)`. */
  function HandleNotificationPress(ns: seq<Notification>, n: Notification): (r: Tap)
    // whatever its kind, the tapped notification is marked read first
    ensures r.notifications == MarkAsRead(ns, n.id)
    ensures r.effect == OpenRewards <==> n.kind == Reward && n.data.Some? && Truthy(n.data.value.rewardId)
    ensures r.effect.LogPost? ==>
              n.kind in {Like, CommentNote, Mention} && n.data.Some? && Some(r.effect.postId) == n.data.value.postId
    ensures n.kind == System ==> r.effect == NoEffect
  {
    var marked := MarkAsRead(ns, n.id);
    var effect :=
      match n.kind
      case Like | CommentNote | Mention =>
        if n.data.Some? && Truthy(n.data.value.postId) then LogPost(n.data.value.postId.value) else NoEffect
      case Follow =>
        if n.data.Some? && Truthy(n.data.value.userId) then LogProfile(n.data.value.username) else NoEffect
      case Reward =>
        if n.data.Some? && Truthy(n.data.value.rewardId) then OpenRewards else NoEffect
      case System => NoEffect;
    Tap(marked, effect)
  }

  /** A tapped notification that was in the list is no longer unread. */
  lemma TapMarksRead(ns: seq<Notification>, k: nat)
    requires k < |ns|
    ensures HandleNotificationPress(ns, ns[k]).notifications[k].read
    ensures UnreadCount(HandleNotificationPress(ns, ns[k]).notifications) <= UnreadCount(ns)
  {
    MarkAsReadUnread(ns, ns[k].id);
  }

  /** `{unreadCount > 0 && <mark all button/>}`. */
  function ShowMarkAll(ns: seq<Notification>): (show: bool)
    ensures show <==> exists i :: 0 <= i < |ns| && !ns[i].read
  {
    UnreadCount(ns) > 0
  }

  /** Pressing "mark all read" makes the control disappear. */
  lemma MarkAllHidesControl(ns: seq<Notification>)
    ensures !ShowMarkAll(MarkAllAsRead(ns))
  {
  }
}
