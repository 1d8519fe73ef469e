/**
 * The home feed of the mobile app: liking, commenting (paid on premium
 * posts), hiding a post's comments, who sees them, and the notification
 * badge. The feed is a list of posts in display order; the viewer's coin
 * counter is in hundredths.
 */
module HomeScreen {
  import opened Common

  /** A post as the feed holds it; an unset `isPremium` or `hideComments` is false. */
  datatype FeedPost = FeedPost(
    id: string,
    authorId: string,
    content: string,
    likes: int,
    comments: int,
    liked: bool,
    isPremium: bool,
    hideComments: bool)

  /** The price of a comment on a premium post, 0.05 coins. */
  const PremiumCommentPrice: int := 5

  // ---------------------------------------------------------------------
  // Likes
  // ---------------------------------------------------------------------

  /** The like button on one post: the flag flips and the counter follows it. */
  function ToggleLike(p: FeedPost): (r: FeedPost)
    ensures r.liked == !p.liked
    ensures r.likes == if r.liked then p.likes + 1 else p.likes - 1
    ensures r.(liked := p.liked, likes := p.likes) == p
  {
    var newLiked := !p.liked;
    p.(liked := newLiked, likes := if newLiked then p.likes + 1 else p.likes - 1)
  }

  /** `handleLike(postId)`. */
  function HandleLike(posts: seq<FeedPost>, postId: string): (r: seq<FeedPost>)
    ensures |r| == |posts|
    ensures forall i :: 0 <= i < |posts| ==>
              r[i] == if posts[i].id == postId then ToggleLike(posts[i]) else posts[i]
  {
    seq(|posts|, i requires 0 <= i < |posts| =>
      if posts[i].id == postId then ToggleLike(posts[i]) else posts[i])
  }

  /** Likes minus the viewer's own like: the part of the counter the button cannot move. */
  function OthersLikes(p: FeedPost): int {
    p.likes - (if p.liked then 1 else 0)
  }

  /** Liking and unliking keep the others' likes, and a second tap restores the feed. */
  lemma HandleLikeTwice(posts: seq<FeedPost>, postId: string)
    ensures forall i :: 0 <= i < |posts| ==> OthersLikes(HandleLike(posts, postId)[i]) == OthersLikes(posts[i])
    ensures HandleLike(HandleLike(posts, postId), postId) == posts
  {
  }

  // ---------------------------------------------------------------------
  // Comments
  // ---------------------------------------------------------------------

  /** The feed's state that a comment touches. */
  datatype FeedState = FeedState(
    posts: seq<FeedPost>,
    userCoins: int,
    commentText: string,
    activeCommentId: Option<string>)

  datatype CommentOutcome =
    | Ignored           // blank text: nothing happens
    | RejectedPremium   // the "not enough SocialCoin" alert
    | Posted

  function AddCommentCount(posts: seq<FeedPost>, postId: string): (r: seq<FeedPost>)
    ensures |r| == |posts|
    ensures forall i :: 0 <= i < |posts| ==>
              r[i] == if posts[i].id == postId then posts[i].(comments := posts[i].comments + 1) else posts[i]
  {
    seq(|posts|, i requires 0 <= i < |posts| =>
      if posts[i].id == postId then posts[i].(comments := posts[i].comments + 1) else posts[i])
  }

  /** `posts.find(p => p.id === postId)?.isPremium`. */
  function IsPremiumPost(posts: seq<FeedPost>, postId: string): (b: bool)
    // the first post with that id exists and is premium
    ensures b <==> exists k :: 0 <= k < |posts| && posts[k].id == postId && posts[k].isPremium
                               && forall j :: 0 <= j < k ==> posts[j].id != postId
  {
    var found := FindFirst((p: FeedPost) => p.id == postId, posts);
    found.Some? && found.value.isPremium
  }

  /** `handleComment(postId)`: the outcome and the state after it. */
  function HandleComment(s: FeedState, postId: string): (r: (CommentOutcome, FeedState))
    ensures r.0 == Ignored <==> AllWhitespace(s.commentText)
    ensures r.0 == RejectedPremium <==>
              !AllWhitespace(s.commentText) && IsPremiumPost(s.posts, postId)
              && s.userCoins < PremiumCommentPrice
    // a comment that is not posted changes nothing
    ensures r.0 != Posted ==> r.1 == s
    // a posted comment counts on its post, is paid for on a premium post, and clears the input
    ensures r.0 == Posted ==>
              && r.1.posts == AddCommentCount(s.posts, postId)
              && r.1.userCoins == s.userCoins - (if IsPremiumPost(s.posts, postId) then PremiumCommentPrice else 0)
              && r.1.userCoins >= (if s.userCoins >= 0 then 0 else s.userCoins)
              && r.1.commentText == "" && r.1.activeCommentId == None
  {
    TrimEmptyIffBlank(s.commentText);
    if Trim(s.commentText) == "" then (Ignored, s)
    else if IsPremiumPost(s.posts, postId) && s.userCoins < PremiumCommentPrice then (RejectedPremium, s)
    else
      var coins := if IsPremiumPost(s.posts, postId) then s.userCoins - PremiumCommentPrice else s.userCoins;
      (Posted, FeedState(AddCommentCount(s.posts, postId), coins, "", None))
  }

  /** Of all the posts only the commented one changes, and by exactly one comment. */
  lemma CommentTouchesOnePost(s: FeedState, postId: string)
    requires HandleComment(s, postId).0 == Posted
    ensures var after := HandleComment(s, postId).1.posts;
            forall i :: 0 <= i < |s.posts| ==>
              after[i].comments - s.posts[i].comments == (if s.posts[i].id == postId then 1 else 0)
              && after[i].(comments := s.posts[i].comments) == s.posts[i]
  {
  }

  // ---------------------------------------------------------------------
  // Hidden comments
  // ---------------------------------------------------------------------

  /** `toggleHideComments(postId)`. */
  function ToggleHideComments(posts: seq<FeedPost>, postId: string): (r: seq<FeedPost>)
    ensures |r| == |posts|
    ensures forall i :: 0 <= i < |posts| ==>
              r[i] == if posts[i].id == postId then posts[i].(hideComments := !posts[i].hideComments) else posts[i]
  {
    seq(|posts|, i requires 0 <= i < |posts| =>
      if posts[i].id == postId then posts[i].(hideComments := !posts[i].hideComments) else posts[i])
  }

  lemma ToggleHideCommentsInvolution(posts: seq<FeedPost>, postId: string)
    ensures ToggleHideComments(ToggleHideComments(posts, postId), postId) == posts
  {
  }

  /** `isPostAuthor(postUserId)`: `user?.id === postUserId`; nobody is the author when logged out. */
  function IsPostAuthor(viewer: Option<string>, postUserId: string): (b: bool)
    ensures b ==> viewer.Some?
    ensures viewer.Some? ==> (b <==> viewer.value == postUserId)
  {
    viewer == Some(postUserId)
  }

  /** `!item.hideComments || canViewHiddenComments`: the comment list is rendered. */
  function CommentsVisible(p: FeedPost, viewer: Option<string>): (visible: bool)
    ensures visible <==> !p.hideComments || viewer == Some(p.authorId)
  {
    !p.hideComments || IsPostAuthor(viewer, p.authorId)
  }

  /** `item.hideComments && !canViewHiddenComments`: the "hidden by the author" notice. */
  predicate HiddenNoticeShown(p: FeedPost, viewer: Option<string>) {
    p.hideComments && !IsPostAuthor(viewer, p.authorId)
  }

  /**
   * In an open comment area exactly one of the comment list and the "hidden"
   * notice appears; the author always gets the list.
   */
  lemma CommentAreaShowsOne(p: FeedPost, viewer: Option<string>)
    ensures CommentsVisible(p, viewer) != HiddenNoticeShown(p, viewer)
    ensures viewer == Some(p.authorId) ==> CommentsVisible(p, viewer)
  {
  }

  // ---------------------------------------------------------------------
  // Notification badge
  // ---------------------------------------------------------------------

  /** `unreadCount > 0 && (unreadCount > 9 ? '9+' : unreadCount)`. */
  function BadgeText(unreadCount: nat): (r: Option<string>)
    ensures r.None? <==> unreadCount == 0
    ensures 1 <= unreadCount <= 9 ==>
              r.Some? && |r.value| == 1 && r.value[0] as int - '0' as int == unreadCount
    ensures unreadCount > 9 ==> r == Some("9+")
  {
    if unreadCount == 0 then None
    else if unreadCount > 9 then Some("9+")
    else Some([('0' as int + unreadCount) as char])
  }
}
