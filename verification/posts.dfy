/**
 * `PostsService`: posts, their comments, likes and the "tip the author" coin
 * move. The `posts` and `comments` tables are sequences in insertion order;
 * user rows are read and updated through the shared `UsersService`.
 */
module Posts {
  import opened Common
  import opened Users
  import opened Pagination

  type PostId = string

  /** One row of `posts` (the boost columns, which the service never touches, are left out). */
  datatype Post = Post(
    id: PostId,
    content: string,
    mediaUrl: Option<string>,
    likes: int,
    coinsReceived: int,
    isPremium: bool,
    isVisible: bool,
    userId: UserId,
    createdAt: int)

  /** One row of `comments`. */
  datatype Comment = Comment(
    id: string,
    content: string,
    likes: int,
    coinsReceived: int,
    postId: PostId,
    userId: UserId,
    createdAt: int)

  /** The body of `POST /posts`. */
  datatype CreatePostDto = CreatePostDto(content: string, mediaUrl: Option<string>, isPremium: Option<bool>)

  /** The body of `PATCH /posts/:id`: every field of `CreatePostDto`, each optional. */
  datatype UpdatePostDto = UpdatePostDto(content: Option<string>, mediaUrl: Option<string>, isPremium: Option<bool>)

  /** The results of `findAll` and `getComments`. */
  datatype PostPage = PostPage(posts: seq<Post>, total: nat, page: int, limit: int)
  datatype CommentPage = CommentPage(comments: seq<Comment>, total: nat, page: int, limit: int)

  /** The row `create` saves: the DTO's columns, the author, and the column defaults. */
  function NewPost(dto: CreatePostDto, userId: UserId, id: PostId, now: int): (p: Post)
    ensures p.id == id && p.userId == userId && p.createdAt == now
    ensures p.content == dto.content && p.mediaUrl == dto.mediaUrl
    ensures p.isPremium <==> dto.isPremium == Some(true)
    ensures p.likes == 0 && p.coinsReceived == 0 && !p.isVisible
  {
    Post(id, dto.content, dto.mediaUrl, 0, 0,
         match dto.isPremium { case Some(b) => b case None => false },
         false, userId, now)
  }

  /** `repository.update(id, dto)`: the fields present in the DTO overwrite the row's. */
  function ApplyUpdate(p: Post, dto: UpdatePostDto): (r: Post)
    ensures dto.content.Some? ==> r.content == dto.content.value
    ensures dto.content.None? ==> r.content == p.content
    ensures dto.mediaUrl.Some? ==> r.mediaUrl == dto.mediaUrl
    ensures dto.mediaUrl.None? ==> r.mediaUrl == p.mediaUrl
    ensures dto.isPremium.Some? ==> r.isPremium == dto.isPremium.value
    ensures dto.isPremium.None? ==> r.isPremium == p.isPremium
    // the id, the author, the counters and the visibility are not updatable
    ensures r.(content := p.content, mediaUrl := p.mediaUrl, isPremium := p.isPremium) == p
  {
    p.(content := match dto.content { case Some(c) => c case None => p.content },
       mediaUrl := match dto.mediaUrl { case Some(m) => Some(m) case None => p.mediaUrl },
       isPremium := match dto.isPremium { case Some(b) => b case None => p.isPremium })
  }

  predicate UniquePostIds(posts: seq<Post>) {
    forall i, j :: 0 <= i < j < |posts| ==> posts[i].id != posts[j].id
  }

  predicate UniqueCommentIds(comments: seq<Comment>) {
    forall i, j :: 0 <= i < j < |comments| ==> comments[i].id != comments[j].id
  }

  predicate HasPost(posts: seq<Post>, id: PostId) {
    exists i :: 0 <= i < |posts| && posts[i].id == id
  }

  function OnPost(postId: PostId): Comment -> bool {
    (c: Comment) => c.postId == postId
  }

  /** `where: { post: { id: postId } }` on the comments table, in insertion order. */
  function CommentsOf(comments: seq<Comment>, postId: PostId): seq<Comment>
  {
    Filter(OnPost(postId), comments)
  }

  /** `findOne({ where: { id } })` on the posts table. */
  function FindPost(posts: seq<Post>, id: PostId): (r: Option<Post>)
    ensures r.Some? <==> HasPost(posts, id)
    ensures r.Some? ==> r.value in posts && r.value.id == id
  {
    FindFirst((p: Post) => p.id == id, posts)
  }

  /** With unique ids the lookup finds exactly the row with that id. */
  lemma FindPostUnique(posts: seq<Post>, k: nat)
    requires UniquePostIds(posts) && k < |posts|
    ensures FindPost(posts, posts[k].id) == Some(posts[k])
  {
    var r := FindPost(posts, posts[k].id);
    var j :| 0 <= j < |posts| && r.value == posts[j] && posts[j].id == posts[k].id;
    assert j == k;
  }

  /** The `createdAt` stamps the two tables are ordered by. */
  function PostTime(p: Post): int { p.createdAt }
  function CommentTime(c: Comment): int { c.createdAt }

  /**
   * The page `getComments` returns for a post that exists: its comments,
   * newest first, `skip`/`take` applied, and their total.
   */
  function CommentsPageOf(comments: seq<Comment>, postId: PostId, page: int, limit: int): (r: CommentPage)
    requires page >= 1 && limit >= 1 && Ascending(comments, CommentTime)
    ensures r.total == |CommentsOf(comments, postId)|
    ensures |r.comments| == Max(0, Min(limit, r.total - Skip(page, limit)))
    ensures forall i :: 0 <= i < |r.comments| ==>
              r.comments[i] == CommentsOf(comments, postId)[r.total - 1 - (Skip(page, limit) + i)]
    ensures r.page == page && r.limit == limit
    ensures forall c :: c in r.comments ==> c in comments && c.postId == postId
    // newest first: earlier pages hold no older comment than this one, later pages no newer
    ensures NewestFirstByKey(r.comments, CommentsOf(comments, postId), CommentTime, Skip(page, limit))
  {
    var mine := CommentsOf(comments, postId);
    NewestFirstPageRows(mine, page, limit);
    FilterMembers(OnPost(postId), comments);
    FilterKeepsAscending(OnPost(postId), comments, CommentTime);
    NewestFirstPageByKey(mine, CommentTime, page, limit);
    CommentPage(NewestFirstPage(mine, page, limit), |mine|, page, limit)
  }

  /** The table after `save` of a changed row: the row with that id is replaced. */
  function Replace(posts: seq<Post>, id: PostId, p: Post): (r: seq<Post>)
    ensures |r| == |posts|
    ensures forall i :: 0 <= i < |posts| ==> r[i] == if posts[i].id == id then p else posts[i]
  {
    seq(|posts|, i requires 0 <= i < |posts| => if posts[i].id == id then p else posts[i])
  }

  /** Replacing a row by one with the same id keeps the ids unique. */
  lemma ReplaceKeepsUnique(posts: seq<Post>, id: PostId, p: Post)
    requires UniquePostIds(posts) && p.id == id
    ensures UniquePostIds(Replace(posts, id, p))
  {
  }

  /** After a replacement the lookup finds the new row. */
  lemma FindAfterReplace(posts: seq<Post>, id: PostId, p: Post)
    requires UniquePostIds(posts) && HasPost(posts, id) && p.id == id
    ensures FindPost(Replace(posts, id, p), id) == Some(p)
  {
    var k :| 0 <= k < |posts| && posts[k].id == id;
    var after := Replace(posts, id, p);
    assert after[k] == p;
    ReplaceKeepsUnique(posts, id, p);
    FindPostUnique(after, k);
  }

  /** Replacing the stored row with that id by one with the same `createdAt` keeps the time order. */
  lemma ReplaceKeepsTimeOrder(posts: seq<Post>, q: Post, p: Post)
    requires UniquePostIds(posts) && Ascending(posts, PostTime)
    requires q in posts && p.id == q.id && p.createdAt == q.createdAt
    ensures Ascending(Replace(posts, q.id, p), PostTime)
  {
    var r := Replace(posts, q.id, p);
    assert forall i :: 0 <= i < |posts| ==> r[i].createdAt == posts[i].createdAt;
  }

  function IdIsNot(id: PostId): Post -> bool {
    (q: Post) => q.id != id
  }

  /** The table after `delete(id)`. */
  function Delete(posts: seq<Post>, id: PostId): (r: seq<Post>)
    ensures forall q :: q in r <==> q in posts && q.id != id
  {
    FilterMembers(IdIsNot(id), posts);
    Filter(IdIsNot(id), posts)
  }

  /**
   * With unique ids, deleting the id of a stored post removes exactly one row and
   * keeps the others in their order.
   */
  lemma DeleteRemovesOne(posts: seq<Post>, k: nat)
    requires UniquePostIds(posts) && k < |posts|
    ensures Delete(posts, posts[k].id) == posts[..k] + posts[k + 1..]
  {
    var keep := IdIsNot(posts[k].id);
    assert forall i :: 0 <= i < |posts| && i != k ==> keep(posts[i]);
    FilterRemovesOne(keep, posts, k);
  }

  /** Deleting keeps the remaining ids unique. */
  lemma DeleteKeepsUnique(posts: seq<Post>, k: nat)
    requires UniquePostIds(posts) && k < |posts|
    ensures UniquePostIds(Delete(posts, posts[k].id))
  {
    DeleteRemovesOne(posts, k);
    DropKeepsUnique(posts, k);
  }

  lemma DropKeepsUnique(posts: seq<Post>, k: nat)
    requires UniquePostIds(posts) && k < |posts|
    ensures UniquePostIds(posts[..k] + posts[k + 1..])
  {
    var r := posts[..k] + posts[k + 1..];
    assert forall i :: 0 <= i < |r| ==> r[i] == posts[if i < k then i else i + 1];
  }

  /** Appending a row with a fresh id keeps the ids unique. */
  lemma AppendKeepsUnique(posts: seq<Post>, p: Post)
    requires UniquePostIds(posts) && !HasPost(posts, p.id)
    ensures UniquePostIds(posts + [p])
  {
  }

  /**
   * The checks `sendCoins` makes before paying, in its order: a positive amount,
   * the post, the sender, the author, not one's own post, enough balance. On
   * success, the post being tipped.
   */
  function TipCheck(posts: seq<Post>, users: map<UserId, User>, postId: PostId, amount: int, senderId: UserId)
    : (r: Result<Post, ApiError>)
    // a tip goes through only for a positive amount the sender holds, to someone else's post
    ensures r.Success? <==>
              && amount > 0 && HasPost(posts, postId)
              && senderId in users && FindPost(posts, postId).value.userId in users
              && senderId != FindPost(posts, postId).value.userId
              && users[senderId].coinBalance >= amount
    ensures r.Success? ==> r.value == FindPost(posts, postId).value
  {
    if amount <= 0 then Failure(BadRequest(NonPositiveAmount))
    else match FindPost(posts, postId)
      case None => Failure(NotFound(PostRow, postId))
      case Some(post) =>
        if senderId !in users then Failure(NotFound(UserRow, senderId))
        else if post.userId !in users then Failure(NotFound(UserRow, post.userId))
        else if senderId == post.userId then Failure(BadRequest(TipOwnPost))
        else if users[senderId].coinBalance < amount then Failure(BadRequest(InsufficientBalance))
        else Success(post)
  }

  /** The error `sendCoins` reports is the one of the first check that fails. */
  lemma TipCheckOrder(posts: seq<Post>, users: map<UserId, User>, postId: PostId, amount: int, senderId: UserId)
    ensures var r := TipCheck(posts, users, postId, amount, senderId);
            && (amount <= 0 ==> r == Failure(BadRequest(NonPositiveAmount)))
            && (amount > 0 && !HasPost(posts, postId) ==> r == Failure(NotFound(PostRow, postId)))
            && (amount > 0 && HasPost(posts, postId) && senderId !in users ==>
                  r == Failure(NotFound(UserRow, senderId)))
            && (amount > 0 && HasPost(posts, postId) && senderId in users
                && FindPost(posts, postId).value.userId !in users ==>
                  r == Failure(NotFound(UserRow, FindPost(posts, postId).value.userId)))
            && (amount > 0 && HasPost(posts, postId) && senderId in users
                && FindPost(posts, postId).value.userId in users
                && senderId == FindPost(posts, postId).value.userId ==>
                  r == Failure(BadRequest(TipOwnPost)))
            && (amount > 0 && HasPost(posts, postId) && senderId in users
                && FindPost(posts, postId).value.userId in users
                && senderId != FindPost(posts, postId).value.userId
                && users[senderId].coinBalance < amount ==>
                  r == Failure(BadRequest(InsufficientBalance)))
  {
  }

  /** The row after `likePost`: `post.likes += 1`. */
  function Liked(post: Post): (r: Post)
    ensures r.likes == post.likes + 1
    ensures r.(likes := post.likes) == post
  {
    post.(likes := post.likes + 1)
  }

  /** The row after a tip: `post.coinsReceived += amount`. */
  function Tipped(post: Post, amount: int): (r: Post)
    ensures r.coinsReceived == post.coinsReceived + amount
    ensures r.(coinsReceived := post.coinsReceived) == post
  {
    post.(coinsReceived := post.coinsReceived + amount)
  }

  class PostsService {
    const usersService: UsersService
    var posts: seq<Post>
    var comments: seq<Comment>

    ghost predicate Valid()
      reads this, usersService
    {
      && usersService.Valid() && UniquePostIds(posts) && UniqueCommentIds(comments)
      && Ascending(posts, PostTime) && Ascending(comments, CommentTime)
    }

    constructor (users: UsersService)
      requires users.Valid()
      ensures Valid() && usersService == users && posts == [] && comments == []
    {
      usersService := users;
      posts := [];
      comments := [];
    }

    /** `findOne(id)`: the post with that id, or NotFound. */
    function FindOne(id: PostId): (r: Result<Post, ApiError>)
      reads this
      ensures r.Success? <==> HasPost(posts, id)
      ensures r.Success? ==> r.value in posts && r.value.id == id
      ensures r.Failure? ==> r.error == NotFound(PostRow, id)
    {
      match FindPost(posts, id)
      case Some(p) => Success(p)
      case None => Failure(NotFound(PostRow, id))
    }

    /** `create(dto, userId)`. `newId` and `now` are the id and `createdAt` the database assigns. */
    method Create(dto: CreatePostDto, userId: UserId, newId: PostId, now: int)
      returns (r: Result<Post, ApiError>)
      requires Valid() && !HasPost(posts, newId)
      // the clock does not run back
      requires forall i :: 0 <= i < |posts| ==> posts[i].createdAt <= now
      modifies this
      ensures Valid() && comments == old(comments)
      ensures userId !in usersService.users ==>
                r == Failure(NotFound(UserRow, userId)) && posts == old(posts)
      ensures userId in usersService.users ==>
                r == Success(NewPost(dto, userId, newId, now)) && posts == old(posts) + [r.value]
    {
      var user := usersService.FindOne(userId);
      if user.Failure? {
        return Failure(user.error);
      }
      var post := NewPost(dto, userId, newId, now);
      AppendKeepsUnique(posts, post);
      AppendKeepsAscending(posts, PostTime, post);
      posts := posts + [post];
      r := Success(post);
    }

    /** `findAll(page, limit)`: every post, newest first. */
    function FindAll(page: int, limit: int): (r: PostPage)
      reads this, usersService
      requires Valid() && page >= 1 && limit >= 1
      ensures r.total == |posts|
      ensures |r.posts| == Max(0, Min(limit, |posts| - Skip(page, limit)))
      ensures forall i :: 0 <= i < |r.posts| ==> r.posts[i] == posts[|posts| - 1 - (Skip(page, limit) + i)]
      ensures r.page == page && r.limit == limit
      // newest first: earlier pages hold no older post than this one, later pages no newer
      ensures NewestFirstByKey(r.posts, posts, PostTime, Skip(page, limit))
    {
      NewestFirstPageByKey(posts, PostTime, page, limit);
      PostPage(NewestFirstPage(posts, page, limit), |posts|, page, limit)
    }

    /** `update(id, dto, userId)`: only the author may update. */
    method Update(id: PostId, dto: UpdatePostDto, userId: UserId) returns (r: Result<Post, ApiError>)
      requires Valid()
      modifies this
      ensures Valid() && comments == old(comments)
      ensures !HasPost(old(posts), id) ==> r == Failure(NotFound(PostRow, id))
      ensures HasPost(old(posts), id) && FindPost(old(posts), id).value.userId != userId ==>
                r == Failure(Forbidden)
      ensures r.Failure? ==> posts == old(posts)
      ensures r.Success? ==>
                && HasPost(old(posts), id)
                && FindPost(old(posts), id).value.userId == userId
                && r.value == ApplyUpdate(FindPost(old(posts), id).value, dto)
                && posts == Replace(old(posts), id, r.value)
    {
      var found := FindOne(id);
      if found.Failure? {
        return Failure(found.error);
      }
      if found.value.userId != userId {
        return Failure(Forbidden);
      }
      var updated := ApplyUpdate(found.value, dto);
      ReplaceKeepsUnique(posts, id, updated);
      ReplaceKeepsTimeOrder(posts, found.value, updated);
      FindAfterReplace(posts, id, updated);
      posts := Replace(posts, id, updated);
      r := FindOne(id);
    }

    /** `remove(id, userId)`: only the author may delete. */
    method Remove(id: PostId, userId: UserId) returns (r: Result<(), ApiError>)
      requires Valid()
      modifies this
      ensures Valid() && comments == old(comments)
      ensures !HasPost(old(posts), id) ==> r == Failure(NotFound(PostRow, id))
      ensures HasPost(old(posts), id) && FindPost(old(posts), id).value.userId != userId ==>
                r == Failure(Forbidden)
      ensures r.Failure? ==> posts == old(posts)
      ensures r.Success? ==>
                && HasPost(old(posts), id)
                && FindPost(old(posts), id).value.userId == userId
                && posts == Delete(old(posts), id)
                && |posts| == |old(posts)| - 1
                && forall q :: q in posts <==> q in old(posts) && q.id != id
    {
      var found := FindOne(id);
      if found.Failure? {
        return Failure(found.error);
      }
      if found.value.userId != userId {
        return Failure(Forbidden);
      }
      var k :| 0 <= k < |posts| && posts[k].id == id;
      DeleteRemovesOne(posts, k);
      DeleteKeepsUnique(posts, k);
      FilterKeepsAscending(IdIsNot(id), posts, PostTime);
      posts := Delete(posts, id);
      r := Success(());
    }

    /** `likePost(id, userId)`: one more like on every call, whoever calls. */
    method LikePost(id: PostId, userId: UserId) returns (r: Result<Post, ApiError>)
      requires Valid()
      modifies this
      ensures Valid() && comments == old(comments)
      ensures !HasPost(old(posts), id) ==> r == Failure(NotFound(PostRow, id)) && posts == old(posts)
      ensures HasPost(old(posts), id) ==>
                var p := FindPost(old(posts), id).value;
                && r == Success(Liked(p))
                && posts == Replace(old(posts), id, r.value)
    {
      var found := FindOne(id);
      if found.Failure? {
        return Failure(found.error);
      }
      var post := Liked(found.value);
      ReplaceKeepsUnique(posts, id, post);
      ReplaceKeepsTimeOrder(posts, found.value, post);
      posts := Replace(posts, id, post);
      r := Success(post);
    }

    /** `addComment(postId, content, userId)`. `newId` and `now` come from the database. */
    method AddComment(postId: PostId, content: string, userId: UserId, newId: string, now: int)
      returns (r: Result<Comment, ApiError>)
      requires Valid()
      requires forall i :: 0 <= i < |comments| ==> comments[i].id != newId
      // the clock does not run back
      requires forall i :: 0 <= i < |comments| ==> comments[i].createdAt <= now
      modifies this
      ensures Valid() && posts == old(posts)
      ensures !HasPost(posts, postId) ==> r == Failure(NotFound(PostRow, postId))
      ensures HasPost(posts, postId) && userId !in usersService.users ==>
                r == Failure(NotFound(UserRow, userId))
      ensures r.Failure? ==> comments == old(comments)
      ensures r.Success? ==>
                && HasPost(posts, postId) && userId in usersService.users
                && r.value == Comment(newId, content, 0, 0, postId, userId, now)
                && comments == old(comments) + [r.value]
    {
      var post := FindOne(postId);
      if post.Failure? {
        return Failure(post.error);
      }
      var user := usersService.FindOne(userId);
      if user.Failure? {
        return Failure(user.error);
      }
      var comment := Comment(newId, content, 0, 0, postId, userId, now);
      AppendKeepsAscending(comments, CommentTime, comment);
      comments := comments + [comment];
      r := Success(comment);
    }

    /** `getComments(postId, page, limit)`: that post's comments, newest first. */
    function GetComments(postId: PostId, page: int, limit: int): (r: Result<CommentPage, ApiError>)
      reads this, usersService
      requires Valid() && page >= 1 && limit >= 1
      ensures r.Failure? <==> !HasPost(posts, postId)
      ensures r.Failure? ==> r.error == NotFound(PostRow, postId)
      ensures r.Success? ==>
                var mine := CommentsOf(comments, postId);
                && r.value.total == |mine|
                && |r.value.comments| == Max(0, Min(limit, |mine| - Skip(page, limit)))
                && (forall i :: 0 <= i < |r.value.comments| ==>
                      r.value.comments[i] == mine[|mine| - 1 - (Skip(page, limit) + i)])
                && r.value.page == page && r.value.limit == limit
      ensures r.Success? ==> forall c :: c in r.value.comments ==> c in comments && c.postId == postId
      // newest first: earlier pages hold no older comment than this one, later pages no newer
      ensures r.Success? ==>
                NewestFirstByKey(r.value.comments, CommentsOf(comments, postId), CommentTime, Skip(page, limit))
    {
      if FindOne(postId).Failure? then Failure(NotFound(PostRow, postId))
      else Success(CommentsPageOf(comments, postId, page, limit))
    }

    /**
     * `sendCoins(postId, amount, senderId)`: moves `amount` from the sender to the
     * post's author and adds it to the post's `coinsReceived`. No transaction row is
     * written: the method changes the post table and the user rows and nothing else.
     */
    method SendCoins(postId: PostId, amount: int, senderId: UserId) returns (r: Result<Post, ApiError>)
      requires Valid()
      modifies this, usersService
      ensures Valid() && comments == old(comments)
      // a refused tip is refused for the first failing check, and changes nothing
      ensures var check := TipCheck(old(posts), old(usersService.users), postId, amount, senderId);
              check.Failure? ==>
                r == Failure(check.error)
                && usersService.users == old(usersService.users) && posts == old(posts)
      // an accepted one moves the coins to the author and counts them on the post
      ensures var check := TipCheck(old(posts), old(usersService.users), postId, amount, senderId);
              check.Success? ==>
                && check.value.userId in old(usersService.users)
                && usersService.users == Move(old(usersService.users), senderId, check.value.userId, amount)
                && r == Success(Tipped(check.value, amount))
                && posts == Replace(old(posts), postId, r.value)
                && usersService.users[senderId].coinBalance >= 0
                && TotalBalance(usersService.users) == TotalBalance(old(usersService.users))
      ensures NonNegative(old(usersService.users)) ==> NonNegative(usersService.users)
    {
      var check := TipCheck(posts, usersService.users, postId, amount, senderId);
      if check.Failure? {
        return Failure(check.error);
      }
      var updated := Tip(check.value, senderId, amount);
      r := Success(updated);
    }

    /**
     * The paying part of `sendCoins`: the two balance updates, then the post's
     * `coinsReceived`.
     */
    method Tip(post: Post, senderId: UserId, amount: int) returns (updated: Post)
      requires Valid() && post in posts
      requires senderId in usersService.users && post.userId in usersService.users
      requires senderId != post.userId && 0 < amount <= usersService.users[senderId].coinBalance
      modifies this, usersService
      ensures Valid() && comments == old(comments)
      ensures updated == Tipped(post, amount)
      ensures usersService.users == Move(old(usersService.users), senderId, post.userId, amount)
      ensures posts == Replace(old(posts), post.id, updated)
      ensures TotalBalance(usersService.users) == TotalBalance(old(usersService.users))
      ensures NonNegative(old(usersService.users)) ==> NonNegative(usersService.users)
    {
      usersService.MoveBalance(senderId, post.userId, amount);
      updated := Tipped(post, amount);
      ReplaceKeepsUnique(posts, post.id, updated);
      ReplaceKeepsTimeOrder(posts, post, updated);
      posts := Replace(posts, post.id, updated);
    }
  }
}
