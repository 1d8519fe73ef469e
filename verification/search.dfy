/**
 * The search screen: a query over three catalogs (users, posts, hashtags),
 * narrowed by the active filter tab, the kind of result shown first, the
 * recent-search list and the list keys. The catalogs are parameters; the
 * debounce timers and the simulated latency are not modelled.
 */
module Search {
  import opened Common

  datatype SearchUser = SearchUser(id: string, username: string, name: string, followers: int)
  datatype SearchPost = SearchPost(id: string, authorUsername: string, content: string)
  datatype Hashtag = Hashtag(id: string, name: string, postsCount: int)

  /** `User | Post | Hashtag`, told apart by which fields an item has. */
  datatype SearchResult =
    | UserResult(user: SearchUser)
    | PostResult(post: SearchPost)
    | HashtagResult(hashtag: Hashtag)

  datatype ResultKind = UserKind | PostKind | HashtagKind

  datatype SearchFilter = AllKinds | UsersOnly | PostsOnly | HashtagsOnly

  datatype Catalog = Catalog(users: seq<SearchUser>, posts: seq<SearchPost>, hashtags: seq<Hashtag>)

  function KindOf(r: SearchResult): ResultKind {
    match r
    case UserResult(_) => UserKind
    case PostResult(_) => PostKind
    case HashtagResult(_) => HashtagKind
  }

  /** Users are listed first, then posts, then hashtags. */
  function Rank(k: ResultKind): nat {
    match k
    case UserKind => 0
    case PostKind => 1
    case HashtagKind => 2
  }

  /** `activeFilter === 'all' || activeFilter === <kind>`. */
  predicate Allows(f: SearchFilter, k: ResultKind) {
    match f
    case AllKinds => true
    case UsersOnly => k == UserKind
    case PostsOnly => k == PostKind
    case HashtagsOnly => k == HashtagKind
  }

  /** The per-kind test against the lower-cased query. */
  predicate ResultMatches(r: SearchResult, lowerQuery: string) {
    match r
    case UserResult(u) =>
      Includes(ToLower(u.username), lowerQuery) || Includes(ToLower(u.name), lowerQuery)
    case PostResult(p) => Includes(ToLower(p.content), lowerQuery)
    case HashtagResult(h) => Includes(ToLower(h.name), lowerQuery)
  }

  predicate InCatalog(c: Catalog, r: SearchResult) {
    match r
    case UserResult(u) => u in c.users
    case PostResult(p) => p in c.posts
    case HashtagResult(h) => h in c.hashtags
  }

  function WrapUsers(us: seq<SearchUser>): (r: seq<SearchResult>)
    ensures forall x :: x in r <==> x.UserResult? && x.user in us
  {
    var r := seq(|us|, i requires 0 <= i < |us| => UserResult(us[i]));
    assert forall u :: u in us ==> UserResult(u) in r by {
      forall u | u in us ensures UserResult(u) in r {
        var i :| 0 <= i < |us| && us[i] == u;
        assert r[i] == UserResult(u);
      }
    }
    r
  }

  function WrapPosts(ps: seq<SearchPost>): (r: seq<SearchResult>)
    ensures forall x :: x in r <==> x.PostResult? && x.post in ps
  {
    var r := seq(|ps|, i requires 0 <= i < |ps| => PostResult(ps[i]));
    assert forall p :: p in ps ==> PostResult(p) in r by {
      forall p | p in ps ensures PostResult(p) in r {
        var i :| 0 <= i < |ps| && ps[i] == p;
        assert r[i] == PostResult(p);
      }
    }
    r
  }

  function WrapHashtags(hs: seq<Hashtag>): (r: seq<SearchResult>)
    ensures forall x :: x in r <==> x.HashtagResult? && x.hashtag in hs
  {
    var r := seq(|hs|, i requires 0 <= i < |hs| => HashtagResult(hs[i]));
    assert forall h :: h in hs ==> HashtagResult(h) in r by {
      forall h | h in hs ensures HashtagResult(h) in r {
        var i :| 0 <= i < |hs| && hs[i] == h;
        assert r[i] == HashtagResult(h);
      }
    }
    r
  }

  /** `items.filter(<kind's test>)`: the matching items in catalog order. */
  function Hits(items: seq<SearchResult>, lowerQuery: string): (r: seq<SearchResult>)
    ensures |r| <= |items|
    ensures forall x :: x in r <==> x in items && ResultMatches(x, lowerQuery)
  {
    if items == [] then []
    else (if ResultMatches(items[0], lowerQuery) then [items[0]] else []) + Hits(items[1..], lowerQuery)
  }

  /** The hits keep catalog order: filtering commutes with splitting the catalog. */
  lemma {:induction false} HitsKeepOrder(a: seq<SearchResult>, b: seq<SearchResult>, lowerQuery: string)
    ensures Hits(a + b, lowerQuery) == Hits(a, lowerQuery) + Hits(b, lowerQuery)
  {
    if a == [] {
      assert a + b == b;
    } else {
      assert (a + b)[1..] == a[1..] + b;
      HitsKeepOrder(a[1..], b, lowerQuery);
    }
  }

  /** The section of one kind: its hits when the filter lets the kind through, else nothing. */
  function Section(f: SearchFilter, k: ResultKind, c: Catalog, lowerQuery: string): (r: seq<SearchResult>)
    ensures forall x :: x in r <==>
              KindOf(x) == k && Allows(f, k) && InCatalog(c, x) && ResultMatches(x, lowerQuery)
  {
    if !Allows(f, k) then []
    else match k
      case UserKind => Hits(WrapUsers(c.users), lowerQuery)
      case PostKind => Hits(WrapPosts(c.posts), lowerQuery)
      case HashtagKind => Hits(WrapHashtags(c.hashtags), lowerQuery)
  }

  /** What `performSearch(query)` leaves in `searchResults`. */
  function SearchResults(query: string, f: SearchFilter, c: Catalog): (r: seq<SearchResult>)
    // every result is allowed by the tab, comes from its catalog and contains the lower-cased query
    ensures forall x :: x in r <==>
              Allows(f, KindOf(x)) && InCatalog(c, x) && ResultMatches(x, ToLower(query))
    // users, then posts, then hashtags
    ensures forall i, j :: 0 <= i < j < |r| ==> Rank(KindOf(r[i])) <= Rank(KindOf(r[j]))
  {
    var q := ToLower(query);
    var us := Section(f, UserKind, c, q);
    var ps := Section(f, PostKind, c, q);
    var hs := Section(f, HashtagKind, c, q);
    SectionsInRankOrder(us, ps, hs);
    us + ps + hs
  }

  /** Sections of users, posts and hashtags, laid end to end, are in rank order. */
  lemma SectionsInRankOrder(us: seq<SearchResult>, ps: seq<SearchResult>, hs: seq<SearchResult>)
    requires forall x :: x in us ==> KindOf(x) == UserKind
    requires forall x :: x in ps ==> KindOf(x) == PostKind
    requires forall x :: x in hs ==> KindOf(x) == HashtagKind
    ensures var r := us + ps + hs;
            forall i, j :: 0 <= i < j < |r| ==> Rank(KindOf(r[i])) <= Rank(KindOf(r[j]))
  {
    var r := us + ps + hs;
    forall i | 0 <= i < |r|
      ensures Rank(KindOf(r[i])) == if i < |us| then 0 else if i < |us| + |ps| then 1 else 2
    {
      if i < |us| {
        assert r[i] == us[i] && us[i] in us;
      } else if i < |us| + |ps| {
        assert r[i] == ps[i - |us|] && ps[i - |us|] in ps;
      } else {
        assert r[i] == hs[i - |us| - |ps|] && hs[i - |us| - |ps|] in hs;
      }
    }
  }

  /** `setResultType(...)`: the kind of the first result, or null. */
  function ResultType(results: seq<SearchResult>): (t: Option<ResultKind>)
    ensures t.None? <==> results == []
  {
    if results == [] then None else Some(KindOf(results[0]))
  }

  /**
   * The type shown is `user` exactly when some user matches and the tab lets
   * users through; it is `post` exactly when no user is listed and some post is.
   */
  lemma ResultTypeIsFirstSection(query: string, f: SearchFilter, c: Catalog)
    ensures var r := SearchResults(query, f, c);
            var q := ToLower(query);
            && (ResultType(r) == Some(UserKind) <==> Section(f, UserKind, c, q) != [])
            && (ResultType(r) == Some(PostKind) <==>
                  Section(f, UserKind, c, q) == [] && Section(f, PostKind, c, q) != [])
  {
    var q := ToLower(query);
    var us := Section(f, UserKind, c, q);
    var ps := Section(f, PostKind, c, q);
    var r := SearchResults(query, f, c);
    if us != [] {
      assert us[0] in us;
      assert r[0] == us[0];
    } else if ps != [] {
      assert ps[0] in ps;
      assert r[0] == ps[0];
    } else if r != [] {
      assert r[0] in r;
    }
  }

  /**
   * `performSearch(query)`: the results built by appending each allowed
   * section in turn, and the result type.
   */
  method PerformSearch(query: string, f: SearchFilter, c: Catalog)
    returns (results: seq<SearchResult>, resultType: Option<ResultKind>)
    ensures results == SearchResults(query, f, c)
    ensures resultType == ResultType(results)
  {
    results := [];
    var lowerQuery := ToLower(query);
    if f == AllKinds || f == UsersOnly {
      results := results + Hits(WrapUsers(c.users), lowerQuery);
    }
    ghost var users := Section(f, UserKind, c, lowerQuery);
    assert results == users;
    if f == AllKinds || f == PostsOnly {
      results := results + Hits(WrapPosts(c.posts), lowerQuery);
    }
    ghost var posts := Section(f, PostKind, c, lowerQuery);
    assert results == users + posts;
    if f == AllKinds || f == HashtagsOnly {
      results := results + Hits(WrapHashtags(c.hashtags), lowerQuery);
    }
    assert results == users + posts + Section(f, HashtagKind, c, lowerQuery);
    if |results| > 0 {
      resultType := Some(KindOf(results[0]));
    } else {
      resultType := None;
    }
  }

  /**
   * The query effect: a blank query clears the results and the type; any
   * other query is searched as typed (untrimmed).
   */
  method OnQueryChange(query: string, f: SearchFilter, c: Catalog)
    returns (results: seq<SearchResult>, resultType: Option<ResultKind>)
    ensures AllWhitespace(query) ==> results == [] && resultType == None
    ensures !AllWhitespace(query) ==> results == SearchResults(query, f, c)
    ensures resultType.None? <==> results == []
  {
    TrimEmptyIffBlank(query);
    if Trim(query) == "" {
      results, resultType := [], None;
    } else {
      results, resultType := PerformSearch(query, f, c);
    }
  }

  // ---------------------------------------------------------------------
  // Recent searches
  // ---------------------------------------------------------------------

  /** The list the screen starts with. */
  const InitialRecent: seq<string> := ["socialcoin", "crypto", "blockchain", "mario_rossi"]

  /** `[label, ...recent.slice(0, 4)]` unless the label is already there. */
  function Remember(recent: seq<string>, entry: string): (r: seq<string>)
    ensures entry in recent ==> r == recent
    ensures entry !in recent ==>
              |r| == Min(|recent|, 4) + 1 && r[0] == entry && r[1..] == recent[..|r| - 1]
  {
    if entry in recent then recent
    else [entry] + recent[..Min(|recent|, 4)]
  }

  /** `handleResultTap(result)`: users and hashtags are remembered, posts are not. */
  function ResultTap(recent: seq<string>, result: SearchResult): (r: seq<string>)
    ensures result.PostResult? ==> r == recent
    ensures result.UserResult? ==> result.user.username in r
    ensures result.HashtagResult? ==> result.hashtag.name in r
    ensures |recent| <= 5 ==> |r| <= 5
    ensures forall s :: s in r ==> s in recent || s == Label(result)
  {
    match result
    case UserResult(u) => Remember(recent, u.username)
    case PostResult(_) => recent
    case HashtagResult(h) => Remember(recent, h.name)
  }

  /** The text a tap remembers. */
  function Label(result: SearchResult): string {
    match result
    case UserResult(u) => u.username
    case PostResult(p) => p.id
    case HashtagResult(h) => h.name
  }

  /** A repeated tap changes nothing. */
  lemma ResultTapIdempotent(recent: seq<string>, result: SearchResult)
    ensures ResultTap(ResultTap(recent, result), result) == ResultTap(recent, result)
  {
  }

  /** No entry appears twice; tapping keeps it so. */
  predicate NoDuplicates(s: seq<string>) {
    forall i, j :: 0 <= i < j < |s| ==> s[i] != s[j]
  }

  lemma ResultTapKeepsDistinct(recent: seq<string>, result: SearchResult)
    requires NoDuplicates(recent)
    ensures NoDuplicates(ResultTap(recent, result))
  {
    var r := ResultTap(recent, result);
    if r != recent {
      assert forall i :: 1 <= i < |r| ==> r[i] == recent[i - 1];
      assert forall i :: 1 <= i < |r| ==> r[i] in recent;
    }
  }

  /** `clearRecentSearches()`: the list is emptied, whatever it held. */
  function ClearRecentSearches(recent: seq<string>): (r: seq<string>)
    ensures |r| == 0
  {
    []
  }

  /** After clearing, the next remembered tap is the only entry. */
  lemma ClearThenTap(recent: seq<string>, result: SearchResult)
    requires !result.PostResult?
    ensures ResultTap(ClearRecentSearches(recent), result) == [Label(result)]
  {
  }

  // ---------------------------------------------------------------------
  // List keys
  // ---------------------------------------------------------------------

  /** `keyExtractor`: `user-<id>`, `post-<id>` or `hashtag-<id>`. */
  function ResultKey(r: SearchResult): (k: string)
    // the key ends in "-" and the result's id, and its prefix names the kind
    ensures |k| > |Id(r)| && k[|k| - |Id(r)|..] == Id(r) && k[|k| - |Id(r)| - 1] == '-'
    ensures r.UserResult? <==> |k| >= 5 && k[..5] == "user-"
    ensures r.PostResult? <==> |k| >= 5 && k[..5] == "post-"
  {
    match r
    case UserResult(u) => var k := "user-" + u.id; assert k[..5] == "user-"; k
    case PostResult(p) => var k := "post-" + p.id; assert k[..5] == "post-"; k
    case HashtagResult(h) => var k := "hashtag-" + h.id; assert k[..5][0] == 'h'; k
  }

  function Id(r: SearchResult): string {
    match r
    case UserResult(u) => u.id
    case PostResult(p) => p.id
    case HashtagResult(h) => h.id
  }

  /** Two results get the same key only when they have the same kind and id. */
  lemma ResultKeyInjective(a: SearchResult, b: SearchResult)
    ensures ResultKey(a) == ResultKey(b) <==> KindOf(a) == KindOf(b) && Id(a) == Id(b)
  {
    var ka, kb := ResultKey(a), ResultKey(b);
    if ka == kb {
      assert ka[0] == kb[0];
      var n := if a.UserResult? then 5 else if a.PostResult? then 5 else 8;
      assert KindOf(a) == KindOf(b);
      assert ka[n..] == Id(a) && kb[n..] == Id(b);
    }
  }
}
