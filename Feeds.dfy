/**
 * The read-only views of the posts app: each is a filter over the post
 * table, ordered newest first and cut into pages.
 */
module Feeds {
  import opened Seqs
  import opened Models
  import opened Follows
  import opened Pagination

  // ---------------------------------------------------------------------
  // The ordered feeds, before pagination

  /** `Post.objects.all()`. */
  function AllPosts(db: Db): (r: seq<Post>)
    ensures SortedDesc(r, PostDate)
    ensures multiset(r) == multiset(db.posts)
    ensures forall p :: p in r <==> p in db.posts
  {
    PostsNewestFirst(db.posts)
  }

  function InGroup(g: GroupId): Post -> bool { (p: Post) => p.group == Some(g) }
  function ByAuthor(a: UserId): Post -> bool { (p: Post) => p.author == a }

  /** `group.posts.all()`. */
  function GroupFeed(db: Db, g: GroupId): (r: seq<Post>)
    ensures SortedDesc(r, PostDate)
    ensures multiset(r) == multiset(Where(db.posts, InGroup(g)))
    ensures forall p :: p in r <==> p in db.posts && p.group == Some(g)
  {
    PostsNewestFirst(Where(db.posts, InGroup(g)))
  }

  /** `author.posts.all()`. */
  function AuthorFeed(db: Db, a: UserId): (r: seq<Post>)
    ensures SortedDesc(r, PostDate)
    ensures multiset(r) == multiset(Where(db.posts, ByAuthor(a)))
    ensures forall p :: p in r <==> p in db.posts && p.author == a
  {
    PostsNewestFirst(Where(db.posts, ByAuthor(a)))
  }

  /** `Post.objects.filter(author__following__user=viewer)`: with the unique
      constraint in force it is each followed author's posts, once each. */
  function FollowFeed(db: Db, viewer: UserId): (r: seq<Post>)
    ensures SortedDesc(r, PostDate)
    ensures forall p :: p in r <==> p in db.posts && IsFollowing(db.follows, viewer, p.author)
    ensures UniqueFollows(db.follows) ==>
              multiset(r) == multiset(Where(db.posts, ByFollowedAuthors(db.follows, viewer)))
  {
    assert UniqueFollows(db.follows) ==>
        FollowJoin(db.posts, db.follows, viewer) == Where(db.posts, ByFollowedAuthors(db.follows, viewer)) by {
      if UniqueFollows(db.follows) { JoinIsFilterUnderUniqueness(db.posts, db.follows, viewer); }
    }
    PostsNewestFirst(FollowJoin(db.posts, db.follows, viewer))
  }

  /** A page of a feed ordered newest first is ordered newest first. */
  lemma PageKeepsOrder(feed: seq<Post>, page: nat)
    requires page >= 1
    requires SortedDesc(feed, PostDate)
    ensures SortedDesc(PaginatePosts(feed, page), PostDate)
  {
    var r := PaginatePosts(feed, page);
    var start := PageStart(page, PostNumOnPage);
    forall i, j | 0 <= i < j < |r| ensures PostDate(r[i]) >= PostDate(r[j]) {
      assert r[i] == feed[start + i] && r[j] == feed[start + j];
    }
  }

  // ---------------------------------------------------------------------
  // The views

  /** `index`: page `page` of every post. */
  function Index(db: Db, page: nat): (r: seq<Post>)
    requires page >= 1
    ensures r == PaginatePosts(AllPosts(db), page)
    ensures |r| <= PostNumOnPage
    ensures SortedDesc(r, PostDate)
    ensures forall p :: p in r ==> p in db.posts
  {
    PageKeepsOrder(AllPosts(db), page);
    PaginatePosts(AllPosts(db), page)
  }

  datatype GroupPage = GroupPage(group: Group, posts: seq<Post>)

  /** `group_posts`: the group with that slug and a page of its posts; an
      unknown slug is not found. */
  function GroupPosts(db: Db, slug: string, page: nat): (r: Result<GroupPage>)
    requires page >= 1
    ensures r.Err? <==> forall g :: g in db.groups ==> g.slug != slug
    ensures r.Err? ==> r.error == NotFound
    ensures r.Ok? ==> r.value.group in db.groups && r.value.group.slug == slug
    ensures r.Ok? ==> r.value.posts == PaginatePosts(GroupFeed(db, r.value.group.id), page)
    ensures r.Ok? ==> |r.value.posts| <= PostNumOnPage
    ensures r.Ok? ==> SortedDesc(r.value.posts, PostDate)
    ensures r.Ok? ==> forall p :: p in r.value.posts ==>
                        p in db.posts && p.group == Some(r.value.group.id)
  {
    match GroupBySlug(db.groups, slug)
    case None => Err(NotFound)
    case Some(g) =>
      PageKeepsOrder(GroupFeed(db, g.id), page);
      Ok(GroupPage(g, PaginatePosts(GroupFeed(db, g.id), page)))
  }

  /** The `following` flag of `profile`: some row has the viewer as its
      follower and, as its author, a user with that username. Anonymous
      visitors make the query fail, and the flag is then false. */
  predicate FollowingFlag(db: Db, viewer: Option<UserId>, username: string)
  {
    match viewer
    case None => false
    case Some(v) =>
      exists f, u :: f in db.follows && u in db.users &&
        f.user == v && u.id == f.author && u.username == username
  }

  datatype ProfilePage = ProfilePage(author: User, posts: seq<Post>, following: bool)

  /** `profile`: the user with that username, a page of their posts and
      whether the viewer follows them; an unknown username is not found. */
  function Profile(db: Db, viewer: Option<UserId>, username: string, page: nat): (r: Result<ProfilePage>)
    requires page >= 1
    ensures r.Err? <==> forall u :: u in db.users ==> u.username != username
    ensures r.Err? ==> r.error == NotFound
    ensures r.Ok? ==> r.value.author in db.users && r.value.author.username == username
    ensures r.Ok? ==> r.value.posts == PaginatePosts(AuthorFeed(db, r.value.author.id), page)
    ensures r.Ok? ==> |r.value.posts| <= PostNumOnPage
    ensures r.Ok? ==> SortedDesc(r.value.posts, PostDate)
    ensures r.Ok? ==> forall p :: p in r.value.posts ==> p in db.posts && p.author == r.value.author.id
    ensures r.Ok? ==> (r.value.following <==> FollowingFlag(db, viewer, username))
    ensures viewer.None? && r.Ok? ==> !r.value.following
  {
    var following := FollowingFlag(db, viewer, username);
    match UserByName(db.users, username)
    case None => Err(NotFound)
    case Some(a) =>
      PageKeepsOrder(AuthorFeed(db, a.id), page);
      Ok(ProfilePage(a, PaginatePosts(AuthorFeed(db, a.id), page), following))
  }

  /** `follow_index`: a page of the posts of the authors the viewer follows;
      anonymous visitors are sent to log in. */
  function FollowIndex(db: Db, viewer: Option<UserId>, page: nat): (r: Result<seq<Post>>)
    requires page >= 1
    ensures r.Err? <==> viewer.None?
    ensures r.Err? ==> r.error == LoginRequired
    ensures r.Ok? ==> r.value == PaginatePosts(FollowFeed(db, viewer.value), page)
    ensures r.Ok? ==> |r.value| <= PostNumOnPage
    ensures r.Ok? ==> SortedDesc(r.value, PostDate)
    ensures r.Ok? ==> forall p :: p in r.value ==>
                        p in db.posts && IsFollowing(db.follows, viewer.value, p.author)
  {
    match viewer
    case None => Err(LoginRequired)
    case Some(v) =>
      PageKeepsOrder(FollowFeed(db, v), page);
      Ok(PaginatePosts(FollowFeed(db, v), page))
  }

  datatype DetailPage = DetailPage(post: Post, comments: seq<Comment>)

  function OnPost(id: PostId): Comment -> bool { (c: Comment) => c.post == id }

  /** `post_detail`: the post and its comments, newest first; an unknown
      post is not found. */
  function PostDetail(db: Db, id: PostId): (r: Result<DetailPage>)
    ensures r.Err? <==> forall p :: p in db.posts ==> p.id != id
    ensures r.Err? ==> r.error == NotFound
    ensures r.Ok? ==> r.value.post in db.posts && r.value.post.id == id
    ensures r.Ok? ==> SortedDesc(r.value.comments, CommentDate)
    ensures r.Ok? ==> multiset(r.value.comments) == multiset(Where(db.comments, OnPost(id)))
    ensures r.Ok? ==> forall c :: c in r.value.comments <==> c in db.comments && c.post == id
  {
    match PostIndex(db.posts, id)
    case None => Err(NotFound)
    case Some(k) => Ok(DetailPage(db.posts[k], CommentsNewestFirst(Where(db.comments, OnPost(id)))))
  }

  // ---------------------------------------------------------------------
  // Properties of the views

  /** Under the schema's constraints the `following` flag is the point
      lookup "the row (viewer, author) exists". */
  lemma FollowingFlagIsRowLookup(db: Db, viewer: UserId, author: User)
    requires Consistent(db)
    requires author in db.users
    ensures FollowingFlag(db, Some(viewer), author.username) <==> IsFollowing(db.follows, viewer, author.id)
  {
    if IsFollowing(db.follows, viewer, author.id) {
      var f := Follow(viewer, author.id);
      assert f in db.follows && author in db.users && f.user == viewer && author.id == f.author;
    }
    if FollowingFlag(db, Some(viewer), author.username) {
      var f, u :| f in db.follows && u in db.users &&
        f.user == viewer && u.id == f.author && u.username == author.username;
      var i :| 0 <= i < |db.users| && db.users[i] == u;
      var j :| 0 <= j < |db.users| && db.users[j] == author;
      assert Username(db.users[i]) == Username(db.users[j]);
      assert i == j;
    }
  }

  /** A post of one group never shows on another group's page. */
  lemma PostNotOnAnotherGroupPage(db: Db, p: Post, other: Group, page: nat)
    requires Consistent(db)
    requires page >= 1
    requires other in db.groups
    requires p.group != Some(other.id)
    ensures GroupPosts(db, other.slug, page).Ok?
    ensures p !in GroupPosts(db, other.slug, page).value.posts
  {
    SlugResolvesToTheGroup(db.groups, other);
  }

  /** The followed-authors feed holds exactly the posts of the authors the
      viewer follows; a post of an author the viewer does not follow is
      never in it. */
  lemma FollowFeedIsFollowedAuthorsPosts(db: Db, viewer: UserId, p: Post)
    requires p in db.posts
    ensures p in FollowFeed(db, viewer) <==> IsFollowing(db.follows, viewer, p.author)
  {
  }

  /** Every post of a feed sits on exactly one of its pages: the pages, read
      in order, are the whole feed. */
  lemma PagesCoverEveryFeed(feed: seq<Post>, number: nat)
    requires number >= 1
    ensures Flatten(Chunks(feed, PostNumOnPage)) == feed
    ensures number <= |Chunks(feed, PostNumOnPage)| ==>
              PaginatePosts(feed, number) == Chunks(feed, PostNumOnPage)[number - 1]
  {
    ChunksCoverFeed(feed, PostNumOnPage);
    PageIsChunk(feed, number, PostNumOnPage);
  }

  /** A feed of one post more than a page holds has a full first page and
      a second page of one. */
  lemma OneMoreThanAPageOfFeed(feed: seq<Post>)
    requires |feed| == PostNumOnPage + 1
    ensures |PaginatePosts(feed, 1)| == PostNumOnPage
    ensures |PaginatePosts(feed, 2)| == 1
  {
    OneMoreThanAPage(feed, PostNumOnPage);
  }

  /** The index with one post more than a page holds. */
  lemma IndexOneMoreThanAPage(db: Db)
    requires |db.posts| == PostNumOnPage + 1
    ensures |Index(db, 1)| == PostNumOnPage && |Index(db, 2)| == 1
  {
    assert |multiset(AllPosts(db))| == |multiset(db.posts)|;
    OneMoreThanAPageOfFeed(AllPosts(db));
  }

  /** The page of a group that holds every post. */
  lemma GroupOneMoreThanAPage(db: Db, g: Group)
    requires KeyDistinct(db.groups, GroupSlug) && g in db.groups
    requires |db.posts| == PostNumOnPage + 1
    requires forall p :: p in db.posts ==> p.group == Some(g.id)
    ensures GroupPosts(db, g.slug, 1).Ok? && |GroupPosts(db, g.slug, 1).value.posts| == PostNumOnPage
    ensures GroupPosts(db, g.slug, 2).Ok? && |GroupPosts(db, g.slug, 2).value.posts| == 1
  {
    SlugResolvesToTheGroup(db.groups, g);
    WhereAll(db.posts, InGroup(g.id));
    assert |multiset(GroupFeed(db, g.id))| == |multiset(db.posts)|;
    OneMoreThanAPageOfFeed(GroupFeed(db, g.id));
  }

  /** The profile of the author of every post. */
  lemma ProfileOneMoreThanAPage(db: Db, viewer: Option<UserId>, author: User)
    requires KeyDistinct(db.users, Username) && author in db.users
    requires |db.posts| == PostNumOnPage + 1
    requires forall p :: p in db.posts ==> p.author == author.id
    ensures Profile(db, viewer, author.username, 1).Ok?
    ensures |Profile(db, viewer, author.username, 1).value.posts| == PostNumOnPage
    ensures Profile(db, viewer, author.username, 2).Ok?
    ensures |Profile(db, viewer, author.username, 2).value.posts| == 1
  {
    UsernameResolvesToTheUser(db.users, author);
    WhereAll(db.posts, ByAuthor(author.id));
    assert |multiset(AuthorFeed(db, author.id))| == |multiset(db.posts)|;
    OneMoreThanAPageOfFeed(AuthorFeed(db, author.id));
  }

  /** The follow page of a follower of the author of every post. */
  lemma FollowOneMoreThanAPage(db: Db, viewer: UserId, author: UserId)
    requires UniqueFollows(db.follows)
    requires IsFollowing(db.follows, viewer, author)
    requires |db.posts| == PostNumOnPage + 1
    requires forall p :: p in db.posts ==> p.author == author
    ensures FollowIndex(db, Some(viewer), 1).Ok? && |FollowIndex(db, Some(viewer), 1).value| == PostNumOnPage
    ensures FollowIndex(db, Some(viewer), 2).Ok? && |FollowIndex(db, Some(viewer), 2).value| == 1
  {
    WhereAll(db.posts, ByFollowedAuthors(db.follows, viewer));
    assert |multiset(FollowFeed(db, viewer))| == |multiset(db.posts)|;
    OneMoreThanAPageOfFeed(FollowFeed(db, viewer));
  }

  /** With one post more than a page holds, all by one author in one group
      whom the viewer follows, page 1 of every feed has POST_NUM_ON_PAGE
      posts and page 2 has one. */
  lemma OneMoreThanAPageInEveryFeed(db: Db, viewer: UserId, author: User, g: Group)
    requires Consistent(db)
    requires author in db.users && g in db.groups
    requires IsFollowing(db.follows, viewer, author.id)
    requires |db.posts| == PostNumOnPage + 1
    requires forall p :: p in db.posts ==> p.author == author.id && p.group == Some(g.id)
    ensures |Index(db, 1)| == PostNumOnPage && |Index(db, 2)| == 1
    ensures GroupPosts(db, g.slug, 1).Ok? && |GroupPosts(db, g.slug, 1).value.posts| == PostNumOnPage
    ensures GroupPosts(db, g.slug, 2).Ok? && |GroupPosts(db, g.slug, 2).value.posts| == 1
    ensures Profile(db, Some(viewer), author.username, 1).Ok?
    ensures |Profile(db, Some(viewer), author.username, 1).value.posts| == PostNumOnPage
    ensures Profile(db, Some(viewer), author.username, 2).Ok?
    ensures |Profile(db, Some(viewer), author.username, 2).value.posts| == 1
    ensures FollowIndex(db, Some(viewer), 1).Ok? && |FollowIndex(db, Some(viewer), 1).value| == PostNumOnPage
    ensures FollowIndex(db, Some(viewer), 2).Ok? && |FollowIndex(db, Some(viewer), 2).value| == 1
  {
    IndexOneMoreThanAPage(db);
    GroupOneMoreThanAPage(db, g);
    ProfileOneMoreThanAPage(db, Some(viewer), author);
    FollowOneMoreThanAPage(db, viewer, author.id);
  }
}
