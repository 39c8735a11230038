/**
 * The database as the write views change it: `profile_follow`,
 * `profile_unfollow`, `post_create`, `post_edit` and `add_comment`, plus the
 * deletions whose effect the foreign keys' on_delete rules decide.
 */
module Blog {
  import opened Seqs
  import opened Models
  import opened Follows
  import opened Feeds

  /** What a validated `PostForm` carries: the text and the chosen group. */
  datatype PostForm = PostForm(text: string, group: Option<GroupId>)

  /** Every post of `posts` with its group reference to `g` cleared: the
      SET_NULL rule of `Post.group`. */
  function Ungrouped(posts: seq<Post>, g: GroupId): (r: seq<Post>)
    ensures |r| == |posts|
    ensures forall i :: 0 <= i < |r| ==> r[i].id == posts[i].id && r[i].author == posts[i].author
    ensures forall i :: 0 <= i < |r| ==> r[i].group != Some(g)
    ensures forall i :: 0 <= i < |r| && posts[i].group != Some(g) ==> r[i] == posts[i]
  {
    if posts == [] then []
    else
      var p := posts[0];
      [if p.group == Some(g) then p.(group := None) else p] + Ungrouped(posts[1..], g)
  }

  /** Deleting group `g` keeps every post: a post that was in it keeps its
      key, text, date and author and is now in no group. */
  lemma {:induction false} DeletedGroupKeepsItsPosts(posts: seq<Post>, g: GroupId, i: nat)
    requires i < |posts|
    requires posts[i].group == Some(g)
    ensures Ungrouped(posts, g)[i] == posts[i].(group := None)
  {
    if i > 0 {
      DeletedGroupKeepsItsPosts(posts[1..], g, i - 1);
    }
  }

  // ---------------------------------------------------------------------
  // The on_delete rules, as functions of the tables

  /** Deleting group `id`: SET_NULL on `Post.group`. */
  function AfterGroupDeleted(db: Db, id: GroupId): (r: Db)
    ensures r.users == db.users && r.comments == db.comments && r.follows == db.follows
    ensures forall g :: g in r.groups <==> g in db.groups && g.id != id
    ensures r.posts == Ungrouped(db.posts, id)
  {
    db.(groups := Where(db.groups, (g: Group) => g.id != id), posts := Ungrouped(db.posts, id))
  }

  /** Ungrouping keeps the set of post keys. */
  lemma UngroupedKeepsKeys(posts: seq<Post>, g: GroupId)
    ensures PostIds(Ungrouped(posts, g)) == PostIds(posts)
    ensures KeyDistinct(posts, PostKey) ==> KeyDistinct(Ungrouped(posts, g), PostKey)
  {
    var r := Ungrouped(posts, g);
    forall x | x in PostIds(posts) ensures x in PostIds(r) {
      var p :| p in posts && p.id == x;
      var i :| 0 <= i < |posts| && posts[i] == p;
      assert r[i] in r;
    }
    forall x | x in PostIds(r) ensures x in PostIds(posts) {
      var p :| p in r && p.id == x;
      var i :| 0 <= i < |r| && r[i] == p;
      assert posts[i] in posts;
    }
    if KeyDistinct(posts, PostKey) {
      forall i, j | 0 <= i < j < |r| ensures PostKey(r[i]) != PostKey(r[j]) {
        assert PostKey(posts[i]) != PostKey(posts[j]);
      }
    }
  }

  /** Deleting a group keeps the database consistent. */
  lemma GroupDeletionKeepsConsistency(db: Db, id: GroupId)
    requires Consistent(db)
    ensures Consistent(AfterGroupDeleted(db, id))
  {
    var r := AfterGroupDeleted(db, id);
    WhereKeyDistinct(db.groups, (g: Group) => g.id != id, GroupKey);
    WhereKeyDistinct(db.groups, (g: Group) => g.id != id, GroupSlug);
    UngroupedKeepsKeys(db.posts, id);
    forall p | p in r.posts
      ensures p.author in UserIds(r.users) && (p.group.Some? ==> p.group.value in GroupIds(r.groups))
    {
      var i :| 0 <= i < |r.posts| && r.posts[i] == p;
      assert db.posts[i] in db.posts;
      if db.posts[i].group == Some(id) {
        DeletedGroupKeepsItsPosts(db.posts, id, i);
      }
      if p.group.Some? {
        assert p == db.posts[i];
        assert p.group.value in GroupIds(db.groups);
        var g :| g in db.groups && g.id == p.group.value;
        assert g in r.groups;
      }
    }
  }

  /** Deleting post `id`: CASCADE on `Comment.post`. */
  function AfterPostDeleted(db: Db, id: PostId): (r: Db)
    ensures r.users == db.users && r.groups == db.groups && r.follows == db.follows
    ensures forall p :: p in r.posts <==> p in db.posts && p.id != id
    ensures forall c :: c in r.comments <==> c in db.comments && c.post != id
  {
    db.(posts := Where(db.posts, (p: Post) => p.id != id),
        comments := Where(db.comments, (c: Comment) => c.post != id))
  }

  /** Deleting a post keeps the database consistent. */
  lemma PostDeletionKeepsConsistency(db: Db, id: PostId)
    requires Consistent(db)
    ensures Consistent(AfterPostDeleted(db, id))
  {
    var r := AfterPostDeleted(db, id);
    WhereKeyDistinct(db.posts, (p: Post) => p.id != id, PostKey);
    WhereKeyDistinct(db.comments, (c: Comment) => c.post != id, CommentKey);
    forall c | c in r.comments ensures c.post in PostIds(r.posts) {
      var p :| p in db.posts && p.id == c.post;
      assert p in r.posts;
    }
  }

  /** Keys of the posts of user `id`. */
  function PostsOf(posts: seq<Post>, id: UserId): set<PostId>
  {
    set p | p in posts && p.author == id :: p.id
  }

  /** Deleting user `id`: CASCADE on `Post.author`, on `Comment.author`, on
      `Comment.post` for the comments on their posts, and on both
      `Follow.user` and `Follow.author`. */
  function AfterUserDeleted(db: Db, id: UserId): (r: Db)
    ensures r.groups == db.groups
    ensures forall u :: u in r.users <==> u in db.users && u.id != id
    ensures forall p :: p in r.posts <==> p in db.posts && p.author != id
    ensures forall c :: c in r.comments <==>
              c in db.comments && c.author != id && c.post !in PostsOf(db.posts, id)
    ensures forall f :: f in r.follows <==> f in db.follows && f.user != id && f.author != id
  {
    var removed := PostsOf(db.posts, id);
    Db(Where(db.users, (u: User) => u.id != id),
       db.groups,
       Where(db.posts, (p: Post) => p.author != id),
       Where(db.comments, (c: Comment) => c.author != id && c.post !in removed),
       Where(db.follows, (f: Follow) => f.user != id && f.author != id))
  }

  /** Every user key but `id` survives the deletion of user `id`. */
  lemma OtherUsersRemain(db: Db, id: UserId, x: UserId)
    requires x in UserIds(db.users) && x != id
    ensures x in UserIds(AfterUserDeleted(db, id).users)
  {
    var u :| u in db.users && u.id == x;
    assert u in AfterUserDeleted(db, id).users;
  }

  /** Deleting a user keeps the database consistent: nothing left refers to
      them or to their posts. */
  lemma UserDeletionKeepsConsistency(db: Db, id: UserId)
    requires Consistent(db)
    ensures Consistent(AfterUserDeleted(db, id))
  {
    var r := AfterUserDeleted(db, id);
    var removed := PostsOf(db.posts, id);
    WhereKeyDistinct(db.users, (u: User) => u.id != id, UserKey);
    WhereKeyDistinct(db.users, (u: User) => u.id != id, Username);
    WhereKeyDistinct(db.posts, (p: Post) => p.author != id, PostKey);
    WhereKeyDistinct(db.comments, (c: Comment) => c.author != id && c.post !in removed, CommentKey);
    WhereDistinct(db.follows, (f: Follow) => f.user != id && f.author != id);
    forall p | p in r.posts ensures p.author in UserIds(r.users) {
      OtherUsersRemain(db, id, p.author);
    }
    forall c | c in r.comments ensures c.post in PostIds(r.posts) && c.author in UserIds(r.users) {
      var p :| p in db.posts && p.id == c.post;
      assert p in r.posts;
      OtherUsersRemain(db, id, c.author);
    }
    forall f | f in r.follows ensures f.user in UserIds(r.users) && f.author in UserIds(r.users) {
      OtherUsersRemain(db, id, f.user);
      OtherUsersRemain(db, id, f.author);
    }
  }

  /** The consistent tables, with every key below the next one the
      auto-increment hands out. */
  ghost predicate ValidTables(db: Db, nextPostId: PostId, nextCommentId: CommentId)
  {
    && Consistent(db)
    && (forall p :: p in db.posts ==> p.id < nextPostId)
    && (forall c :: c in db.comments ==> c.id < nextCommentId)
  }

  /** Deleting a user keeps the tables valid. */
  lemma UserDeletionKeepsValidity(db: Db, id: UserId, nextPostId: PostId, nextCommentId: CommentId)
    requires ValidTables(db, nextPostId, nextCommentId)
    ensures ValidTables(AfterUserDeleted(db, id), nextPostId, nextCommentId)
  {
    UserDeletionKeepsConsistency(db, id);
    var r := AfterUserDeleted(db, id);
    assert forall c :: c in r.comments ==> c in db.comments;
  }

  /** Deleting a group keeps the tables valid. */
  lemma GroupDeletionKeepsValidity(db: Db, id: GroupId, nextPostId: PostId, nextCommentId: CommentId)
    requires ValidTables(db, nextPostId, nextCommentId)
    ensures ValidTables(AfterGroupDeleted(db, id), nextPostId, nextCommentId)
  {
    GroupDeletionKeepsConsistency(db, id);
    UngroupedKeepsKeys(db.posts, id);
    var r := AfterGroupDeleted(db, id);
    forall p | p in r.posts ensures p.id < nextPostId {
      assert p.id in PostIds(db.posts);
    }
  }

  /** A new post by an existing user, in an existing group or none, with the
      next key keeps the tables valid. */
  lemma PostAppendKeepsValidity(db: Db, post: Post, nextPostId: PostId, nextCommentId: CommentId)
    requires ValidTables(db, nextPostId, nextCommentId)
    requires post.id == nextPostId && post.author in UserIds(db.users)
    requires post.group.Some? ==> post.group.value in GroupIds(db.groups)
    ensures ValidTables(db.(posts := db.posts + [post]), nextPostId + 1, nextCommentId)
  {
    forall i | 0 <= i < |db.posts| ensures PostKey(db.posts[i]) != PostKey(post) {
      assert db.posts[i] in db.posts;
    }
    assert PostIds(db.posts) <= PostIds(db.posts + [post]);
  }

  /** Replacing the text and group of post `k` keeps the tables valid. */
  lemma PostUpdateKeepsValidity(db: Db, k: nat, text: string, group: Option<GroupId>,
                                nextPostId: PostId, nextCommentId: CommentId)
    requires ValidTables(db, nextPostId, nextCommentId)
    requires k < |db.posts|
    requires group.Some? ==> group.value in GroupIds(db.groups)
    ensures ValidTables(db.(posts := db.posts[k := db.posts[k].(text := text, group := group)]),
                        nextPostId, nextCommentId)
  {
    var posts := db.posts[k := db.posts[k].(text := text, group := group)];
    assert forall i :: 0 <= i < |posts| ==> PostKey(posts[i]) == PostKey(db.posts[i]);
    forall p | p in db.posts ensures p.id in PostIds(posts) {
      var i :| 0 <= i < |db.posts| && db.posts[i] == p;
      assert posts[i] in posts;
    }
    forall p | p in posts ensures p.id < nextPostId && p.author in UserIds(db.users)
    {
      var i :| 0 <= i < |posts| && posts[i] == p;
      assert db.posts[i] in db.posts;
    }
  }

  /** A new comment by an existing user on an existing post, with the next
      key, keeps the tables valid. */
  lemma CommentAppendKeepsValidity(db: Db, comment: Comment, nextPostId: PostId, nextCommentId: CommentId)
    requires ValidTables(db, nextPostId, nextCommentId)
    requires comment.id == nextCommentId
    requires comment.post in PostIds(db.posts) && comment.author in UserIds(db.users)
    ensures ValidTables(db.(comments := db.comments + [comment]), nextPostId, nextCommentId + 1)
  {
    forall i | 0 <= i < |db.comments| ensures CommentKey(db.comments[i]) != CommentKey(comment) {
      assert db.comments[i] in db.comments;
    }
  }

  class Site {
    var users: seq<User>
    var groups: seq<Group>
    var posts: seq<Post>
    var comments: seq<Comment>
    var follows: seq<Follow>
    /** The next value of the auto-incremented keys. */
    var nextPostId: PostId
    var nextCommentId: CommentId

    /** The five tables as one value. */
    function Tables(): Db
      reads this
    {
      Db(users, groups, posts, comments, follows)
    }

    ghost predicate Valid()
      reads this
    {
      ValidTables(Tables(), nextPostId, nextCommentId)
    }

    /** A database with the given users and groups and nothing else. */
    constructor (users0: seq<User>, groups0: seq<Group>)
      requires KeyDistinct(users0, UserKey) && KeyDistinct(users0, Username)
      requires KeyDistinct(groups0, GroupKey) && KeyDistinct(groups0, GroupSlug)
      ensures Valid()
      ensures Tables() == Db(users0, groups0, [], [], [])
    {
      users, groups := users0, groups0;
      posts, comments, follows := [], [], [];
      nextPostId, nextCommentId := 0, 0;
    }

    // -------------------------------------------------------------------
    // profile_follow / profile_unfollow

    /** `profile_follow`: the viewer follows the user `username`, unless
        someone already does. */
    method ProfileFollow(viewer: Option<UserId>, username: string) returns (r: Result<()>)
      requires Valid()
      requires viewer.Some? ==> viewer.value in UserIds(users)
      modifies this`follows
      ensures Valid()
      ensures viewer.None? ==> r == Err(LoginRequired) && follows == old(follows)
      ensures viewer.Some? && UserByName(users, username).None? ==>
                r == Err(UnknownUser) && follows == old(follows)
      ensures viewer.Some? && UserByName(users, username).Some? ==>
                r == Ok(()) &&
                follows == AfterFollow(old(follows), viewer.value, UserByName(users, username).value.id)
      ensures r.Ok? ==> HasAuthor(follows, UserByName(users, username).value.id)
      ensures r.Ok? && !old(HasAuthor(follows, UserByName(users, username).value.id)) ==>
                forall p :: p in posts && p.author == UserByName(users, username).value.id ==>
                  p in FollowFeed(Tables(), viewer.value)
    {
      if viewer.None? {
        return Err(LoginRequired);
      }
      var author := UserByName(users, username);
      if author.None? {
        return Err(UnknownUser);
      }
      FollowKeepsRowsUnique(follows, viewer.value, author.value.id);
      if !HasAuthor(follows, author.value.id) {
        follows := follows + [Follow(viewer.value, author.value.id)];
      }
      r := Ok(());
    }

    /** `profile_unfollow`: every row whose author is `username` is deleted. */
    method ProfileUnfollow(viewer: Option<UserId>, username: string) returns (r: Result<()>)
      requires Valid()
      modifies this`follows
      ensures Valid()
      ensures viewer.None? ==> r == Err(LoginRequired) && follows == old(follows)
      ensures viewer.Some? && UserByName(users, username).None? ==>
                r == Err(UnknownUser) && follows == old(follows)
      ensures viewer.Some? && UserByName(users, username).Some? ==>
                r == Ok(()) && follows == AfterUnfollow(old(follows), UserByName(users, username).value.id)
      ensures r.Ok? ==> forall u :: !IsFollowing(follows, u, UserByName(users, username).value.id)
    {
      if viewer.None? {
        return Err(LoginRequired);
      }
      var author := UserByName(users, username);
      if author.None? {
        return Err(UnknownUser);
      }
      UnfollowKeepsRowsUnique(follows, author.value.id);
      if HasAuthor(follows, author.value.id) {
        follows := AfterUnfollow(follows, author.value.id);
      } else {
        UnfollowWhenAbsentIsNoOp(follows, author.value.id);
      }
      r := Ok(());
    }

    // -------------------------------------------------------------------
    // post_create / post_edit / add_comment

    /** `post_create`: a valid form becomes a new post by the viewer, dated
        `now`, with the next key. */
    method PostCreate(viewer: Option<UserId>, form: Option<PostForm>, now: int) returns (r: Result<PostId>)
      requires Valid()
      requires viewer.Some? ==> viewer.value in UserIds(users)
      requires form.Some? && form.value.group.Some? ==> form.value.group.value in GroupIds(groups)
      modifies this`posts, this`nextPostId
      ensures Valid()
      ensures viewer.None? ==> r == Err(LoginRequired)
      ensures viewer.Some? && form.None? ==> r == Err(InvalidForm)
      ensures r.Err? ==> posts == old(posts) && nextPostId == old(nextPostId)
      ensures viewer.Some? && form.Some? ==>
                && r == Ok(old(nextPostId))
                && posts == old(posts) + [Post(r.value, form.value.text, now, viewer.value, form.value.group)]
                && nextPostId == old(nextPostId) + 1
      ensures r.Ok? ==> forall u :: (posts[|posts| - 1] in FollowFeed(Tables(), u) <==>
                                     IsFollowing(follows, u, viewer.value))
    {
      if viewer.None? {
        return Err(LoginRequired);
      }
      if form.None? {
        return Err(InvalidForm);
      }
      var post := Post(nextPostId, form.value.text, now, viewer.value, form.value.group);
      PostAppendKeepsValidity(Tables(), post, nextPostId, nextCommentId);
      posts := posts + [post];
      nextPostId := nextPostId + 1;
      r := Ok(post.id);
    }

    /** `post_edit`: only the post's author may change its text and group;
        key, author and date stay. */
    method PostEdit(viewer: Option<UserId>, id: PostId, form: Option<PostForm>) returns (r: Result<()>)
      requires Valid()
      requires form.Some? && form.value.group.Some? ==> form.value.group.value in GroupIds(groups)
      modifies this`posts
      ensures Valid()
      ensures viewer.None? ==> r == Err(LoginRequired)
      ensures viewer.Some? && PostIndex(old(posts), id).None? ==> r == Err(NotFound)
      ensures (viewer.Some? && PostIndex(old(posts), id).Some? &&
               old(posts)[PostIndex(old(posts), id).value].author != viewer.value) ==> r == Err(NotAuthor)
      ensures (viewer.Some? && PostIndex(old(posts), id).Some? &&
               old(posts)[PostIndex(old(posts), id).value].author == viewer.value &&
               form.None?) ==> r == Err(InvalidForm)
      ensures r.Err? ==> posts == old(posts)
      ensures r.Ok? ==>
                && form.Some?
                && PostIndex(old(posts), id).Some?
                && var k := PostIndex(old(posts), id).value;
                && old(posts)[k].author == viewer.value
                && posts == old(posts)[k := old(posts)[k].(text := form.value.text, group := form.value.group)]
      ensures (viewer.Some? && form.Some? && PostIndex(old(posts), id).Some? &&
               old(posts)[PostIndex(old(posts), id).value].author == viewer.value) ==> r.Ok?
    {
      if viewer.None? {
        return Err(LoginRequired);
      }
      var k := PostIndex(posts, id);
      if k.None? {
        return Err(NotFound);
      }
      var post := posts[k.value];
      if viewer.value != post.author {
        return Err(NotAuthor);
      }
      if form.None? {
        return Err(InvalidForm);
      }
      PostUpdateKeepsValidity(Tables(), k.value, form.value.text, form.value.group, nextPostId, nextCommentId);
      posts := posts[k.value := post.(text := form.value.text, group := form.value.group)];
      r := Ok(());
    }

    /** `add_comment`: a valid form becomes a new comment by the viewer on
        the post, dated `now`, with the next key. */
    method AddComment(viewer: Option<UserId>, id: PostId, text: Option<string>, now: int)
      returns (r: Result<CommentId>)
      requires Valid()
      requires viewer.Some? ==> viewer.value in UserIds(users)
      modifies this`comments, this`nextCommentId
      ensures Valid()
      ensures viewer.None? ==> r == Err(LoginRequired)
      ensures viewer.Some? && id !in PostIds(posts) ==> r == Err(NotFound)
      ensures viewer.Some? && id in PostIds(posts) && text.None? ==> r == Err(InvalidForm)
      ensures r.Err? ==> comments == old(comments) && nextCommentId == old(nextCommentId)
      ensures viewer.Some? && id in PostIds(posts) && text.Some? ==>
                && r == Ok(old(nextCommentId))
                && comments == old(comments) + [Comment(r.value, id, viewer.value, text.value, now)]
                && nextCommentId == old(nextCommentId) + 1
    {
      if viewer.None? {
        return Err(LoginRequired);
      }
      if PostIndex(posts, id).None? {
        return Err(NotFound);
      }
      assert id in PostIds(posts) by {
        assert posts[PostIndex(posts, id).value] in posts;
      }
      if text.None? {
        return Err(InvalidForm);
      }
      var comment := Comment(nextCommentId, id, viewer.value, text.value, now);
      CommentAppendKeepsValidity(Tables(), comment, nextPostId, nextCommentId);
      comments := comments + [comment];
      nextCommentId := nextCommentId + 1;
      r := Ok(comment.id);
    }

    // -------------------------------------------------------------------
    // Deletions and the on_delete rules

    /** Deleting a group: its posts stay, in no group. */
    method DeleteGroup(id: GroupId)
      requires Valid()
      modifies this`groups, this`posts
      ensures Valid()
      ensures Tables() == AfterGroupDeleted(old(Tables()), id)
    {
      GroupDeletionKeepsValidity(Tables(), id, nextPostId, nextCommentId);
      var after := AfterGroupDeleted(Tables(), id);
      groups, posts := after.groups, after.posts;
    }

    /** Deleting a post and with it its comments. */
    method DeletePost(id: PostId)
      requires Valid()
      modifies this`posts, this`comments
      ensures Valid()
      ensures Tables() == AfterPostDeleted(old(Tables()), id)
      ensures PostDetail(Tables(), id).Err?
    {
      PostDeletionKeepsConsistency(Tables(), id);
      var after := AfterPostDeleted(Tables(), id);
      posts, comments := after.posts, after.comments;
    }

    /** Deleting a user and with them their posts, the comments by them or
        on their posts, and every follow row they are on. */
    method DeleteUser(id: UserId)
      requires Valid()
      modifies this`users, this`posts, this`comments, this`follows
      ensures Valid()
      ensures Tables() == AfterUserDeleted(old(Tables()), id)
    {
      UserDeletionKeepsValidity(Tables(), id, nextPostId, nextCommentId);
      var after := AfterUserDeleted(Tables(), id);
      users, posts, comments, follows := after.users, after.posts, after.comments, after.follows;
    }
  }
}
