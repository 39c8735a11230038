/**
 * The records of the `posts` app (users, groups, posts, comments and follow
 * rows), the database tables they live in, the constraints the schema
 * declares on them, their default ordering and their `__str__` helpers.
 */
module Models {
  import opened Seqs

  datatype Option<T> = None | Some(value: T)

  /** Why a view did not do its work: `login_required` sent an anonymous
      visitor to log in, `get_object_or_404` found nothing, `User.objects.get`
      found no such user, the viewer is not the post's author, or the form
      did not validate. */
  datatype Error = LoginRequired | NotFound | UnknownUser | NotAuthor | InvalidForm

  datatype Result<T> = Ok(value: T) | Err(error: Error)

  type UserId = nat
  type GroupId = nat
  type PostId = nat
  type CommentId = nat

  /** A user of the authentication layer: only its key and its username
      matter to the posts app. */
  datatype User = User(id: UserId, username: string)

  datatype Group = Group(id: GroupId, title: string, slug: string, description: string)

  /** A post; `group` is a nullable foreign key, `pubDate` is the timestamp
      the database assigned when the row was created. The image is not
      modelled. */
  datatype Post = Post(id: PostId, text: string, pubDate: int, author: UserId, group: Option<GroupId>)

  datatype Comment = Comment(id: CommentId, post: PostId, author: UserId, text: string, pubDate: int)

  /** A follow row: `user` follows `author`. */
  datatype Follow = Follow(user: UserId, author: UserId)

  /** The five tables, each in insertion order. */
  datatype Db = Db(
    users: seq<User>,
    groups: seq<Group>,
    posts: seq<Post>,
    comments: seq<Comment>,
    follows: seq<Follow>)

  // Keys of the records, as named functions so that every constraint over
  // a key refers to the same function value.
  function UserKey(u: User): UserId { u.id }
  function Username(u: User): string { u.username }
  function GroupKey(g: Group): GroupId { g.id }
  function GroupSlug(g: Group): string { g.slug }
  function PostKey(p: Post): PostId { p.id }
  function PostDate(p: Post): int { p.pubDate }
  function CommentKey(c: Comment): CommentId { c.id }
  function CommentDate(c: Comment): int { c.pubDate }

  function UserIds(users: seq<User>): set<UserId> { set u | u in users :: u.id }
  function GroupIds(groups: seq<Group>): set<GroupId> { set g | g in groups :: g.id }
  function PostIds(posts: seq<Post>): set<PostId> { set p | p in posts :: p.id }

  // ---------------------------------------------------------------------
  // __str__ helpers

  /** Number of characters `Post.__str__` and `Comment.__str__` keep. */
  const PreviewLength := 15

  /** Python's `text[:15]`: the first fifteen characters, or all of a
      shorter text. */
  function Preview(text: string): (r: string)
    ensures |r| == if |text| < PreviewLength then |text| else PreviewLength
    ensures r <= text
  {
    if |text| <= PreviewLength then text else text[..PreviewLength]
  }

  function PostStr(p: Post): (r: string)
    ensures r <= p.text
    ensures |r| == if |p.text| < PreviewLength then |p.text| else PreviewLength
  {
    Preview(p.text)
  }

  function CommentStr(c: Comment): (r: string)
    ensures r <= c.text
    ensures |r| == if |c.text| < PreviewLength then |c.text| else PreviewLength
  {
    Preview(c.text)
  }

  /** A text of at most fifteen characters is its own preview, and a longer
      one is its preview followed by the rest. */
  lemma PreviewSplitsText(text: string)
    ensures |text| <= PreviewLength ==> Preview(text) == text
    ensures text == Preview(text) + text[|Preview(text)|..]
  {
  }

  function GroupStr(g: Group): (r: string)
    ensures r == g.title
  {
    g.title
  }

  /** The literal text of FOLLOW_STR between its two placeholders. */
  const FollowInfix := " подписан на "

  /** `FOLLOW_STR.format(user=..., author=...)` with
      FOLLOW_STR = '{user} подписан на {author}'. */
  function FollowStr(user: User, author: User): (r: string)
    ensures |r| == |user.username| + |FollowInfix| + |author.username|
    ensures r[..|user.username|] == user.username
    ensures r[|user.username|..|user.username| + |FollowInfix|] == FollowInfix
    ensures r[|r| - |author.username|..] == author.username
  {
    user.username + FollowInfix + author.username
  }

  /** The string of a follow row names its author: two rows of the same
      follower print alike only if their authors have the same username. */
  lemma FollowStrDeterminesAuthor(user: User, a1: User, a2: User)
    requires FollowStr(user, a1) == FollowStr(user, a2)
    ensures a1.username == a2.username
  {
    var r := FollowStr(user, a1);
    assert |a1.username| == |a2.username|;
    assert a1.username == r[|r| - |a1.username|..] == a2.username;
  }

  // ---------------------------------------------------------------------
  // Schema constraints

  /** The unique constraint on (user, author) of the follow table. */
  ghost predicate UniqueFollows(follows: seq<Follow>)
  {
    Distinct(follows)
  }

  /** Every constraint the schema declares, plus referential integrity of
      the foreign keys. */
  ghost predicate Consistent(db: Db)
  {
    && KeyDistinct(db.users, UserKey)
    && KeyDistinct(db.users, Username)
    && KeyDistinct(db.groups, GroupKey)
    && KeyDistinct(db.groups, GroupSlug)
    && KeyDistinct(db.posts, PostKey)
    && KeyDistinct(db.comments, CommentKey)
    && UniqueFollows(db.follows)
    && (forall p :: p in db.posts ==>
          p.author in UserIds(db.users) && (p.group.Some? ==> p.group.value in GroupIds(db.groups)))
    && (forall c :: c in db.comments ==>
          c.post in PostIds(db.posts) && c.author in UserIds(db.users))
    && (forall f :: f in db.follows ==>
          f.user in UserIds(db.users) && f.author in UserIds(db.users))
  }

  // ---------------------------------------------------------------------
  // Lookups (`get_object_or_404`, `objects.get`)

  function UserByName(users: seq<User>, name: string): (r: Option<User>)
    ensures r.Some? ==> r.value in users && r.value.username == name
    ensures r.None? ==> forall u :: u in users ==> u.username != name
  {
    if users == [] then None
    else if users[0].username == name then Some(users[0])
    else UserByName(users[1..], name)
  }

  function GroupBySlug(groups: seq<Group>, slug: string): (r: Option<Group>)
    ensures r.Some? ==> r.value in groups && r.value.slug == slug
    ensures r.None? ==> forall g :: g in groups ==> g.slug != slug
  {
    if groups == [] then None
    else if groups[0].slug == slug then Some(groups[0])
    else GroupBySlug(groups[1..], slug)
  }

  /** Position of the post with key `id`. */
  function PostIndex(posts: seq<Post>, id: PostId): (r: Option<nat>)
    ensures r.Some? ==> r.value < |posts| && posts[r.value].id == id
    ensures r.None? ==> forall p :: p in posts ==> p.id != id
  {
    if posts == [] then None
    else if posts[0].id == id then Some(0)
    else match PostIndex(posts[1..], id)
      case None => None
      case Some(k) => Some(k + 1)
  }

  /** Slugs are unique, so a slug names at most one group and the lookup
      finds exactly that one. */
  lemma {:induction false} SlugResolvesToTheGroup(groups: seq<Group>, g: Group)
    requires KeyDistinct(groups, GroupSlug)
    requires g in groups
    ensures GroupBySlug(groups, g.slug) == Some(g)
  {
    if groups[0] != g {
      assert groups == [groups[0]] + groups[1..];
      var k :| 0 <= k < |groups| && groups[k] == g;
      assert GroupSlug(groups[0]) != GroupSlug(groups[k]);
      assert KeyDistinct(groups[1..], GroupSlug) by {
        forall i, j | 0 <= i < j < |groups[1..]|
          ensures GroupSlug(groups[1..][i]) != GroupSlug(groups[1..][j])
        {
          assert groups[1..][i] == groups[i + 1] && groups[1..][j] == groups[j + 1];
        }
      }
      SlugResolvesToTheGroup(groups[1..], g);
    }
  }

  /** Usernames are unique, so the lookup by username finds exactly the
      user that carries it. */
  lemma {:induction false} UsernameResolvesToTheUser(users: seq<User>, u: User)
    requires KeyDistinct(users, Username)
    requires u in users
    ensures UserByName(users, u.username) == Some(u)
  {
    if users[0] != u {
      assert users == [users[0]] + users[1..];
      var k :| 0 <= k < |users| && users[k] == u;
      assert Username(users[0]) != Username(users[k]);
      assert KeyDistinct(users[1..], Username) by {
        forall i, j | 0 <= i < j < |users[1..]|
          ensures Username(users[1..][i]) != Username(users[1..][j])
        {
          assert users[1..][i] == users[i + 1] && users[1..][j] == users[j + 1];
        }
      }
      UsernameResolvesToTheUser(users[1..], u);
    }
  }

  // ---------------------------------------------------------------------
  // Default ordering: Meta.ordering = ('-pub_date',) on posts and comments

  function PostsNewestFirst(posts: seq<Post>): (r: seq<Post>)
    ensures SortedDesc(r, PostDate)
    ensures multiset(r) == multiset(posts)
  {
    SortDesc(posts, PostDate)
  }

  function CommentsNewestFirst(comments: seq<Comment>): (r: seq<Comment>)
    ensures SortedDesc(r, CommentDate)
    ensures multiset(r) == multiset(comments)
  {
    SortDesc(comments, CommentDate)
  }
}
