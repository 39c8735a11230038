# yatube posts: follows, feeds and the tables behind them

This project models the `posts` app of yatube, a small Django blogging site.
Users publish posts, which may belong to a group. Other users comment on
them and follow authors to get a personal feed.

The model keeps the app's state as five tables, each a sequence in insertion
order: users, groups, posts, comments and follow rows. On those tables it
models:

- the read views, as pure functions. `index`, `group_posts`, `profile`
  (with its `following` flag) and `follow_index` each filter the post table,
  order it newest first and cut it into pages of `POST_NUM_ON_PAGE`; each
  view's contract names the page it returns. `post_detail` looks up one
  post and lists its comments, newest first, without pages.
- the write views, as methods of the class `Blog.Site`, which holds the
  tables as fields: `profile_follow`, `profile_unfollow`, `post_create`,
  `post_edit` and `add_comment`. Each method's contract states the exact new
  tables and that the schema's constraints still hold.
- the records of `models.py`: their `__str__` methods, the unique
  constraint on follow rows, the default ordering, and the `on_delete`
  rules, given as functions on the tables plus `Site` methods.

Modules:

| file | module | contents |
|---|---|---|
| `Seqs.dfy` | `Seqs` | a generic filter (`Where`), a stable sort on a key (`SortDesc`), and uniqueness predicates |
| `Models.dfy` | `Models` | the records, the tables (`Db`), the `__str__` helpers, the schema constraints (`Consistent`), the lookups behind `get_object_or_404`, and the ordering |
| `Pagination.dfy` | `Pagination` | `paginate_posts` as a slice, with a chunking reference definition |
| `Follows.dfy` | `Follows` | the follow table under `profile_follow` and `profile_unfollow` as written, the `follow_index` join, and the per-pair relation the constraints describe |
| `Feeds.dfy` | `Feeds` | the read views and their properties |
| `Blog.dfy` | `Blog` | the deletion rules on the tables, and the class `Site` (the site's tables) with the write views |

The viewer of a request is an `Option<UserId>`: `None` is an anonymous
visitor, and `login_required` turns that into `Err(LoginRequired)`. A
form that fails validation is `None`. Timestamps are parameters.
`POST_NUM_ON_PAGE` is a positive constant whose value is left open, so
every page fact holds for any page size.

Where what the code does and what its tests, constraint names and schema
intend differ, this model follows the code:

- **Self-follows.** The test at `tests/test_views.py:239-248` expects no
  self-follow row, and the check constraint is named "подписка на самого
  себя" (following oneself). `profile_follow` has no self-follow test of
  its own, and the check does not catch one either. Which check the
  database enforces depends on migrations that are not all part of this
  model. Migration 0009 installs `Q(user=F('user'))`, which accepts every
  row. `models.py:116` declares `~Q(user=F('user'))`, which rejects every
  row, so under that reading every follow insert would fail. Migration
  0007 removes `Post.image` while `models.py:50-54` still declares it, so
  later migrations exist that are not shown. The model follows migration
  0009 (`Follows.InstalledSelfFollowCheck`);
  `Follows.SelfFollowChecksIgnoreTheAuthor` proves that neither check
  looks at the author, so neither rejects a self-follow as intended (see
  Findings).
- **Follow and unfollow per pair.** The unique constraint on (user,
  author) and the tests at `tests/test_views.py:220-237` describe one
  follower following one author. The code checks for, and deletes, every
  row of the author, from every follower (see Findings).
- **Ties in the ordering.** The code orders by `-pub_date` only, so ties
  keep whatever order the database returns; the model keeps table order.
- **Page numbers.** The code hands them to Django's `Paginator.get_page`,
  which is not part of this model. Here a page past the end is empty.

## Model

| member | source | states |
|---|---|---|
| `Models.Preview` | yatube/posts/models.py:61-62 | `text[:15]`: a prefix of the text, of length min(15, its length) |
| `Models.PostStr` | yatube/posts/models.py:61-62 | `Post.__str__` is a prefix of the post's text, of length min(15, its length) |
| `Models.CommentStr` | yatube/posts/models.py:93-94 | `Comment.__str__` is a prefix of the comment's text, of length min(15, its length) |
| `Models.PreviewSplitsText` | yatube/posts/models.py:61-62 | a text of at most 15 characters is its own string; a longer one is its string followed by the rest |
| `Models.GroupStr` | yatube/posts/models.py:21-22 | `Group.__str__` is the title |
| `Models.FollowStr` | yatube/posts/models.py:8 | `FOLLOW_STR` with both usernames put in: the follower's name, then " подписан на ", then the author's name |
| `Models.FollowStrDeterminesAuthor` | yatube/posts/models.py:121-125 | two rows of one follower print alike only if their authors have the same username |
| `Models.UniqueFollows` | yatube/posts/models.py:111-114 | the unique constraint: no two follow rows have the same (user, author) |
| `Models.Consistent` | yatube/posts/models.py:11-105 | unique keys of every table, unique slugs (line 14), unique usernames, unique follow rows, and every foreign key of posts, comments and follow rows refers to a stored row |
| `Models.UserByName` | yatube/posts/views.py:42 | finds a user with that username; `None` exactly when no user has it |
| `Models.GroupBySlug` | yatube/posts/views.py:27 | finds a group with that slug; `None` exactly when no group has it |
| `Models.PostIndex` | yatube/posts/views.py:52 | finds the position of the post with that key; `None` exactly when no post has it |
| `Models.SlugResolvesToTheGroup` | yatube/posts/models.py:14 | slugs are unique, so the slug of a group resolves to that group and no other |
| `Models.UsernameResolvesToTheUser` | yatube/posts/views.py:42 | usernames are unique, so a user's username resolves to that user |
| `Models.PostsNewestFirst` | yatube/posts/models.py:57 | posts ordered by descending `pub_date`, a permutation of the input |
| `Models.CommentsNewestFirst` | yatube/posts/models.py:89 | comments ordered by descending `pub_date`, a permutation of the input |
| `Seqs.Where` | yatube/posts/views.py:30 | a filter keeps exactly the elements that pass, without adding any |
| `Seqs.SortDesc` | yatube/posts/models.py:57 | the ordered sequence is sorted by the key, largest first, and is a permutation of the input |
| `Seqs.WhereCounts` | yatube/posts/views.py:30 | a filter keeps every copy of an accepted element and no copy of a rejected one |
| `Seqs.WhereKeyDistinct` | yatube/posts/models.py:111-114 | filtering a table keeps a unique key unique |
| `Pagination.Paginate` | yatube/posts/views.py:11-13 | a page holds at most the page size, has the exact length, and is the contiguous slice after the earlier pages |
| `Pagination.PaginatePosts` | yatube/posts/views.py:11-13 | the same, with page size `POST_NUM_ON_PAGE` |
| `Pagination.ChunksCoverFeed` | yatube/posts/views.py:11-13 | the pages, read in order, give back the whole feed |
| `Pagination.PageIsChunk` | yatube/posts/views.py:11-13 | page n is the n-th chunk of the feed; every page past the last is empty |
| `Pagination.OneMoreThanAPage` | yatube/posts/tests/test_views.py:99-125 | with one item more than a page, page 1 is full, page 2 has the last item and page 3 is empty |
| `Follows.HasAuthor` | yatube/posts/views.py:137-138 | the test `Follow.objects.filter(author=user.id)` both views make: some row, from any follower, has that author |
| `Follows.AfterFollow` | yatube/posts/views.py:136-141 | after a follow, the author has a row; every old row is kept; the only possible new row is (viewer, author) |
| `Follows.FollowInsertsOnlyForUnfollowedAuthor` | yatube/posts/views.py:137-139 | the table is unchanged if and only if some row already has that author; otherwise it gains exactly (viewer, author) at the end |
| `Follows.FollowTwiceIsFollowOnce` | yatube/posts/tests/test_views.py:220-229 | a second follow of the same author, by anyone, changes nothing |
| `Follows.FollowKeepsRowsUnique` | yatube/posts/models.py:111-114 | a follow never breaks the unique constraint on (user, author) |
| `Follows.AfterUnfollow` | yatube/posts/views.py:146-152 | after an unfollow, no row has that author, and a row remains exactly when it was there and has another author |
| `Follows.UnfollowKeepsRowsUnique` | yatube/posts/models.py:111-114 | an unfollow never breaks the unique constraint |
| `Follows.UnfollowWhenAbsentIsNoOp` | yatube/posts/views.py:148-152 | unfollowing an author with no rows leaves the table unchanged |
| `Follows.UnfollowKeepsOtherAuthors` | yatube/posts/tests/test_views.py:231-237 | every other author's rows stay, in the same order |
| `Follows.UnfollowTwiceIsUnfollowOnce` | yatube/posts/views.py:148-150 | an unfollow is idempotent |
| `Follows.FollowJoin` | yatube/posts/views.py:123-125 | the join of posts with the viewer's rows gives exactly the posts whose author the viewer follows |
| `Follows.JoinIsFilterUnderUniqueness` | yatube/posts/models.py:111-114 | under the unique constraint the join lists each followed author's post once, in table order |
| `Follows.DuplicateRowsDuplicatePosts` | yatube/posts/views.py:123-125 | without the unique constraint, two identical rows would show a post twice |
| `Follows.InstalledSelfFollowCheck` | yatube/posts/migrations/0009_auto_20220808_1653.py:20 | the installed check `Q(user=F('user'))`: a row passes when its follower equals itself, that is, always |
| `Follows.DeclaredSelfFollowCheck` | yatube/posts/models.py:115-118 | the declared check `~Q(user=F('user'))`: a row passes when its follower differs from itself, that is, never |
| `Follows.NoSelfFollow` | yatube/posts/models.py:117 | what the constraint's name describes: the follower is not the author |
| `Follows.SelfFollowChecksIgnoreTheAuthor` | yatube/posts/models.py:115-118 | the installed check accepts every row and the declared check rejects every row; neither depends on the author |
| `Follows.SelfFollowIsInserted` | yatube/posts/migrations/0009_auto_20220808_1653.py:18-21 | as written, a self-follow is inserted and the installed check accepts it |
| `Follows.AnotherFollowerBlocksFollow` | yatube/posts/views.py:137-139 | as written, once user 2 follows author 1, user 3 cannot follow author 1 |
| `Follows.UnfollowDropsOtherFollowers` | yatube/posts/views.py:148-150 | as written, user 3 unfollowing author 1 also removes user 2's row |
| `Follows.PairFollow` | yatube/posts/models.py:110-119 | the per-pair follow: (viewer, author) is present afterwards exactly when it is not a self-follow or was already there, and no other row changes |
| `Follows.PairUnfollow` | yatube/posts/models.py:110-114 | the per-pair unfollow removes the one row (viewer, author) and nothing else |
| `Follows.PairFollowKeepsConstraints` | yatube/posts/models.py:110-119 | the per-pair follow keeps rows unique and free of self-follows |
| `Follows.PairFollowTwiceIsPairFollowOnce` | yatube/posts/models.py:111-114 | the per-pair follow is idempotent |
| `Follows.AgreeWithoutOtherFollowers` | yatube/posts/views.py:136-152 | while the viewer is the author's only follower and is not the author, the code's follow and unfollow match the per-pair ones |
| `Feeds.AllPosts` | yatube/posts/views.py:21 | `Post.objects.all()`: every post, newest first |
| `Feeds.GroupFeed` | yatube/posts/views.py:30 | exactly the posts of the group, newest first |
| `Feeds.AuthorFeed` | yatube/posts/views.py:44 | exactly the posts of the author, newest first |
| `Feeds.FollowFeed` | yatube/posts/views.py:123-125 | exactly the posts of the authors the viewer follows, newest first; under the unique constraint each appears once |
| `Feeds.Index` | yatube/posts/views.py:16-22 | page `page` of all posts ordered newest first: at most `POST_NUM_ON_PAGE` posts, all from the table, in order |
| `Feeds.GroupPosts` | yatube/posts/views.py:25-31 | not found if and only if no group has the slug; otherwise that group and page `page` of its feed: posts of that group only, newest first |
| `Feeds.Profile` | yatube/posts/views.py:34-47 | not found if and only if no user has the username; otherwise that user, page `page` of their feed (their posts only, newest first), and the `following` flag, which is false for an anonymous viewer |
| `Feeds.FollowIndex` | yatube/posts/views.py:116-130 | login required if and only if the viewer is anonymous; otherwise page `page` of the follow feed: posts by authors the viewer follows only, newest first |
| `Feeds.PostDetail` | yatube/posts/views.py:50-60 | `NotFound` if and only if no post has the key; otherwise that post and its comments, newest first: every comment on the post, each as often as in the table (the same multiset) |
| `Feeds.FollowingFlag` | yatube/posts/views.py:36-41 | false for an anonymous viewer (the query fails and the `except` sets it); otherwise true exactly when some row has the viewer as follower and, as author, a user with that username |
| `Feeds.PageKeepsOrder` | yatube/posts/views.py:11-13 | a page of a feed ordered newest first is itself ordered newest first |
| `Feeds.FollowingFlagIsRowLookup` | yatube/posts/views.py:36-41 | the `following` flag is true if and only if the row (viewer, author) exists |
| `Feeds.PostNotOnAnotherGroupPage` | yatube/posts/tests/test_views.py:174-180 | a post of one group is on no page of another group |
| `Feeds.FollowFeedIsFollowedAuthorsPosts` | yatube/posts/tests/test_views.py:196-218 | a post is in a viewer's follow feed if and only if the viewer follows its author |
| `Feeds.PagesCoverEveryFeed` | yatube/posts/views.py:11-13 | the pages of any feed, read in order, are the feed, and page n is its n-th chunk |
| `Feeds.IndexOneMoreThanAPage` | yatube/posts/tests/test_views.py:99-125 | with `POST_NUM_ON_PAGE` + 1 posts, index page 1 is full and page 2 has one post |
| `Feeds.GroupOneMoreThanAPage` | yatube/posts/tests/test_views.py:99-125 | the same for the page of a group that holds every post |
| `Feeds.ProfileOneMoreThanAPage` | yatube/posts/tests/test_views.py:99-125 | the same for the profile of the author of every post |
| `Feeds.FollowOneMoreThanAPage` | yatube/posts/tests/test_views.py:99-125 | the same for the follow page of a follower of that author |
| `Feeds.OneMoreThanAPageInEveryFeed` | yatube/posts/tests/test_views.py:99-125 | with `POST_NUM_ON_PAGE` + 1 posts, page 1 of the index, group, profile and follow feeds has `POST_NUM_ON_PAGE` posts and page 2 has one |
| `Blog.Ungrouped` | yatube/posts/models.py:41-46 | SET_NULL: every post stays, with the same key and author, and none refers to the group |
| `Blog.DeletedGroupKeepsItsPosts` | yatube/posts/models.py:41-46 | a post of the deleted group is the same post with no group |
| `Blog.AfterGroupDeleted` | yatube/posts/models.py:41-46 | deleting a group removes it alone from the groups and clears it from the posts |
| `Blog.GroupDeletionKeepsConsistency` | yatube/posts/models.py:41-46 | deleting a group keeps the tables consistent |
| `Blog.AfterPostDeleted` | yatube/posts/models.py:67-72 | deleting a post removes it and exactly its comments |
| `Blog.PostDeletionKeepsConsistency` | yatube/posts/models.py:67-72 | deleting a post keeps the tables consistent |
| `Blog.AfterUserDeleted` | yatube/posts/models.py:35-40 | deleting a user removes them, exactly their posts, and every follow row they are on, as either follower or author |
| `Blog.UserDeletionKeepsConsistency` | yatube/posts/models.py:98-105 | after a user is deleted, nothing left refers to them or to their posts |
| `Blog.PostAppendKeepsValidity` | yatube/posts/views.py:69-71 | a new post by a stored user, in a stored group or none, with the next key keeps the tables consistent |
| `Blog.PostUpdateKeepsValidity` | yatube/posts/views.py:94 | changing a post's text and group to a stored group or none keeps the tables consistent |
| `Blog.CommentAppendKeepsValidity` | yatube/posts/views.py:109-112 | a new comment by a stored user on a stored post, with the next key, keeps the tables consistent |
| `Blog.GroupDeletionKeepsValidity` | yatube/posts/models.py:41-46 | deleting a group keeps the tables consistent and every post key below the next one |
| `Blog.UserDeletionKeepsValidity` | yatube/posts/models.py:35-40 | deleting a user keeps the tables consistent and every key below the next one |
| `Blog.Site.ProfileFollow` | yatube/posts/views.py:133-141 | login required for anonymous viewers; an unknown user is an error that changes nothing; otherwise the follows become `AfterFollow` of the old ones, and a newly followed author's posts are all in the viewer's follow feed |
| `Blog.Site.ProfileUnfollow` | yatube/posts/views.py:144-152 | login required for anonymous viewers; an unknown user is an error that changes nothing; otherwise the follows become `AfterUnfollow` of the old ones, and nobody follows that author any more |
| `Blog.Site.PostCreate` | yatube/posts/views.py:63-72 | login required for anonymous viewers; an invalid form is an error that changes nothing; otherwise exactly one post, by the viewer with the next key, is appended, and it is in a user's follow feed if and only if that user follows the viewer |
| `Blog.Site.PostEdit` | yatube/posts/views.py:75-95 | login required, then not found, then not the author, then an invalid form: every error leaves the posts unchanged; the author with a valid form changes only that post's text and group |
| `Blog.Site.AddComment` | yatube/posts/views.py:98-113 | login required, then not found, then an invalid form: every error leaves the comments unchanged; otherwise exactly one comment by the viewer on that post, with the next key, is appended |
| `Blog.Site.DeleteGroup` | yatube/posts/models.py:41-46 | the tables become `AfterGroupDeleted` of the old ones and stay consistent |
| `Blog.Site.DeletePost` | yatube/posts/models.py:67-72 | the tables become `AfterPostDeleted` of the old ones and stay consistent, and the post's detail page is not found |
| `Blog.Site.DeleteUser` | yatube/posts/models.py:35-40 | the tables become `AfterUserDeleted` of the old ones and stay consistent |

## Left out

- Rendering, templates, redirects and HTTP status codes. A view's outcome is an `Ok` value or an `Error`.
- `login_required`, sessions and the users app. The viewer is an optional user id, and a logged-in viewer is required to be a stored user.
- Form validation: `forms.py` is not part of this model. A form that fails validation is `None`. A valid form's group is required to exist, as the form's choice field ensures.
- Images (`Post.image` and uploads), which are file storage.
- The index-page cache, which is Django's cache backend; no caching code appears in the app.
- `pub_date` generation (`auto_now_add` reads the clock). The timestamp is a parameter of `PostCreate` and `AddComment`.
- The settings module is not part of this model. `POST_NUM_ON_PAGE` is a positive constant whose value is left open.
- Paginate: Django's `Paginator.get_page` clamping is not modelled. Page numbers start at 1, and a page past the end is empty rather than the last page.
- PaginatePosts: the same. A missing or non-numeric `page` parameter is not modelled, since its handling happens inside `Paginator`.
- Pagination metadata (page count, next and previous links) is not modelled; only the posts on a page are.
- Ties in `pub_date`: the code leaves their order to the database. `SortDesc` is stable, so ties keep table order.
- `Feeds.FollowIndex` does not model the bare `except:` in `follow_index`; no failure of the query can be seen in the code.
- `Blog.Site.ProfileFollow` and `Blog.Site.ProfileUnfollow` return `Err(UnknownUser)` for an unknown username; the code lets `User.DoesNotExist` escape as a server error.
- The other on_delete rules are modelled as deletions (`DeleteGroup`, `DeletePost`, `DeleteUser`), not as a general ORM.
- Migrations are not modelled beyond the self-follow check migration 0009 installs. The migrations after 0009 are not part of this model, so the model cannot tell whether the database enforces that check or the one `models.py:116` declares.
- URL routing and reversing.
- Concurrency: every operation is sequential.

## Findings

| source | as written | input that shows it | evidently intended | confidence | as-written member | corrected member |
|---|---|---|---|---|---|---|
| yatube/posts/migrations/0009_auto_20220808_1653.py:18-21 | the self-follow check compares `user` with itself, so the installed check accepts every row; `profile_follow` has no self-follow test of its own. The check declared at yatube/posts/models.py:116 is its negation and would reject every row instead; which one the database holds depends on migrations not all part of this model | user 1 follows user 1 with no rows for author 1: under migration 0009 the row (1, 1) is inserted (the test at yatube/posts/tests/test_views.py:239-248 expects none); under models.py:116 every follow insert fails | rows where the follower is the author are rejected, and only those | not executed | `Follows.SelfFollowIsInserted` | `Follows.PairFollowKeepsConstraints` |
| yatube/posts/views.py:137-139 | the follow is skipped when any user already follows the author | rows [(2, 1)]; user 3 follows author 1: the table is unchanged and user 3 does not follow author 1 | skip only when the pair (viewer, author) exists | not executed | `Follows.AnotherFollowerBlocksFollow` | `Follows.PairFollow` |
| yatube/posts/views.py:148-150 | the unfollow deletes every row of the author, from all followers | rows [(2, 1), (3, 1)]; user 3 unfollows author 1: both rows go | delete only the pair (viewer, author) | not executed | `Follows.UnfollowDropsOtherFollowers` | `Follows.PairUnfollow` |

`Blog.Site` keeps the behaviour as written, since it models the code. The
corrected per-pair definitions sit beside it in `Follows`.
`Follows.AgreeWithoutOtherFollowers` proves that the two agree while a
viewer is an author's only follower.
