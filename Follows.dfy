/**
 * The follow table as the views change and query it: what `profile_follow`
 * and `profile_unfollow` do to it, the join behind `follow_index`, and, for
 * comparison, the per-pair follow relation the schema's constraints describe.
 */
module Follows {
  import opened Seqs
  import opened Models

  /** Some row, from any follower, has `author` as its author: the test
      `Follow.objects.filter(author=user.id)` the two views make. */
  predicate HasAuthor(follows: seq<Follow>, author: UserId)
  {
    exists f :: f in follows && f.author == author
  }

  /** `viewer` follows `author`. */
  predicate IsFollowing(follows: seq<Follow>, viewer: UserId, author: UserId)
  {
    Follow(viewer, author) in follows
  }

  // ---------------------------------------------------------------------
  // profile_follow / profile_unfollow, as written

  /** The follow table after `viewer` asks to follow `author`: the row
      (viewer, author) is inserted only when no row for `author` exists. */
  function AfterFollow(follows: seq<Follow>, viewer: UserId, author: UserId): (r: seq<Follow>)
    ensures HasAuthor(r, author)
    ensures forall f :: f in follows ==> f in r
    ensures forall f :: f in r ==> f in follows || f == Follow(viewer, author)
  {
    if HasAuthor(follows, author) then follows else follows + [Follow(viewer, author)]
  }

  /** The follow table after someone asks to unfollow `author`: every row
      whose author is `author` goes, whoever the follower is. */
  function AfterUnfollow(follows: seq<Follow>, author: UserId): (r: seq<Follow>)
    ensures !HasAuthor(r, author)
    ensures forall f :: f in r <==> f in follows && f.author != author
  {
    Where(follows, (f: Follow) => f.author != author)
  }

  /** The rows of one author, in table order. */
  function RowsOf(follows: seq<Follow>, author: UserId): (r: seq<Follow>)
    ensures forall f :: f in r <==> f in follows && f.author == author
  {
    Where(follows, (f: Follow) => f.author == author)
  }

  /** profile_follow inserts exactly when no row for the author exists, and
      then adds the one row (viewer, author) at the end. */
  lemma FollowInsertsOnlyForUnfollowedAuthor(follows: seq<Follow>, viewer: UserId, author: UserId)
    ensures HasAuthor(follows, author) <==> AfterFollow(follows, viewer, author) == follows
    ensures !HasAuthor(follows, author) ==>
              AfterFollow(follows, viewer, author) == follows + [Follow(viewer, author)]
  {
    if !HasAuthor(follows, author) {
      assert |AfterFollow(follows, viewer, author)| == |follows| + 1;
    }
  }

  /** A second request to follow the same author, by anyone, changes
      nothing. */
  lemma FollowTwiceIsFollowOnce(follows: seq<Follow>, viewer: UserId, other: UserId, author: UserId)
    ensures AfterFollow(AfterFollow(follows, viewer, author), other, author)
         == AfterFollow(follows, viewer, author)
  {
  }

  /** Appending a row that was absent keeps a duplicate-free table
      duplicate-free. */
  lemma AppendAbsentRow(follows: seq<Follow>, f: Follow)
    requires UniqueFollows(follows)
    requires f !in follows
    ensures UniqueFollows(follows + [f])
  {
    var r := follows + [f];
    forall i, j | 0 <= i < j < |r| ensures r[i] != r[j] {
      if j == |follows| {
        assert r[i] == follows[i];
      } else {
        assert r[i] == follows[i] && r[j] == follows[j];
      }
    }
  }

  /** The guard on the author alone is enough for the unique constraint:
      profile_follow never attempts a duplicate insert. */
  lemma FollowKeepsRowsUnique(follows: seq<Follow>, viewer: UserId, author: UserId)
    requires UniqueFollows(follows)
    ensures UniqueFollows(AfterFollow(follows, viewer, author))
  {
    if !HasAuthor(follows, author) {
      AppendAbsentRow(follows, Follow(viewer, author));
    }
  }

  lemma UnfollowKeepsRowsUnique(follows: seq<Follow>, author: UserId)
    requires UniqueFollows(follows)
    ensures UniqueFollows(AfterUnfollow(follows, author))
  {
    WhereDistinct(follows, (f: Follow) => f.author != author);
  }

  /** Unfollowing an author nobody follows leaves the table unchanged. */
  lemma UnfollowWhenAbsentIsNoOp(follows: seq<Follow>, author: UserId)
    requires !HasAuthor(follows, author)
    ensures AfterUnfollow(follows, author) == follows
  {
    WhereAll(follows, (f: Follow) => f.author != author);
  }

  /** Unfollowing one author keeps the rows of every other author, in their
      order. */
  lemma UnfollowKeepsOtherAuthors(follows: seq<Follow>, author: UserId, other: UserId)
    requires other != author
    ensures RowsOf(AfterUnfollow(follows, author), other) == RowsOf(follows, other)
  {
    var notA := (f: Follow) => f.author != author;
    var isB := (f: Follow) => f.author == other;
    WhereWhere(follows, notA, isB, isB);
  }

  /** profile_unfollow is idempotent. */
  lemma UnfollowTwiceIsUnfollowOnce(follows: seq<Follow>, author: UserId)
    ensures AfterUnfollow(AfterUnfollow(follows, author), author) == AfterUnfollow(follows, author)
  {
    UnfollowWhenAbsentIsNoOp(AfterUnfollow(follows, author), author);
  }

  // ---------------------------------------------------------------------
  // follow_index: Post.objects.filter(author__following__user=viewer)

  /** `n` copies of `x`. */
  function Repeat<T>(x: T, n: nat): (r: seq<T>)
    ensures |r| == n
    ensures forall y :: y in r ==> y == x
  {
    if n == 0 then [] else [x] + Repeat(x, n - 1)
  }

  /** The inner join of posts with the follow rows whose author is the
      post's author and whose follower is `viewer`: a post comes out once
      per matching row. */
  function FollowJoin(posts: seq<Post>, follows: seq<Follow>, viewer: UserId): (r: seq<Post>)
    ensures forall p :: p in r <==> p in posts && IsFollowing(follows, viewer, p.author)
  {
    if posts == [] then []
    else
      assert posts == [posts[0]] + posts[1..];
      Repeat(posts[0], multiset(follows)[Follow(viewer, posts[0].author)])
        + FollowJoin(posts[1..], follows, viewer)
  }

  /** The posts whose author `viewer` follows. */
  function ByFollowedAuthors(follows: seq<Follow>, viewer: UserId): Post -> bool
  {
    (p: Post) => IsFollowing(follows, viewer, p.author)
  }

  /** In a duplicate-free table every row is counted at most once. */
  lemma {:induction false} DistinctCountsOnce<T>(s: seq<T>, x: T)
    requires Distinct(s)
    ensures multiset(s)[x] <= 1
  {
    if s != [] {
      assert s == [s[0]] + s[1..];
      assert Distinct(s[1..]) by {
        forall i, j | 0 <= i < j < |s[1..]| ensures s[1..][i] != s[1..][j] {
          assert s[1..][i] == s[i + 1] && s[1..][j] == s[j + 1];
        }
      }
      DistinctCountsOnce(s[1..], x);
      if s[0] == x {
        forall k | 0 <= k < |s[1..]| ensures s[1..][k] != x {
          assert s[1..][k] == s[k + 1];
        }
        assert x !in s[1..];
      }
    }
  }

  /** Because of the unique constraint the join does not repeat a post:
      the followed-authors feed is the followed authors' posts, each once,
      in table order. */
  lemma {:induction false} JoinIsFilterUnderUniqueness(posts: seq<Post>, follows: seq<Follow>, viewer: UserId)
    requires UniqueFollows(follows)
    ensures FollowJoin(posts, follows, viewer) == Where(posts, ByFollowedAuthors(follows, viewer))
  {
    if posts != [] {
      JoinIsFilterUnderUniqueness(posts[1..], follows, viewer);
      var keep := ByFollowedAuthors(follows, viewer);
      var f := Follow(viewer, posts[0].author);
      DistinctCountsOnce(follows, f);
      var n := multiset(follows)[f];
      var rest := FollowJoin(posts[1..], follows, viewer);
      assert FollowJoin(posts, follows, viewer) == Repeat(posts[0], n) + rest;
      if keep(posts[0]) {
        assert n == 1;
        assert Repeat(posts[0], n) == [posts[0]];
        assert Where(posts, keep) == [posts[0]] + Where(posts[1..], keep);
      } else {
        assert n == 0;
        assert Where(posts, keep) == Where(posts[1..], keep);
      }
    }
  }

  /** Without the unique constraint two identical rows would show the same
      post twice in the feed. */
  lemma DuplicateRowsDuplicatePosts(p: Post, viewer: UserId)
    ensures FollowJoin([p], [Follow(viewer, p.author), Follow(viewer, p.author)], viewer) == [p, p]
  {
    var fs := [Follow(viewer, p.author), Follow(viewer, p.author)];
    assert multiset(fs)[Follow(viewer, p.author)] == 2;
    assert [p][1..] == [];
  }

  // ---------------------------------------------------------------------
  // The self-follow constraint and the per-pair relation

  /** The check constraint the migrations install: `Q(user=F('user'))`. */
  predicate InstalledSelfFollowCheck(f: Follow)
  {
    f.user == f.user
  }

  /** The check constraint `models.py` declares: `~Q(user=F('user'))`. */
  predicate DeclaredSelfFollowCheck(f: Follow)
  {
    !(f.user == f.user)
  }

  /** Neither reading of the self-follow check tells self-follows apart:
      the installed one accepts every row, the declared one rejects every
      row. */
  lemma SelfFollowChecksIgnoreTheAuthor(f: Follow)
    ensures InstalledSelfFollowCheck(f)
    ensures !DeclaredSelfFollowCheck(f)
  {
  }

  /** The check constraint its name describes: nobody follows themselves. */
  predicate NoSelfFollow(f: Follow)
  {
    f.user != f.author
  }

  /** As written, a user who asks to follow themselves gets a self-follow
      row, and the installed check accepts it. */
  lemma SelfFollowIsInserted(follows: seq<Follow>, user: UserId)
    requires !HasAuthor(follows, user)
    ensures Follow(user, user) in AfterFollow(follows, user, user)
    ensures InstalledSelfFollowCheck(Follow(user, user)) && !NoSelfFollow(Follow(user, user))
  {
    FollowInsertsOnlyForUnfollowedAuthor(follows, user, user);
  }

  /** The follow table after `viewer` asks to follow `author`, per pair:
      insert (viewer, author) unless it is a self-follow or already there. */
  function PairFollow(follows: seq<Follow>, viewer: UserId, author: UserId): (r: seq<Follow>)
    ensures IsFollowing(r, viewer, author) <==> viewer != author || IsFollowing(follows, viewer, author)
    ensures forall f :: f in r <==> f in follows || (f == Follow(viewer, author) && viewer != author)
  {
    if viewer == author || IsFollowing(follows, viewer, author) then follows
    else follows + [Follow(viewer, author)]
  }

  /** The follow table after `viewer` asks to unfollow `author`, per pair. */
  function PairUnfollow(follows: seq<Follow>, viewer: UserId, author: UserId): (r: seq<Follow>)
    ensures forall f :: f in r <==> f in follows && f != Follow(viewer, author)
  {
    Where(follows, (f: Follow) => f != Follow(viewer, author))
  }

  /** The per-pair follow keeps both constraints: rows stay unique and no row
      is a self-follow. */
  lemma PairFollowKeepsConstraints(follows: seq<Follow>, viewer: UserId, author: UserId)
    requires UniqueFollows(follows)
    requires forall f :: f in follows ==> NoSelfFollow(f)
    ensures UniqueFollows(PairFollow(follows, viewer, author))
    ensures forall f :: f in PairFollow(follows, viewer, author) ==> NoSelfFollow(f)
  {
    if viewer != author && !IsFollowing(follows, viewer, author) {
      AppendAbsentRow(follows, Follow(viewer, author));
    }
  }

  /** The per-pair follow is idempotent. */
  lemma PairFollowTwiceIsPairFollowOnce(follows: seq<Follow>, viewer: UserId, author: UserId)
    ensures PairFollow(PairFollow(follows, viewer, author), viewer, author)
         == PairFollow(follows, viewer, author)
  {
  }

  /** Where only `viewer` can follow `author` (no other follower of theirs
      is on record) and it is not a self-follow, the code as written and
      the per-pair relation coincide. */
  lemma AgreeWithoutOtherFollowers(follows: seq<Follow>, viewer: UserId, author: UserId)
    requires viewer != author
    requires forall f :: f in follows && f.author == author ==> f.user == viewer
    ensures AfterFollow(follows, viewer, author) == PairFollow(follows, viewer, author)
    ensures AfterUnfollow(follows, author) == PairUnfollow(follows, viewer, author)
  {
    WhereAgree(follows, (f: Follow) => f.author != author, (f: Follow) => f != Follow(viewer, author));
  }

  /** As written, a row of another follower blocks the follow: user 3 cannot
      follow author 1 once user 2 does. */
  lemma AnotherFollowerBlocksFollow()
    ensures AfterFollow([Follow(2, 1)], 3, 1) == [Follow(2, 1)]
    ensures !IsFollowing(AfterFollow([Follow(2, 1)], 3, 1), 3, 1)
    ensures IsFollowing(PairFollow([Follow(2, 1)], 3, 1), 3, 1)
  {
    assert HasAuthor([Follow(2, 1)], 1) by { assert Follow(2, 1) in [Follow(2, 1)]; }
  }

  /** As written, one user's unfollow removes every follower of that author:
      user 3 unfollowing author 1 also drops user 2's row. */
  lemma UnfollowDropsOtherFollowers()
    ensures AfterUnfollow([Follow(2, 1), Follow(3, 1)], 1) == []
    ensures PairUnfollow([Follow(2, 1), Follow(3, 1)], 3, 1) == [Follow(2, 1)]
  {
    var fs := [Follow(2, 1), Follow(3, 1)];
    assert fs[1..] == [Follow(3, 1)] && fs[1..][1..] == [];
  }
}
