/**
 * `paginate_posts`: a feed is cut into pages of POST_NUM_ON_PAGE posts and the
 * page with the requested number (counted from 1) is shown.
 */
module Pagination {

  type PageSize = n: nat | n > 0 witness 1

  /** POST_NUM_ON_PAGE. Its value is set in the project's settings module,
      which is not part of this model, so every fact below holds for any
      positive page size. */
  const PostNumOnPage: PageSize

  function Min(a: int, b: int): int { if a <= b then a else b }

  /** Index in the feed of the first item of page `number`. */
  function PageStart(number: nat, perPage: PageSize): nat
    requires number >= 1
  {
    (number - 1) * perPage
  }

  /** Page `number` of `items`: the contiguous run of at most `perPage` items
      that starts after the first `number - 1` full pages; empty once the
      feed is exhausted. */
  function Paginate<T>(items: seq<T>, number: nat, perPage: PageSize): (r: seq<T>)
    requires number >= 1
    ensures |r| <= perPage
    ensures |r| == if PageStart(number, perPage) >= |items| then 0
                   else Min(perPage, |items| - PageStart(number, perPage))
    ensures forall i :: 0 <= i < |r| ==> r[i] == items[PageStart(number, perPage) + i]
  {
    var start := PageStart(number, perPage);
    if start >= |items| then [] else items[start..Min(start + perPage, |items|)]
  }

  /** `paginate_posts(request, posts)` with the configured page size. */
  function PaginatePosts<T>(items: seq<T>, number: nat): (r: seq<T>)
    requires number >= 1
    ensures |r| <= PostNumOnPage
    ensures |r| == if PageStart(number, PostNumOnPage) >= |items| then 0
                   else Min(PostNumOnPage, |items| - PageStart(number, PostNumOnPage))
    ensures forall i :: 0 <= i < |r| ==> r[i] == items[PageStart(number, PostNumOnPage) + i]
  {
    Paginate(items, number, PostNumOnPage)
  }

  // ---------------------------------------------------------------------
  // Reference definition: the feed cut into consecutive chunks

  /** `items` cut into consecutive chunks of `perPage`, the last one possibly
      shorter. */
  function Chunks<T>(items: seq<T>, perPage: PageSize): seq<seq<T>>
    decreases |items|
  {
    if items == [] then []
    else if |items| <= perPage then [items]
    else [items[..perPage]] + Chunks(items[perPage..], perPage)
  }

  function Flatten<T>(pages: seq<seq<T>>): seq<T>
  {
    if pages == [] then [] else pages[0] + Flatten(pages[1..])
  }

  /** The chunks, read in order, give back the whole feed. */
  lemma {:induction false} ChunksCoverFeed<T>(items: seq<T>, perPage: PageSize)
    ensures Flatten(Chunks(items, perPage)) == items
    decreases |items|
  {
    if items != [] && |items| > perPage {
      ChunksCoverFeed(items[perPage..], perPage);
      assert items == items[..perPage] + items[perPage..];
    }
  }

  /** Moving one page forward in a feed is the same as dropping its first
      page. */
  lemma NextPageOfRest<T>(items: seq<T>, number: nat, perPage: PageSize)
    requires number >= 1
    requires |items| > perPage
    ensures Paginate(items, number + 1, perPage) == Paginate(items[perPage..], number, perPage)
  {
    assert PageStart(number + 1, perPage) == PageStart(number, perPage) + perPage;
  }

  /** Page n of the feed is exactly its n-th chunk, and every page number
      past the last chunk gives an empty page. */
  lemma {:induction false} PageIsChunk<T>(items: seq<T>, number: nat, perPage: PageSize)
    requires number >= 1
    ensures number <= |Chunks(items, perPage)| ==>
              Paginate(items, number, perPage) == Chunks(items, perPage)[number - 1]
    ensures number > |Chunks(items, perPage)| ==> Paginate(items, number, perPage) == []
    decreases |items|
  {
    if items == [] {
    } else if |items| <= perPage {
      if number > 1 {
        assert PageStart(number, perPage) >= perPage by {
          assert PageStart(number, perPage) == (number - 2) * perPage + perPage;
        }
      }
    } else if number == 1 {
    } else {
      NextPageOfRest(items, number - 1, perPage);
      PageIsChunk(items[perPage..], number - 1, perPage);
    }
  }

  /** With one item more than a page holds, page 1 is full and page 2 holds
      the remaining item. */
  lemma OneMoreThanAPage<T>(items: seq<T>, perPage: PageSize)
    requires |items| == perPage + 1
    ensures Paginate(items, 1, perPage) == items[..perPage]
    ensures Paginate(items, 2, perPage) == [items[perPage]]
    ensures Paginate(items, 3, perPage) == []
  {
    assert PageStart(2, perPage) == perPage;
    assert PageStart(3, perPage) == 2 * perPage;
  }
}
