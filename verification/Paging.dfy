/** Offset pagination: `PageMetaDto` and `PaginationQueryDto.skip` against the list they cut up. */
module Paging {
  import opened Words

  datatype PageMeta = PageMeta(
    page: nat, limit: nat, totalItems: nat, totalPages: nat, hasNext: bool, hasPrev: bool)

  function CeilDiv(n: nat, d: nat): nat
    requires d >= 1
  {
    if n % d == 0 then n / d else n / d + 1
  }

  /** The constructor; the query DTO admits no page or limit below 1. */
  function Meta(page: nat, limit: nat, totalItems: nat): PageMeta
    requires page >= 1 && limit >= 1
  {
    var pages := CeilDiv(totalItems, limit);
    var totalPages := if pages < 1 then 1 else pages;
    PageMeta(page, limit, totalItems, totalPages, page < totalPages, page > 1)
  }

  function Skip(page: nat, limit: nat): nat
    requires page >= 1
  {
    (page - 1) * limit
  }

  function Min(a: nat, b: nat): nat {
    if a < b then a else b
  }

  /** What the database returns for one page: skip, then take at most `limit`. */
  function Page<T>(items: seq<T>, page: nat, limit: nat): seq<T>
    requires page >= 1
  {
    var from := Min(Skip(page, limit), |items|);
    items[from..Min(from + limit, |items|)]
  }

  /** The first `k` pages put together. */
  function Pages<T>(items: seq<T>, k: nat, limit: nat): seq<T> {
    if k == 0 then [] else Pages(items, k - 1, limit) + Page(items, k, limit)
  }

  lemma {:induction false} CeilBounds(n: nat, d: nat)
    requires d >= 1
    ensures CeilDiv(n, d) * d >= n
    ensures n > 0 ==> CeilDiv(n, d) >= 1 && (CeilDiv(n, d) - 1) * d < n
  {
    var q, r := n / d, n % d;
    assert n == q * d + r;
    MulSplit(q, 1, d);
    MulSplit(q, -1, d);
  }

  lemma {:induction false} PrefixGrows<T>(items: seq<T>, skip: nat, limit: nat)
    ensures var from := Min(skip, |items|);
            items[..from] + items[from..Min(from + limit, |items|)] == items[..Min(skip + limit, |items|)]
  {
  }

  lemma {:induction false} PagesPrefix<T>(items: seq<T>, k: nat, limit: nat)
    ensures Pages(items, k, limit) == items[..Min(k * limit, |items|)]
  {
    if k > 0 {
      PagesPrefix(items, k - 1, limit);
      MulSplit(k - 1, 1, limit);
      PrefixGrows(items, (k - 1) * limit, limit);
    } else {
      assert 0 * limit == 0;
    }
  }

  lemma {:induction false} SkipPositive(page: nat, limit: nat)
    requires page >= 1 && limit >= 1
    ensures page > 1 <==> Skip(page, limit) > 0
  {
    if page > 1 {
      MulMono(1, page - 1, limit);
    }
  }

  lemma {:induction false} PageSize(n: nat, limit: nat, pages: nat, page: nat)
    requires limit >= 1 && page >= 1 && pages >= 1
    requires pages * limit >= n && (n > 0 ==> (pages - 1) * limit < n) && (n == 0 ==> pages == 1)
    ensures page < pages ==> Skip(page, limit) + limit <= n
    ensures page == pages && n > 0 ==> Skip(page, limit) < n <= Skip(page, limit) + limit
    ensures page > pages ==> Skip(page, limit) >= n
    ensures page < pages <==> Skip(page, limit) + limit < n
    ensures page > 1 <==> Skip(page, limit) > 0
  {
    SkipPositive(page, limit);
    MulSplit(page - 1, 1, limit);
    if page < pages {
      MulMono(page, pages - 1, limit);
      if n == 0 {
        assert false;
      }
    } else if page > pages {
      MulMono(pages, page - 1, limit);
    } else {
      assert (page - 1) * limit + limit == page * limit;
    }
  }

  /** Pages 1 to totalPages put together are the whole list, each item once and in order; no page
      exceeds the limit, only the last can fall short of it, and there is nothing beyond. `hasNext` says
      exactly whether items remain after the page, `hasPrev` whether some come before it. */
  lemma {:induction false} PagesPartition<T>(items: seq<T>, limit: nat, page: nat)
    requires limit >= 1 && page >= 1
    ensures var m := Meta(page, limit, |items|);
            && m.page == page && m.limit == limit && m.totalItems == |items| && m.totalPages >= 1
            && Pages(items, m.totalPages, limit) == items
            && (page < m.totalPages ==> |Page(items, page, limit)| == limit)
            && (page == m.totalPages ==> (items == [] || 1 <= |Page(items, page, limit)| <= limit))
            && (page > m.totalPages ==> Page(items, page, limit) == [])
            && (m.hasNext <==> Skip(page, limit) + limit < |items|)
            && (m.hasPrev <==> Skip(page, limit) > 0)
  {
    var n, pages := |items|, Meta(page, limit, |items|).totalPages;
    CeilBounds(n, limit);
    PagesPrefix(items, pages, limit);
    assert pages * limit >= n by {
      MulMono(CeilDiv(n, limit), pages, limit);
    }
    assert items[..n] == items;
    PageSize(n, limit, pages, page);
  }

  /** A client that asks for the next page as long as `hasNext` says there is one. */
  function Followed<T>(items: seq<T>, page: nat, limit: nat): seq<seq<T>>
    requires page >= 1 && limit >= 1
    decreases Meta(1, limit, |items|).totalPages - page
  {
    [Page(items, page, limit)]
    + if Meta(page, limit, |items|).hasNext then Followed(items, page + 1, limit) else []
  }

  function Concat<T>(parts: seq<seq<T>>): seq<T> {
    if parts == [] then [] else Concat(parts[..|parts| - 1]) + parts[|parts| - 1]
  }

  lemma {:induction false} FollowedPages<T>(items: seq<T>, page: nat, limit: nat)
    requires page >= 1 && limit >= 1 && page <= Meta(1, limit, |items|).totalPages
    ensures var pages, seen := Meta(1, limit, |items|).totalPages, Followed(items, page, limit);
            && |seen| == pages - page + 1
            && forall i :: 0 <= i < |seen| ==> seen[i] == Page(items, page + i, limit)
    decreases Meta(1, limit, |items|).totalPages - page
  {
    hide Page;
    if !Meta(page, limit, |items|).hasNext {
    } else {
      FollowedPages(items, page + 1, limit);
    }
  }

  lemma {:induction false} ConcatPages<T>(items: seq<T>, limit: nat, parts: seq<seq<T>>)
    requires forall i :: 0 <= i < |parts| ==> parts[i] == Page(items, i + 1, limit)
    ensures Concat(parts) == Pages(items, |parts|, limit)
    decreases |parts|
  {
    hide Page;
    if parts == [] {
    } else {
      ConcatPages(items, limit, parts[..|parts| - 1]);
    }
  }

  /** Following `hasNext` from page 1 stops after exactly totalPages requests and has then seen the
      whole list. */
  lemma {:induction false} FollowingSeesAll<T>(items: seq<T>, limit: nat)
    requires limit >= 1
    ensures var seen := Followed(items, 1, limit);
            |seen| == Meta(1, limit, |items|).totalPages && Concat(seen) == items
  {
    FollowedPages(items, 1, limit);
    ConcatPages(items, limit, Followed(items, 1, limit));
    PagesPartition(items, limit, 1);
  }
}
