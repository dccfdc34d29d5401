/** Page arithmetic (app/api/deps/pagination.py). */
module Pagination {

  datatype Params = Params(page: int, pageSize: int) {
    /** What the query constraints guarantee. */
    ghost predicate Valid() {
      page >= 1 && pageSize >= 1
    }

    function Offset(): int {
      (page - 1) * pageSize
    }

    function Limit(): int {
      pageSize
    }
  }

  datatype Response<T> = Response(items: seq<T>, total: int, page: int, pageSize: int, pages: int, hasNext: bool,
                                  hasPrev: bool)

  /** Number of pages; an empty result still has one. */
  function Pages(total: int, pageSize: int): int
    requires pageSize >= 1
  {
    if total > 0 then (total + pageSize - 1) / pageSize else 1
  }

  function Create<T>(items: seq<T>, total: int, p: Params): Response<T>
    requires p.pageSize >= 1
  {
    var pages := Pages(total, p.pageSize);
    Response(items, total, p.page, p.pageSize, pages, p.page < pages, p.page > 1)
  }

  lemma {:induction false} Scale(a: int, b: int, size: int)
    requires size >= 1
    ensures a <= b <==> a * size <= b * size
  {
    if a <= b {
      assert (b - a) * size >= 0;
    } else {
      assert (a - b - 1) * size >= 0;
    }
  }

  lemma {:induction false} PagesBound(total: int, size: int)
    requires size >= 1 && total > 0
    ensures (Pages(total, size) - 1) * size < total <= Pages(total, size) * size && Pages(total, size) >= 1
  {
    var n, q := total + size - 1, Pages(total, size);
    assert n == q * size + n % size;
    assert (q - 1) * size == q * size - size;
    Scale(q, 0, size);
  }

  lemma {:induction false} NotLastPage(total: int, size: int, page: int)
    requires size >= 1 && page >= 1
    ensures page < Pages(total, size) <==> page * size < total
  {
    var q := Pages(total, size);
    if total > 0 { PagesBound(total, size); }
    Scale(page, q - 1, size);
    Scale(q, page, size);
    Scale(1, page, size);
  }

  lemma {:induction false} PageEnd(p: Params)
    ensures p.Offset() + p.Limit() == p.page * p.pageSize
  {
  }

  /** There is a next page exactly when items remain beyond this one. */
  lemma {:induction false} HasNextIff<T>(items: seq<T>, total: int, p: Params)
    requires p.Valid()
    ensures Create(items, total, p).hasNext <==> p.Offset() + p.Limit() < total
  {
    NotLastPage(total, p.pageSize, p.page);
    PageEnd(p);
  }

  /** The response repeats what it was made from; there is a previous page exactly when items come before this one. */
  lemma {:induction false} HasPrevIff<T>(items: seq<T>, total: int, p: Params)
    requires p.Valid()
    ensures
      var r := Create(items, total, p);
      && r.items == items && r.total == total && r.page == p.page && r.pageSize == p.pageSize
      && (r.hasPrev <==> p.Offset() > 0)
  {
    Scale(1, p.page - 1, p.pageSize);
    Scale(p.page - 1, 0, p.pageSize);
  }

  /** The number of pages is the least that holds all items, and one if there are none. */
  lemma {:induction false} PagesExactly(total: int, size: int, pages: int)
    requires size >= 1
    ensures pages == Pages(total, size) <==>
      pages >= 1 && total <= pages * size && (pages == 1 || (pages - 1) * size < total)
  {
    var q := Pages(total, size);
    if total > 0 {
      PagesBound(total, size);
    }
    Scale(q, 1, size);
    Scale(1, q, size);
    Scale(pages, q - 1, size);
    Scale(q, pages - 1, size);
    Scale(1, pages, size);
  }

  ghost predicate OnPage(i: int, page: int, size: int) {
    var p := Params(page, size);
    p.Offset() <= i < p.Offset() + p.Limit()
  }

  /** Each item lies on exactly one of the pages. */
  lemma {:induction false} ExactlyOnePage(total: int, size: int, i: int) returns (page: int)
    requires size >= 1 && 0 <= i < total
    ensures 1 <= page <= Pages(total, size) && OnPage(i, page, size)
    ensures forall q :: OnPage(i, q, size) ==> q == page
  {
    page := i / size + 1;
    assert i == (i / size) * size + i % size;
    PageEnd(Params(page, size));
    Scale(0, i / size, size);
    assert OnPage(i, page, size);
    PagesBound(total, size);
    Scale(Pages(total, size), page - 1, size);
    forall q | OnPage(i, q, size) ensures q == page {
      PageEnd(Params(q, size));
      Scale(page, q - 1, size);
      Scale(q, page - 1, size);
    }
  }

  /** The slice that a query with the page's offset and limit returns. */
  function Slice<T>(all: seq<T>, p: Params): seq<T> {
    var lo, hi := p.Offset(), p.Offset() + p.Limit();
    if 0 <= lo <= hi <= |all| then all[lo..hi]
    else if 0 <= lo <= |all| <= hi then all[lo..]
    else []
  }

  lemma {:induction false} SliceIs<T>(all: seq<T>, p: Params)
    requires 0 <= p.Offset() <= |all| && p.pageSize >= 1
    ensures
      var lo, hi := p.Offset(), p.Offset() + p.pageSize;
      Slice(all, p) == if hi < |all| then all[lo..hi] else all[lo..]
  {
  }

  /** Follow `has_next` from page `page` and concatenate the items. */
  function Walk<T>(all: seq<T>, page: int, size: int): seq<T>
    requires page >= 1 && size >= 1
    decreases Pages(|all|, size) - page
  {
    var p := Params(page, size);
    var response := Create(Slice(all, p), |all|, p);
    response.items + if response.hasNext then Walk(all, page + 1, size) else []
  }

  lemma {:induction false} WalkFrom<T>(all: seq<T>, page: int, size: int)
    requires page >= 1 && size >= 1 && Params(page, size).Offset() <= |all|
    ensures Params(page, size).Offset() >= 0 && Walk(all, page, size) == all[Params(page, size).Offset()..]
    decreases Pages(|all|, size) - page
  {
    var p, next := Params(page, size), Params(page + 1, size);
    Scale(0, page - 1, size);
    HasNextIff(Slice(all, p), |all|, p);
    SliceIs(all, p);
    PageEnd(p);
    var lo, hi := p.Offset(), next.Offset();
    assert hi == lo + size;
    if hi < |all| {
      WalkFrom(all, page + 1, size);
      assert all[lo..] == all[lo..hi] + all[hi..];
    }
  }

  /** Walking all pages returns the whole list. */
  lemma {:induction false} WalkIsEverything<T>(all: seq<T>, size: int)
    requires size >= 1
    ensures Walk(all, 1, size) == all
  {
    WalkFrom(all, 1, size);
    assert all[0..] == all;
  }
}
