/** Pagination of list queries. Page numbers and totals are taken to stay within the 64-bit range. */
module Paging {
  import opened Common

  const DEFAULT_PAGE_SIZE := 20

  datatype Pagination = Pagination(currentPage: int, total: int, totalPage: int, limit: int, skip: int)

  // Smallest integer not below x.
  function Ceil(x: real): int {
    -(-x).Floor
  }

  function PageSize(pageSize: int): (limit: int)
    ensures 0 < limit <= DEFAULT_PAGE_SIZE
  {
    if 0 < pageSize <= DEFAULT_PAGE_SIZE then pageSize else DEFAULT_PAGE_SIZE
  }

  // The number of pages is the least that holds every row.
  ghost predicate EnoughPages(total: int, limit: int, pages: int)
  {
    pages * limit >= total && (pages - 1) * limit < total
  }

  lemma QuotientTimes(a: real, b: real)
    requires b > 0.0
    ensures a / b * b == a
  {
  }

  lemma ProductIsPositive(x: real, y: real)
    requires x > 0.0 && y > 0.0
    ensures x * y > 0.0
  {
  }

  lemma TimesOfLess(x: real, y: real, z: real)
    requires x < y && z > 0.0
    ensures x * z < y * z
  {
    ProductIsPositive(y - x, z);
    assert (y - x) * z == y * z - x * z;
  }

  lemma ProductAsReal(a: int, b: int)
    ensures a as real * b as real == (a * b) as real
  {
  }

  lemma CeilIsEnough(total: int, limit: int)
    requires limit > 0
    ensures EnoughPages(total, limit, Ceil(total as real / limit as real))
  {
    var x, l := total as real / limit as real, limit as real;
    var n := Ceil(x);
    QuotientTimes(total as real, l);
    ProductAsReal(n, limit);
    ProductAsReal(n - 1, limit);
    TimesOfLess((n - 1) as real, x, l);
    if x < n as real {
      TimesOfLess(x, n as real, l);
    }
  }

  // No other number of pages would do.
  lemma EnoughPagesUnique(total: int, limit: int, a: int, b: int)
    requires limit > 0 && EnoughPages(total, limit, a) && EnoughPages(total, limit, b)
    ensures a == b
  {
    if a < b {
      TimesMonotone(a, b - 1, limit);
    } else if b < a {
      TimesMonotone(b, a - 1, limit);
    }
  }

  lemma PagesAreNatural(total: int, limit: int, pages: int)
    requires total >= 0 && limit > 0 && EnoughPages(total, limit, pages)
    ensures pages >= 0
  {
    if pages < 0 {
      TimesMonotone(pages, -1, limit);
    }
  }

  method New(page: int, pageSize: int, total: int) returns (info: Pagination)
    ensures info.limit == PageSize(pageSize) && info.total == total
    ensures info.limit == if 1 <= pageSize <= 20 then pageSize else 20
    ensures EnoughPages(total, info.limit, info.totalPage)
    ensures total >= 0 ==> info.totalPage >= 0
    ensures info.currentPage == if page < 1 || info.totalPage == 0 then 1 else page
    ensures info.skip == (info.currentPage - 1) * info.limit && info.skip >= 0
  {
    info := Pagination(0, 0, 0, 0, 0);
    var limit := DEFAULT_PAGE_SIZE;
    if pageSize > 0 && pageSize <= limit {
      info := info.(limit := pageSize);
    } else {
      info := info.(limit := limit);
    }
    var totalPage := Ceil(total as real / info.limit as real);
    CeilIsEnough(total, info.limit);
    info := info.(total := total, totalPage := totalPage);
    var current := page;
    if current < 1 || totalPage == 0 {
      current := 1;
    }
    TimesMonotone(0, current - 1, info.limit);
    if total >= 0 {
      PagesAreNatural(total, info.limit, totalPage);
    }
    info := info.(currentPage := current, skip := (current - 1) * info.limit);
  }

  // ------------------------------------------------------------------ pages as slices

  // What LIMIT and OFFSET select from a list of rows.
  function Slice<T>(rows: seq<T>, skip: nat, limit: nat): seq<T> {
    if skip >= |rows| then []
    else if skip + limit >= |rows| then rows[skip..]
    else rows[skip..skip + limit]
  }

  function Page<T>(rows: seq<T>, k: int, limit: nat): seq<T>
    requires k >= 1
  {
    Slice(rows, (k - 1) * limit, limit)
  }

  // Pages 1 to n, one after the other.
  function FirstPages<T>(rows: seq<T>, n: nat, limit: nat): seq<T> {
    if n == 0 then [] else FirstPages(rows, n - 1, limit) + Page(rows, n, limit)
  }

  lemma {:induction false} FirstPagesArePrefix<T>(rows: seq<T>, n: nat, limit: nat)
    ensures FirstPages(rows, n, limit) == if n * limit >= |rows| then rows else rows[..n * limit]
  {
    if n > 0 {
      FirstPagesArePrefix(rows, n - 1, limit);
      assert n * limit == (n - 1) * limit + limit;
    }
  }

  lemma SliceIsEmpty<T>(rows: seq<T>, skip: nat, limit: nat)
    requires limit > 0
    ensures Slice(rows, skip, limit) == [] <==> skip >= |rows|
  {
  }

  // Pages 1 to TotalPage, one after the other, are exactly the list: nothing is missing or repeated.
  lemma PagesPartition<T>(rows: seq<T>, limit: nat, pages: nat)
    requires limit > 0 && EnoughPages(|rows|, limit, pages)
    ensures FirstPages(rows, pages, limit) == rows
  {
    FirstPagesArePrefix(rows, pages, limit);
  }

  // Pages up to TotalPage have rows, later pages are empty.
  lemma PageIsEmpty<T>(rows: seq<T>, limit: nat, pages: nat, k: int)
    requires limit > 0 && EnoughPages(|rows|, limit, pages) && k >= 1
    ensures Page(rows, k, limit) == [] <==> k > pages
  {
    if k > pages {
      TimesMonotone(pages, k - 1, limit);
    } else {
      TimesMonotone(k - 1, pages - 1, limit);
    }
    SliceIsEmpty(rows, (k - 1) * limit, limit);
  }
}
