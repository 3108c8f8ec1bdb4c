/**
 * Offset pagination as the services compute it: `skip = (page - 1) * size`,
 * Prisma's `skip`/`take` on an ordered result, and
 * `totalPages = Math.ceil(total / size)`.
 */
module Paging {

  /** `(page - 1) * size`. */
  function Skip(page: int, size: int): (skip: int)
    ensures page >= 1 && size >= 0 ==> skip >= 0
  {
    (page - 1) * size
  }

  /** Prisma `findMany({ skip, take })` over rows already in query order. */
  function Window<T>(rows: seq<T>, skip: int, take: int): (w: seq<T>)
    requires skip >= 0 && take >= 0
    ensures |w| == if skip >= |rows| then 0 else Min(take, |rows| - skip)
    ensures forall i :: 0 <= i < |w| ==> w[i] == rows[skip + i]
  {
    if skip >= |rows| then [] else rows[skip..skip + Min(take, |rows| - skip)]
  }

  function Min(a: int, b: int): int {
    if a <= b then a else b
  }

  /** `Math.ceil(total / size)` for a count and a positive page size. */
  function TotalPages(total: nat, size: nat): (pages: nat)
    requires size > 0
    ensures pages * size >= total
    ensures pages > 0 ==> (pages - 1) * size < total
  {
    (total + size - 1) / size
  }

  /**
   * Pages 1..TotalPages cover every row exactly once: the row at index `i`
   * is on page `i / size + 1`, and that page exists.
   */
  lemma RowOnItsPage<T>(rows: seq<T>, size: nat, i: nat)
    requires size > 0 && i < |rows|
    ensures var page := i / size + 1;
      1 <= page <= TotalPages(|rows|, size) &&
      Skip(page, size) <= i < Skip(page, size) + size &&
      Window(rows, Skip(page, size), size)[i - Skip(page, size)] == rows[i]
  {
    var page := i / size + 1;
    assert Skip(page, size) == (i / size) * size;
    var pages := TotalPages(|rows|, size);
    BelowProduct(i / size, pages, size);
  }

  lemma BelowProduct(a: nat, b: nat, c: nat)
    requires c > 0 && a * c < b * c
    ensures a < b
  {
  }
}
