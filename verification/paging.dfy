/**
 * Table and modal paging (public/app.js:33, 393-414, 421-427, 811-816): a page is a slice of
 * `size` rows, the page count is at least 1, and before a page is drawn its number is
 * clamped into range, which also undoes a "next" past the last page or a "previous" before
 * the first.
 */
module Paging {

  /** `pageSize`, the rows per page of the three sheet tables. */
  const PageSize: nat := 25
  /** `modalPageSize`, the rows per page of the transaction modal. */
  const ModalPageSize: nat := 25

  /** How `Array.prototype.slice` reads an index: a negative index counts from the end, and
      the result is clamped to `0..n`. */
  function SliceIndex(i: int, n: nat): (j: nat)
    ensures j <= n
    ensures 0 <= i <= n ==> j == i
  {
    if i < 0 then (if n + i < 0 then 0 else n + i)
    else if i > n then n
    else i
  }

  /** `s.slice(start, end)`. */
  function Slice<T>(s: seq<T>, start: int, end: int): (r: seq<T>)
    ensures |r| <= |s|
  {
    var a := SliceIndex(start, |s|);
    var b := SliceIndex(end, |s|);
    if a < b then s[a..b] else []
  }

  /** Where page `page` starts: `(page - 1) * size`. */
  function PageStart(page: int, size: nat): (start: int)
    ensures page >= 1 ==> start >= 0
  {
    MulNonNegative(page - 1, size);
    (page - 1) * size
  }

  lemma MulNonNegative(a: int, b: nat)
    ensures a >= 0 ==> a * b >= 0
  {
  }

  /** `paginate(data, page)`: rows `(page - 1) * size` up to, not including, `page * size`. */
  function Paginate<T>(data: seq<T>, page: int, size: nat): (rows: seq<T>)
    ensures |rows| <= |data|
  {
    var start := PageStart(page, size);
    Slice(data, start, start + size)
  }

  /** `Math.ceil(n / d)` for a natural `n` and a positive `d`. */
  function CeilDiv(n: nat, d: nat): nat
    requires d > 0
  {
    (n + d - 1) / d
  }

  lemma CeilDivSpec(n: nat, d: nat)
    requires d > 0
    ensures n <= CeilDiv(n, d) * d
    ensures n == 0 || (CeilDiv(n, d) - 1) * d < n
    ensures n == 0 ==> CeilDiv(n, d) == 0
  {
    var q, r := (n + d - 1) / d, (n + d - 1) % d;
    assert n + d - 1 == q * d + r;
    assert (q - 1) * d == q * d - d;
  }

  /** `totalPages(data)`: `Math.max(1, Math.ceil(n / size))`. */
  function TotalPages(n: nat, size: nat): nat
    requires size > 0
  {
    var c := CeilDiv(n, size);
    if c < 1 then 1 else c
  }

  /** There is always a page; the pages hold every row, and the last page is not empty unless
      there are no rows at all. */
  lemma TotalPagesSpec(n: nat, size: nat)
    requires size > 0
    ensures TotalPages(n, size) >= 1
    ensures n <= TotalPages(n, size) * size
    ensures n == 0 || (TotalPages(n, size) - 1) * size < n
    ensures n == 0 ==> TotalPages(n, size) == 1
  {
    CeilDivSpec(n, size);
  }

  /** `if (page > maxPages) page = maxPages; if (page < 1) page = 1;` */
  function Clamp(page: int, maxPages: nat): int {
    var p := if page > maxPages then maxPages else page;
    if p < 1 then 1 else p
  }

  /** The clamped page is in range, and a page already in range is left alone. */
  lemma ClampSpec(page: int, maxPages: nat)
    requires maxPages >= 1
    ensures 1 <= Clamp(page, maxPages) <= maxPages
    ensures 1 <= page <= maxPages ==> Clamp(page, maxPages) == page
    ensures page > maxPages ==> Clamp(page, maxPages) == maxPages
    ensures page < 1 ==> Clamp(page, maxPages) == 1
  {
  }

  /** The smaller of two naturals. */
  function Min(a: nat, b: nat): nat {
    if a < b then a else b
  }

  /** A slice from a non-negative start: the rows from `start` on, at most `size` of them. */
  lemma SliceFrom<T>(data: seq<T>, start: nat, size: nat)
    ensures Slice(data, start, start + size) == data[Min(start, |data|)..Min(start + size, |data|)]
  {
  }

  /** Each page starts `size` rows after the one before it. */
  lemma PageStartStep(page: int, size: nat)
    requires page >= 1
    ensures PageStart(page + 1, size) == PageStart(page, size) + size
  {
  }

  /** A later page starts no earlier. */
  lemma PageStartMonotone(p: int, q: int, size: nat)
    requires p <= q
    ensures PageStart(p, size) <= PageStart(q, size)
  {
    assert (q - 1) * size - (p - 1) * size == (q - p) * size;
  }

  /** A page from 1 on holds the rows from its start on, at most `size` of them. */
  lemma PaginateSpec<T>(data: seq<T>, page: int, size: nat)
    requires page >= 1
    ensures Paginate(data, page, size)
      == data[Min(PageStart(page, size), |data|)..Min(PageStart(page, size) + size, |data|)]
  {
    SliceFrom(data, PageStart(page, size), size);
  }

  /** What a table or the modal draws for a requested page: the clamped page number and its
      rows. */
  function ShowPage<T>(data: seq<T>, page: int, size: nat): (int, seq<T>)
    requires size > 0
  {
    var p := Clamp(page, TotalPages(|data|, size));
    (p, Paginate(data, p, size))
  }

  /** The drawn page is in range, never empty while there are rows, and holds the (at most
      `size`) rows from its start on. */
  lemma ShowPageSpec<T>(data: seq<T>, page: int, size: nat)
    requires size > 0
    ensures var (p, rows) := ShowPage(data, page, size);
      && 1 <= p <= TotalPages(|data|, size)
      && |rows| <= size
      && (|data| > 0 ==> PageStart(p, size) < |data| && |rows| > 0)
      && rows == data[Min(PageStart(p, size), |data|)..Min(PageStart(p, size) + size, |data|)]
  {
    var total := TotalPages(|data|, size);
    TotalPagesSpec(|data|, size);
    ClampSpec(page, total);
    var p := Clamp(page, total);
    PaginateSpec(data, p, size);
    PageStartMonotone(p, total, size);
  }

  /** Pages 1 to `k`, one after the other. */
  function Pages<T>(data: seq<T>, size: nat, k: nat): seq<T> {
    if k == 0 then [] else Pages(data, size, k - 1) + Paginate(data, k, size)
  }

  /** The first `k` pages are the first `k * size` rows. */
  lemma {:induction false} PagesPrefix<T>(data: seq<T>, size: nat, k: nat)
    ensures Pages(data, size, k) == data[..Min(PageStart(k + 1, size), |data|)]
  {
    if k > 0 {
      PagesPrefix(data, size, k - 1);
      PaginateSpec(data, k, size);
      PageStartStep(k, size);
      var a, b := Min(PageStart(k, size), |data|), Min(PageStart(k + 1, size), |data|);
      assert data[..b] == data[..a] + data[a..b];
    }
  }

  /** Paging through all the pages shows every row exactly once, in order. */
  lemma PagesCover<T>(data: seq<T>, size: nat)
    requires size > 0
    ensures Pages(data, size, TotalPages(|data|, size)) == data
  {
    TotalPagesSpec(|data|, size);
    PagesPrefix(data, size, TotalPages(|data|, size));
    assert PageStart(TotalPages(|data|, size) + 1, size) == TotalPages(|data|, size) * size;
  }

  /** Row `i` is on page `i / size + 1`, at position `i % size`. */
  lemma RowOnPage<T>(data: seq<T>, size: nat, i: int)
    requires size > 0 && 0 <= i < |data|
    ensures var page := Paginate(data, i / size + 1, size);
      i % size < |page| && page[i % size] == data[i]
  {
    var q, r := i / size, i % size;
    assert i == q * size + r;
    PaginateSpec(data, q + 1, size);
    assert PageStart(q + 1, size) == q * size;
  }

  /** "Next" on the last page, or "previous" on the first, is undone by the clamp. */
  lemma StepClamped(page: int, maxPages: nat)
    requires 1 <= page <= maxPages
    ensures Clamp(page + 1, maxPages) == if page < maxPages then page + 1 else maxPages
    ensures Clamp(page - 1, maxPages) == if page > 1 then page - 1 else 1
  {
  }

  /** Sixty rows, 25 to a page, asked for page 10: the clamp shows page 3, holding the last
      ten rows. */
  lemma SixtyRowsExample<T>(data: seq<T>)
    requires |data| == 60
    ensures ShowPage(data, 10, PageSize) == (3, data[50..60])
  {
    assert CeilDiv(60, 25) == 3;
    PaginateSpec(data, 3, PageSize);
    assert PageStart(3, PageSize) == 50;
  }
}
