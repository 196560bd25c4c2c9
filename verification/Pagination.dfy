/** `apply_pagination` and the page count that list queries report next to it. */
module Pagination {
  import opened Sequences

  datatype Paginated<T> = NegativeValue | Rows(rows: seq<T>)

  /** `value or default` */
  function Or(value: Option<int>, default: int): int {
    if value.None? || value.value == 0 then default else value.value
  }

  /** The offset of a page. */
  function Start(page: int, size: int): (from: nat)
    requires page >= 1 && size >= 1
  {
    Product(page - 1, size);
    (page - 1) * size
  }

  /** `apply_pagination` */
  function ApplyPagination<T>(rows: seq<T>, page: Option<int>, pageSize: Option<int>): Paginated<T> {
    if page.Some? && page.value < 0 then NegativeValue
    else if pageSize.Some? && pageSize.value < 0 then NegativeValue
    else if page.None? && pageSize.None? then Rows(rows)
    else
      var size := Or(pageSize, 10);
      var offset := Start(Or(page, 1), size);
      Rows(Slice(rows, offset, offset + size))
  }

  /** `(count + size - 1) // size` */
  function CeilDiv(count: nat, size: int): (q: nat)
    requires size >= 1
  {
    (count + size - 1) / size
  }

  /** `total_pages` in the page info */
  function TotalPages(count: nat, pageSize: Option<int>): nat {
    if pageSize.Some? && pageSize.value > 0 then CeilDiv(count, pageSize.value) else 1
  }

  lemma Product(x: nat, y: nat)
    ensures x * y >= 0
  {
  }

  lemma Quotient(n: int, size: int, q: int)
    requires size >= 1 && q == n / size
    ensures q * size <= n < q * size + size
  {
    assert n == q * size + n % size;
  }

  lemma Monotone(x: int, y: int, z: int)
    requires x <= y && z >= 1
    ensures x * z <= y * z
  {
    Product(y - x, z);
    assert y * z - x * z == (y - x) * z;
  }

  lemma Scaled(p: int, q: int, size: int, n: int)
    requires size >= 1 && q * size <= n < q * size + size
    ensures (p - 1) * size + size <= n <==> p <= q
  {
    assert (p - 1) * size + size == p * size;
    assert (q + 1) * size == q * size + size;
    if p <= q {
      Monotone(p, q, size);
    } else {
      Monotone(q + 1, p, size);
    }
  }

  /** Page `p` starts within the rows exactly when `p` does not exceed the rounded-up quotient. */
  lemma StartsWithin(count: nat, size: int, p: int)
    requires size >= 1 && p >= 1
    ensures Start(p, size) < count <==> p <= CeilDiv(count, size)
  {
    var n := count + size - 1;
    Quotient(n, size, n / size);
    Scaled(p, n / size, size, n);
  }

  /** A page is empty exactly when it lies past the rounded-up quotient. */
  lemma PageIsEmpty<T>(rows: seq<T>, size: int, p: int)
    requires size >= 1 && p >= 1
    ensures Slice(rows, Start(p, size), Start(p, size) + size) != [] <==> p <= CeilDiv(|rows|, size)
  {
    StartsWithin(|rows|, size, p);
    NonEmptySlice(rows, Start(p, size), size);
  }

  lemma NonEmptySlice<T>(rows: seq<T>, from: nat, size: int)
    requires size >= 1
    ensures Slice(rows, from, from + size) != [] <==> from < |rows|
  {
    assert from < |rows| ==> |Slice(rows, from, from + size)| >= 1;
  }

  /** A page shows the rows from where it starts, as many as its size: without a number or with zero it is the
      first one, without a size or with zero it has ten rows. Negative values are refused, and a request
      without any shows everything. */
  lemma PageShows<T>(rows: seq<T>, page: Option<int>, pageSize: Option<int>)
    ensures (page.Some? && page.value < 0) || (pageSize.Some? && pageSize.value < 0)
       <==> ApplyPagination(rows, page, pageSize).NegativeValue?
    ensures page.None? && pageSize.None? ==> ApplyPagination(rows, page, pageSize) == Rows(rows)
    ensures var shown := ApplyPagination(rows, page, pageSize);
            var number := if page.Some? && page.value != 0 then page.value else 1;
            var size := if pageSize.Some? && pageSize.value != 0 then pageSize.value else 10;
            shown.Rows? && (page.Some? || pageSize.Some?) ==> ShowsFrom(shown.rows, rows, (number - 1) * size, size)
  {
    var number := if page.Some? && page.value != 0 then page.value else 1;
    var size := if pageSize.Some? && pageSize.value != 0 then pageSize.value else 10;
    if number >= 1 && size >= 1 {
      Product(number - 1, size);
    }
  }

  /** At most `size` rows from `from` on, and fewer only at the end. */
  ghost predicate ShowsFrom<T>(shown: seq<T>, rows: seq<T>, from: int, size: int) {
    && |shown| <= size && from >= 0
    && (forall k :: 0 <= k < |shown| ==> from + k < |rows| && shown[k] == rows[from + k])
    && (|shown| < size ==> from + |shown| >= |rows|)
  }

  /** The first `m` pages, one after the other. */
  function Pages<T>(rows: seq<T>, size: int, m: nat): seq<T>
    requires size >= 1
  {
    if m == 0 then [] else Pages(rows, size, m - 1) + Slice(rows, Start(m, size), Start(m, size) + size)
  }

  lemma NextStart(m: nat, size: int)
    requires size >= 1
    ensures Start(1, size) == 0
    ensures m >= 1 ==> Start(m + 1, size) == Start(m, size) + size
  {
    if m >= 1 {
      assert m * size == (m - 1) * size + size;
    }
  }

  lemma TakeFurther<T>(rows: seq<T>, from: nat, size: nat)
    ensures Take(rows, from) + Slice(rows, from, from + size) == Take(rows, from + size)
  {
  }

  lemma {:induction false} PagesArePrefix<T>(rows: seq<T>, size: int, m: nat)
    requires size >= 1
    ensures Pages(rows, size, m) == Take(rows, Start(m + 1, size))
  {
    NextStart(m, size);
    if m > 0 {
      PagesArePrefix(rows, size, m - 1);
      TakeFurther(rows, Start(m, size), size);
    }
  }

  /** With a positive page size the reported pages, read one after the other, are all rows, without gaps
      or repetitions. */
  lemma PagesCoverEverything<T>(rows: seq<T>, size: int)
    requires size >= 1
    ensures Pages(rows, size, TotalPages(|rows|, Some(size))) == rows
  {
    EnoughPages(rows, size, TotalPages(|rows|, Some(size)));
  }

  lemma EnoughPages<T>(rows: seq<T>, size: int, m: nat)
    requires size >= 1 && m == CeilDiv(|rows|, size)
    ensures Pages(rows, size, m) == rows
  {
    PagesArePrefix(rows, size, m);
    assert Start(m + 1, size) >= |rows| by {
      StartsWithin(|rows|, size, m + 1);
    }
  }

  /** The reported page count is the number of non-empty pages. */
  ghost predicate ReportsPages<T(!new)>(rows: seq<T>, pageSize: Option<int>)
    requires pageSize.Some? ==> pageSize.value >= 0
  {
    forall p {:trigger ApplyPagination(rows, Some(p), pageSize)} :: p >= 1 ==>
      (ApplyPagination(rows, Some(p), pageSize).rows != [] <==> p <= TotalPages(|rows|, pageSize))
  }

  lemma OneDefaultPage(count: nat)
    ensures CeilDiv(count, 10) == 1 <==> 1 <= count <= 10
  {
  }

  /** It is exactly when a positive page size was given or the rows fill one default page: a request by
      page number alone reports one page, however many pages of the default size there are. */
  lemma ReportedPagesExactly<T(!new)>(rows: seq<T>, pageSize: Option<int>)
    requires pageSize.Some? ==> pageSize.value >= 0
    ensures ReportsPages(rows, pageSize) <==> (pageSize.Some? && pageSize.value > 0) || 1 <= |rows| <= 10
  {
    var size, total := Or(pageSize, 10), TotalPages(|rows|, pageSize);
    forall p | p >= 1
      ensures ApplyPagination(rows, Some(p), pageSize).rows != [] <==> p <= CeilDiv(|rows|, size)
    {
      PageIsEmpty(rows, size, p);
    }
    OneDefaultPage(|rows|);
    if ReportsPages(rows, pageSize) {
      var q := CeilDiv(|rows|, size);
      assert ApplyPagination(rows, Some(total + 1), pageSize).rows != [] <==> total + 1 <= q;
      assert total >= 1 ==> (ApplyPagination(rows, Some(total), pageSize).rows != [] <==> total <= q);
      assert total == q;
    }
  }
}
