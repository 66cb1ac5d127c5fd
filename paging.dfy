/** Offset paging as Kaminari performs it for `relation.page(p).per(n)`:
    page `p` (one-based, 1 when absent or below 1) of `n` rows per page,
    the rows `[(p-1)*n, p*n)` of the relation, with the counts the index
    actions report in their `meta`. */
module Paging {
  import opened Types

  /** `params[:per_page] || 3` in the users and tasks index actions. */
  const ControllerPerPage: nat := 3
  /** Kaminari's own page size, kept when `per` is given a negative number. */
  const KaminariPerPage: nat := 25

  datatype Meta = Meta(currentPage: nat, totalPages: nat, totalCount: nat)
  datatype Page<T> = Page(items: seq<T>, meta: Meta)

  function Min(a: nat, b: nat): nat {
    if a <= b then a else b
  }

  /** The page size the relation ends up with for a `per_page` parameter. */
  function PerPage(param: Option<int>): (per: nat)
    ensures param.None? ==> per == ControllerPerPage
    ensures param.Some? && param.value >= 0 ==> per == param.value
    ensures param.Some? && param.value < 0 ==> per == KaminariPerPage
  {
    match param
    case None => ControllerPerPage
    case Some(n) => if n < 0 then KaminariPerPage else n
  }

  /** Zero-based index of the page served for a `page` parameter. */
  function PageIndex(param: Option<int>): (k: nat)
    ensures param.Some? && param.value >= 1 ==> k + 1 == param.value
    ensures param.None? || param.value < 1 ==> k == 0
  {
    match param
    case None => 0
    case Some(p) => if p < 1 then 0 else p - 1
  }

  /** `(count.to_f / per).ceil`: the least number of pages of `d` rows that hold `n` rows. */
  function CeilDiv(n: nat, d: nat): (q: nat)
    requires d > 0
    ensures q * d >= n
    ensures q > 0 ==> (q - 1) * d < n
  {
    if n == 0 then 0 else 1 + CeilDiv(if n <= d then 0 else n - d, d)
  }

  /** Page `k` (zero-based) of `rows`, `per` rows to a page. */
  function Slice<T>(rows: seq<T>, k: nat, per: nat): (r: seq<T>)
    ensures |r| <= per
    ensures forall i :: 0 <= i < |r| ==> k * per + i < |rows| && r[i] == rows[k * per + i]
    ensures k * per >= |rows| ==> r == []
    ensures k * per + per <= |rows| ==> |r| == per
    ensures k * per < |rows| < k * per + per ==> |r| == |rows| - k * per
  {
    var lo := Min(k * per, |rows|);
    var hi := Min(lo + per, |rows|);
    rows[lo..hi]
  }

  /** The page and meta of an index action, or None where Kaminari raises
      `ZeroPerPageOperation` (a page size of 0). */
  function Paginate<T>(rows: seq<T>, page: Option<int>, perParam: Option<int>): (r: Option<Page<T>>)
    ensures r.None? <==> PerPage(perParam) == 0
    ensures r.Some? ==> r.value.meta.totalCount == |rows|
    ensures r.Some? ==> r.value.meta.currentPage == PageIndex(page) + 1
    ensures r.Some? ==> |r.value.items| <= PerPage(perParam)
    ensures r.Some? ==> r.value.meta.totalPages * PerPage(perParam) >= |rows|
    ensures r.Some? && r.value.meta.totalPages > 0 ==>
              (r.value.meta.totalPages - 1) * PerPage(perParam) < |rows|
    ensures r.Some? ==> forall i :: 0 <= i < |r.value.items| ==>
              PageIndex(page) * PerPage(perParam) + i < |rows| &&
              r.value.items[i] == rows[PageIndex(page) * PerPage(perParam) + i]
    ensures r.Some? ==> r.value.items == Slice(rows, PageIndex(page), PerPage(perParam))
  {
    var per := PerPage(perParam);
    if per == 0 then None
    else
      var k := PageIndex(page);
      var items := Slice(rows, k, per);
      assert forall i :: 0 <= i < |items| ==> k * per + i < |rows| && items[i] == rows[k * per + i];
      Some(Page(items, Meta(k + 1, CeilDiv(|rows|, per), |rows|)))
  }

  /** The first `c` pages, one after the other. */
  function Pages<T>(rows: seq<T>, per: nat, c: nat): seq<T> {
    if c == 0 then [] else Pages(rows, per, c - 1) + Slice(rows, c - 1, per)
  }

  /** The first `c` pages are exactly the first `c * per` rows. */
  lemma {:induction false} PagesArePrefix<T>(rows: seq<T>, per: nat, c: nat)
    requires per > 0
    ensures Pages(rows, per, c) == rows[..Min(c * per, |rows|)]
  {
    if c > 0 {
      PagesArePrefix(rows, per, c - 1);
      assert (c - 1) * per + per == c * per;
      var lo := Min((c - 1) * per, |rows|);
      assert Slice(rows, c - 1, per) == rows[lo..Min(lo + per, |rows|)];
      assert Min(lo + per, |rows|) == Min(c * per, |rows|);
      assert rows[..lo] + rows[lo..Min(c * per, |rows|)] == rows[..Min(c * per, |rows|)];
    }
  }

  /** Reading pages 1 to `total_pages` in turn returns every row once, in order. */
  lemma AllPagesAreRows<T>(rows: seq<T>, per: nat)
    requires per > 0
    ensures Pages(rows, per, CeilDiv(|rows|, per)) == rows
  {
    PagesArePrefix(rows, per, CeilDiv(|rows|, per));
  }

  lemma MulLess(a: nat, b: nat, d: nat)
    requires a * d < b * d
    ensures a < b
  {
  }

  lemma MulAtLeast(a: nat, b: nat, d: nat)
    requires a <= b
    ensures a * d <= b * d
  {
  }

  /** Euclidean division has one quotient and one remainder. */
  lemma DivMod(n: nat, per: nat, k: nat, r: nat)
    requires per > 0 && r < per && n == k * per + r
    ensures n / per == k && n % per == r
  {
    var m, rem := n / per, n % per;
    assert n == m * per + rem;
    assert (k + 1) * per == k * per + per;
    assert (m + 1) * per == m * per + per;
    MulLess(m, k + 1, per);
    MulLess(k, m + 1, per);
  }

  /** For `n` rows, the last page holds `n % per` rows, or `per` when `per`
      divides `n`. */
  lemma LastPage<T>(rows: seq<T>, per: nat)
    requires per > 0 && |rows| > 0
    ensures |Slice(rows, CeilDiv(|rows|, per) - 1, per)| ==
              (if |rows| % per == 0 then per else |rows| % per)
  {
    var n, k := |rows|, CeilDiv(|rows|, per) - 1;
    assert (k + 1) * per == k * per + per;
    assert k * per < n <= k * per + per;
    if n == k * per + per {
      DivMod(n, per, k + 1, 0);
    } else {
      DivMod(n, per, k, n - k * per);
    }
  }

  /** Every page past `total_pages` is empty. */
  lemma PastLastPage<T>(rows: seq<T>, per: nat, k: nat)
    requires per > 0 && k >= CeilDiv(|rows|, per)
    ensures Slice(rows, k, per) == []
  {
    MulAtLeast(CeilDiv(|rows|, per), k, per);
  }
}
