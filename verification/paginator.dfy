/** The `Paginator` class: a window of `perPage` items over a sequence, with a
    1-based current page clamped into `[1, totalPages]`. */
module Pagination {
  import opened JsValues

  /** `perPage` after the constructor's `Math.max(1, perPage)`. */
  type PageSize = n: int | n >= 1 witness 1

  datatype Paginator<T> = Paginator(data: seq<T>, perPage: PageSize, page: int, totalPages: int)

  /** `Math.ceil(len / perPage)` for a positive divisor. */
  function CeilDiv(len: nat, perPage: PageSize): nat
  {
    (len + perPage - 1) / perPage
  }

  /** `Math.max(1, Math.ceil(len / perPage))`. */
  function PageCount(len: nat, perPage: PageSize): (n: int)
  {
    if CeilDiv(len, perPage) < 1 then 1 else CeilDiv(len, perPage)
  }

  /** The class invariant every public operation establishes or keeps. */
  ghost predicate Valid<T>(p: Paginator<T>) {
    && p.totalPages == PageCount(|p.data|, p.perPage)
    && 1 <= p.page <= p.totalPages
  }

  /** `constructor(data, perPage)`: clamps `perPage` then resets. A `None`
      argument stands for a value that is not an array. */
  function New<T>(data: Option<seq<T>>, perPage: int): (p: Paginator<T>)
    ensures p.perPage >= 1
    ensures perPage >= 1 ==> p.perPage == perPage
    ensures perPage < 1 ==> p.perPage == 1
    ensures p.page == 1 && p.data == (if data.Some? then data.value else [])
    ensures Valid(p)
  {
    Reset(Paginator([], if perPage < 1 then 1 else perPage, 1, 1), data)
  }

  /** `reset(data)`: `Array.isArray(data) ? data : []`, page 1, recomputed page count. */
  function Reset<T>(p: Paginator<T>, data: Option<seq<T>>): (q: Paginator<T>)
    ensures q.page == 1
    ensures q.perPage == p.perPage
    ensures q.data == (if data.Some? then data.value else [])
    ensures q.totalPages >= 1
    ensures q.totalPages * q.perPage >= |q.data|
    ensures q.totalPages > 1 ==> (q.totalPages - 1) * q.perPage < |q.data|
    ensures Valid(q)
  {
    var items := if data.Some? then data.value else [];
    PageCountBounds(|items|, p.perPage);
    Paginator(items, p.perPage, 1, PageCount(|items|, p.perPage))
  }

  /** `Math.max(1, ceil(len / perPage))` is the least positive page count whose
      pages hold every item. */
  lemma PageCountBounds(len: nat, perPage: PageSize)
    ensures PageCount(len, perPage) >= 1
    ensures PageCount(len, perPage) * perPage >= len
    ensures PageCount(len, perPage) > 1 ==> (PageCount(len, perPage) - 1) * perPage < len
  {
    var c := CeilDiv(len, perPage);
    var r := (len + perPage - 1) % perPage;
    assert len + perPage - 1 == c * perPage + r;
    if c > 1 {
      assert (c - 1) * perPage == c * perPage - perPage;
    }
  }

  /** The `slice` getter: `data.slice(start, start + perPage)` with
      `start = (page - 1) * perPage`. */
  function Slice<T>(p: Paginator<T>): (s: seq<T>)
    ensures |s| <= p.perPage
  {
    var start := (p.page - 1) * p.perPage;
    JsSlice(p.data, start, start + p.perPage)
  }

  /** `next()`: one page forward unless already on the last page. */
  function Next<T>(p: Paginator<T>): (q: Paginator<T>)
    ensures p.page < p.totalPages ==> q == p.(page := p.page + 1)
    ensures p.page >= p.totalPages ==> q == p
  {
    if p.page < p.totalPages then p.(page := p.page + 1) else p
  }

  /** `prev()`: one page back unless already on page 1. */
  function Prev<T>(p: Paginator<T>): (q: Paginator<T>)
    ensures p.page > 1 ==> q == p.(page := p.page - 1)
    ensures p.page <= 1 ==> q == p
  {
    if p.page > 1 then p.(page := p.page - 1) else p
  }

  /** `goTo(n)`: `Math.min(Math.max(1, n), totalPages)`. */
  function GoTo<T>(p: Paginator<T>, n: int): (q: Paginator<T>)
    ensures q.data == p.data && q.perPage == p.perPage && q.totalPages == p.totalPages
    ensures Valid(p) && 1 <= n <= p.totalPages ==> q.page == n
    ensures Valid(p) && n < 1 ==> q.page == 1
    ensures Valid(p) && n > p.totalPages ==> q.page == p.totalPages
  {
    var lower := if n < 1 then 1 else n;
    p.(page := if lower < p.totalPages then lower else p.totalPages)
  }

  predicate IsFirstPage<T>(p: Paginator<T>) {
    p.page == 1
  }

  predicate IsLastPage<T>(p: Paginator<T>) {
    p.page == p.totalPages
  }

  /** The window of the current page in closed form: `[start, start + perPage)`
      clipped to the data; at most `perPage` long, empty only for empty data. */
  lemma SliceWindow<T>(p: Paginator<T>)
    requires Valid(p)
    ensures var start := (p.page - 1) * p.perPage;
            var lo := if start < |p.data| then start else |p.data|;
            var hi := if start + p.perPage < |p.data| then start + p.perPage else |p.data|;
            0 <= start && Slice(p) == p.data[lo..hi]
    ensures |Slice(p)| <= p.perPage
    ensures Slice(p) == [] <==> p.data == []
  {
    SliceClosed(p);
    if p.data != [] {
      StartInRange(p);
    }
  }

  /** From page 1 on, the slice is the clipped window of the page. */
  lemma SliceClosed<T>(p: Paginator<T>)
    requires p.page >= 1
    ensures var start := (p.page - 1) * p.perPage;
            var lo := if start < |p.data| then start else |p.data|;
            var hi := if start + p.perPage < |p.data| then start + p.perPage else |p.data|;
            && 0 <= start
            && Slice(p) == p.data[lo..hi]
            && (start < |p.data| ==> lo < hi)
  {
    var start := (p.page - 1) * p.perPage;
    MulMonotone(0, p.page - 1, p.perPage);
    WindowOf(p.data, start, p.perPage);
  }

  /** `data.slice(start, start + n)` for a non-negative start, clipped to the data. */
  lemma WindowOf<T>(data: seq<T>, start: int, n: PageSize)
    requires 0 <= start
    ensures var lo := if start < |data| then start else |data|;
            var hi := if start + n < |data| then start + n else |data|;
            && JsSlice(data, start, start + n) == data[lo..hi]
            && (start < |data| ==> lo < hi)
  {
  }

  /** On a valid paginator over non-empty data, the current page starts inside the data. */
  lemma StartInRange<T>(p: Paginator<T>)
    requires Valid(p) && p.data != []
    ensures (p.page - 1) * p.perPage < |p.data|
  {
    PageCountBounds(|p.data|, p.perPage);
    var k := p.page - 1;
    if p.totalPages > 1 {
      assert k <= p.totalPages - 1;
      MulMonotone(k, p.totalPages - 1, p.perPage);
    } else {
      assert k == 0;
    }
  }

  lemma MulMonotone(a: nat, b: nat, c: nat)
    requires a <= b
    ensures a * c <= b * c
  {
  }

  /** `next`, `prev` and `goTo` keep the invariant and touch only `page`. */
  lemma NavigationPreservesValid<T>(p: Paginator<T>, n: int)
    requires Valid(p)
    ensures Valid(Next(p)) && Valid(Prev(p)) && Valid(GoTo(p, n))
    ensures Next(p).data == p.data && Next(p).totalPages == p.totalPages && Next(p).perPage == p.perPage
    ensures Prev(p).data == p.data && Prev(p).totalPages == p.totalPages && Prev(p).perPage == p.perPage
    ensures GoTo(p, n).data == p.data && GoTo(p, n).totalPages == p.totalPages
  {
  }

  /** The two predicates hold together exactly on a single-page paginator. */
  lemma FirstAndLast<T>(p: Paginator<T>)
    requires Valid(p)
    ensures IsFirstPage(p) && IsLastPage(p) <==> p.totalPages == 1
    ensures IsLastPage(p) <==> Next(p) == p
    ensures IsFirstPage(p) <==> Prev(p) == p
  {
  }

  /** The slice shown on page `k`. */
  function PageSlice<T>(p: Paginator<T>, k: int): seq<T>
  {
    Slice(p.(page := k))
  }

  /** Pages `k .. totalPages` joined in order. */
  function PagesFrom<T>(p: Paginator<T>, k: int): seq<T>
    decreases p.totalPages - k
  {
    if k > p.totalPages || k < 1 then [] else PageSlice(p, k) + PagesFrom(p, k + 1)
  }

  /** Reading every page in order gives back the data, in order: pagination
      neither drops, repeats nor reorders items. */
  lemma {:induction false} PagesCoverData<T>(p: Paginator<T>)
    requires Valid(p)
    ensures PagesFrom(p, 1) == p.data
  {
    PagesFromSuffix(p, 1);
  }

  /** First index of page `k`. */
  function PageStart(k: int, perPage: PageSize): int
  {
    (k - 1) * perPage
  }

  lemma PageStartStep(k: int, perPage: PageSize)
    ensures PageStart(k + 1, perPage) == PageStart(k, perPage) + perPage
  {
    assert k * perPage == (k - 1) * perPage + perPage;
  }

  /** Where pages `k` and `k + 1` start, relative to the data. */
  lemma PageStartBounds<T>(p: Paginator<T>, k: int)
    requires p.totalPages == PageCount(|p.data|, p.perPage)
    requires 1 <= k <= p.totalPages
    ensures 0 <= PageStart(k, p.perPage) <= |p.data|
    ensures k < p.totalPages ==> PageStart(k + 1, p.perPage) <= |p.data|
    ensures k == p.totalPages ==> PageStart(k + 1, p.perPage) >= |p.data|
  {
    PageCountBounds(|p.data|, p.perPage);
    PageStartStep(k, p.perPage);
    MulMonotone(0, k - 1, p.perPage);
    if p.data != [] {
      StartInRange(p.(page := k));
      if k < p.totalPages {
        StartInRange(p.(page := k + 1));
      }
    }
  }

  /** Page `k` of a well-formed paginator in closed form. */
  lemma PageSliceAt<T>(p: Paginator<T>, k: int)
    requires p.totalPages == PageCount(|p.data|, p.perPage)
    requires 1 <= k <= p.totalPages
    ensures 0 <= PageStart(k, p.perPage) <= |p.data|
    ensures PageStart(k + 1, p.perPage) == PageStart(k, p.perPage) + p.perPage
    ensures k < p.totalPages ==> PageStart(k + 1, p.perPage) <= |p.data|
    ensures k == p.totalPages ==> PageStart(k + 1, p.perPage) >= |p.data|
    ensures var hi := PageStart(k + 1, p.perPage);
            PageSlice(p, k) == p.data[PageStart(k, p.perPage)..if hi < |p.data| then hi else |p.data|]
  {
    PageStartBounds(p, k);
    PageStartStep(k, p.perPage);
    var q := p.(page := k);
    assert Valid(q);
    SliceWindow(q);
  }

  lemma {:induction false} PagesFromSuffix<T>(p: Paginator<T>, k: int)
    requires p.totalPages == PageCount(|p.data|, p.perPage)
    requires 1 <= k <= p.totalPages
    ensures 0 <= PageStart(k, p.perPage) <= |p.data|
    ensures PagesFrom(p, k) == p.data[PageStart(k, p.perPage)..]
    decreases p.totalPages - k
  {
    PageSliceAt(p, k);
    var a := PageStart(k, p.perPage);
    var b := PageStart(k + 1, p.perPage);
    assert PagesFrom(p, k) == PageSlice(p, k) + PagesFrom(p, k + 1);
    if k == p.totalPages {
      assert PagesFrom(p, k + 1) == [];
    } else {
      PagesFromSuffix(p, k + 1);
      SplitSuffix(p.data, a, b);
    }
  }

  lemma SplitSuffix<T>(s: seq<T>, a: int, b: int)
    requires 0 <= a <= b <= |s|
    ensures s[a..] == s[a..b] + s[b..]
  {
  }
}
