/** Django's `Paginator(objects, 10)` as the exporter, the live list view and
    the JSON list API use it: page count, the slice of each page, page
    metadata and the lenient `get_page` that never fails. */
module Pagination {
  import opened Common

  const PageSize: nat := 10

  /** `Paginator.num_pages` with the default `allow_empty_first_page`:
      ceil(count / 10), but at least one page even for no objects. */
  function NumPages(count: nat): (n: nat)
    ensures 1 <= n
    ensures count == 0 ==> n == 1
    ensures 0 < count ==> (n - 1) * PageSize < count <= n * PageSize
  {
    if count == 0 then 1 else (count + PageSize - 1) / PageSize
  }

  /** Index of the first object on page `k`. */
  function Bottom(k: nat): nat
    requires 1 <= k
  {
    (k - 1) * PageSize
  }

  /** One past the index of the last object on page `k` (no orphans). */
  function Top(k: nat, count: nat): nat
    requires 1 <= k
  {
    if k * PageSize < count then k * PageSize else count
  }

  lemma BottomWithinCount(k: nat, count: nat)
    requires 1 <= k <= NumPages(count)
    ensures Bottom(k) <= Top(k, count) <= count
    ensures count == 0 || Bottom(k) < count
  {
    var n := NumPages(count);
    if 0 < count {
      assert (k - 1) * PageSize <= (n - 1) * PageSize;
    }
  }

  /** `paginator.page(k).object_list`: the objects of page `k`. */
  function PageItems<T>(xs: seq<T>, k: nat): (r: seq<T>)
    requires 1 <= k <= NumPages(|xs|)
    ensures |r| <= PageSize
    ensures k < NumPages(|xs|) ==> |r| == PageSize
    ensures 0 < |xs| ==> 0 < |r|
    ensures Bottom(k) + |r| <= |xs|
    ensures forall i :: 0 <= i < |r| ==> r[i] == xs[Bottom(k) + i]
  {
    BottomWithinCount(k, |xs|);
    assert k < NumPages(|xs|) ==> k * PageSize <= (NumPages(|xs|) - 1) * PageSize;
    xs[Bottom(k)..Top(k, |xs|)]
  }

  /** Pages 1..k laid end to end. */
  function PagesUpTo<T>(xs: seq<T>, k: nat): seq<T>
    requires k <= NumPages(|xs|)
  {
    if k == 0 then [] else PagesUpTo(xs, k - 1) + PageItems(xs, k)
  }

  lemma {:induction false} PagesUpToIsPrefix<T>(xs: seq<T>, k: nat)
    requires k <= NumPages(|xs|)
    ensures PagesUpTo(xs, k) == xs[..if k * PageSize < |xs| then k * PageSize else |xs|]
  {
    if k > 0 {
      PagesUpToIsPrefix(xs, k - 1);
      BottomWithinCount(k, |xs|);
      var before := if (k - 1) * PageSize < |xs| then (k - 1) * PageSize else |xs|;
      assert before == Bottom(k) by {
        if |xs| > 0 {
          assert (k - 1) * PageSize <= (NumPages(|xs|) - 1) * PageSize;
        }
      }
      assert xs[..Top(k, |xs|)] == xs[..Bottom(k)] + xs[Bottom(k)..Top(k, |xs|)];
    }
  }

  /** The pages partition the objects contiguously: laid end to end, pages
      1..NumPages give back exactly the whole sequence, in order. */
  lemma PagesPartition<T>(xs: seq<T>)
    ensures PagesUpTo(xs, NumPages(|xs|)) == xs
  {
    PagesUpToIsPrefix(xs, NumPages(|xs|));
  }

  /** Object `i` is on page i/10 + 1, at position i % 10. */
  lemma ObjectPage<T>(xs: seq<T>, i: nat)
    requires i < |xs|
    ensures 1 <= i / PageSize + 1 <= NumPages(|xs|)
    ensures var r := PageItems(xs, i / PageSize + 1); i % PageSize < |r| && r[i % PageSize] == xs[i]
  {
    var k := i / PageSize + 1;
    var n := NumPages(|xs|);
    assert k <= n;
    assert Bottom(k) + i % PageSize == i;
  }

  /*** Page metadata ***/

  /** What `page_obj` reports: `number`, `paginator.num_pages`, `has_next()`,
      `has_previous()` and `paginator.count`. */
  datatype PageMeta = PageMeta(number: nat, numPages: nat, hasNext: bool, hasPrevious: bool, count: nat)

  datatype Page<T> = Page(items: seq<T>, meta: PageMeta)

  /** `paginator.page(k)`. A page has a next page exactly when objects remain
      after it, and a previous page exactly when objects come before it. */
  function GetPage<T>(xs: seq<T>, k: nat): (p: Page<T>)
    requires 1 <= k <= NumPages(|xs|)
    ensures p.items == PageItems(xs, k)
    ensures p.meta.number == k && p.meta.count == |xs| && p.meta.numPages == NumPages(|xs|)
    ensures p.meta.hasNext <==> k * PageSize < |xs|
    ensures p.meta.hasPrevious <==> 0 < Bottom(k)
  {
    var n := NumPages(|xs|);
    assert k < n ==> k * PageSize <= (n - 1) * PageSize;
    Page(PageItems(xs, k), PageMeta(k, n, k < n, k > 1, |xs|))
  }

  /*** The page the request asks for ***/

  /** The `page` argument: absent, the raw query-string text (live view), or
      an integer already converted by the caller (JSON API). */
  datatype PageArg = NoPageArg | PageText(text: string) | PageNumber(n: int)

  /** The integer `int(number)` makes of the argument, if any. */
  function ArgValue(arg: PageArg): Option<int> {
    match arg
    case NoPageArg => None
    case PageText(s) => ParseInt(s)
    case PageNumber(n) => Some(n)
  }

  /** `Paginator.get_page`: a non-integer argument gives page 1, an integer
      outside 1..num_pages gives the last page, any other integer its page. */
  function GetPageNumber(arg: PageArg, count: nat): (k: nat)
    ensures 1 <= k <= NumPages(count)
    ensures ArgValue(arg).None? ==> k == 1
    ensures ArgValue(arg).Some? && 1 <= ArgValue(arg).value <= NumPages(count) ==> k == ArgValue(arg).value
    ensures ArgValue(arg).Some? && !(1 <= ArgValue(arg).value <= NumPages(count)) ==> k == NumPages(count)
  {
    match ArgValue(arg)
    case None => 1
    case Some(i) => if 1 <= i <= NumPages(count) then i else NumPages(count)
  }
  /** The text of a query argument denotes what `int()` makes of it. */
  lemma TextValue(text: string)
    ensures ArgValue(PageText(text)) == ParseInt(text)
  {
  }

  /** The page chosen depends only on the integer the argument denotes. */
  lemma SameValueSamePage(a: PageArg, b: PageArg, count: nat)
    requires ArgValue(a) == ArgValue(b)
    ensures GetPageNumber(a, count) == GetPageNumber(b, count)
  {
  }

}
