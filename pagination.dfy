/**
 * The paginated listing walks: request page 1, append its links, and request
 * the next page while a continuation test on the page just read holds.
 *
 * Two tests occur: the Lodestone listings continue while `show_end < total`
 * (fetch_recipe_links_range, fetch_item_links_range), the XIVDB searches
 * while `page < total`, `total` being the page count (fetch_item_urls,
 * fetch_food_urls). The server is an oracle: entry `k` is what reading page
 * `k + 1` yields, or None when that read raised (the exception ends the
 * walk). An oracle that runs out leaves the walk unfinished.
 */
module Pagination {
  import opened Wrappers
  import opened Seqs

  /** One parsed Lodestone listing page: its links, `show_end` and `total`. */
  datatype LinkPage = LinkPage(links: seq<string>, showEnd: int, total: int)

  /** One parsed XIVDB search page: its item URLs and the page count. */
  datatype CountPage = CountPage(urls: seq<string>, total: int)

  /** `show_end < total`: more items remain after this page. */
  predicate MoreItems(p: LinkPage, page: nat) {
    p.showEnd < p.total
  }

  /** `page < total`: this is not the last page. */
  predicate MorePages(p: CountPage, page: nat) {
    page < p.total
  }

  datatype WalkStatus = Complete | Aborted | Unfinished

  /** Page numbers 1, 2, ..., n. */
  function PageNumbers(n: nat): (r: seq<nat>)
    ensures |r| == n && forall i :: 0 <= i < n ==> r[i] == i + 1
  {
    seq(n, i requires 0 <= i => i + 1)
  }

  /** The links of the first `k` pages of the oracle, in page order. */
  function LinksOfFirst<P>(oracle: seq<Option<P>>, linksOf: P -> seq<string>, k: nat): seq<string>
    requires k <= |oracle| && forall i :: 0 <= i < k ==> oracle[i].Some?
  {
    Flatten(seq(k, i requires 0 <= i < k => linksOf(oracle[i].value)))
  }

  /**
   * What a walk that requested `requested` pages and ended with `status`
   * must have seen: every page before the last one read was there and
   * asked to continue; the last one ended the walk (Complete: its test
   * failed; Aborted: it raised), or the oracle ran out (Unfinished); the
   * links are those of every page read, in page order.
   */
  predicate WalkResult<P>(oracle: seq<Option<P>>, linksOf: P -> seq<string>, more: (P, nat) -> bool,
                          status: WalkStatus, links: seq<string>, requested: seq<nat>)
  {
    var n := |requested|;
    var read := if status == Aborted then n - 1 else n;
    && n <= |oracle|
    && requested == PageNumbers(n)
    && (forall j :: 0 <= j < read ==> oracle[j].Some?)
    && (forall j :: 0 <= j < n - 1 ==> oracle[j].Some? && more(oracle[j].value, j + 1))
    && (status == Complete ==> n > 0 && oracle[n - 1].Some? && !more(oracle[n - 1].value, n))
    && (status == Aborted ==> n > 0 && oracle[n - 1].None?)
    && (status == Unfinished ==> n == |oracle| && (n == 0 || (oracle[n - 1].Some? && more(oracle[n - 1].value, n))))
    && read >= 0
    && links == LinksOfFirst(oracle, linksOf, read)
  }

  /** A walk ends in an exception exactly when the last page it requested could not be read. */
  lemma WalkAborted<P>(oracle: seq<Option<P>>, linksOf: P -> seq<string>, more: (P, nat) -> bool,
                       status: WalkStatus, links: seq<string>, requested: seq<nat>)
    requires WalkResult(oracle, linksOf, more, status, links, requested)
    ensures |requested| <= |oracle|
    ensures status == Aborted <==> 0 < |requested| && oracle[|requested| - 1].None?
  {
  }

  lemma LinksOfFirstSnoc<P>(oracle: seq<Option<P>>, linksOf: P -> seq<string>, k: nat)
    requires k < |oracle| && forall i :: 0 <= i <= k ==> oracle[i].Some?
    ensures LinksOfFirst(oracle, linksOf, k + 1) == LinksOfFirst(oracle, linksOf, k) + linksOf(oracle[k].value)
  {
    var s := seq(k + 1, i requires 0 <= i < k + 1 => linksOf(oracle[i].value));
    assert s[..k] == seq(k, i requires 0 <= i < k => linksOf(oracle[i].value));
  }

  /** The `while True` page loop, with the continuation test `more`. */
  method Walk<P>(oracle: seq<Option<P>>, linksOf: P -> seq<string>, more: (P, nat) -> bool)
      returns (status: WalkStatus, links: seq<string>, requested: seq<nat>)
    ensures WalkResult(oracle, linksOf, more, status, links, requested)
  {
    links := [];
    requested := [];
    var page: nat := 1;
    while true
      invariant page == |requested| + 1 <= |oracle| + 1
      invariant requested == PageNumbers(page - 1)
      invariant forall j :: 0 <= j < page - 1 ==> oracle[j].Some? && more(oracle[j].value, j + 1)
      invariant links == LinksOfFirst(oracle, linksOf, page - 1)
      decreases |oracle| - page
    {
      if page > |oracle| {
        return Unfinished, links, requested;
      }
      requested := requested + [page];
      var got := oracle[page - 1];
      if got.None? {
        return Aborted, links, requested;
      }
      LinksOfFirstSnoc(oracle, linksOf, page - 1);
      links := links + linksOf(got.value);
      if more(got.value, page) {
        page := page + 1;
      } else {
        return Complete, links, requested;
      }
    }
  }

  /** A walk's outcome is determined by the oracle: two results of the same walk agree. */
  lemma WalkResultUnique<P>(oracle: seq<Option<P>>, linksOf: P -> seq<string>, more: (P, nat) -> bool,
                            s1: WalkStatus, l1: seq<string>, r1: seq<nat>,
                            s2: WalkStatus, l2: seq<string>, r2: seq<nat>)
    requires WalkResult(oracle, linksOf, more, s1, l1, r1)
    requires WalkResult(oracle, linksOf, more, s2, l2, r2)
    ensures s1 == s2 && l1 == l2 && r1 == r2
  {
    var n1, n2 := |r1|, |r2|;
    if n1 < n2 {
      assert false;
    } else if n2 < n1 {
      assert false;
    }
  }

  /**
   * With `page < total` and every page reporting the same page count `N`,
   * exactly max(1, N) pages are read: at least one page is always fetched
   * and page N is the last.
   */
  lemma PageCountWalkReadsTotal(oracle: seq<Option<CountPage>>, n: int,
                                status: WalkStatus, links: seq<string>, requested: seq<nat>)
    requires forall j :: 0 <= j < |oracle| ==> oracle[j].Some? && oracle[j].value.total == n
    requires |oracle| >= n && |oracle| >= 1
    requires WalkResult(oracle, (p: CountPage) => p.urls, MorePages, status, links, requested)
    ensures status == Complete
    ensures |requested| == if n <= 1 then 1 else n
  {
    var k := |requested|;
    if status == Unfinished {
      assert false;
    }
    if k >= 2 {
      assert MorePages(oracle[k - 2].value, k - 1);
    }
  }

  /**
   * A Lodestone listing of `t` items shown `per` to a page, where page `k`
   * reports `show_end = min(k * per, t)`, is read up to the first page that
   * shows the last item, and no further.
   */
  lemma ShowEndWalkReadsUntilLastItem(oracle: seq<Option<LinkPage>>, per: nat, t: int,
                                      status: WalkStatus, links: seq<string>, requested: seq<nat>)
    requires per > 0
    requires forall j :: 0 <= j < |oracle| ==>
      && oracle[j].Some? && oracle[j].value.total == t
      && oracle[j].value.showEnd == (if (j + 1) * per < t then (j + 1) * per else t)
    requires |oracle| * per >= t && |oracle| >= 1
    requires WalkResult(oracle, (p: LinkPage) => p.links, MoreItems, status, links, requested)
    ensures status == Complete
    ensures var k := |requested|; k >= 1 && t <= k * per && (k == 1 || (k - 1) * per < t)
  {
    var k := |requested|;
    if status == Unfinished {
      assert false;
    }
    if k >= 2 {
      assert MoreItems(oracle[k - 2].value, k - 1);
    }
  }
}
