/**
 * The XIVDB JSON-API scrapers for buffs (food and medicine): the attribute
 * mapping of one item into an NQ and an HQ record, the requests retried
 * until their JSON parses, the `page < total` URL walk, and the final
 * descending sort. The food-only variant is the same program except that
 * its search-page request is tried once.
 */
module Xivdb {
  import opened Wrappers
  import opened Text
  import opened Seqs
  import opened Ordering
  import opened Bonuses
  import opened Pagination

  /** One entry of `attributes_params`. */
  datatype AttributeParam = AttributeParam(id: int, value: int, percent: int, valueHq: int, percentHq: int)

  /** The fields of an item's JSON that fetch_item reads. */
  datatype ItemData = ItemData(nameEn: string, levelItem: int, attributes: seq<AttributeParam>)

  /** A record of the output: `name`, `hq`, `ilvl` and the bonus keys set on it. */
  datatype Buff = Buff(name: string, hq: bool, ilvl: int, bonuses: Bonuses)

  const CraftsmanshipId: int := 70
  const ControlId: int := 71
  const CpId: int := 11

  /** The pair an attribute entry gives the NQ record (`value`, `percent`) or the HQ one (`value_hq`, `percent_hq`). */
  function PairOf(a: AttributeParam, hq: bool): Bonus {
    if hq then Bonus(a.percentHq, a.valueHq) else Bonus(a.percent, a.value)
  }

  /** One pass of the loop body: the three `if attr["id"] == ...` tests in turn. */
  function ApplyAttribute(b: Bonuses, a: AttributeParam, hq: bool): Bonuses {
    var b1 := if a.id == CraftsmanshipId then b.(craftsmanship := Some(PairOf(a, hq))) else b;
    var b2 := if a.id == ControlId then b1.(control := Some(PairOf(a, hq))) else b1;
    if a.id == CpId then b2.(cp := Some(PairOf(a, hq))) else b2
  }

  /** The bonuses of one record after the loop over `attributes_params`. */
  function Mapped(attrs: seq<AttributeParam>, hq: bool): (b: Bonuses)
    ensures (forall i :: 0 <= i < |attrs| ==> attrs[i].id !in {CraftsmanshipId, ControlId, CpId}) ==> b == NoBonuses
  {
    if attrs == [] then NoBonuses
    else
      var n := |attrs| - 1;
      ApplyAttribute(Mapped(attrs[..n], hq), attrs[n], hq)
  }

  /** The pair of the record kept for attribute id `id`. */
  function StatOf(b: Bonuses, id: int): Option<Bonus>
    requires id in {CraftsmanshipId, ControlId, CpId}
  {
    if id == CraftsmanshipId then b.craftsmanship else if id == ControlId then b.control else b.cp
  }

  /**
   * Ids 70, 71 and 11 set craftsmanship, control and CP: a record has a
   * pair exactly when an entry with that id occurs, and the pair is the
   * one of the last such entry.
   */
  lemma {:induction false} MappedSpec(attrs: seq<AttributeParam>, hq: bool, id: int)
    requires id in {CraftsmanshipId, ControlId, CpId}
    ensures StatOf(Mapped(attrs, hq), id).Some? <==> exists i :: 0 <= i < |attrs| && attrs[i].id == id
    ensures StatOf(Mapped(attrs, hq), id).Some? ==>
      exists i :: 0 <= i < |attrs| && attrs[i].id == id && StatOf(Mapped(attrs, hq), id) == Some(PairOf(attrs[i], hq))
        && forall j :: i < j < |attrs| ==> attrs[j].id != id
  {
    if attrs != [] {
      var n := |attrs| - 1;
      var init := attrs[..n];
      MappedSpec(init, hq, id);
      assert forall i :: 0 <= i < n ==> init[i] == attrs[i];
      if attrs[n].id != id {
        assert StatOf(Mapped(attrs, hq), id) == StatOf(Mapped(init, hq), id);
        if StatOf(Mapped(attrs, hq), id).Some? {
          var i :| 0 <= i < n && init[i].id == id && StatOf(Mapped(init, hq), id) == Some(PairOf(init[i], hq))
            && forall j :: i < j < n ==> init[j].id != id;
          assert attrs[i].id == id && forall j :: i < j < |attrs| ==> attrs[j].id != id;
        }
      }
    }
  }

  /** An entry with any other id leaves both records as they were. */
  lemma OtherIdsIgnored(attrs: seq<AttributeParam>, a: AttributeParam, hq: bool)
    requires a.id !in {CraftsmanshipId, ControlId, CpId}
    ensures Mapped(attrs + [a], hq) == Mapped(attrs, hq)
  {
    assert (attrs + [a])[..|attrs|] == attrs;
  }

  /**
   * fetch_item: the NQ and HQ records share `name_en` and `level_item`, and
   * each entry of `attributes_params` sets its pair on both.
   */
  method FetchItem(data: ItemData) returns (records: seq<Buff>)
    ensures records == [Buff(data.nameEn, false, data.levelItem, Mapped(data.attributes, false)),
                        Buff(data.nameEn, true, data.levelItem, Mapped(data.attributes, true))]
  {
    var food := Buff(data.nameEn, false, data.levelItem, NoBonuses);
    var foodHq := Buff(data.nameEn, true, data.levelItem, NoBonuses);
    var attrs := data.attributes;
    for i := 0 to |attrs|
      invariant food == Buff(data.nameEn, false, data.levelItem, Mapped(attrs[..i], false))
      invariant foodHq == Buff(data.nameEn, true, data.levelItem, Mapped(attrs[..i], true))
    {
      var attr := attrs[i];
      assert attrs[..i + 1][..i] == attrs[..i];
      if attr.id == CraftsmanshipId {
        food := food.(bonuses := food.bonuses.(craftsmanship := Some(Bonus(attr.percent, attr.value))));
        foodHq := foodHq.(bonuses := foodHq.bonuses.(craftsmanship := Some(Bonus(attr.percentHq, attr.valueHq))));
      }
      if attr.id == ControlId {
        food := food.(bonuses := food.bonuses.(control := Some(Bonus(attr.percent, attr.value))));
        foodHq := foodHq.(bonuses := foodHq.bonuses.(control := Some(Bonus(attr.percentHq, attr.valueHq))));
      }
      if attr.id == CpId {
        food := food.(bonuses := food.bonuses.(cp := Some(Bonus(attr.percent, attr.value))));
        foodHq := foodHq.(bonuses := foodHq.bonuses.(cp := Some(Bonus(attr.percentHq, attr.valueHq))));
      }
    }
    assert attrs[..|attrs|] == attrs;
    records := [food, foodHq];
  }

  /** Where a `while True` retry loop stands after the attempts seen so far. */
  datatype RetryOutcome<D> = Parsed(data: D, used: nat) | StillRetrying

  /**
   * fetch_page / fetch_item_links_page: each attempt either yields parsed
   * JSON or raises (a failed request or `json.loads`), and a raise is
   * retried with no limit. `attempts` are the outcomes of successive tries.
   */
  function Retried<D>(attempts: seq<Option<D>>): (r: RetryOutcome<D>)
    ensures r.StillRetrying? <==> forall j :: 0 <= j < |attempts| ==> attempts[j].None?
    ensures r.Parsed? ==>
      && 1 <= r.used <= |attempts| && attempts[r.used - 1] == Some(r.data)
      && forall j :: 0 <= j < r.used - 1 ==> attempts[j].None?
  {
    if attempts == [] then StillRetrying
    else if attempts[0].Some? then Parsed(attempts[0].value, 1)
    else
      assert forall j :: 1 <= j < |attempts| ==> attempts[j] == attempts[1..][j - 1];
      match Retried(attempts[1..])
      case Parsed(d, k) => Parsed(d, k + 1)
      case StillRetrying => StillRetrying
  }

  /** `n` failed attempts. */
  function Failures<D>(n: nat): (r: seq<Option<D>>)
    ensures |r| == n && forall j :: 0 <= j < n ==> r[j].None?
  {
    seq(n, j => None)
  }

  /** There is no retry limit: any number of failures is followed by the first success. */
  lemma {:induction false} NoRetryLimit<D>(n: nat, d: D, rest: seq<Option<D>>)
    ensures Retried(Failures<D>(n) + [Some(d)] + rest) == Parsed(d, n + 1)
  {
    var s := Failures<D>(n) + [Some(d)] + rest;
    if n > 0 {
      assert s[1..] == Failures<D>(n - 1) + [Some(d)] + rest;
      NoRetryLimit(n - 1, d, rest);
    } else {
      assert s[0] == Some(d);
    }
  }

  /** The `while True` / `try` / `except: pass` loop over the attempt outcomes. */
  method RetryUntilParsed<D>(attempts: seq<Option<D>>) returns (r: RetryOutcome<D>)
    ensures r == Retried(attempts)
  {
    var i := 0;
    while i < |attempts|
      invariant 0 <= i <= |attempts|
      invariant forall j :: 0 <= j < i ==> attempts[j].None?
      invariant Retried(attempts) == match Retried(attempts[i..])
        case Parsed(d, k) => Parsed(d, k + i)
        case StillRetrying => StillRetrying
    {
      var got := attempts[i];
      if got.Some? {
        return Parsed(got.value, i + 1);
      }
      assert attempts[i..][1..] == attempts[i + 1..];
      i := i + 1;
    }
    return StillRetrying;
  }

  /**
   * One search page as `json.loads` and the lookups inside the parse give
   * it: the `url_api` of each entry of `results` (None where the entry has
   * none) and `paging.total`.
   */
  datatype SearchPage = SearchPage(results: seq<Option<string>>, total: int)

  /** Some entry of the page has no `url_api`. */
  predicate MissingUrl(p: SearchPage) {
    exists j :: 0 <= j < |p.results| && p.results[j].None?
  }

  /**
   * The parse builds a lazy `map` over `results`, which is first run by
   * `urls += page_urls` in the walk, outside the retry loop: the page's URLs
   * and total, or None where an entry's `x['url_api']` raises KeyError.
   */
  function UrlsRead(p: SearchPage): (r: Option<CountPage>)
    ensures r.None? <==> MissingUrl(p)
    ensures r.Some? ==> (r.value.total == p.total && |r.value.urls| == |p.results|
      && forall j :: 0 <= j < |p.results| ==> p.results[j] == Some(r.value.urls[j]))
  {
    if MissingUrl(p) then None
    else Some(CountPage(seq(|p.results|, j requires 0 <= j < |p.results| => p.results[j].value), p.total))
  }

  /**
   * The search pages as fetch_item_urls sees them: page `k + 1` is what its
   * retry loop returns with its URLs read, up to the first page whose
   * retries never succeed.
   */
  function {:induction false} RetriedPages(attempts: seq<seq<Option<SearchPage>>>): (oracle: seq<Option<CountPage>>)
    ensures |oracle| <= |attempts|
    ensures forall k :: 0 <= k < |oracle| ==>
      Retried(attempts[k]).Parsed? && oracle[k] == UrlsRead(Retried(attempts[k]).data)
    ensures |oracle| < |attempts| ==> Retried(attempts[|oracle|]).StillRetrying?
  {
    if attempts == [] then []
    else
      match Retried(attempts[0])
      case StillRetrying => []
      case Parsed(p, _) =>
        var rest := RetriedPages(attempts[1..]);
        assert forall k :: 0 < k < |attempts| ==> attempts[1..][k - 1] == attempts[k];
        [UrlsRead(p)] + rest
  }

  /** The search pages as fetch_food_urls sees them: one attempt per page, a failure raises. */
  function FirstAttempts(attempts: seq<seq<Option<SearchPage>>>): (oracle: seq<Option<CountPage>>)
    requires forall k :: 0 <= k < |attempts| ==> attempts[k] != []
  {
    seq(|attempts|, k requires 0 <= k < |attempts| =>
      if attempts[k][0].Some? then UrlsRead(attempts[k][0].value) else None)
  }

  /** The URLs of one search page. */
  function UrlsOf(p: CountPage): seq<string> {
    p.urls
  }

  /**
   * With retries, the URL walk ends in an exception exactly when the last
   * page it requested parsed but has an entry without `url_api`: a failed
   * request or parse never aborts it.
   */
  lemma {:induction false} RetriedWalkAborts(attempts: seq<seq<Option<SearchPage>>>,
                                           status: WalkStatus, urls: seq<string>, requested: seq<nat>)
    requires WalkResult(RetriedPages(attempts), UrlsOf, MorePages, status, urls, requested)
    ensures status == Aborted <==>
      var n := |requested|;
      && 0 < n <= |attempts|
      && Retried(attempts[n - 1]).Parsed?
      && MissingUrl(Retried(attempts[n - 1]).data)
  {
    WalkAborted(RetriedPages(attempts), UrlsOf, MorePages, status, urls, requested);
    RetriedPageUnread(attempts, |requested|);
  }

  /** A page the retried walk reached is unreadable exactly when its parsed attempt lacks a URL. */
  lemma {:induction false} RetriedPageUnread(attempts: seq<seq<Option<SearchPage>>>, n: nat)
    requires n <= |RetriedPages(attempts)|
    ensures 0 < n && RetriedPages(attempts)[n - 1].None? <==>
      && 0 < n <= |attempts|
      && Retried(attempts[n - 1]).Parsed?
      && MissingUrl(Retried(attempts[n - 1]).data)
  {
    var oracle := RetriedPages(attempts);
    if n > 0 {
      assert oracle[n - 1] == UrlsRead(Retried(attempts[n - 1]).data);
    }
  }

  /**
   * With a single attempt per page, a failure on page `k + 1` after pages
   * that asked for more ends the walk there with an exception, even when a
   * retry would have succeeded.
   */
  lemma SingleAttemptFailureAborts(attempts: seq<seq<Option<SearchPage>>>, k: nat,
                                   status: WalkStatus, urls: seq<string>, requested: seq<nat>)
    requires forall j :: 0 <= j < |attempts| ==> attempts[j] != []
    requires k < |attempts| && attempts[k][0].None?
    requires forall j :: 0 <= j < k ==> (attempts[j][0].Some? && UrlsRead(attempts[j][0].value).Some?
      && MorePages(UrlsRead(attempts[j][0].value).value, j + 1))
    requires WalkResult(FirstAttempts(attempts), UrlsOf, MorePages, status, urls, requested)
    ensures status == Aborted && |requested| == k + 1
  {
    var oracle := FirstAttempts(attempts);
    assert oracle[k].None?;
    assert forall j :: 0 <= j < k ==> oracle[j] == UrlsRead(attempts[j][0].value);
  }

  /** The sort key of fetch_all_items: `(ilvl, name, hq)`. */
  function BuffKey(b: Buff): SortKey {
    SortKey(b.ilvl, b.name, b.hq)
  }

  /** fetch_all_items: every item's records, sorted with `reverse=True`. */
  function AllBuffs(perItem: seq<seq<Buff>>): seq<Buff> {
    SortBy(Flatten(perItem), BuffKey, true)
  }

  /** The output holds exactly the fetched records, in descending key order. */
  lemma AllBuffsSorted(perItem: seq<seq<Buff>>)
    ensures multiset(AllBuffs(perItem)) == multiset(Flatten(perItem))
    ensures SortedBy(AllBuffs(perItem), BuffKey, true)
  {
    SortBySorted(Flatten(perItem), BuffKey, true);
  }

  /** In a list sorted this way, of two records with the same ilvl and name the HQ one comes first. */
  lemma HqBeforeNq(s: seq<Buff>, i: nat, j: nat)
    requires SortedBy(s, BuffKey, true)
    requires i < |s| && j < |s|
    requires s[i].ilvl == s[j].ilvl && s[i].name == s[j].name && s[i].hq && !s[j].hq
    ensures i < j
  {
  }

  /**
   * The order in which the per-item requests complete does not matter when
   * no two records share `(ilvl, name, hq)`: any arrival order gives the
   * same output.
   */
  lemma AllBuffsIgnoreArrivalOrder(a: seq<seq<Buff>>, b: seq<seq<Buff>>)
    requires multiset(a) == multiset(b)
    requires var f := Flatten(a);
      forall i, j :: 0 <= i < |f| && 0 <= j < |f| && BuffKey(f[i]) == BuffKey(f[j]) ==> f[i] == f[j]
    ensures AllBuffs(a) == AllBuffs(b)
  {
    var fa, fb := Flatten(a), Flatten(b);
    FlattenPermutation(a, b);
    AllBuffsSorted(a);
    AllBuffsSorted(b);
    var sa, sb := AllBuffs(a), AllBuffs(b);
    forall i, j | 0 <= i < |sa| && 0 <= j < |sa| && BuffKey(sa[i]) == BuffKey(sa[j])
      ensures sa[i] == sa[j]
    {
      assert sa[i] in multiset(fa) && sa[j] in multiset(fa);
      var i' :| 0 <= i' < |fa| && fa[i'] == sa[i];
      var j' :| 0 <= j' < |fa| && fa[j'] == sa[j];
    }
    SortedUnique(sa, sb, BuffKey, true);
  }
}
