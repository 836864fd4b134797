/**
 * Putting a class's recipes and a category's items together: the results
 * of the concurrent fetches arrive in completion order and are collected,
 * sorted (`list.sort`, stable) and given their additional-language names.
 *
 * Completion order is a parameter: the per-task results in the order they
 * finished, a permutation of the order the tasks were started in.
 */
module Assembly {
  import opened Seqs
  import opened Ordering
  import opened Recipes
  import opened Items
  import opened Languages

  /** `links = []; async for r in results: links.extend(r)` (and the comprehension over NQ/HQ pairs). */
  method CollectAll<T>(results: seq<seq<T>>) returns (all: seq<T>)
    ensures all == Flatten(results)
  {
    all := [];
    for i := 0 to |results|
      invariant all == Flatten(results[..i])
    {
      assert results[..i + 1][..i] == results[..i];
      all := all + results[i];
    }
    assert results[..|results|] == results;
  }

  /** `name['en']`; every record built by fetch_recipe and fetch_item carries it. */
  function EnglishName(name: map<string, string>): string {
    if "en" in name then name["en"] else ""
  }

  /** fetch_class's sort key `(r['level'], r['name']['en'])`. */
  function RecipeKey(r: Recipe): SortKey {
    SortKey(r.level, EnglishName(r.name), false)
  }

  /** fetch_items_category's sort key `r['name']['en']`. */
  function ItemKey(it: Item): SortKey {
    SortKey(0, EnglishName(it.name), false)
  }

  /** Every recipe is named in English. */
  predicate RecipesNamed(rs: seq<Recipe>) {
    forall i :: 0 <= i < |rs| ==> "en" in rs[i].name
  }

  /** Every item is named in English. */
  predicate ItemsNamed(its: seq<Item>) {
    forall i :: 0 <= i < |its| ==> "en" in its[i].name
  }

  /** Sorting moves records without creating any: each sorted record is one of the input's. */
  lemma SortedMembers<T>(s: seq<T>, key: T -> SortKey, i: nat)
    requires i < |SortBy(s, key, false)|
    ensures exists j :: 0 <= j < |s| && s[j] == SortBy(s, key, false)[i]
  {
    var x := SortBy(s, key, false)[i];
    assert x in multiset(SortBy(s, key, false));
    assert x in multiset(s);
  }

  /** Sorting keeps every recipe named in English. */
  lemma {:induction false} SortedRecipesNamed(rs: seq<Recipe>)
    requires RecipesNamed(rs)
    ensures RecipesNamed(SortBy(rs, RecipeKey, false))
  {
    var sorted := SortBy(rs, RecipeKey, false);
    forall i | 0 <= i < |sorted| ensures "en" in sorted[i].name {
      SortedMembers(rs, RecipeKey, i);
    }
  }

  /** Sorting keeps every item named in English. */
  lemma {:induction false} SortedItemsNamed(its: seq<Item>)
    requires ItemsNamed(its)
    ensures ItemsNamed(SortBy(its, ItemKey, false))
  {
    var sorted := SortBy(its, ItemKey, false);
    forall i | 0 <= i < |sorted| ensures "en" in sorted[i].name {
      SortedMembers(its, ItemKey, i);
    }
  }

  /** The name-override loops applied to one recipe's name. */
  function MergeRecipe(ls: Languages): Recipe --> Recipe
    requires OrderLoaded(ls, |ls.order|)
  {
    (r: Recipe) requires "en" in r.name => r.(name := Overridden(r.name, ls, |ls.order|))
  }

  /** The name-override loops applied to one item's name. */
  function MergeItem(ls: Languages): Item --> Item
    requires OrderLoaded(ls, |ls.order|)
  {
    (it: Item) requires "en" in it.name => it.(name := Overridden(it.name, ls, |ls.order|))
  }

  /** The merge applied to each recipe's name, in list order. */
  function MergedRecipes(rs: seq<Recipe>, ls: Languages): (out: seq<Recipe>)
    requires RecipesNamed(rs) && OrderLoaded(ls, |ls.order|)
  {
    MapSeq(MergeRecipe(ls), rs)
  }

  /** The merge applied to each item's name, in list order. */
  function MergedItems(its: seq<Item>, ls: Languages): (out: seq<Item>)
    requires ItemsNamed(its) && OrderLoaded(ls, |ls.order|)
  {
    MapSeq(MergeItem(ls), its)
  }

  /** The list fetch_class returns, for recipes that arrived in the order `arrived`. */
  function ClassOutput(arrived: seq<Recipe>, ls: Languages): seq<Recipe>
    requires RecipesNamed(arrived) && OrderLoaded(ls, |ls.order|)
  {
    SortedRecipesNamed(arrived);
    MergedRecipes(SortBy(arrived, RecipeKey, false), ls)
  }

  /** The list fetch_items_category returns, for per-link results that arrived in the order `arrived`. */
  function CategoryOutput(arrived: seq<seq<Item>>, ls: Languages): seq<Item>
    requires ItemsNamed(Flatten(arrived)) && OrderLoaded(ls, |ls.order|)
  {
    SortedItemsNamed(Flatten(arrived));
    MergedItems(SortBy(Flatten(arrived), ItemKey, false), ls)
  }

  /** fetch_class after the fetches: sort, then the name-override loops over every recipe. */
  method FetchClass(arrived: seq<Recipe>, ls: Languages) returns (recipes: seq<Recipe>)
    requires RecipesNamed(arrived) && WellFormed(ls)
    ensures OrderLoaded(ls, |ls.order|)
    ensures recipes == ClassOutput(arrived, ls)
  {
    assert OrderLoaded(ls, |ls.order|);
    recipes := SortBy(arrived, RecipeKey, false);
    ghost var sorted := recipes;
    SortedRecipesNamed(arrived);
    for i := 0 to |recipes|
      invariant |recipes| == |sorted|
      invariant forall j :: 0 <= j < i ==> recipes[j] == sorted[j].(name := Overridden(sorted[j].name, ls, |ls.order|))
      invariant forall j :: i <= j < |recipes| ==> recipes[j] == sorted[j]
    {
      var name := OverrideName(recipes[i].name, ls);
      recipes := recipes[i := recipes[i].(name := name)];
    }
  }

  /** fetch_items_category after the fetches: collect, sort, then the name-override loops. */
  method FetchItemsCategory(arrived: seq<seq<Item>>, ls: Languages) returns (items: seq<Item>)
    requires ItemsNamed(Flatten(arrived)) && WellFormed(ls)
    ensures OrderLoaded(ls, |ls.order|)
    ensures items == CategoryOutput(arrived, ls)
  {
    assert OrderLoaded(ls, |ls.order|);
    var collected := CollectAll(arrived);
    items := SortBy(collected, ItemKey, false);
    ghost var sorted := items;
    SortedItemsNamed(collected);
    for i := 0 to |items|
      invariant |items| == |sorted|
      invariant forall j :: 0 <= j < i ==> items[j] == sorted[j].(name := Overridden(sorted[j].name, ls, |ls.order|))
      invariant forall j :: i <= j < |items| ==> items[j] == sorted[j]
    {
      var name := OverrideName(items[i].name, ls);
      items := items[i := items[i].(name := name)];
    }
  }

  /** Without "en" among the loaded languages, the merge leaves every English name as it was. */
  lemma EnglishNameKept(name: map<string, string>, ls: Languages)
    requires "en" in name && WellFormed(ls) && "en" !in ls.mappings
    ensures OrderLoaded(ls, |ls.order|)
    ensures Overridden(name, ls, |ls.order|)["en"] == name["en"]
  {
    OverriddenClosedForm(name, ls, |ls.order|);
  }

  /**
   * fetch_class returns one recipe per recipe fetched, each with its other
   * fields intact and its names merged; without "en" among the loaded
   * languages the list is ordered by level, then English name.
   */
  lemma {:induction false} ClassOutputSpec(arrived: seq<Recipe>, ls: Languages)
    requires RecipesNamed(arrived) && WellFormed(ls)
    ensures OrderLoaded(ls, |ls.order|)
    ensures var out := ClassOutput(arrived, ls);
      && |out| == |arrived|
      && (forall i :: 0 <= i < |out| ==> exists j :: (0 <= j < |arrived|
            && out[i] == arrived[j].(name := Overridden(arrived[j].name, ls, |ls.order|))))
      && multiset(out) == multiset(MergedRecipes(arrived, ls))
      && ("en" !in ls.mappings ==> SortedBy(out, RecipeKey, false))
  {
    assert OrderLoaded(ls, |ls.order|);
    var sorted := SortBy(arrived, RecipeKey, false);
    var out := ClassOutput(arrived, ls);
    SortedRecipesNamed(arrived);
    MergedFromArrived(arrived, sorted, MergeRecipe(ls));
    MapPermutation(MergeRecipe(ls), sorted, arrived);
    if "en" !in ls.mappings {
      SortBySorted(arrived, RecipeKey, false);
      SortedRecipesNamed(arrived);
      MergedRecipesKeepKeys(sorted, ls);
      SortedBySameKeys(sorted, out, RecipeKey, false);
    }
  }

  /** Each record of a permutation, mapped, is some record of the original, mapped. */
  lemma {:induction false} MergedFromArrived<T>(arrived: seq<T>, sorted: seq<T>, merge: T --> T)
    requires multiset(sorted) == multiset(arrived)
    requires forall i :: 0 <= i < |sorted| ==> merge.requires(sorted[i])
    ensures |sorted| == |arrived|
    ensures forall i :: 0 <= i < |sorted| ==> exists j :: (0 <= j < |arrived|
      && arrived[j] == sorted[i] && merge.requires(arrived[j]) && MapSeq(merge, sorted)[i] == merge(arrived[j]))
  {
    assert |sorted| == |multiset(sorted)| == |multiset(arrived)| == |arrived|;
    forall i | 0 <= i < |sorted| ensures exists j :: (0 <= j < |arrived|
      && arrived[j] == sorted[i] && merge.requires(arrived[j]) && MapSeq(merge, sorted)[i] == merge(arrived[j]))
    {
      assert sorted[i] in multiset(arrived);
      var j :| 0 <= j < |arrived| && arrived[j] == sorted[i];
    }
  }

  /** Without "en" among the loaded languages, merging names leaves every recipe's sort key alone. */
  lemma {:induction false} MergedRecipesKeepKeys(rs: seq<Recipe>, ls: Languages)
    requires RecipesNamed(rs) && WellFormed(ls) && "en" !in ls.mappings
    ensures OrderLoaded(ls, |ls.order|)
    ensures var out := MergedRecipes(rs, ls);
      |out| == |rs| && forall i :: 0 <= i < |rs| ==> RecipeKey(out[i]) == RecipeKey(rs[i])
  {
    forall i | 0 <= i < |rs| ensures RecipeKey(MergedRecipes(rs, ls)[i]) == RecipeKey(rs[i]) {
      EnglishNameKept(rs[i].name, ls);
    }
  }

  /** Without "en" among the loaded languages, merging names leaves every item's sort key alone. */
  lemma {:induction false} MergedItemsKeepKeys(its: seq<Item>, ls: Languages)
    requires ItemsNamed(its) && WellFormed(ls) && "en" !in ls.mappings
    ensures OrderLoaded(ls, |ls.order|)
    ensures var out := MergedItems(its, ls);
      |out| == |its| && forall i :: 0 <= i < |its| ==> ItemKey(out[i]) == ItemKey(its[i])
  {
    forall i | 0 <= i < |its| ensures ItemKey(MergedItems(its, ls)[i]) == ItemKey(its[i]) {
      EnglishNameKept(its[i].name, ls);
    }
  }

  /**
   * Recipes are told apart by level and English name: the order the
   * fetches finish in does not change what fetch_class returns.
   */
  lemma {:induction false} ClassOutputIgnoresArrivalOrder(a: seq<Recipe>, b: seq<Recipe>, ls: Languages)
    requires RecipesNamed(a) && RecipesNamed(b) && WellFormed(ls)
    requires multiset(a) == multiset(b)
    requires forall i, j :: 0 <= i < |a| && 0 <= j < |a| && RecipeKey(a[i]) == RecipeKey(a[j]) ==> a[i] == a[j]
    ensures OrderLoaded(ls, |ls.order|)
    ensures ClassOutput(a, ls) == ClassOutput(b, ls)
  {
    var sa, sb := SortBy(a, RecipeKey, false), SortBy(b, RecipeKey, false);
    SortBySorted(a, RecipeKey, false);
    SortBySorted(b, RecipeKey, false);
    forall i, j | 0 <= i < |sa| && 0 <= j < |sa| && RecipeKey(sa[i]) == RecipeKey(sa[j])
      ensures sa[i] == sa[j]
    {
      SortedMembers(a, RecipeKey, i);
      SortedMembers(a, RecipeKey, j);
    }
    SortedUnique(sa, sb, RecipeKey, false);
  }

  /**
   * fetch_items_category returns every collected item once, each with its
   * names merged; without "en" among the loaded languages the list is
   * ordered by English name.
   */
  lemma {:induction false} CategoryOutputSpec(arrived: seq<seq<Item>>, ls: Languages)
    requires ItemsNamed(Flatten(arrived)) && WellFormed(ls)
    ensures OrderLoaded(ls, |ls.order|)
    ensures var out := CategoryOutput(arrived, ls);
      var all := Flatten(arrived);
      && |out| == |all|
      && (forall i :: 0 <= i < |out| ==> exists j :: (0 <= j < |all|
            && out[i] == all[j].(name := Overridden(all[j].name, ls, |ls.order|))))
      && multiset(out) == multiset(MergedItems(all, ls))
      && ("en" !in ls.mappings ==> SortedBy(out, ItemKey, false))
  {
    assert OrderLoaded(ls, |ls.order|);
    var all := Flatten(arrived);
    var sorted := SortBy(all, ItemKey, false);
    var out := CategoryOutput(arrived, ls);
    SortedItemsNamed(all);
    MergedFromArrived(all, sorted, MergeItem(ls));
    MapPermutation(MergeItem(ls), sorted, all);
    if "en" !in ls.mappings {
      SortBySorted(all, ItemKey, false);
      SortedItemsNamed(all);
      MergedItemsKeepKeys(sorted, ls);
      SortedBySameKeys(sorted, out, ItemKey, false);
    }
  }
}
