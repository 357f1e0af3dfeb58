/**
 * The inventory list view: the fetched items, the search and category
 * filters applied to them, deletion, and the category list offered by the
 * category filter.
 */
module InventoryList {
  import opened Wrappers
  import opened Inventory
  import opened Seqs
  import JsString

  /** The search test: the lower-cased query occurs in the lower-cased name or category. */
  function MatchesQuery(query: string): Item -> bool {
    (item: Item) =>
      || JsString.Includes(JsString.Lower(item.name), JsString.Lower(query))
      || JsString.Includes(JsString.Lower(item.category), JsString.Lower(query))
  }

  /** The test for items whose id differs from `id`. */
  function HasOtherId(id: string): Item -> bool {
    (item: Item) => item.id != id
  }

  /** The list `filterItems` produces: the search step when a query is set, then the category step when a category is selected. */
  function Filtered(items: seq<Item>, query: string, category: string): seq<Item> {
    var searched := if query != "" then Filter(items, MatchesQuery(query)) else items;
    if category != "" then Filter(searched, InCategory(category)) else searched
  }

  /** With no query and no category the whole list is shown. */
  lemma NoFiltersShowAll(items: seq<Item>)
    ensures Filtered(items, "", "") == items
  {
  }

  /** Selecting the category that every item has, with no query, shows every item. */
  lemma SharedCategoryShowsAll(items: seq<Item>, category: string)
    requires forall i :: 0 <= i < |items| ==> items[i].category == category
    ensures Filtered(items, "", category) == items
  {
    FilterAllPass(items, InCategory(category));
  }

  /** The shown list is always a subsequence of the items, in their original order. */
  lemma FilteredIsSubsequence(items: seq<Item>, query: string, category: string)
    ensures IsSubsequence(Filtered(items, query, category), items)
  {
    if query == "" && category == "" {
      SubsequenceReflexive(items);
    } else if query == "" {
      FilterIsSubsequence(items, InCategory(category));
    } else if category == "" {
      FilterIsSubsequence(items, MatchesQuery(query));
    } else {
      FilterFilter(items, MatchesQuery(query), InCategory(category));
      FilterIsSubsequence(items, And(MatchesQuery(query), InCategory(category)));
    }
  }

  /**
   * An item is shown exactly when it is in the list, passes the search
   * (lower-cased query inside the lower-cased name or category) if a query
   * is set, and has the selected category if one is selected.
   */
  lemma FilteredMembership(items: seq<Item>, query: string, category: string, x: Item)
    ensures x in Filtered(items, query, category) <==>
      && x in items
      && (query != "" ==>
            || JsString.Includes(JsString.Lower(x.name), JsString.Lower(query))
            || JsString.Includes(JsString.Lower(x.category), JsString.Lower(query)))
      && (category != "" ==> x.category == category)
  {
    var searched := if query != "" then Filter(items, MatchesQuery(query)) else items;
    if query != "" {
      FilterMembership(items, MatchesQuery(query), x);
    }
    if category != "" {
      FilterMembership(searched, InCategory(category), x);
    }
  }

  /** The search ignores letter case in the query: queries that lower-case alike show the same list. */
  lemma SearchIgnoresQueryCase(items: seq<Item>, q1: string, q2: string, category: string)
    requires JsString.Lower(q1) == JsString.Lower(q2)
    ensures Filtered(items, q1, category) == Filtered(items, q2, category)
  {
    assert q1 != "" <==> q2 != "" by {
      assert |JsString.Lower(q1)| == |q1| && |JsString.Lower(q2)| == |q2|;
    }
    FilterAgree(items, MatchesQuery(q1), MatchesQuery(q2));
  }

  /** In particular, searching for the lower-cased query shows what searching for the query shows. */
  lemma LowerCasedQuerySearchesAlike(items: seq<Item>, query: string, category: string)
    ensures Filtered(items, JsString.Lower(query), category) == Filtered(items, query, category)
  {
    JsString.LowerIdempotent(query);
    SearchIgnoresQueryCase(items, JsString.Lower(query), query, category);
  }

  /** The list `handleDelete` stores: every item but those with the deleted id. */
  function WithoutId(items: seq<Item>, id: string): seq<Item> {
    Filter(items, HasOtherId(id))
  }

  /**
   * Deleting removes every item with the id, keeps every other item in
   * order, and shortens the list by the number of items that had the id.
   */
  lemma DeleteRemovesExactlyId(items: seq<Item>, id: string)
    ensures forall x :: x in WithoutId(items, id) <==> x in items && x.id != id
    ensures IsSubsequence(WithoutId(items, id), items)
    ensures |WithoutId(items, id)| + |Filter(items, Not(HasOtherId(id)))| == |items|
  {
    forall x ensures x in WithoutId(items, id) <==> x in items && x.id != id {
      FilterMembership(items, HasOtherId(id), x);
    }
    FilterIsSubsequence(items, HasOtherId(id));
    FilterPartition(items, HasOtherId(id));
  }

  /** The categories `fetchItems` offers: the items' categories de-duplicated through a set. */
  function UniqueCategories(items: seq<Item>): seq<string> {
    Distinct(CategoriesOf(items))
  }

  /**
   * The category list has no repetitions, holds exactly the categories of
   * the items, and lists them in order of first occurrence.
   */
  lemma UniqueCategoriesSpec(items: seq<Item>)
    ensures NoDup(UniqueCategories(items))
    ensures forall c :: c in UniqueCategories(items) <==> exists i :: 0 <= i < |items| && items[i].category == c
    ensures forall i, j :: 0 <= i < j < |UniqueCategories(items)| ==>
      FirstIndex(CategoriesOf(items), UniqueCategories(items)[i]) < FirstIndex(CategoriesOf(items), UniqueCategories(items)[j])
  {
    var cats := CategoriesOf(items);
    forall c ensures c in UniqueCategories(items) <==> exists i :: 0 <= i < |items| && items[i].category == c {
      if c in UniqueCategories(items) {
        assert c in cats;
        var i :| 0 <= i < |cats| && cats[i] == c;
        assert items[i].category == c;
      }
      if exists i :: 0 <= i < |items| && items[i].category == c {
        var i :| 0 <= i < |items| && items[i].category == c;
        assert cats[i] == c;
      }
    }
    forall i, j | 0 <= i < j < |UniqueCategories(items)|
      ensures FirstIndex(cats, UniqueCategories(items)[i]) < FirstIndex(cats, UniqueCategories(items)[j])
    {
      DistinctFirstOccurrenceOrder(cats, i, j);
    }
  }

  /** The view's state. */
  class InventoryListView {
    var items: seq<Item>
    var filteredItems: seq<Item>
    var loading: bool
    var error: string
    var searchQuery: string
    var selectedCategory: string
    var categories: seq<string>

    /** The filter effect has run since `items`, `searchQuery` or `selectedCategory` last changed. */
    ghost predicate Valid()
      reads this
    {
      filteredItems == Filtered(items, searchQuery, selectedCategory)
    }

    /** The initial state, before `fetchItems` has answered. */
    constructor ()
      ensures Valid()
      ensures items == [] && filteredItems == [] && categories == []
      ensures loading && error == "" && searchQuery == "" && selectedCategory == ""
    {
      items, filteredItems, categories := [], [], [];
      loading, error := true, "";
      searchQuery, selectedCategory := "", "";
    }

    /** `filterItems`: narrows `filtered` step by step and stores it. */
    method FilterItems()
      modifies this`filteredItems
      ensures filteredItems == Filtered(items, searchQuery, selectedCategory)
    {
      var filtered := items;
      if searchQuery != "" {
        filtered := Filter(filtered, MatchesQuery(searchQuery));
      }
      if selectedCategory != "" {
        filtered := Filter(filtered, InCategory(selectedCategory));
      }
      filteredItems := filtered;
    }

    /**
     * `fetchItems`, given the service's answer (`None` when the request
     * failed), followed by the filter effect that a change of `items` runs.
     */
    method FetchItems(response: Option<seq<Item>>)
      modifies this
      ensures response.Some? ==>
        && items == response.value
        && categories == UniqueCategories(response.value)
        && error == ""
      ensures response.None? ==>
        && items == old(items)
        && categories == old(categories)
        && error == "Failed to fetch inventory items"
      ensures !loading
      ensures searchQuery == old(searchQuery) && selectedCategory == old(selectedCategory)
      ensures Valid()
    {
      loading := true;
      if response.Some? {
        items := response.value;
        categories := UniqueCategories(response.value);
        error := "";
      } else {
        error := "Failed to fetch inventory items";
      }
      loading := false;
      FilterItems();
    }

    /**
     * `handleDelete`: `confirmed` is the user's answer to the confirmation
     * dialog and `deleted` whether the delete request succeeded. The
     * category list is not recomputed.
     */
    method HandleDelete(id: string, confirmed: bool, deleted: bool)
      modifies this
      ensures confirmed && deleted ==> items == WithoutId(old(items), id) && error == old(error)
      ensures confirmed && !deleted ==> items == old(items) && error == "Failed to delete item"
      ensures !confirmed ==> items == old(items) && error == old(error)
      ensures !confirmed && old(Valid()) ==> filteredItems == old(filteredItems)
      ensures categories == old(categories) && loading == old(loading)
      ensures searchQuery == old(searchQuery) && selectedCategory == old(selectedCategory)
      ensures Valid()
    {
      if confirmed {
        if deleted {
          items := WithoutId(items, id);
        } else {
          error := "Failed to delete item";
        }
      }
      FilterItems();
    }

    /** `handleSearch`, then the filter effect. */
    method HandleSearch(query: string)
      modifies this
      ensures searchQuery == query
      ensures items == old(items) && selectedCategory == old(selectedCategory)
      ensures categories == old(categories) && error == old(error) && loading == old(loading)
      ensures Valid()
    {
      searchQuery := query;
      FilterItems();
    }

    /** `handleCategoryFilter`, then the filter effect. */
    method HandleCategoryFilter(category: string)
      modifies this
      ensures selectedCategory == category
      ensures items == old(items) && searchQuery == old(searchQuery)
      ensures categories == old(categories) && error == old(error) && loading == old(loading)
      ensures Valid()
    {
      selectedCategory := category;
      FilterItems();
    }

    /** The Clear Filters button: both filters reset, so every item is shown again. */
    method ClearFilters()
      modifies this
      ensures searchQuery == "" && selectedCategory == ""
      ensures items == old(items) && filteredItems == items
      ensures categories == old(categories) && error == old(error) && loading == old(loading)
      ensures Valid()
    {
      searchQuery := "";
      selectedCategory := "";
      FilterItems();
      NoFiltersShowAll(items);
    }
  }
}
