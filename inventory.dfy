/** The inventory item as the inventory service returns it, and the projections the views take of a list of items. */
module Inventory {
  import opened Wrappers

  /**
   * One kitchen item. Dates are millisecond timestamps; `expiryDate` is
   * `None` when the item has none (an empty or missing field).
   */
  datatype Item = Item(
    id: string,
    name: string,
    quantity: real,
    unit: string,
    category: string,
    expiryDate: Option<int>,
    createdAt: int)

  /** Milliseconds in a day, `1000 * 60 * 60 * 24`. */
  const DayMs: int := 1000 * 60 * 60 * 24

  /** The category of each item, in item order. */
  function CategoriesOf(items: seq<Item>): (r: seq<string>)
    ensures |r| == |items|
  {
    seq(|items|, i requires 0 <= i < |items| => items[i].category)
  }

  /** The test for items of category `c`. */
  function InCategory(c: string): Item -> bool {
    (item: Item) => item.category == c
  }

  /** Mapping a prefix is taking a prefix of the mapping. */
  lemma CategoriesOfSnoc(items: seq<Item>, x: Item)
    ensures CategoriesOf(items + [x]) == CategoriesOf(items) + [x.category]
  {
  }
}
