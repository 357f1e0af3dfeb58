/** The recipe page's inventory overview: items grouped into one bucket per category, and the quantity colour. */
module InventoryOverview {
  import opened Inventory
  import opened Seqs

  /** The items of category `c`, in inventory order. */
  function Bucket(inventory: seq<Item>, c: string): seq<Item> {
    Filter(inventory, InCategory(c))
  }

  /**
   * The `groupedByCategory` reduce: starting from `{}`, each item is pushed
   * onto the bucket of its category, the bucket being created on first use.
   * The result has a key for exactly the categories present, and each
   * bucket holds that category's items in inventory order.
   */
  method GroupByCategory(inventory: seq<Item>) returns (groups: map<string, seq<Item>>)
    ensures forall c :: c in groups <==> c in CategoriesOf(inventory)
    ensures forall c :: c in groups ==> groups[c] == Bucket(inventory, c)
    ensures |groups| == |Distinct(CategoriesOf(inventory))|
  {
    groups := map[];
    var i := 0;
    while i < |inventory|
      invariant 0 <= i <= |inventory|
      invariant forall c :: c in groups <==> c in CategoriesOf(inventory[..i])
      invariant forall c :: c in groups ==> groups[c] == Bucket(inventory[..i], c)
    {
      var item := inventory[i];
      assert inventory[..i + 1] == inventory[..i] + [item];
      CategoriesOfSnoc(inventory[..i], item);
      forall c ensures Bucket(inventory[..i + 1], c) == Bucket(inventory[..i], c) + (if item.category == c then [item] else []) {
        FilterSnoc(inventory[..i], item, InCategory(c));
      }
      if item.category !in groups {
        EmptyBucket(inventory[..i], item.category);
        groups := groups[item.category := []];
      }
      groups := groups[item.category := groups[item.category] + [item]];
      i := i + 1;
    }
    assert inventory[..i] == inventory;
    assert groups.Keys == Elements(CategoriesOf(inventory));
    DistinctCount(CategoriesOf(inventory));
  }

  /** A category no item has gets an empty bucket. */
  lemma {:induction false} EmptyBucket(inventory: seq<Item>, c: string)
    requires c !in CategoriesOf(inventory)
    ensures Bucket(inventory, c) == []
  {
    if inventory != [] {
      var init, last := inventory[..|inventory| - 1], inventory[|inventory| - 1];
      assert inventory == init + [last];
      CategoriesOfSnoc(init, last);
      FilterSnoc(init, last, InCategory(c));
      EmptyBucket(init, c);
    }
  }

  /** `Σ |Bucket(inventory, c)|` over the category list `cats`. */
  function BucketTotal(inventory: seq<Item>, cats: seq<string>): nat {
    if cats == [] then 0 else |Bucket(inventory, cats[0])| + BucketTotal(inventory, cats[1..])
  }

  lemma {:induction false} BucketTotalSnoc(inventory: seq<Item>, x: Item, cats: seq<string>)
    requires NoDup(cats)
    ensures BucketTotal(inventory + [x], cats) == BucketTotal(inventory, cats) + (if x.category in cats then 1 else 0)
  {
    if cats != [] {
      FilterSnoc(inventory, x, InCategory(cats[0]));
      BucketTotalSnoc(inventory, x, cats[1..]);
      assert x.category in cats <==> x.category == cats[0] || x.category in cats[1..];
    }
  }

  /** Over a duplicate-free list covering every category, the bucket sizes add up to the inventory size. */
  lemma {:induction false} BucketTotalCovers(inventory: seq<Item>, cats: seq<string>)
    requires NoDup(cats)
    requires forall i :: 0 <= i < |inventory| ==> inventory[i].category in cats
    ensures BucketTotal(inventory, cats) == |inventory|
  {
    if inventory == [] {
      BucketTotalEmpty(cats);
    } else {
      var init, last := inventory[..|inventory| - 1], inventory[|inventory| - 1];
      assert inventory == init + [last];
      BucketTotalCovers(init, cats);
      BucketTotalSnoc(init, last, cats);
    }
  }

  lemma {:induction false} BucketTotalEmpty(cats: seq<string>)
    ensures BucketTotal([], cats) == 0
  {
    if cats != [] {
      BucketTotalEmpty(cats[1..]);
    }
  }

  /** The buckets, one per distinct category, hold exactly as many items as the inventory. */
  lemma BucketSizesSum(inventory: seq<Item>)
    ensures BucketTotal(inventory, Distinct(CategoriesOf(inventory))) == |inventory|
  {
    var cats := CategoriesOf(inventory);
    assert forall i :: 0 <= i < |inventory| ==> inventory[i].category == cats[i];
    BucketTotalCovers(inventory, Distinct(cats));
  }

  /** Every item lies in the bucket of its own category and in no other. */
  lemma ItemInItsBucketOnly(inventory: seq<Item>, i: nat, c: string)
    requires i < |inventory|
    ensures inventory[i] in Bucket(inventory, inventory[i].category)
    ensures c != inventory[i].category ==> inventory[i] !in Bucket(inventory, c)
  {
  }

  /** `getStockStatusColor`: danger up to 1, warning up to 2, success above; there is no medium tier. */
  function StockStatusColor(quantity: real): (color: string)
    ensures color == "text-danger" <==> quantity <= 1.0
    ensures color == "text-warning" <==> 1.0 < quantity <= 2.0
    ensures color == "text-success" <==> 2.0 < quantity
  {
    if quantity <= 1.0 then "text-danger"
    else if quantity <= 2.0 then "text-warning"
    else "text-success"
  }
}
