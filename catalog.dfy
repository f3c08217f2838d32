/**
 * The shop: a static, read-only table from item name to its cost and its
 * effect on the pet. An effect may leave a field out; a missing field
 * counts as a delta of 0.
 */
module Catalog {
  import opened Wrappers

  /** What buying an item does to the pet; `None` is a field the item leaves out. */
  datatype Effect = Effect(hunger: Option<int>, happiness: Option<int>)

  datatype Item = Item(cost: int, effect: Effect) {

    /** The change to hunger, a missing field counting as 0. */
    function HungerDelta(): (d: int) { effect.hunger.GetOr(0) }

    /** The change to happiness, a missing field counting as 0. */
    function HappinessDelta(): (d: int) { effect.happiness.GetOr(0) }
  }

  /** A catalog is open: any item name may be a key. */
  type Shop = map<string, Item>

  /** The catalog the application ships with. */
  const ShopItems: Shop := map[
    "toy" := Item(5, Effect(None, Some(2))),
    "treat" := Item(3, Effect(Some(-2), None))
  ]

  /**
   * Looks up the item the request names. An absent item parameter and a
   * name that is not in the catalog both give `None`; nothing is raised.
   */
  function Lookup(shop: Shop, item: Option<string>): (r: Option<Item>)
    ensures r.Some? <==> item.Some? && item.value in shop
    ensures r.Some? ==> r.value == shop[item.value]
  {
    if item.Some? && item.value in shop then Some(shop[item.value]) else None
  }

  /** No item makes the pet hungrier or sadder. */
  ghost predicate Gentle(shop: Shop) {
    forall name :: name in shop ==> shop[name].HungerDelta() <= 0 && shop[name].HappinessDelta() >= 0
  }

  /** The shipped catalog: a toy costs 5 and adds 2 happiness, a treat costs 3 and takes 2 off hunger. */
  lemma ShippedCatalog()
    ensures Lookup(ShopItems, Some("toy")) == Some(Item(5, Effect(None, Some(2))))
    ensures Lookup(ShopItems, Some("treat")) == Some(Item(3, Effect(Some(-2), None)))
    ensures ShopItems["toy"].HungerDelta() == 0 && ShopItems["toy"].HappinessDelta() == 2
    ensures ShopItems["treat"].HungerDelta() == -2 && ShopItems["treat"].HappinessDelta() == 0
    ensures ShopItems.Keys == {"toy", "treat"}
    ensures Gentle(ShopItems)
  {
  }
}
