/**
 * The pet economy: a pet row of four integers, the three actions a request
 * can apply to it (feed, play, buy), and the attention gate evaluated after
 * the action. The functions are the specification; class `Pet` is the
 * mutable record the request handler updates field by field.
 */
module Economy {
  import opened Wrappers
  import opened Catalog

  /** A pet needs attention when hunger or happiness is at or below this level. */
  const NotificationThreshold: int := 2
  /** Minimum time between two attention notifications, in milliseconds (one hour). */
  const NotificationCooldown: int := 3600000
  /** The cap applied to happiness by `play` and by a purchase. */
  const MaxLevel: int := 10

  /** A snapshot of one pet row. `lastNotified` is in epoch milliseconds. */
  datatype PetState = PetState(hunger: int, happiness: int, coins: int, lastNotified: int)

  /** Outcome of applying one action: the new snapshot, or the "Not enough coins" rejection. */
  datatype StepResult = Applied(pet: PetState) | NotEnoughCoins

  /** The ranges the application intends: both levels in 0..10, no debt. */
  predicate WellFormed(p: PetState) {
    0 <= p.hunger <= MaxLevel && 0 <= p.happiness <= MaxLevel && p.coins >= 0
  }

  function Max(a: int, b: int): (m: int) { if a >= b then a else b }
  function Min(a: int, b: int): (m: int) { if a <= b then a else b }

  /** The row created for a user the store does not know yet. */
  function NewPet(): (p: PetState)
    ensures WellFormed(p)
    ensures p.coins == 0 && p.lastNotified == 0
    ensures p.hunger == 5 && p.happiness == 5
  {
    PetState(5, 5, 0, 0)
  }

  /**
   * Applies `action` (and, for "buy", the named `item`) to `p`.
   * Hunger only ever has a floor at 0 and happiness only a cap at 10.
   * Any other action, and a buy of an absent or unknown item, leaves `p` as it is.
   */
  function Apply(p: PetState, action: string, item: Option<string>, shop: Shop): (r: StepResult)
    ensures r.NotEnoughCoins? <==>
              action == "buy" && Lookup(shop, item).Some? && p.coins < Lookup(shop, item).value.cost
    ensures r.Applied? ==> r.pet.lastNotified == p.lastNotified
    ensures r.Applied? && p.coins >= 0 ==> r.pet.coins >= 0
  {
    if action == "feed" then
      Applied(p.(hunger := Max(0, p.hunger - 1), coins := p.coins + 1))
    else if action == "play" then
      Applied(p.(happiness := Min(MaxLevel, p.happiness + 1), coins := p.coins + 2))
    else if action == "buy" && Lookup(shop, item).Some? then
      var selected := Lookup(shop, item).value;
      if p.coins >= selected.cost then
        Applied(p.(coins := p.coins - selected.cost,
                   hunger := Max(0, p.hunger + selected.HungerDelta()),
                   happiness := Min(MaxLevel, p.happiness + selected.HappinessDelta())))
      else
        NotEnoughCoins
    else
      Applied(p)
  }

  /** The actions and items `Apply` passes over without touching the pet. */
  predicate IsNoOp(action: string, item: Option<string>, shop: Shop): (b: bool)
    ensures b ==> forall p :: Apply(p, action, item, shop) == Applied(p)
    ensures !b <==> action == "feed" || action == "play" ||
                     (action == "buy" && item.Some? && item.value in shop)
  {
    action != "feed" && action != "play" && (action != "buy" || Lookup(shop, item).None?)
  }

  /** Hunger or happiness is low enough for the pet to need attention. */
  predicate NeedsAttention(p: PetState) {
    p.hunger <= NotificationThreshold || p.happiness <= NotificationThreshold
  }

  /** The gate: the pet needs attention and more than an hour has passed since the last notification. */
  predicate ShouldNotify(p: PetState, now: int): (b: bool)
    ensures b ==> NeedsAttention(p)
    ensures b ==> now >= p.lastNotified + NotificationCooldown + 1
    ensures now - p.lastNotified <= NotificationCooldown ==> !b
    ensures p.hunger > NotificationThreshold && p.happiness > NotificationThreshold ==> !b
  {
    NeedsAttention(p) && now - p.lastNotified > NotificationCooldown
  }

  /** The snapshot after the gate: when it fires, the notification time is recorded. */
  function Notified(p: PetState, now: int): (r: PetState)
    ensures r.hunger == p.hunger && r.happiness == p.happiness && r.coins == p.coins
    ensures ShouldNotify(p, now) ==> r.lastNotified == now
    ensures !ShouldNotify(p, now) ==> r == p
  {
    if ShouldNotify(p, now) then p.(lastNotified := now) else p
  }

  // ---------------------------------------------------------------------------
  // The actions, one at a time

  /** Feeding takes one hunger point off (not below 0) and earns one coin; nothing else changes. */
  lemma FeedEffect(p: PetState, item: Option<string>, shop: Shop)
    ensures Apply(p, "feed", item, shop).Applied?
    ensures var q := Apply(p, "feed", item, shop).pet;
      q.hunger == (if p.hunger >= 1 then p.hunger - 1 else 0) &&
      (p.hunger >= 0 ==> q.hunger <= p.hunger) && q.hunger >= 0 &&
      q.coins == p.coins + 1 &&
      q.happiness == p.happiness && q.lastNotified == p.lastNotified
  {
  }

  /** Playing adds one happiness point (not above 10) and earns two coins; nothing else changes. */
  lemma PlayEffect(p: PetState, item: Option<string>, shop: Shop)
    ensures Apply(p, "play", item, shop).Applied?
    ensures var q := Apply(p, "play", item, shop).pet;
      q.happiness == (if p.happiness <= MaxLevel - 1 then p.happiness + 1 else MaxLevel) &&
      (p.happiness <= MaxLevel ==> q.happiness >= p.happiness)
    ensures var q := Apply(p, "play", item, shop).pet;
      q.coins == p.coins + 2 && q.hunger == p.hunger && q.lastNotified == p.lastNotified
  {
  }

  /**
   * An affordable purchase pays exactly the item's cost and applies its
   * effect, hunger floored at 0 and happiness capped at 10, a missing
   * effect field counting as 0.
   */
  lemma BuyAffordable(p: PetState, name: string, shop: Shop)
    requires name in shop && p.coins >= shop[name].cost
    ensures Apply(p, "buy", Some(name), shop).Applied?
    ensures var q := Apply(p, "buy", Some(name), shop).pet;
      var it := shop[name];
      q.coins == p.coins - it.cost && q.coins >= 0 &&
      q.hunger == (if p.hunger + it.HungerDelta() < 0 then 0 else p.hunger + it.HungerDelta()) &&
      q.happiness == (if p.happiness + it.HappinessDelta() > MaxLevel then MaxLevel
                      else p.happiness + it.HappinessDelta()) &&
      (it.effect.hunger.None? ==> q.hunger == Max(0, p.hunger)) &&
      (it.effect.happiness.None? ==> q.happiness == Min(MaxLevel, p.happiness)) &&
      q.lastNotified == p.lastNotified
  {
  }

  /** A purchase the pet cannot afford is refused, whatever the rest of its state. */
  lemma BuyRejected(p: PetState, name: string, shop: Shop)
    requires name in shop && p.coins < shop[name].cost
    ensures Apply(p, "buy", Some(name), shop) == NotEnoughCoins
  {
  }

  /**
   * Only a purchase of a known item that costs more than the pet has is ever
   * refused. This is the "only if" half of `Apply`'s first postcondition, with
   * the lookup taken apart into the form the handler lemmas use.
   */
  lemma RejectionOnlyForUnaffordableBuy(p: PetState, action: string, item: Option<string>, shop: Shop)
    requires Apply(p, action, item, shop).NotEnoughCoins?
    ensures action == "buy" && item.Some? && item.value in shop
    ensures p.coins < shop[item.value].cost
  {
  }

  /** An unknown action, and a buy of an absent or unknown item, leave the pet untouched; so applying one twice is applying it once. */
  lemma NoOpUnchanged(p: PetState, action: string, item: Option<string>, shop: Shop)
    requires IsNoOp(action, item, shop)
    ensures Apply(p, action, item, shop) == Applied(p)
    ensures Apply(Apply(p, action, item, shop).pet, action, item, shop) == Apply(p, action, item, shop)
  {
  }

  /**
   * The converse: feeding and playing always change the pet (they earn coins),
   * so a successful action that leaves it as it was is a no-op or a free purchase.
   */
  lemma UnchangedOnlyByNoOpOrFreeBuy(p: PetState, action: string, item: Option<string>, shop: Shop)
    requires Apply(p, action, item, shop) == Applied(p)
    ensures IsNoOp(action, item, shop) || (action == "buy" && Lookup(shop, item).value.cost == 0)
  {
  }

  /**
   * Coins: feeding and playing always earn; a successful purchase is the only
   * way they go down; and starting from no debt they never become negative.
   */
  lemma CoinsAccounting(p: PetState, action: string, item: Option<string>, shop: Shop)
    requires Apply(p, action, item, shop).Applied?
    ensures var q := Apply(p, action, item, shop).pet;
      (action == "feed" || action == "play" ==> q.coins > p.coins) &&
      (q.coins < p.coins ==> action == "buy" && Lookup(shop, item).Some? &&
                             q.coins == p.coins - Lookup(shop, item).value.cost) &&
      (p.coins >= 0 ==> q.coins >= 0)
  {
  }

  /**
   * With a catalog whose items never raise hunger or lower happiness, every
   * action keeps a well-formed pet well-formed. The clamps are one-sided, so
   * the assumption on the catalog is needed (see `OneSidedClampBreaksBounds`).
   */
  lemma ApplyPreservesWellFormed(p: PetState, action: string, item: Option<string>, shop: Shop)
    requires WellFormed(p) && Gentle(shop)
    requires Apply(p, action, item, shop).Applied?
    ensures WellFormed(Apply(p, action, item, shop).pet)
  {
    if action != "feed" && action != "play" && action == "buy" && Lookup(shop, item).Some? {
      var it := shop[item.value];
      assert it.HungerDelta() <= 0 && it.HappinessDelta() >= 0;
    }
  }

  /** With the shipped catalog the 0..10 ranges hold after every action. */
  lemma ShippedCatalogPreservesWellFormed(p: PetState, action: string, item: Option<string>)
    requires WellFormed(p)
    requires Apply(p, action, item, ShopItems).Applied?
    ensures WellFormed(Apply(p, action, item, ShopItems).pet)
  {
    ShippedCatalog();
    ApplyPreservesWellFormed(p, action, item, ShopItems);
  }

  /** An item that adds hunger pushes it past 10, since hunger has no cap. */
  lemma OneSidedClampBreaksBounds()
    ensures var shop := map["snack" := Item(0, Effect(Some(3), None))];
      var p := PetState(9, 5, 0, 0);
      WellFormed(p) && Apply(p, "buy", Some("snack"), shop) == Applied(PetState(12, 5, 0, 0)) &&
      !WellFormed(Apply(p, "buy", Some("snack"), shop).pet)
  {
    var shop := map["snack" := Item(0, Effect(Some(3), None))];
    assert "buy" != "feed" && "buy" != "play";
    assert Lookup(shop, Some("snack")) == Some(Item(0, Effect(Some(3), None)));
    assert shop["snack"].HungerDelta() == 3;
  }

  /** The worked purchase: a toy bought with 10 coins. */
  lemma ToyScenario()
    ensures Apply(PetState(0, 5, 10, 0), "buy", Some("toy"), ShopItems) == Applied(PetState(0, 7, 5, 0))
    ensures Apply(PetState(5, 5, 2, 0), "buy", Some("toy"), ShopItems) == NotEnoughCoins
  {
    ShippedCatalog();
  }

  // ---------------------------------------------------------------------------
  // The attention gate

  /** Within the cooldown the gate never fires, whatever hunger and happiness are. */
  lemma SilentWithinCooldown(p: PetState, now: int)
    requires now - p.lastNotified <= NotificationCooldown
    ensures !ShouldNotify(p, now)
    ensures Notified(p, now) == p
  {
  }

  /** One millisecond past the cooldown, a pet that needs attention is notified. */
  lemma FiresJustAfterCooldown(p: PetState)
    requires NeedsAttention(p)
    ensures ShouldNotify(p, p.lastNotified + NotificationCooldown + 1)
    ensures Notified(p, p.lastNotified + NotificationCooldown + 1).lastNotified
            == p.lastNotified + NotificationCooldown + 1
  {
  }

  /** A content pet (both levels above 2) is never notified. */
  lemma ContentPetNeverNotified(p: PetState, now: int)
    requires p.hunger > NotificationThreshold && p.happiness > NotificationThreshold
    ensures Notified(p, now) == p
  {
  }

  /** Right after the gate fires, it stays shut for a full cooldown. */
  lemma FiringRestartsCooldown(p: PetState, now: int, later: int)
    requires ShouldNotify(p, now)
    requires later - now <= NotificationCooldown
    ensures !ShouldNotify(Notified(p, now), later)
  {
  }

  /** The worked notification: a hungry pet last notified at 0, seen at 4,000,000 ms. */
  lemma GateScenario()
    ensures ShouldNotify(PetState(1, 8, 0, 0), 4000000)
    ensures Notified(PetState(1, 8, 0, 0), 4000000) == PetState(1, 8, 0, 4000000)
  {
  }

  // ---------------------------------------------------------------------------
  // The mutable pet record of the request handler

  class Pet {
    var hunger: int
    var happiness: int
    var coins: int
    var lastNotified: int

    /** The current field values as a snapshot. */
    function Snapshot(): (s: PetState)
      reads this
    {
      PetState(hunger, happiness, coins, lastNotified)
    }

    constructor (s: PetState)
      ensures Snapshot() == s
    {
      hunger, happiness, coins, lastNotified := s.hunger, s.happiness, s.coins, s.lastNotified;
    }

    /**
     * Updates the fields for one action. On a refused purchase nothing has
     * been written when it reports the rejection.
     */
    method ApplyAction(action: string, item: Option<string>, shop: Shop) returns (rejected: bool)
      modifies this
      ensures rejected <==> Apply(old(Snapshot()), action, item, shop).NotEnoughCoins?
      ensures rejected ==> Snapshot() == old(Snapshot())
      ensures !rejected ==> Snapshot() == Apply(old(Snapshot()), action, item, shop).pet
    {
      rejected := false;
      if action == "feed" {
        hunger := Max(0, hunger - 1);
        coins := coins + 1;
      } else if action == "play" {
        happiness := Min(MaxLevel, happiness + 1);
        coins := coins + 2;
      } else if action == "buy" && item.Some? && item.value in shop {
        var selected := shop[item.value];
        if coins >= selected.cost {
          coins := coins - selected.cost;
          hunger := Max(0, hunger + selected.HungerDelta());
          happiness := Min(MaxLevel, happiness + selected.HappinessDelta());
        } else {
          rejected := true;
        }
      }
    }

    /** Runs the attention gate at time `now`; when it fires, records `now`. */
    method MaybeNotify(now: int) returns (fired: bool)
      modifies this
      ensures fired <==> ShouldNotify(old(Snapshot()), now)
      ensures Snapshot() == Notified(old(Snapshot()), now)
    {
      fired := (hunger <= NotificationThreshold || happiness <= NotificationThreshold)
               && now - lastNotified > NotificationCooldown;
      if fired {
        lastNotified := now;
      }
    }
  }
}
