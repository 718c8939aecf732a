// A player's economy (server/src/PlayerState.cpp, server/src/ShopManager.cpp): shop, purse, units and
// items. Every copy a player holds came out of the shared pool and can always go back.
module Players {
  import opened Wrappers
  import opened Actions
  import opened Items
  import opened ChampionPool
  import opened Roster
  import opened RosterMerge
  import opened UnitRosters
  import opened RosterLaws
  import opened Offers
  import opened Arithmetic
  import Traits

  const MAX_PLAYER_LEVEL := 10

  // ---- The shop ------------------------------------------------------------------------------------

  class ShopManager {
    const pool: SharedChampionPool
    const rerollCost: int
    const dropRatesByLevel: seq<seq<int>>
    var slots: seq<Offer>

    ghost predicate Valid()
      reads this
    {
      && rerollCost >= 0 && |dropRatesByLevel| == MAX_PLAYER_LEVEL
      && (forall l | 0 <= l < MAX_PLAYER_LEVEL :: OddsOk(dropRatesByLevel[l]))
      && OffersOk(pool.db, slots)
    }

    // The copies on offer fit the pool's supply, so returning them is never refused.
    ghost predicate Backed()
      reads this, pool
    {
      |pool.remaining| == |pool.initial| == |pool.db| &&
      forall c: nat | c < |pool.db| && pool.db[c].pooled :: pool.remaining[c] + Offered(slots, c) <= pool.initial[c]
    }

    constructor (pool: SharedChampionPool, rerollCost: int, dropRatesByLevel: seq<seq<int>>, slotCount: nat)
      requires rerollCost >= 0 && |dropRatesByLevel| == MAX_PLAYER_LEVEL
      requires forall l | 0 <= l < MAX_PLAYER_LEVEL :: OddsOk(dropRatesByLevel[l])
      ensures Valid() && this.pool == pool && this.rerollCost == rerollCost && slots == seq(slotCount, _ => None)
    {
      this.pool, this.rerollCost, this.dropRatesByLevel := pool, rerollCost, dropRatesByLevel;
      slots := seq(slotCount, _ => None);
    }

    // Every unbought champion goes back to the pool; a special offer simply goes. No return is ever
    // refused.
    method ReturnShopToPool()
      requires Valid() && pool.Valid() && Backed()
      modifies `slots, pool
      ensures Valid() && pool.Valid() && |slots| == |old(slots)| && forall i | 0 <= i < |slots| :: slots[i] == None
      ensures forall c: nat | c < |pool.db| && pool.db[c].pooled :: pool.remaining[c] == old(pool.remaining)[c] + Offered(old(slots), c)
    {
      for i := 0 to |slots|
        invariant pool.Valid() && |slots| == |old(slots)| && OffersOk(pool.db, slots)
        invariant forall k | 0 <= k < i :: slots[k] == None
        invariant forall c: nat | c < |pool.db| && pool.db[c].pooled ::
                    pool.remaining[c] + Offered(slots, c) == old(pool.remaining)[c] + Offered(old(slots), c)
      {
        label before:
        if slots[i].Some? && pool.db[slots[i].value].pooled {
          OfferCounts(slots, i, slots[i].value);
          var returned := pool.Return(slots[i].value, 1);
          assert returned;
        }
        forall c: nat | c < |pool.db|
          ensures Offered(slots[i := None], c) == Offered(slots, c) - if slots[i] == Some(c) then 1 else 0
        {
          OfferedUpdate(slots, i, None, c);
        }
        slots := slots[i := None];
      }
      forall c: nat | c < |pool.db|
        ensures Offered(slots, c) == 0
      {
        NothingOffered(slots, c);
      }
    }

    // One champion: a tier by the level's odds (sold-out tiers left out), then a copy of that tier.
    // Nothing only if no tier holds a copy this owner may draw.
    method DrawOne(level: int, allowed: ChampionIndex -> bool) returns (drawn: Offer, ghost stock: seq<int>)
      requires Valid() && pool.Valid() && 1 <= level <= MAX_PLAYER_LEVEL
      modifies pool
      ensures pool.Valid() && DealsOne(pool.db, dropRatesByLevel[level - 1], allowed, old(pool.remaining), drawn, pool.remaining)
      ensures stock == StockByTier(pool.db, old(pool.remaining), allowed)
      ensures drawn.None? <==> forall t | 0 <= t < MAX_COST_TIER :: stock[t] <= 0
      ensures drawn.None? ==> pool.remaining == old(pool.remaining)
      ensures drawn.Some? ==> Taken(pool.db, old(pool.remaining), pool.remaining, drawn.value, 1) && pool.db[drawn.value].pooled && allowed(drawn.value)
      ensures drawn.Some? ==> var odds, tier := dropRatesByLevel[level - 1], pool.db[drawn.value].cost - 1;
                if Drawable(Weights(odds, stock), Anybody(), TIERS) > 0 then odds[tier] > 0
                else Nearest(stock, Favourite(odds, MAX_COST_TIER - 1), tier)
    {
      hide Drawable, DrawableOf, Pick, PickOf, Nearest, DealsOne;
      var odds := dropRatesByLevel[level - 1];
      stock := StockByTier(pool.db, pool.remaining, allowed);
      ghost var before := pool.remaining;
      var weights, total := TierWeights(odds, allowed, stock);
      if total > 0 {
        var roll := NextBelow(total);
        var t := PickTier(weights, roll);
        ghost var copy;
        drawn, copy := pool.DrawFromTier(t + 1, allowed);
        assert stock[t] > 0;
      } else {
        drawn := DrawNearest(odds, allowed, stock);
      }
      DealsOneIs(pool.db, odds, allowed, before, drawn, pool.remaining);
    }

    method TierWeights(odds: seq<int>, allowed: ChampionIndex -> bool, ghost stock: seq<int>) returns (weights: seq<int>, total: int)
      requires pool.Valid() && OddsOk(odds) && stock == StockByTier(pool.db, pool.remaining, allowed)
      ensures weights == Weights(odds, stock) && total == Drawable(weights, Anybody(), TIERS)
    {
      hide Drawable, DrawableOf;
      NoTiers(Weights(odds, stock));
      weights, total := [], 0;
      for t := 0 to MAX_COST_TIER
        invariant |weights| == t && weights == Weights(odds, stock)[..t] && total == Drawable(Weights(odds, stock), Anybody(), TIERS[..t])
      {
        DrawableNext(Weights(odds, stock), Anybody(), TIERS, t);
        var drawable := pool.DrawableInTier(t + 1, allowed);
        assert stock[t] == drawable;
        weights := weights + [if drawable > 0 then odds[t] else 0];
        total := total + weights[t];
      }
      assert TIERS[..MAX_COST_TIER] == TIERS;
    }

    static method FavouriteTier(odds: seq<int>) returns (favourite: nat)
      requires OddsOk(odds)
      ensures favourite == Favourite(odds, MAX_COST_TIER - 1) < MAX_COST_TIER
    {
      favourite := 0;
      for t := 1 to MAX_COST_TIER
        invariant favourite == Favourite(odds, t - 1) < t
      {
        if odds[t] > odds[favourite] {
          favourite := t;
        }
      }
    }

    method DrawNearest(odds: seq<int>, allowed: ChampionIndex -> bool, ghost stock: seq<int>) returns (drawn: Offer)
      requires pool.Valid() && OddsOk(odds) && stock == StockByTier(pool.db, pool.remaining, allowed)
      modifies pool
      ensures pool.Valid()
      ensures drawn.None? <==> forall t | 0 <= t < MAX_COST_TIER :: stock[t] <= 0
      ensures drawn.None? ==> pool.remaining == old(pool.remaining)
      ensures drawn.Some? ==> Taken(pool.db, old(pool.remaining), pool.remaining, drawn.value, 1) && pool.db[drawn.value].pooled && allowed(drawn.value)
      ensures drawn.Some? ==> Nearest(stock, Favourite(odds, MAX_COST_TIER - 1), pool.db[drawn.value].cost - 1)
    {
      hide Drawable, DrawableOf, Pick, PickOf, Favourite;
      var favourite := FavouriteTier(odds);
      for distance := 0 to MAX_COST_TIER
        invariant pool.Valid() && pool.remaining == old(pool.remaining)
        invariant forall k | 0 <= k < MAX_COST_TIER && Apart(favourite, k) < distance :: stock[k] <= 0
      {
        var below := favourite - distance;
        if below >= 0 {
          var drawable := pool.DrawableInTier(below + 1, allowed);
          assert stock[below] == drawable;
          if drawable > 0 {
            ghost var copy;
            drawn, copy := pool.DrawFromTier(below + 1, allowed);
            return;
          }
        }
        var above := favourite + distance;
        if distance > 0 && above < MAX_COST_TIER {
          var drawable := pool.DrawableInTier(above + 1, allowed);
          assert stock[above] == drawable;
          if drawable > 0 {
            ghost var copy;
            drawn, copy := pool.DrawFromTier(above + 1, allowed);
            return;
          }
        }
      }
      return None;
    }

    // Old offer back, new offer out, slot by slot: every copy that leaves one place arrives in the other,
    // and a slot stays empty only when nothing is left that its owner may draw.
    method Refresh(level: int, allowed: ChampionIndex -> bool)
      requires Valid() && pool.Valid() && Backed() && 1 <= level <= MAX_PLAYER_LEVEL
      modifies `slots, pool
      ensures Valid() && pool.Valid() && |slots| == |old(slots)|
      ensures forall c: nat | c < |pool.db| && pool.db[c].pooled ::
                pool.remaining[c] + Offered(slots, c) == old(pool.remaining)[c] + Offered(old(slots), c)
      ensures Deals(pool.db, dropRatesByLevel[level - 1], allowed, Restocked(pool.db, old(pool.remaining), old(slots)), slots, pool.remaining)
      ensures forall i | 0 <= i < |slots| && slots[i].Some? :: pool.db[slots[i].value].pooled && allowed(slots[i].value)
      ensures None in slots ==> SoldOut(pool.db, allowed, pool.remaining)
    {
      ReturnShopToPool();
      ghost var stock := Restocked(pool.db, old(pool.remaining), old(slots));
      AllReturned(pool.db, old(pool.remaining), old(slots), pool.remaining);
      forall c: nat
        ensures Offered(slots, c) == 0
      {
        NothingOffered(slots, c);
      }
      NothingDealt(pool.db, dropRatesByLevel[level - 1], allowed, stock);
      hide Deals, DealsOne, Restocked, SoldOut;
      for i := 0 to |slots|
        invariant pool.Valid() && |slots| == |old(slots)| && OffersOk(pool.db, slots)
        invariant forall k | i <= k < |slots| :: slots[k] == None
        invariant Deals(pool.db, dropRatesByLevel[level - 1], allowed, stock, slots[..i], pool.remaining)
        invariant forall c: nat | c < |pool.db| && pool.db[c].pooled ::
                    pool.remaining[c] + Offered(slots, c) == old(pool.remaining)[c] + Offered(old(slots), c)
      {
        ghost var before := pool.remaining;
        var drawn, _ := DrawOne(level, allowed);
        OfferedAt(slots, i, drawn);
        DealsNext(pool.db, dropRatesByLevel[level - 1], allowed, stock, slots[..i], before, drawn, pool.remaining);
        assert slots[i := drawn][..i + 1] == slots[..i] + [drawn];
        slots := slots[i := drawn];
      }
      assert slots[..|slots|] == slots;
      DealtIsAllowed(pool.db, dropRatesByLevel[level - 1], allowed, stock, slots, pool.remaining);
    }

    // A special unit takes the first slot; whatever pooled champion was there goes back.
    method OfferSpecial(champion: ChampionIndex) returns (offered: bool)
      requires Valid() && pool.Valid() && Backed() && champion < |pool.db| && !pool.db[champion].plant
      modifies `slots, pool
      ensures Valid() && pool.Valid() && |slots| == |old(slots)|
      ensures offered <==> !pool.db[champion].pooled && old(slots) != [] && Some(champion) !in old(slots)
      ensures if offered then slots == old(slots)[0 := Some(champion)] else slots == old(slots) && pool.remaining == old(pool.remaining)
      ensures forall c: nat | c < |pool.db| && pool.db[c].pooled ::
                pool.remaining[c] + Offered(slots, c) == old(pool.remaining)[c] + Offered(old(slots), c)
    {
      if pool.db[champion].pooled || slots == [] {
        return false;
      }
      for i := 0 to |slots|
        invariant forall k | 0 <= k < i :: slots[k] != Some(champion)
      {
        if slots[i] == Some(champion) {
          return false;
        }
      }
      if slots[0].Some? && pool.db[slots[0].value].pooled {
        OfferCounts(slots, 0, slots[0].value);
        var returned := pool.Return(slots[0].value, 1);
        assert returned;
      }
      forall c: nat | c < |pool.db| && pool.db[c].pooled
        ensures Offered(slots[0 := Some(champion)], c) == Offered(slots, c) - if slots[0] == Some(c) then 1 else 0
      {
        OfferedUpdate(slots, 0, Some(champion), c);
      }
      slots := slots[0 := Some(champion)];
      return true;
    }
  }

  // ---- Experience, sell values, bags ---------------------------------------------------------------

  // All the experience that level l and xp points into it stand for.
  function TotalXp(xpToNextLevel: seq<int>, level: nat, xp: int): int
    requires 1 <= level <= |xpToNextLevel| + 1
  {
    if level == 1 then xp else TotalXp(xpToNextLevel, level - 1, xp + xpToNextLevel[level - 2])
  }

  lemma {:induction false} TotalXpShift(xpToNextLevel: seq<int>, level: nat, xp: int, d: int)
    requires 1 <= level <= |xpToNextLevel| + 1
    ensures TotalXp(xpToNextLevel, level, xp + d) == TotalXp(xpToNextLevel, level, xp) + d
  {
    if level > 1 {
      TotalXpShift(xpToNextLevel, level - 1, xp + xpToNextLevel[level - 2], d);
      assert xp + d + xpToNextLevel[level - 2] == xp + xpToNextLevel[level - 2] + d;
    }
  }

  // One-cost units sell for exactly the copies spent; others lose 1 gold when merged.
  function SellValue(cost: int, star: int): int {
    Copies(star) * cost - if star > 1 && cost > 1 then 1 else 0
  }

  // The refund never exceeds what the copies cost, and falls short of it by at most one gold.
  lemma SellNeverProfits(cost: int, star: int)
    requires cost >= 1
    ensures 1 <= SellValue(cost, star) <= Copies(star) * cost <= SellValue(cost, star) + 1
  {
    MulMono(1, Copies(star), cost);
    if star > 1 && cost > 1 {
      assert Copies(star) * cost >= cost;
    }
  }

  // What is paid back: the price of one, three or nine copies -- the champion's own price if it has one, else
  // its cost -- and of a merged unit one gold less, unless the copies cost a single gold each.
  lemma RefundIsExact(c: Champion, star: int)
    requires 1 <= star <= 3
    ensures var paid := if c.price > 0 then c.price else c.cost;
            && Price(c) == paid
            && (star == 1 ==> SellValue(paid, star) == paid)
            && (star == 2 ==> SellValue(paid, star) == if paid > 1 then 3 * paid - 1 else 3 * paid)
            && (star == 3 ==> SellValue(paid, star) == if paid > 1 then 9 * paid - 1 else 9 * paid)
  {
    assert Copies(1) == 1;
    assert Copies(2) == 3 * Copies(1);
    assert Copies(3) == 3 * Copies(2);
  }

  // The unit is gone and its cell empty; its price is paid and its items are in the bag.
  ghost predicate IsSold(db: seq<Champion>, r: RosterState, unit: UnitId, t: RosterState, gold: int, after: int, bag: seq<ItemId>, filled: seq<ItemId>) {
    var k := IndexOf(r.units, unit);
    && k < |r.units| && r.units[k].champion < |db| && |r.units[k].items| == 3 && 0 <= r.units[k].cell < |r.cells|
    && t == r.(units := r.units[..k] + r.units[k + 1..], cells := r.cells[r.units[k].cell := 0])
    && after == gold + SellValue(Price(db[r.units[k].champion]), r.units[k].star)
    && filled == bag + ItemsIn(r.units[k].items)
  }

  lemma SoldIs(db: seq<Champion>, r: RosterState, unit: UnitId, gold: int, bag: seq<ItemId>)
    requires Layout(r)
    requires var k := IndexOf(r.units, unit); k < |r.units| && r.units[k].champion < |db|
    ensures var u := r.units[IndexOf(r.units, unit)];
            IsSold(db, r, unit, Remove(r, IndexOf(r.units, unit)), gold, gold + SellValue(Price(db[u.champion]), u.star), bag, bag + Carried(u.items))
  {
    LaidOutCells(r);
    IsSeated(r);
    hide Layout, Seated, IndexOf, SellValue, Price, Carried, ItemsIn;
    var k := IndexOf(r.units, unit);
    InstanceAt(r, k);
    CarriedExact(r.units[k].items);
  }

  // The first place of an item in a bag from k on; |bag| if there is none.
  function FirstIn(bag: seq<ItemId>, item: ItemId, k: nat): (r: nat)
    requires k <= |bag|
    ensures k <= r <= |bag| && (r < |bag| ==> bag[r] == item) && forall m | k <= m < r :: bag[m] != item
    decreases |bag| - k
  {
    if k == |bag| || bag[k] == item then k else FirstIn(bag, item, k + 1)
  }

  method FindIn(bag: seq<ItemId>, item: ItemId, from: nat) returns (k: nat)
    requires from <= |bag|
    ensures k == FirstIn(bag, item, from)
  {
    k := from;
    while k < |bag| && bag[k] != item
      invariant from <= k <= |bag| && FirstIn(bag, item, from) == FirstIn(bag, item, k)
    {
      k := k + 1;
    }
  }

  // A unit takes an item of the bag if it is no plant and the item combines or a slot is free -- an Item
  // Remover if it has something to take off.
  ghost predicate CanEquip(db: seq<Champion>, defs: seq<ItemDef>, hasItems: bool, units: seq<UnitInstance>, bag: seq<ItemId>, unit: UnitId, item: ItemId) {
    var k := IndexOf(units, unit);
    && item != 0 && item in bag && (!hasItems || Known(defs, item))
    && k < |units| && !IsPlant(db, units[k].champion)
    && if Consumes(defs, item) then Carried(units[k].items) != [] else !NoPlace(defs, units[k].items, item)
  }

  // The first entry with this item is gone, the others stay in order.
  ghost predicate IsOneLess(bag: seq<ItemId>, item: ItemId, after: seq<ItemId>) {
    exists k :: 0 <= k < |bag| && bag[k] == item && (forall m | 0 <= m < k :: bag[m] != item) && after == bag[..k] + bag[k + 1..]
  }

  // Unit k's items are off; everything else is as it was.
  ghost predicate IsBared(r: RosterState, unit: UnitId, t: RosterState) {
    var k := IndexOf(r.units, unit);
    k < |r.units| && t == r.(units := r.units[k := r.units[k].(items := [0, 0, 0])])
  }

  // The bag without the remover and with what it took off, in slot order.
  ghost predicate GivesBack(bag: seq<ItemId>, item: ItemId, units: seq<UnitInstance>, unit: UnitId, after: seq<ItemId>) {
    var k := IndexOf(units, unit);
    k < |units| && |units[k].items| == 3 && exists rest :: IsOneLess(bag, item, rest) && after == rest + ItemsIn(units[k].items)
  }

  // One of each is gone, and what their recipe makes is there.
  ghost predicate IsCombined(defs: seq<ItemDef>, bag: seq<ItemId>, first: ItemId, second: ItemId, after: seq<ItemId>) {
    exists k :: 0 <= k < |defs| && Makes(defs[k], first, second) && multiset(after) == multiset(bag) - multiset{first, second} + multiset{defs[k].id}
  }

  lemma CombinedIs(defs: seq<ItemDef>, bag: seq<ItemId>, first: ItemId, second: ItemId)
    requires DatabaseOk(defs)
    ensures var made := Combination(defs, first, second);
            forall after: seq<ItemId> :: made != 0 && multiset(after) == multiset(bag) - multiset{first, second} + multiset{made} ==> IsCombined(defs, bag, first, second, after)
  {
    PairsExact(defs, first, second);
    hide Combination, Makes, DatabaseOk;
  }

  lemma PairsAreItems(defs: seq<ItemDef>, first: ItemId, second: ItemId)
    ensures Pairs(defs, first, second) ==> first != 0 && second != 0
  {
  }

  // Slot `slot` of this unit holds an item.
  predicate MayTakeOff(units: seq<UnitInstance>, unit: UnitId, slot: int) {
    var k := IndexOf(units, unit);
    k < |units| && 0 <= slot < 3 && slot < |units[k].items| && units[k].items[slot] != 0
  }

  function ItemAt(units: seq<UnitInstance>, unit: UnitId, slot: int): ItemId {
    var k := IndexOf(units, unit);
    if k < |units| && 0 <= slot < |units[k].items| then units[k].items[slot] else 0
  }

  ghost predicate IsTakenOff(r: RosterState, unit: UnitId, slot: int, t: RosterState) {
    var k := IndexOf(r.units, unit);
    k < |r.units| && 0 <= slot < |r.units[k].items| && t == r.(units := r.units[k := r.units[k].(items := r.units[k].items[slot := 0])])
  }

  lemma UnequippedExact(r: RosterState, unit: UnitId, slot: int)
    ensures var (t, result, item) := Unequipped(r, unit, slot);
            && (result == Ok <==> MayTakeOff(r.units, unit, slot))
            && if result == Ok then IsTakenOff(r, unit, slot, t) && item == ItemAt(r.units, unit, slot) else t == r
  {
    hide IndexOf;
  }

  lemma RoomOnUnit(r: RosterState, defs: seq<ItemDef>, unit: UnitId, item: ItemId)
    requires DatabaseOk(defs) && item != 0
    ensures var k := IndexOf(r.units, unit);
            k < |r.units| ==> (PlaceItem(defs, r.units[k].items, item).None? <==> NoPlace(defs, r.units[k].items, item))
  {
    hide IndexOf, PlaceItem, NoPlace, DatabaseOk;
    var k := IndexOf(r.units, unit);
    if k < |r.units| {
      RoomForItem(defs, r.units[k].items, item);
    }
  }

  lemma CarriedNone(items: seq<ItemId>)
    ensures Carried(items[..0]) == []
  {
  }

  lemma CarriedNext(items: seq<ItemId>, k: nat)
    requires k < |items|
    ensures Carried(items[..k + 1]) == Carried(items[..k]) + if items[k] == 0 then [] else [items[k]]
  {
    assert items[..k + 1][..k] == items[..k];
  }

  // Two different entries of the bag hold these items.
  predicate TwoEntries(bag: seq<ItemId>, first: ItemId, second: ItemId) {
    exists a, b :: 0 <= a < |bag| && 0 <= b < |bag| && a != b && bag[a] == first && bag[b] == second
  }

  // Two different entries that hold these items.
  method FindPair(bag: seq<ItemId>, first: ItemId, second: ItemId) returns (found: bool, a: nat, b: nat)
    ensures found <==> TwoEntries(bag, first, second)
    ensures found ==> a < |bag| && b < |bag| && a != b && bag[a] == first && bag[b] == second
  {
    hide TwoEntries;
    SecondEntry(bag, first, second);
    a := FindIn(bag, first, 0);
    b := FindIn(bag, second, 0);
    if a < |bag| && b == a {
      b := FindIn(bag, second, a + 1);
    }
    found := a < |bag| && b < |bag|;
  }

  // The first entry of the one and the first other entry of the other are found exactly if there are two.
  lemma SecondEntry(bag: seq<ItemId>, first: ItemId, second: ItemId)
    ensures var a, b0 := FirstIn(bag, first, 0), FirstIn(bag, second, 0);
            TwoEntries(bag, first, second) <==> a < |bag| && b0 < |bag| && (b0 != a || FirstIn(bag, second, a + 1) < |bag|)
  {
    var a, b0 := FirstIn(bag, first, 0), FirstIn(bag, second, 0);
    if a < |bag| && b0 < |bag| && b0 != a {
      assert bag[a] == first && bag[b0] == second;
    }
    if a < |bag| && b0 == a && FirstIn(bag, second, a + 1) < |bag| {
      assert bag[a] == first && bag[FirstIn(bag, second, a + 1)] == second;
    }
  }

  predicate Consumes(defs: seq<ItemDef>, item: ItemId) {
    exists k | 0 <= k < |defs| :: defs[k].id == item && defs[k].consumable
  }

  // ---- The player ------------------------------------------------------------------------------------

  datatype PlayerConfig = PlayerConfig(startingHealth: int, startingGold: nat, limitBoardToLevel: bool, buyXpCost: nat, buyXpAmount: int, xpToNextLevel: seq<int>)

  predicate PlayerConfigOk(c: PlayerConfig) {
    && c.startingHealth > 0 && c.buyXpAmount > 0
    && |c.xpToNextLevel| == MAX_PLAYER_LEVEL - 1 && forall l | 0 <= l < |c.xpToNextLevel| :: c.xpToNextLevel[l] > 0
  }

  datatype RoundResult = Win | Loss | Tie

  class PlayerState {
    const id: nat
    const config: PlayerConfig
    const pool: SharedChampionPool
    const roster: UnitRoster
    const shop: ShopManager
    const hasItems: bool   // whether there is an item database
    var health: int
    var level: nat
    var xp: int
    var gold: int
    var streak: int
    var shopLocked: bool
    var eliminated: bool
    var placement: int
    var benchOnly: bool
    var itemBag: seq<ItemId>
    var unlocked: seq<ChampionIndex>

    // Everything of the player's own (the pool is everybody's).
    ghost predicate Own()
      reads this, roster, shop
    {
      && PlayerConfigOk(config) && roster.Valid() && shop.Valid()
      && roster.db == pool.db && shop.pool == pool && roster.owner == id && (!hasItems ==> roster.defs == [])
      && 1 <= level <= MAX_PLAYER_LEVEL && gold >= 0 && 0 <= xp && (level == MAX_PLAYER_LEVEL ==> xp == 0)
      && (level < MAX_PLAYER_LEVEL ==> xp < config.xpToNextLevel[level - 1])
      && (eliminated ==> roster.units == [] && NoOffers(shop.slots)) && PlantsBare(pool.db, roster.units)
    }

    // The copies of champion c this player holds.
    ghost function Held(c: ChampionIndex): nat
      reads roster`units, shop`slots
    {
      Offered(shop.slots, c) + Weight(roster.units, c)
    }

    // What the player holds fits the pool's supply.
    ghost predicate Backed()
      reads roster, shop, pool
    {
      |pool.remaining| == |pool.initial| == |pool.db| &&
      forall c: nat | c < |pool.db| && pool.db[c].pooled :: pool.remaining[c] + Held(c) <= pool.initial[c]
    }

    // How often the base component x is among the player's items, in the bag and on the units.
    ghost function ItemTotal(x: ItemId): nat
      reads `itemBag, roster`units
    {
      PartsOf(roster.defs, itemBag, x) + UnitParts(roster.defs, roster.units, x)
    }

    constructor (id: nat, config: PlayerConfig, pool: SharedChampionPool, rerollCost: int, dropRatesByLevel: seq<seq<int>>, slotCount: nat,
                 hasItems: bool, defs: seq<ItemDef>)
      requires pool.Valid() && PlayerConfigOk(config) && DatabaseOk(defs) && (!hasItems ==> defs == [])
      requires rerollCost >= 0 && |dropRatesByLevel| == MAX_PLAYER_LEVEL
      requires forall l | 0 <= l < MAX_PLAYER_LEVEL :: OddsOk(dropRatesByLevel[l])
      ensures Own() && this.pool == pool && this.id == id && fresh(roster) && fresh(shop) && !eliminated && !benchOnly && placement == 0
      ensures forall c: nat :: Held(c) == 0
      ensures health == config.startingHealth
    {
      this.id, this.config, this.pool, this.hasItems := id, config, pool, hasItems;
      health, gold, level, xp, streak := config.startingHealth, config.startingGold, 1, 0, 0;
      shopLocked, eliminated, placement, benchOnly, itemBag, unlocked := false, false, 0, false, [], [];
      roster := new UnitRoster(id, pool.db, defs);
      shop := new ShopManager(pool, rerollCost, dropRatesByLevel, slotCount);
      new;
      SyncBoardCapacity();
      forall c: nat
        ensures Held(c) == 0
      {
        NothingOffered(shop.slots, c);
      }
    }

    method SyncBoardCapacity()
      requires roster.Valid()
      modifies roster`boardCapacity
      ensures roster.Valid() && roster.boardCapacity == if config.limitBoardToLevel then level else BOARD_CELLS
    {
      CapacityIsFree(roster.State(), if config.limitBoardToLevel then level else BOARD_CELLS);
      hide DatabaseOk, ChampionsOk, Layout, Settled;
      roster.boardCapacity := if config.limitBoardToLevel then level else BOARD_CELLS;
    }

    // ---- Levelling and gold ------------------------------------------------------------------------

    // Experience is never lost on the way up; at the top level the bar is empty.
    method AddXp(amount: int)
      requires Own()
      modifies `level, `xp, roster`boardCapacity
      ensures Own() && level >= old(level)
      ensures amount <= 0 || old(level) == MAX_PLAYER_LEVEL ==> level == old(level) && xp == old(xp) && roster.boardCapacity == old(roster.boardCapacity)
      ensures amount > 0 && old(level) < MAX_PLAYER_LEVEL ==> roster.boardCapacity == if config.limitBoardToLevel then level else BOARD_CELLS
      ensures amount > 0 && level < MAX_PLAYER_LEVEL ==>
                TotalXp(config.xpToNextLevel, level, xp) == TotalXp(config.xpToNextLevel, old(level), old(xp)) + amount
      ensures amount > 0 && old(level) < MAX_PLAYER_LEVEL && level == MAX_PLAYER_LEVEL ==>
                TotalXp(config.xpToNextLevel, level, 0) <= TotalXp(config.xpToNextLevel, old(level), old(xp)) + amount
    {
      if amount <= 0 || level >= MAX_PLAYER_LEVEL {
        return;
      }
      TotalXpShift(config.xpToNextLevel, level, xp, amount);
      ghost var total := TotalXp(config.xpToNextLevel, level, xp) + amount;
      hide Layout, Settled, DatabaseOk, ChampionsOk;
      xp := xp + amount;
      while level < MAX_PLAYER_LEVEL && xp >= config.xpToNextLevel[level - 1]
        invariant old(level) <= level <= MAX_PLAYER_LEVEL && 0 <= xp
        invariant TotalXp(config.xpToNextLevel, level, xp) == total
        decreases MAX_PLAYER_LEVEL - level
      {
        xp := xp - config.xpToNextLevel[level - 1];
        level := level + 1;
      }
      if level == MAX_PLAYER_LEVEL {
        TotalXpShift(config.xpToNextLevel, level, 0, xp);
        xp := 0;
      }
      SyncBoardCapacity();
    }

    method TryBuyXp() returns (result: ActionResult)
      requires Own()
      modifies `level, `xp, `gold, roster`boardCapacity
      ensures Own()
      ensures result == Ok <==> !eliminated && old(level) < MAX_PLAYER_LEVEL && old(gold) >= config.buyXpCost
      ensures gold == old(gold) - if result == Ok then config.buyXpCost else 0
      ensures result != Ok ==> level == old(level) && xp == old(xp) && roster.boardCapacity == old(roster.boardCapacity)
      ensures result == Ok ==>
                && level >= old(level) && roster.boardCapacity == (if config.limitBoardToLevel then level else BOARD_CELLS)
                && var total := TotalXp(config.xpToNextLevel, old(level), old(xp)) + config.buyXpAmount;
                   if level == MAX_PLAYER_LEVEL then TotalXp(config.xpToNextLevel, level, 0) <= total else TotalXp(config.xpToNextLevel, level, xp) == total
    {
      if eliminated {
        return PlayerEliminated;
      }
      if level >= MAX_PLAYER_LEVEL {
        return MaxLevel;
      }
      var paid := TrySpendGold(config.buyXpCost);
      if !paid {
        return NotEnoughGold;
      }
      AddXp(config.buyXpAmount);
      return Ok;
    }

    method AddGold(amount: int)
      requires Own()
      modifies `gold
      ensures Own() && gold == old(gold) + if amount > 0 then amount else 0
    {
      hide Layout, Settled, DatabaseOk, ChampionsOk;
      if amount > 0 {
        gold := gold + amount;
      }
    }

    // Deducts only what is fully affordable.
    method TrySpendGold(amount: int) returns (paid: bool)
      requires Own()
      modifies `gold
      ensures Own() && paid == (0 <= amount <= old(gold)) && gold == old(gold) - if paid then amount else 0
    {
      hide Layout, Settled, DatabaseOk, ChampionsOk;
      if amount < 0 || gold < amount {
        return false;
      }
      gold := gold - amount;
      return true;
    }

    method ApplyDamage(amount: int)
      requires Own()
      modifies `health
      ensures Own() && health == old(health) - if amount > 0 && !eliminated then amount else 0
    {
      hide Layout, Settled, DatabaseOk, ChampionsOk;
      if amount > 0 && !eliminated {
        health := health - amount;
      }
    }

    method SetPlacement(placement: int)
      requires Own()
      modifies `placement
      ensures Own() && this.placement == placement
    {
      this.placement := placement;
    }

    // Never above the starting health.
    method Heal(amount: int) returns (restored: int)
      requires Own()
      modifies `health
      ensures Own() && health == old(health) + restored
      ensures var missing := config.startingHealth - old(health);
              restored == if amount <= 0 || eliminated || missing <= 0 then 0 else Least(amount, missing)
    {
      hide Layout, Settled, DatabaseOk, ChampionsOk;
      if amount <= 0 || eliminated || health >= config.startingHealth {
        return 0;
      }
      restored := Least(amount, config.startingHealth - health);
      health := health + restored;
    }

    method RecordRoundResult(result: RoundResult)
      requires Own()
      modifies `streak
      ensures Own()
      ensures streak == match result
                        case Win => (if old(streak) > 0 then old(streak) + 1 else 1)
                        case Loss => (if old(streak) < 0 then old(streak) - 1 else -1)
                        case Tie => old(streak)
    {
      hide Layout, Settled, DatabaseOk, ChampionsOk;
      match result
      case Win => streak := if streak > 0 then streak + 1 else 1;
      case Loss => streak := if streak < 0 then streak - 1 else -1;
      case Tie =>
    }

    // ---- Units -------------------------------------------------------------------------------------

    // The purchase, tried out on a copy of the roster.
    method BenchOnlyPurchaseFits(champion: ChampionIndex, star: int) returns (fits: bool)
      requires Own() && !IsPlant(pool.db, champion)
      ensures fits == BenchOnly(roster.State(), pool.db, roster.defs, champion, star)
    {
      hide Layout, Settled, DatabaseOk, ChampionsOk, CanAdd, NewUnit, OnBoard, Seated, MergeAll, MayAdd, IsAdded;
      ghost var r := roster.State();
      LayoutSeated(r);
      AddParts(r, pool.db, champion, star);
      var trial := new UnitRoster.Copy(roster);
      var added, unit, merges := trial.AddUnit(champion, star);
      if !added || OnBoard(unit) {
        return false;
      }
      for m := 0 to |merges|
        invariant forall i | 0 <= i < m :: !OnBoard(merges[i].upgraded)
      {
        if OnBoard(merges[m].upgraded) {
          assert SomeOnBoard(merges);
          return false;
        }
      }
      // The server also rejects a merge that uses up a unit standing on the board: that never happens.
      ConsumedNeverFielded(r, pool.db, roster.defs, champion, star);
      fits := true;
      for m := 0 to |merges|
        invariant fits
      {
        for i := 0 to |merges[m].consumed|
          invariant fits
        {
          var k := roster.Find(merges[m].consumed[i]);
          assert NotFielded(r.units, merges[m].consumed[i]);
          fits := fits && !(k < |roster.units| && OnBoard(roster.units[k]));
        }
      }
    }

    method CanAcquire(champion: ChampionIndex, star: int) returns (ok: bool)
      requires Own() && !IsPlant(pool.db, champion)
      ensures ok == MayAcquire(champion, star)
    {
      hide Layout, Settled, DatabaseOk, ChampionsOk, CanAdd, Seated, BenchOnly, MayTakeIn;
      MayTakeInIs(roster.State(), pool.db, roster.defs, champion, star, benchOnly);
      SeatedCells(roster.State());
      if eliminated {
        return false;
      }
      ok := roster.Accepts(champion, star);
      if ok && benchOnly {
        ok := BenchOnlyPurchaseFits(champion, star);
      }
    }

    // Only while the board is locked is there another reason than a full roster.
    method BlockedReason(champion: ChampionIndex, star: int) returns (reason: ActionResult)
      requires Own() && !IsPlant(pool.db, champion)
      ensures |roster.cells| == CELLS
      ensures reason == if benchOnly && MayAdd(roster.State(), pool.db, champion, star) && (exists x :: BenchSlotFree(roster.State(), x)) then UnitInCombat else RosterFull
    {
      hide Layout, Settled, DatabaseOk, ChampionsOk, CanAdd, Seated, BenchCount, MayAdd, BenchSlotFree, FilledUpTo;
      LayoutSeated(roster.State());
      CountsAreCells(roster.State(), pool.db);
      BenchHasRoom(roster.State());
      SeatedCells(roster.State());
      if benchOnly {
        var room := roster.Accepts(champion, star);
        if room {
          var bench := roster.CountBench();
          if bench < BENCH_SLOTS {
            return UnitInCombat;
          }
        }
      }
      return RosterFull;
    }

    ghost predicate MayAcquire(champion: ChampionIndex, star: int)
      requires Own()
      reads this, roster, shop
    {
      RosterIsSeated();
      !eliminated && MayTakeIn(roster.State(), pool.db, roster.defs, champion, star, benchOnly)
    }

    method SetShopLocked(locked: bool)
      requires Own()
      modifies `shopLocked
      ensures Own() && shopLocked == locked
    {
      shopLocked := locked;
    }

    method SetBenchOnlyPurchases(on: bool)
      requires Own()
      modifies `benchOnly
      ensures Own() && benchOnly == on
    {
      benchOnly := on;
    }

    // A copy that was checked out of the pool for this player (an opening unit, a drop, a gift): it
    // joins the roster, or goes back -- and is paid for -- when there is no room.
    method Receive(champion: ChampionIndex, refund: bool) returns (kept: bool)
      requires Own() && pool.Valid() && !eliminated && champion < |pool.db| && pool.db[champion].pooled
      requires pool.remaining[champion] < pool.initial[champion]
      modifies `gold, `itemBag, roster, pool
      ensures Own() && pool.Valid()
      ensures kept == old(MayAcquire(champion, 1))
      ensures if kept then && roster.State() == Add(old(roster.State()), pool.db, roster.defs, champion, 1).0
                           && itemBag == old(itemBag) + Overflow(Add(old(roster.State()), pool.db, roster.defs, champion, 1).1)
              else itemBag == old(itemBag) && roster.State() == old(roster.State())
      ensures pool.remaining == if kept then old(pool.remaining) else old(pool.remaining)[champion := old(pool.remaining)[champion] + 1]
      ensures gold == old(gold) + if !kept && refund && pool.db[champion].cost > 0 then pool.db[champion].cost else 0
      ensures forall c: nat | c < |pool.db| && pool.db[c].pooled ::
                pool.remaining[c] + Held(c) == old(pool.remaining[c] + Held(c)) + if c == champion then 1 else 0
      ensures forall x: nat :: ItemTotal(x) == old(ItemTotal(x))
    {
      hide Layout, Settled, DatabaseOk, CanAdd, BenchOnly, PartsOf, UnitParts, Weight, BoardOf, Add, Offered, PlayerState.MayAcquire;
      kept := CanAcquire(champion, 1);
      if kept {
        var acquired := AcquireUnit(champion, 1);
        assert Copies(1) == 1;
      } else {
        var returned := pool.Return(champion, 1);
        assert returned;
        if refund {
          AddGold(pool.db[champion].cost);
        }
      }
    }

    // The unit joins the roster and merges; what no longer fits on a merged unit goes into the bag.
    // While only bench purchases are allowed no unit on the board changes.
    method AcquireUnit(champion: ChampionIndex, star: int) returns (result: ActionResult)
      requires Own() && !IsPlant(pool.db, champion)
      modifies `itemBag, roster
      ensures Own()
      ensures result == Ok <==> old(MayAcquire(champion, star))
      ensures result != Ok ==> itemBag == old(itemBag) && roster.State() == old(roster.State())
      ensures result == Ok ==> roster.State() == Add(old(roster.State()), pool.db, roster.defs, champion, star).0
                               && itemBag == old(itemBag) + Overflow(Add(old(roster.State()), pool.db, roster.defs, champion, star).1)
      ensures forall c: nat :: Held(c) == old(Held(c)) + if result == Ok && c == champion then Copies(star) else 0
      ensures forall x: nat :: ItemTotal(x) == old(ItemTotal(x))
      ensures result == Ok && benchOnly ==> BoardOf(roster.units) == BoardOf(old(roster.units))
    {
      hide Layout, Settled, DatabaseOk, ChampionsOk, CanAdd, Seated, BenchOnly, Add, BoardOf, Weight, Offered, PartsOf, UnitParts, Copies, MayTakeIn, MayAdd;
      ghost var r := roster.State();
      MayTakeInIs(r, pool.db, roster.defs, champion, star, benchOnly);
      SeatedCells(r);
      if eliminated {
        return PlayerEliminated;
      }
      if champion >= |pool.db| || star < 1 || star > MAX_STAR_LEVEL {
        CanAddKnown(r, pool.db, champion, star);
        return InvalidUnit;
      }
      var room := roster.Accepts(champion, star);
      if !room {
        return RosterFull;
      }
      if benchOnly {
        var fits := BenchOnlyPurchaseFits(champion, star);
        if !fits {
          result := BlockedReason(champion, star);
          return;
        }
      }
      TakeIn(champion, star);
      return Ok;
    }

    // The unit is in, and its merges are done.
    method TakeIn(champion: ChampionIndex, star: int)
      requires Own() && !IsPlant(pool.db, champion) && !eliminated && CanAdd(roster.State(), pool.db, champion, star)
      modifies `itemBag, roster
      ensures Own() && roster.State() == Add(old(roster.State()), pool.db, roster.defs, champion, star).0
      ensures itemBag == old(itemBag) + Overflow(Add(old(roster.State()), pool.db, roster.defs, champion, star).1)
      ensures forall c: nat :: Weight(roster.units, c) == Weight(old(roster.units), c) + if c == champion then Copies(star) else 0
      ensures forall x: nat :: ItemTotal(x) == old(ItemTotal(x))
    {
      hide Layout, Settled, DatabaseOk, ChampionsOk, CanAdd, Seated, Add, NewUnit, PartsOf, UnitParts, Weight, MayAdd, IsAdded;
      ghost var r := roster.State();
      LayoutSeated(r);
      AddKeepsBare(r, pool.db, roster.defs, champion, star);
      var _, _, merges := roster.AddUnit(champion, star);
      var overflow := CollectOverflow(merges);
      forall x: nat
        ensures PartsOf(roster.defs, itemBag + overflow, x) + UnitParts(roster.defs, roster.units, x) == old(ItemTotal(x))
      {
        AddTotals(r, pool.db, roster.defs, champion, star, 0, x);
        PartsAppend(roster.defs, itemBag, overflow, x);
      }
      forall c: nat
        ensures Weight(roster.units, c) == Weight(r.units, c) + if c == champion then Copies(star) else 0
      {
        AddTotals(r, pool.db, roster.defs, champion, star, c, 0);
      }
      itemBag := itemBag + overflow;
    }

    method TryMoveUnit(unit: UnitId, location: Location, x: int, y: int) returns (result: ActionResult)
      requires Own()
      modifies roster`units, roster`cells
      ensures Own()
      ensures eliminated ==> result == PlayerEliminated && roster.State() == old(roster.State())
      ensures !eliminated ==> (roster.State(), result) == Moved(old(roster.State()), pool.db, unit, location, x, y)
      ensures result == Ok <==> !eliminated && MayMove(old(roster.State()), pool.db, unit, location, x, y)
      ensures result == Ok ==> IsMove(old(roster.State()), pool.db, unit, location, x, y, roster.State())
      ensures result != Ok ==> roster.State() == old(roster.State())
      ensures forall c: nat :: Held(c) == old(Held(c))
      ensures forall y: nat :: ItemTotal(y) == old(ItemTotal(y))
    {
      hide Layout, Settled, DatabaseOk, ChampionsOk, Moved, MayMove, IsMove;
      if eliminated {
        return PlayerEliminated;
      }
      ghost var r := roster.State();
      MoveIs(r, pool.db, unit, location, x, y);
      LayoutSeated(r);
      SeatedCells(r);
      MovedKeeps(r, pool.db, unit, location, x, y);
      MovedBare(r, pool.db, unit, location, x, y);
      result := roster.Move(unit, location, x, y);
      forall c: nat
        ensures Weight(roster.units, c) == Weight(r.units, c)
      {
        SameButCellsTotals(roster.defs, r.units, roster.units, c, 0, 0);
      }
      forall z: nat
        ensures UnitParts(roster.defs, roster.units, z) == UnitParts(roster.defs, r.units, z)
      {
        SameButCellsTotals(roster.defs, r.units, roster.units, 0, 0, z);
      }
    }

    // All copies a sold unit stands for go back to the pool, its items to the bag.
    method SellUnit(unit: UnitId) returns (result: ActionResult)
      requires Own() && pool.Valid() && Backed()
      modifies `gold, `itemBag, roster`units, roster`cells, pool
      ensures Own() && pool.Valid()
      ensures var r := old(roster.State());
              var k := IndexOf(r.units, unit);
              && (result == Ok <==> !eliminated && k < |r.units| && !IsPlant(pool.db, r.units[k].champion))
              && (result == Ok ==> roster.State() == Remove(r, k) && gold == old(gold) + SellValue(Price(pool.db[r.units[k].champion]), r.units[k].star))
      ensures result == Ok ==> IsSold(pool.db, old(roster.State()), unit, roster.State(), old(gold), gold, old(itemBag), itemBag)
      ensures result != Ok ==> gold == old(gold) && itemBag == old(itemBag) && roster.State() == old(roster.State()) && pool.remaining == old(pool.remaining)
      ensures forall c: nat | c < |pool.db| && pool.db[c].pooled :: pool.remaining[c] + Held(c) == old(pool.remaining[c] + Held(c))
      ensures forall x: nat :: ItemTotal(x) == old(ItemTotal(x))
    {
      hide Layout, Settled, DatabaseOk, Seated, IsPlant, UnitKnown, PartsOf, UnitParts, Weight, IndexOf, SellValue, Offered, Remove, Copies, IsSold, Carried;
      ghost var r := roster.State();
      if eliminated {
        return PlayerEliminated;
      }
      var k := roster.Find(unit);
      if k == |roster.units| || IsPlant(pool.db, roster.units[k].champion) {
        return InvalidUnit;
      }
      var sold := roster.units[k];
      KnownChampion(r, pool.db, k);
      Dismiss(unit, k);
      SellNeverProfits(Price(pool.db[sold.champion]), sold.star);
      SoldIs(pool.db, r, unit, gold, old(itemBag));
      gold := gold + SellValue(Price(pool.db[sold.champion]), sold.star);
      return Ok;
    }

    method Dismiss(unit: UnitId, ghost k: nat)
      requires Own() && pool.Valid() && Backed() && k == IndexOf(roster.units, unit) < |roster.units|
      modifies `itemBag, roster`units, roster`cells, pool
      ensures Own() && pool.Valid() && roster.State() == Remove(old(roster.State()), k)
      ensures itemBag == old(itemBag) + Carried(old(roster.units)[k].items)
      ensures forall c: nat | c < |pool.db| && pool.db[c].pooled :: pool.remaining[c] + Held(c) == old(pool.remaining[c] + Held(c))
      ensures forall x: nat :: ItemTotal(x) == old(ItemTotal(x))
    {
      hide Layout, Settled, DatabaseOk, Seated, IsPlant, UnitKnown, PartsOf, UnitParts, Weight, IndexOf, Offered;
      ghost var r := roster.State();
      LayoutSeated(r);
      KnownChampion(r, pool.db, k);
      RemovedKeeps(r, pool.db, k);
      RemovedBare(r, pool.db, k);
      var _, sold := roster.RemoveUnit(unit);
      assert roster.State() == Remove(r, k);
      forall c: nat
        ensures Weight(roster.units, c) == Weight(r.units, c) - Weighs(sold, c)
      {
        EraseTotals(roster.defs, r.units, k, c, 0, 0);
      }
      forall x: nat
        ensures UnitParts(roster.defs, roster.units, x) == UnitParts(roster.defs, r.units, x) - PartsOf(roster.defs, sold.items, x)
      {
        EraseTotals(roster.defs, r.units, k, 0, 0, x);
      }
      if pool.db[sold.champion].pooled {
        var returned := pool.Return(sold.champion, Copies(sold.star));
        assert returned;
      }
      var carried := Collect(sold.items);
      forall x: nat
        ensures PartsOf(roster.defs, itemBag + carried, x) == PartsOf(roster.defs, itemBag, x) + PartsOf(roster.defs, sold.items, x)
      {
        PartsAppend(roster.defs, itemBag, carried, x);
        CarriedParts(roster.defs, sold.items, x);
      }
      itemBag := itemBag + carried;
    }

    // ---- Items -------------------------------------------------------------------------------------

    method IsKnownItem(item: ItemId) returns (known: bool, consumed: bool)
      requires Own()
      ensures known <==> !hasItems || Known(roster.defs, item)
      ensures consumed <==> Consumes(roster.defs, item)
    {
      if !hasItems {
        return true, false;
      }
      var def := Items.Find(roster.defs, item);
      DefIsUnique(roster.defs, item);
      return def.Some?, def.Some? && def.value.consumable;
    }

    method AddItemToBag(item: ItemId) returns (added: bool)
      requires Own()
      modifies `itemBag
      ensures Own() && added == (item != 0 && (!hasItems || Known(roster.defs, item)))
      ensures itemBag == if added then old(itemBag) + [item] else old(itemBag)
      ensures forall x: nat :: ItemTotal(x) == old(ItemTotal(x)) + if added then Parts(roster.defs, item, x) else 0
    {
      hide *;
      TotalsAre();
      var known, _ := IsKnownItem(item);
      if item == 0 || !known {
        return false;
      }
      forall x: nat
        ensures PartsOf(roster.defs, itemBag + [item], x) == PartsOf(roster.defs, itemBag, x) + Parts(roster.defs, item, x)
      {
        PartsAppend(roster.defs, itemBag, [item], x);
        PartsOfOne(roster.defs, item, x);
      }
      SetBag(itemBag + [item]);
      TotalsAre();
      return true;
    }

    // Items (those the game knows) and gold that are paid out together.
    method PayOut(items: seq<ItemId>, amount: int)
      requires Own()
      modifies `itemBag, `gold
      ensures Own() && itemBag == old(itemBag) + KnownOnes(hasItems, roster.defs, items)
      ensures forall x: nat :: ItemTotal(x) == old(ItemTotal(x)) + PartsOf(roster.defs, KnownOnes(hasItems, roster.defs, items), x)
      ensures gold == old(gold) + if amount > 0 then amount else 0
    {
      hide *;
      TotalsAre();
      NoneKnown(hasItems, roster.defs);
      assert items[..0] == [];
      for k := 0 to |items|
        invariant Own() && itemBag == old(itemBag) + KnownOnes(hasItems, roster.defs, items[..k]) && gold == old(gold)
      {
        var added := AddItemToBag(items[k]);
        OneKnownMore(hasItems, roster.defs, items, k);
      }
      assert items[..|items|] == items;
      TotalsAre();
      forall x: nat
        ensures PartsOf(roster.defs, itemBag, x) == PartsOf(roster.defs, old(itemBag), x) + PartsOf(roster.defs, KnownOnes(hasItems, roster.defs, items), x)
      {
        PartsAppend(roster.defs, old(itemBag), KnownOnes(hasItems, roster.defs, items), x);
      }
      AddGold(amount);
    }

    // An item goes from the bag onto a unit -- combining if it can --, or an Item Remover takes
    // everything off one. Nothing is ever lost, except a remover that was used.
    method TryEquipItem(unit: UnitId, item: ItemId) returns (result: ActionResult)
      requires Own()
      modifies `itemBag, roster`units
      ensures Own()
      ensures result != Ok ==> itemBag == old(itemBag) && roster.State() == old(roster.State())
      ensures forall c: nat :: Held(c) == old(Held(c))
      ensures forall x: nat :: ItemTotal(x) == old(ItemTotal(x)) - if result == Ok && Consumes(roster.defs, item) then One(item, x) else 0
      ensures result == Ok <==> !eliminated && old(CanEquip(pool.db, roster.defs, hasItems, roster.units, itemBag, unit, item))
      ensures result == Ok && !Consumes(roster.defs, item) ==>
                && roster.State() == Equipped(old(roster.State()), roster.defs, unit, item).0
                && EquipsOnto(old(roster.State()), roster.defs, unit, item, roster.State(), Ok) && IsOneLess(old(itemBag), item, itemBag)
      ensures result == Ok && Consumes(roster.defs, item) ==>
                && roster.State() == Bared(old(roster.State()), unit)
                && IsBared(old(roster.State()), unit, roster.State()) && GivesBack(old(itemBag), item, old(roster.units), unit, itemBag)
    {
      hide Layout, Settled, DatabaseOk, ChampionsOk, Equipped, Consumes, PartsOf, UnitParts, Weight, PlantsBare, PlaceItem, Carried, Known, Bared, NoPlace, EquipsOnto, IsBared, GivesBack, IsOneLess;
      if eliminated {
        return PlayerEliminated;
      }
      var at := FindIn(itemBag, item, 0);
      if item == 0 || at == |itemBag| {
        return InvalidItem;
      }
      var known, consumed := IsKnownItem(item);
      if !known {
        return InvalidItem;
      }
      var k := roster.Find(unit);
      if k < |roster.units| && IsPlant(pool.db, roster.units[k].champion) {
        return InvalidUnit;
      }
      if consumed {
        result := UseRemover(unit, item, at);
      } else {
        result := EquipFromBag(unit, item, at);
      }
    }

    method EquipFromBag(unit: UnitId, item: ItemId, at: nat) returns (result: ActionResult)
      requires Own() && !eliminated && item != 0 && at < |itemBag| && itemBag[at] == item
      requires at == FirstIn(itemBag, item, 0)
      requires var k := IndexOf(roster.units, unit); k < |roster.units| ==> !IsPlant(pool.db, roster.units[k].champion)
      modifies `itemBag, roster`units
      ensures Own()
      ensures (roster.State(), result) == Equipped(old(roster.State()), roster.defs, unit, item)
      ensures EquipsOnto(old(roster.State()), roster.defs, unit, item, roster.State(), result)
      ensures result == Ok <==> var k := IndexOf(old(roster.units), unit); k < |old(roster.units)| && !NoPlace(roster.defs, old(roster.units)[k].items, item)
      ensures result == Ok ==> IsOneLess(old(itemBag), item, itemBag)
      ensures result != Ok ==> itemBag == old(itemBag) && roster.State() == old(roster.State())
      ensures forall c: nat :: Held(c) == old(Held(c))
      ensures forall x: nat :: ItemTotal(x) == old(ItemTotal(x))
    {
      hide Layout, Settled, DatabaseOk, ChampionsOk, Equipped, Consumes, PartsOf, UnitParts, Weight, Offered, IndexOf, NoPlace, PlaceItem, EquipsOnto;
      forall x: nat
        ensures PartsOf(roster.defs, itemBag, x) == PartsOf(roster.defs, itemBag[..at] + itemBag[at + 1..], x) + Parts(roster.defs, item, x)
      {
        PartsErase(roster.defs, itemBag, at, x);
      }
      ghost var r := roster.State();
      EquippedBare(r, pool.db, roster.defs, unit, item);
      result := roster.EquipItem(unit, item);
      forall c: nat
        ensures Weight(roster.units, c) == Weight(r.units, c)
      {
        EquippedKeeps(r, pool.db, roster.defs, unit, item, c, 0);
      }
      forall x: nat
        ensures UnitParts(roster.defs, roster.units, x) == UnitParts(roster.defs, r.units, x) + if result == Ok then Parts(roster.defs, item, x) else 0
      {
        EquippedKeeps(r, pool.db, roster.defs, unit, item, 0, x);
      }
      EquippedOrNot(r, roster.defs, unit, item);
      RoomOnUnit(r, roster.defs, unit, item);
      if result == Ok {
        itemBag := itemBag[..at] + itemBag[at + 1..];
      }
    }

    method UseRemover(unit: UnitId, item: ItemId, at: nat) returns (result: ActionResult)
      requires Own() && !eliminated && Consumes(roster.defs, item) && at < |itemBag| && itemBag[at] == item && at == FirstIn(itemBag, item, 0)
      modifies `itemBag, roster`units
      ensures Own()
      ensures result != Ok ==> itemBag == old(itemBag) && roster.State() == old(roster.State())
      ensures forall c: nat :: Held(c) == old(Held(c))
      ensures forall x: nat :: ItemTotal(x) == old(ItemTotal(x)) - if result == Ok then One(item, x) else 0
      ensures result == Ok <==> var k := IndexOf(old(roster.units), unit); k < |old(roster.units)| && Carried(old(roster.units)[k].items) != []
      ensures result == Ok ==> roster.State() == Bared(old(roster.State()), unit) && IsBared(old(roster.State()), unit, roster.State())
      ensures result == Ok ==> GivesBack(old(itemBag), item, old(roster.units), unit, itemBag)
    {
      hide Layout, Settled, DatabaseOk, ChampionsOk, Unequipped, Consumes, PartsOf, UnitParts, Weight, BaredUpTo, Carried;
      ghost var r := roster.State();
      BaredNone(r, unit);
      var k := roster.Find(unit);
      if k == |roster.units| {
        return InvalidUnit;
      }
      var carried := Collect(roster.units[k].items);
      if carried == [] {
        return NoItemsToRemove;
      }
      forall x: nat
        ensures PartsOf(roster.defs, itemBag, x) == PartsOf(roster.defs, itemBag[..at] + itemBag[at + 1..], x) + One(item, x)
      {
        PartsErase(roster.defs, itemBag, at, x);
        ConsumableParts(roster.defs, item, x);
      }
      itemBag := itemBag[..at] + itemBag[at + 1..];
      ghost var rest := itemBag;
      assert IsOneLess(old(itemBag), item, rest);
      RosterIsSeated();
      RemoverGives(r, k, unit);
      hide IsOneLess, ItemsIn, Bared, IsBared, One;
      TakeAllOff(unit, k);
      return Ok;
    }

    // Everything the unit carries goes into the bag, slot by slot.
    method TakeAllOff(unit: UnitId, ghost k: nat)
      requires Own() && k == IndexOf(roster.units, unit) < |roster.units|
      modifies `itemBag, roster`units
      ensures Own() && roster.State() == Bared(old(roster.State()), unit) && itemBag == old(itemBag) + Carried(old(roster.units)[k].items)
      ensures forall c: nat :: Held(c) == old(Held(c))
      ensures forall x: nat :: ItemTotal(x) == old(ItemTotal(x))
    {
      hide Layout, Settled, DatabaseOk, ChampionsOk, Unequipped, Consumes, PartsOf, UnitParts, Weight, BaredUpTo, Carried, IndexOf, PlantsBare;
      ghost var r, rest, items := roster.State(), itemBag, roster.units[k].items;
      RosterIsSeated();
      RemoverGives(r, k, unit);
      BaredNone(r, unit);
      CarriedNone(items);
      for slot := 0 to MAX_ITEMS_PER_UNIT
        invariant Own()
        invariant itemBag == rest + Carried(items[..slot])
        invariant forall c: nat :: Held(c) == old(Held(c))
        invariant forall x: nat :: ItemTotal(x) == old(ItemTotal(x))
        invariant roster.State() == BaredUpTo(r, unit, slot)
      {
        BaredNext(r, unit, slot);
        BaredSlots(r, unit, slot);
        CarriedNext(items, slot);
        var _ := TakeOff(unit, slot);   // (an empty slot gives nothing)
      }
      assert items[..MAX_ITEMS_PER_UNIT] == items;
    }

    // One slot's item goes into the bag.
    method TakeOff(unit: UnitId, slot: int) returns (result: ActionResult)
      requires Own()
      modifies `itemBag, roster`units
      ensures Own() && (eliminated ==> roster.units == [])
      ensures (roster.State(), result) == (Unequipped(old(roster.State()), unit, slot).0, Unequipped(old(roster.State()), unit, slot).1)
      ensures itemBag == old(itemBag) + if result == Ok then [Unequipped(old(roster.State()), unit, slot).2] else []
      ensures result != Ok ==> itemBag == old(itemBag) && roster.State() == old(roster.State())
      ensures forall c: nat :: Held(c) == old(Held(c))
      ensures forall x: nat :: ItemTotal(x) == old(ItemTotal(x))
    {
      hide Layout, Settled, DatabaseOk, ChampionsOk, PartsOf, UnitParts, Weight;
      ghost var r := roster.State();
      var taken;
      UnequippedBare(r, pool.db, unit, slot);
      result, taken := roster.UnequipItem(unit, slot);
      UnequippedKeeps(r, pool.db, roster.defs, unit, slot, 0, 0);
      forall c: nat
        ensures Weight(roster.units, c) == Weight(r.units, c)
      {
        UnequippedKeeps(r, pool.db, roster.defs, unit, slot, c, 0);
      }
      forall x: nat
        ensures UnitParts(roster.defs, roster.units, x) + Parts(roster.defs, taken, x) == UnitParts(roster.defs, r.units, x)
      {
        UnequippedKeeps(r, pool.db, roster.defs, unit, slot, 0, x);
      }
      forall x: nat
        ensures PartsOf(roster.defs, itemBag + [taken], x) == PartsOf(roster.defs, itemBag, x) + Parts(roster.defs, taken, x)
      {
        PartsAppend(roster.defs, itemBag, [taken], x);
        PartsOfOne(roster.defs, taken, x);
      }
      if result == Ok {
        itemBag := itemBag + [taken];
      }
    }

    method TryUnequipItem(unit: UnitId, slot: int) returns (result: ActionResult)
      requires Own()
      modifies `itemBag, roster`units
      ensures Own()
      ensures result == Ok <==> !eliminated && old(MayTakeOff(roster.units, unit, slot))
      ensures result != Ok ==> itemBag == old(itemBag) && roster.State() == old(roster.State())
      ensures result == Ok ==> IsTakenOff(old(roster.State()), unit, slot, roster.State()) && itemBag == old(itemBag) + [ItemAt(old(roster.units), unit, slot)]
      ensures !eliminated ==> (roster.State(), result) == (Unequipped(old(roster.State()), unit, slot).0, Unequipped(old(roster.State()), unit, slot).1)
      ensures forall c: nat :: Held(c) == old(Held(c))
      ensures forall x: nat :: ItemTotal(x) == old(ItemTotal(x))
    {
      hide *;
      if eliminated {
        return PlayerEliminated;
      }
      UnitsAre();
      UnequippedExact(roster.State(), unit, slot);
      result := TakeOff(unit, slot);
    }

    lemma UnitsAre()
      ensures roster.State().units == roster.units
    {
    }

    // Two entries of the bag become one; the same item twice needs two copies.
    method TryCombineBagItems(first: ItemId, second: ItemId) returns (result: ActionResult)
      requires Own()
      modifies `itemBag
      ensures Own()
      ensures result != Ok ==> itemBag == old(itemBag)
      ensures result == Ok <==> !eliminated && hasItems && first != 0 && second != 0 && TwoEntries(old(itemBag), first, second)
                                && Combination(roster.defs, first, second) != 0
      ensures result == Ok <==> !eliminated && hasItems && TwoEntries(old(itemBag), first, second) && Pairs(roster.defs, first, second)
      ensures result == Ok ==> multiset(itemBag) == multiset(old(itemBag)) - multiset{first, second} + multiset{Combination(roster.defs, first, second)}
      ensures result == Ok ==> IsCombined(roster.defs, old(itemBag), first, second, itemBag)
      ensures forall x: nat :: ItemTotal(x) == old(ItemTotal(x))
    {
      hide *;
      if eliminated {
        return PlayerEliminated;
      }
      RecipesAreSound();
      PairsExact(roster.defs, first, second);
      PairsAreItems(roster.defs, first, second);
      CombinedIs(roster.defs, itemBag, first, second);
      if !hasItems || first == 0 || second == 0 {
        return InvalidItem;
      }
      var found, a, b := FindPair(itemBag, first, second);
      if !found {
        return InvalidItem;
      }
      var made := FindCombination(roster.defs, first, second);
      if made == 0 {
        return InvalidItem;
      }
      CombineEntries(a, b, made);
      return Ok;
    }

    // Entries a and b of the bag become one item.
    method CombineEntries(a: nat, b: nat, made: ItemId)
      requires Own() && a < |itemBag| && b < |itemBag| && a != b && made != 0 && made == Combination(roster.defs, itemBag[a], itemBag[b])
      modifies `itemBag
      ensures Own() && multiset(itemBag) == multiset(old(itemBag)) - multiset{old(itemBag)[a], old(itemBag)[b]} + multiset{made}
      ensures forall x: nat :: ItemTotal(x) == old(ItemTotal(x))
    {
      hide *;
      ghost var made' := MadeOf(itemBag, a, b, made);
      RecipesAreSound();
      forall x: nat
        ensures PartsOf(roster.defs, made', x) == PartsOf(roster.defs, itemBag, x)
      {
        MadeParts(roster.defs, itemBag, a, b, made, x);
      }
      MadeBag(itemBag, a, b, made);
      TotalsAre();
      var hi, lo := if a > b then a else b, if a > b then b else a;
      var shorter := itemBag[..hi] + itemBag[hi + 1..];
      var after := shorter[..lo] + shorter[lo + 1..] + [made];
      assert after == made' by {
        MadeIs(itemBag, a, b, made);
      }
      SetBag(after);
      TotalsAre();
    }

    lemma LevelIs()
      requires Own()
      ensures PlayerConfigOk(config) && 1 <= level <= MAX_PLAYER_LEVEL && 0 <= xp && (level == MAX_PLAYER_LEVEL ==> xp == 0)
      ensures level < MAX_PLAYER_LEVEL ==> xp < config.xpToNextLevel[level - 1]
    {
    }

    // Whom this player can take in.
    lemma AcquireIs()
      requires Own()
      ensures Layout(roster.State()) && Seated(roster.State())
      ensures forall c: nat, star: int ::
                MayAcquire(c, star) <==> !eliminated && MayTakeIn(roster.State(), pool.db, roster.defs, c, star, benchOnly)
    {
      hide Layout, Seated, Settled, DatabaseOk, ChampionsOk, PlantsBare, MayTakeIn;
      RosterIsSeated();
    }

    lemma RosterIsSeated()
      requires Own()
      ensures Seated(roster.State())
    {
    }

    lemma RecipesAreSound()
      requires Own()
      ensures DatabaseOk(roster.defs)
    {
    }

    lemma TotalsAre()
      ensures forall x: nat :: ItemTotal(x) == PartsOf(roster.defs, itemBag, x) + UnitParts(roster.defs, roster.units, x)
    {
    }

    method SetBag(bag: seq<ItemId>)
      requires Own()
      modifies `itemBag
      ensures Own() && itemBag == bag
    {
      hide Layout, Settled, DatabaseOk, ChampionsOk, PlantsBare;
      itemBag := bag;
    }

    // ---- The owner's side of the shop ----------------------------------------------------------------

    // Champions that may be drawn from now on: the stars of a trait on the board and the level allow it.
    method CheckUnlocks(champions: seq<Traits.TraitChampion>, rules: seq<UnlockRule>)
      requires Own()
      modifies `unlocked
      ensures Own() && unlocked == old(unlocked) + NewUnlocks(pool.db, champions, rules, level, old(unlocked), roster.units, |pool.db|)
    {
      hide *;
      NothingUnlocked(pool.db, champions, rules, level, unlocked, roster.units);
      ghost var before := unlocked;
      for c := 0 to |pool.db|
        invariant Own() && unlocked == before + NewUnlocks(pool.db, champions, rules, level, before, roster.units, c)
      {
        OneMoreUnlock(pool.db, champions, rules, level, before, roster.units, c);
        if pool.db[c].gated && c < |rules| && c !in unlocked && level >= rules[c].playerLevel {
          var stars := CountStars(champions, roster.units, rules[c].ofTrait);
          if stars >= rules[c].starLevel {
            Unlock(c);
          }
        }
      }
    }

    method Unlock(champion: ChampionIndex)
      requires Own()
      modifies `unlocked
      ensures Own() && unlocked == old(unlocked) + [champion]
    {
      hide *;
      SetUnlocked(unlocked + [champion]);
    }

    method SetUnlocked(list: seq<ChampionIndex>)
      requires Own()
      modifies `unlocked
      ensures Own() && unlocked == list
    {
      hide Layout, Settled, DatabaseOk, ChampionsOk, PlantsBare;
      unlocked := list;
    }

    // The Queen is offered while enough different holders are on the board, the level is reached and none is owned.
    method OfferQueen(champions: seq<Traits.TraitChampion>, grants: map<ItemId, seq<Traits.Trait>>, rule: QueenRule)
      requires Own() && pool.Valid() && Backed() && !eliminated && rule.champion < |pool.db| && !IsPlant(pool.db, rule.champion)
      modifies shop`slots, pool
      ensures Own() && pool.Valid()
      ensures shop.slots == if MayOfferQueen(champions, grants, rule, level, roster.units) && !pool.db[rule.champion].pooled
                               && old(shop.slots) != [] && Some(rule.champion) !in old(shop.slots)
                            then old(shop.slots)[0 := Some(rule.champion)] else old(shop.slots)
      ensures forall c: nat | c < |pool.db| && pool.db[c].pooled :: pool.remaining[c] + Held(c) == old(pool.remaining[c] + Held(c))
    {
      hide *;
      QueenIs(champions, grants, rule, level, roster.units);
      if level < rule.level {
        return;
      }
      var counted := Traits.BoardTraitUnits(grants, roster.units);
      var count := Traits.CountTraitHolders(champions, counted, rule.ofTrait);
      if count < rule.uniqueHolders {
        return;
      }
      for k := 0 to |roster.units|
        invariant forall m | 0 <= m < k :: roster.units[m].champion != rule.champion
      {
        if roster.units[k].champion == rule.champion {
          return;
        }
      }
      var _ := OfferSpecial(rule.champion);
    }

    method RefreshShop()
      requires Own() && pool.Valid() && Backed() && !eliminated
      modifies shop`slots, pool
      ensures Own() && pool.Valid()
      ensures NewOffer(pool.db, LevelOdds(shop.dropRatesByLevel, level), unlocked, old(pool.remaining), old(shop.slots), shop.slots, pool.remaining)
      ensures forall c: nat | c < |pool.db| && pool.db[c].pooled :: pool.remaining[c] + Held(c) == old(pool.remaining[c] + Held(c))
    {
      hide Layout, Settled, DatabaseOk, ChampionsOk, Weight, Offered, Deals, Restocked, SoldOut, MayDraw, PlantsBare, NewOffer;
      var allowed := MayDraw(pool.db, unlocked);
      shop.Refresh(level, allowed);
      assert OddsOk(shop.dropRatesByLevel[level - 1]);
      NewOfferIs(pool.db, LevelOdds(shop.dropRatesByLevel, level), unlocked, old(pool.remaining), old(shop.slots), shop.slots, pool.remaining);
    }

    method CloseShop()
      requires Own() && pool.Valid() && Backed()
      modifies shop`slots, pool
      ensures Own() && pool.Valid() && NoOffers(shop.slots)
      ensures forall c: nat | c < |pool.db| && pool.db[c].pooled :: pool.remaining[c] + Held(c) == old(pool.remaining[c] + Held(c))
    {
      hide Layout, Settled, DatabaseOk, ChampionsOk, Weight;
      shop.ReturnShopToPool();
      forall c: nat
        ensures Offered(shop.slots, c) == 0
      {
        NothingOffered(shop.slots, c);
      }
    }

    method OfferSpecial(champion: ChampionIndex) returns (offered: bool)
      requires Own() && pool.Valid() && Backed() && !eliminated && champion < |pool.db| && !IsPlant(pool.db, champion)
      modifies shop`slots, pool
      ensures Own() && pool.Valid()
      ensures offered <==> !pool.db[champion].pooled && old(shop.slots) != [] && Some(champion) !in old(shop.slots)
      ensures shop.slots == if offered then old(shop.slots)[0 := Some(champion)] else old(shop.slots)
      ensures forall c: nat | c < |pool.db| && pool.db[c].pooled :: pool.remaining[c] + Held(c) == old(pool.remaining[c] + Held(c))
    {
      hide Layout, Settled, DatabaseOk, ChampionsOk, Weight, Offered;
      offered := shop.OfferSpecial(champion);
    }

    method TryReroll() returns (result: ActionResult)
      requires Own() && pool.Valid() && Backed()
      modifies `gold, shop`slots, pool
      ensures Own() && pool.Valid()
      ensures result == Ok <==> !eliminated && old(gold) >= shop.rerollCost
      ensures gold == old(gold) - if result == Ok then shop.rerollCost else 0
      ensures result != Ok ==> shop.slots == old(shop.slots) && pool.remaining == old(pool.remaining)
      ensures result == Ok ==> NewOffer(pool.db, LevelOdds(shop.dropRatesByLevel, level), unlocked, old(pool.remaining), old(shop.slots), shop.slots, pool.remaining)
      ensures forall c: nat | c < |pool.db| && pool.db[c].pooled :: pool.remaining[c] + Held(c) == old(pool.remaining[c] + Held(c))
    {
      hide Layout, Settled, DatabaseOk, ChampionsOk, NewOffer;
      if eliminated {
        return PlayerEliminated;
      }
      var paid := TrySpendGold(shop.rerollCost);
      if !paid {
        return NotEnoughGold;
      }
      RefreshShop();
      return Ok;
    }

    // Room is checked before gold, so a rejected purchase changes nothing; an accepted one moves the
    // copy from the slot into the roster and leaves every other copy where it is.
    method TryBuy(slot: nat) returns (result: ActionResult)
      requires Own() && pool.Valid()
      modifies `gold, `itemBag, roster, shop`slots
      ensures Own()
      ensures result != Ok ==> gold == old(gold) && itemBag == old(itemBag) && roster.State() == old(roster.State()) && shop.slots == old(shop.slots)
      ensures result == Ok <==> !eliminated && slot < |old(shop.slots)| && old(shop.slots)[slot].Some?
                                && old(MayAcquire(shop.slots[slot].value, 1)) && old(gold) >= Price(pool.db[old(shop.slots)[slot].value])
      ensures result == Ok ==> gold == old(gold) - Price(pool.db[old(shop.slots)[slot].value]) && shop.slots == old(shop.slots)[slot := None]
                               && roster.State() == Add(old(roster.State()), pool.db, roster.defs, old(shop.slots)[slot].value, 1).0
                               && itemBag == old(itemBag) + Overflow(Add(old(roster.State()), pool.db, roster.defs, old(shop.slots)[slot].value, 1).1)
      ensures forall c: nat :: Held(c) == old(Held(c))
      ensures forall x: nat :: ItemTotal(x) == old(ItemTotal(x))
      ensures benchOnly ==> BoardOf(roster.units) == BoardOf(old(roster.units))
    {
      hide Layout, Settled, DatabaseOk, ChampionsOk, CanAdd, BenchOnly, PartsOf, UnitParts, Weight, BoardOf, Add, Offered, MayAcquire, BenchCount;
      if eliminated {
        return PlayerEliminated;
      }
      if slot >= |shop.slots| {
        return InvalidSlot;
      }
      if shop.slots[slot].None? {
        return EmptySlot;
      }
      var champion := shop.slots[slot].value;
      var ok := CanAcquire(champion, 1);
      if !ok {
        result := BlockedReason(champion, 1);
        return;
      }
      if gold < Price(pool.db[champion]) {
        return NotEnoughGold;
      }
      Purchase(slot);
      return Ok;
    }

    method Purchase(slot: nat)
      requires Own() && pool.Valid() && !eliminated && slot < |shop.slots| && shop.slots[slot].Some?
      requires MayAcquire(shop.slots[slot].value, 1) && gold >= Price(pool.db[shop.slots[slot].value])
      modifies `gold, `itemBag, roster, shop`slots
      ensures Own()
      ensures gold == old(gold) - Price(pool.db[old(shop.slots)[slot].value]) && shop.slots == old(shop.slots)[slot := None]
      ensures roster.State() == Add(old(roster.State()), pool.db, roster.defs, old(shop.slots)[slot].value, 1).0
      ensures itemBag == old(itemBag) + Overflow(Add(old(roster.State()), pool.db, roster.defs, old(shop.slots)[slot].value, 1).1)
      ensures forall c: nat :: Held(c) == old(Held(c))
      ensures forall x: nat :: ItemTotal(x) == old(ItemTotal(x))
      ensures benchOnly ==> BoardOf(roster.units) == BoardOf(old(roster.units))
    {
      hide Layout, Settled, DatabaseOk, ChampionsOk, CanAdd, BenchOnly, PartsOf, UnitParts, Weight, BoardOf, Add, Offered;
      var champion := shop.slots[slot].value;
      var paid := TrySpendGold(Price(pool.db[champion]));
      assert paid by {
        PriceNonNegative(pool.db, champion);
      }
      var acquired := AcquireUnit(champion, 1);
      assert acquired == Ok;
      assert Copies(1) == 1;
      label Acquired:
      ghost var offers := shop.slots;
      shop.slots := shop.slots[slot := None];
      forall c: nat
        ensures Held(c) == old(Held(c))
      {
        OfferedUpdate(offers, slot, None, c);
        assert old@Acquired(Held(c)) == old(Held(c)) + if c == champion then 1 else 0;
      }
    }

    // ---- Plants --------------------------------------------------------------------------------------

    method GrantPlant(plant: ChampionIndex, star: int, x: int, y: int) returns (granted: bool)
      requires Own() && pool.Valid()
      modifies roster`units, roster`cells, roster`nextSerial
      ensures Own()
      ensures var r, cell := old(roster.State()), CellAt(Board, x, y);
              && granted == (!eliminated && IsPlant(pool.db, plant) && 1 <= star <= MAX_STAR_LEVEL && cell >= 0 && |r.cells| == CELLS && r.cells[cell] == 0)
              && roster.State() == if granted then Append(r, PlantedAt(r, plant, star, cell)) else r
      ensures forall c: nat | c < |pool.db| && pool.db[c].pooled :: Held(c) == old(Held(c))
      ensures forall z: nat :: ItemTotal(z) == old(ItemTotal(z))
    {
      hide Layout, Settled, DatabaseOk, PartsOf, UnitParts, Weight, Copies;
      if eliminated || !IsPlant(pool.db, plant) {
        return false;
      }
      ghost var r := roster.State();
      LayoutSeated(r);
      SeatedCells(r);
      var unit := roster.AddPlaced(plant, star, x, y);
      if roster.State() != r {
        PlantedBare(pool.db, r.units, unit);
        forall c: nat
          ensures Weight(roster.units, c) == Weight(r.units, c) + Weighs(unit, c)
        {
          AppendTotals(roster.defs, r.units, unit, c, 0, 0);
        }
        forall z: nat
          ensures UnitParts(roster.defs, roster.units, z) == UnitParts(roster.defs, r.units, z)
        {
          AppendTotals(roster.defs, r.units, unit, 0, 0, z);
          NothingCarried(roster.defs, z);
        }
      }
      return unit.id != 0;
    }

    method RemovePlant(unit: UnitId) returns (removed: bool)
      requires Own() && pool.Valid()
      modifies roster`units, roster`cells
      ensures Own()
      ensures var r := old(roster.State());
              var k := IndexOf(r.units, unit);
              && removed == (k < |r.units| && IsPlant(pool.db, r.units[k].champion))
              && roster.State() == if removed then Remove(r, k) else r
      ensures forall c: nat | c < |pool.db| && pool.db[c].pooled :: Held(c) == old(Held(c))
      ensures forall z: nat :: ItemTotal(z) == old(ItemTotal(z))
    {
      hide Layout, Settled, DatabaseOk, PartsOf, UnitParts, Weight, Copies;
      var k := roster.Find(unit);
      if k == |roster.units| || !IsPlant(pool.db, roster.units[k].champion) {
        return false;
      }
      ghost var r := roster.State();
      RemovedKeeps(r, pool.db, k);
      RemovedBare(r, pool.db, k);
      assert BareIfPlant(pool.db, r.units[k]);
      forall z: nat
        ensures UnitParts(roster.defs, Remove(r, k).units, z) == UnitParts(roster.defs, r.units, z)
      {
        EraseTotals(roster.defs, r.units, k, 0, 0, z);
        NothingCarried(roster.defs, z);
      }
      forall c: nat
        ensures Weight(Remove(r, k).units, c) == Weight(r.units, c) - Weighs(r.units[k], c)
      {
        EraseTotals(roster.defs, r.units, k, c, 0, 0);
      }
      var _, _ := roster.RemoveUnit(unit);
      return true;
    }

    // ---- The end -------------------------------------------------------------------------------------

    // Everything the player held goes back to the pool; no return is refused.
    method Eliminate(placement: int)
      requires Own() && pool.Valid() && Backed()
      modifies `shopLocked, `eliminated, `placement, shop`slots, roster`units, roster`cells, pool
      ensures Own() && pool.Valid() && eliminated
      ensures this.placement == if old(eliminated) then old(this.placement) else placement
      ensures forall c: nat :: Held(c) == 0 || old(eliminated)
      ensures forall c: nat | c < |pool.db| && pool.db[c].pooled :: pool.remaining[c] + Held(c) == old(pool.remaining[c] + Held(c))
    {
      hide Layout, Settled, DatabaseOk, Weight, Copies, Seated;
      if eliminated {
        return;
      }
      shopLocked := false;
      shop.ReturnShopToPool();
      var units := roster.units;
      ghost var before := pool.remaining;
      NoWeight();
      assert units[..0] == [];
      for i := 0 to |units|
        invariant pool.Valid() && roster.Valid() && units == roster.units && shop.Valid() && NoOffers(shop.slots)
        invariant forall c: nat | c < |pool.db| && pool.db[c].pooled :: pool.remaining[c] == before[c] + Weight(units[..i], c)
      {
        KnownChampion(roster.State(), pool.db, i);
        WeightSplit(units, i);
        if pool.db[units[i].champion].pooled {
          var returned := pool.Return(units[i].champion, Copies(units[i].star));
          assert returned;
        }
      }
      assert units[..|units|] == units;
      EmptyRoster(roster.State(), pool.db);
      roster.Clear();
      forall c: nat
        ensures Offered(shop.slots, c) == 0
      {
        NothingOffered(shop.slots, c);
      }
      eliminated := true;
      this.placement := placement;
    }
  }

  // ---- Plants carry nothing ------------------------------------------------------------------------

  lemma MovedBare(r: RosterState, db: seq<Champion>, id: UnitId, location: Location, x: int, y: int)
    requires ChampionsOk(db) && Layout(r) && Settled(db, r.units) && PlantsBare(db, r.units)
    ensures PlantsBare(db, Moved(r, db, id, location, x, y).0.units)
  {
    hide Layout, Settled, Moved, ChampionsOk;
    LayoutSeated(r);
    SeatedCells(r);
    MovedKeeps(r, db, id, location, x, y);
    var t := Moved(r, db, id, location, x, y).0;
    forall i | 0 <= i < |t.units|
      ensures BareIfPlant(db, t.units[i])
    {
      assert BareIfPlant(db, r.units[i]) && t.units[i] == r.units[i].(cell := t.units[i].cell);
    }
  }

  lemma RemovedBare(r: RosterState, db: seq<Champion>, k: nat)
    requires k < |r.units| && PlantsBare(db, r.units)
    ensures PlantsBare(db, Remove(r, k).units)
  {
    hide BareIfPlant;
    var t := Remove(r, k);
    forall i | 0 <= i < |t.units|
      ensures BareIfPlant(db, t.units[i])
    {
      assert t.units[i] == r.units[if i < k then i else i + 1];
    }
  }

  lemma PlantedBare(db: seq<Champion>, units: seq<UnitInstance>, u: UnitInstance)
    requires PlantsBare(db, units) && u.items == [0, 0, 0]
    ensures PlantsBare(db, units + [u])
  {
  }

  lemma EquippedBare(r: RosterState, db: seq<Champion>, defs: seq<ItemDef>, id: UnitId, item: ItemId)
    requires PlantsBare(db, r.units)
    requires var k := IndexOf(r.units, id); k < |r.units| ==> !IsPlant(db, r.units[k].champion)
    ensures PlantsBare(db, Equipped(r, defs, id, item).0.units)
  {
    hide PlaceItem, IsPlant;
  }

  lemma UnequippedBare(r: RosterState, db: seq<Champion>, id: UnitId, slot: int)
    requires PlantsBare(db, r.units)
    ensures PlantsBare(db, Unequipped(r, id, slot).0.units)
  {
    hide IsPlant;
    var k := IndexOf(r.units, id);
    assert k < |r.units| ==> BareIfPlant(db, r.units[k]);
  }

  // ---- Unlocks and the Queen -----------------------------------------------------------------------

  datatype UnlockRule = UnlockRule(ofTrait: Traits.Trait, playerLevel: int, starLevel: int)

  datatype QueenRule = QueenRule(champion: ChampionIndex, ofTrait: Traits.Trait, level: int, uniqueHolders: int)

  predicate Shines(champions: seq<Traits.TraitChampion>, u: UnitInstance, t: Traits.Trait) {
    OnBoard(u) && u.champion < |champions| && !champions[u.champion].summon && !champions[u.champion].plant && t in champions[u.champion].traits
  }

  // The star levels of a trait's own champions on the board, added up. (Emblems do not count.)
  function StarsOf(champions: seq<Traits.TraitChampion>, units: seq<UnitInstance>, t: Traits.Trait): int {
    if units == [] then 0
    else StarsOf(champions, units[..|units| - 1], t) + if Shines(champions, units[|units| - 1], t) then units[|units| - 1].star else 0
  }

  method CountStars(champions: seq<Traits.TraitChampion>, units: seq<UnitInstance>, t: Traits.Trait) returns (stars: int)
    ensures stars == StarsOf(champions, units, t)
  {
    stars := 0;
    for k := 0 to |units|
      invariant stars == StarsOf(champions, units[..k], t)
    {
      assert units[..k + 1][..k] == units[..k];
      if Shines(champions, units[k], t) {
        stars := stars + units[k].star;
      }
    }
    assert units[..|units|] == units;
  }

  predicate Unlocks(db: seq<Champion>, champions: seq<Traits.TraitChampion>, rules: seq<UnlockRule>, level: int, unlocked: seq<ChampionIndex>,
                    units: seq<UnitInstance>, c: ChampionIndex) {
    && c < |db| && db[c].gated && c < |rules| && c !in unlocked
    && level >= rules[c].playerLevel && StarsOf(champions, units, rules[c].ofTrait) >= rules[c].starLevel
  }

  // Of the first n champions, those that unlock now.
  function NewUnlocks(db: seq<Champion>, champions: seq<Traits.TraitChampion>, rules: seq<UnlockRule>, level: int, unlocked: seq<ChampionIndex>,
                      units: seq<UnitInstance>, n: nat): seq<ChampionIndex> {
    if n == 0 then []
    else NewUnlocks(db, champions, rules, level, unlocked, units, n - 1)
         + if Unlocks(db, champions, rules, level, unlocked, units, n - 1) then [n - 1] else []
  }

  // Exactly those unlock whose rule is met and that were locked, each once.
  lemma {:induction false} NewUnlocksExact(db: seq<Champion>, champions: seq<Traits.TraitChampion>, rules: seq<UnlockRule>, level: int, unlocked: seq<ChampionIndex>,
                                           units: seq<UnitInstance>, n: nat)
    ensures var list := NewUnlocks(db, champions, rules, level, unlocked, units, n);
            && (forall c: nat :: c in list <==> c < n && Unlocks(db, champions, rules, level, unlocked, units, c))
            && forall a, b | 0 <= a < b < |list| :: list[a] < list[b]
  {
    hide Unlocks;
    if n > 0 {
      NewUnlocksExact(db, champions, rules, level, unlocked, units, n - 1);
      var init := NewUnlocks(db, champions, rules, level, unlocked, units, n - 1);
      assert forall a | 0 <= a < |init| :: init[a] in init;
    }
  }

  lemma NothingUnlocked(db: seq<Champion>, champions: seq<Traits.TraitChampion>, rules: seq<UnlockRule>, level: int, unlocked: seq<ChampionIndex>,
                        units: seq<UnitInstance>)
    ensures unlocked + NewUnlocks(db, champions, rules, level, unlocked, units, 0) == unlocked
  {
  }

  lemma OneMoreUnlock(db: seq<Champion>, champions: seq<Traits.TraitChampion>, rules: seq<UnlockRule>, level: int, unlocked: seq<ChampionIndex>,
                      units: seq<UnitInstance>, c: nat)
    requires c < |db|
    ensures var list := NewUnlocks(db, champions, rules, level, unlocked, units, c);
            unlocked + NewUnlocks(db, champions, rules, level, unlocked, units, c + 1) ==
            (unlocked + list) + if db[c].gated && c < |rules| && c !in unlocked + list && level >= rules[c].playerLevel
                                   && StarsOf(champions, units, rules[c].ofTrait) >= rules[c].starLevel then [c] else []
  {
    hide StarsOf;
    NewUnlocksExact(db, champions, rules, level, unlocked, units, c);
    assert c !in NewUnlocks(db, champions, rules, level, unlocked, units, c);
  }

  ghost predicate MayOfferQueen(champions: seq<Traits.TraitChampion>, grants: map<ItemId, seq<Traits.Trait>>, rule: QueenRule, level: int, units: seq<UnitInstance>) {
    && level >= rule.level
    && |Traits.Champions(Traits.Countings(grants, BoardOf(units)), Traits.ChampionOf, u => Traits.Holder(champions, u, rule.ofTrait))| >= rule.uniqueHolders
    && forall k | 0 <= k < |units| :: units[k].champion != rule.champion
  }

  lemma QueenIs(champions: seq<Traits.TraitChampion>, grants: map<ItemId, seq<Traits.Trait>>, rule: QueenRule, level: int, units: seq<UnitInstance>)
    ensures MayOfferQueen(champions, grants, rule, level, units) <==>
              && level >= rule.level
              && |Traits.Champions(Traits.Countings(grants, BoardOf(units)), Traits.ChampionOf, u => Traits.Holder(champions, u, rule.ofTrait))| >= rule.uniqueHolders
              && forall k | 0 <= k < |units| :: units[k].champion != rule.champion
  {
  }

  predicate NoOffers(slots: seq<Offer>) {
    forall i | 0 <= i < |slots| :: slots[i] == None
  }

  lemma BagErase(bag: seq<ItemId>, k: nat)
    requires k < |bag|
    ensures multiset(bag[..k] + bag[k + 1..]) == multiset(bag) - multiset{bag[k]}
  {
    assert bag == bag[..k] + [bag[k]] + bag[k + 1..];
  }

  function WithoutEntry(bag: seq<ItemId>, k: nat): seq<ItemId>
    requires k < |bag|
  {
    bag[..k] + bag[k + 1..]
  }

  // Entries hi and lo leave the bag, what they make joins it at the end.
  function Assembled(bag: seq<ItemId>, hi: nat, lo: nat, made: ItemId): seq<ItemId>
    requires lo < hi < |bag|
  {
    WithoutEntry(WithoutEntry(bag, hi), lo) + [made]
  }

  lemma AssembledBag(bag: seq<ItemId>, hi: nat, lo: nat, made: ItemId)
    requires lo < hi < |bag|
    ensures multiset(Assembled(bag, hi, lo, made)) == multiset(bag) - multiset{bag[hi], bag[lo]} + multiset{made}
  {
    BagErase(bag, hi);
    BagErase(WithoutEntry(bag, hi), lo);
    assert WithoutEntry(bag, hi)[lo] == bag[lo];
    hide WithoutEntry;
  }

  lemma AssembledParts(defs: seq<ItemDef>, bag: seq<ItemId>, hi: nat, lo: nat, made: ItemId, x: ItemId)
    requires DatabaseOk(defs) && lo < hi < |bag| && made != 0
    requires made == Combination(defs, bag[hi], bag[lo]) || made == Combination(defs, bag[lo], bag[hi])
    ensures PartsOf(defs, Assembled(bag, hi, lo, made), x) == PartsOf(defs, bag, x)
  {
    PartsErase(defs, bag, hi, x);
    PartsErase(defs, WithoutEntry(bag, hi), lo, x);
    assert WithoutEntry(bag, hi)[lo] == bag[lo];
    hide DatabaseOk, PartsOf, Combination, WithoutEntry, Parts;
    PartsAppend(defs, WithoutEntry(WithoutEntry(bag, hi), lo), [made], x);
    PartsOfOne(defs, made, x);
    if made == Combination(defs, bag[hi], bag[lo]) {
      CombiningKeepsParts(defs, bag[hi], bag[lo], x);
    } else {
      CombiningKeepsParts(defs, bag[lo], bag[hi], x);
    }
  }

  // The bag once entries a and b have become one item.
  function MadeOf(bag: seq<ItemId>, a: nat, b: nat, made: ItemId): seq<ItemId>
    requires a < |bag| && b < |bag| && a != b
  {
    Assembled(bag, if a > b then a else b, if a > b then b else a, made)
  }

  lemma MadeIs(bag: seq<ItemId>, a: nat, b: nat, made: ItemId)
    requires a < |bag| && b < |bag| && a != b
    ensures var hi, lo := if a > b then a else b, if a > b then b else a;
            var shorter := bag[..hi] + bag[hi + 1..];
            MadeOf(bag, a, b, made) == shorter[..lo] + shorter[lo + 1..] + [made]
  {
  }

  lemma MadeBag(bag: seq<ItemId>, a: nat, b: nat, made: ItemId)
    requires a < |bag| && b < |bag| && a != b
    ensures multiset(MadeOf(bag, a, b, made)) == multiset(bag) - multiset{bag[a], bag[b]} + multiset{made}
  {
    hide Assembled;
    AssembledBag(bag, if a > b then a else b, if a > b then b else a, made);
  }

  lemma MadeParts(defs: seq<ItemDef>, bag: seq<ItemId>, a: nat, b: nat, made: ItemId, x: ItemId)
    requires DatabaseOk(defs) && a < |bag| && b < |bag| && a != b && made != 0 && made == Combination(defs, bag[a], bag[b])
    ensures PartsOf(defs, MadeOf(bag, a, b, made), x) == PartsOf(defs, bag, x)
  {
    hide Assembled, DatabaseOk, Combination, PartsOf;
    AssembledParts(defs, bag, if a > b then a else b, if a > b then b else a, made, x);
  }

  lemma CapacityIsFree(r: RosterState, capacity: int)
    requires Layout(r)
    ensures Layout(r.(capacity := capacity))
  {
  }

  // The unit with this id, if there is one, is not on the board.
  predicate NotFielded(units: seq<UnitInstance>, id: UnitId) {
    var k := IndexOf(units, id);
    k == |units| || !OnBoard(units[k])
  }

  lemma ConsumedNeverFielded(r: RosterState, db: seq<Champion>, defs: seq<ItemDef>, champion: ChampionIndex, star: int)
    requires Seated(r) && CanAdd(r, db, champion, star) && !SomeOnBoard(Add(r, db, defs, champion, star).1)
    ensures var merges := Add(r, db, defs, champion, star).1;
            forall m, i | 0 <= m < |merges| && 0 <= i < |merges[m].consumed| :: NotFielded(r.units, merges[m].consumed[i])
  {
    hide Seated, CanAdd, NewUnit, OnBoard, SomeOnBoard, MergeAll, NotFielded;
    AddParts(r, db, champion, star);
    var placed := Append(r, NewUnit(r, db, champion, star));
    EveryoneIsThere(placed.units);
    ConsumedFollowSurvivor(placed.units, placed, defs, champion);
    var merges := MergeAll(placed, defs, champion).1;
    forall m, i | 0 <= m < |merges| && 0 <= i < |merges[m].consumed|
      ensures NotFielded(r.units, merges[m].consumed[i])
    {
      assert OffBoard(placed.units, merges[m].consumed[i]);
      OffBoardFound(placed, r.units, merges[m].consumed[i]);
    }
  }

  lemma EveryoneIsThere(us: seq<UnitInstance>)
    ensures RosterMerge.SamePlaces(us, us)
  {
    forall i | 0 <= i < |us|
      ensures StoodAt(us, us[i].id, us[i].cell)
    {
    }
  }

  lemma OffBoardFound(r: RosterState, units: seq<UnitInstance>, id: UnitId)
    requires Seated(r) && |units| <= |r.units| && r.units[..|units|] == units && OffBoard(r.units, id)
    ensures NotFielded(units, id)
  {
    var k := IndexOf(units, id);
    if k < |units| {
      var j :| 0 <= j < |r.units| && r.units[j].id == id && !OnBoard(r.units[j]);
      SeatedDistinct(r);
      assert r.units[k] == units[k];
      assert j == k;
    }
  }

  lemma CanAddKnown(r: RosterState, db: seq<Champion>, champion: ChampionIndex, star: int)
    requires |r.cells| == CELLS
    ensures CanAdd(r, db, champion, star) ==> champion < |db| && 1 <= star <= MAX_STAR_LEVEL
  {
  }

  method CollectOverflow(merges: seq<Merge>) returns (items: seq<ItemId>)
    ensures items == Overflow(merges)
  {
    items := [];
    assert merges[0..] == merges && [] + Overflow(merges) == Overflow(merges);
    for m := 0 to |merges|
      invariant items + Overflow(merges[m..]) == Overflow(merges)
    {
      assert merges[m..][1..] == merges[m + 1..];
      assert items + (merges[m].overflow + Overflow(merges[m + 1..])) == (items + merges[m].overflow) + Overflow(merges[m + 1..]);
      items := items + merges[m].overflow;
    }
  }

  lemma PriceNonNegative(db: seq<Champion>, c: ChampionIndex)
    requires ChampionsOk(db) && c < |db|
    ensures Price(db[c]) >= 1
  {
  }

  lemma NoWeight()
    ensures forall c: nat :: Weight([], c) == 0
  {
  }

  lemma KnownChampion(r: RosterState, db: seq<Champion>, k: nat)
    requires Settled(db, r.units) && k < |r.units|
    ensures r.units[k].champion < |db|
  {
    assert UnitKnown(db, r.units[k]);
  }

  lemma DefIsUnique(defs: seq<ItemDef>, item: ItemId)
    requires DatabaseOk(defs)
    ensures Ascending(defs)
    ensures forall d | d in defs && d.id == item :: Consumes(defs, item) <==> d.consumable
    ensures !Known(defs, item) ==> !Consumes(defs, item)
  {
    if Consumes(defs, item) {
      var k :| 0 <= k < |defs| && defs[k].id == item && defs[k].consumable;
      forall m | 0 <= m < |defs| && defs[m].id == item
        ensures m == k
      {
      }
    }
  }

  // The unit without its first n items; without any.
  function BaredUpTo(r: RosterState, id: UnitId, n: nat): RosterState {
    if n == 0 then r else Unequipped(BaredUpTo(r, id, n - 1), id, n - 1).0
  }

  function Bared(r: RosterState, id: UnitId): RosterState {
    BaredUpTo(r, id, MAX_ITEMS_PER_UNIT)
  }

  lemma BaredNone(r: RosterState, id: UnitId)
    ensures BaredUpTo(r, id, 0) == r
  {
  }

  lemma BaredNext(r: RosterState, id: UnitId, n: nat)
    ensures BaredUpTo(r, id, n + 1) == Unequipped(BaredUpTo(r, id, n), id, n).0
  {
  }

  // A bared unit carries nothing, everything else is as it was.
  lemma BaredCarriesNothing(r: RosterState, id: UnitId)
    requires var k := IndexOf(r.units, id); k < |r.units| && |r.units[k].items| == MAX_ITEMS_PER_UNIT
    ensures var k := IndexOf(r.units, id); Bared(r, id) == r.(units := r.units[k := r.units[k].(items := [0, 0, 0])])
  {
    hide BaredUpTo, IndexOf, Zeroed;
    BaredShape(r, id, 3);
    ZeroedIs(r.units[IndexOf(r.units, id)].items, 3);
    var items := r.units[IndexOf(r.units, id)].items;
    assert Zeroed(items, 3) == [0, 0, 0];
  }

  // The first n slots empty.
  function Zeroed(items: seq<ItemId>, n: nat): (r: seq<ItemId>)
    requires n <= |items|
    ensures |r| == |items|
  {
    if n == 0 then items else Zeroed(items, n - 1)[n - 1 := 0]
  }

  lemma {:induction false} ZeroedIs(items: seq<ItemId>, n: nat)
    requires n <= |items|
    ensures |Zeroed(items, n)| == |items| && (forall m | 0 <= m < n :: Zeroed(items, n)[m] == 0) && forall m | n <= m < |items| :: Zeroed(items, n)[m] == items[m]
  {
    if n > 0 {
      ZeroedIs(items, n - 1);
    }
  }

  lemma {:induction false} BaredShape(r: RosterState, id: UnitId, n: nat)
    requires var k := IndexOf(r.units, id); k < |r.units| && |r.units[k].items| == MAX_ITEMS_PER_UNIT && n <= MAX_ITEMS_PER_UNIT
    ensures var k := IndexOf(r.units, id);
            && BaredUpTo(r, id, n) == r.(units := r.units[k := r.units[k].(items := Zeroed(r.units[k].items, n))])
            && IndexOf(BaredUpTo(r, id, n).units, id) == k
  {
    hide Unequipped, IndexOf;
    var k := IndexOf(r.units, id);
    var u := r.units[k];
    if n == 0 {
      BaredNone(r, id);
      assert r.units[k := u.(items := u.items)] == r.units;
    } else {
      BaredShape(r, id, n - 1);
      ZeroedIs(u.items, n - 1);
      BaredNext(r, id, n - 1);
      BareOne(BaredUpTo(r, id, n - 1), id, n - 1);
    }
  }

  lemma RemoverGives(r: RosterState, k: nat, unit: UnitId)
    requires Seated(r) && k == IndexOf(r.units, unit) < |r.units|
    ensures |r.units[k].items| == MAX_ITEMS_PER_UNIT == 3 && Carried(r.units[k].items) == ItemsIn(r.units[k].items)
    ensures IsBared(r, unit, Bared(r, unit))
  {
    hide Seated, Bared, IndexOf;
    InstanceAt(r, k);
    CarriedExact(r.units[k].items);
    BaredCarriesNothing(r, unit);
  }

  // The next slot still holds what it held.
  lemma BaredSlots(r: RosterState, id: UnitId, n: nat)
    requires var k := IndexOf(r.units, id); k < |r.units| && |r.units[k].items| == MAX_ITEMS_PER_UNIT && n < MAX_ITEMS_PER_UNIT
    ensures var items, (t, result, item) := r.units[IndexOf(r.units, id)].items, Unequipped(BaredUpTo(r, id, n), id, n);
            if items[n] == 0 then result != Ok else result == Ok && item == items[n]
  {
    hide IndexOf, BaredUpTo;
    BaredShape(r, id, n);
    ZeroedIs(r.units[IndexOf(r.units, id)].items, n);
  }

  lemma BareOne(r: RosterState, id: UnitId, slot: nat)
    requires var k := IndexOf(r.units, id); k < |r.units| && |r.units[k].items| == MAX_ITEMS_PER_UNIT && slot < MAX_ITEMS_PER_UNIT
    ensures var k := IndexOf(r.units, id);
            var u := r.units[k];
            var t := Unequipped(r, id, slot).0;
            t == r.(units := r.units[k := u.(items := u.items[slot := 0])]) && IndexOf(t.units, id) == k
  {
    var k := IndexOf(r.units, id);
    var t := Unequipped(r, id, slot).0;
    hide IndexOf;
    assert r.units[k].items[slot] == 0 ==> r.units[k].items[slot := 0] == r.units[k].items;
    assert t.units == r.units[k := r.units[k].(items := r.units[k].items[slot := 0])];
    var m := IndexOf(t.units, id);
    assert t.units[k].id == id;
    assert forall j | 0 <= j < k :: t.units[j].id != id;
  }

  lemma EquippedOrNot(r: RosterState, defs: seq<ItemDef>, id: UnitId, item: ItemId)
    ensures var (t, result) := Equipped(r, defs, id, item);
            var k := IndexOf(r.units, id);
            && (result != Ok ==> t == r)
            && (item != 0 ==> (result == Ok <==> k < |r.units| && PlaceItem(defs, r.units[k].items, item).Some?))
  {
  }

  lemma ConsumableParts(defs: seq<ItemDef>, item: ItemId, x: ItemId)
    requires DatabaseOk(defs) && Consumes(defs, item)
    ensures Parts(defs, item, x) == One(item, x)
  {
    var k :| 0 <= k < |defs| && defs[k].id == item && defs[k].consumable;
    assert ItemOk(defs, k);
    forall m | 0 <= m < |defs| && defs[m].id == item
      ensures m == k
    {
    }
    PartsOfBase(defs, item, x);
  }

  lemma {:induction false} WeightSplit(units: seq<UnitInstance>, i: nat)
    requires i < |units|
    ensures forall c: nat :: Weight(units[..i + 1], c) == Weight(units[..i], c) + Weighs(units[i], c)
    ensures forall c: nat :: Weight(units[..i + 1], c) <= Weight(units, c)
  {
    assert units[..i + 1][..i] == units[..i];
    forall c: nat
      ensures Weight(units[..i + 1], c) <= Weight(units, c)
    {
      WeightGrows(units, i + 1, c);
    }
  }

  lemma {:induction false} WeightGrows(units: seq<UnitInstance>, i: nat, c: ChampionIndex)
    requires i <= |units|
    ensures Weight(units[..i], c) <= Weight(units, c)
  {
    if i == |units| {
      assert units[..i] == units;
    } else {
      WeightGrows(units[..|units| - 1], i, c);
      assert units[..|units| - 1][..i] == units[..i];
    }
  }

  // Of a list of items, those the game knows.
  function KnownOnes(hasItems: bool, defs: seq<ItemDef>, items: seq<ItemId>): seq<ItemId> {
    if items == [] then []
    else
      var last := items[|items| - 1];
      KnownOnes(hasItems, defs, items[..|items| - 1]) + if last != 0 && (!hasItems || Known(defs, last)) then [last] else []
  }

  lemma NoneKnown(hasItems: bool, defs: seq<ItemDef>)
    ensures KnownOnes(hasItems, defs, []) == []
  {
  }

  lemma OneKnownMore(hasItems: bool, defs: seq<ItemDef>, items: seq<ItemId>, k: nat)
    requires k < |items|
    ensures KnownOnes(hasItems, defs, items[..k + 1]) ==
              KnownOnes(hasItems, defs, items[..k]) + if items[k] != 0 && (!hasItems || Known(defs, items[k])) then [items[k]] else []
  {
    assert items[..k + 1][..k] == items[..k];
  }

  lemma EmptyRoster(r: RosterState, db: seq<Champion>)
    requires Layout(r)
    ensures var t := r.(units := [], cells := seq(CELLS, _ => 0)); Layout(t) && Settled(db, t.units)
  {
  }
}
