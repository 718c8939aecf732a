// What a shop has on offer, and how an offer is dealt (server/src/ShopManager.cpp): the tiers and their
// odds, and the law every new offer follows.
module Offers {
  import opened Wrappers
  import opened ChampionPool

  // ---- Shop offers on values ---------------------------------------------------------------------

  type Offer = Option<ChampionIndex>   // None: an empty slot

  // How many slots offer champion c.
  function Offered(slots: seq<Offer>, c: ChampionIndex): nat {
    if slots == [] then 0 else Offered(slots[..|slots| - 1], c) + if slots[|slots| - 1] == Some(c) then 1 else 0
  }

  lemma {:induction false} OfferedUpdate(slots: seq<Offer>, i: nat, o: Offer, c: ChampionIndex)
    requires i < |slots|
    ensures Offered(slots[i := o], c) == Offered(slots, c) - (if slots[i] == Some(c) then 1 else 0) + if o == Some(c) then 1 else 0
  {
    var init := slots[..|slots| - 1];
    if i == |slots| - 1 {
      assert slots[i := o][..|slots| - 1] == init;
    } else {
      OfferedUpdate(init, i, o, c);
      assert slots[i := o][..|slots| - 1] == init[i := o];
    }
  }

  lemma OfferedAt(slots: seq<Offer>, i: nat, o: Offer)
    requires i < |slots| && slots[i] == None
    ensures forall c: nat :: Offered(slots[i := o], c) == Offered(slots, c) + if o == Some(c) then 1 else 0
  {
    forall c: nat
      ensures Offered(slots[i := o], c) == Offered(slots, c) + if o == Some(c) then 1 else 0
    {
      OfferedUpdate(slots, i, o, c);
    }
  }

  lemma {:induction false} NothingOffered(slots: seq<Offer>, c: ChampionIndex)
    requires forall i | 0 <= i < |slots| :: slots[i] == None
    ensures Offered(slots, c) == 0
  {
    if slots != [] {
      NothingOffered(slots[..|slots| - 1], c);
    }
  }

  lemma {:induction false} OfferCounts(slots: seq<Offer>, i: nat, c: ChampionIndex)
    requires i < |slots| && slots[i] == Some(c)
    ensures Offered(slots, c) >= 1
  {
    if i < |slots| - 1 {
      OfferCounts(slots[..|slots| - 1], i, c);
    }
  }

  predicate OffersOk(db: seq<Champion>, slots: seq<Offer>) {
    forall i | 0 <= i < |slots| && slots[i].Some? :: slots[i].value < |db| && !db[slots[i].value].plant
  }

  // ---- Tiers by weight ----------------------------------------------------------------------------

  predicate OddsOk(odds: seq<int>) {
    |odds| == MAX_COST_TIER && forall t | 0 <= t < MAX_COST_TIER :: odds[t] >= 0
  }

  // The odds of a level.
  function LevelOdds(rates: seq<seq<int>>, level: int): (odds: seq<int>)
    ensures |odds| == MAX_COST_TIER
  {
    if 1 <= level <= |rates| && |rates[level - 1]| == MAX_COST_TIER then rates[level - 1] else [0, 0, 0, 0, 0]
  }

  // The weights of a level's tiers, the sold-out ones left out.
  function Weights(odds: seq<int>, stock: seq<int>): (w: seq<int>)
    requires |odds| == |stock| == MAX_COST_TIER
    ensures |w| == MAX_COST_TIER
  {
    seq(MAX_COST_TIER, t requires 0 <= t < MAX_COST_TIER => if stock[t] > 0 then odds[t] else 0)
  }

  const TIERS: seq<nat> := [0, 1, 2, 3, 4]

  // The most likely tier of a level; the cheaper one on a tie.
  function Favourite(odds: seq<int>, t: nat): (f: nat)
    requires t < |odds|
    ensures f <= t && (forall k | 0 <= k <= t :: odds[k] <= odds[f]) && (forall k | 0 <= k < f :: odds[k] < odds[f])
  {
    if t == 0 then 0
    else
      var f := Favourite(odds, t - 1);
      if odds[t] > odds[f] then t else f
  }

  function Apart(a: int, b: int): nat {
    if a < b then b - a else a - b
  }

  // Tier t is the nearest one with stock to the favourite; the cheaper one on a tie.
  ghost predicate Nearest(stock: seq<int>, favourite: int, t: int) {
    && 0 <= t < |stock| && stock[t] > 0
    && forall k | 0 <= k < |stock| && stock[k] > 0 :: Apart(favourite, t) < Apart(favourite, k) || (Apart(favourite, t) == Apart(favourite, k) && t <= k)
  }

  // Drawable copies tier by tier.
  ghost function StockByTier(db: seq<Champion>, remaining: seq<int>, allowed: ChampionIndex -> bool): (s: seq<int>)
    ensures |s| == MAX_COST_TIER
  {
    seq(MAX_COST_TIER, t => DrawableOf(db, remaining, allowed, t + 1))
  }

  lemma NoTiers(weights: seq<int>)
    ensures Drawable(weights, Anybody(), TIERS[..0]) == 0
  {
  }

  // Which tier a roll below the total weight picks: tier t for exactly weights[t] of the rolls (see
  // ChampionPool.RollsPerChampion).
  method PickTier(weights: seq<int>, roll: int) returns (t: nat)
    requires |weights| == MAX_COST_TIER && forall k | 0 <= k < MAX_COST_TIER :: weights[k] >= 0
    requires 0 <= roll < Drawable(weights, Anybody(), TIERS)
    ensures t < MAX_COST_TIER && weights[t] > 0 && Pick(weights, Anybody(), TIERS, roll) == Some(t)
  {
    PickFinds(weights, Anybody(), TIERS, roll);
    var left := roll;
    t := 0;
    while t < MAX_COST_TIER && left >= weights[t]
      invariant 0 <= t <= MAX_COST_TIER && 0 <= left
      invariant Pick(weights, Anybody(), TIERS, roll) == Pick(weights, Anybody(), TIERS[t..], left)
      decreases MAX_COST_TIER - t
    {
      assert TIERS[t..][1..] == TIERS[t + 1..];
      left := left - weights[t];
      t := t + 1;
    }
  }

  // ---- A new offer ---------------------------------------------------------------------------------

  // A tier holds a copy this owner may draw.
  ghost predicate InStock(db: seq<Champion>, allowed: ChampionIndex -> bool, remaining: seq<int>, tier: int) {
    exists c: nat :: c < |db| && c < |remaining| && db[c].pooled && db[c].cost == tier && allowed(c) && remaining[c] > 0
  }

  // Nobody this owner may draw has a copy left.
  ghost predicate SoldOut(db: seq<Champion>, allowed: ChampionIndex -> bool, remaining: seq<int>) {
    forall c: nat :: c < |db| && c < |remaining| && db[c].pooled && allowed(c) ==> remaining[c] <= 0
  }

  // The tier is one that the level's odds allow and that has stock.
  ghost predicate WithinOdds(db: seq<Champion>, odds: seq<int>, allowed: ChampionIndex -> bool, remaining: seq<int>, tier: int)
    requires |odds| == MAX_COST_TIER
  {
    1 <= tier <= 5 && odds[tier - 1] > 0 && InStock(db, allowed, remaining, tier)
  }

  // The most likely tier of the level; the cheapest of several.
  predicate MostLikely(odds: seq<int>, tier: int)
    requires |odds| == MAX_COST_TIER
  {
    1 <= tier <= 5 && forall k | 0 <= k < 5 :: odds[k] < odds[tier - 1] || (odds[k] == odds[tier - 1] && tier - 1 <= k)
  }

  // Among the tiers with stock this one is the nearest to the most likely tier; the cheaper one of two.
  ghost predicate NearestInStock(db: seq<Champion>, odds: seq<int>, allowed: ChampionIndex -> bool, remaining: seq<int>, tier: int)
    requires |odds| == MAX_COST_TIER
  {
    && 1 <= tier <= 5 && InStock(db, allowed, remaining, tier)
    && forall f, k | MostLikely(odds, f) && 1 <= k <= 5 && InStock(db, allowed, remaining, k) ::
         Apart(f, tier) < Apart(f, k) || (Apart(f, tier) == Apart(f, k) && tier <= k)
  }

  // One slot: a copy leaves the stock for it, of a tier that the odds allow if any of those has stock, else
  // of the nearest tier that has -- and the slot is empty only if none has.
  ghost predicate DealsOne(db: seq<Champion>, odds: seq<int>, allowed: ChampionIndex -> bool, before: seq<int>, drawn: Offer, after: seq<int>)
    requires |odds| == MAX_COST_TIER
  {
    match drawn
    case None => after == before && SoldOut(db, allowed, before)
    case Some(c) =>
      && c < |db| && c < |before| && db[c].pooled && allowed(c) && before[c] > 0 && after == before[c := before[c] - 1]
      && if exists tier :: WithinOdds(db, odds, allowed, before, tier) then WithinOdds(db, odds, allowed, before, db[c].cost)
         else NearestInStock(db, odds, allowed, before, db[c].cost)
  }

  // All slots, one after the other.
  ghost predicate Deals(db: seq<Champion>, odds: seq<int>, allowed: ChampionIndex -> bool, stock: seq<int>, slots: seq<Offer>, after: seq<int>)
    requires |odds| == MAX_COST_TIER
    decreases |slots|
  {
    if slots == [] then after == stock
    else exists mid :: DealsOne(db, odds, allowed, stock, slots[0], mid) && Deals(db, odds, allowed, mid, slots[1..], after)
  }

  // The stock once an old offer is back.
  ghost function Restocked(db: seq<Champion>, remaining: seq<int>, slots: seq<Offer>): (stock: seq<int>)
    ensures |stock| == |remaining|
  {
    seq(|remaining|, c requires 0 <= c < |remaining| => if c < |db| && db[c].pooled then remaining[c] + Offered(slots, c) else remaining[c])
  }

  // Whom an owner may draw: those that must be unlocked only once they are.
  function MayDraw(db: seq<Champion>, unlocked: seq<ChampionIndex>): ChampionIndex -> bool {
    (i: ChampionIndex) => i < |db| && (!db[i].gated || i in unlocked)
  }

  // The old offer is back and a new one is dealt from the stock there is then. If a slot is empty, no
  // champion that this owner may draw has a copy left.
  ghost predicate NewOffer(db: seq<Champion>, odds: seq<int>, unlocked: seq<ChampionIndex>, before: seq<int>, slots: seq<Offer>, offer: seq<Offer>, after: seq<int>)
    requires |odds| == MAX_COST_TIER
  {
    && |offer| == |slots| && Deals(db, odds, MayDraw(db, unlocked), Restocked(db, before, slots), offer, after)
    && (forall i | 0 <= i < |offer| && offer[i].Some? ::
          offer[i].value < |db| && db[offer[i].value].pooled && (db[offer[i].value].gated ==> offer[i].value in unlocked))
    && (None in offer ==>
          forall c: nat :: c < |db| && c < |after| && db[c].pooled && (db[c].gated ==> c in unlocked) ==> after[c] <= 0)
  }

  lemma NewOfferIs(db: seq<Champion>, odds: seq<int>, unlocked: seq<ChampionIndex>, before: seq<int>, slots: seq<Offer>, offer: seq<Offer>, after: seq<int>)
    requires |odds| == MAX_COST_TIER && |offer| == |slots|
    requires Deals(db, odds, MayDraw(db, unlocked), Restocked(db, before, slots), offer, after)
    requires forall i | 0 <= i < |offer| && offer[i].Some? :: offer[i].value < |db| && db[offer[i].value].pooled && MayDraw(db, unlocked)(offer[i].value)
    requires None in offer ==> SoldOut(db, MayDraw(db, unlocked), after)
    ensures NewOffer(db, odds, unlocked, before, slots, offer, after)
  {
    hide Deals, Restocked;
  }

  lemma NothingDealt(db: seq<Champion>, odds: seq<int>, allowed: ChampionIndex -> bool, stock: seq<int>)
    requires |odds| == MAX_COST_TIER
    ensures Deals(db, odds, allowed, stock, [], stock)
  {
  }

  lemma {:induction false} DealsNext(db: seq<Champion>, odds: seq<int>, allowed: ChampionIndex -> bool, stock: seq<int>, slots: seq<Offer>, before: seq<int>, drawn: Offer, after: seq<int>)
    requires |odds| == MAX_COST_TIER
    requires Deals(db, odds, allowed, stock, slots, before) && DealsOne(db, odds, allowed, before, drawn, after)
    ensures Deals(db, odds, allowed, stock, slots + [drawn], after)
    decreases |slots|
  {
    hide DealsOne;
    if slots == [] {
      assert [drawn][1..] == [];
      NothingDealt(db, odds, allowed, after);
    } else {
      var mid :| DealsOne(db, odds, allowed, stock, slots[0], mid) && Deals(db, odds, allowed, mid, slots[1..], before);
      DealsNext(db, odds, allowed, mid, slots[1..], before, drawn, after);
      assert (slots + [drawn])[1..] == slots[1..] + [drawn];
    }
  }

  // Whoever is on offer may be; and an empty slot means that nothing is left to fill it with -- at the end,
  // too, as dealing only ever takes.
  lemma {:induction false} DealtIsAllowed(db: seq<Champion>, odds: seq<int>, allowed: ChampionIndex -> bool, stock: seq<int>, slots: seq<Offer>, after: seq<int>)
    requires |odds| == MAX_COST_TIER && Deals(db, odds, allowed, stock, slots, after)
    ensures forall i | 0 <= i < |slots| && slots[i].Some? :: slots[i].value < |db| && db[slots[i].value].pooled && allowed(slots[i].value)
    ensures None in slots || SoldOut(db, allowed, stock) ==> SoldOut(db, allowed, after)
    decreases |slots|
  {
    if slots != [] {
      var mid :| DealsOne(db, odds, allowed, stock, slots[0], mid) && Deals(db, odds, allowed, mid, slots[1..], after);
      DealsFits(db, odds, allowed, stock, slots[0], mid);
      hide DealsOne, SoldOut, Deals;
      DealtIsAllowed(db, odds, allowed, mid, slots[1..], after);
      forall i | 0 <= i < |slots| && slots[i].Some?
        ensures slots[i].value < |db| && db[slots[i].value].pooled && allowed(slots[i].value)
      {
        assert i > 0 ==> slots[1..][i - 1] == slots[i];
      }
      if None in slots && slots[0] != None {
        var i :| 0 <= i < |slots| && slots[i] == None;
        assert slots[1..][i - 1] == None;
      }
    }
  }

  lemma DealsFits(db: seq<Champion>, odds: seq<int>, allowed: ChampionIndex -> bool, before: seq<int>, drawn: Offer, after: seq<int>)
    requires |odds| == MAX_COST_TIER && DealsOne(db, odds, allowed, before, drawn, after)
    ensures drawn.Some? ==> drawn.value < |db| && db[drawn.value].pooled && allowed(drawn.value)
    ensures drawn.None? || SoldOut(db, allowed, before) ==> SoldOut(db, allowed, after)
  {
    hide WithinOdds, NearestInStock;
  }

  // Sold out means that every tier's total is zero.
  lemma SoldOutMeans(db: seq<Champion>, allowed: ChampionIndex -> bool, remaining: seq<int>)
    requires ChampionsOk(db) && |remaining| == |db| && forall c | 0 <= c < |remaining| :: remaining[c] >= 0
    ensures SoldOut(db, allowed, remaining) <==> forall tier | 1 <= tier <= 5 :: DrawableOf(db, remaining, allowed, tier) <= 0
  {
    hide DrawableOf, ChampionsOk;
    forall tier | 1 <= tier <= 5
      ensures DrawableOf(db, remaining, allowed, tier) > 0 <==> InStock(db, allowed, remaining, tier)
    {
      StockMeans(db, allowed, remaining, tier);
    }
    if c: nat :| c < |db| && db[c].pooled && allowed(c) && remaining[c] > 0 {
      CostsAreTiers(db, c);
      assert InStock(db, allowed, remaining, db[c].cost);
    }
  }

  lemma CostsAreTiers(db: seq<Champion>, c: nat)
    requires ChampionsOk(db) && c < |db|
    ensures 1 <= db[c].cost <= MAX_COST_TIER
  {
  }

  // A tier's total is positive exactly if one of its champions has a copy left.
  lemma StockMeans(db: seq<Champion>, allowed: ChampionIndex -> bool, remaining: seq<int>, tier: int)
    requires |remaining| == |db| && forall c | 0 <= c < |remaining| :: remaining[c] >= 0
    ensures DrawableOf(db, remaining, allowed, tier) > 0 <==> InStock(db, allowed, remaining, tier)
  {
    var ms := Members(db, tier);
    MembersExact(db, tier);
    SomeStock(remaining, allowed, ms);
    hide Members, Drawable;
    if c: nat :| c < |db| && db[c].pooled && db[c].cost == tier && allowed(c) && remaining[c] > 0 {
      assert c in ms;
      var k :| 0 <= k < |ms| && ms[k] == c;
      assert Stock(remaining, allowed, ms[k]) > 0;
    }
    if k :| 0 <= k < |ms| && Stock(remaining, allowed, ms[k]) > 0 {
      assert ms[k] in ms;
    }
  }

  lemma {:induction false} SomeStock(remaining: seq<int>, allowed: ChampionIndex -> bool, members: seq<ChampionIndex>)
    requires forall c | 0 <= c < |remaining| :: remaining[c] >= 0
    ensures Drawable(remaining, allowed, members) >= 0
    ensures Drawable(remaining, allowed, members) > 0 <==> exists k :: 0 <= k < |members| && Stock(remaining, allowed, members[k]) > 0
  {
    if members != [] {
      var n := |members| - 1;
      SomeStock(remaining, allowed, members[..n]);
      assert forall k | 0 <= k < n :: members[..n][k] == members[k];
      if k :| 0 <= k < n && Stock(remaining, allowed, members[..n][k]) > 0 {
        assert Stock(remaining, allowed, members[k]) > 0;
      }
    }
  }

  // The draw by weights and totals follows the law.
  lemma DealsOneIs(db: seq<Champion>, odds: seq<int>, allowed: ChampionIndex -> bool, before: seq<int>, drawn: Offer, after: seq<int>)
    requires |odds| == MAX_COST_TIER && ChampionsOk(db) && OddsOk(odds) && |before| == |db| && forall c | 0 <= c < |before| :: before[c] >= 0
    requires drawn.None? <==> forall t | 0 <= t < MAX_COST_TIER :: StockByTier(db, before, allowed)[t] <= 0
    requires drawn.None? ==> after == before
    requires drawn.Some? ==> Taken(db, before, after, drawn.value, 1) && db[drawn.value].pooled && allowed(drawn.value) && after[drawn.value] >= 0
    requires drawn.Some? ==> var stock, tier := StockByTier(db, before, allowed), db[drawn.value].cost - 1;
               if Drawable(Weights(odds, stock), Anybody(), TIERS) > 0 then odds[tier] > 0 else Nearest(stock, Favourite(odds, MAX_COST_TIER - 1), tier)
    ensures DealsOne(db, odds, allowed, before, drawn, after)
  {
    hide *;
    var stock := StockByTier(db, before, allowed);
    StockIs(db, allowed, before);
    OddsWithin(db, odds, allowed, before, stock);
    if drawn.Some? {
      CopyInStock(db, allowed, before, drawn.value, after);
      if !(Drawable(Weights(odds, stock), Anybody(), TIERS) > 0) {
        NearestIs(db, odds, allowed, before, stock, db[drawn.value].cost);
      }
      DealtIs(db, odds, allowed, before, drawn.value, after);
    } else {
      NothingLeftToDeal(db, odds, allowed, before);
    }
  }

  lemma CopyInStock(db: seq<Champion>, allowed: ChampionIndex -> bool, before: seq<int>, c: ChampionIndex, after: seq<int>)
    requires ChampionsOk(db) && Taken(db, before, after, c, 1) && db[c].pooled && allowed(c) && after[c] >= 0
    ensures c < |db| && 1 <= db[c].cost <= MAX_COST_TIER && InStock(db, allowed, before, db[c].cost)
  {
    CostsAreTiers(db, c);
  }

  lemma NothingLeftToDeal(db: seq<Champion>, odds: seq<int>, allowed: ChampionIndex -> bool, before: seq<int>)
    requires |odds| == MAX_COST_TIER && SoldOut(db, allowed, before)
    ensures DealsOne(db, odds, allowed, before, None, before)
  {
  }

  lemma DealtIs(db: seq<Champion>, odds: seq<int>, allowed: ChampionIndex -> bool, before: seq<int>, c: ChampionIndex, after: seq<int>)
    requires |odds| == MAX_COST_TIER && Taken(db, before, after, c, 1) && db[c].pooled && allowed(c) && after[c] >= 0
    requires 1 <= db[c].cost <= MAX_COST_TIER && InStock(db, allowed, before, db[c].cost)
    requires if exists tier :: WithinOdds(db, odds, allowed, before, tier) then odds[db[c].cost - 1] > 0
             else NearestInStock(db, odds, allowed, before, db[c].cost)
    ensures DealsOne(db, odds, allowed, before, Some(c), after)
  {
    hide InStock, NearestInStock;
  }

  lemma StockIs(db: seq<Champion>, allowed: ChampionIndex -> bool, remaining: seq<int>)
    requires ChampionsOk(db) && |remaining| == |db| && forall c | 0 <= c < |remaining| :: remaining[c] >= 0
    ensures var stock := StockByTier(db, remaining, allowed);
            && (forall t | 0 <= t < MAX_COST_TIER :: stock[t] > 0 <==> InStock(db, allowed, remaining, t + 1))
            && (SoldOut(db, allowed, remaining) <==> forall t | 0 <= t < MAX_COST_TIER :: stock[t] <= 0)
  {
    hide *;
    SoldOutMeans(db, allowed, remaining);
    var stock := StockByTier(db, remaining, allowed);
    TotalsByTier(db, allowed, remaining);
    forall t | 0 <= t < MAX_COST_TIER
      ensures stock[t] > 0 <==> InStock(db, allowed, remaining, t + 1)
    {
      StockMeans(db, allowed, remaining, t + 1);
    }
    if forall t | 0 <= t < MAX_COST_TIER :: stock[t] <= 0 {
      forall tier | 1 <= tier <= 5
        ensures DrawableOf(db, remaining, allowed, tier) <= 0
      {
        assert stock[tier - 1] <= 0;
      }
    }
  }

  lemma TotalsByTier(db: seq<Champion>, allowed: ChampionIndex -> bool, remaining: seq<int>)
    ensures MAX_COST_TIER == 5 && forall t | 0 <= t < MAX_COST_TIER :: StockByTier(db, remaining, allowed)[t] == DrawableOf(db, remaining, allowed, t + 1)
  {
    hide DrawableOf;
  }

  lemma OddsWithin(db: seq<Champion>, odds: seq<int>, allowed: ChampionIndex -> bool, remaining: seq<int>, stock: seq<int>)
    requires OddsOk(odds) && |stock| == MAX_COST_TIER && forall t | 0 <= t < MAX_COST_TIER :: stock[t] > 0 <==> InStock(db, allowed, remaining, t + 1)
    ensures Drawable(Weights(odds, stock), Anybody(), TIERS) > 0 <==> exists tier :: WithinOdds(db, odds, allowed, remaining, tier)
  {
    hide InStock;
    var w := Weights(odds, stock);
    SomeStock(w, Anybody(), TIERS);
    hide Drawable;
    assert forall k | 0 <= k < 5 :: TIERS[k] == k;
    if k :| 0 <= k < |TIERS| && Stock(w, Anybody(), TIERS[k]) > 0 {
      assert WithinOdds(db, odds, allowed, remaining, k + 1);
    }
    if tier :| WithinOdds(db, odds, allowed, remaining, tier) {
      var k := tier - 1;
      assert w[k] > 0;
      assert Stock(w, Anybody(), TIERS[k]) > 0;
    }
  }

  lemma NearestIs(db: seq<Champion>, odds: seq<int>, allowed: ChampionIndex -> bool, remaining: seq<int>, stock: seq<int>, tier: int)
    requires OddsOk(odds) && |stock| == MAX_COST_TIER && forall t | 0 <= t < MAX_COST_TIER :: stock[t] > 0 <==> InStock(db, allowed, remaining, t + 1)
    requires Nearest(stock, Favourite(odds, MAX_COST_TIER - 1), tier - 1)
    ensures NearestInStock(db, odds, allowed, remaining, tier)
  {
    hide InStock;
    var favourite := Favourite(odds, MAX_COST_TIER - 1);
    forall f, k | MostLikely(odds, f) && 1 <= k <= 5 && InStock(db, allowed, remaining, k)
      ensures Apart(f, tier) < Apart(f, k) || (Apart(f, tier) == Apart(f, k) && tier <= k)
    {
      assert odds[favourite] <= odds[f - 1] && odds[f - 1] <= odds[favourite];
      assert f - 1 == favourite && stock[k - 1] > 0;
    }
  }

  // Every offered copy is back.
  lemma AllReturned(db: seq<Champion>, before: seq<int>, slots: seq<Offer>, after: seq<int>)
    requires |before| == |after| == |db| && (forall c | 0 <= c < |db| && !db[c].pooled :: after[c] == before[c])
    requires forall c: nat | c < |db| && db[c].pooled :: after[c] == before[c] + Offered(slots, c)
    ensures after == Restocked(db, before, slots)
  {
  }
}
