// A match (server/src/MatchManager.cpp): phases, gifts, drops, player actions, elimination. Copies of
// champions move between the pool, shop slots, gift offers and rosters, and none is ever lost or
// made; the placements of those who are out are exact after every round.
module Match {
  import opened Wrappers
  import opened Actions
  import opened Items
  import opened ChampionPool
  import opened Roster
  import opened RosterMerge
  import opened UnitRosters
  import opened RosterLaws
  import opened Offers
  import opened Players
  import opened SeatActions
  import opened Placements
  import Traits

  datatype Phase = NotStarted | MotherNature | Planning | Combat | Resolution | MatchOver

  // Planning: everything. Combat and Resolution: the shop, and whatever touches only bench units.
  datatype ActorRule = PlanningOnly | ShopRule | BenchRule

  // What a trait asks of a seat: to pick a module, or to take an item -- with the gold and the items that
  // come with it -- for all of its star dust.
  datatype TraitChoice = NoChoice | ModuleChoice(modules: seq<nat>) | CashOut(options: seq<ItemId>, bonusGold: int, bonusItems: seq<ItemId>)

  // An option, or -1 to decline: a module cannot be declined.
  predicate Pickable(choice: TraitChoice, index: int) {
    match choice
    case NoChoice => false
    case ModuleChoice(modules) => 0 <= index < |modules|
    case CashOut(options, _, _) => -1 <= index < |options|
  }

  function ItemsOf(choice: TraitChoice, index: int): seq<ItemId>
    requires Pickable(choice, index)
  {
    if choice.CashOut? && index >= 0 then [choice.options[index]] + choice.bonusItems else []
  }

  function GoldOf(choice: TraitChoice, index: int): int
    requires Pickable(choice, index)
  {
    if choice.CashOut? && index >= 0 && choice.bonusGold > 0 then choice.bonusGold else 0
  }

  // How many copies of champion c are on offer as gifts.
  function OnGift(offers: seq<GiftOffer>, c: ChampionIndex): nat {
    if offers == [] then 0 else OnGift(offers[..|offers| - 1], c) + if offers[|offers| - 1] == UnitGift(c) then 1 else 0
  }

  lemma {:induction false} OnGiftErase(offers: seq<GiftOffer>, k: nat, c: ChampionIndex)
    requires k < |offers|
    ensures OnGift(offers[..k] + offers[k + 1..], c) == OnGift(offers, c) - if offers[k] == UnitGift(c) then 1 else 0
  {
    var init := offers[..|offers| - 1];
    if k == |offers| - 1 {
      assert offers[..k] + offers[k + 1..] == init;
    } else {
      OnGiftErase(init, k, c);
      var w := offers[..k] + offers[k + 1..];
      assert w[..|w| - 1] == init[..k] + init[k + 1..] && w[|w| - 1] == offers[|offers| - 1];
    }
  }

  function Sum(xs: seq<nat>): nat {
    if xs == [] then 0 else Sum(xs[..|xs| - 1]) + xs[|xs| - 1]
  }

  lemma {:induction false} SumUpdate(xs: seq<nat>, i: nat, v: nat)
    requires i < |xs|
    ensures Sum(xs[i := v]) == Sum(xs) - xs[i] + v
  {
    var n := |xs| - 1;
    if i == n {
      assert xs[i := v][..n] == xs[..n];
    } else {
      SumUpdate(xs[..n], i, v);
      assert xs[i := v][..n] == xs[..n][i := v];
    }
  }

  lemma {:induction false} SumBound(xs: seq<nat>, i: nat)
    requires i < |xs|
    ensures xs[i] <= Sum(xs)
  {
    if i < |xs| - 1 {
      SumBound(xs[..|xs| - 1], i);
    }
  }

  lemma {:induction false} SumOfNothing(xs: seq<nat>)
    requires forall i | 0 <= i < |xs| :: xs[i] == 0
    ensures Sum(xs) == 0
  {
    if xs != [] {
      SumOfNothing(xs[..|xs| - 1]);
    }
  }

  predicate OffersFit(db: seq<Champion>, offers: seq<GiftOffer>) {
    forall k | 0 <= k < |offers| && offers[k].UnitGift? :: offers[k].champion < |db| && db[offers[k].champion].pooled
  }

  // Nothing happened to any other seat.
  ghost predicate OnlyAt(i: nat, before: seq<View>, after: seq<View>) {
    |before| == |after| && forall j | 0 <= j < |before| && j != i :: after[j] == before[j]
  }

  // No fighter was moved, swapped, sold, merged or added.
  ghost predicate SameFormations(before: seq<View>, after: seq<View>) {
    |before| == |after| && forall j | 0 <= j < |before| :: Formation(after[j].roster.units) == Formation(before[j].roster.units)
  }

  lemma OnlyAtTwice(i: nat, a: seq<View>, b: seq<View>, c: seq<View>)
    requires OnlyAt(i, a, b) && OnlyAt(i, b, c)
    ensures OnlyAt(i, a, c)
  {
  }

  lemma OnlyAtNone(i: nat, a: seq<View>)
    ensures OnlyAt(i, a, a) && SameFormations(a, a)
  {
  }

  lemma FormationsTwice(a: seq<View>, b: seq<View>, c: seq<View>)
    requires SameFormations(a, b) && SameFormations(b, c)
    ensures SameFormations(a, c)
  {
  }

  // The seat that acted kept its formation, so everybody did.
  lemma FormationsKept(i: nat, before: seq<View>, after: seq<View>)
    requires OnlyAt(i, before, after) && i < |before| && Formation(after[i].roster.units) == Formation(before[i].roster.units)
    ensures SameFormations(before, after)
  {
    hide Formation;
  }

  lemma NobodyChanged(i: nat, before: seq<View>, after: seq<View>)
    requires OnlyAt(i, before, after) && (i < |before| ==> after[i] == before[i])
    ensures after == before
  {
  }

  class MatchManager {
    const pool: SharedChampionPool
    const players: seq<PlayerState>
    const rules: MatchRules
    var phase: Phase
    var round: int
    var gifts: seq<PlayerGifts>
    var choices: map<nat, TraitChoice>
    var winner: nat

    // ---- What holds at all times -------------------------------------------------------------------

    ghost function Frame(): (s: set<object>)
      ensures pool in s
      ensures forall i | 0 <= i < |players| :: players[i] in s && players[i].roster in s && players[i].shop in s
    {
      assert forall i | 0 <= i < |players| :: players[i] in players;
      {pool} + (set p | p in players :: p as object) + (set p | p in players :: p.roster as object) + (set p | p in players :: p.shop as object)
    }

    // Every seat has a player, a roster and a shop of its own; the pool is everybody's.
    ghost predicate Distinct() {
      && (forall i | 0 <= i < |players| :: players[i].pool == pool && players[i].id == i)
      && forall i, j | 0 <= i < j < |players| ::
           players[i] != players[j] && players[i].roster != players[j].roster && players[i].shop != players[j].shop
    }

    // The copies of champion c that seat i holds: shop, roster and gift offers.
    ghost function Share(i: nat, c: ChampionIndex): nat
      requires i < |players| && i < |gifts|
      reads this, players[i].roster, players[i].shop
    {
      players[i].Held(c) + OnGift(gifts[i].offers, c)
    }

    ghost function Shares(c: ChampionIndex): (s: seq<nat>)
      requires |players| == |gifts|
      reads this, Frame()
      ensures |s| == |players| && forall i | 0 <= i < |players| :: s[i] == Share(i, c)
    {
      seq(|players|, i requires 0 <= i < |players| == |gifts| reads this, Frame() => Share(i, c))
    }

    // The conservation law.
    ghost predicate Conserved()
      requires |players| == |gifts|
      reads this, Frame()
    {
      |pool.remaining| == |pool.initial| == |pool.db| &&
      forall c: nat | c < |pool.db| && pool.db[c].pooled :: pool.remaining[c] + Sum(Shares(c)) == pool.initial[c]
    }

    ghost predicate EachOwn()
      reads Frame()
    {
      forall i | 0 <= i < |players| :: players[i].Own() && !players[i].benchOnly
    }

    // Gifts exist only in their phase, and only for the living.
    ghost predicate GiftsOk()
      reads this, Frame()
    {
      |gifts| == |players| &&
      forall i | 0 <= i < |gifts| ::
        OffersFit(pool.db, gifts[i].offers) && (phase != MotherNature || players[i].eliminated ==> gifts[i].offers == [])
    }

    ghost function Out(): (s: seq<bool>)
      reads Frame()
      ensures |s| == |players| && forall i | 0 <= i < |players| :: s[i] == players[i].eliminated
    {
      seq(|players|, i requires 0 <= i < |players| reads Frame() => players[i].eliminated)
    }

    ghost function Placing(): (s: seq<int>)
      reads Frame()
      ensures |s| == |players| && forall i | 0 <= i < |players| :: s[i] == players[i].placement
    {
      seq(|players|, i requires 0 <= i < |players| reads Frame() => players[i].placement)
    }

    ghost function Healths(): (s: seq<int>)
      reads Frame()
      ensures |s| == |players| && forall i | 0 <= i < |players| :: s[i] == players[i].health
    {
      seq(|players|, i requires 0 <= i < |players| reads Frame() => players[i].health)
    }

    ghost function Alive(): nat
      reads Frame()
    {
      AliveCount(Out())
    }

    // Until the match is over the placements of those who are out are exactly those behind the
    // living; when it is over, they are complete and the winner holds the first.
    ghost predicate Placed()
      reads this, Frame()
    {
      if phase == MatchOver then Permutation(Placing()) && winner < |players| && players[winner].placement == 1
      else PlacesOk(Out(), Placing())
    }

    ghost predicate Valid()
      reads this, Frame()
    {
      Distinct() && pool.Valid() && GiftsOk() && EachOwn() && Conserved() && Placed()
    }

    // All copies are in the pool, everybody is alive.
    constructor (db: seq<Champion>, copiesPerTier: seq<nat>, playerCount: nat, config: PlayerConfig, rerollCost: int,
                 dropRatesByLevel: seq<seq<int>>, slotCount: nat, hasItems: bool, defs: seq<ItemDef>, rules: MatchRules)
      requires ChampionsOk(db) && |copiesPerTier| == MAX_COST_TIER && PlayerConfigOk(config) && DatabaseOk(defs) && (!hasItems ==> defs == [])
      requires rerollCost >= 0 && |dropRatesByLevel| == MAX_PLAYER_LEVEL
      requires forall l | 0 <= l < MAX_PLAYER_LEVEL :: OddsOk(dropRatesByLevel[l])
      ensures Valid() && phase == NotStarted && |players| == playerCount && this.rules == rules
    {
      hide PlayerState.Own, PlayerState.Held, PlayerConfigOk, DatabaseOk, SharedChampionPool.TotalsOk;
      var shared := new SharedChampionPool(db, copiesPerTier);
      var seats := SeatPlayers(shared, playerCount, config, rerollCost, dropRatesByLevel, slotCount, hasItems, defs);
      this.rules := rules;
      pool, players := shared, seats;
      phase, round, winner, choices := NotStarted, 0, 0, map[];
      gifts := seq(playerCount, _ => PlayerGifts([], false));
      new;
      forall c: nat | c < |pool.db| && pool.db[c].pooled
        ensures pool.remaining[c] + Sum(Shares(c)) == pool.initial[c]
      {
        SumOfNothing(Shares(c));
      }
      StartPlaces(Out(), Placing());
    }

    static method SeatPlayers(shared: SharedChampionPool, playerCount: nat, config: PlayerConfig, rerollCost: int, dropRatesByLevel: seq<seq<int>>,
                              slotCount: nat, hasItems: bool, defs: seq<ItemDef>) returns (seats: seq<PlayerState>)
      requires shared.Valid() && PlayerConfigOk(config) && DatabaseOk(defs) && (!hasItems ==> defs == [])
      requires rerollCost >= 0 && |dropRatesByLevel| == MAX_PLAYER_LEVEL
      requires forall l | 0 <= l < MAX_PLAYER_LEVEL :: OddsOk(dropRatesByLevel[l])
      ensures |seats| == playerCount
      ensures forall j | 0 <= j < playerCount :: fresh(seats[j]) && fresh(seats[j].roster) && fresh(seats[j].shop)
      ensures forall j | 0 <= j < playerCount :: seats[j].pool == shared && seats[j].id == j && seats[j].Own() && !seats[j].benchOnly
      ensures forall j | 0 <= j < playerCount :: !seats[j].eliminated && seats[j].placement == 0
      ensures forall j, c: nat | 0 <= j < playerCount :: seats[j].Held(c) == 0
      ensures forall j, k | 0 <= j < k < playerCount :: seats[j] != seats[k] && seats[j].roster != seats[k].roster && seats[j].shop != seats[k].shop
    {
      hide PlayerState.Own, PlayerState.Held, PlayerConfigOk, OddsOk, DatabaseOk, SharedChampionPool.Valid;
      seats := [];
      for i := 0 to playerCount
        invariant |seats| == i
        invariant forall j | 0 <= j < i :: fresh(seats[j]) && fresh(seats[j].roster) && fresh(seats[j].shop)
        invariant forall j | 0 <= j < i :: seats[j].pool == shared && seats[j].id == j && seats[j].Own() && !seats[j].benchOnly
        invariant forall j | 0 <= j < i :: !seats[j].eliminated && seats[j].placement == 0
        invariant forall j, c: nat | 0 <= j < i :: seats[j].Held(c) == 0
        invariant forall j, k | 0 <= j < k < i :: seats[j] != seats[k] && seats[j].roster != seats[k].roster && seats[j].shop != seats[k].shop
      {
        var player := new PlayerState(i, config, shared, rerollCost, dropRatesByLevel, slotCount, hasItems, defs);
        seats := seats + [player];
      }
    }

    ghost function ViewOf(i: nat, g: PlayerGifts): View
      requires i < |players|
      reads players[i], players[i].roster, players[i].shop
    {
      var p := players[i];
      View(p.health, p.streak, p.level, p.xp, p.gold, p.eliminated, p.placement, p.shopLocked, p.itemBag, p.unlocked, p.roster.State(), p.shop.slots, g)
    }

    ghost function Views(): (s: seq<View>)
      requires |players| == |gifts|
      reads `gifts, Frame()
      ensures |s| == |players| && forall i | 0 <= i < |players| :: s[i] == ViewOf(i, gifts[i])
    {
      var gs := gifts;
      seq(|players|, i requires 0 <= i < |players| == |gs| reads Frame() => ViewOf(i, gs[i]))
    }

    ghost predicate Fighting()
      reads `phase
    {
      phase == Combat || phase == Resolution
    }

    // ---- One seat acted ----------------------------------------------------------------------------

    // Whatever seat i holds fits the supply, so it can always go back.
    lemma BackedAt(i: nat)
      requires GiftsOk() && Conserved() && i < |players| && players[i].pool == pool
      ensures forall c: nat | c < |pool.db| && pool.db[c].pooled :: pool.remaining[c] + Share(i, c) <= pool.initial[c]
      ensures players[i].Backed()
    {
      forall c: nat | c < |pool.db| && pool.db[c].pooled
        ensures pool.remaining[c] + Share(i, c) <= pool.initial[c]
      {
        SumBound(Shares(c), i);
      }
    }

    // A step between the pool and seat i that loses no copy keeps the law for everybody.
    twostate lemma Acted(i: nat)
      requires i < |players| == |gifts| == |old(gifts)| && old(Conserved()) && pool.Valid()
      requires forall j: nat, c: nat | j < |players| && j != i :: Share(j, c) == old(Share(j, c))
      requires forall c: nat | c < |pool.db| && pool.db[c].pooled :: pool.remaining[c] + Share(i, c) == old(pool.remaining[c] + Share(i, c))
      ensures Conserved()
    {
      forall c: nat | c < |pool.db| && pool.db[c].pooled
        ensures pool.remaining[c] + Sum(Shares(c)) == pool.initial[c]
      {
        SumUpdate(old(Shares(c)), i, Share(i, c));
        assert Shares(c) == old(Shares(c))[i := Share(i, c)];
      }
    }

    // The seats share nothing but the pool.
    lemma OthersApart(i: nat)
      requires Distinct() && i < |players|
      ensures forall j: nat | j < |players| && j != i ::
                players[j] != players[i] && players[j].roster != players[i].roster && players[j].shop != players[i].shop
    {
    }

    // What seat i may rely on.
    lemma Facts(i: nat)
      requires Valid() && i < |players|
      ensures pool.Valid() && players[i].pool == pool && players[i].Own() && !players[i].benchOnly && players[i].Backed() && |gifts| == |players|
      ensures OffersFit(pool.db, gifts[i].offers)
      ensures forall c: nat | c < |pool.db| && pool.db[c].pooled :: pool.remaining[c] + Share(i, c) <= pool.initial[c]
      ensures forall j: nat | j < |players| && j != i ::
                players[j] != players[i] && players[j].roster != players[i].roster && players[j].shop != players[i].shop
    {
      hide PlayerState.Own, PlayerState.Backed, MatchManager.Placed, MatchManager.Distinct;
      assert Distinct() ==> players[i].pool == pool by {
        PoolOf(i);
      }
      BackedAt(i);
      OthersApart(i);
    }

    lemma PoolOf(i: nat)
      requires i < |players|
      ensures Distinct() ==> players[i].pool == pool
    {
    }

    // Seat i acted, nobody else; the phase is as before.
    twostate predicate OnlySeat(i: nat)
      requires i < |players|
      reads this, Frame()
    {
      && |gifts| == |players| == |old(gifts)| && phase == old(phase) && winner == old(winner)
      && forall j: nat | j < |players| && j != i ::
           gifts[j] == old(gifts)[j] && unchanged(players[j]) && unchanged(players[j].roster) && unchanged(players[j].shop)
    }

    twostate lemma OthersKept(i: nat)
      requires i < |players| == |gifts| && old(EachOwn()) && players[i].Own() && !players[i].benchOnly && OnlySeat(i)
      ensures forall j: nat, c: nat | j < |players| && j != i :: Share(j, c) == old(Share(j, c))
      ensures EachOwn() && Out() == old(Out())[i := players[i].eliminated] && Placing() == old(Placing())[i := players[i].placement]
      ensures Healths() == old(Healths())[i := players[i].health]
    {
      hide PlayerState.Own;
      forall j: nat, c: nat | j < |players| && j != i
        ensures Share(j, c) == old(Share(j, c))
      {
        assert players[j].Held(c) == old(players[j].Held(c));
      }
      forall j: nat | j < |players|
        ensures players[j].Own() && !players[j].benchOnly && (j != i ==> unchanged(players[j]))
      {
        assert old(players[j].Own());
      }
    }

    twostate lemma OthersSame(i: nat)
      requires |gifts| == |players| == |old(gifts)|
      requires forall j: nat | j < |players| && j != i ::
                 gifts[j] == old(gifts)[j] && unchanged(players[j]) && unchanged(players[j].roster) && unchanged(players[j].shop)
      ensures OnlyAt(i, old(Views()), Views())
    {
      forall j: nat | j < |players| && j != i
        ensures ViewOf(j, gifts[j]) == old(ViewOf(j, gifts[j]))
      {
      }
    }

    // Then everything holds again, as long as no copy was lost between the pool and the seat.
    twostate lemma KeptShare(i: nat)
      requires old(Valid()) && i < |players| && pool.Valid() && players[i].Own() && !players[i].benchOnly
      requires |gifts| == |players| == |old(gifts)| && phase == old(phase) && winner == old(winner)
      requires forall j: nat | j < |players| && j != i ::
                 gifts[j] == old(gifts)[j] && unchanged(players[j]) && unchanged(players[j].roster) && unchanged(players[j].shop)
      requires players[i].eliminated == old(players[i].eliminated) && players[i].placement == old(players[i].placement)
      requires OffersFit(pool.db, gifts[i].offers) && (phase != MotherNature || players[i].eliminated ==> gifts[i].offers == [])
      requires forall c: nat | c < |pool.db| && pool.db[c].pooled :: pool.remaining[c] + Share(i, c) == old(pool.remaining[c] + Share(i, c))
      ensures Valid() && OnlyAt(i, old(Views()), Views())
    {
      hide PlayerState.Own, OffersFit, OnGift, Permutation, PlacesOk, MatchManager.Distinct;
      OthersSame(i);
      hide OnlyAt;
      OthersKept(i);
      hide MatchManager.EachOwn;
      Acted(i);
      hide MatchManager.Conserved;
      assert Out() == old(Out()) && Placing() == old(Placing());
      forall j: nat | j < |players|
        ensures players[j].eliminated == old(players[j].eliminated) && players[j].placement == old(players[j].placement)
      {
        assert Out()[j] == old(Out()[j]) && Placing()[j] == old(Placing()[j]);
      }
    }

    twostate lemma Kept(i: nat)
      requires old(Valid()) && i < |players| && pool.Valid() && players[i].Own() && !players[i].benchOnly && gifts == old(gifts)
      requires |gifts| == |players| && phase == old(phase) && winner == old(winner)
      requires forall j: nat | j < |players| && j != i ::
                 unchanged(players[j]) && unchanged(players[j].roster) && unchanged(players[j].shop)
      requires players[i].eliminated == old(players[i].eliminated) && players[i].placement == old(players[i].placement)
      requires forall c: nat | c < |pool.db| && pool.db[c].pooled :: pool.remaining[c] + players[i].Held(c) == old(pool.remaining[c] + players[i].Held(c))
      ensures Valid() && OnlyAt(i, old(Views()), Views())
    {
      hide PlayerState.Own, OffersFit, OnGift, MatchManager.Placed, MatchManager.Distinct, MatchManager.EachOwn;
      KeptShare(i);
    }

    // ---- Player actions ----------------------------------------------------------------------------
    //
    // Each says when it is accepted, what the seat has afterwards, that it touches no other seat, that it
    // changes nothing if it is refused, and that while a fight is on it moves no fighter.

    // The seat is there, its player not out, and it is Planning or a fight is on.
    ghost predicate MayAct(i: nat)
      reads this, Frame()
    {
      i < |players| && !players[i].eliminated && (phase == Planning || Fighting())
    }

    // Every seat, field by field.
    twostate lemma SeatThen(i: nat)
      requires |gifts| == |players| == |old(gifts)| && gifts == old(gifts) && i < |players|
      ensures var p := players[i];
              Views()[i] == View(p.health, p.streak, p.level, p.xp, p.gold, p.eliminated, p.placement, p.shopLocked, p.itemBag, p.unlocked, p.roster.State(), p.shop.slots, gifts[i])
      ensures var p := players[i];
              old(Views())[i] == View(old(p.health), old(p.streak), old(p.level), old(p.xp), old(p.gold), old(p.eliminated), old(p.placement), old(p.shopLocked), old(p.itemBag),
                                      old(p.unlocked), old(p.roster.State()), old(p.shop.slots), gifts[i])
    {
    }

    // What a seat's refusal or success leaves as it was.
    twostate lemma Unmoved(i: nat)
      requires |gifts| == |players| == |old(gifts)| && gifts == old(gifts) && i < |players| && OnlyAt(i, old(Views()), Views())
      requires players[i].health == old(players[i].health) && players[i].streak == old(players[i].streak) && players[i].level == old(players[i].level) && players[i].xp == old(players[i].xp)
      requires players[i].gold == old(players[i].gold) && players[i].eliminated == old(players[i].eliminated) && players[i].placement == old(players[i].placement)
      requires players[i].shopLocked == old(players[i].shopLocked) && players[i].itemBag == old(players[i].itemBag) && players[i].unlocked == old(players[i].unlocked)
      requires players[i].roster.State() == old(players[i].roster.State()) && players[i].shop.slots == old(players[i].shop.slots)
      ensures Views() == old(Views())
    {
      assert ViewOf(i, gifts[i]) == old(ViewOf(i, gifts[i]));
      NobodyChanged(i, old(Views()), Views());
    }

    twostate lemma HeldPosition(i: nat)
      requires |gifts| == |players| == |old(gifts)| && i < |players| && OnlyAt(i, old(Views()), Views())
      requires Formation(players[i].roster.units) == old(Formation(players[i].roster.units))
      ensures SameFormations(old(Views()), Views())
    {
      hide Formation;
      assert Views()[i].roster.units == players[i].roster.units && old(Views())[i].roster.units == old(players[i].roster.units);
      FormationsKept(i, old(Views()), Views());
    }

    lemma StageIs()
      ensures Fighting() <==> phase == Combat || phase == Resolution
    {
    }

    // The board as it is, whatever stands on it.
    lemma BoardHolds(us: seq<UnitInstance>, vs: seq<UnitInstance>)
      ensures BoardOf(us) == BoardOf(vs) ==> Formation(us) == Formation(vs)
    {
    }

    // Planning: everything. Combat and Resolution: what the rule allows.
    method ResolveActor(i: nat, rule: ActorRule) returns (result: ActionResult)
      requires Valid()
      ensures Valid() && Views() == old(Views())
      ensures result == Ok <==> i < |players| && !players[i].eliminated && (phase == Planning || (Fighting() && rule != PlanningOnly))
      ensures rule != PlanningOnly ==> (result == Ok <==> MayAct(i)) && (result == Ok <==> old(MayAct(i)))
      ensures result == WrongPhase <==> !(phase == Planning || (Fighting() && rule != PlanningOnly))
      ensures result == InvalidPlayer ==> i >= |players|
      ensures result == PlayerEliminated ==> i < |players| && players[i].eliminated
      ensures result in {Ok, WrongPhase, InvalidPlayer, PlayerEliminated}
    {
      hide MatchManager.Valid;
      var fighting := phase == Combat || phase == Resolution;
      if phase != Planning && !(fighting && rule != PlanningOnly) {
        return WrongPhase;
      }
      if i >= |players| {
        return InvalidPlayer;
      }
      return if players[i].eliminated then PlayerEliminated else Ok;
    }

    // A new offer for gold, and the special champions stay on offer.
    method TryRerollShop(i: nat, closed: bool) returns (result: ActionResult)
      requires Valid()
      modifies this, Frame()
      ensures Valid() && phase == old(phase) && round == old(round) && winner == old(winner)
      ensures OnlyAt(i, old(Views()), Views()) && (Fighting() ==> SameFormations(old(Views()), Views()))
      ensures result != Ok ==> Views() == old(Views()) && pool.remaining == old(pool.remaining)
      ensures result == Ok <==> old(MayAct(i)) && !closed && old(players[i].gold) >= players[i].shop.rerollCost
      ensures old(MayAct(i)) && closed ==> result == ShopClosed
      ensures result == Ok ==> AfterReroll(pool.db, LevelOdds(players[i].shop.dropRatesByLevel, old(players[i].level)), players[i].shop.rerollCost, rules, old(pool.remaining), old(Views())[i], Views()[i])
      ensures i < |players| ==> forall x: nat :: players[i].ItemTotal(x) == old(players[i].ItemTotal(x))
    {
      hide *;
      Counted();
      StageIs();
      OnlyAtNone(i, Views());
      result := ResolveActor(i, ShopRule);
      if result != Ok {
        return;
      }
      if closed {
        return ShopClosed;
      }
      result := Reroll(i);
      if result == Ok {
        Counted();
        ghost var v, dealt := Views(), pool.remaining;
        OfferQueens(i);
        Counted();
        RerollLeads(pool.db, LevelOdds(players[i].shop.dropRatesByLevel, old(players[i].level)), players[i].shop.rerollCost, rules, old(pool.remaining), old(Views())[i], v[i], dealt, Views()[i]);
        Afterwards(i, old(Views()), v, Views());
      }
    }

    method Reroll(i: nat) returns (result: ActionResult)
      requires Valid() && i < |players| && !players[i].eliminated
      modifies this, Frame()
      ensures Valid() && phase == old(phase) && round == old(round) && winner == old(winner) && !players[i].eliminated
      ensures OnlyAt(i, old(Views()), Views()) && SameFormations(old(Views()), Views())
      ensures result != Ok ==> Views() == old(Views()) && pool.remaining == old(pool.remaining)
      ensures result == Ok <==> old(players[i].gold) >= players[i].shop.rerollCost
      ensures result == Ok ==>
                Rerolls(pool.db, LevelOdds(players[i].shop.dropRatesByLevel, old(players[i].level)), players[i].shop.rerollCost, old(pool.remaining), old(Views())[i], Views()[i], pool.remaining)
      ensures forall x: nat :: players[i].ItemTotal(x) == old(players[i].ItemTotal(x))
    {
      hide *;
      Facts(i);
      result := players[i].TryReroll();
      Kept(i);
      HeldPosition(i);
      if result == Ok {
        SeatThen(i);
        RerollsIs(pool.db, LevelOdds(players[i].shop.dropRatesByLevel, players[i].level), players[i].shop.rerollCost, old(pool.remaining), old(Views())[i], Views()[i], pool.remaining);
      } else {
        Unmoved(i);
      }
    }

    // The purchase itself: on the bench only while the board is locked.
    method Buy(i: nat, slot: nat) returns (result: ActionResult)
      requires Valid() && i < |players| && !players[i].eliminated
      modifies this, Frame()
      ensures Valid() && phase == old(phase) && round == old(round) && winner == old(winner) && !players[i].eliminated
      ensures OnlyAt(i, old(Views()), Views()) && (phase != Planning ==> SameFormations(old(Views()), Views()))
      ensures result != Ok ==> Views() == old(Views()) && pool.remaining == old(pool.remaining)
      ensures result == Ok <==> CanBuy(pool.db, players[i].roster.defs, phase != Planning, old(Views())[i], slot)
      ensures result == Ok ==> Buys(pool.db, players[i].roster.defs, old(Views())[i], slot, Views()[i])
      ensures forall x: nat :: players[i].ItemTotal(x) == old(players[i].ItemTotal(x))
    {
      hide *;
      Facts(i);
      var p := players[i];
      OffersKnown(i);
      p.SetBenchOnlyPurchases(phase != Planning);
      p.AcquireIs();
      result := p.TryBuy(slot);
      p.SetBenchOnlyPurchases(false);
      Kept(i);
      SeatThen(i);
      CanBuyIs(pool.db, p.roster.defs, phase != Planning, old(Views())[i], slot);
      BoardHolds(p.roster.units, old(p.roster.units));
      if phase != Planning {
        HeldPosition(i);
      }
      if result == Ok {
        BuysIs(pool.db, p.roster.defs, old(Views())[i], slot, Views()[i]);
      } else {
        Unmoved(i);
      }
    }

    lemma OffersKnown(i: nat)
      requires Valid() && i < |players|
      ensures forall k | 0 <= k < |players[i].shop.slots| && players[i].shop.slots[k].Some? :: players[i].shop.slots[k].value < |pool.db|
    {
      assert players[i].Own();
    }

    // A champion bought while the board is locked goes to the bench and touches no fighter.
    method TryBuyShopUnit(i: nat, slot: nat, closed: bool) returns (result: ActionResult)
      requires Valid()
      modifies this, Frame()
      ensures Valid() && phase == old(phase) && round == old(round) && winner == old(winner)
      ensures OnlyAt(i, old(Views()), Views()) && (Fighting() ==> SameFormations(old(Views()), Views()))
      ensures result != Ok ==> Views() == old(Views()) && pool.remaining == old(pool.remaining)
      ensures result == Ok <==> old(MayAct(i)) && !closed && CanBuy(pool.db, players[i].roster.defs, old(Fighting()), old(Views())[i], slot)
      ensures old(MayAct(i)) && closed ==> result == ShopClosed
      ensures result == Ok ==> AfterBuying(pool.db, players[i].roster.defs, rules, old(Fighting()), closed, old(Views())[i], slot, Views()[i])
      ensures i < |players| ==> forall x: nat :: players[i].ItemTotal(x) == old(players[i].ItemTotal(x))
    {
      hide *;
      Counted();
      StageIs();
      OnlyAtNone(i, Views());
      result := ResolveActor(i, ShopRule);
      if result != Ok {
        return;
      }
      if closed {
        return ShopClosed;
      }
      PlanningOrFighting(i);
      result := Buy(i, slot);
      if result == Ok {
        Counted();
        ghost var v := Views();
        AfterRosterChange(i, closed);
        Counted();
        BuyingLeads(pool.db, players[i].roster.defs, rules, Fighting(), closed, old(Views())[i], slot, v[i], Views()[i]);
        Afterwards(i, old(Views()), v, Views());
      }
    }

    // Whoever acts outside of Planning acts while a fight is on.
    lemma PlanningOrFighting(i: nat)
      requires MayAct(i)
      ensures Fighting() <==> phase != Planning
    {
    }

    // A step of a seat after another.
    lemma Afterwards(i: nat, a: seq<View>, b: seq<View>, c: seq<View>)
      requires OnlyAt(i, a, b) && OnlyAt(i, b, c)
      ensures OnlyAt(i, a, c) && (SameFormations(a, b) && SameFormations(b, c) ==> SameFormations(a, c))
    {
      hide OnlyAt, SameFormations;
      OnlyAtTwice(i, a, b, c);
      if SameFormations(a, b) && SameFormations(b, c) {
        FormationsTwice(a, b, c);
      }
    }

    method TrySetShopLock(i: nat, locked: bool) returns (result: ActionResult)
      requires Valid()
      modifies this, Frame()
      ensures Valid() && phase == old(phase) && round == old(round) && winner == old(winner)
      ensures OnlyAt(i, old(Views()), Views()) && (Fighting() ==> SameFormations(old(Views()), Views()))
      ensures result != Ok ==> Views() == old(Views())
      ensures pool.remaining == old(pool.remaining)
      ensures result == Ok <==> old(MayAct(i))
      ensures result == Ok ==> Views()[i] == old(Views())[i].(shopLocked := locked)
      ensures i < |players| ==> forall x: nat :: players[i].ItemTotal(x) == old(players[i].ItemTotal(x))
    {
      hide *;
      Counted();
      StageIs();
      OnlyAtNone(i, Views());
      result := ResolveActor(i, ShopRule);
      if result != Ok {
        return;
      }
      Facts(i);
      players[i].SetShopLocked(locked);
      Kept(i);
      HeldPosition(i);
      SeatThen(i);
    }

    method TryBuyXp(i: nat) returns (result: ActionResult)
      requires Valid()
      modifies this, Frame()
      ensures Valid() && phase == old(phase) && round == old(round) && winner == old(winner)
      ensures OnlyAt(i, old(Views()), Views()) && (Fighting() ==> SameFormations(old(Views()), Views()))
      ensures result != Ok ==> Views() == old(Views())
      ensures pool.remaining == old(pool.remaining)
      ensures result == Ok <==> old(MayAct(i)) && old(players[i].level) < MAX_PLAYER_LEVEL && old(players[i].gold) >= players[i].config.buyXpCost
      ensures result == Ok ==> PlayerConfigOk(players[i].config) && AfterXp(pool.db, players[i].config, rules, old(Views())[i], Views()[i])
      ensures i < |players| ==> forall x: nat :: players[i].ItemTotal(x) == old(players[i].ItemTotal(x))
    {
      hide *;
      Counted();
      StageIs();
      OnlyAtNone(i, Views());
      result := ResolveActor(i, ShopRule);
      if result != Ok {
        return;
      }
      result := BuyXp(i);
      if result == Ok {
        Counted();
        ghost var v := Views();
        CheckUnlocks(i);
        Counted();
        XpLeads(pool.db, players[i].config, rules, old(Views())[i], v[i], Views()[i]);
        Afterwards(i, old(Views()), v, Views());
      }
    }

    method BuyXp(i: nat) returns (result: ActionResult)
      requires Valid() && i < |players| && !players[i].eliminated
      modifies this, Frame()
      ensures Valid() && phase == old(phase) && round == old(round) && winner == old(winner) && !players[i].eliminated
      ensures OnlyAt(i, old(Views()), Views()) && SameFormations(old(Views()), Views())
      ensures result != Ok ==> Views() == old(Views())
      ensures pool.remaining == old(pool.remaining)
      ensures result == Ok <==> old(players[i].level) < MAX_PLAYER_LEVEL && old(players[i].gold) >= players[i].config.buyXpCost
      ensures result == Ok ==> PlayerConfigOk(players[i].config) && BuysXp(players[i].config, old(Views())[i], Views()[i])
      ensures forall x: nat :: players[i].ItemTotal(x) == old(players[i].ItemTotal(x))
    {
      hide *;
      Facts(i);
      var p := players[i];
      p.LevelIs();
      result := p.TryBuyXp();
      Kept(i);
      HeldPosition(i);
      CapacityState(p.roster, old(p.roster.State()));
      if result == Ok {
        p.LevelIs();
        SeatThen(i);
        CapacityChanged(i);
        BuysXpIs(p.config, old(Views())[i], Views()[i]);
      } else {
        Unmoved(i);
      }
    }

    twostate lemma CapacityChanged(i: nat)
      requires i < |players|
      requires players[i].roster.units == old(players[i].roster.units) && players[i].roster.cells == old(players[i].roster.cells)
      requires players[i].roster.nextSerial == old(players[i].roster.nextSerial)
      ensures players[i].roster.State() == old(players[i].roster.State()).(capacity := players[i].roster.boardCapacity)
    {
    }

    lemma CapacityState(r: UnitRoster, before: RosterState)
      ensures RosterState(r.owner, r.nextSerial, r.boardCapacity, r.units, r.cells) == before ==> r.State() == before
    {
    }

    // True while the board is locked and the unit stands on it.
    method BoardUnitLocked(i: nat, unit: UnitId) returns (locked: bool)
      requires Valid() && i < |players|
      ensures Valid() && Views() == old(Views())
      ensures var units := players[i].roster.units;
              var k := IndexOf(units, unit);
              locked <==> phase != Planning && k < |units| && OnBoard(units[k])
    {
      hide MatchManager.Valid, IndexOf;
      if phase == Planning {
        return false;
      }
      Counted();
      var k := players[i].roster.Find(unit);
      Untouched();
      return k < |players[i].roster.units| && OnBoard(players[i].roster.units[k]);
    }

    method Sell(i: nat, unit: UnitId) returns (result: ActionResult)
      requires Valid() && i < |players| && !players[i].eliminated
      requires phase != Planning ==> Benched(players[i].roster.units, unit)
      modifies this, Frame()
      ensures Valid() && phase == old(phase) && round == old(round) && winner == old(winner) && !players[i].eliminated
      ensures OnlyAt(i, old(Views()), Views()) && (phase != Planning ==> SameFormations(old(Views()), Views()))
      ensures result != Ok ==> Views() == old(Views()) && pool.remaining == old(pool.remaining)
      ensures result == Ok <==> CanSell(pool.db, phase != Planning, old(Views())[i], unit)
      ensures result == Ok ==> Sells(pool.db, old(Views())[i], unit, Views()[i])
      ensures forall x: nat :: players[i].ItemTotal(x) == old(players[i].ItemTotal(x))
    {
      hide *;
      Facts(i);
      ghost var r := players[i].roster.State();
      StateUnits(players[i].roster);
      SaleIs(r, unit);
      result := players[i].SellUnit(unit);
      Kept(i);
      BoardHolds(players[i].roster.units, old(players[i].roster.units));
      StateUnits(players[i].roster);
      SeatThen(i);
      CanSellIs(pool.db, phase != Planning, old(Views())[i], unit);
      if result == Ok {
        SellsIs(pool.db, old(Views())[i], unit, Views()[i]);
      } else {
        Unmoved(i);
      }
      if phase != Planning {
        HeldPosition(i);
      }
    }

    lemma StateUnits(r: UnitRoster)
      ensures r.State().units == r.units
    {
    }

    method TrySellUnit(i: nat, unit: UnitId, closed: bool) returns (result: ActionResult)
      requires Valid()
      modifies this, Frame()
      ensures Valid() && phase == old(phase) && round == old(round) && winner == old(winner)
      ensures OnlyAt(i, old(Views()), Views()) && (Fighting() ==> SameFormations(old(Views()), Views()))
      ensures result != Ok ==> Views() == old(Views()) && pool.remaining == old(pool.remaining)
      ensures result == Ok <==> old(MayAct(i)) && CanSell(pool.db, old(Fighting()), old(Views())[i], unit)
      ensures result == Ok ==> AfterSelling(pool.db, rules, old(Fighting()), closed, old(Views())[i], unit, Views()[i])
      ensures i < |players| ==> forall x: nat :: players[i].ItemTotal(x) == old(players[i].ItemTotal(x))
    {
      hide *;
      Counted();
      StageIs();
      OnlyAtNone(i, Views());
      result := ResolveActor(i, BenchRule);
      if result != Ok {
        return;
      }
      PlanningOrFighting(i);
      SeatThen(i);
      StateUnits(players[i].roster);
      CanSellIs(pool.db, Fighting(), Views()[i], unit);
      var locked := BoardUnitLocked(i, unit);
      if locked {
        return UnitInCombat;
      }
      OnTheBench(players[i].roster.units, unit);
      result := Sell(i, unit);
      if result == Ok {
        Counted();
        ghost var v := Views();
        AfterRosterChange(i, closed);
        Counted();
        SellingLeads(pool.db, rules, Fighting(), closed, old(Views())[i], unit, v[i], Views()[i]);
        Afterwards(i, old(Views()), v, Views());
      }
    }

    method Rearrange(i: nat, unit: UnitId, location: Location, x: int, y: int) returns (result: ActionResult)
      requires Valid() && i < |players| && !players[i].eliminated
      requires phase != Planning ==> location != Board && Benched(players[i].roster.units, unit)
      modifies this, Frame()
      ensures Valid() && phase == old(phase) && round == old(round) && winner == old(winner) && !players[i].eliminated
      ensures OnlyAt(i, old(Views()), Views()) && (phase != Planning ==> SameFormations(old(Views()), Views()))
      ensures result != Ok ==> Views() == old(Views()) && pool.remaining == old(pool.remaining)
      ensures result == Ok <==> CanMove(pool.db, phase != Planning, old(Views())[i], unit, location, x, y)
      ensures result == Ok ==> Moves(pool.db, old(Views())[i], unit, location, x, y, Views()[i])
      ensures forall x: nat :: players[i].ItemTotal(x) == old(players[i].ItemTotal(x))
    {
      hide *;
      Facts(i);
      LaidOut(i);
      ghost var r := players[i].roster.State();
      StateUnits(players[i].roster);
      BenchMove(pool.db, r, unit, location, x, y);
      result := players[i].TryMoveUnit(unit, location, x, y);
      Kept(i);
      StateUnits(players[i].roster);
      BoardHolds(players[i].roster.units, old(players[i].roster.units));
      SeatThen(i);
      CanMoveIs(pool.db, phase != Planning, old(Views())[i], unit, location, x, y);
      OnTheBench(r.units, unit);
      if result == Ok {
        MovesIs(pool.db, old(Views())[i], unit, location, x, y, Views()[i]);
      } else {
        Unmoved(i);
      }
      if phase != Planning {
        HeldPosition(i);
      }
    }

    lemma LaidOut(i: nat)
      requires Valid() && i < |players|
      ensures Layout(players[i].roster.State())
    {
      hide Layout, Settled;
      assert players[i].Own();
    }

    // While the board is locked only bench moves are allowed.
    method TryMoveUnit(i: nat, unit: UnitId, location: Location, x: int, y: int, closed: bool) returns (result: ActionResult)
      requires Valid()
      modifies this, Frame()
      ensures Valid() && phase == old(phase) && round == old(round) && winner == old(winner)
      ensures OnlyAt(i, old(Views()), Views()) && (Fighting() ==> SameFormations(old(Views()), Views()))
      ensures result != Ok ==> Views() == old(Views()) && pool.remaining == old(pool.remaining)
      ensures result == Ok <==> old(MayAct(i)) && CanMove(pool.db, old(Fighting()), old(Views())[i], unit, location, x, y)
      ensures result == Ok ==> AfterMoving(pool.db, rules, old(Fighting()), closed, old(Views())[i], unit, location, x, y, Views()[i])
      ensures i < |players| ==> forall x: nat :: players[i].ItemTotal(x) == old(players[i].ItemTotal(x))
    {
      hide *;
      Counted();
      StageIs();
      OnlyAtNone(i, Views());
      result := ResolveActor(i, BenchRule);
      if result != Ok {
        return;
      }
      PlanningOrFighting(i);
      SeatThen(i);
      StateUnits(players[i].roster);
      CanMoveIs(pool.db, Fighting(), Views()[i], unit, location, x, y);
      var locked := BoardUnitLocked(i, unit);
      if phase != Planning && (location == Board || locked) {
        return UnitInCombat;
      }
      OnTheBench(players[i].roster.units, unit);
      result := Rearrange(i, unit, location, x, y);
      if result == Ok {
        Counted();
        ghost var v := Views();
        AfterRosterChange(i, closed);
        Counted();
        MovingLeads(pool.db, rules, Fighting(), closed, old(Views())[i], unit, location, x, y, v[i], Views()[i]);
        Afterwards(i, old(Views()), v, Views());
      }
    }

    // Items may go onto fighters, too: they count from the next fight on.
    method Equip(i: nat, unit: UnitId, item: ItemId) returns (result: ActionResult)
      requires Valid() && i < |players| && !players[i].eliminated
      modifies this, Frame()
      ensures Valid() && phase == old(phase) && round == old(round) && winner == old(winner) && !players[i].eliminated
      ensures OnlyAt(i, old(Views()), Views()) && SameFormations(old(Views()), Views())
      ensures result != Ok ==> Views() == old(Views()) && pool.remaining == old(pool.remaining)
      ensures result == Ok <==> CanTakeItem(pool.db, players[i].roster.defs, players[i].hasItems, old(Views())[i], unit, item)
      ensures result == Ok ==> Equips(players[i].roster.defs, old(Views())[i], unit, item, Views()[i])
      ensures forall x: nat :: players[i].ItemTotal(x) == old(players[i].ItemTotal(x)) - if result == Ok && Consumes(players[i].roster.defs, item) then One(item, x) else 0
    {
      hide *;
      Facts(i);
      ghost var r := players[i].roster.State();
      StateUnits(players[i].roster);
      EquippingKeepsFormation(r, players[i].roster.defs, unit, item);
      BaringKeepsFormation(r, unit, 3);
      BaredIs(r, unit);
      result := players[i].TryEquipItem(unit, item);
      Kept(i);
      StateUnits(players[i].roster);
      SeatThen(i);
      CanTakeItemIs(pool.db, players[i].roster.defs, players[i].hasItems, old(Views())[i], unit, item);
      if result == Ok {
        EquipsIs(players[i].roster.defs, old(Views())[i], unit, item, Views()[i]);
      } else {
        Unmoved(i);
      }
      HeldPosition(i);
    }

    method TryEquipItem(i: nat, unit: UnitId, item: ItemId, closed: bool) returns (result: ActionResult)
      requires Valid()
      modifies this, Frame()
      ensures Valid() && phase == old(phase) && round == old(round) && winner == old(winner)
      ensures OnlyAt(i, old(Views()), Views()) && (Fighting() ==> SameFormations(old(Views()), Views()))
      ensures result != Ok ==> Views() == old(Views()) && pool.remaining == old(pool.remaining)
      ensures result == Ok <==> old(MayAct(i)) && CanTakeItem(pool.db, players[i].roster.defs, players[i].hasItems, old(Views())[i], unit, item)
      ensures result == Ok ==> AfterEquipping(pool.db, players[i].roster.defs, rules, old(Fighting()), closed, old(Views())[i], unit, item, Views()[i])
      ensures i < |players| ==> forall x: nat ::
                players[i].ItemTotal(x) == old(players[i].ItemTotal(x)) - if result == Ok && Consumes(players[i].roster.defs, item) then One(item, x) else 0
    {
      hide *;
      Counted();
      StageIs();
      OnlyAtNone(i, Views());
      result := ResolveActor(i, BenchRule);
      if result != Ok {
        return;
      }
      result := Equip(i, unit, item);
      if result == Ok {
        Counted();
        ghost var v := Views();
        AfterRosterChange(i, closed);
        Counted();
        EquippingLeads(pool.db, players[i].roster.defs, rules, Fighting(), closed, old(Views())[i], unit, item, v[i], Views()[i]);
        Afterwards(i, old(Views()), v, Views());
      }
    }

    method TryCombineItems(i: nat, first: ItemId, second: ItemId) returns (result: ActionResult)
      requires Valid()
      modifies this, Frame()
      ensures Valid() && phase == old(phase) && round == old(round) && winner == old(winner)
      ensures OnlyAt(i, old(Views()), Views()) && (Fighting() ==> SameFormations(old(Views()), Views()))
      ensures result != Ok ==> Views() == old(Views())
      ensures pool.remaining == old(pool.remaining)
      ensures result == Ok <==> old(MayAct(i)) && players[i].hasItems && CanCombine(players[i].roster.defs, old(Views())[i], first, second)
      ensures result == Ok ==> Combines(players[i].roster.defs, old(Views())[i], first, second, Views()[i])
      ensures i < |players| ==> forall x: nat :: players[i].ItemTotal(x) == old(players[i].ItemTotal(x))
    {
      hide *;
      Counted();
      StageIs();
      OnlyAtNone(i, Views());
      result := ResolveActor(i, BenchRule);
      if result != Ok {
        return;
      }
      Facts(i);
      result := players[i].TryCombineBagItems(first, second);
      Kept(i);
      HeldPosition(i);
      SeatThen(i);
      CombinesIs(players[i].roster.defs, old(Views())[i], first, second, Views()[i]);
      if result != Ok {
        Unmoved(i);
      }
    }

    // ---- Trait choices -----------------------------------------------------------------------------

    function PendingTraitChoice(i: nat): TraitChoice
      reads `choices
    {
      if i in choices then choices[i] else NoChoice
    }

    // A choice opens or closes; nothing else happens.
    method SetChoice(i: nat, choice: TraitChoice)
      requires Valid()
      modifies `choices
      ensures Valid() && Views() == old(Views()) && choices == old(choices)[i := choice]
    {
      hide *;
      Counted();
      choices := choices[i := choice];
      Untouched();
    }

    // The choice is gone. A module is only remembered; a cash-out pays; and then the next choice may open.
    method ResolveTraitChoice(i: nat, index: int) returns (result: ActionResult)
      requires Valid() && i < |players| && !players[i].eliminated
      modifies this, Frame()
      ensures Valid() && phase == old(phase) && round == old(round) && winner == old(winner) && !players[i].eliminated
      ensures OnlyAt(i, old(Views()), Views()) && SameFormations(old(Views()), Views())
      ensures pool.remaining == old(pool.remaining)
      ensures var open := old(PendingTraitChoice(i));
              && result == (if open == NoChoice then AlreadyPicked else if Pickable(open, index) then Ok else InvalidSlot)
              && (result != Ok ==> Views() == old(Views()) && choices == old(choices))
              && (result == Ok ==>
                    && players[i].itemBag == old(players[i].itemBag) + KnownOnes(players[i].hasItems, players[i].roster.defs, ItemsOf(open, index))
                    && players[i].gold == old(players[i].gold) + GoldOf(open, index)
                    && forall x: nat :: players[i].ItemTotal(x) == old(players[i].ItemTotal(x)) + ChoiceParts(i, open, index, x))
              && (open.ModuleChoice? ==> Views() == old(Views()))
              && (result == Ok ==> Views()[i] == old(Views())[i].(
                    bag := old(Views())[i].bag + KnownOnes(players[i].hasItems, players[i].roster.defs, ItemsOf(open, index)),
                    gold := old(Views())[i].gold + GoldOf(open, index)))
    {
      hide *;
      Counted();
      OnlyAtNone(i, Views());
      var open := PendingTraitChoice(i);
      ChoiceKinds(open, index);
      if open == NoChoice {
        return AlreadyPicked;
      }
      if !Pickable(open, index) {
        return InvalidSlot;
      }
      NoChoiceParts(i, open, index);
      SetChoice(i, NoChoice);
      Counted();
      NoneKnown(players[i].hasItems, players[i].roster.defs);
      if open.CashOut? && index >= 0 {
        PayChoice(i, ItemsOf(open, index), GoldOf(open, index));
        Counted();
      }
      assert Views()[i] == old(Views())[i].(
        bag := old(Views())[i].bag + KnownOnes(players[i].hasItems, players[i].roster.defs, ItemsOf(open, index)), gold := old(Views())[i].gold + GoldOf(open, index));
      var next: TraitChoice := *;   // the next tier may be waiting
      SetChoice(i, next);
      Counted();
      return Ok;
    }

    // The item components a choice brings.
    function ChoiceParts(i: nat, open: TraitChoice, index: int, x: nat): nat
      requires i < |players|
    {
      if Pickable(open, index) then PartsOf(players[i].roster.defs, KnownOnes(players[i].hasItems, players[i].roster.defs, ItemsOf(open, index)), x) else 0
    }

    lemma NoChoiceParts(i: nat, open: TraitChoice, index: int)
      requires i < |players| && Pickable(open, index)
      ensures forall x: nat :: ChoiceParts(i, open, index, x) == PartsOf(players[i].roster.defs, KnownOnes(players[i].hasItems, players[i].roster.defs, ItemsOf(open, index)), x)
      ensures ItemsOf(open, index) == [] ==> forall x: nat :: ChoiceParts(i, open, index, x) == 0
    {
    }

    method PayChoice(i: nat, items: seq<ItemId>, amount: int)
      requires Valid() && i < |players| && !players[i].eliminated && amount >= 0
      modifies this, Frame()
      ensures Valid() && phase == old(phase) && round == old(round) && winner == old(winner) && !players[i].eliminated
      ensures OnlyAt(i, old(Views()), Views()) && SameFormations(old(Views()), Views()) && pool.remaining == old(pool.remaining)
      ensures players[i].itemBag == old(players[i].itemBag) + KnownOnes(players[i].hasItems, players[i].roster.defs, items)
      ensures forall x: nat :: players[i].ItemTotal(x) == old(players[i].ItemTotal(x)) + PartsOf(players[i].roster.defs, KnownOnes(players[i].hasItems, players[i].roster.defs, items), x)
      ensures players[i].gold == old(players[i].gold) + amount
      ensures Views()[i] == old(Views())[i].(
                bag := old(Views())[i].bag + KnownOnes(players[i].hasItems, players[i].roster.defs, items), gold := old(Views())[i].gold + amount)
    {
      hide *;
      Counted();
      Facts(i);
      players[i].PayOut(items, amount);
      Kept(i);
      HeldPosition(i);
      SeatThen(i);
    }

    lemma ChoiceKinds(open: TraitChoice, index: int)
      ensures Pickable(open, index) ==> open != NoChoice && GoldOf(open, index) >= 0
      ensures Pickable(open, index) && !(open.CashOut? && index >= 0) ==> ItemsOf(open, index) == [] && GoldOf(open, index) == 0
    {
    }

    // A player's own say: while a fight is on, too.
    method TryPickTraitChoice(i: nat, index: int) returns (result: ActionResult)
      requires Valid()
      modifies this, Frame()
      ensures Valid() && phase == old(phase) && round == old(round) && winner == old(winner)
      ensures OnlyAt(i, old(Views()), Views()) && (Fighting() ==> SameFormations(old(Views()), Views()))
      ensures result != Ok ==> Views() == old(Views()) && choices == old(choices)
      ensures pool.remaining == old(pool.remaining)
      ensures result == Ok <==> old(MayAct(i)) && Pickable(old(PendingTraitChoice(i)), index)
      ensures old(MayAct(i)) && result != Ok ==> result == if old(PendingTraitChoice(i)) == NoChoice then AlreadyPicked else InvalidSlot
      ensures result == Ok ==>
                && Views()[i] == old(Views())[i].(
                     bag := old(Views())[i].bag + KnownOnes(players[i].hasItems, players[i].roster.defs, ItemsOf(old(PendingTraitChoice(i)), index)),
                     gold := old(Views())[i].gold + GoldOf(old(PendingTraitChoice(i)), index))
                && players[i].itemBag == old(players[i].itemBag)
                     + KnownOnes(players[i].hasItems, players[i].roster.defs, ItemsOf(old(PendingTraitChoice(i)), index))
                && players[i].gold == old(players[i].gold) + GoldOf(old(PendingTraitChoice(i)), index)
                && forall x: nat :: players[i].ItemTotal(x) == old(players[i].ItemTotal(x)) + ChoiceParts(i, old(PendingTraitChoice(i)), index, x)
    {
      hide *;
      Counted();
      StageIs();
      OnlyAtNone(i, Views());
      result := ResolveActor(i, BenchRule);
      if result != Ok {
        return;
      }
      ChoiceKinds(PendingTraitChoice(i), index);
      result := ResolveTraitChoice(i, index);
    }

    // A combat begins: open modules are settled, the first option each time. That pays nothing.
    method SettleTraitChoices()
      requires Valid()
      modifies this, Frame()
      ensures Valid() && phase == old(phase) && round == old(round) && winner == old(winner) && Views() == old(Views())
    {
      hide *;
      Counted();
      for i := 0 to |players|
        invariant Valid() && |gifts| == |players| && phase == old(phase) && round == old(round) && winner == old(winner) && Views() == old(Views())
      {
        for guard := 0 to 4
          invariant Valid() && |gifts| == |players| && phase == old(phase) && round == old(round) && winner == old(winner) && Views() == old(Views())
        {
          if !players[i].eliminated && PendingTraitChoice(i).ModuleChoice? {
            var _ := ResolveTraitChoice(i, 0);
            Counted();
          }
        }
      }
    }

    method Unequip(i: nat, unit: UnitId, slot: int) returns (result: ActionResult)
      requires Valid() && i < |players| && !players[i].eliminated
      modifies this, Frame()
      ensures Valid() && phase == old(phase) && round == old(round) && winner == old(winner) && !players[i].eliminated
      ensures OnlyAt(i, old(Views()), Views()) && SameFormations(old(Views()), Views())
      ensures result != Ok ==> Views() == old(Views()) && pool.remaining == old(pool.remaining)
      ensures result == Ok <==> old(MayTakeOff(players[i].roster.units, unit, slot))
      ensures result == Ok ==> TakesOff(old(Views())[i], unit, slot, Views()[i])
      ensures forall x: nat :: players[i].ItemTotal(x) == old(players[i].ItemTotal(x))
    {
      hide *;
      Facts(i);
      ghost var r := players[i].roster.State();
      StateUnits(players[i].roster);
      UnequippingKeepsFormation(r, unit, slot);
      result := players[i].TryUnequipItem(unit, slot);
      Kept(i);
      StateUnits(players[i].roster);
      HeldPosition(i);
      if result == Ok {
        SeatThen(i);
        TakesOffIs(false, old(Views())[i], unit, slot, Views()[i]);
      } else {
        Unmoved(i);
      }
    }

    method TryUnequipItem(i: nat, unit: UnitId, slot: int, closed: bool) returns (result: ActionResult)
      requires Valid()
      modifies this, Frame()
      ensures Valid() && phase == old(phase) && round == old(round) && winner == old(winner)
      ensures OnlyAt(i, old(Views()), Views()) && (Fighting() ==> SameFormations(old(Views()), Views()))
      ensures result != Ok ==> Views() == old(Views()) && pool.remaining == old(pool.remaining)
      ensures result == Ok <==> old(MayAct(i)) && CanTakeOff(old(Fighting()), old(Views())[i], unit, slot)
      ensures result == Ok ==> AfterTakingOff(pool.db, rules, old(Fighting()), closed, old(Views())[i], unit, slot, Views()[i])
      ensures i < |players| ==> forall x: nat :: players[i].ItemTotal(x) == old(players[i].ItemTotal(x))
    {
      hide *;
      Counted();
      StageIs();
      OnlyAtNone(i, Views());
      result := ResolveActor(i, BenchRule);
      if result != Ok {
        return;
      }
      PlanningOrFighting(i);
      SeatThen(i);
      StateUnits(players[i].roster);
      TakesOffIs(Fighting(), Views()[i], unit, slot, Views()[i]);
      var locked := BoardUnitLocked(i, unit);
      if locked {
        return UnitInCombat;
      }
      result := Unequip(i, unit, slot);
      if result == Ok {
        Counted();
        ghost var v := Views();
        AfterRosterChange(i, closed);
        Counted();
        TakingOffLeads(pool.db, rules, Fighting(), closed, old(Views())[i], unit, slot, v[i], Views()[i]);
        Afterwards(i, old(Views()), v, Views());
      }
    }

    // ---- Traits (what they move: plants, special offers, special units, unlocks) -------------------

    // Plants follow the board -- not while it is locked --, a new tier may ask for a choice, special champions
    // may come on offer, and what is unlocked stays unlocked.
    method AfterRosterChange(i: nat, closed: bool)
      requires Valid() && i < |players| && !players[i].eliminated
      modifies this, Frame()
      ensures Valid() && phase == old(phase) && round == old(round) && winner == old(winner) && !players[i].eliminated && players[i].gold == old(players[i].gold)
      ensures OnlyAt(i, old(Views()), Views()) && (Fighting() ==> SameFormations(old(Views()), Views()))
      ensures Follows(pool.db, rules, old(Fighting()), closed, old(Views())[i], Views()[i])
      ensures forall x: nat :: players[i].ItemTotal(x) == old(players[i].ItemTotal(x))
    {
      hide *;
      Counted();
      StageIs();
      OnlyAtNone(i, Views());
      PlantsStay(pool.db, Views()[i].roster);
      if !rules.traits {
        CheckUnlocks(i);
        Counted();
        NoTraits(pool.db, rules, Fighting(), closed, old(Views())[i], Views()[i]);
        return;
      }
      SyncPlants(i);
      Counted();
      ghost var a := Views();
      var choice: TraitChoice := *;   // a breakpoint that unlocks modules
      SetChoice(i, choice);
      Counted();
      if !closed {
        OfferQueens(i);
        Counted();
        Afterwards(i, old(Views()), a, Views());
      }
      ghost var b := Views();
      CheckUnlocks(i);
      Counted();
      FollowsIs(pool.db, rules, Fighting(), closed, old(Views())[i], a[i], b[i], Views()[i]);
      Afterwards(i, old(Views()), b, Views());
    }

    // The plants the board asks for come, the others go; nothing happens while a fight is on.
    method SyncPlants(i: nat)
      requires Valid() && i < |players| && !players[i].eliminated
      modifies this, Frame()
      ensures Valid() && phase == old(phase) && round == old(round) && winner == old(winner) && !players[i].eliminated && players[i].gold == old(players[i].gold)
      ensures OnlyAt(i, old(Views()), Views()) && (Fighting() ==> Views() == old(Views()) && SameFormations(old(Views()), Views()))
      ensures Views()[i] == old(Views())[i].(roster := Views()[i].roster) && PlantsAside(pool.db, old(Views())[i].roster, Views()[i].roster)
      ensures forall x: nat :: players[i].ItemTotal(x) == old(players[i].ItemTotal(x))
    {
      hide *;
      Counted();
      StageIs();
      OnlyAtNone(i, Views());
      PlantsStay(pool.db, Views()[i].roster);
      if phase == Combat || phase == Resolution {
        return;
      }
      var steps: int := *;   // as many as the traits say
      while steps > 0
        invariant Valid() && phase == old(phase) && round == old(round) && winner == old(winner) && !players[i].eliminated && players[i].gold == old(players[i].gold)
        invariant |gifts| == |players| && OnlyAt(i, old(Views()), Views())
        invariant Views()[i] == old(Views())[i].(roster := Views()[i].roster) && PlantsAside(pool.db, old(Views())[i].roster, Views()[i].roster)
        invariant forall x: nat :: players[i].ItemTotal(x) == old(players[i].ItemTotal(x))
      {
        ghost var v := Views();
        FollowPlants(i);
        Counted();
        OnlyAtTwice(i, old(Views()), v, Views());
        PlantsAgain(pool.db, old(Views())[i].roster, v[i].roster, Views()[i].roster);
        steps := steps - 1;
      }
    }

    // A plant comes or goes.
    method FollowPlants(i: nat)
      requires Valid() && i < |players| && !players[i].eliminated
      modifies this, Frame()
      ensures Valid() && phase == old(phase) && round == old(round) && winner == old(winner) && !players[i].eliminated && players[i].gold == old(players[i].gold)
      ensures OnlyAt(i, old(Views()), Views())
      ensures Views()[i] == old(Views())[i].(roster := Views()[i].roster) && PlantsAside(pool.db, old(Views())[i].roster, Views()[i].roster)
      ensures forall x: nat :: players[i].ItemTotal(x) == old(players[i].ItemTotal(x))
    {
      hide *;
      ghost var r := players[i].roster.State();
      StateUnits(players[i].roster);
      PlantsStay(pool.db, r);
      var champion: int, star: int, x: int, y: int, unit: int, comes: bool := *, *, *, *, *, *;
      Facts(i);
      if comes && 0 <= champion {
        PlantGrows(pool.db, r, champion, star, x, y);
        var _ := players[i].GrantPlant(champion, star, x, y);
      } else if unit >= 0 {
        PlantGoes(pool.db, r, unit);
        var _ := players[i].RemovePlant(unit);
      }
      StateUnits(players[i].roster);
      Kept(i);
      SeatThen(i);
    }

    // Every special champion whose rule is met takes the first shop slot; what was offered there goes back.
    method OfferQueens(i: nat)
      requires Valid() && i < |players| && !players[i].eliminated
      modifies this, Frame()
      ensures Valid() && phase == old(phase) && round == old(round) && winner == old(winner) && !players[i].eliminated && players[i].gold == old(players[i].gold)
      ensures OnlyAt(i, old(Views()), Views()) && SameFormations(old(Views()), Views())
      ensures OffersQueens(pool.db, rules, old(Views())[i], Views()[i])
      ensures forall x: nat :: players[i].ItemTotal(x) == old(players[i].ItemTotal(x))
    {
      hide *;
      Counted();
      OnlyAtNone(i, Views());
      ghost var v := Views()[i];
      QueensOffered(pool.db, rules, v, v);
      if !rules.traits {
        return;
      }
      NoQueens(pool.db, rules, v.level, v.roster.units, v.slots);
      for n := 0 to |rules.queens|
        invariant Valid() && phase == old(phase) && round == old(round) && winner == old(winner) && !players[i].eliminated && players[i].gold == old(players[i].gold)
        invariant |gifts| == |players| && OnlyAt(i, old(Views()), Views()) && SameFormations(old(Views()), Views())
        invariant Views()[i] == v.(slots := WithQueens(pool.db, rules, v.level, v.roster.units, v.slots, n))
        invariant forall x: nat :: players[i].ItemTotal(x) == old(players[i].ItemTotal(x))
      {
        ghost var w := Views();
        OfferQueen(i, rules.queens[n]);
        Counted();
        OneMoreQueen(pool.db, rules, v.level, v.roster.units, v.slots, n);
        Afterwards(i, old(Views()), w, Views());
      }
      QueensOffered(pool.db, rules, v, Views()[i]);
    }

    method OfferQueen(i: nat, rule: QueenRule)
      requires Valid() && i < |players| && !players[i].eliminated
      modifies this, Frame()
      ensures Valid() && phase == old(phase) && round == old(round) && winner == old(winner) && !players[i].eliminated && players[i].gold == old(players[i].gold)
      ensures OnlyAt(i, old(Views()), Views()) && SameFormations(old(Views()), Views())
      ensures var v := old(Views())[i]; Views()[i] == v.(slots := QueenSlot(pool.db, rules, rule, v.level, v.roster.units, v.slots))
      ensures forall x: nat :: players[i].ItemTotal(x) == old(players[i].ItemTotal(x))
    {
      hide *;
      Counted();
      OnlyAtNone(i, Views());
      SeatThen(i);
      StateUnits(players[i].roster);
      QueenSlotIs(pool.db, rules, rule, Views()[i]);
      if rule.champion < |pool.db| && !IsPlant(pool.db, rule.champion) {
        Facts(i);
        players[i].OfferQueen(rules.champions, rules.grants, rule);
        Kept(i);
        HeldPosition(i);
        SeatThen(i);
      }
    }

    // What the board and the level unlock may be drawn from now on.
    method CheckUnlocks(i: nat)
      requires Valid() && i < |players| && !players[i].eliminated
      modifies this, Frame()
      ensures Valid() && phase == old(phase) && round == old(round) && winner == old(winner) && !players[i].eliminated && players[i].gold == old(players[i].gold)
      ensures OnlyAt(i, old(Views()), Views()) && SameFormations(old(Views()), Views()) && pool.remaining == old(pool.remaining)
      ensures UnlocksAll(pool.db, rules, old(Views())[i], Views()[i])
      ensures forall x: nat :: players[i].ItemTotal(x) == old(players[i].ItemTotal(x))
    {
      hide *;
      Counted();
      OnlyAtNone(i, Views());
      Facts(i);
      players[i].CheckUnlocks(rules.champions, rules.unlocks);
      Kept(i);
      HeldPosition(i);
      SeatThen(i);
      StateUnits(players[i].roster);
      UnlocksIs(pool.db, rules, old(Views())[i], Views()[i]);
    }

    // What a trait pays out after a fight: a special unit, experience, gold -- and star dust, for which an
    // item may come on offer.
    method GrantTraitRewards(i: nat)
      requires Valid() && i < |players| && !players[i].eliminated
      modifies this, Frame()
      ensures Valid() && phase == old(phase) && round == old(round) && !players[i].eliminated
      ensures OnlyAt(i, old(Views()), Views()) && players[i].health == old(players[i].health) && players[i].streak == old(players[i].streak)
      ensures forall x: nat :: players[i].ItemTotal(x) == old(players[i].ItemTotal(x))
      ensures players[i].gold >= old(players[i].gold) && players[i].level >= old(players[i].level)
    {
      hide *;
      Counted();
      GrantSpecialUnit(i);
      Counted();
      ghost var v := Views();
      var gold: int, xp: int, choice: TraitChoice := *, *, *;
      GrantXpAndGold(i, xp, gold);
      Counted();
      OnlyAtTwice(i, old(Views()), v, Views());
      SetChoice(i, choice);
    }

    method GrantXpAndGold(i: nat, xp: int, gold: int)
      requires Valid() && i < |players| && !players[i].eliminated
      modifies this, Frame()
      ensures Valid() && phase == old(phase) && round == old(round) && !players[i].eliminated
      ensures OnlyAt(i, old(Views()), Views()) && players[i].health == old(players[i].health) && players[i].streak == old(players[i].streak)
      ensures forall x: nat :: players[i].ItemTotal(x) == old(players[i].ItemTotal(x))
      ensures players[i].gold >= old(players[i].gold) && players[i].level >= old(players[i].level)
    {
      hide *;
      Facts(i);
      players[i].AddXp(xp);
      players[i].AddGold(gold);
      Kept(i);
    }

    // A special unit costs the pool nothing.
    method GrantSpecialUnit(i: nat)
      requires Valid() && i < |players| && !players[i].eliminated
      modifies this, Frame()
      ensures Valid() && phase == old(phase) && round == old(round) && !players[i].eliminated
      ensures OnlyAt(i, old(Views()), Views()) && players[i].health == old(players[i].health) && players[i].streak == old(players[i].streak)
      ensures forall x: nat :: players[i].ItemTotal(x) == old(players[i].ItemTotal(x))
      ensures players[i].gold == old(players[i].gold) && players[i].level == old(players[i].level)
    {
      hide *;
      Counted();
      OnlyAtNone(i, Views());
      var champion: int := *;
      if 0 <= champion < |pool.db| && !pool.db[champion].pooled && !IsPlant(pool.db, champion) {
        Facts(i);
        var _ := players[i].AcquireUnit(champion, 1);
        Kept(i);
      }
    }

    // ---- Opening units and drops --------------------------------------------------------------------

    // One random unit of a cost, taken from the pool like any other copy.
    method DealOne(i: nat, cost: int, refund: bool) returns (dealt: bool)
      requires Valid() && i < |players| && !players[i].eliminated
      modifies this, Frame()
      ensures Valid() && phase == old(phase) && round == old(round) && !players[i].eliminated
      ensures OnlyAt(i, old(Views()), Views()) && players[i].health == old(players[i].health) && players[i].streak == old(players[i].streak)
      ensures IsDealt(pool.db, players[i].roster.defs, cost, refund, old(pool.remaining), old(Views())[i], Views()[i], pool.remaining)
      ensures forall x: nat :: players[i].ItemTotal(x) == old(players[i].ItemTotal(x))
    {
      hide *;
      Counted();
      OnlyAtNone(i, Views());
      Facts(i);
      PoolBounds();
      var left := pool.RemainingInTier(cost);
      ghost var v := Views()[i];
      if left <= 0 {
        NoneLeft(cost);
        NothingToDeal(pool.db, players[i].roster.defs, cost, refund, pool.remaining, v);
        Untouched();
        return false;
      }
      label Before:
      ghost var before := pool.remaining;
      var drawn, _ := pool.DrawFromTier(cost, Ungated(pool.db));
      if drawn.Some? {
        PoolBounds();
        OneCopyOut(pool.db, before, pool.remaining, pool.initial, drawn.value);
        CopyIsLeft(pool.db, before, pool.remaining, cost, drawn.value);
        players[i].AcquireIs();
        dealt := players[i].Receive(drawn.value, refund);
        Kept(i);
        SeatThen(i);
        SeatActions.DealtIs(pool.db, players[i].roster.defs, cost, refund, before, drawn.value, v, Views()[i], pool.remaining);
      } else {
        Kept(i);
        SeatThen(i);
        CostIsTier(cost, left);
        NothingToDeal(pool.db, players[i].roster.defs, cost, refund, before, v);
        return false;
      }
    }

    lemma NoneLeft(cost: int)
      requires pool.Valid() && |pool.remaining| == |pool.db| && (if 1 <= cost <= MAX_COST_TIER then TierTotal(pool.db, pool.remaining, cost) else 0) <= 0
      ensures DrawableOf(pool.db, pool.remaining, Anybody(), cost) <= 0
    {
      if 1 <= cost <= MAX_COST_TIER {
        TierTotalIsDrawable(pool.db, pool.remaining, cost);
      } else {
        NoSuchTier(pool.db, cost);
      }
    }

    lemma CostIsTier(cost: int, left: int)
      requires |pool.remaining| == |pool.db| && left == (if 1 <= cost <= MAX_COST_TIER then TierTotal(pool.db, pool.remaining, cost) else 0) && left > 0
      ensures 1 <= cost <= MAX_COST_TIER
    {
    }

    lemma PoolBounds()
      requires pool.Valid()
      ensures |pool.remaining| == |pool.db| == |pool.initial| && forall k | 0 <= k < |pool.remaining| :: 0 <= pool.remaining[k] <= pool.initial[k]
    {
    }

    // Every living player's opening units, cost by cost.
    method DealOpeningUnits(costs: seq<int>)
      requires Valid()
      modifies this, Frame()
      ensures Valid() && phase == old(phase) && round == old(round)
      ensures forall i | 0 <= i < |players| ::
                if old(Views())[i].eliminated then Views()[i] == old(Views())[i]
                else GetsOpeningUnits(pool.db, players[i].roster.defs, costs, old(Views())[i], Views()[i])
    {
      hide *;
      Counted();
      for i := 0 to |players|
        invariant Valid() && |gifts| == |players| && phase == old(phase) && round == old(round)
        invariant forall j | 0 <= j < i ::
                    if old(Views())[j].eliminated then Views()[j] == old(Views())[j]
                    else GetsOpeningUnits(pool.db, players[j].roster.defs, costs, old(Views())[j], Views()[j])
        invariant forall j | i <= j < |players| :: Views()[j] == old(Views())[j]
      {
        ghost var w := Views();
        OutIs(i);
        if !players[i].eliminated {
          DealAll(i, costs);
          Counted();
        } else {
          OnlyAtNone(i, w);
        }
        Elsewhere(i, w, Views());
      }
    }

    method DealAll(i: nat, costs: seq<int>)
      requires Valid() && i < |players| && !players[i].eliminated
      modifies this, Frame()
      ensures Valid() && phase == old(phase) && round == old(round) && OnlyAt(i, old(Views()), Views())
      ensures GetsOpeningUnits(pool.db, players[i].roster.defs, costs, old(Views())[i], Views()[i])
    {
      hide *;
      Counted();
      OnlyAtNone(i, Views());
      ghost var before, v := pool.remaining, Views()[i];
      NoneDealt(pool.db, players[i].roster.defs, before, v);
      assert costs[..0] == [];
      for k := 0 to |costs|
        invariant Valid() && |gifts| == |players| && phase == old(phase) && round == old(round) && !players[i].eliminated
        invariant OnlyAt(i, old(Views()), Views())
        invariant AreDealt(pool.db, players[i].roster.defs, costs[..k], before, v, Views()[i], pool.remaining)
      {
        ghost var w, mid := Views(), pool.remaining;
        var _ := DealOne(i, costs[k], false);
        Counted();
        OneMoreDealt(pool.db, players[i].roster.defs, costs[..k], costs[k], before, v, w[i], mid, Views()[i], pool.remaining);
        assert costs[..k + 1] == costs[..k] + [costs[k]];
        OnlyAtTwice(i, old(Views()), w, Views());
      }
      assert costs[..|costs|] == costs;
      OpeningIs(pool.db, players[i].roster.defs, costs, before, v, Views()[i], pool.remaining);
    }

    // One line of a drop table: gold, a champion of one of its tiers, or an item.
    method PayDropLine(i: nat)
      requires Valid() && i < |players| && !players[i].eliminated
      modifies this, Frame()
      ensures Valid() && phase == old(phase) && round == old(round) && !players[i].eliminated
      ensures OnlyAt(i, old(Views()), Views()) && players[i].health == old(players[i].health) && players[i].streak == old(players[i].streak)
    {
      hide *;
      Counted();
      OnlyAtNone(i, Views());
      var kind: int, amount: int, tier: int, item: int := *, *, *, *;
      if kind == 0 {
        Facts(i);
        players[i].AddGold(amount);
        Kept(i);
      } else if kind == 1 {
        var _ := DealOne(i, tier, true);
      } else if item > 0 {
        Facts(i);
        var _ := players[i].AddItemToBag(item);
        Kept(i);
      }
    }

    // ---- Mother Nature -------------------------------------------------------------------------------

    // Every living player gets some gifts to choose from; a unit on offer is checked out of the pool.
    method GenerateGifts(options: nat)
      requires Valid() && phase == MotherNature && forall i | 0 <= i < |players| :: gifts[i].offers == []
      modifies `gifts, pool
      ensures Valid() && |gifts| == |players| && forall i | 0 <= i < |players| :: Gifted(players[i].eliminated, gifts[i], options)
      ensures |old(gifts)| == |players| && OnlyGifts(old(Views()), Views())
    {
      hide PlayerState.Own, PlayerState.Backed, MatchManager.Valid, OnlyGifts;
      Counted();
      ClearGifts();
      for i := 0 to |players|
        invariant Valid() && |gifts| == |players|
        invariant forall j | 0 <= j < i :: Gifted(players[j].eliminated, gifts[j], options)
        invariant forall j | i <= j < |players| :: gifts[j] == PlayerGifts([], false)
      {
        if !players[i].eliminated {
          MakeOffers(i, options);
        }
      }
      GiftsOnly();
    }

    method MakeOffers(i: nat, options: nat)
      requires Valid() && i < |players| == |gifts| && !players[i].eliminated && phase == MotherNature && gifts[i] == PlayerGifts([], false)
      modifies `gifts, pool
      ensures Valid() && |gifts| == |players| && Gifted(players[i].eliminated, gifts[i], options) && forall j | 0 <= j < |players| && j != i :: gifts[j] == old(gifts)[j]
    {
      hide PlayerState.Own, PlayerState.Backed, MatchManager.Valid;
      for k := 0 to options
        invariant Valid() && |gifts| == |players| && !gifts[i].settled && |gifts[i].offers| <= k
        invariant forall j | 0 <= j < |players| && j != i :: gifts[j] == old(gifts)[j]
      {
        OfferGift(i);
      }
      SettleGifts(i, gifts[i].offers == []);
    }

    // Nothing on offer to anybody, nobody has chosen. (Only when no unit is on offer any more.)
    method ClearGifts()
      requires Valid() && forall i | 0 <= i < |players| :: gifts[i].offers == []
      modifies `gifts
      ensures Valid() && |gifts| == |players| && forall i | 0 <= i < |players| :: gifts[i] == PlayerGifts([], false)
      ensures |old(gifts)| == |players| && OnlyGifts(old(Views()), Views())
    {
      hide *;
      Counted();
      gifts := seq(|players|, _ => PlayerGifts([], false));
      SameOffers();
      GiftsOnly();
    }

    // Nobody looks at who has chosen.
    twostate lemma SameOffers()
      requires old(Valid()) && |gifts| == |players| == |old(gifts)| && forall i | 0 <= i < |players| :: gifts[i].offers == old(gifts)[i].offers
      requires unchanged(`phase) && unchanged(`winner) && unchanged(pool)
      requires forall j: nat | j < |players| :: unchanged(players[j]) && unchanged(players[j].roster) && unchanged(players[j].shop)
      ensures Valid()
    {
      hide PlayerState.Own, MatchManager.Distinct, PlacesOk, Permutation, OffersFit, OnGift;
      forall j: nat, c: nat | j < |players|
        ensures Share(j, c) == old(Share(j, c))
      {
        assert players[j].Held(c) == old(players[j].Held(c));
      }
      forall c: nat
        ensures Shares(c) == old(Shares(c))
      {
      }
      forall j: nat | j < |players|
        ensures players[j].Own() && !players[j].benchOnly && players[j].eliminated == old(players[j].eliminated)
      {
        assert old(players[j].Own());
      }
      assert Out() == old(Out()) && Placing() == old(Placing());
    }

    // One gift, if it can be handed out: gold, experience, healing, an item or a unit.
    method OfferGift(i: nat)
      requires Valid() && i < |players| == |gifts| && !players[i].eliminated && phase == MotherNature
      modifies `gifts, pool
      ensures Valid() && |gifts| == |players| && forall j | 0 <= j < |players| && j != i :: gifts[j] == old(gifts)[j]
      ensures gifts[i].settled == old(gifts)[i].settled && old(gifts)[i].offers <= gifts[i].offers && |gifts[i].offers| <= |old(gifts)[i].offers| + 1
    {
      hide *;
      var kind: int, amount: int, item: int, cost: int := *, *, *, *;
      Facts(i);
      var offer := GoldGift(amount);
      if kind == 1 {
        offer := XpGift(amount);
      } else if kind == 2 {
        offer := HealGift(amount);
      } else if kind == 3 && item > 0 {
        offer := ItemGift(item);
      } else if kind == 4 {
        var drawn, _ := pool.DrawFromTier(cost, Ungated(pool.db));
        if drawn.None? {
          Kept(i);
          return;
        }
        offer := UnitGift(drawn.value);
      }
      AppendOffer(i, offer);
      KeptShare(i);
    }

    method AppendOffer(i: nat, offer: GiftOffer)
      requires i < |players| == |gifts| && OffersFit(pool.db, gifts[i].offers) && OffersFit(pool.db, [offer])
      modifies `gifts
      ensures |gifts| == |players| && OffersFit(pool.db, gifts[i].offers) && forall j | 0 <= j < |gifts| && j != i :: gifts[j] == old(gifts)[j]
      ensures gifts[i] == old(gifts)[i].(offers := old(gifts)[i].offers + [offer])
      ensures forall c: nat :: Share(i, c) == old(Share(i, c)) + if offer == UnitGift(c) then 1 else 0
    {
      var offers := gifts[i].offers + [offer];
      assert offers[..|gifts[i].offers|] == gifts[i].offers;
      assert [offer][0] == offer;
      gifts := gifts[i := gifts[i].(offers := offers)];
    }

    method SettleGifts(i: nat, settled: bool)
      requires Valid() && i < |players| == |gifts|
      modifies `gifts
      ensures Valid() && gifts == old(gifts)[i := old(gifts)[i].(settled := settled)]
    {
      hide PlayerState.Own, MatchManager.Valid, OffersFit;
      Facts(i);
      GiftRules(i);
      gifts := gifts[i := gifts[i].(settled := settled)];
      KeptShare(i);
    }

    lemma GiftRules(i: nat)
      requires Valid() && i < |players|
      ensures |gifts| == |players| && OffersFit(pool.db, gifts[i].offers) && (phase != MotherNature || players[i].eliminated ==> gifts[i].offers == [])
    {
    }

    // The copies among these offers go back; no return is refused.
    method ReturnOffers(offers: seq<GiftOffer>)
      requires pool.Valid() && OffersFit(pool.db, offers)
      requires forall c: nat | c < |pool.db| && pool.db[c].pooled :: pool.remaining[c] + OnGift(offers, c) <= pool.initial[c]
      modifies pool
      ensures pool.Valid()
      ensures forall c: nat | c < |pool.db| && pool.db[c].pooled :: pool.remaining[c] == old(pool.remaining)[c] + OnGift(offers, c)
    {
      assert offers[..0] == [];
      for k := 0 to |offers|
        invariant pool.Valid()
        invariant forall c: nat | c < |pool.db| && pool.db[c].pooled :: pool.remaining[c] == old(pool.remaining)[c] + OnGift(offers[..k], c)
      {
        assert offers[..k + 1][..k] == offers[..k];
        if offers[k].UnitGift? {
          OnGiftPrefix(offers, k + 1, offers[k].champion);
          var returned := pool.Return(offers[k].champion, 1);
          assert returned;
        }
      }
      assert offers[..|offers|] == offers;
    }

    method ReleaseOffers(i: nat)
      requires Valid() && i < |players|
      modifies this, pool
      ensures Valid() && phase == old(phase) && round == old(round)
      ensures |gifts| == |players| == |old(gifts)| && gifts == old(gifts)[i := old(gifts)[i].(offers := [])]
      ensures OnlyGifts(old(Views()), Views())
    {
      hide PlayerState.Own, PlayerState.Backed, MatchManager.Valid;
      Facts(i);
      ReturnOffers(gifts[i].offers);
      gifts := gifts[i := gifts[i].(offers := [])];
      KeptShare(i);
      GiftsOnly();
    }

    twostate lemma GiftsOnly()
      requires |gifts| == |players| == |old(gifts)|
      requires forall j: nat | j < |players| :: unchanged(players[j]) && unchanged(players[j].roster) && unchanged(players[j].shop)
      ensures OnlyGifts(old(Views()), Views())
    {
      forall j: nat | j < |players|
        ensures Views()[j] == old(Views())[j].(gifts := Views()[j].gifts)
      {
        assert ViewOf(j, gifts[j]) == old(ViewOf(j, gifts[j])).(gifts := gifts[j]);
      }
    }

    // The gift is the player's, the other offers are gone.
    method PickGift(i: nat, index: nat, automatic: bool) returns (result: ActionResult)
      requires Valid() && phase == MotherNature
      modifies this, Frame()
      ensures Valid() && phase == old(phase) && round == old(round) && winner == old(winner) && OnlyAt(i, old(Views()), Views())
      ensures result != Ok ==> Views() == old(Views()) && pool.remaining == old(pool.remaining)
      ensures result == Ok <==> old(MayPick(i, index))
      ensures result == Ok ==> |gifts| == |players| && gifts[i] == PlayerGifts([], true)
                               && Given(i, old(gifts)[i].offers[index], old(FitsIn(i, gifts[i].offers[index])), old(Views())[i], Views()[i])
      ensures i < |players| ==> forall x: nat ::
                players[i].ItemTotal(x) == old(players[i].ItemTotal(x)) + if result == Ok then GiftParts(i, old(gifts)[i].offers[index], x) else 0
    {
      hide PlayerState.Own, PlayerState.Backed, MatchManager.Valid, OnGift, OffersFit, OnlyAt;
      Counted();
      OnlyAtNone(i, Views());
      if i >= |players| {
        return InvalidPlayer;
      }
      if players[i].eliminated {
        return PlayerEliminated;
      }
      Facts(i);
      if gifts[i].settled {
        return AlreadyPicked;
      }
      if index >= |gifts[i].offers| {
        return InvalidSlot;
      }
      TakeGift(i, index);
      return Ok;
    }

    method TakeGift(i: nat, index: nat)
      requires Valid() && phase == MotherNature && i < |players| == |gifts| && !players[i].eliminated && index < |gifts[i].offers|
      modifies this, Frame()
      ensures Valid() && phase == old(phase) && round == old(round) && winner == old(winner) && OnlyAt(i, old(Views()), Views())
      ensures |gifts| == |players| && gifts[i] == PlayerGifts([], true)
      ensures Given(i, old(gifts)[i].offers[index], old(FitsIn(i, gifts[i].offers[index])), old(Views())[i], Views()[i])
      ensures forall x: nat :: players[i].ItemTotal(x) == old(players[i].ItemTotal(x)) + GiftParts(i, old(gifts)[i].offers[index], x)
    {
      hide *;
      Facts(i);
      ViewIs(i, PlayerGifts([], true));
      var taken := gifts[i].offers[index];
      var others := gifts[i].offers[..index] + gifts[i].offers[index + 1..];
      OffersSplit(pool.db, gifts[i].offers, index);
      ShareOfGifts(i);
      ReturnOffers(others);
      gifts := gifts[i := PlayerGifts([], true)];
      if taken.UnitGift? {
        UnitFits(pool.db, taken);
      }
      ghost var before := ViewOf(i, PlayerGifts([], true));
      HandOver(i, taken);
      GivenFrom(i, taken, old(FitsIn(i, gifts[i].offers[index])), old(Views())[i], before, ViewOf(i, PlayerGifts([], true)));
      NoOffersFit(pool.db);
      ShareOfGifts(i);
      KeptShare(i);
      ViewIs(i, PlayerGifts([], true));
      SettledView(i);
    }

    lemma SettledView(i: nat)
      requires i < |players| == |gifts|
      ensures Views()[i].gifts == gifts[i]
    {
    }

    lemma ViewIs(i: nat, g: PlayerGifts)
      requires i < |players| == |gifts|
      ensures Views()[i].(gifts := g) == ViewOf(i, g)
    {
    }

    // Which offers the seat had before does not matter.
    lemma GivenFrom(i: nat, taken: GiftOffer, fits: bool, before: View, same: View, after: View)
      requires i < |players| && before.(gifts := same.gifts) == same && Given(i, taken, fits, same, after)
      ensures Given(i, taken, fits, before, after)
    {
      hide Add, Seated;
    }

    lemma ShareOfGifts(i: nat)
      requires i < |players| == |gifts|
      ensures forall c: nat :: Share(i, c) == players[i].Held(c) + OnGift(gifts[i].offers, c)
    {
    }

    predicate Takes(i: nat, item: ItemId)
      requires i < |players|
    {
      item != 0 && (!players[i].hasItems || Known(players[i].roster.defs, item))
    }

    // The item components a gift brings.
    function GiftParts(i: nat, taken: GiftOffer, x: nat): nat
      requires i < |players|
    {
      if taken.ItemGift? && Takes(i, taken.item) then Parts(players[i].roster.defs, taken.item, x) else 0
    }

    // Seat i is alive, has not chosen yet, and there is such an offer.
    ghost predicate MayPick(i: nat, index: nat)
      reads this, Frame()
    {
      i < |players| && i < |gifts| && !players[i].eliminated && !gifts[i].settled && index < |gifts[i].offers|
    }

    // A unit on offer finds room.
    ghost predicate FitsIn(i: nat, taken: GiftOffer)
      requires i < |players| && players[i].Own()
      reads players[i], players[i].roster, players[i].shop
    {
      taken.UnitGift? && players[i].MayAcquire(taken.champion, 1)
    }

    // What a gift makes of a seat.
    ghost predicate Given(i: nat, taken: GiftOffer, fits: bool, before: View, after: View)
      requires i < |players|
    {
      var p := players[i];
      match taken
      case GoldGift(amount) => after == before.(gold := before.gold + Least0(amount), gifts := after.gifts)
      case XpGift(amount) =>
        && after == before.(level := after.level, xp := after.xp, roster := before.roster.(capacity := after.roster.capacity), gifts := after.gifts)
        && (amount <= 0 || before.level == MAX_PLAYER_LEVEL ==> after.level == before.level && after.xp == before.xp)
      case HealGift(amount) => after == before.(health := before.health + Healing(amount, p.config.startingHealth - before.health), gifts := after.gifts)
      case ItemGift(item) => after == before.(bag := before.bag + if Takes(i, item) then [item] else [], gifts := after.gifts)
      case UnitGift(champion) =>
        && champion < |pool.db| && Seated(before.roster)
        && if fits then after == before.(roster := Add(before.roster, pool.db, p.roster.defs, champion, 1).0, bag := after.bag, gifts := after.gifts)
           else after == before.(gold := before.gold + Least0(pool.db[champion].cost), gifts := after.gifts)
    }

    // The gift itself. A unit is checked out of the pool already.
    method HandOver(i: nat, taken: GiftOffer)
      requires i < |players| && players[i].Own() && players[i].pool == pool && pool.Valid() && !players[i].eliminated && OffersFit(pool.db, [taken])
      requires taken.UnitGift? && taken.champion < |pool.remaining| == |pool.initial| ==> pool.remaining[taken.champion] < pool.initial[taken.champion]
      modifies players[i], players[i].roster, pool
      ensures players[i].Own() && pool.Valid() && !players[i].eliminated && players[i].placement == old(players[i].placement) && players[i].benchOnly == old(players[i].benchOnly)
      ensures forall c: nat | c < |pool.db| && pool.db[c].pooled ::
                pool.remaining[c] + players[i].Held(c) == old(pool.remaining[c] + players[i].Held(c)) + if taken == UnitGift(c) then 1 else 0
      ensures Given(i, taken, old(FitsIn(i, taken)),
                    old(ViewOf(i, PlayerGifts([], true))), ViewOf(i, PlayerGifts([], true)))
      ensures forall x: nat :: players[i].ItemTotal(x) == old(players[i].ItemTotal(x)) + GiftParts(i, taken, x)
    {
      hide PlayerState.Own, PlayerState.MayAcquire, Add, Seated, Known, Parts, TotalXp, Weight, Offered, PartsOf, UnitParts;
      var p := players[i];
      assert [taken][0] == taken;
      p.RosterIsSeated();
      match taken {
        case GoldGift(amount) => p.AddGold(amount);
        case XpGift(amount) => p.AddXp(amount);
        case HealGift(amount) => var _ := p.Heal(amount);
        case ItemGift(item) => var _ := p.AddItemToBag(item);
        case UnitGift(champion) => var _ := p.Receive(champion, true);
      }
    }

    method TryPickGift(i: nat, index: nat) returns (result: ActionResult)
      requires Valid()
      modifies this, Frame()
      ensures Valid() && phase == old(phase) && round == old(round) && winner == old(winner) && OnlyAt(i, old(Views()), Views())
      ensures result != Ok ==> Views() == old(Views()) && pool.remaining == old(pool.remaining)
      ensures result == Ok <==> phase == MotherNature && old(MayPick(i, index))
      ensures result == Ok ==> |gifts| == |players| && gifts[i] == PlayerGifts([], true)
                               && Given(i, old(gifts)[i].offers[index], old(FitsIn(i, gifts[i].offers[index])), old(Views())[i], Views()[i])
      ensures i < |players| ==> forall x: nat ::
                players[i].ItemTotal(x) == old(players[i].ItemTotal(x)) + if result == Ok then GiftParts(i, old(gifts)[i].offers[index], x) else 0
    {
      hide *;
      Counted();
      OnlyAtNone(i, Views());
      if phase != MotherNature {
        return WrongPhase;
      }
      result := PickGift(i, index, false);
    }

    // Whoever has not chosen receives the first offer, and nothing stays on offer.
    method FinishGiftPhase()
      requires Valid() && phase == MotherNature
      modifies this, Frame()
      ensures Valid() && phase == old(phase) && round == old(round)
      ensures |gifts| == |players| && forall i | 0 <= i < |players| :: gifts[i] == PlayerGifts([], false)
      ensures |old(gifts)| == |players| && forall i | 0 <= i < |players| :: TakesFirst(i, old(Views())[i], Views()[i])
    {
      hide *;
      Counted();
      ghost var v := Views();
      for i := 0 to |players|
        invariant Valid() && |gifts| == |players| && phase == MotherNature && round == old(round)
        invariant forall j | 0 <= j < i :: TakesFirst(j, v[j], Views()[j])
        invariant forall j | i <= j < |players| :: Views()[j] == v[j]
      {
        ghost var w := Views();
        OutIs(i);
        SettledIs(i);
        if !players[i].eliminated && !gifts[i].settled {
          MayPickIs(i, 0);
          var _ := PickGift(i, 0, true);
          Counted();
        } else {
          OnlyAtNone(i, w);
        }
        Elsewhere(i, w, Views());
        TookFirst(i, v[i], Views()[i]);
      }
      ghost var w := Views();
      OnlyGiftsNow(w);
      for i := 0 to |players|
        invariant Valid() && |gifts| == |players| && phase == MotherNature && round == old(round)
        invariant (forall j | 0 <= j < i :: gifts[j].offers == []) && OnlyGifts(w, Views())
      {
        ghost var x := Views();
        ReleaseOffers(i);
        Counted();
        OnlyGiftsTwice(w, x, Views());
      }
      ghost var x := Views();
      ClearGifts();
      OnlyGiftsTwice(w, x, Views());
      OnlyGiftsAt(w, Views());
      forall i | 0 <= i < |players|
        ensures TakesFirst(i, v[i], Views()[i])
      {
        FirstIsKept(i, v[i], w[i], Views()[i]);
      }
    }

    // A living player who has not chosen gets its first offer; nobody else gets anything.
    ghost predicate TakesFirst(i: nat, v: View, w: View)
      requires i < |players|
    {
      if v.eliminated || v.gifts.settled || v.gifts.offers == [] then w == v.(gifts := w.gifts)
      else exists fits :: Given(i, v.gifts.offers[0], fits, v, w)
    }

    lemma MayPickIs(i: nat, index: nat)
      requires |gifts| == |players|
      ensures MayPick(i, index) <==> i < |players| && !players[i].eliminated && !gifts[i].settled && index < |gifts[i].offers|
    {
    }

    lemma SettledIs(i: nat)
      requires |gifts| == |players| && i < |players|
      ensures Views()[i].gifts == gifts[i]
    {
    }

    lemma TookFirst(i: nat, v: View, w: View)
      requires i < |players|
      requires if v.eliminated || v.gifts.settled || v.gifts.offers == [] then w == v else exists fits :: Given(i, v.gifts.offers[0], fits, v, w)
      ensures TakesFirst(i, v, w)
    {
      hide MatchManager.Given;
    }

    lemma FirstIsKept(i: nat, v: View, w: View, x: View)
      requires i < |players| && TakesFirst(i, v, w) && x == w.(gifts := x.gifts)
      ensures TakesFirst(i, v, x)
    {
      if !(v.eliminated || v.gifts.settled || v.gifts.offers == []) {
        var fits :| Given(i, v.gifts.offers[0], fits, v, w);
        hide Add, Seated;
        assert Given(i, v.gifts.offers[0], fits, v, x);
      }
    }

    // ---- After a fight -------------------------------------------------------------------------------

    // What the fights cost, loot and trait rewards; then everyone at 0 health or below is out: lowest health
    // places worst, at equal health the higher seat does.
    method ApplyCombatOutcomes(outcomes: seq<Outcome>)
      requires Valid() && phase == Resolution
      modifies this, Frame()
      ensures Valid() && phase == old(phase) && round == old(round)
      ensures forall i | 0 <= i < |players| :: Healths()[i] == old(Healths())[i] - if old(Out())[i] then 0 else TotalDamage(outcomes, |players|, i)
      ensures forall i | 0 <= i < |players| :: Out()[i] == (old(Out())[i] || Healths()[i] <= 0)
      ensures FallInOrder(old(Out()), Out(), Healths(), Placing())
    {
      hide *;
      Counted();
      SettleFights(outcomes);
      SufferedIs(outcomes);
      EliminateDying();
    }

    // Fight by fight.
    method SettleFights(outcomes: seq<Outcome>)
      requires Valid() && phase == Resolution
      modifies this, Frame()
      ensures Valid() && phase == old(phase) && round == old(round)
      ensures |gifts| == |players| == |old(gifts)| && forall i | 0 <= i < |players| :: Suffers(old(Views())[i], outcomes, |players|, i, Views()[i])
    {
      hide *;
      Counted();
      forall i | 0 <= i < |players|
        ensures Suffers(Views()[i], [], |players|, i, Views()[i])
      {
        NothingSuffered(Views()[i], |players|, i);
      }
      assert outcomes[..0] == [];
      for k := 0 to |outcomes|
        invariant Valid() && |gifts| == |players| && phase == Resolution && round == old(round)
        invariant forall i | 0 <= i < |players| :: Suffers(old(Views())[i], outcomes[..k], |players|, i, Views()[i])
      {
        ghost var w := Views();
        ApplyOutcome(outcomes[k]);
        Counted();
        assert outcomes[..k + 1] == outcomes[..k] + [outcomes[k]];
        forall i | 0 <= i < |players|
          ensures Suffers(old(Views())[i], outcomes[..k + 1], |players|, i, Views()[i])
        {
          SuffersMore(old(Views())[i], outcomes[..k], outcomes[k], |players|, i, w[i], Views()[i]);
        }
      }
      assert outcomes[..|outcomes|] == outcomes;
    }

    // One fight: its results and its damage, loot from monsters, and what the traits pay out.
    method ApplyOutcome(o: Outcome)
      requires Valid() && phase == Resolution
      modifies this, Frame()
      ensures Valid() && phase == old(phase) && round == old(round)
      ensures |gifts| == |players| == |old(gifts)| && forall i | 0 <= i < |players| :: SuffersOne(old(Views())[i], o, |players|, i, Views()[i])
    {
      hide *;
      Counted();
      ghost var v := Views();
      if o.home >= |players| || (!o.monsters && o.away >= |players|) {
        NobodySuffers(o, v);   // bad data from a simulator
        return;
      }
      ghost var a: seq<View>;
      if o.monsters {
        PayDrops(o.home);
        Counted();
        a := Views();
        if o.winner == AwayWon {
          Hurt(o.home, o.damage);
          Counted();
        }
        MonstersSettled(o, v, a, Views());
      } else {
        RecordBoth(o);
        Counted();
        a := Views();
        if o.winner == AwayWon {
          Hurt(o.home, o.damage);
          Counted();
        } else if o.winner == HomeWon && !o.isGhost {
          Hurt(o.away, o.damage);
          Counted();
        }
        SeatsSettled(o, v, a, Views());
      }
      ghost var w := Views();
      PayTraits(o.home);
      Counted();
      if !o.monsters && !o.isGhost {
        ghost var x := Views();
        PayTraits(o.away);
        Counted();
        StandingTwice(w, x, Views());
      }
      RewardsCostNothing(o, v, w, Views());
    }

    // Wins and losses of a fight between seats.
    method RecordBoth(o: Outcome)
      requires Valid() && o.home < |players| && o.away < |players|
      modifies this, Frame()
      ensures Valid() && phase == old(phase) && round == old(round) && |gifts| == |players| == |old(gifts)|
      ensures var v := old(Views())[o.home := Recorded(old(Views())[o.home], HomeResult(o))];
              Views() == if o.isGhost then v else v[o.away := Recorded(v[o.away], AwayResult(o))]
    {
      hide *;
      Counted();
      ResultsAre(o);
      Record(o.home, match o.winner case HomeWon => Win case AwayWon => Loss case NobodyWon => Tie);
      Counted();
      if !o.isGhost {
        Record(o.away, match o.winner case HomeWon => Loss case AwayWon => Win case NobodyWon => Tie);
        Counted();
      }
    }

    method Record(i: nat, result: RoundResult)
      requires Valid() && i < |players|
      modifies this, Frame()
      ensures Valid() && phase == old(phase) && round == old(round) && |gifts| == |players| == |old(gifts)|
      ensures Views() == old(Views())[i := Recorded(old(Views())[i], result)]
    {
      hide *;
      Facts(i);
      RecordedIs(Views()[i], result);
      players[i].RecordRoundResult(result);
      Kept(i);
      SeatThen(i);
      OnlyThere(i, old(Views()), Views());
    }

    method Hurt(i: nat, damage: int)
      requires Valid() && i < |players|
      modifies this, Frame()
      ensures Valid() && phase == old(phase) && round == old(round) && |gifts| == |players| == |old(gifts)|
      ensures Views() == old(Views())[i := Harmed(old(Views())[i], damage)]
    {
      hide *;
      Facts(i);
      SeatThen(i);
      HarmedIs(Views()[i], damage);
      players[i].ApplyDamage(damage);
      Kept(i);
      SeatThen(i);
      OnlyThere(i, old(Views()), Views());
    }

    lemma OnlyThere(i: nat, a: seq<View>, b: seq<View>)
      requires OnlyAt(i, a, b) && i < |a|
      ensures |a| == |b| && b == a[i := b[i]]
    {
    }

    // Loot from monsters, line by line.
    method PayDrops(i: nat)
      requires Valid() && i < |players|
      modifies this, Frame()
      ensures Valid() && phase == old(phase) && round == old(round) && |gifts| == |players| == |old(gifts)|
      ensures AllStand(old(Views()), Views())
    {
      hide *;
      Counted();
      StandsNow(Views());
      var lines: int := *;   // what the encounter's table says
      while lines > 0
        invariant Valid() && phase == old(phase) && round == old(round) && |gifts| == |players|
        invariant AllStand(old(Views()), Views())
      {
        if !players[i].eliminated {
          label Before:
          ghost var w := Views();
          PayDropLine(i);
          Counted();
          SeatStands@Before(i);
          Elsewhere(i, w, Views());
          StandsAt(i, w, Views());
          StandingTwice(old(Views()), w, Views());
        }
        lines := lines - 1;
      }
    }

    method PayTraits(i: nat)
      requires Valid() && i < |players|
      modifies this, Frame()
      ensures Valid() && phase == old(phase) && round == old(round) && |gifts| == |players| == |old(gifts)|
      ensures AllStand(old(Views()), Views())
    {
      hide *;
      Counted();
      StandsNow(Views());
      if !players[i].eliminated && players[i].health > 0 {
        GrantTraitRewards(i);
        Counted();
        SeatStands(i);
        Elsewhere(i, old(Views()), Views());
        StandsAt(i, old(Views()), Views());
      }
    }

    twostate lemma SeatStands(i: nat)
      requires |gifts| == |players| == |old(gifts)| && i < |players|
      ensures players[i].health == old(players[i].health) && players[i].streak == old(players[i].streak) && players[i].eliminated == old(players[i].eliminated) ==>
                SameStanding(old(Views())[i], Views()[i])
    {
    }

    // Seat by seat as lists.
    twostate lemma SufferedIs(outcomes: seq<Outcome>)
      requires |gifts| == |players| == |old(gifts)| && forall i | 0 <= i < |players| :: Suffers(old(Views())[i], outcomes, |players|, i, Views()[i])
      ensures Out() == old(Out())
      ensures forall i | 0 <= i < |players| :: Healths()[i] == old(Healths())[i] - if old(Out())[i] then 0 else TotalDamage(outcomes, |players|, i)
    {
      hide TotalDamage, AllResults, StreakAfter;
      forall i | 0 <= i < |players|
        ensures Out()[i] == old(Out())[i] && Healths()[i] == old(Healths())[i] - if old(Out())[i] then 0 else TotalDamage(outcomes, |players|, i)
      {
        assert Suffers(old(Views())[i], outcomes, |players|, i, Views()[i]);
      }
    }

    method EliminateDying()
      requires Valid() && phase == Resolution
      modifies this, Frame()
      ensures Valid() && phase == old(phase) && round == old(round)
      ensures Healths() == old(Healths())
      ensures forall i | 0 <= i < |players| :: Out()[i] == (old(Out())[i] || Healths()[i] <= 0)
      ensures forall i | 0 <= i < |players| && old(Out())[i] :: Placing()[i] == old(Placing())[i]
      ensures FallInOrder(old(Out()), Out(), Healths(), Placing())
    {
      hide *;
      Counted();
      var healths, order, alive := RankDying();
      Untouched();
      SeatsAre(healths, order);
      EliminateInOrder(healths, order, alive);
      InOrder(old(Out()), Out(), healths, order, Placing(), alive);
    }

    method EliminateInOrder(healths: seq<int>, order: seq<nat>, alive: nat)
      requires Valid() && phase == Resolution && healths == Healths() && alive == Alive()
      requires Seats(healths, order) && WorstFirst(healths, order)
      requires forall j | 0 <= j < |order| :: order[j] < |players| && !Out()[order[j]]
      modifies this, Frame()
      ensures Valid() && phase == old(phase) && round == old(round)
      ensures Healths() == healths
      ensures forall i: nat | i < |players| :: Out()[i] == (old(Out())[i] || i in order)
      ensures forall m | 0 <= m < |order| :: Placing()[order[m]] == alive - m
      ensures forall i | 0 <= i < |players| && old(Out())[i] :: Placing()[i] == old(Placing())[i]
    {
      hide *;
      SeatsAre(healths, order);
      ghost var out0, place0 := Out(), Placing();
      for k := 0 to |order|
        invariant Valid() && phase == Resolution && round == old(round) && Healths() == healths
        invariant alive - k == Alive()
        invariant forall i: nat | i < |players| :: Out()[i] == (out0[i] || i in order[..k])
        invariant forall m | 0 <= m < k :: Placing()[order[m]] == alive - m
        invariant forall i | 0 <= i < |players| && out0[i] :: Placing()[i] == place0[i]
      {
        assert order[..k + 1] == order[..k] + [order[k]];
        DistinctOrder(healths, order, k);
        EliminateOne(order[k], alive - k);
      }
      assert order[..|order|] == order;
    }

    method FindDying() returns (healths: seq<int>, dying: seq<nat>, alive: nat)
      ensures healths == Healths() && alive == Alive()
      ensures forall j: nat :: j in dying <==> j < |players| && !Out()[j] && healths[j] <= 0
      ensures Seats(healths, dying) && forall a, b | 0 <= a < b < |dying| :: dying[a] != dying[b]
    {
      healths, dying, alive := [], [], 0;
      for i := 0 to |players|
        invariant |healths| == i && forall j | 0 <= j < i :: healths[j] == Healths()[j]
        invariant forall j: nat :: j in dying <==> j < i && !Out()[j] && healths[j] <= 0
        invariant forall a | 0 <= a < |dying| :: dying[a] < i
        invariant forall a, b | 0 <= a < b < |dying| :: dying[a] != dying[b]
        invariant alive == AliveCount(Out()[..i])
      {
        assert Out()[..i + 1][..i] == Out()[..i];
        healths := healths + [players[i].health];
        if !players[i].eliminated {
          alive := alive + 1;
          if players[i].health <= 0 {
            dying := dying + [i];
          }
        }
      }
      assert Out()[..|players|] == Out();
    }

    // The dying, worst first.
    method RankDying() returns (healths: seq<int>, order: seq<nat>, alive: nat)
      requires |gifts| == |players|
      ensures healths == Healths() && alive == Alive()
      ensures forall j: nat :: j in order <==> j < |players| && !Out()[j] && healths[j] <= 0
      ensures Seats(healths, order) && WorstFirst(healths, order)
    {
      hide Worse, WorstFirst, AliveCount, SortWorst;
      var dying;
      healths, dying, alive := FindDying();
      Untouched();
      SortWorstExact(healths, dying);
      order := SortDying(healths, dying);
      Untouched();
    }

    // Out of the match, at the worst placement that is left; everything goes back to the pool.
    method EliminateOne(i: nat, placement: int)
      requires Valid() && phase == Resolution && i < |players| && !players[i].eliminated && placement == Alive()
      modifies this, Frame()
      ensures Valid() && phase == old(phase) && round == old(round) && Alive() == old(Alive()) - 1
      ensures Out() == old(Out())[i := true] && Placing() == old(Placing())[i := placement] && Healths() == old(Healths())
    {
      hide *;
      Facts(i);
      GiftRules(i);
      players[i].Eliminate(placement);
      KeptOut(i);
    }

    twostate lemma KeptOut(i: nat)
      requires old(Valid()) && i < |players| && pool.Valid() && players[i].Own() && !players[i].benchOnly && gifts == old(gifts) && phase == Resolution
      requires |gifts| == |players| && phase == old(phase) && winner == old(winner)
      requires forall j: nat | j < |players| && j != i ::
                 unchanged(players[j]) && unchanged(players[j].roster) && unchanged(players[j].shop)
      requires !old(players[i].eliminated) && players[i].eliminated && players[i].placement == old(Alive())
      requires players[i].health == old(players[i].health)
      requires forall c: nat | c < |pool.db| && pool.db[c].pooled :: pool.remaining[c] + players[i].Held(c) == old(pool.remaining[c] + players[i].Held(c))
      ensures Valid() && Out() == old(Out())[i := true] && Placing() == old(Placing())[i := players[i].placement] && Healths() == old(Healths())
      ensures Alive() == old(Alive()) - 1
    {
      hide PlayerState.Own, OffersFit, OnGift, Permutation, PlacesOk, MatchManager.Distinct, AliveCount;
      OthersKept(i);
      hide MatchManager.EachOwn;
      Acted(i);
      hide MatchManager.Conserved;
      PlaceNext(old(Out()), old(Placing()), i);
      AliveFewer(old(Out()), i);
    }

    // ---- The end -------------------------------------------------------------------------------------

    // One survivor wins; if everyone fell together, the one who placed first does. Either way every
    // placement from 1 on is held exactly once.
    method EndMatch()
      requires Valid() && phase == Resolution && Alive() <= 1 && players != []
      modifies this, Frame()
      ensures Valid() && phase == MatchOver
      ensures Permutation(Placing()) && winner < |players| && players[winner].placement == 1
    {
      hide *;
      var last := LastAlive();
      if last.Some? {
        Crown(last.value);
      } else {
        FirstOfAll();
      }
      Complete();
    }

    lemma Complete()
      requires Valid() && phase == MatchOver
      ensures Permutation(Placing())
    {
    }

    method LastAlive() returns (last: Option<nat>)
      requires Valid()
      ensures Valid() && Alive() == old(Alive())
      ensures last.Some? <==> Alive() > 0
      ensures last.Some? ==> last.value < |players| && !players[last.value].eliminated
    {
      hide MatchManager.Valid;
      last := None;
      for i := 0 to |players|
        invariant last.Some? <==> AliveCount(Out()[..i]) > 0
        invariant last.Some? ==> last.value < |players| && !players[last.value].eliminated
      {
        assert Out()[..i + 1][..i] == Out()[..i];
        if !players[i].eliminated {
          last := Some(i);
        }
      }
      assert Out()[..|players|] == Out();
    }

    method Crown(i: nat)
      requires Valid() && phase == Resolution && Alive() == 1 && i < |players| && !players[i].eliminated
      modifies this, Frame()
      ensures Valid() && phase == MatchOver && winner == i && players[i].placement == 1
    {
      hide *;
      Facts(i);
      GiftRules(i);
      players[i].SetPlacement(1);
      winner, phase := i, MatchOver;
      KeptCrown(i);
    }

    twostate lemma KeptCrown(i: nat)
      requires old(Valid()) && old(phase) == Resolution && old(Alive()) == 1 && i < |players| && !old(players[i].eliminated)
      requires pool.Valid() && players[i].Own() && !players[i].benchOnly && gifts == old(gifts) && phase == MatchOver && winner == i
      requires players[i].eliminated == old(players[i].eliminated) && players[i].placement == 1
      requires forall j: nat | j < |players| && j != i :: unchanged(players[j]) && unchanged(players[j].roster) && unchanged(players[j].shop)
      requires unchanged(players[i].roster) && unchanged(players[i].shop) && unchanged(pool)
      ensures Valid()
    {
      hide PlayerState.Own, OffersFit, OnGift, Permutation, PlacesOk, MatchManager.Distinct, AliveCount;
      assert |gifts| == |players|;
      forall j: nat, c: nat | j < |players|
        ensures Share(j, c) == old(Share(j, c))
      {
        assert players[j].Held(c) == old(players[j].Held(c));
      }
      forall j: nat | j < |players|
        ensures players[j].Own() && !players[j].benchOnly && players[j].eliminated == old(players[j].eliminated) && (j != i ==> players[j].placement == old(players[j].placement))
      {
        assert old(players[j].Own());
      }
      forall c: nat | c < |pool.db| && pool.db[c].pooled
        ensures pool.remaining[c] + Sum(Shares(c)) == pool.initial[c]
      {
        assert Shares(c) == old(Shares(c));
      }
      SurvivorCompletes(old(Out()), old(Placing()), i);
      assert Placing() == old(Placing())[i := 1];
    }

    method FirstOfAll()
      requires Valid() && phase == Resolution && Alive() == 0 && players != []
      modifies `winner, `phase
      ensures Valid() && phase == MatchOver && winner < |players| && players[winner].placement == 1
    {
      hide PlayerState.Own, MatchManager.Conserved, MatchManager.EachOwn, MatchManager.Distinct, Permutation, AliveCount;
      AllFallen(Out(), Placing());
      assert Holds(Out(), Placing(), 1);
      ghost var first :| 0 <= first < |players| && Placing()[first] == 1;
      var found := false;
      for i := 0 to |players|
        invariant found ==> winner < |players| && players[winner].placement == 1
        invariant first < i ==> found
      {
        if players[i].placement == 1 {
          winner, found := i, true;
        }
      }
      phase := MatchOver;
      SameLaw();
    }

    // The law does not look at the phase or the winner.
    twostate lemma SameLaw()
      requires |gifts| == |players| && gifts == old(gifts) && unchanged(pool)
      requires forall j: nat | j < |players| :: unchanged(players[j]) && unchanged(players[j].roster) && unchanged(players[j].shop)
      ensures old(Conserved()) ==> Conserved()
      ensures old(EachOwn()) ==> EachOwn()
      ensures forall c: nat :: Shares(c) == old(Shares(c))
      ensures Out() == old(Out()) && Placing() == old(Placing()) && Healths() == old(Healths())
    {
      hide PlayerState.Own;
      forall j: nat, c: nat | j < |players|
        ensures Share(j, c) == old(Share(j, c))
      {
        assert players[j].Held(c) == old(players[j].Held(c));
      }
      forall c: nat
        ensures Shares(c) == old(Shares(c))
      {
      }
      forall j: nat | j < |players|
        ensures old(players[j].Own() && !players[j].benchOnly) ==> players[j].Own() && !players[j].benchOnly
      {
      }
    }

    // A step that only looks changes nothing.
    twostate lemma Untouched()
      requires |gifts| == |players| && unchanged(`gifts) && unchanged(`phase) && unchanged(`winner) && unchanged(pool)
      requires forall j: nat | j < |players| :: unchanged(players[j]) && unchanged(players[j].roster) && unchanged(players[j].shop)
      ensures old(Valid()) ==> Valid()
      ensures forall c: nat :: Shares(c) == old(Shares(c))
      ensures Out() == old(Out()) && Placing() == old(Placing()) && Healths() == old(Healths()) && Alive() == old(Alive()) && Views() == old(Views())
    {
      hide PlayerState.Own, MatchManager.Conserved, MatchManager.EachOwn, MatchManager.Distinct, PlacesOk, Permutation;
      SameLaw();
      forall j: nat | j < |players|
        ensures players[j].eliminated == old(players[j].eliminated)
      {
        assert Out()[j] == old(Out()[j]);
      }
      forall j: nat | j < |players|
        ensures Views()[j] == old(Views())[j]
      {
        assert ViewOf(j, gifts[j]) == old(ViewOf(j, gifts[j]));
      }
    }

    // ---- Phases --------------------------------------------------------------------------------------

    lemma Counted()
      requires Valid()
      ensures |gifts| == |players|
    {
    }

    lemma NoGiftsNow()
      requires Valid() && phase != MotherNature
      ensures |gifts| == |players| && forall i | 0 <= i < |players| :: gifts[i].offers == []
    {
    }

    method SetPhase(next: Phase)
      requires Valid() && phase != MatchOver && next != MatchOver && |gifts| == |players|
      requires forall i | 0 <= i < |players| :: gifts[i].offers == []
      modifies `phase
      ensures Valid() && phase == next && Out() == old(Out()) && Views() == old(Views())
    {
      hide PlayerState.Own, MatchManager.Conserved, MatchManager.EachOwn, MatchManager.Distinct, Permutation, PlacesOk;
      phase := next;
      SameLaw();
    }

    method Start(costs: seq<int>, motherNature: bool, closed: bool, options: nat)
      requires Valid()
      modifies this, Frame()
      ensures Valid()
      ensures old(phase) == NotStarted ==> round == 1 && phase == if motherNature then MotherNature else Planning
      ensures |gifts| == |players| == |old(gifts)|
      ensures old(phase) == NotStarted ==> forall i | 0 <= i < |players| ::
                MatchBegins(pool.db, players[i].roster.defs, players[i].shop.dropRatesByLevel, rules, costs, motherNature, closed, old(Views())[i], Views()[i])
      ensures old(phase) != NotStarted ==> phase == old(phase) && winner == old(winner) && Views() == old(Views())
    {
      hide *;
      Counted();
      if phase != NotStarted {
        return;
      }
      SetRound(1);
      DealOpeningUnits(costs);
      Counted();
      ghost var d := Views();
      BeginRound(motherNature, closed, options);
      forall i | 0 <= i < |players|
        ensures MatchBegins(pool.db, players[i].roster.defs, players[i].shop.dropRatesByLevel, rules, costs, motherNature, closed, old(Views())[i], Views()[i])
      {
        MatchBegun(pool.db, players[i].roster.defs, players[i].shop.dropRatesByLevel, rules, costs, motherNature, closed, old(Views())[i], d[i], Views()[i]);
      }
    }

    method SetRound(next: int)
      requires Valid()
      modifies `round
      ensures Valid() && round == next && |gifts| == |players| && Views() == old(Views())
    {
      hide PlayerState.Own, MatchManager.Conserved, MatchManager.EachOwn, MatchManager.Distinct, Permutation, PlacesOk;
      round := next;
      SameLaw();
    }

    // Income, then the gift phase or planning.
    method BeginRound(motherNature: bool, closed: bool, options: nat)
      requires Valid() && phase != MatchOver && phase != MotherNature
      modifies this, Frame()
      ensures Valid() && round == old(round) && phase == if motherNature then MotherNature else Planning
      ensures |gifts| == |players| == |old(gifts)|
      ensures forall i | 0 <= i < |players| :: RoundBegins(pool.db, players[i].shop.dropRatesByLevel, rules, motherNature, closed, old(Views())[i], Views()[i])
    {
      hide *;
      Counted();
      PayIncome();
      NoGiftsNow();
      ghost var e := Views();
      if motherNature {
        SetPhase(MotherNature);
        GenerateGifts(options);
        OnlyGiftsAt(e, Views());
      } else {
        EnterPlanning(closed);
      }
      Counted();
      forall i | 0 <= i < |players|
        ensures RoundBegins(pool.db, players[i].shop.dropRatesByLevel, rules, motherNature, closed, old(Views())[i], Views()[i])
      {
        RoundBegun(pool.db, players[i].shop.dropRatesByLevel, rules, motherNature, closed, old(Views())[i], e[i], Views()[i]);
      }
    }

    method PayIncome()
      requires Valid()
      modifies this, Frame()
      ensures Valid() && phase == old(phase) && round == old(round)
      ensures |gifts| == |players| == |old(gifts)| && forall i | 0 <= i < |players| :: Earns(old(Views())[i], Views()[i])
    {
      hide *;
      Counted();
      for i := 0 to |players|
        invariant Valid() && |gifts| == |players| && phase == old(phase) && round == old(round)
        invariant forall j | 0 <= j < i :: Earns(old(Views())[j], Views()[j])
        invariant forall j | i <= j < |players| :: Views()[j] == old(Views())[j]
      {
        ghost var w := Views();
        EarnsNothing(w[i]);
        if !players[i].eliminated {
          Income(i);
          Counted();
        } else {
          OnlyAtNone(i, w);
        }
        Elsewhere(i, w, Views());
      }
    }

    method Income(i: nat)
      requires Valid() && i < |players| && !players[i].eliminated
      modifies this, Frame()
      ensures Valid() && phase == old(phase) && round == old(round) && OnlyAt(i, old(Views()), Views())
      ensures Earns(old(Views())[i], Views()[i])
    {
      hide *;
      Counted();
      var gold: int, xp: int := *, *;
      Facts(i);
      players[i].AddGold(gold);
      players[i].AddXp(xp);
      Kept(i);
      SeatThen(i);
      CapacityChanged(i);
      EarnsIs(old(Views())[i], Views()[i]);
    }

    // All shops open (a locked one keeps its offer) or close; then plants, choices and special champions follow
    // seat by seat.
    method EnterPlanning(closed: bool)
      requires Valid() && phase != MatchOver && |gifts| == |players| && forall i | 0 <= i < |players| :: gifts[i].offers == []
      modifies this, Frame()
      ensures Valid() && phase == Planning && round == old(round)
      ensures forall i | 0 <= i < |players| :: PlanningBegins(pool.db, players[i].shop.dropRatesByLevel, rules, closed, old(Views())[i], Views()[i])
    {
      hide *;
      SetPhase(Planning);
      StageIs();
      ghost var v := Views();
      OpenShops(closed);
      Counted();
      ghost var m := Views();
      for i := 0 to |players|
        invariant Valid() && |gifts| == |players| && phase == Planning && round == old(round)
        invariant forall j | 0 <= j < i :: PlanningBegins(pool.db, players[j].shop.dropRatesByLevel, rules, closed, v[j], Views()[j])
        invariant forall j | i <= j < |players| :: Views()[j] == m[j]
      {
        ghost var w := Views();
        OutIs(i);
        if !players[i].eliminated {
          AfterRosterChange(i, closed);
          Counted();
        } else {
          OnlyAtNone(i, w);
        }
        Elsewhere(i, w, Views());
        PlanningBegun(pool.db, players[i].shop.dropRatesByLevel, rules, closed, v[i], m[i], Views()[i]);
      }
    }

    lemma OutIs(i: nat)
      requires |gifts| == |players| && i < |players|
      ensures Views()[i].eliminated == players[i].eliminated
    {
    }

    lemma Elsewhere(i: nat, a: seq<View>, b: seq<View>)
      requires OnlyAt(i, a, b)
      ensures |a| == |b| && forall j | 0 <= j < |a| && j != i :: b[j] == a[j]
    {
    }

    method OpenShops(closed: bool)
      requires Valid()
      modifies this, Frame()
      ensures Valid() && phase == old(phase) && round == old(round)
      ensures |gifts| == |players| == |old(gifts)|
      ensures forall i | 0 <= i < |players| :: Views()[i].eliminated == old(Views())[i].eliminated
      ensures forall i | 0 <= i < |players| ::
                if old(Views())[i].eliminated then Views()[i] == old(Views())[i]
                else OpensShop(pool.db, players[i].shop.dropRatesByLevel, closed, old(Views())[i], Views()[i])
    {
      hide *;
      Counted();
      for i := 0 to |players|
        invariant Valid() && |gifts| == |players| && phase == old(phase) && round == old(round)
        invariant forall j | 0 <= j < i :: Views()[j].eliminated == old(Views())[j].eliminated
        invariant forall j | 0 <= j < i ::
                    if old(Views())[j].eliminated then Views()[j] == old(Views())[j]
                    else OpensShop(pool.db, players[j].shop.dropRatesByLevel, closed, old(Views())[j], Views()[j])
        invariant forall j | i <= j < |players| :: Views()[j] == old(Views())[j]
      {
        ghost var w := Views();
        OutIs(i);
        if !players[i].eliminated {
          OpenShop(i, closed);
          Counted();
          OutIs(i);
        } else {
          OnlyAtNone(i, w);
        }
        Elsewhere(i, w, Views());
      }
    }

    method OpenShop(i: nat, closed: bool)
      requires Valid() && i < |players| && !players[i].eliminated
      modifies this, Frame()
      ensures Valid() && phase == old(phase) && round == old(round) && !players[i].eliminated && OnlyAt(i, old(Views()), Views())
      ensures OpensShop(pool.db, players[i].shop.dropRatesByLevel, closed, old(Views())[i], Views()[i])
    {
      hide *;
      Counted();
      OnlyAtNone(i, Views());
      Facts(i);
      SeatThen(i);
      if closed {
        players[i].CloseShop();
        Kept(i);
      } else if !players[i].shopLocked {
        players[i].RefreshShop();
        Kept(i);
      }
      SeatThen(i);
      OpensShopIs(pool.db, players[i].shop.dropRatesByLevel, closed, old(Views())[i], Views()[i], old(pool.remaining), pool.remaining);
    }

    method AdvancePhase(motherNature: bool, closed: bool, options: nat, outcomes: seq<Outcome>)
      requires Valid() && players != []
      modifies this, Frame()
      ensures Valid()
      ensures old(phase) == MotherNature ==> phase == Planning && round == old(round)
      ensures old(phase) == Planning ==> phase == Combat && round == old(round)
      ensures old(phase) == Combat ==> phase == Resolution && round == old(round) && Standing()
      ensures old(phase) == Combat ==>
                && (forall i | 0 <= i < |players| :: Healths()[i] == old(Healths())[i] - if old(Out())[i] then 0 else TotalDamage(outcomes, |players|, i))
                && (forall i | 0 <= i < |players| :: Out()[i] == (old(Out())[i] || Healths()[i] <= 0))
                && FallInOrder(old(Out()), Out(), Healths(), Placing())
      ensures old(phase) == Resolution ==> if old(Alive()) <= 1 then Decided() else round == old(round) + 1 && phase == if motherNature then MotherNature else Planning
      ensures old(phase) == NotStarted || old(phase) == MatchOver ==> phase == old(phase) && winner == old(winner) && Views() == old(Views())
      ensures |gifts| == |players| == |old(gifts)|
      ensures old(phase) == MotherNature ==> forall i | 0 <= i < |players| :: AfterGifts(i, closed, old(Views())[i], Views()[i])
      ensures old(phase) == Resolution && old(Alive()) > 1 ==> forall i | 0 <= i < |players| ::
                RoundBegins(pool.db, players[i].shop.dropRatesByLevel, rules, motherNature, closed, old(Views())[i], Views()[i])
    {
      hide *;
      Counted();
      match phase {
        case MotherNature =>
          FinishGiftPhase();
          ghost var g := Views();
          EnterPlanning(closed);
          Counted();
          forall i | 0 <= i < |players|
            ensures AfterGifts(i, closed, old(Views())[i], Views()[i])
          {
            GiftsAreOver(i, closed, old(Views())[i], g[i], Views()[i]);
          }
        case Planning =>
          NoGiftsNow();
          SetPhase(Combat);
          SettleTraitChoices();
        case Combat =>
          NoGiftsNow();
          SetPhase(Resolution);
          ApplyCombatOutcomes(outcomes);
          StandingIs();
        case Resolution =>
          var _, _, alive := FindDying();
          Untouched();
          if alive <= 1 {
            EndMatch();
            DecidedIs();
          } else {
            SetRound(round + 1);
            BeginRound(motherNature, closed, options);
          }
        case _ =>
      }
      Counted();
    }

    // Who had not chosen took its first offer, and Planning has begun.
    ghost predicate AfterGifts(i: nat, closed: bool, v: View, w: View)
      requires i < |players|
    {
      exists g :: TakesFirst(i, v, g) && PlanningBegins(pool.db, players[i].shop.dropRatesByLevel, rules, closed, g, w)
    }

    lemma GiftsAreOver(i: nat, closed: bool, v: View, g: View, w: View)
      requires i < |players| && TakesFirst(i, v, g) && PlanningBegins(pool.db, players[i].shop.dropRatesByLevel, rules, closed, g, w)
      ensures AfterGifts(i, closed, v, w)
    {
      hide MatchManager.TakesFirst, PlanningBegins;
    }

    // Whoever is not out has health left.
    ghost predicate Standing()
      reads Frame()
    {
      forall i | 0 <= i < |players| && !players[i].eliminated :: players[i].health > 0
    }

    // The match is over: every placement is held exactly once, the first by the winner.
    ghost predicate Decided()
      reads this, Frame()
    {
      phase == MatchOver && Permutation(Placing()) && winner < |players| && players[winner].placement == 1
    }

    lemma StandingIs()
      ensures Standing() <==> forall i | 0 <= i < |players| && !players[i].eliminated :: players[i].health > 0
      ensures (forall i | 0 <= i < |players| && Healths()[i] <= 0 :: Out()[i]) ==> Standing()
    {
      if forall i | 0 <= i < |players| && Healths()[i] <= 0 :: Out()[i] {
        forall i | 0 <= i < |players| && !players[i].eliminated
          ensures players[i].health > 0
        {
          assert Healths()[i] == players[i].health && Out()[i] == players[i].eliminated;
        }
      }
    }

    lemma DecidedIs()
      ensures Decided() <==> phase == MatchOver && Permutation(Placing()) && winner < |players| && players[winner].placement == 1
    {
    }

    // ---- Whole matches -------------------------------------------------------------------------------

    // Whatever is done in whatever order: the law holds, and so does everything else.
    method Play(actions: seq<Action>)
      requires Valid() && players != []
      modifies this, Frame()
      ensures Valid()
      ensures old(phase) == MatchOver ==> phase == MatchOver && winner == old(winner) && Views() == old(Views())
      ensures (forall k | 0 <= k < |actions| :: !Brings(actions[k])) ==>
                forall j: nat, x: nat | j < |players| :: players[j].ItemTotal(x) <= old(players[j].ItemTotal(x))
      ensures (forall k | 0 <= k < |actions| :: !Brings(actions[k]) && !actions[k].EquipIt?) ==>
                forall j: nat, x: nat | j < |players| :: players[j].ItemTotal(x) == old(players[j].ItemTotal(x))
    {
      hide *;
      Counted();
      for k := 0 to |actions|
        invariant Valid() && |gifts| == |players|
        invariant (forall m | 0 <= m < k :: !Brings(actions[m])) ==>
                    forall j: nat, x: nat | j < |players| :: players[j].ItemTotal(x) <= old(players[j].ItemTotal(x))
        invariant (forall m | 0 <= m < k :: !Brings(actions[m]) && !actions[m].EquipIt?) ==>
                    forall j: nat, x: nat | j < |players| :: players[j].ItemTotal(x) == old(players[j].ItemTotal(x))
        invariant old(phase) == MatchOver ==> phase == MatchOver && winner == old(winner) && Views() == old(Views())
      {
        Perform(actions[k]);
        Counted();
      }
    }

    // Only these can bring items into the match (or take them out with an eliminated player).
    predicate Brings(a: Action) {
      a.Begin? || a.Advance? || a.Pick? || a.PickChoice?
    }

    lemma RemoversCount(a: Action)
      ensures a.EquipIt? ==> forall x: nat :: One(a.item, x) >= 0
    {
    }

    lemma BringsIs(a: Action)
      ensures Brings(a) <==> a.Begin? || a.Advance? || a.Pick? || a.PickChoice?
    {
    }

    // Seat j really uses up an Item Remover.
    ghost predicate UsesRemover(j: nat, a: Action)
      requires a.EquipIt? && j < |players|
      reads this, Frame()
    {
      && j == a.seat && !players[j].eliminated && (phase == Planning || Fighting()) && Consumes(players[j].roster.defs, a.item)
      && CanEquip(pool.db, players[j].roster.defs, players[j].hasItems, players[j].roster.units, players[j].itemBag, a.unit, a.item)
    }

    // What the other seats carry stays.
    twostate lemma OthersItems(i: nat)
      requires |gifts| == |players| == |old(gifts)| && OnlyAt(i, old(Views()), Views())
      ensures forall j: nat, x: nat | j < |players| && j != i :: players[j].ItemTotal(x) == old(players[j].ItemTotal(x))
      ensures i >= |players| ==> forall j: nat, x: nat | j < |players| :: players[j].ItemTotal(x) == old(players[j].ItemTotal(x))
    {
      forall j: nat, x: nat | j < |players| && j != i
        ensures players[j].ItemTotal(x) == old(players[j].ItemTotal(x))
      {
        assert Views()[j] == old(Views())[j];
        assert players[j].itemBag == old(players[j].itemBag) && players[j].roster.State() == old(players[j].roster.State());
      }
    }

    twostate lemma SameItems()
      requires |gifts| == |players| == |old(gifts)| && Views() == old(Views())
      ensures forall j: nat, x: nat | j < |players| :: players[j].ItemTotal(x) == old(players[j].ItemTotal(x))
    {
      OnlyAtNone(|players|, Views());
      OthersItems(|players|);
    }

    lemma NobodyActsAfterwards()
      ensures phase == MatchOver ==> forall i: nat :: !MayAct(i)
    {
    }

    lemma EquippingIs(i: nat, unit: UnitId, item: ItemId)
      requires |gifts| == |players|
      ensures MayAct(i) <==> i < |players| && !players[i].eliminated && (phase == Planning || Fighting())
      ensures i < |players| ==>
                (CanTakeItem(pool.db, players[i].roster.defs, players[i].hasItems, Views()[i], unit, item)
                 <==> CanEquip(pool.db, players[i].roster.defs, players[i].hasItems, players[i].roster.units, players[i].itemBag, unit, item))
    {
      hide CanEquip;
    }

    lemma RemoverIs(j: nat, a: Action)
      requires a.EquipIt? && j < |players|
      ensures UsesRemover(j, a) <==>
                && j == a.seat && !players[j].eliminated && (phase == Planning || Fighting()) && Consumes(players[j].roster.defs, a.item)
                && CanEquip(pool.db, players[j].roster.defs, players[j].hasItems, players[j].roster.units, players[j].itemBag, a.unit, a.item)
    {
    }

    // A finished match stays as it is; while a fight is on, no player's action moves a fighter; and the item
    // components of every seat stay what they are, but for a remover used up and for what is handed out.
    method Perform(a: Action)
      requires Valid() && players != []
      modifies this, Frame()
      ensures Valid()
      ensures old(phase) == MatchOver ==> phase == MatchOver && winner == old(winner) && Views() == old(Views())
      ensures old(Fighting()) && !a.Begin? && !a.Advance? ==> phase == old(phase) && SameFormations(old(Views()), Views())
      ensures !Brings(a) && !a.EquipIt? ==> forall j: nat, x: nat | j < |players| :: players[j].ItemTotal(x) == old(players[j].ItemTotal(x))
      ensures a.EquipIt? ==> forall j: nat, x: nat | j < |players| ::
                players[j].ItemTotal(x) == old(players[j].ItemTotal(x))
                  - if old(UsesRemover(j, a)) then One(a.item, x) else 0
      ensures !Brings(a) ==> forall j: nat, x: nat | j < |players| :: players[j].ItemTotal(x) <= old(players[j].ItemTotal(x))
      ensures a.Pick? || a.PickChoice? ==> forall j: nat, x: nat | j < |players| :: players[j].ItemTotal(x) >= old(players[j].ItemTotal(x))
    {
      hide *;
      Counted();
      StageIs();
      OnlyAtNone(0, Views());
      BringsIs(a);
      RemoversCount(a);
      NobodyActsAfterwards();
      match a {
        case Begin(costs, motherNature, closed, options) => Start(costs, motherNature, closed, options);
        case Advance(motherNature, closed, options, outcomes) => AdvancePhase(motherNature, closed, options, outcomes);
        case Reroll(i, closed) =>
          var _ := TryRerollShop(i, closed);
          Counted();
          OthersItems(i);
        case LockShop(i, locked) =>
          var _ := TrySetShopLock(i, locked);
          Counted();
          OthersItems(i);
        case BuyUnit(i, slot, closed) =>
          var _ := TryBuyShopUnit(i, slot, closed);
          Counted();
          OthersItems(i);
        case BuyXp(i) =>
          var _ := TryBuyXp(i);
          Counted();
          OthersItems(i);
        case SellIt(i, unit, closed) =>
          var _ := TrySellUnit(i, unit, closed);
          Counted();
          OthersItems(i);
        case MoveIt(i, unit, location, x, y, closed) =>
          var _ := TryMoveUnit(i, unit, location, x, y, closed);
          Counted();
          OthersItems(i);
        case EquipIt(i, unit, item, closed) =>
          forall j: nat | j < |players| {
            RemoverIs(j, a);
          }
          EquippingIs(i, unit, item);
          var _ := TryEquipItem(i, unit, item, closed);
          Counted();
          OthersItems(i);
        case Combine(i, first, second) =>
          var _ := TryCombineItems(i, first, second);
          Counted();
          OthersItems(i);
        case UnequipIt(i, unit, slot, closed) =>
          var _ := TryUnequipItem(i, unit, slot, closed);
          Counted();
          OthersItems(i);
        case Pick(i, index) =>
          var _ := TryPickGift(i, index);
          Counted();
          OthersItems(i);
        case PickChoice(i, option) =>
          var result := TryPickTraitChoice(i, option);
          Counted();
          OthersItems(i);
          if result != Ok {
            SameItems();
          }
      }
    }

    // ---- Diagnostics ---------------------------------------------------------------------------------

    // The copies of champion c add up to its supply. (Only pooled champions have any.)
    ghost predicate Balanced(c: ChampionIndex)
      requires |gifts| == |players|
      reads this, pool, Frame()
    {
      c < |pool.db| && c < |pool.remaining| && c < |pool.initial| &&
      pool.remaining[c] + (if pool.db[c].pooled then Sum(Shares(c)) else 0) == pool.initial[c]
    }

    // The server's own audit: true exactly if the law holds for every pooled champion, and no other has copies.
    method VerifyPoolIntegrity() returns (ok: bool)
      requires |gifts| == |players| && |pool.remaining| == |pool.initial| == |pool.db|
      ensures ok <==> Conserved() && forall c: nat | c < |pool.db| && !pool.db[c].pooled :: pool.remaining[c] == pool.initial[c]
    {
      hide *;
      ok := true;
      for c := 0 to |pool.db|
        invariant forall d: nat | d < |pool.db| :: Balanced(d) == old(Balanced(d))
        invariant ok <==> forall d: nat | d < c :: Balanced(d)
      {
        label Before:
        var balanced := CheckChampion(c);
        assert forall d: nat | d < |pool.db| :: Balanced(d) == old@Before(Balanced(d));
        ok := ok && balanced;
      }
      AllBalanced();
    }

    lemma AllBalanced()
      requires |gifts| == |players| && |pool.remaining| == |pool.initial| == |pool.db|
      ensures (forall d: nat | d < |pool.db| :: Balanced(d)) <==>
                Conserved() && forall c: nat | c < |pool.db| && !pool.db[c].pooled :: pool.remaining[c] == pool.initial[c]
    {
      hide Sum;
      forall c: nat | c < |pool.db|
        ensures Balanced(c) <==> pool.remaining[c] + (if pool.db[c].pooled then Sum(Shares(c)) else 0) == pool.initial[c]
      {
      }
    }

    method CheckChampion(c: ChampionIndex) returns (balanced: bool)
      requires |gifts| == |players| && c < |pool.db| == |pool.remaining| == |pool.initial|
      ensures balanced <==> Balanced(c)
      ensures forall d: nat | d < |pool.db| :: Balanced(d) == old(Balanced(d))
    {
      hide Sum;
      var outstanding := 0;
      if pool.db[c].pooled {
        outstanding := CountOutstanding(c);
      }
      Untouched();
      balanced := pool.remaining[c] + outstanding == pool.initial[c];
    }

    method CountOutstanding(c: ChampionIndex) returns (n: nat)
      requires |gifts| == |players|
      ensures n == Sum(Shares(c))
    {
      hide MatchManager.Valid, Sum, Offered, Weight, OnGift, PlayerState.Own;
      n := 0;
      ghost var shares := Shares(c);
      SumNothing();
      for i := 0 to |players|
        invariant n == Sum(shares[..i])
      {
        SumNext(shares, i);
        assert shares[i] == old(Share(i, c));
        var offered := CountOffered(players[i].shop.slots, c);
        var owned := CountOwned(players[i].roster.units, c);
        var gifted := CountGifts(gifts[i].offers, c);
        n := n + offered + owned + gifted;
      }
      assert shares[..|players|] == shares;
      Untouched();
    }
  }

  lemma CopyIsLeft(db: seq<Champion>, before: seq<int>, after: seq<int>, cost: int, c: ChampionIndex)
    requires Taken(db, before, after, c, 1) && db[c].pooled && Ungated(db)(c) && db[c].cost == cost && after[c] >= 0
    ensures IsLeft(db, before, cost, c) && after == before[c := before[c] - 1]
  {
  }

  lemma {:induction false} NoSuchTier(db: seq<Champion>, tier: int)
    requires ChampionsOk(db) && !(1 <= tier <= MAX_COST_TIER)
    ensures Members(db, tier) == [] && forall remaining, allowed :: DrawableOf(db, remaining, allowed, tier) == 0
  {
    if db != [] {
      NoSuchTier(db[..|db| - 1], tier);
    }
  }

  // A copy that was drawn leaves room for itself.
  lemma OneCopyOut(db: seq<Champion>, before: seq<int>, after: seq<int>, initial: seq<int>, c: ChampionIndex)
    requires Taken(db, before, after, c, 1) && |before| == |initial| && forall k | 0 <= k < |before| :: before[k] <= initial[k]
    ensures c < |db| == |after| == |initial| && after[c] < initial[c]
    ensures forall d: nat | d < |db| :: after[d] + (if d == c then 1 else 0) == before[d]
  {
  }

  lemma SumNothing()
    ensures Sum([]) == 0
  {
  }

  lemma SumNext(xs: seq<nat>, i: nat)
    requires i < |xs|
    ensures Sum(xs[..i + 1]) == Sum(xs[..i]) + xs[i]
  {
    assert xs[..i + 1][..i] == xs[..i];
  }

  lemma PlantGoes(db: seq<Champion>, r: RosterState, unit: UnitId)
    ensures var k := IndexOf(r.units, unit);
            k < |r.units| && IsPlant(db, r.units[k].champion) ==> PlantsAside(db, r, Remove(r, k))
  {
    hide IsPlant;
    var k := IndexOf(r.units, unit);
    if k < |r.units| && IsPlant(db, r.units[k].champion) {
      FightersErase(db, r.units, k);
    }
  }

  lemma PlantGrows(db: seq<Champion>, r: RosterState, plant: ChampionIndex, star: int, x: int, y: int)
    ensures var cell := CellAt(Board, x, y);
            IsPlant(db, plant) && |r.cells| == CELLS ==> PlantsAside(db, r, Append(r, PlantedAt(r, plant, star, cell)))
  {
    hide IsPlant;
    var u := PlantedAt(r, plant, star, CellAt(Board, x, y));
    assert (r.units + [u])[..|r.units|] == r.units;
  }

  // At most so many offers; a living player without any has nothing left to choose.
  predicate Gifted(out: bool, g: PlayerGifts, options: nat) {
    if out then g == PlayerGifts([], false) else |g.offers| <= options && (g.settled <==> g.offers == [])
  }

  function Least0(x: int): nat {
    if x > 0 then x else 0
  }

  function Healing(amount: int, missing: int): int {
    if amount <= 0 || missing <= 0 then 0 else Least(amount, missing)
  }

  ghost predicate Benched(units: seq<UnitInstance>, unit: UnitId) {
    var k := IndexOf(units, unit);
    k < |units| ==> !OnBoard(units[k])
  }

  lemma OnTheBench(units: seq<UnitInstance>, unit: UnitId)
    ensures Benched(units, unit) <==> !(IndexOf(units, unit) < |units| && OnBoard(units[IndexOf(units, unit)]))
  {
  }

  // What a sale does to the board.
  lemma SaleIs(r: RosterState, unit: UnitId)
    ensures var k := IndexOf(r.units, unit);
            && (k < |r.units| && Benched(r.units, unit) ==> BoardOf(Remove(r, k).units) == BoardOf(r.units))
            && (Benched(r.units, unit) <==> (k < |r.units| ==> !OnBoard(r.units[k])))
  {
    hide BoardOf, Remove;
    var k := IndexOf(r.units, unit);
    if k < |r.units| && Benched(r.units, unit) {
      BenchLeaves(r, k);
    }
  }

  lemma BenchMove(db: seq<Champion>, r: RosterState, unit: UnitId, location: Location, x: int, y: int)
    requires Layout(r)
    ensures |r.cells| == CELLS
    ensures location != Board && Benched(r.units, unit) ==> BoardOf(Moved(r, db, unit, location, x, y).0.units) == BoardOf(r.units)
  {
    hide Moved, BoardOf;
    if location != Board && Benched(r.units, unit) {
      BenchMoves(r, db, unit, location, x, y);
    }
  }

  lemma {:induction false} BaringKeepsFormation(r: RosterState, unit: UnitId, n: nat)
    ensures Formation(BaredUpTo(r, unit, n).units) == Formation(r.units)
  {
    hide Unequipped, Formation;
    if n > 0 {
      BaringKeepsFormation(r, unit, n - 1);
      UnequippingKeepsFormation(BaredUpTo(r, unit, n - 1), unit, n - 1);
    }
  }

  lemma BaredIs(r: RosterState, unit: UnitId)
    ensures Bared(r, unit) == BaredUpTo(r, unit, 3)
  {
  }

  datatype Action =
    | Begin(costs: seq<int>, motherNature: bool, closed: bool, options: nat)
    | Advance(motherNature: bool, closed: bool, options: nat, outcomes: seq<Outcome>)
    | Reroll(seat: nat, closed: bool)
    | LockShop(seat: nat, locked: bool)
    | BuyUnit(seat: nat, slot: nat, closed: bool)
    | BuyXp(seat: nat)
    | SellIt(seat: nat, unit: UnitId, closed: bool)
    | MoveIt(seat: nat, unit: UnitId, location: Location, x: int, y: int, closed: bool)
    | EquipIt(seat: nat, unit: UnitId, item: ItemId, closed: bool)
    | Combine(seat: nat, first: ItemId, second: ItemId)
    | UnequipIt(seat: nat, unit: UnitId, slotIndex: int, closed: bool)
    | Pick(seat: nat, index: nat)
    | PickChoice(seat: nat, option: int)

  method CountOffered(slots: seq<Offer>, c: ChampionIndex) returns (n: nat)
    ensures n == Offered(slots, c)
  {
    n := 0;
    for i := 0 to |slots|
      invariant n == Offered(slots[..i], c)
    {
      assert slots[..i + 1][..i] == slots[..i];
      n := n + if slots[i] == Some(c) then 1 else 0;
    }
    assert slots[..|slots|] == slots;
  }

  method CountOwned(units: seq<UnitInstance>, c: ChampionIndex) returns (n: nat)
    ensures n == Weight(units, c)
  {
    n := 0;
    for i := 0 to |units|
      invariant n == Weight(units[..i], c)
    {
      assert units[..i + 1][..i] == units[..i];
      n := n + if units[i].champion == c then Copies(units[i].star) else 0;
    }
    assert units[..|units|] == units;
  }

  method CountGifts(offers: seq<GiftOffer>, c: ChampionIndex) returns (n: nat)
    ensures n == OnGift(offers, c)
  {
    n := 0;
    for i := 0 to |offers|
      invariant n == OnGift(offers[..i], c)
    {
      assert offers[..i + 1][..i] == offers[..i];
      n := n + if offers[i] == UnitGift(c) then 1 else 0;
    }
    assert offers[..|offers|] == offers;
  }

  lemma {:induction false} OnGiftPrefix(offers: seq<GiftOffer>, k: nat, c: ChampionIndex)
    requires k <= |offers|
    ensures OnGift(offers[..k], c) <= OnGift(offers, c)
  {
    if k == |offers| {
      assert offers[..k] == offers;
    } else {
      OnGiftPrefix(offers[..|offers| - 1], k, c);
      assert offers[..|offers| - 1][..k] == offers[..k];
    }
  }

  lemma OffersSplit(db: seq<Champion>, offers: seq<GiftOffer>, k: nat)
    requires k < |offers| && OffersFit(db, offers)
    ensures OffersFit(db, offers[..k] + offers[k + 1..]) && OffersFit(db, [offers[k]])
    ensures forall c: nat :: OnGift(offers[..k] + offers[k + 1..], c) == OnGift(offers, c) - if offers[k] == UnitGift(c) then 1 else 0
  {
    forall c: nat
      ensures OnGift(offers[..k] + offers[k + 1..], c) == OnGift(offers, c) - if offers[k] == UnitGift(c) then 1 else 0
    {
      OnGiftErase(offers, k, c);
    }
  }

  lemma UnitFits(db: seq<Champion>, offer: GiftOffer)
    requires OffersFit(db, [offer]) && offer.UnitGift?
    ensures offer.champion < |db| && db[offer.champion].pooled
  {
    assert [offer][0] == offer;
  }

  lemma NoOffersFit(db: seq<Champion>)
    ensures OffersFit(db, []) && forall c: nat :: OnGift([], c) == 0
  {
  }

  method SortDying(healths: seq<int>, dying: seq<nat>) returns (order: seq<nat>)
    requires Seats(healths, dying)
    ensures order == SortWorst(healths, dying)
  {
    hide Worse;
    order := [];
    for i := |dying| downto 0
      invariant order == SortWorst(healths, dying[i..])
    {
      assert dying[i..][1..] == dying[i + 1..];
      order := PlaceByWorst(healths, order, dying[i]);
    }
  }

  method PlaceByWorst(healths: seq<int>, order: seq<nat>, a: nat) returns (r: seq<nat>)
    requires a < |healths| && Seats(healths, order)
    ensures r == InsertWorst(healths, order, a)
  {
    hide Worse, InsertWorst;
    var i := 0;
    assert order[..0] + InsertWorst(healths, order[0..], a) == InsertWorst(healths, order, a);
    while i < |order| && !Worse(healths, a, order[i])
      invariant 0 <= i <= |order|
      invariant InsertWorst(healths, order, a) == order[..i] + InsertWorst(healths, order[i..], a)
    {
      InsertLater(healths, order[i..], a);
      assert order[i..][1..] == order[i + 1..];
      assert order[..i + 1] == order[..i] + [order[i]];
      i := i + 1;
    }
    InsertNow(healths, order[i..], a);
    r := order[..i] + [a] + order[i..];
    assert r == order[..i] + ([a] + order[i..]);
  }

  lemma InsertLater(healths: seq<int>, order: seq<nat>, a: nat)
    requires a < |healths| && Seats(healths, order) && order != [] && !Worse(healths, a, order[0])
    ensures InsertWorst(healths, order, a) == [order[0]] + InsertWorst(healths, order[1..], a)
  {
  }

  lemma InsertNow(healths: seq<int>, order: seq<nat>, a: nat)
    requires a < |healths| && Seats(healths, order) && (order == [] || Worse(healths, a, order[0]))
    ensures InsertWorst(healths, order, a) == [a] + order
  {
  }

  lemma SeatsAre(healths: seq<int>, order: seq<nat>)
    requires Seats(healths, order)
    ensures forall k | 0 <= k < |order| :: order[k] < |healths|
  {
  }

  lemma DistinctOrder(healths: seq<int>, order: seq<nat>, k: nat)
    requires Seats(healths, order) && WorstFirst(healths, order) && k < |order|
    ensures order[k] !in order[..k]
  {
    forall m | 0 <= m < k
      ensures order[m] != order[k]
    {
      assert Worse(healths, order[m], order[k]);
    }
  }

  // Of those who fell together, whoever is worse off places worse.
  ghost predicate FallInOrder(out0: seq<bool>, out1: seq<bool>, healths: seq<int>, place: seq<int>) {
    && |out0| == |out1| == |healths| == |place|
    && forall i: nat, j: nat | i < |place| && j < |place| && !out0[i] && out1[i] && !out0[j] && out1[j] && Worse(healths, i, j) :: place[i] > place[j]
  }

  // Placements count down along the order.
  lemma InOrder(out0: seq<bool>, out1: seq<bool>, healths: seq<int>, order: seq<nat>, place: seq<int>, alive: int)
    requires |out0| == |out1| == |healths| == |place| && Seats(healths, order) && WorstFirst(healths, order)
    requires forall i: nat | i < |out0| :: out1[i] == (out0[i] || i in order)
    requires forall m | 0 <= m < |order| :: place[order[m]] == alive - m
    ensures FallInOrder(out0, out1, healths, place)
  {
    forall i: nat, j: nat | i < |place| && j < |place| && i in order && j in order && Worse(healths, i, j)
      ensures place[i] > place[j]
    {
      var a :| 0 <= a < |order| && order[a] == i;
      var b :| 0 <= b < |order| && order[b] == j;
      assert b < a ==> Worse(healths, j, i);
    }
  }
}
