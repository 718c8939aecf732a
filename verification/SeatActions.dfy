// What a seat has, and what each of its player's actions makes of it (the actions of
// server/src/MatchManager.cpp, lines 618 to 704): when it is allowed, and what the seat has afterwards.
module SeatActions {
  import opened Wrappers
  import opened Actions
  import opened Items
  import opened ChampionPool
  import opened Roster
  import opened RosterMerge
  import opened RosterLaws
  import opened UnitRosters
  import opened Offers
  import opened Players
  import Traits

  datatype GiftOffer = GoldGift(amount: int) | XpGift(amount: int) | HealGift(amount: int) | ItemGift(item: ItemId) | UnitGift(champion: ChampionIndex)

  datatype PlayerGifts = PlayerGifts(offers: seq<GiftOffer>, settled: bool)

  // Everything a seat has.
  datatype View = View(
    health: int, streak: int, level: int, xp: int, gold: int, eliminated: bool, placement: int, shopLocked: bool, bag: seq<ItemId>,
    unlocked: seq<ChampionIndex>, roster: RosterState, slots: seq<Offer>, gifts: PlayerGifts)

  // ---- What a round's fights cost ------------------------------------------------------------------

  datatype FightWinner = HomeWon | AwayWon | NobodyWon

  // One fight: against another seat, against the ghost of one, or against monsters; and what its loser has to
  // pay for it (0: nothing).
  datatype Outcome = Outcome(home: nat, away: nat, isGhost: bool, monsters: bool, winner: FightWinner, damage: int)

  // What it costs seat i of n. A ghost's owner never pays.
  function DamageTo(o: Outcome, n: nat, i: nat): int {
    if o.damage <= 0 || o.home >= n || (!o.monsters && o.away >= n) then 0
    else if o.winner == AwayWon && i == o.home then o.damage
    else if o.winner == HomeWon && !o.monsters && !o.isGhost && i == o.away then o.damage
    else 0
  }

  // What counts for its streak: fights against monsters do not, and a ghost's owner gains and loses nothing.
  function ResultsOf(o: Outcome, n: nat, i: nat): seq<RoundResult> {
    if o.monsters || o.home >= n || o.away >= n then []
    else
      (if i == o.home then [match o.winner case HomeWon => Win case AwayWon => Loss case NobodyWon => Tie] else [])
      + if i == o.away && !o.isGhost then [match o.winner case HomeWon => Loss case AwayWon => Win case NobodyWon => Tie] else []
  }

  function TotalDamage(os: seq<Outcome>, n: nat, i: nat): int {
    if os == [] then 0 else TotalDamage(os[..|os| - 1], n, i) + DamageTo(os[|os| - 1], n, i)
  }

  function AllResults(os: seq<Outcome>, n: nat, i: nat): seq<RoundResult> {
    if os == [] then [] else AllResults(os[..|os| - 1], n, i) + ResultsOf(os[|os| - 1], n, i)
  }

  // Wins and losses count up from where the other kind is reset; a tie leaves the streak.
  function Streaked(streak: int, result: RoundResult): int {
    match result
    case Win => if streak > 0 then streak + 1 else 1
    case Loss => if streak < 0 then streak - 1 else -1
    case Tie => streak
  }

  function StreakAfter(streak: int, results: seq<RoundResult>): int {
    if results == [] then streak else Streaked(StreakAfter(streak, results[..|results| - 1]), results[|results| - 1])
  }

  // After these fights: the damage of those it lost is off its health, and its streak follows its results.
  predicate Suffers(v: View, os: seq<Outcome>, n: nat, i: nat, w: View) {
    && w.eliminated == v.eliminated && w.health == v.health - (if v.eliminated then 0 else TotalDamage(os, n, i))
    && w.streak == StreakAfter(v.streak, AllResults(os, n, i))
  }

  predicate SuffersOne(v: View, o: Outcome, n: nat, i: nat, w: View) {
    && w.eliminated == v.eliminated && w.health == v.health - (if v.eliminated then 0 else DamageTo(o, n, i))
    && w.streak == StreakAfter(v.streak, ResultsOf(o, n, i))
  }

  function HomeResult(o: Outcome): RoundResult {
    match o.winner case HomeWon => Win case AwayWon => Loss case NobodyWon => Tie
  }

  function AwayResult(o: Outcome): RoundResult {
    match o.winner case HomeWon => Loss case AwayWon => Win case NobodyWon => Tie
  }

  lemma ResultsAre(o: Outcome)
    ensures HomeResult(o) == (match o.winner case HomeWon => Win case AwayWon => Loss case NobodyWon => Tie)
    ensures AwayResult(o) == (match o.winner case HomeWon => Loss case AwayWon => Win case NobodyWon => Tie)
  {
  }

  function Recorded(v: View, result: RoundResult): View {
    v.(streak := Streaked(v.streak, result))
  }

  lemma RecordedIs(v: View, result: RoundResult)
    ensures Recorded(v, result) == v.(streak := match result
                                                case Win => (if v.streak > 0 then v.streak + 1 else 1)
                                                case Loss => (if v.streak < 0 then v.streak - 1 else -1)
                                                case Tie => v.streak)
  {
  }

  function Harmed(v: View, damage: int): View {
    v.(health := v.health - if damage > 0 && !v.eliminated then damage else 0)
  }

  lemma HarmedIs(v: View, damage: int)
    ensures Harmed(v, damage) == v.(health := v.health - if damage > 0 && !v.eliminated then damage else 0)
  {
  }

  // Health, streak and being in the match are as they were.
  predicate SameStanding(v: View, w: View) {
    w.health == v.health && w.streak == v.streak && w.eliminated == v.eliminated
  }

  predicate AllStand(vs: seq<View>, ws: seq<View>) {
    |vs| == |ws| && forall i | 0 <= i < |vs| :: SameStanding(vs[i], ws[i])
  }

  lemma StandsNow(vs: seq<View>)
    ensures AllStand(vs, vs)
  {
  }

  lemma StandsAt(i: nat, vs: seq<View>, ws: seq<View>)
    requires |vs| == |ws| && i < |vs| && SameStanding(vs[i], ws[i]) && forall j | 0 <= j < |vs| && j != i :: ws[j] == vs[j]
    ensures AllStand(vs, ws)
  {
  }

  lemma StandingTwice(us: seq<View>, vs: seq<View>, ws: seq<View>)
    requires AllStand(us, vs) && AllStand(vs, ws)
    ensures AllStand(us, ws)
  {
  }

  lemma NobodySuffers(o: Outcome, vs: seq<View>)
    requires o.home >= |vs| || (!o.monsters && o.away >= |vs|)
    ensures forall i | 0 <= i < |vs| :: SuffersOne(vs[i], o, |vs|, i, vs[i])
  {
  }

  lemma MonstersSettled(o: Outcome, vs: seq<View>, as_: seq<View>, ws: seq<View>)
    requires o.monsters && o.home < |vs| && AllStand(vs, as_)
    requires ws == if o.winner == AwayWon then as_[o.home := Harmed(as_[o.home], o.damage)] else as_
    ensures |ws| == |vs| && forall i | 0 <= i < |vs| :: SuffersOne(vs[i], o, |vs|, i, ws[i])
  {
    forall i | 0 <= i < |vs|
      ensures SuffersOne(vs[i], o, |vs|, i, ws[i])
    {
      assert SameStanding(vs[i], as_[i]);
    }
  }

  lemma SeatsSettled(o: Outcome, vs: seq<View>, as_: seq<View>, ws: seq<View>)
    requires !o.monsters && o.home < |vs| && o.away < |vs|
    requires var v := vs[o.home := Recorded(vs[o.home], HomeResult(o))];
             as_ == if o.isGhost then v else v[o.away := Recorded(v[o.away], AwayResult(o))]
    requires ws == if o.winner == AwayWon then as_[o.home := Harmed(as_[o.home], o.damage)]
                   else if o.winner == HomeWon && !o.isGhost then as_[o.away := Harmed(as_[o.away], o.damage)] else as_
    ensures |ws| == |vs| && forall i | 0 <= i < |vs| :: SuffersOne(vs[i], o, |vs|, i, ws[i])
  {
    hide Streaked, StreakAfter, ResultsOf, HomeResult, AwayResult;
    forall i | 0 <= i < |vs|
      ensures SuffersOne(vs[i], o, |vs|, i, ws[i])
    {
      SeatStreak(o, vs[i].streak, |vs|, i);
    }
  }

  // The home result first, should both seats be the same.
  lemma SeatStreak(o: Outcome, streak: int, n: nat, i: nat)
    requires !o.monsters && o.home < n && o.away < n
    ensures var one := if i == o.home then Streaked(streak, HomeResult(o)) else streak;
            StreakAfter(streak, ResultsOf(o, n, i)) == if i == o.away && !o.isGhost then Streaked(one, AwayResult(o)) else one
  {
    hide Streaked;
    var first, second := if i == o.home then [HomeResult(o)] else [], if i == o.away && !o.isGhost then [AwayResult(o)] else [];
    assert ResultsOf(o, n, i) == first + second;
    StreakGoesOn(streak, first, second);
    OneResult(streak, HomeResult(o));
    OneResult(StreakAfter(streak, first), AwayResult(o));
  }

  lemma OneResult(streak: int, result: RoundResult)
    ensures StreakAfter(streak, [result]) == Streaked(streak, result) && StreakAfter(streak, []) == streak
  {
    assert [result][..0] == [];
  }

  lemma RewardsCostNothing(o: Outcome, vs: seq<View>, ws: seq<View>, xs: seq<View>)
    requires |vs| == |ws| && (forall i | 0 <= i < |vs| :: SuffersOne(vs[i], o, |vs|, i, ws[i])) && AllStand(ws, xs)
    ensures |xs| == |vs| && forall i | 0 <= i < |vs| :: SuffersOne(vs[i], o, |vs|, i, xs[i])
  {
    hide DamageTo, ResultsOf, StreakAfter;
    forall i | 0 <= i < |vs|
      ensures SuffersOne(vs[i], o, |vs|, i, xs[i])
    {
      assert SameStanding(ws[i], xs[i]);
    }
  }

  lemma NothingSuffered(v: View, n: nat, i: nat)
    ensures Suffers(v, [], n, i, v)
  {
  }

  lemma SuffersMore(v: View, os: seq<Outcome>, o: Outcome, n: nat, i: nat, w: View, x: View)
    requires Suffers(v, os, n, i, w) && SuffersOne(w, o, n, i, x)
    ensures Suffers(v, os + [o], n, i, x)
  {
    assert (os + [o])[..|os|] == os;
    hide DamageTo, ResultsOf;
    StreakGoesOn(v.streak, AllResults(os, n, i), ResultsOf(o, n, i));
  }

  lemma {:induction false} StreakGoesOn(streak: int, a: seq<RoundResult>, b: seq<RoundResult>)
    ensures StreakAfter(streak, a + b) == StreakAfter(StreakAfter(streak, a), b)
  {
    if b == [] {
      assert a + b == a;
    } else {
      StreakGoesOn(streak, a, b[..|b| - 1]);
      assert (a + b)[..|a + b| - 1] == a + b[..|b| - 1];
    }
  }

  // A run of n wins (or losses) is a streak of n (or -n) wherever it starts from the other kind or from none.
  lemma {:induction false} RunsAreCounted(streak: int, results: seq<RoundResult>)
    requires results != []
    ensures streak <= 0 && (forall k | 0 <= k < |results| :: results[k] == Win) ==> StreakAfter(streak, results) == |results|
    ensures streak >= 0 && (forall k | 0 <= k < |results| :: results[k] == Loss) ==> StreakAfter(streak, results) == -|results|
  {
    var init := results[..|results| - 1];
    if init == [] {
      assert StreakAfter(streak, init) == streak;
    } else {
      RunsAreCounted(streak, init);
    }
  }

  // The two sides of a fight between seats: whoever loses pays, whoever wins does not, and a tie costs nobody.
  lemma OnlyTheLoserPays(o: Outcome, n: nat)
    requires o.home < n && o.away < n && o.home != o.away && o.damage > 0 && !o.monsters
    ensures DamageTo(o, n, o.home) == if o.winner == AwayWon then o.damage else 0
    ensures DamageTo(o, n, o.away) == if o.winner == HomeWon && !o.isGhost then o.damage else 0
    ensures forall i: nat | i != o.home && i != o.away :: DamageTo(o, n, i) == 0 && ResultsOf(o, n, i) == []
    ensures o.isGhost ==> ResultsOf(o, n, o.away) == []
  {
  }

  // ---- Units that are dealt ------------------------------------------------------------------------

  // A copy that left the pool joins the roster if it can; else it is back in the pool, and paid for if it
  // was a drop.
  ghost predicate Receives(db: seq<Champion>, defs: seq<ItemDef>, refund: bool, before: seq<int>, c: ChampionIndex, v: View, w: View, after: seq<int>) {
    && c < |db| && c < |before| && Seated(v.roster)
    && if MayTakeIn(v.roster, db, defs, c, 1, false) then
         && w == v.(roster := Add(v.roster, db, defs, c, 1).0, bag := v.bag + Overflow(Add(v.roster, db, defs, c, 1).1))
         && after == before[c := before[c] - 1]
       else w == v.(gold := v.gold + if refund && db[c].cost > 0 then db[c].cost else 0) && after == before
  }

  // One champion of this cost that nobody need unlock, as long as one is left.
  ghost predicate IsDealt(db: seq<Champion>, defs: seq<ItemDef>, cost: int, refund: bool, before: seq<int>, v: View, w: View, after: seq<int>) {
    if !InStock(db, Ungated(db), before, cost) then w == v && after == before
    else exists c: nat :: IsLeft(db, before, cost, c) && Receives(db, defs, refund, before, c, v, w, after)
  }

  predicate IsLeft(db: seq<Champion>, before: seq<int>, cost: int, c: nat) {
    c < |db| && c < |before| && db[c].pooled && !db[c].gated && db[c].cost == cost && before[c] > 0
  }

  // One of each cost, in order.
  ghost predicate AreDealt(db: seq<Champion>, defs: seq<ItemDef>, costs: seq<int>, before: seq<int>, v: View, w: View, after: seq<int>)
    decreases |costs|
  {
    if costs == [] then w == v && after == before
    else exists x, mid :: IsDealt(db, defs, costs[0], false, before, v, x, mid) && AreDealt(db, defs, costs[1..], mid, x, w, after)
  }

  ghost predicate GetsOpeningUnits(db: seq<Champion>, defs: seq<ItemDef>, costs: seq<int>, v: View, w: View) {
    exists before, after :: AreDealt(db, defs, costs, before, v, w, after)
  }

  lemma NoneDealt(db: seq<Champion>, defs: seq<ItemDef>, before: seq<int>, v: View)
    ensures AreDealt(db, defs, [], before, v, v, before)
  {
  }

  lemma {:induction false} OneMoreDealt(db: seq<Champion>, defs: seq<ItemDef>, costs: seq<int>, cost: int, before: seq<int>, v: View,
                                        x: View, mid: seq<int>, w: View, after: seq<int>)
    requires AreDealt(db, defs, costs, before, v, x, mid) && IsDealt(db, defs, cost, false, mid, x, w, after)
    ensures AreDealt(db, defs, costs + [cost], before, v, w, after)
    decreases |costs|
  {
    hide IsDealt;
    if costs == [] {
      assert [cost][1..] == [];
      NoneDealt(db, defs, after, w);
    } else {
      var y, m :| IsDealt(db, defs, costs[0], false, before, v, y, m) && AreDealt(db, defs, costs[1..], m, y, x, mid);
      OneMoreDealt(db, defs, costs[1..], cost, m, y, x, mid, w, after);
      assert (costs + [cost])[1..] == costs[1..] + [cost];
    }
  }

  lemma OpeningIs(db: seq<Champion>, defs: seq<ItemDef>, costs: seq<int>, before: seq<int>, v: View, w: View, after: seq<int>)
    requires AreDealt(db, defs, costs, before, v, w, after)
    ensures GetsOpeningUnits(db, defs, costs, v, w)
  {
    hide AreDealt;
  }

  lemma NothingToDeal(db: seq<Champion>, defs: seq<ItemDef>, cost: int, refund: bool, before: seq<int>, v: View)
    requires |before| == |db| && (forall c | 0 <= c < |before| :: before[c] >= 0)
    requires DrawableOf(db, before, Anybody(), cost) <= 0 || DrawableOf(db, before, Ungated(db), cost) <= 0
    ensures IsDealt(db, defs, cost, refund, before, v, v, before)
  {
    StockMeans(db, Anybody(), before, cost);
    StockMeans(db, Ungated(db), before, cost);
    FewerMay(db, before, cost);
    hide DrawableOf, Receives, InStock;
  }

  // Whoever is there for this owner is there for anybody.
  lemma FewerMay(db: seq<Champion>, before: seq<int>, cost: int)
    ensures InStock(db, Ungated(db), before, cost) ==> InStock(db, Anybody(), before, cost)
  {
    if c: nat :| c < |db| && c < |before| && db[c].pooled && db[c].cost == cost && Ungated(db)(c) && before[c] > 0 {
      assert Anybody()(c);
    }
  }

  lemma DealtIs(db: seq<Champion>, defs: seq<ItemDef>, cost: int, refund: bool, before: seq<int>, c: ChampionIndex, v: View, w: View, after: seq<int>)
    requires IsLeft(db, before, cost, c) && Seated(v.roster)
    requires if MayTakeIn(v.roster, db, defs, c, 1, false) then
               && w == v.(roster := Add(v.roster, db, defs, c, 1).0, bag := v.bag + Overflow(Add(v.roster, db, defs, c, 1).1))
               && after == before[c := before[c] - 1]
             else w == v.(gold := v.gold + if refund && db[c].cost > 0 then db[c].cost else 0) && after == before
    ensures IsDealt(db, defs, cost, refund, before, v, w, after)
  {
    hide Seated, MayTakeIn, Add, Overflow;
    assert Receives(db, defs, refund, before, c, v, w, after);
    assert Ungated(db)(c);
  }

  // The rules that follow the board: the champions' traits, the traits that items grant, the special
  // champions and the unlocks. Without trait data nothing but unlocks follows.
  datatype MatchRules = MatchRules(
    traits: bool, champions: seq<Traits.TraitChampion>, grants: map<ItemId, seq<Traits.Trait>>, queens: seq<QueenRule>, unlocks: seq<UnlockRule>)

  // ---- What follows a change of the roster ---------------------------------------------------------

  // Everyone but the plants, as they are.
  function Fighters(db: seq<Champion>, units: seq<UnitInstance>): seq<UnitInstance> {
    if units == [] then []
    else Fighters(db, units[..|units| - 1]) + if IsPlant(db, units[|units| - 1].champion) then [] else [units[|units| - 1]]
  }

  lemma {:induction false} FightersErase(db: seq<Champion>, units: seq<UnitInstance>, k: nat)
    requires k < |units| && IsPlant(db, units[k].champion)
    ensures Fighters(db, Roster.Without(units, k)) == Fighters(db, units)
  {
    var n := |units| - 1;
    var w := Roster.Without(units, k);
    if k == n {
      assert w == units[..n];
    } else {
      FightersErase(db, units[..n], k);
      assert w[..|w| - 1] == Roster.Without(units[..n], k) && w[|w| - 1] == units[n];
    }
  }

  // Plants aside, everybody is still there, and nobody new.
  lemma {:induction false} FightersExact(db: seq<Champion>, units: seq<UnitInstance>, u: UnitInstance)
    ensures u in Fighters(db, units) <==> u in units && !IsPlant(db, u.champion)
  {
    hide IsPlant;
    if units != [] {
      var n := |units| - 1;
      var init, last := units[..n], units[n];
      FightersExact(db, init, u);
      assert Fighters(db, units) == Fighters(db, init) + if IsPlant(db, last.champion) then [] else [last];
      hide Fighters;
      assert units == init + [last];
    }
  }

  // Without plants they are all the units, in order.
  lemma {:induction false} AllAreFighters(db: seq<Champion>, units: seq<UnitInstance>)
    requires forall k | 0 <= k < |units| :: !IsPlant(db, units[k].champion)
    ensures Fighters(db, units) == units
  {
    hide IsPlant;
    if units != [] {
      AllAreFighters(db, units[..|units| - 1]);
    }
  }

  // One special champion takes the first slot if the rule is met and it is not on offer already.
  ghost function QueenSlot(db: seq<Champion>, rules: MatchRules, rule: QueenRule, level: int, units: seq<UnitInstance>, slots: seq<Offer>): seq<Offer> {
    if MayOfferQueen(rules.champions, rules.grants, rule, level, units) && rule.champion < |db| && !IsPlant(db, rule.champion)
       && !db[rule.champion].pooled && slots != [] && Some(rule.champion) !in slots
    then slots[0 := Some(rule.champion)] else slots
  }

  // The first n rules, one after the other.
  ghost function WithQueens(db: seq<Champion>, rules: MatchRules, level: int, units: seq<UnitInstance>, slots: seq<Offer>, n: nat): seq<Offer>
    requires n <= |rules.queens|
  {
    if n == 0 then slots else QueenSlot(db, rules, rules.queens[n - 1], level, units, WithQueens(db, rules, level, units, slots, n - 1))
  }

  // Only the first slot can change, and only to a special champion whose rule is met.
  lemma {:induction false} QueensTakeTheFirstSlot(db: seq<Champion>, rules: MatchRules, level: int, units: seq<UnitInstance>, slots: seq<Offer>, n: nat)
    requires n <= |rules.queens|
    ensures var w := WithQueens(db, rules, level, units, slots, n);
            && |w| == |slots| && (forall i | 1 <= i < |slots| :: w[i] == slots[i])
            && (w != slots ==> exists q :: 0 <= q < n && MayOfferQueen(rules.champions, rules.grants, rules.queens[q], level, units)
                                           && w[0] == Some(rules.queens[q].champion))
  {
    hide MayOfferQueen, IsPlant;
    if n > 0 {
      QueensTakeTheFirstSlot(db, rules, level, units, slots, n - 1);
    }
  }

  // Plants come and go -- not while the board is locked --, then special champions may come on offer -- not
  // in a closed shop --, and what the board and the level unlock is unlocked.
  ghost predicate Follows(db: seq<Champion>, rules: MatchRules, locked: bool, closed: bool, v: View, w: View) {
    && w == v.(roster := w.roster, slots := w.slots, unlocked := w.unlocked)
    && PlantsAside(db, v.roster, w.roster) && (locked || !rules.traits ==> w.roster == v.roster)
    && w.slots == (if closed || !rules.traits then v.slots else WithQueens(db, rules, v.level, w.roster.units, v.slots, |rules.queens|))
    && w.unlocked == v.unlocked + NewUnlocks(db, rules.champions, rules.unlocks, v.level, v.unlocked, w.roster.units, |db|)
  }

  ghost predicate PlantsAside(db: seq<Champion>, r: RosterState, t: RosterState) {
    t.owner == r.owner && t.capacity == r.capacity && Fighters(db, t.units) == Fighters(db, r.units)
  }

  // ---- The actions ---------------------------------------------------------------------------------

  // The slot holds an offer, the player can pay for it, and the unit finds its place -- on a locked board
  // without touching anybody on it.
  ghost predicate CanBuy(db: seq<Champion>, defs: seq<ItemDef>, locked: bool, v: View, slot: nat) {
    && slot < |v.slots| && v.slots[slot].Some? && v.slots[slot].value < |db| && Seated(v.roster)
    && MayTakeIn(v.roster, db, defs, v.slots[slot].value, 1, locked) && v.gold >= Price(db[v.slots[slot].value])
  }

  // It is paid for, its slot is empty, and it has joined the roster; what no longer fits on a merged unit is
  // in the bag.
  ghost predicate Buys(db: seq<Champion>, defs: seq<ItemDef>, v: View, slot: nat, m: View) {
    && slot < |v.slots| && v.slots[slot].Some? && v.slots[slot].value < |db| && Seated(v.roster)
    && var (roster, merges) := Add(v.roster, db, defs, v.slots[slot].value, 1);
       m == v.(gold := v.gold - Price(db[v.slots[slot].value]), slots := v.slots[slot := None], roster := roster, bag := v.bag + Overflow(merges))
  }

  // A unit that is no plant -- while the board is locked, none that stands on it.
  ghost predicate CanSell(db: seq<Champion>, locked: bool, v: View, unit: UnitId) {
    var k := IndexOf(v.roster.units, unit);
    k < |v.roster.units| && !IsPlant(db, v.roster.units[k].champion) && (locked ==> !OnBoard(v.roster.units[k]))
  }

  ghost predicate Sells(db: seq<Champion>, v: View, unit: UnitId, m: View) {
    m == v.(gold := m.gold, bag := m.bag, roster := m.roster) && IsSold(db, v.roster, unit, m.roster, v.gold, m.gold, v.bag, m.bag)
  }

  // Whoever is moved while the board is locked is not on it and does not come to it.
  ghost predicate CanMove(db: seq<Champion>, locked: bool, v: View, unit: UnitId, location: Location, x: int, y: int) {
    var k := IndexOf(v.roster.units, unit);
    MayMove(v.roster, db, unit, location, x, y) && (locked ==> location != Board && (k < |v.roster.units| ==> !OnBoard(v.roster.units[k])))
  }

  ghost predicate Moves(db: seq<Champion>, v: View, unit: UnitId, location: Location, x: int, y: int, m: View) {
    m == v.(roster := m.roster) && IsMove(v.roster, db, unit, location, x, y, m.roster)
  }

  ghost predicate CanTakeItem(db: seq<Champion>, defs: seq<ItemDef>, hasItems: bool, v: View, unit: UnitId, item: ItemId) {
    CanEquip(db, defs, hasItems, v.roster.units, v.bag, unit, item)
  }

  // An Item Remover is used up and gives the unit's items back; any other item leaves the bag and goes onto
  // the unit.
  ghost predicate Equips(defs: seq<ItemDef>, v: View, unit: UnitId, item: ItemId, m: View) {
    && m == v.(bag := m.bag, roster := m.roster)
    && if Consumes(defs, item) then IsBared(v.roster, unit, m.roster) && GivesBack(v.bag, item, v.roster.units, unit, m.bag)
       else EquipsOnto(v.roster, defs, unit, item, m.roster, Ok) && IsOneLess(v.bag, item, m.bag)
  }

  // Two entries of the bag that some recipe combines.
  ghost predicate CanCombine(defs: seq<ItemDef>, v: View, first: ItemId, second: ItemId) {
    TwoEntries(v.bag, first, second) && Pairs(defs, first, second)
  }

  ghost predicate Combines(defs: seq<ItemDef>, v: View, first: ItemId, second: ItemId, m: View) {
    m == v.(bag := m.bag) && IsCombined(defs, v.bag, first, second, m.bag)
  }

  ghost predicate CanTakeOff(locked: bool, v: View, unit: UnitId, slot: int) {
    var k := IndexOf(v.roster.units, unit);
    MayTakeOff(v.roster.units, unit, slot) && (locked && k < |v.roster.units| ==> !OnBoard(v.roster.units[k]))
  }

  ghost predicate TakesOff(v: View, unit: UnitId, slot: int, m: View) {
    m == v.(roster := m.roster, bag := v.bag + [ItemAt(v.roster.units, unit, slot)]) && IsTakenOff(v.roster, unit, slot, m.roster)
  }

  // The reroll is paid for, and a new offer is dealt.
  ghost predicate Rerolls(db: seq<Champion>, odds: seq<int>, cost: int, before: seq<int>, v: View, m: View, after: seq<int>)
    requires |odds| == MAX_COST_TIER
  {
    m == v.(gold := v.gold - cost, slots := m.slots) && NewOffer(db, odds, v.unlocked, before, v.slots, m.slots, after)
  }

  // Experience is bought; the bar stays below what the next level asks for.
  ghost predicate BuysXp(config: PlayerConfig, v: View, m: View)
    requires PlayerConfigOk(config)
  {
    && m == v.(gold := v.gold - config.buyXpCost, level := m.level, xp := m.xp, roster := m.roster)
    && m.roster == v.roster.(capacity := if config.limitBoardToLevel then m.level else BOARD_CELLS)
    && 1 <= v.level <= m.level <= MAX_PLAYER_LEVEL
    && var total := TotalXp(config.xpToNextLevel, v.level, v.xp) + config.buyXpAmount;
       if m.level == MAX_PLAYER_LEVEL then m.xp == 0 && TotalXp(config.xpToNextLevel, m.level, 0) <= total
       else 0 <= m.xp < config.xpToNextLevel[m.level - 1] && TotalXp(config.xpToNextLevel, m.level, m.xp) == total
  }

  // ---- An action and what follows it ---------------------------------------------------------------

  ghost predicate AfterBuying(db: seq<Champion>, defs: seq<ItemDef>, rules: MatchRules, locked: bool, closed: bool, v: View, slot: nat, w: View) {
    exists m :: Buys(db, defs, v, slot, m) && Follows(db, rules, locked, closed, m, w)
  }

  ghost predicate AfterSelling(db: seq<Champion>, rules: MatchRules, locked: bool, closed: bool, v: View, unit: UnitId, w: View) {
    exists m :: Sells(db, v, unit, m) && Follows(db, rules, locked, closed, m, w)
  }

  ghost predicate AfterMoving(db: seq<Champion>, rules: MatchRules, locked: bool, closed: bool, v: View, unit: UnitId, location: Location, x: int, y: int, w: View) {
    exists m :: Moves(db, v, unit, location, x, y, m) && Follows(db, rules, locked, closed, m, w)
  }

  ghost predicate AfterEquipping(db: seq<Champion>, defs: seq<ItemDef>, rules: MatchRules, locked: bool, closed: bool, v: View, unit: UnitId, item: ItemId, w: View) {
    exists m :: Equips(defs, v, unit, item, m) && Follows(db, rules, locked, closed, m, w)
  }

  ghost predicate AfterTakingOff(db: seq<Champion>, rules: MatchRules, locked: bool, closed: bool, v: View, unit: UnitId, slot: int, w: View) {
    exists m :: TakesOff(v, unit, slot, m) && Follows(db, rules, locked, closed, m, w)
  }

  // The special champions stay on offer while their rules are met.
  ghost predicate AfterReroll(db: seq<Champion>, odds: seq<int>, cost: int, rules: MatchRules, before: seq<int>, v: View, w: View)
    requires |odds| == MAX_COST_TIER
  {
    exists m, after :: Rerolls(db, odds, cost, before, v, m, after) && OffersQueens(db, rules, m, w)
  }

  ghost predicate OffersQueens(db: seq<Champion>, rules: MatchRules, m: View, w: View) {
    w == if rules.traits then m.(slots := WithQueens(db, rules, m.level, m.roster.units, m.slots, |rules.queens|)) else m
  }

  // A new level can complete an unlock.
  ghost predicate AfterXp(db: seq<Champion>, config: PlayerConfig, rules: MatchRules, v: View, w: View)
    requires PlayerConfigOk(config)
  {
    exists m :: BuysXp(config, v, m) && UnlocksAll(db, rules, m, w)
  }

  ghost predicate UnlocksAll(db: seq<Champion>, rules: MatchRules, m: View, w: View) {
    w == m.(unlocked := m.unlocked + NewUnlocks(db, rules.champions, rules.unlocks, m.level, m.unlocked, m.roster.units, |db|))
  }

  // ---- Planning begins -----------------------------------------------------------------------------

  // A closed shop is empty; an open one shows a new offer unless its owner locked it.
  ghost predicate OpensShop(db: seq<Champion>, rates: seq<seq<int>>, closed: bool, v: View, m: View) {
    && m == v.(slots := m.slots)
    && if closed then NoOffers(m.slots) else if v.shopLocked then m == v else IsDealtAnew(db, rates, v, m.slots)
  }

  ghost predicate IsDealtAnew(db: seq<Champion>, rates: seq<seq<int>>, v: View, slots: seq<Offer>) {
    exists stock, after :: NewOffer(db, LevelOdds(rates, v.level), v.unlocked, stock, v.slots, slots, after)
  }

  ghost predicate PlanningBegins(db: seq<Champion>, rates: seq<seq<int>>, rules: MatchRules, closed: bool, v: View, w: View) {
    if v.eliminated then w == v else exists m :: OpensShop(db, rates, closed, v, m) && Follows(db, rules, false, closed, m, w)
  }

  lemma OpensShopIs(db: seq<Champion>, rates: seq<seq<int>>, closed: bool, v: View, m: View, stock: seq<int>, after: seq<int>)
    requires m == v.(slots := m.slots)
    requires closed ==> NoOffers(m.slots)
    requires !closed && v.shopLocked ==> m == v
    requires !closed && !v.shopLocked ==> NewOffer(db, LevelOdds(rates, v.level), v.unlocked, stock, v.slots, m.slots, after)
    ensures OpensShop(db, rates, closed, v, m)
  {
    hide NewOffer, NoOffers, LevelOdds;
  }

  lemma PlanningBegun(db: seq<Champion>, rates: seq<seq<int>>, rules: MatchRules, closed: bool, v: View, m: View, w: View)
    requires if v.eliminated then m == v && w == m else OpensShop(db, rates, closed, v, m) && Follows(db, rules, false, closed, m, w)
    ensures PlanningBegins(db, rates, rules, closed, v, w)
  {
    hide OpensShop, Follows;
  }

  // Only what is on offer as a gift can have changed.
  ghost predicate OnlyGifts(vs: seq<View>, ws: seq<View>) {
    |vs| == |ws| && forall i | 0 <= i < |vs| :: ws[i] == vs[i].(gifts := ws[i].gifts)
  }

  lemma OnlyGiftsTwice(us: seq<View>, vs: seq<View>, ws: seq<View>)
    requires OnlyGifts(us, vs) && OnlyGifts(vs, ws)
    ensures OnlyGifts(us, ws)
  {
  }

  lemma OnlyGiftsNow(vs: seq<View>)
    ensures OnlyGifts(vs, vs)
  {
  }

  lemma OnlyGiftsAt(vs: seq<View>, ws: seq<View>)
    requires OnlyGifts(vs, ws)
    ensures |vs| == |ws| && forall i | 0 <= i < |vs| :: ws[i] == vs[i].(gifts := ws[i].gifts)
  {
  }

  // Income: gold and experience, which can only add up.
  ghost predicate Earns(v: View, w: View) {
    && w == v.(gold := w.gold, level := w.level, xp := w.xp, roster := v.roster.(capacity := w.roster.capacity))
    && w.gold >= v.gold && w.level >= v.level && (v.eliminated ==> w == v)
  }

  lemma EarnsNothing(v: View)
    ensures Earns(v, v)
  {
  }

  lemma EarnsIs(v: View, w: View)
    requires w == v.(gold := w.gold, level := w.level, xp := w.xp, roster := w.roster) && w.roster == v.roster.(capacity := w.roster.capacity)
    requires w.gold >= v.gold && w.level >= v.level && !v.eliminated
    ensures Earns(v, w)
  {
  }

  // A round begins with income; then gifts are on offer, or Planning begins.
  ghost predicate RoundBegins(db: seq<Champion>, rates: seq<seq<int>>, rules: MatchRules, motherNature: bool, closed: bool, v: View, w: View) {
    exists e :: Earns(v, e) && if motherNature then w == e.(gifts := w.gifts) else PlanningBegins(db, rates, rules, closed, e, w)
  }

  lemma RoundBegun(db: seq<Champion>, rates: seq<seq<int>>, rules: MatchRules, motherNature: bool, closed: bool, v: View, e: View, w: View)
    requires Earns(v, e) && if motherNature then w == e.(gifts := w.gifts) else PlanningBegins(db, rates, rules, closed, e, w)
    ensures RoundBegins(db, rates, rules, motherNature, closed, v, w)
  {
    hide Earns, PlanningBegins;
  }

  // The match begins: the opening units, then the first round.
  ghost predicate MatchBegins(db: seq<Champion>, defs: seq<ItemDef>, rates: seq<seq<int>>, rules: MatchRules, costs: seq<int>, motherNature: bool,
                              closed: bool, v: View, w: View) {
    exists d ::
      && (if v.eliminated then d == v else GetsOpeningUnits(db, defs, costs, v, d))
      && RoundBegins(db, rates, rules, motherNature, closed, d, w)
  }

  lemma MatchBegun(db: seq<Champion>, defs: seq<ItemDef>, rates: seq<seq<int>>, rules: MatchRules, costs: seq<int>, motherNature: bool,
                   closed: bool, v: View, d: View, w: View)
    requires (if v.eliminated then d == v else GetsOpeningUnits(db, defs, costs, v, d)) && RoundBegins(db, rates, rules, motherNature, closed, d, w)
    ensures MatchBegins(db, defs, rates, rules, costs, motherNature, closed, v, w)
  {
    hide GetsOpeningUnits, RoundBegins;
  }

  // Plants only, then special champions, then unlocks.
  lemma FollowsIs(db: seq<Champion>, rules: MatchRules, locked: bool, closed: bool, v: View, a: View, b: View, w: View)
    requires a == v.(roster := a.roster) && PlantsAside(db, v.roster, a.roster) && (locked || !rules.traits ==> a == v)
    requires if closed then b == a else OffersQueens(db, rules, a, b)
    requires UnlocksAll(db, rules, b, w)
    ensures Follows(db, rules, locked, closed, v, w)
  {
    hide WithQueens, NewUnlocks, PlantsAside;
  }

  // Without traits only unlocks follow.
  lemma NoTraits(db: seq<Champion>, rules: MatchRules, locked: bool, closed: bool, v: View, w: View)
    requires !rules.traits && UnlocksAll(db, rules, v, w)
    ensures Follows(db, rules, locked, closed, v, w)
  {
    hide NewUnlocks;
    PlantsStay(db, v.roster);
  }

  lemma PlantsStay(db: seq<Champion>, r: RosterState)
    ensures PlantsAside(db, r, r)
  {
  }

  lemma PlantsAgain(db: seq<Champion>, r: RosterState, s: RosterState, t: RosterState)
    requires PlantsAside(db, r, s) && PlantsAside(db, s, t)
    ensures PlantsAside(db, r, t)
  {
  }

  lemma QueensOffered(db: seq<Champion>, rules: MatchRules, m: View, w: View)
    ensures OffersQueens(db, rules, m, w) <==>
            w == if rules.traits then m.(slots := WithQueens(db, rules, m.level, m.roster.units, m.slots, |rules.queens|)) else m
  {
    hide WithQueens;
  }

  lemma QueenSlotIs(db: seq<Champion>, rules: MatchRules, rule: QueenRule, v: View)
    ensures QueenSlot(db, rules, rule, v.level, v.roster.units, v.slots) ==
            if MayOfferQueen(rules.champions, rules.grants, rule, v.level, v.roster.units) && rule.champion < |db| && !IsPlant(db, rule.champion)
               && !db[rule.champion].pooled && v.slots != [] && Some(rule.champion) !in v.slots
            then v.slots[0 := Some(rule.champion)] else v.slots
  {
    hide MayOfferQueen, IsPlant;
  }

  lemma UnlocksIs(db: seq<Champion>, rules: MatchRules, m: View, w: View)
    ensures w == m.(unlocked := m.unlocked + NewUnlocks(db, rules.champions, rules.unlocks, m.level, m.unlocked, m.roster.units, |db|)) ==>
              UnlocksAll(db, rules, m, w)
  {
    hide NewUnlocks;
  }

  lemma CanBuyIs(db: seq<Champion>, defs: seq<ItemDef>, locked: bool, v: View, slot: nat)
    requires Seated(v.roster)
    ensures CanBuy(db, defs, locked, v, slot) <==>
            && slot < |v.slots| && v.slots[slot].Some? && v.slots[slot].value < |db|
            && MayTakeIn(v.roster, db, defs, v.slots[slot].value, 1, locked) && v.gold >= Price(db[v.slots[slot].value])
  {
    hide MayTakeIn, Seated, Price;
  }

  lemma BuysIs(db: seq<Champion>, defs: seq<ItemDef>, v: View, slot: nat, m: View)
    requires slot < |v.slots| && v.slots[slot].Some? && v.slots[slot].value < |db| && Seated(v.roster)
    requires var (roster, merges) := Add(v.roster, db, defs, v.slots[slot].value, 1);
             m == v.(gold := v.gold - Price(db[v.slots[slot].value]), slots := v.slots[slot := None], roster := roster, bag := v.bag + Overflow(merges))
    ensures Buys(db, defs, v, slot, m)
  {
    hide Seated, Price, Add, Overflow;
  }

  lemma CanSellIs(db: seq<Champion>, locked: bool, v: View, unit: UnitId)
    ensures var k := IndexOf(v.roster.units, unit);
            CanSell(db, locked, v, unit) <==> k < |v.roster.units| && !IsPlant(db, v.roster.units[k].champion) && (locked ==> !OnBoard(v.roster.units[k]))
  {
    hide IndexOf, IsPlant, OnBoard;
  }

  lemma SellsIs(db: seq<Champion>, v: View, unit: UnitId, m: View)
    requires m == v.(gold := m.gold, bag := m.bag, roster := m.roster) && IsSold(db, v.roster, unit, m.roster, v.gold, m.gold, v.bag, m.bag)
    ensures Sells(db, v, unit, m)
  {
    hide IsSold;
  }

  lemma CanMoveIs(db: seq<Champion>, locked: bool, v: View, unit: UnitId, location: Location, x: int, y: int)
    ensures var k := IndexOf(v.roster.units, unit);
            CanMove(db, locked, v, unit, location, x, y) <==>
            MayMove(v.roster, db, unit, location, x, y) && (locked ==> location != Board && (k < |v.roster.units| ==> !OnBoard(v.roster.units[k])))
  {
    hide IndexOf, MayMove, OnBoard;
  }

  lemma MovesIs(db: seq<Champion>, v: View, unit: UnitId, location: Location, x: int, y: int, m: View)
    requires m == v.(roster := m.roster) && IsMove(v.roster, db, unit, location, x, y, m.roster)
    ensures Moves(db, v, unit, location, x, y, m)
  {
    hide IsMove;
  }

  lemma CanTakeItemIs(db: seq<Champion>, defs: seq<ItemDef>, hasItems: bool, v: View, unit: UnitId, item: ItemId)
    ensures CanTakeItem(db, defs, hasItems, v, unit, item) <==> CanEquip(db, defs, hasItems, v.roster.units, v.bag, unit, item)
  {
    hide CanEquip;
  }

  lemma EquipsIs(defs: seq<ItemDef>, v: View, unit: UnitId, item: ItemId, m: View)
    requires m == v.(bag := m.bag, roster := m.roster)
    requires Consumes(defs, item) ==> IsBared(v.roster, unit, m.roster) && GivesBack(v.bag, item, v.roster.units, unit, m.bag)
    requires !Consumes(defs, item) ==> EquipsOnto(v.roster, defs, unit, item, m.roster, Ok) && IsOneLess(v.bag, item, m.bag)
    ensures Equips(defs, v, unit, item, m)
  {
    hide Consumes, IsBared, GivesBack, EquipsOnto, IsOneLess;
  }

  lemma CombinesIs(defs: seq<ItemDef>, v: View, first: ItemId, second: ItemId, m: View)
    ensures CanCombine(defs, v, first, second) <==> TwoEntries(v.bag, first, second) && Pairs(defs, first, second)
    ensures m == v.(bag := m.bag) && IsCombined(defs, v.bag, first, second, m.bag) ==> Combines(defs, v, first, second, m)
  {
    hide TwoEntries, Pairs, IsCombined;
  }

  lemma TakesOffIs(locked: bool, v: View, unit: UnitId, slot: int, m: View)
    ensures var k := IndexOf(v.roster.units, unit);
            CanTakeOff(locked, v, unit, slot) <==> MayTakeOff(v.roster.units, unit, slot) && (locked && k < |v.roster.units| ==> !OnBoard(v.roster.units[k]))
    ensures m == v.(roster := m.roster, bag := v.bag + [ItemAt(v.roster.units, unit, slot)]) && IsTakenOff(v.roster, unit, slot, m.roster) ==>
              TakesOff(v, unit, slot, m)
  {
    hide IndexOf, MayTakeOff, OnBoard, IsTakenOff, ItemAt;
  }

  lemma RerollsIs(db: seq<Champion>, odds: seq<int>, cost: int, before: seq<int>, v: View, m: View, after: seq<int>)
    requires |odds| == MAX_COST_TIER
    requires m == v.(gold := v.gold - cost, slots := m.slots) && NewOffer(db, odds, v.unlocked, before, v.slots, m.slots, after)
    ensures Rerolls(db, odds, cost, before, v, m, after)
  {
    hide NewOffer;
  }

  lemma BuysXpIs(config: PlayerConfig, v: View, m: View)
    requires PlayerConfigOk(config)
    requires m == v.(gold := v.gold - config.buyXpCost, level := m.level, xp := m.xp, roster := m.roster)
    requires m.roster == v.roster.(capacity := if config.limitBoardToLevel then m.level else BOARD_CELLS)
    requires 1 <= v.level <= m.level <= MAX_PLAYER_LEVEL
    requires m.level == MAX_PLAYER_LEVEL ==> m.xp == 0
    requires m.level < MAX_PLAYER_LEVEL ==> 0 <= m.xp < config.xpToNextLevel[m.level - 1]
    requires var total := TotalXp(config.xpToNextLevel, v.level, v.xp) + config.buyXpAmount;
             if m.level == MAX_PLAYER_LEVEL then TotalXp(config.xpToNextLevel, m.level, 0) <= total else TotalXp(config.xpToNextLevel, m.level, m.xp) == total
    ensures BuysXp(config, v, m)
  {
    hide TotalXp;
  }

  lemma BuyingLeads(db: seq<Champion>, defs: seq<ItemDef>, rules: MatchRules, locked: bool, closed: bool, v: View, slot: nat, m: View, w: View)
    requires Buys(db, defs, v, slot, m) && Follows(db, rules, locked, closed, m, w)
    ensures AfterBuying(db, defs, rules, locked, closed, v, slot, w)
  {
    hide Buys, Follows;
  }

  lemma SellingLeads(db: seq<Champion>, rules: MatchRules, locked: bool, closed: bool, v: View, unit: UnitId, m: View, w: View)
    requires Sells(db, v, unit, m) && Follows(db, rules, locked, closed, m, w)
    ensures AfterSelling(db, rules, locked, closed, v, unit, w)
  {
    hide Sells, Follows;
  }

  lemma MovingLeads(db: seq<Champion>, rules: MatchRules, locked: bool, closed: bool, v: View, unit: UnitId, location: Location, x: int, y: int, m: View, w: View)
    requires Moves(db, v, unit, location, x, y, m) && Follows(db, rules, locked, closed, m, w)
    ensures AfterMoving(db, rules, locked, closed, v, unit, location, x, y, w)
  {
    hide Moves, Follows;
  }

  lemma EquippingLeads(db: seq<Champion>, defs: seq<ItemDef>, rules: MatchRules, locked: bool, closed: bool, v: View, unit: UnitId, item: ItemId, m: View, w: View)
    requires Equips(defs, v, unit, item, m) && Follows(db, rules, locked, closed, m, w)
    ensures AfterEquipping(db, defs, rules, locked, closed, v, unit, item, w)
  {
    hide Equips, Follows;
  }

  lemma TakingOffLeads(db: seq<Champion>, rules: MatchRules, locked: bool, closed: bool, v: View, unit: UnitId, slot: int, m: View, w: View)
    requires TakesOff(v, unit, slot, m) && Follows(db, rules, locked, closed, m, w)
    ensures AfterTakingOff(db, rules, locked, closed, v, unit, slot, w)
  {
    hide TakesOff, Follows;
  }

  lemma RerollLeads(db: seq<Champion>, odds: seq<int>, cost: int, rules: MatchRules, before: seq<int>, v: View, m: View, after: seq<int>, w: View)
    requires |odds| == MAX_COST_TIER && Rerolls(db, odds, cost, before, v, m, after) && OffersQueens(db, rules, m, w)
    ensures AfterReroll(db, odds, cost, rules, before, v, w)
  {
    hide Rerolls, OffersQueens;
  }

  lemma XpLeads(db: seq<Champion>, config: PlayerConfig, rules: MatchRules, v: View, m: View, w: View)
    requires PlayerConfigOk(config) && BuysXp(config, v, m) && UnlocksAll(db, rules, m, w)
    ensures AfterXp(db, config, rules, v, w)
  {
    hide BuysXp, UnlocksAll;
  }

  // Going through a list of queens is going through it one by one.
  lemma NoQueens(db: seq<Champion>, rules: MatchRules, level: int, units: seq<UnitInstance>, slots: seq<Offer>)
    ensures WithQueens(db, rules, level, units, slots, 0) == slots
  {
  }

  lemma OneMoreQueen(db: seq<Champion>, rules: MatchRules, level: int, units: seq<UnitInstance>, slots: seq<Offer>, n: nat)
    requires n < |rules.queens|
    ensures WithQueens(db, rules, level, units, slots, n + 1) == QueenSlot(db, rules, rules.queens[n], level, units, WithQueens(db, rules, level, units, slots, n))
  {
  }
}
