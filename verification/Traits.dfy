// The two synergy counts (server/src/Trait.cpp:137-191 and server/src/CombatSimulator.cpp:199-203, 264-272,
// 2164-2193). The match counts on the roster, to pay rewards; the fight counts among its fighters, to
// activate effects. They agree.
module Traits {
  import opened Wrappers
  import opened Items
  import opened ChampionPool
  import opened Roster
  import opened RosterMerge

  type Trait = string

  datatype TraitChampion = TraitChampion(traits: seq<Trait>, summon: bool, plant: bool, combatCapable: bool)

  // ---- Tiers ---------------------------------------------------------------------------------------

  const PRISMATIC_MIN_BREAKPOINTS := 4

  // The last of the first n breakpoints that is reached, counted from 1.
  function Reached(breakpoints: seq<int>, count: int, n: nat): nat
    requires n <= |breakpoints|
  {
    if n == 0 then 0 else if count >= breakpoints[n - 1] then n else Reached(breakpoints, count, n - 1)
  }

  // The top one of a long list is withheld for want of an emblem.
  function Tier(breakpoints: seq<int>, count: int, emblemHolders: int): nat {
    var tier := Reached(breakpoints, count, |breakpoints|);
    if |breakpoints| >= PRISMATIC_MIN_BREAKPOINTS && tier == |breakpoints| && emblemHolders <= 0 then tier - 1 else tier
  }

  // A tier is reached, nothing above it is -- but for a top breakpoint withheld -- and more holders or
  // emblems never lower it.
  lemma TierMeans(breakpoints: seq<int>, count: int, emblemHolders: int)
    ensures var tier := Tier(breakpoints, count, emblemHolders);
            var n := |breakpoints|;
            var withheld := n >= PRISMATIC_MIN_BREAKPOINTS && count >= breakpoints[n - 1] && emblemHolders <= 0;
            && tier <= n
            && (withheld ==> tier == n - 1)
            && (!withheld ==> (tier > 0 ==> count >= breakpoints[tier - 1]) && forall i | tier <= i < n :: count < breakpoints[i])
  {
    ReachedIs(breakpoints, count, |breakpoints|);
  }

  lemma {:induction false} ReachedIs(breakpoints: seq<int>, count: int, n: nat)
    requires n <= |breakpoints|
    ensures var r := Reached(breakpoints, count, n);
            r <= n && (r > 0 ==> count >= breakpoints[r - 1]) && forall i | r <= i < n :: count < breakpoints[i]
  {
    if n > 0 {
      ReachedIs(breakpoints, count, n - 1);
    }
  }

  lemma {:induction false} MoreReachMore(breakpoints: seq<int>, count: int, more: int, n: nat)
    requires n <= |breakpoints| && count <= more
    ensures Reached(breakpoints, count, n) <= Reached(breakpoints, more, n)
  {
    if n > 0 {
      MoreReachMore(breakpoints, count, more, n - 1);
      ReachedIs(breakpoints, count, n);
    }
  }

  lemma MoreNeverLowers(breakpoints: seq<int>, count: int, more: int, emblemHolders: int, moreEmblems: int)
    requires count <= more && emblemHolders <= moreEmblems
    ensures Tier(breakpoints, count, emblemHolders) <= Tier(breakpoints, more, moreEmblems)
  {
    MoreReachMore(breakpoints, count, more, |breakpoints|);
    ReachedIs(breakpoints, count, |breakpoints|);
    ReachedIs(breakpoints, more, |breakpoints|);
  }

  method ActiveTier(breakpoints: seq<int>, count: int, emblemHolders: int) returns (tier: nat)
    ensures tier == Tier(breakpoints, count, emblemHolders)
  {
    tier := 0;
    for i := 0 to |breakpoints|
      invariant tier == Reached(breakpoints, count, i) <= i
    {
      if count >= breakpoints[i] {
        tier := i + 1;
      }
    }
    var prismatic := |breakpoints| >= PRISMATIC_MIN_BREAKPOINTS && tier == |breakpoints|;
    if prismatic && emblemHolders <= 0 {
      tier := tier - 1;
    }
  }

  // ---- Champions by property -----------------------------------------------------------------------

  datatype Counted = Counted(champion: ChampionIndex, extraTraits: seq<Trait>)

  function ChampionOf(u: Counted): ChampionIndex {
    u.champion
  }

  predicate Own(db: seq<TraitChampion>, c: ChampionIndex, t: Trait) {
    c < |db| && t in db[c].traits
  }

  predicate UnitHasTrait(db: seq<TraitChampion>, u: Counted, t: Trait) {
    Own(db, u.champion, t) || t in u.extraTraits
  }

  predicate Counts(db: seq<TraitChampion>, c: ChampionIndex) {
    c < |db| && !db[c].summon && !db[c].plant
  }

  predicate Holder(db: seq<TraitChampion>, u: Counted, t: Trait) {
    Counts(db, u.champion) && UnitHasTrait(db, u, t)
  }

  predicate EmblemHolder(db: seq<TraitChampion>, u: Counted, t: Trait) {
    Counts(db, u.champion) && !Own(db, u.champion, t) && t in u.extraTraits
  }

  // The champions of those with a property.
  ghost function Champions<T>(us: seq<T>, champion: T -> ChampionIndex, p: T -> bool): (s: set<ChampionIndex>)
    ensures forall c: ChampionIndex :: c in s <==> exists i :: 0 <= i < |us| && p(us[i]) && champion(us[i]) == c
  {
    if us == [] then {}
    else
      var init, last := us[..|us| - 1], us[|us| - 1];
      var s := Champions(init, champion, p);
      assert forall i | 0 <= i < |init| :: us[i] == init[i];
      assert forall c: ChampionIndex | c in s :: exists i :: 0 <= i < |us| && p(us[i]) && champion(us[i]) == c by {
        forall c: ChampionIndex | c in s
          ensures exists i :: 0 <= i < |us| && p(us[i]) && champion(us[i]) == c
        {
          var i :| 0 <= i < |init| && p(init[i]) && champion(init[i]) == c;
          assert p(us[i]) && champion(us[i]) == c;
        }
      }
      s + if p(last) then {champion(last)} else {}
  }

  // ---- The match's counts --------------------------------------------------------------------------

  method CountTraitHolders(db: seq<TraitChampion>, units: seq<Counted>, t: Trait) returns (n: nat)
    ensures n == |Champions(units, ChampionOf, u => Holder(db, u, t))|
  {
    var counted: seq<ChampionIndex> := [];
    ghost var p := u => Holder(db, u, t);
    NoneCounted();
    assert units[..0] == [];
    for i := 0 to |units|
      invariant Lists(counted, Champions(units[..i], ChampionOf, p))
    {
      assert units[..i + 1][..i] == units[..i];
      if Holder(db, units[i], t) && units[i].champion !in counted {
        OneMore(counted, Champions(units[..i], ChampionOf, p), units[i].champion);
        counted := counted + [units[i].champion];
      } else {
        assert Champions(units[..i + 1], ChampionOf, p) == Champions(units[..i], ChampionOf, p);
      }
    }
    assert units[..|units|] == units;
    ListedSize(counted, Champions(units, ChampionOf, p));
    n := |counted|;
  }

  method CountEmblemHolders(db: seq<TraitChampion>, units: seq<Counted>, t: Trait) returns (n: nat)
    ensures n == |Champions(units, ChampionOf, u => EmblemHolder(db, u, t))|
  {
    var counted: seq<ChampionIndex> := [];
    ghost var p := u => EmblemHolder(db, u, t);
    NoneCounted();
    assert units[..0] == [];
    for i := 0 to |units|
      invariant Lists(counted, Champions(units[..i], ChampionOf, p))
    {
      assert units[..i + 1][..i] == units[..i];
      if EmblemHolder(db, units[i], t) && units[i].champion !in counted {
        OneMore(counted, Champions(units[..i], ChampionOf, p), units[i].champion);
        counted := counted + [units[i].champion];
      } else {
        assert Champions(units[..i + 1], ChampionOf, p) == Champions(units[..i], ChampionOf, p);
      }
    }
    assert units[..|units|] == units;
    ListedSize(counted, Champions(units, ChampionOf, p));
    n := |counted|;
  }

  // A list without repeats of exactly these champions.
  ghost predicate Lists(list: seq<ChampionIndex>, s: set<ChampionIndex>) {
    (forall i, j | 0 <= i < j < |list| :: list[i] != list[j]) && forall c: ChampionIndex :: c in list <==> c in s
  }

  lemma NoneCounted()
    ensures Lists([], {})
  {
  }

  lemma OneMore(list: seq<ChampionIndex>, s: set<ChampionIndex>, c: ChampionIndex)
    requires Lists(list, s) && c !in list
    ensures Lists(list + [c], s + {c})
  {
  }

  lemma {:induction false} ListedSize(list: seq<ChampionIndex>, s: set<ChampionIndex>)
    requires Lists(list, s)
    ensures |list| == |s|
  {
    if list == [] {
      assert s == {};
    } else {
      var init, last := list[..|list| - 1], list[|list| - 1];
      assert forall c: ChampionIndex :: c in list <==> c in init || c == last;
      ListedSize(init, s - {last});
    }
  }

  // The traits of the items a unit carries.
  function Granted(grants: map<ItemId, seq<Trait>>, items: seq<ItemId>): (ts: seq<Trait>)
    ensures forall t :: t in ts <==> Grants(grants, items, t)
  {
    if items == [] then []
    else
      var init, last := items[..|items| - 1], items[|items| - 1];
      var before := Granted(grants, init);
      assert items == init + [last];
      before + if last != 0 && last in grants then grants[last] else []
  }

  predicate Grants(grants: map<ItemId, seq<Trait>>, items: seq<ItemId>, t: Trait) {
    exists i :: 0 <= i < |items| && items[i] != 0 && items[i] in grants && t in grants[items[i]]
  }

  function Counting(grants: map<ItemId, seq<Trait>>, u: UnitInstance): Counted {
    Counted(u.champion, Granted(grants, u.items))
  }

  function Countings(grants: map<ItemId, seq<Trait>>, units: seq<UnitInstance>): (us: seq<Counted>)
    ensures |us| == |units| && forall i | 0 <= i < |units| :: us[i] == Counting(grants, units[i])
  {
    seq(|units|, i requires 0 <= i < |units| => Counting(grants, units[i]))
  }

  method BoardTraitUnits(grants: map<ItemId, seq<Trait>>, roster: seq<UnitInstance>) returns (units: seq<Counted>)
    ensures units == Countings(grants, BoardOf(roster))
  {
    units := [];
    for i := 0 to |roster|
      invariant units == Countings(grants, BoardOf(roster[..i]))
    {
      assert roster[..i + 1][..i] == roster[..i];
      if OnBoard(roster[i]) {
        var extra: seq<Trait> := [];
        var items := roster[i].items;
        for k := 0 to |items|
          invariant extra == Granted(grants, items[..k])
        {
          assert items[..k + 1][..k] == items[..k];
          if items[k] != 0 && items[k] in grants {
            extra := extra + grants[items[k]];
          }
        }
        assert items[..|items|] == items;
        units := units + [Counted(roster[i].champion, extra)];
      }
    }
    assert roster[..|roster|] == roster;
  }

  // ---- The fight's counts --------------------------------------------------------------------------

  datatype Fighter = Fighter(team: int, unit: Counted)

  // Items add the traits the fighter has not got yet.
  method FighterTraits(db: seq<TraitChampion>, grants: map<ItemId, seq<Trait>>, champion: ChampionIndex, items: seq<ItemId>) returns (u: Counted)
    ensures u.champion == champion
    ensures forall t :: UnitHasTrait(db, u, t) <==> Own(db, champion, t) || Grants(grants, items, t)
  {
    u := Counted(champion, []);
    for i := 0 to |items|
      invariant u.champion == champion
      invariant forall t :: UnitHasTrait(db, u, t) <==> Own(db, champion, t) || Grants(grants, items[..i], t)
    {
      GrantsNext(grants, items, i);
      if items[i] != 0 && items[i] in grants {
        u := AddTraits(db, u, grants[items[i]]);
      }
    }
    assert items[..|items|] == items;
  }

  lemma GrantsNext(grants: map<ItemId, seq<Trait>>, items: seq<ItemId>, i: nat)
    requires i < |items|
    ensures forall t :: Grants(grants, items[..i + 1], t) <==>
              Grants(grants, items[..i], t) || (items[i] != 0 && items[i] in grants && t in grants[items[i]])
  {
    forall t
      ensures Grants(grants, items[..i + 1], t) <==>
                Grants(grants, items[..i], t) || (items[i] != 0 && items[i] in grants && t in grants[items[i]])
    {
      var shorter, longer := items[..i], items[..i + 1];
      assert longer[i] == items[i];
      assert forall k | 0 <= k < i :: longer[k] == shorter[k];
    }
  }

  method AddTraits(db: seq<TraitChampion>, u: Counted, ts: seq<Trait>) returns (v: Counted)
    ensures v.champion == u.champion && forall t :: UnitHasTrait(db, v, t) <==> UnitHasTrait(db, u, t) || t in ts
  {
    v := u;
    for k := 0 to |ts|
      invariant v.champion == u.champion && forall t :: UnitHasTrait(db, v, t) <==> UnitHasTrait(db, u, t) || t in ts[..k]
    {
      if !UnitHasTrait(db, v, ts[k]) {
        v := v.(extraTraits := v.extraTraits + [ts[k]]);
      }
    }
    assert ts[..|ts|] == ts;
  }

  predicate Capable(db: seq<TraitChampion>, c: ChampionIndex) {
    c < |db| && db[c].combatCapable
  }

  // Fighter f stands for board unit u.
  ghost predicate StandsFor(db: seq<TraitChampion>, grants: map<ItemId, seq<Trait>>, f: Fighter, team: int, u: UnitInstance) {
    && f.team == team && f.unit.champion == u.champion
    && forall t :: UnitHasTrait(db, f.unit, t) <==> Own(db, u.champion, t) || Grants(grants, u.items, t)
  }

  // Some combat-capable unit of the board stands behind fighter f.
  ghost predicate Backed(db: seq<TraitChampion>, grants: map<ItemId, seq<Trait>>, f: Fighter, team: int, board: seq<UnitInstance>) {
    exists i :: 0 <= i < |board| && Capable(db, board[i].champion) && StandsFor(db, grants, f, team, board[i])
  }

  ghost predicate Appears(db: seq<TraitChampion>, grants: map<ItemId, seq<Trait>>, fielded: seq<Fighter>, team: int, u: UnitInstance) {
    exists j :: 0 <= j < |fielded| && StandsFor(db, grants, fielded[j], team, u)
  }

  // The fighters of a team are the combat-capable units of its board, whatever their order.
  ghost predicate Fields(db: seq<TraitChampion>, grants: map<ItemId, seq<Trait>>, fielded: seq<Fighter>, team: int, board: seq<UnitInstance>) {
    && (forall j | 0 <= j < |fielded| && fielded[j].team == team :: Backed(db, grants, fielded[j], team, board))
    && (forall i | 0 <= i < |board| && Capable(db, board[i].champion) :: Appears(db, grants, fielded, team, board[i]))
  }

  method FieldTeam(db: seq<TraitChampion>, grants: map<ItemId, seq<Trait>>, roster: seq<UnitInstance>, team: int) returns (fielded: seq<Fighter>)
    ensures Fields(db, grants, fielded, team, BoardOf(roster)) && forall j | 0 <= j < |fielded| :: fielded[j].team == team
  {
    hide StandsFor, Fields, BoardOf, UnitHasTrait, Own, Grants, Capable;
    assert roster[..0] == [];
    fielded := [];
    NobodyFielded(db, grants, team);
    for i := 0 to |roster|
      invariant Fields(db, grants, fielded, team, BoardOf(roster[..i])) && forall j | 0 <= j < |fielded| :: fielded[j].team == team
    {
      BoardNext(roster, i);
      if OnBoard(roster[i]) {
        if Capable(db, roster[i].champion) {
          var unit := FighterTraits(db, grants, roster[i].champion, roster[i].items);
          StandsThere(db, grants, team, unit, roster[i]);
          OneFielded(db, grants, fielded, team, BoardOf(roster[..i]), Fighter(team, unit), roster[i]);
          fielded := fielded + [Fighter(team, unit)];
        } else {
          OneLeftOut(db, grants, fielded, team, BoardOf(roster[..i]), roster[i]);
        }
      }
    }
    assert roster[..|roster|] == roster;
  }

  lemma StandsThere(db: seq<TraitChampion>, grants: map<ItemId, seq<Trait>>, team: int, unit: Counted, u: UnitInstance)
    requires unit.champion == u.champion && forall t :: UnitHasTrait(db, unit, t) <==> Own(db, u.champion, t) || Grants(grants, u.items, t)
    ensures StandsFor(db, grants, Fighter(team, unit), team, u)
  {
  }

  lemma BoardNext(roster: seq<UnitInstance>, i: nat)
    requires i < |roster|
    ensures BoardOf(roster[..i + 1]) == if OnBoard(roster[i]) then BoardOf(roster[..i]) + [roster[i]] else BoardOf(roster[..i])
  {
    assert roster[..i + 1][..i] == roster[..i];
  }

  lemma NobodyFielded(db: seq<TraitChampion>, grants: map<ItemId, seq<Trait>>, team: int)
    ensures Fields(db, grants, [], team, BoardOf([]))
  {
  }

  lemma BackedStill(db: seq<TraitChampion>, grants: map<ItemId, seq<Trait>>, f: Fighter, team: int, board: seq<UnitInstance>, u: UnitInstance)
    requires Backed(db, grants, f, team, board) || (Capable(db, u.champion) && StandsFor(db, grants, f, team, u))
    ensures Backed(db, grants, f, team, board + [u])
  {
    hide StandsFor, Capable;
    if Backed(db, grants, f, team, board) {
      var i :| 0 <= i < |board| && Capable(db, board[i].champion) && StandsFor(db, grants, f, team, board[i]);
      assert (board + [u])[i] == board[i];
    } else {
      assert (board + [u])[|board|] == u;
    }
  }

  lemma AppearsStill(db: seq<TraitChampion>, grants: map<ItemId, seq<Trait>>, fielded: seq<Fighter>, f: Fighter, team: int, u: UnitInstance)
    requires Appears(db, grants, fielded, team, u) || StandsFor(db, grants, f, team, u)
    ensures Appears(db, grants, fielded + [f], team, u)
  {
    hide StandsFor;
    if Appears(db, grants, fielded, team, u) {
      var j :| 0 <= j < |fielded| && StandsFor(db, grants, fielded[j], team, u);
      assert (fielded + [f])[j] == fielded[j];
    } else {
      assert (fielded + [f])[|fielded|] == f;
    }
  }

  lemma OneLeftOut(db: seq<TraitChampion>, grants: map<ItemId, seq<Trait>>, fielded: seq<Fighter>, team: int, board: seq<UnitInstance>, u: UnitInstance)
    requires Fields(db, grants, fielded, team, board) && !Capable(db, u.champion)
    ensures Fields(db, grants, fielded, team, board + [u])
  {
    hide StandsFor, Capable, Backed, Appears;
    forall j | 0 <= j < |fielded| && fielded[j].team == team
      ensures Backed(db, grants, fielded[j], team, board + [u])
    {
      BackedStill(db, grants, fielded[j], team, board, u);
    }
  }

  lemma OneFielded(db: seq<TraitChampion>, grants: map<ItemId, seq<Trait>>, fielded: seq<Fighter>, team: int, board: seq<UnitInstance>, f: Fighter, u: UnitInstance)
    requires Fields(db, grants, fielded, team, board) && Capable(db, u.champion) && StandsFor(db, grants, f, team, u)
    ensures Fields(db, grants, fielded + [f], team, board + [u])
  {
    hide StandsFor, Capable, Backed, Appears;
    var fs, us := fielded + [f], board + [u];
    forall j | 0 <= j < |fs| && fs[j].team == team
      ensures Backed(db, grants, fs[j], team, us)
    {
      BackedStill(db, grants, fs[j], team, board, u);
    }
    forall i | 0 <= i < |us| && Capable(db, us[i].champion)
      ensures Appears(db, grants, fs, team, us[i])
    {
      AppearsStill(db, grants, fielded, f, team, us[i]);
    }
  }

  // Sorting the fighters, or adding the other team's, changes nothing.
  lemma FieldsTogether(db: seq<TraitChampion>, grants: map<ItemId, seq<Trait>>, fielded: seq<Fighter>, all: seq<Fighter>, team: int, board: seq<UnitInstance>)
    requires Fields(db, grants, fielded, team, board)
    requires forall f: Fighter | f.team == team :: f in all <==> f in fielded
    ensures Fields(db, grants, all, team, board)
  {
    forall j | 0 <= j < |all| && all[j].team == team
      ensures Backed(db, grants, all[j], team, board)
    {
      hide Appears, Backed;
      assert all[j] in fielded;
    }
    forall i | 0 <= i < |board| && Capable(db, board[i].champion)
      ensures Appears(db, grants, all, team, board[i])
    {
      hide Backed, UnitHasTrait, Own, Grants;
      assert Appears(db, grants, fielded, team, board[i]);
      var k :| 0 <= k < |fielded| && StandsFor(db, grants, fielded[k], team, board[i]);
      assert fielded[k] in all;
    }
  }

  function FighterChampion(f: Fighter): ChampionIndex {
    f.unit.champion
  }

  predicate Fights(db: seq<TraitChampion>, f: Fighter, team: int) {
    f.team == team && f.unit.champion < |db| && !db[f.unit.champion].plant
  }

  predicate FightHolder(db: seq<TraitChampion>, f: Fighter, team: int, t: Trait) {
    Fights(db, f, team) && UnitHasTrait(db, f.unit, t)
  }

  predicate FightEmblem(db: seq<TraitChampion>, f: Fighter, team: int, t: Trait) {
    FightHolder(db, f, team, t) && !Own(db, f.unit.champion, t)
  }

  // The different champions of a team; plants take part in no count.
  method UniqueChampions(db: seq<TraitChampion>, fielded: seq<Fighter>, team: int) returns (unique: seq<ChampionIndex>)
    ensures Lists(unique, Champions(fielded, FighterChampion, f => Fights(db, f, team)))
  {
    unique := [];
    ghost var p := f => Fights(db, f, team);
    NoneCounted();
    assert fielded[..0] == [];
    for i := 0 to |fielded|
      invariant Lists(unique, Champions(fielded[..i], FighterChampion, p))
    {
      assert fielded[..i + 1][..i] == fielded[..i];
      if Fights(db, fielded[i], team) && fielded[i].unit.champion !in unique {
        OneMore(unique, Champions(fielded[..i], FighterChampion, p), fielded[i].unit.champion);
        unique := unique + [fielded[i].unit.champion];
      } else {
        assert Champions(fielded[..i + 1], FighterChampion, p) == Champions(fielded[..i], FighterChampion, p);
      }
    }
    assert fielded[..|fielded|] == fielded;
  }

  // Champion by champion: it counts if any of its copies has the trait, and only through an emblem if none
  // has it by itself.
  method CountInFight(db: seq<TraitChampion>, fielded: seq<Fighter>, team: int, t: Trait) returns (count: nat, emblems: nat)
    ensures count == |Champions(fielded, FighterChampion, f => FightHolder(db, f, team, t))|
    ensures emblems == |Champions(fielded, FighterChampion, f => FightEmblem(db, f, team, t))|
  {
    var unique := UniqueChampions(db, fielded, team);
    ghost var all := Champions(fielded, FighterChampion, f => Fights(db, f, team));
    ghost var holders: seq<ChampionIndex>, wearers: seq<ChampionIndex> := [], [];
    count, emblems := 0, 0;
    for k := 0 to |unique|
      invariant count == |holders| && emblems == |wearers|
      invariant forall c: ChampionIndex :: c in holders <==> c in unique[..k] && AnyCopy(db, fielded, team, c, t)
      invariant forall c: ChampionIndex :: c in wearers <==> c in unique[..k] && AnyCopy(db, fielded, team, c, t) && !Own(db, c, t)
      invariant Different(holders) && Different(wearers)
    {
      var c := unique[k];
      assert c in all;
      assert c !in unique[..k];
      var has, own := AskCopies(db, fielded, team, c, t);
      if has {
        count, holders := count + 1, holders + [c];
      }
      if has && !own {
        emblems, wearers := emblems + 1, wearers + [c];
      }
    }
    assert unique[..|unique|] == unique;
    HoldersListed(db, fielded, team, t, unique, holders, wearers);
    ListedSize(holders, Champions(fielded, FighterChampion, f => FightHolder(db, f, team, t)));
    ListedSize(wearers, Champions(fielded, FighterChampion, f => FightEmblem(db, f, team, t)));
  }

  ghost predicate Different(list: seq<ChampionIndex>) {
    forall i, j | 0 <= i < j < |list| :: list[i] != list[j]
  }

  // Some copy of the champion on this team has the trait.
  ghost predicate AnyCopy(db: seq<TraitChampion>, fielded: seq<Fighter>, team: int, c: ChampionIndex, t: Trait) {
    exists i :: 0 <= i < |fielded| && fielded[i].team == team && fielded[i].unit.champion == c && UnitHasTrait(db, fielded[i].unit, t)
  }

  method AskCopies(db: seq<TraitChampion>, fielded: seq<Fighter>, team: int, c: ChampionIndex, t: Trait) returns (has: bool, own: bool)
    requires exists i :: 0 <= i < |fielded| && fielded[i].team == team && fielded[i].unit.champion == c
    ensures has <==> AnyCopy(db, fielded, team, c, t)
    ensures own <==> Own(db, c, t)
  {
    has, own := false, false;
    ghost var seen := false;
    for i := 0 to |fielded|
      invariant has <==> exists j :: 0 <= j < i && fielded[j].team == team && fielded[j].unit.champion == c && UnitHasTrait(db, fielded[j].unit, t)
      invariant own <==> seen && Own(db, c, t)
      invariant seen <==> exists j :: 0 <= j < i && fielded[j].team == team && fielded[j].unit.champion == c
    {
      if fielded[i].team == team && fielded[i].unit.champion == c {
        has := has || UnitHasTrait(db, fielded[i].unit, t);
        own := own || Own(db, c, t);
        seen := true;
      }
    }
  }

  lemma HoldersListed(db: seq<TraitChampion>, fielded: seq<Fighter>, team: int, t: Trait, unique: seq<ChampionIndex>, holders: seq<ChampionIndex>, wearers: seq<ChampionIndex>)
    requires Lists(unique, Champions(fielded, FighterChampion, f => Fights(db, f, team))) && Different(holders) && Different(wearers)
    requires forall c: ChampionIndex :: c in holders <==> c in unique && AnyCopy(db, fielded, team, c, t)
    requires forall c: ChampionIndex :: c in wearers <==> c in unique && AnyCopy(db, fielded, team, c, t) && !Own(db, c, t)
    ensures Lists(holders, Champions(fielded, FighterChampion, f => FightHolder(db, f, team, t)))
    ensures Lists(wearers, Champions(fielded, FighterChampion, f => FightEmblem(db, f, team, t)))
  {
    hide UnitHasTrait, Own;
    forall c: ChampionIndex
      ensures c in holders <==> c in Champions(fielded, FighterChampion, f => FightHolder(db, f, team, t))
      ensures c in wearers <==> c in Champions(fielded, FighterChampion, f => FightEmblem(db, f, team, t))
    {
    }
  }

  // ---- They agree ----------------------------------------------------------------------------------

  // The fight's holders are the board's, as far as they can fight. (A roster holds no summons.)
  lemma SynergiesAgree(db: seq<TraitChampion>, grants: map<ItemId, seq<Trait>>, fielded: seq<Fighter>, team: int, board: seq<UnitInstance>, t: Trait)
    requires Fields(db, grants, fielded, team, board)
    requires forall i | 0 <= i < |board| :: board[i].champion < |db| && !db[board[i].champion].summon
    ensures var mine := Champions(Countings(grants, board), ChampionOf, u => Holder(db, u, t));
            Champions(fielded, FighterChampion, f => FightHolder(db, f, team, t)) == set c | c in mine && Capable(db, c)
    ensures var mine := Champions(Countings(grants, board), ChampionOf, u => EmblemHolder(db, u, t));
            Champions(fielded, FighterChampion, f => FightEmblem(db, f, team, t)) == set c | c in mine && Capable(db, c)
  {
    hide Champions;
    var us := Countings(grants, board);
    forall c: ChampionIndex
      ensures c in Champions(fielded, FighterChampion, f => FightHolder(db, f, team, t)) <==>
                c in Champions(us, ChampionOf, u => Holder(db, u, t)) && Capable(db, c)
    {
      HoldersAgree(db, grants, fielded, team, board, t, c);
    }
    forall c: ChampionIndex
      ensures c in Champions(fielded, FighterChampion, f => FightEmblem(db, f, team, t)) <==>
                c in Champions(us, ChampionOf, u => EmblemHolder(db, u, t)) && Capable(db, c)
    {
      HoldersAgree(db, grants, fielded, team, board, t, c);
    }
  }

  // Champion by champion.
  lemma HoldersAgree(db: seq<TraitChampion>, grants: map<ItemId, seq<Trait>>, fielded: seq<Fighter>, team: int, board: seq<UnitInstance>, t: Trait, c: ChampionIndex)
    requires Fields(db, grants, fielded, team, board)
    requires forall i | 0 <= i < |board| :: board[i].champion < |db| && !db[board[i].champion].summon
    ensures var us := Countings(grants, board);
            && (c in Champions(fielded, FighterChampion, f => FightHolder(db, f, team, t)) <==>
                  c in Champions(us, ChampionOf, u => Holder(db, u, t)) && Capable(db, c))
            && (c in Champions(fielded, FighterChampion, f => FightEmblem(db, f, team, t)) <==>
                  c in Champions(us, ChampionOf, u => EmblemHolder(db, u, t)) && Capable(db, c))
  {
    CopiesAgree(db, grants, fielded, team, board, t, c);
    InFight(db, fielded, team, t, c);
    OnBoards(db, grants, board, t, c);
    hide *;
    SomeUnit(db, grants, board, t, c);
  }

  // Some unit of the champion has the trait.
  ghost predicate AnyUnit(db: seq<TraitChampion>, grants: map<ItemId, seq<Trait>>, board: seq<UnitInstance>, c: ChampionIndex, t: Trait) {
    exists i :: 0 <= i < |board| && board[i].champion == c && UnitHasTrait(db, Counting(grants, board[i]), t)
  }

  lemma SomeUnit(db: seq<TraitChampion>, grants: map<ItemId, seq<Trait>>, board: seq<UnitInstance>, t: Trait, c: ChampionIndex)
    requires forall i | 0 <= i < |board| :: board[i].champion < |db| && !db[board[i].champion].summon
    ensures AnyUnit(db, grants, board, c, t) ==> (Counts(db, c) <==> c < |db| && !db[c].plant)
  {
    hide UnitHasTrait, Counting;
  }

  lemma InFight(db: seq<TraitChampion>, fielded: seq<Fighter>, team: int, t: Trait, c: ChampionIndex)
    ensures c in Champions(fielded, FighterChampion, f => FightHolder(db, f, team, t)) <==> AnyCopy(db, fielded, team, c, t) && c < |db| && !db[c].plant
    ensures c in Champions(fielded, FighterChampion, f => FightEmblem(db, f, team, t)) <==>
              AnyCopy(db, fielded, team, c, t) && c < |db| && !db[c].plant && !Own(db, c, t)
  {
    hide UnitHasTrait, Own;
  }

  lemma OnBoards(db: seq<TraitChampion>, grants: map<ItemId, seq<Trait>>, board: seq<UnitInstance>, t: Trait, c: ChampionIndex)
    ensures var us := Countings(grants, board);
            && (c in Champions(us, ChampionOf, u => Holder(db, u, t)) <==> Counts(db, c) && AnyUnit(db, grants, board, c, t))
            && (c in Champions(us, ChampionOf, u => EmblemHolder(db, u, t)) <==> Counts(db, c) && !Own(db, c, t) && AnyUnit(db, grants, board, c, t))
  {
    var us := Countings(grants, board);
    assert forall i | 0 <= i < |board| :: us[i] == Counting(grants, board[i]) && us[i].champion == board[i].champion;
    hide Own, Counting, Counts;
    if Counts(db, c) && AnyUnit(db, grants, board, c, t) {
      var i :| 0 <= i < |board| && board[i].champion == c && UnitHasTrait(db, Counting(grants, board[i]), t);
      assert Holder(db, us[i], t) && (!Own(db, c, t) ==> EmblemHolder(db, us[i], t));
    }
  }

  lemma CopiesAgree(db: seq<TraitChampion>, grants: map<ItemId, seq<Trait>>, fielded: seq<Fighter>, team: int, board: seq<UnitInstance>, t: Trait, c: ChampionIndex)
    requires Fields(db, grants, fielded, team, board)
    ensures AnyCopy(db, fielded, team, c, t) <==> Capable(db, c) && AnyUnit(db, grants, board, c, t)
  {
    hide UnitHasTrait, Capable, Backed, Appears, StandsFor, Counting;
    if AnyCopy(db, fielded, team, c, t) {
      var j :| 0 <= j < |fielded| && fielded[j].team == team && fielded[j].unit.champion == c && UnitHasTrait(db, fielded[j].unit, t);
      UnitBehind(db, grants, fielded[j], team, board, t);
    }
    if Capable(db, c) && AnyUnit(db, grants, board, c, t) {
      var i :| 0 <= i < |board| && board[i].champion == c && UnitHasTrait(db, Counting(grants, board[i]), t);
      FighterFor(db, grants, fielded, team, board[i], t);
    }
  }

  lemma UnitBehind(db: seq<TraitChampion>, grants: map<ItemId, seq<Trait>>, f: Fighter, team: int, board: seq<UnitInstance>, t: Trait)
    requires Backed(db, grants, f, team, board) && UnitHasTrait(db, f.unit, t)
    ensures Capable(db, f.unit.champion) && AnyUnit(db, grants, board, f.unit.champion, t)
  {
    var i :| 0 <= i < |board| && Capable(db, board[i].champion) && StandsFor(db, grants, f, team, board[i]);
    CountingTraits(db, grants, board[i], t);
  }

  lemma FighterFor(db: seq<TraitChampion>, grants: map<ItemId, seq<Trait>>, fielded: seq<Fighter>, team: int, u: UnitInstance, t: Trait)
    requires Appears(db, grants, fielded, team, u) && UnitHasTrait(db, Counting(grants, u), t)
    ensures AnyCopy(db, fielded, team, u.champion, t)
  {
    var j :| 0 <= j < |fielded| && StandsFor(db, grants, fielded[j], team, u);
    CountingTraits(db, grants, u, t);
  }

  lemma CountingTraits(db: seq<TraitChampion>, grants: map<ItemId, seq<Trait>>, u: UnitInstance, t: Trait)
    ensures var v := Counting(grants, u);
            (UnitHasTrait(db, v, t) <==> Own(db, u.champion, t) || Grants(grants, u.items, t)) && (t in v.extraTraits <==> Grants(grants, u.items, t))
  {
  }

  // So the numbers are the same exactly if every holder on the board can fight.
  lemma CountsAgree(db: seq<TraitChampion>, grants: map<ItemId, seq<Trait>>, fielded: seq<Fighter>, team: int, board: seq<UnitInstance>, t: Trait)
    requires Fields(db, grants, fielded, team, board)
    requires forall i | 0 <= i < |board| :: board[i].champion < |db| && !db[board[i].champion].summon
    ensures var mine := Champions(Countings(grants, board), ChampionOf, u => Holder(db, u, t));
            |Champions(fielded, FighterChampion, f => FightHolder(db, f, team, t))| == |mine| <==> forall c | c in mine :: Capable(db, c)
    ensures var mine := Champions(Countings(grants, board), ChampionOf, u => EmblemHolder(db, u, t));
            |Champions(fielded, FighterChampion, f => FightEmblem(db, f, team, t))| == |mine| <==> forall c | c in mine :: Capable(db, c)
  {
    SynergiesAgree(db, grants, fielded, team, board, t);
    CapableOnes(db, Champions(Countings(grants, board), ChampionOf, u => Holder(db, u, t)));
    CapableOnes(db, Champions(Countings(grants, board), ChampionOf, u => EmblemHolder(db, u, t)));
  }

  // The tier the match pays for is the tier the fight activates, if every holder on the board can fight.
  lemma TiersAgree(db: seq<TraitChampion>, grants: map<ItemId, seq<Trait>>, fielded: seq<Fighter>, team: int, board: seq<UnitInstance>, t: Trait,
                   breakpoints: seq<int>)
    requires Fields(db, grants, fielded, team, board)
    requires forall i | 0 <= i < |board| :: board[i].champion < |db| && !db[board[i].champion].summon
    requires forall c | c in Champions(Countings(grants, board), ChampionOf, u => Holder(db, u, t)) :: Capable(db, c)
    ensures var us := Countings(grants, board);
            Tier(breakpoints, |Champions(fielded, FighterChampion, f => FightHolder(db, f, team, t))|, |Champions(fielded, FighterChampion, f => FightEmblem(db, f, team, t))|)
              == Tier(breakpoints, |Champions(us, ChampionOf, u => Holder(db, u, t))|, |Champions(us, ChampionOf, u => EmblemHolder(db, u, t))|)
  {
    hide Tier, Fields;
    var us := Countings(grants, board);
    var holders, wearers := Champions(us, ChampionOf, u => Holder(db, u, t)), Champions(us, ChampionOf, u => EmblemHolder(db, u, t));
    forall c | c in wearers
      ensures c in holders
    {
    }
    hide Champions;
    CountsAgree(db, grants, fielded, team, board, t);
  }

  // One holder that cannot fight: the match counts and pays, the fight does not. The definitions of a data
  // file all have hit points (server/src/ChampionLoader.cpp:1434); a database made from definitions in code
  // asks for combat stats only of summons (server/src/ChampionDatabase.cpp:61, 114), and the fight then
  // leaves the champion out (server/src/CombatSimulator.cpp:200).
  lemma CountsCanDiffer()
    ensures var db, t := [TraitChampion(["Souls"], false, false, false)], "Souls";
            var board: seq<UnitInstance> := [UnitInstance(SERIALS + 1, 0, 1, BENCH_SLOTS, [0, 0, 0])];
            var mine := Champions(Countings(map[], board), ChampionOf, u => Holder(db, u, t));
            var fighting := Champions([], FighterChampion, f => FightHolder(db, f, 0, t));
            && Fields(db, map[], [], 0, board) && BoardOf(board) == board
            && |mine| == 1 && |fighting| == 0 && Tier([1], |mine|, 0) == 1 && Tier([1], |fighting|, 0) == 0
  {
    var db, t := [TraitChampion(["Souls"], false, false, false)], "Souls";
    var board: seq<UnitInstance> := [UnitInstance(SERIALS + 1, 0, 1, BENCH_SLOTS, [0, 0, 0])];
    var us := Countings(map[], board);
    assert Holder(db, us[0], t) && ChampionOf(us[0]) == 0;
    assert Champions(us, ChampionOf, u => Holder(db, u, t)) == {0};
    assert board[..0] == [];
  }

  lemma CapableOnes(db: seq<TraitChampion>, s: set<ChampionIndex>)
    ensures |set c | c in s && Capable(db, c)| == |s| <==> forall c | c in s :: Capable(db, c)
  {
    var part := set c | c in s && Capable(db, c);
    if forall c | c in s :: Capable(db, c) {
      assert part == s;
    } else {
      assert part < s;
      Fewer(part, s);
    }
  }

  lemma Fewer(a: set<ChampionIndex>, b: set<ChampionIndex>)
    requires a < b
    ensures |a| < |b|
  {
    var rest := b - a;
    assert b == a + rest && a !! rest;
    assert rest != {};
  }
}
