// What a tick's casts, schedule, hits, statuses and last words come to (server/src/CombatSimulator.cpp:856-995,
// 1015-1200, 1298-1500, 1541-1682, 1780-1796, 2055-2152, 2452-2479), on values: who can be reached, where a dive
// or a push ends, what each effect makes of its targets, and everything one after the other.
module CombatEffects {
  import opened Hex
  import opened CombatLog
  import opened Pathfinder
  import opened Dots
  import opened CombatState
  import opened CombatSteps
  import opened CombatRules
  import opened Arithmetic

  const TICKS_PER_SECOND := 30
  const MAX_HOOK_ROUNDS := 8

  // ---- What the data and the dice say --------------------------------------------------------------

  // All there is to know when something is computed: the units, everything that has happened, and where the
  // dice stand. They are thrown anew for every run of an effect.
  datatype Scene = Scene(units: seq<FightUnit>, log: seq<Event>, dice: int, tick: int)

  // What triggers can listen to, hits aside.
  datatype Moment = OnInterval | OnTeamHpLoss | OnAttack(by_: int) | OnCast(by_: int) | OnDeathOf(unit: int) | OnAnyDeath(dead: seq<int>)

  // A trigger that listens, who holds it, and on whom it fires.
  datatype Firing = Firing(slot: TriggerSlot, holder: int, target: int)

  // Every formula, selector, condition and roll of the fight, as a function of what it depends on. Nothing is
  // known about these functions; what is done with what they say is the model's business.
  datatype Numbers = Numbers(
    castsFirst: (Scene, int) -> bool,                             // a unit with a full mana bar
    attackDamage: (Scene, int) -> int,
    attackSpread: (Scene, int) -> int,                            // over so many ticks; 0: one hit
    attackInterval: (Scene, int) -> int,
    attackRider: (Scene, int) -> seq<Effect>,                     // what comes with every attack
    castsNow: (Scene, int) -> bool,                               // the ability that comes with every Nth attack
    mitigated: (Scene, Hit) -> int,                               // amplification, armor / resistance, damage taken
    rewarding: (Scene, Hit) -> bool,                              // a kill by it gains statuses
    killRewards: (Scene, int) -> seq<Effect>,
    prevented: (Scene, CastRecord, Effect) -> bool,
    targets: (Scene, CastRecord, Effect) -> seq<int>,
    centre: (Scene, CastRecord, Effect) -> HexCoord,
    roll: (Scene, CastRecord, Payload, int) -> Roll,
    helper: (Scene, int) -> int,                                  // the ally that strikes in the caster's stead
    strike: (Scene, int, int) -> int,
    firings: (Scene, Moment) -> seq<Firing>)

  // They, and the change that sudden death makes to heals.
  datatype Law = Law(cut: int, numbers: Numbers)

  // The numbers that formulas and dice come to for one target.
  datatype Roll = Roll(amount: int, length: int, cap: int, bounced: int)

  function SceneOf(s: FightState, tick: int): Scene {
    Scene(s.units, s.log, s.dice, tick)
  }

  function Listed(es: seq<Effect>): (r: seq<Effect>)
    ensures EffectsOk(r)
  {
    if EffectsOk(es) then es else []
  }

  // ---- One after the other -------------------------------------------------------------------------

  // From s to t in one step for each item, in this order.
  ghost predicate InOrder<T(!new)>(s: FightState, items: seq<T>, step: (FightState, T, FightState) -> bool, t: FightState) {
    if items == [] then t == s
    else
      var init, last := items[..|items| - 1], items[|items| - 1];
      exists w :: InOrder(s, init, step, w) && step(w, last, t)
  }

  lemma NoSteps<T(!new)>(s: FightState, items: seq<T>, step: (FightState, T, FightState) -> bool)
    ensures items[..0] == [] && InOrder(s, items[..0], step, s)
  {
    assert items[..0] == [];
  }

  lemma OneStepMore<T(!new)>(s: FightState, items: seq<T>, k: nat, step: (FightState, T, FightState) -> bool, w: FightState, t: FightState)
    requires k < |items| && InOrder(s, items[..k], step, w) && step(w, items[k], t)
    ensures InOrder(s, items[..k + 1], step, t)
    ensures k + 1 == |items| ==> items[..k + 1] == items
  {
    var done := items[..k + 1];
    assert done[..|done| - 1] == items[..k] && done[|done| - 1] == items[k];
  }

  lemma AllSteps<T(!new)>(s: FightState, items: seq<T>, step: (FightState, T, FightState) -> bool, t: FightState)
    requires InOrder(s, items[..|items|], step, t)
    ensures InOrder(s, items, step, t)
  {
    assert items[..|items|] == items;
  }

  // If every step only continues the fight, so do all of them.
  lemma {:induction false} InOrderContinues<T(!new)>(s: FightState, items: seq<T>, step: (FightState, T, FightState) -> bool, t: FightState)
    requires InOrder(s, items, step, t)
    requires forall a, x, b | step(a, x, b) :: Continues(a, b)
    ensures Continues(s, t)
  {
    hide Continues;
    if items == [] {
      ContinuesRefl(s);
    } else {
      var w :| InOrder(s, items[..|items| - 1], step, w) && step(w, items[|items| - 1], t);
      InOrderContinues(s, items[..|items| - 1], step, w);
      ContinuesTrans(s, w, t);
    }
  }

  // ---- Choosing ------------------------------------------------------------------------------------

  datatype Score = Out | In(value: int)

  // The first of the highest scores; -1 if nobody is in.
  ghost predicate FirstBest(scores: seq<Score>, best: int) {
    && (best == -1 || (0 <= best < |scores| && scores[best].In?))
    && forall k | 0 <= k < |scores| && scores[k].In? && k != best ::
         best >= 0 && (scores[best].value > scores[k].value || (scores[best].value == scores[k].value && best < k))
  }

  lemma FirstBestIsDetermined(scores: seq<Score>, a: int, b: int)
    requires FirstBest(scores, a) && FirstBest(scores, b)
    ensures a == b
  {
  }

  method PickBest(scores: seq<Score>) returns (best: int)
    ensures FirstBest(scores, best)
  {
    best := -1;
    for k := 0 to |scores|
      invariant -1 <= best < k && FirstBest(scores[..k], best)
    {
      assert forall m | 0 <= m < k :: scores[..k + 1][m] == scores[..k][m];
      if scores[k].In? && (best < 0 || scores[k].value > scores[best].value) {
        best := k;
      }
    }
    assert scores[..|scores|] == scores;
  }

  // ---- Who can be reached --------------------------------------------------------------------------

  // No enemy effect of any kind can reach an untargetable unit, or one inside a mech.
  predicate Affectable(u: FightUnit) {
    !HasStatus(u, Untargetable) && !HasStatus(u, Piloting)
  }

  predicate Reachable(units: seq<FightUnit>, caster: int, t: int) {
    && 0 <= caster < |units| && 0 <= t < |units| && units[t].alive
    && (units[t].team == units[caster].team || Affectable(units[t]))
  }

  ghost predicate AllReachable(units: seq<FightUnit>, caster: int, targets: seq<int>) {
    forall k | 0 <= k < |targets| :: Reachable(units, caster, targets[k])
  }

  lemma NobodyTargeted(s: FightState, units: seq<FightUnit>, caster: int)
    ensures LiveTargets(s, []) && AllReachable(units, caster, [])
  {
  }

  lemma OneTargetMore(s: FightState, units: seq<FightUnit>, caster: int, targets: seq<int>, x: int)
    requires LiveTargets(s, targets) && AllReachable(units, caster, targets) && s.units == units
    requires 0 <= caster < |units| && 0 <= x < |units| && units[x].alive && (units[x].team == units[caster].team || Affectable(units[x]))
    ensures LiveTargets(s, targets + [x]) && AllReachable(units, caster, targets + [x])
  {
    hide Affectable;
  }

  // ---- Dives ---------------------------------------------------------------------------------------

  predicate DivesByDistance(destination: Destination) {
    destination == BehindFarthestEnemy || destination == BehindClosestEnemy
  }

  // How much unit i wants to dive to unit j.
  function DiveScore(units: seq<FightUnit>, i: nat, destination: Destination, castTarget: int, j: nat): Score
    requires i < |units| && j < |units|
  {
    var u, v := units[i], units[j];
    if !v.alive || v.team == u.team || (!DivesByDistance(destination) && !Affectable(v)) then Out
    else
      match destination
      case BehindFarthestEnemy => In(Distance(u.pos, v.pos))
      case BehindClosestEnemy => In(-(Distance(u.pos, v.pos) as int))
      case NextToLowestHpEnemy => In(-v.hp)
      case NextToHighestHpEnemy => In(v.hp)
      case BehindCurrentTarget => if j == castTarget then In(0) else Out
  }

  function DiveScores(units: seq<FightUnit>, i: nat, destination: Destination, castTarget: int): (scores: seq<Score>)
    requires i < |units|
    ensures |scores| == |units| && forall j | 0 <= j < |units| :: scores[j] == DiveScore(units, i, destination, castTarget, j)
  {
    seq(|units|, j requires 0 <= j < |units| => DiveScore(units, i, destination, castTarget, j))
  }

  predicate ArenaGrid(g: Grid) {
    g.Valid() && g.width == ARENA_COLUMNS && g.height == ARENA_ROWS
  }

  // The same fight with other units.
  function WithUnits(s: FightState, units: seq<FightUnit>): FightState {
    s.(units := units, members := MembersOf(units))
  }

  // Unit i dives to the enemy its rule picks, onto the free hex there that is farthest from where it stood;
  // it stays if there is nobody or no room.
  ghost predicate Dives(s: FightState, i: int, destination: Destination, castTarget: int, tick: int, t: FightState) {
    && 0 <= i < |s.units| && ArenaGrid(s.grid)
    && (!s.units[i].alive ==> t == s)
    && (s.units[i].alive ==> exists enemy :: FirstBest(DiveScores(s.units, i, destination, castTarget), enemy) && DivesTo(s, i, destination, enemy, tick, t))
  }

  ghost predicate DivesTo(s: FightState, i: int, destination: Destination, enemy: int, tick: int, t: FightState)
    requires 0 <= i < |s.units| && ArenaGrid(s.grid) && enemy < |s.units|
  {
    var u := s.units[i];
    if enemy < 0 || NoSpot(s.grid, s.units[enemy].pos, 1, 2) then t == s
    else
      && i < |t.units|
      && var to := t.units[i].pos;
         && BestLanding(s.grid, s.units[enemy].pos, u.pos, to)
         && t == WithUnits(s, s.units[i := u.(pos := to, target := if DivesByDistance(destination) then -1 else enemy, path := [], pathIndex := 0)])
                   .(log := s.log + [Teleport(tick, u.id, u.pos, to, 0)], grid := t.grid)
  }

  // ---- Pulls and knock-backs -----------------------------------------------------------------------

  // Toward or away from the caster at `other`, or toward the centre of an area. DIRECTIONS: the unit
  // already stands there.
  function PushDirection(direction: PushSense, from: HexCoord, other: HexCoord, centre: HexCoord): (d: nat)
    ensures d < DIRECTIONS || (d == DIRECTIONS && direction == TowardAreaCenter && from == centre)
  {
    match direction
    case TowardCaster => DirectionToward(from, other)
    case AwayFromCaster => DirectionToward(other, from)
    case TowardAreaCenter => if from == centre then DIRECTIONS else DirectionToward(from, centre)
  }

  // Where the push ends.
  function Pushed(g: Grid, from: HexCoord, direction: PushSense, other: HexCoord, centre: HexCoord, hexes: int): HexCoord
    requires g.Valid()
  {
    var d := PushDirection(direction, from, other, centre);
    if d == DIRECTIONS then from else Slid(g, from, d, hexes)
  }

  // Going on in a direction that came closer keeps going away, one hex a step.
  lemma NormAway(dq: int, dr: int, d: nat, k: nat)
    requires d < DIRECTIONS && Norm(dq - AxialStep(d).0, dr - AxialStep(d).1) == Norm(dq, dr) - 1
    ensures Norm(dq + k * AxialStep(d).0, dr + k * AxialStep(d).1) == Norm(dq, dr) + k
  {
  }

  // Going on in a direction that comes closer stays closer for as many steps as it was far.
  lemma NormToward(dq: int, dr: int, d: nat, k: nat)
    requires d < DIRECTIONS && Norm(dq - AxialStep(d).0, dr - AxialStep(d).1) == Norm(dq, dr) - 1
    requires 1 <= k <= Norm(dq, dr)
    ensures Norm(dq, dr) - k <= Norm(dq - k * AxialStep(d).0, dr - k * AxialStep(d).1) < Norm(dq, dr)
  {
  }

  // Every hex of a knock-back is one hex farther from whoever made it.
  lemma PushGoesAway(g: Grid, other: HexCoord, from: HexCoord, hexes: int)
    requires g.Valid() && other != from
    ensures var to := Pushed(g, from, AwayFromCaster, other, from, hexes);
            Distance(other, to) == Distance(other, from) + Distance(from, to)
  {
    hide Slid, Along, ToAxial, Distance, DirectionToward, Norm, AxialStep, Neighbor;
    var d := DirectionToward(other, from);
    var k := SlidesStraight(g, from, d, hexes);
    DirectionTowardApproaches(other, from);
    NeighborIsAxialStep(other, d);
    AlongAxial(from, d, k);
    DistanceIsNorm(from, other);
    DistanceIsNorm(from, Neighbor(other, d));
    DistanceIsNorm(Along(from, d, k), other);
    DistanceTriangle(from, Neighbor(other, d), other);
    DistanceTriangle(from, other, from);
    DistanceTriangle(Along(from, d, k), other, from);
    NormAway(ToAxial(from).q - ToAxial(other).q, ToAxial(from).r - ToAxial(other).r, d, k);
  }

  // A pull that moves the unit at all, over no more hexes than it is far away, brings it closer.
  lemma PullComesCloser(g: Grid, other: HexCoord, from: HexCoord, hexes: int)
    requires g.Valid() && other != from && hexes <= Distance(from, other)
    ensures var to := Pushed(g, from, TowardCaster, other, from, hexes);
            to != from ==> Distance(from, other) - Distance(from, to) <= Distance(to, other) < Distance(from, other)
  {
    hide Slid, Along, ToAxial, Distance, DirectionToward, Norm, AxialStep, Neighbor;
    var d := DirectionToward(from, other);
    var k := SlidesStraight(g, from, d, hexes);
    if k > 0 {
      DirectionTowardApproaches(from, other);
      NeighborIsAxialStep(from, d);
      AlongAxial(from, d, k);
      DistanceIsNorm(other, from);
      DistanceIsNorm(other, Neighbor(from, d));
      DistanceIsNorm(other, Along(from, d, k));
      DistanceTriangle(other, from, other);
      DistanceTriangle(other, Neighbor(from, d), other);
      DistanceTriangle(other, Along(from, d, k), other);
      NormToward(ToAxial(other).q - ToAxial(from).q, ToAxial(other).r - ToAxial(from).r, d, k);
    } else {
      StartsThere(from, d);
    }
  }

  lemma StartsThere(from: HexCoord, d: nat)
    requires d < DIRECTIONS
    ensures Along(from, d, 0) == from
  {
  }

  // A straight line need not lead to the caster: here two free hexes toward it come only one closer.
  lemma PullCanMiss()
    ensures var g, from, other := Grid(ARENA_COLUMNS, ARENA_ROWS, seq(ARENA_COLUMNS * ARENA_ROWS, _ => false)), HexCoord(1, 0), HexCoord(3, 3);
            var to := Pushed(g, from, TowardCaster, other, from, 2);
            Distance(from, other) == 4 && Distance(from, to) == 2 && Distance(to, other) == 3
  {
    var g, from, other := Grid(ARENA_COLUMNS, ARENA_ROWS, seq(ARENA_COLUMNS * ARENA_ROWS, _ => false)), HexCoord(1, 0), HexCoord(3, 3);
    assert DirectionToward(from, other) == 0 by {
      StraightEast();
    }
    assert Neighbor(from, 0) == HexCoord(2, 0) && Neighbor(HexCoord(2, 0), 0) == HexCoord(3, 0);
    assert !g.IsBlocked(HexCoord(2, 0)) && !g.IsBlocked(HexCoord(3, 0));
    hide DirectionToward, Distance, Neighbor, Grid.IsBlocked;
    assert Slid(g, HexCoord(3, 0), 0, 0) == HexCoord(3, 0);
    assert Slid(g, HexCoord(2, 0), 0, 1) == HexCoord(3, 0);
    assert Slid(g, from, 0, 2) == HexCoord(3, 0);
    assert Distance(from, other) == 4 && Distance(from, HexCoord(3, 0)) == 2 && Distance(HexCoord(3, 0), other) == 3 by {
      SomeDistances();
    }
  }

  lemma SomeDistances()
    ensures Distance(HexCoord(1, 0), HexCoord(3, 3)) == 4 && Distance(HexCoord(1, 0), HexCoord(3, 0)) == 2 && Distance(HexCoord(3, 0), HexCoord(3, 3)) == 3
  {
  }

  lemma StraightEast()
    ensures DirectionToward(HexCoord(1, 0), HexCoord(3, 3)) == 0
  {
    var from, other := HexCoord(1, 0), HexCoord(3, 3);
    var scores := seq(DIRECTIONS, k requires 0 <= k < DIRECTIONS => Distance(Neighbor(from, k), other) as int);
    assert scores[0] == 3;
    assert scores[1] >= 3 && scores[2] >= 3;
    assert scores[3] >= 3 && scores[4] >= 3 && scores[5] >= 3;
    hide Distance, Neighbor;
    assert BestFrom(scores, 0, 5) == 0;
    assert BestFrom(scores, 0, 3) == 0;
    assert BestFrom(scores, 0, 1) == 0;
  }

  // A unit that does not dive.
  lemma StaysPut(s: FightState, i: int, destination: Destination, castTarget: int, tick: int)
    requires 0 <= i < |s.units| && ArenaGrid(s.grid) && !s.units[i].alive
    ensures Dives(s, i, destination, castTarget, tick, s)
  {
  }

  lemma Stays(s: FightState, i: int, destination: Destination, castTarget: int, enemy: int, tick: int)
    requires 0 <= i < |s.units| && ArenaGrid(s.grid) && s.units[i].alive && enemy < |s.units|
    requires FirstBest(DiveScores(s.units, i, destination, castTarget), enemy)
    requires enemy < 0 || NoSpot(s.grid, s.units[enemy].pos, 1, 2)
    ensures Dives(s, i, destination, castTarget, tick, s)
  {
    hide FirstBest, NoSpot, DiveScores;
    assert DivesTo(s, i, destination, enemy, tick, s);
  }

  lemma DivedTo(s: FightState, i: int, destination: Destination, castTarget: int, enemy: int, to: HexCoord, tick: int, t: FightState)
    requires 0 <= i < |s.units| && ArenaGrid(s.grid) && s.units[i].alive && 0 <= enemy < |s.units|
    requires FirstBest(DiveScores(s.units, i, destination, castTarget), enemy)
    requires BestLanding(s.grid, s.units[enemy].pos, s.units[i].pos, to)
    requires t == s.(units := s.units[i := s.units[i].(pos := to, target := if DivesByDistance(destination) then -1 else enemy, path := [], pathIndex := 0)],
                     members := MembersOf(t.units), log := s.log + [Teleport(tick, s.units[i].id, s.units[i].pos, to, 0)], grid := t.grid)
    ensures Dives(s, i, destination, castTarget, tick, t)
  {
    assert !NoSpot(s.grid, s.units[enemy].pos, 1, 2) by {
      hide FirstBest, DiveScores;
      if BestOfRing(s.grid, s.units[enemy].pos, s.units[i].pos, 1, to) {
        assert FreeSpot(s.grid, to, s.units[enemy].pos, 1);
      } else {
        assert FreeSpot(s.grid, to, s.units[enemy].pos, 2);
      }
    }
    hide FirstBest, NoSpot, DiveScores, BestLanding;
    assert DivesTo(s, i, destination, enemy, tick, t);
  }

  lemma BestIn(scores: seq<Score>, best: int)
    requires FirstBest(scores, best)
    ensures -1 <= best < |scores|
  {
  }

  lemma DiveScoresSize(units: seq<FightUnit>, i: nat, destination: Destination, castTarget: int)
    requires i < |units|
    ensures |DiveScores(units, i, destination, castTarget)| == |units|
  {
  }

  lemma TeleportIsRelocation(id: UnitId, from: HexCoord, to: HexCoord, tick: int)
    ensures RelocateEvent(Teleport(tick, id, from, to, 0), id, from, to) && RelocateEvent(Teleport(tick, id, from, to, 1), id, from, to)
  {
  }

  // Unit i ends up where its push ends, and drops its route if that is somewhere else.
  ghost predicate IsPushed(s: FightState, caster: int, i: int, sense: PushSense, centre: HexCoord, hexes: int, tick: int, t: FightState) {
    && 0 <= i < |s.units| && 0 <= caster < |s.units| && ArenaGrid(s.grid)
    && var u := s.units[i];
       var to := if !u.alive || i == caster then u.pos else Pushed(s.grid, u.pos, sense, s.units[caster].pos, centre, hexes);
       if to == u.pos then t == s
       else t == WithUnits(s, s.units[i := u.(pos := to, path := [], pathIndex := 0)]).(log := s.log + [Teleport(tick, u.id, u.pos, to, 1)], grid := t.grid)
  }

  lemma NotPushed(s: FightState, caster: int, i: int, sense: PushSense, centre: HexCoord, hexes: int, tick: int)
    requires 0 <= i < |s.units| && 0 <= caster < |s.units| && ArenaGrid(s.grid)
    requires !s.units[i].alive || i == caster || (sense == TowardAreaCenter && s.units[i].pos == centre)
             || Pushed(s.grid, s.units[i].pos, sense, s.units[caster].pos, centre, hexes) == s.units[i].pos
    ensures IsPushed(s, caster, i, sense, centre, hexes, tick, s)
  {
    hide Slid, DirectionToward;
  }

  lemma PushedTo(s: FightState, caster: int, i: int, sense: PushSense, centre: HexCoord, hexes: int, tick: int, t: FightState)
    requires 0 <= i < |s.units| && 0 <= caster < |s.units| && ArenaGrid(s.grid) && s.units[i].alive && i != caster
    requires var to := Pushed(s.grid, s.units[i].pos, sense, s.units[caster].pos, centre, hexes);
             && to != s.units[i].pos
             && t == s.(units := s.units[i := s.units[i].(pos := to, path := [], pathIndex := 0)], members := MembersOf(t.units),
                        log := s.log + [Teleport(tick, s.units[i].id, s.units[i].pos, to, 1)], grid := t.grid)
    ensures IsPushed(s, caster, i, sense, centre, hexes, tick, t)
  {
    hide Pushed;
  }

  lemma PushDirectionIs(sense: PushSense, from: HexCoord, other: HexCoord, centre: HexCoord)
    ensures DirectionToward(from, other) < DIRECTIONS && DirectionToward(from, centre) < DIRECTIONS && DirectionToward(other, from) < DIRECTIONS
    ensures PushDirection(sense, from, other, centre) ==
              if sense == TowardCaster then DirectionToward(from, other)
              else if sense == TowardAreaCenter then (if from == centre then DIRECTIONS else DirectionToward(from, centre))
              else DirectionToward(other, from)
  {
  }

  lemma PushedIs(g: Grid, from: HexCoord, sense: PushSense, other: HexCoord, centre: HexCoord, hexes: int)
    requires g.Valid()
    ensures var d := PushDirection(sense, from, other, centre);
            d < DIRECTIONS ==> Pushed(g, from, sense, other, centre, hexes) == Slid(g, from, d, hexes)
  {
  }

  // ---- Hits ----------------------------------------------------------------------------------------

  // The ends of the shields that a hit uses up.
  function BrokenBy(u: FightUnit, damage: int, tick: int): seq<Event> {
    if ShieldsOk(u.shields) && damage >= 0 then EndsOf(SoakUp(u.shields, Reduced(u.shields, damage)), ShieldEnded(tick, u.id, 0)) else []
  }

  // Its final damage hits unit `victim`: a Damage event first, then the ends of broken shields and all that
  // follows a hit.
  ghost predicate Hurts(s: FightState, victim: int, attacker: int, damage: int, credit: bool, rewards: bool, tick: int, cut: int, t: FightState) {
    && 0 <= victim < |s.units| && 0 <= attacker < |s.units|
    && IsHitOn(s.units, t.log, |s.log|, victim, attacker, damage, tick)
    && HitWorks(s.units, victim, attacker, damage, credit, rewards, cut, t.units)
    && s.log + [t.log[|s.log|]] + BrokenBy(s.units[victim], damage, tick) <= t.log && s.pendingHooks <= t.pendingHooks
    && t == WithUnits(s, t.units).(log := t.log, pendingHooks := t.pendingHooks)
  }

  ghost predicate Heals(s: FightState, source: int, x: int, healing: int, tick: int, cut: int, t: FightState) {
    && 0 <= source < |s.units| && 0 <= x < |s.units|
    && var u := s.units[x];
       var restored := Restored(u, healing, cut);
       t == WithUnits(s, Healed(s.units, x, healing, cut))
              .(log := s.log + if restored > 0 then [Heal(tick, u.id, s.units[source].id, restored, u.hp + restored)] else [])
  }

  // A drain heals its source by its share of the hit.
  ghost predicate Drains(s: FightState, h: Hit, damage: int, tick: int, cut: int, t: FightState) {
    && 0 <= h.source < |s.units|
    && if h.healPercent > 0 && s.units[h.source].alive then Heals(s, h.source, h.source, Clamp32(damage * h.healPercent / 100), tick, cut, t) else t == s
  }

  // The hit itself, the drain, and the share that the tether takes.
  ghost predicate SharesLand(s: FightState, h: Hit, damage: int, tether: int, redirected: int, rewards: bool, tick: int, cut: int, t: FightState) {
    exists w, x ::
      && Hurts(s, h.target, h.source, damage, true, rewards, tick, cut, w) && Drains(w, h, damage, tick, cut, x)
      && if redirected > 0 then Hurts(x, tether, h.source, redirected, true, false, tick, cut, t) else t == x
  }

  // What becomes of one queued hit, once mitigation has made `mitigated` of it: nothing for those already
  // at 0 HP, nothing but the end of the shield for a blocked one, and otherwise what is left of it after
  // the tether's share.
  ghost predicate HitLands(s: FightState, h: Hit, mitigated: int, rewards: bool, tick: int, cut: int, t: FightState) {
    && 0 <= h.source < |s.units| && 0 <= h.target < |s.units| && mitigated >= 0
    && t.casts == s.casts && t.hits == s.hits
    && var u := s.units[h.target];
       if !u.alive || u.hp <= 0 then t == s
       else if IsBlocked(s.units, h) then
         var k := FirstOf(u.statuses, SpellShield, 0);
         k < |u.statuses| && t == WithUnits(s, s.units[h.target := UsedUp(u, k)]).(log := s.log + [StatusEnded(tick, u.id, SpellShield, u.hp)])
       else
         var redirected := Redirected(s.units, h.target, mitigated);
         0 <= redirected <= mitigated
         && SharesLand(s, h, mitigated - redirected, TetheredTo(s.units, h.target), redirected, rewards, tick, cut, t)
  }

  // One queued hit, with the damage that mitigation leaves.
  ghost predicate Arrives(s: FightState, h: Hit, tick: int, law: Law, t: FightState) {
    HitLands(s, h, Max(0, law.numbers.mitigated(SceneOf(s, tick), h)), law.numbers.rewarding(SceneOf(s, tick), h), tick, law.cut, t)
  }

  // Every queued hit lands, in the order of the queue; then the queue is empty.
  ghost predicate AllHitsLand(s: FightState, tick: int, law: Law, t: FightState) {
    exists w :: HitsInOrder(s, tick, law, w) && t == w.(hits := [])
  }

  ghost predicate HitsInOrder(s: FightState, tick: int, law: Law, t: FightState) {
    InOrder(s, s.hits, (a: FightState, h: Hit, b: FightState) => Arrives(a, h, tick, law, b), t)
  }

  lemma HurtsIs(s: FightState, v: FightState, w: FightState, victim: int, attacker: int, resolved: int, damage: int, after: seq<Shield>, absorbed: int,
                remaining: int, credit: bool, rewards: bool, tick: int, cut: int, t: FightState)
    requires 0 <= victim < |s.units| && 0 <= attacker < |s.units| && ShieldsOk(s.units[victim].shields) && resolved >= 0
    requires damage == Reduced(s.units[victim].shields, resolved) && after == SoakUp(s.units[victim].shields, damage)
    requires absorbed == Min(damage, ShieldTotal(s.units[victim].shields)) && absorbed + remaining == damage
    requires v.units == s.units[victim := s.units[victim].(hp := Max(0, s.units[victim].hp - remaining), shields := Unbroken(after))]
    requires v.log == s.log + [Damage(tick, v.units[victim].id, v.units[attacker].id, damage, absorbed, v.units[victim].hp)]
    requires w.units == v.units && w.log == v.log + EndsOf(after, ShieldEnded(tick, v.units[victim].id, 0)) && w.log <= t.log
    requires FollowsHit(w.units, victim, attacker, damage, credit, rewards, cut, t.units)
    requires s.pendingHooks <= t.pendingHooks && t == s.(units := t.units, members := MembersOf(t.units), log := t.log, pendingHooks := t.pendingHooks)
    ensures Hurts(s, victim, attacker, resolved, credit, rewards, tick, cut, t)
  {
    hide FollowsHit, Reduced, SoakUp, Unbroken, ShieldTotal, ShieldsOk, EndsOf, MembersOf, HitWorks;
    assert v.units[attacker].id == s.units[attacker].id;
    assert t.log[|s.log|] == v.log[|s.log|];
    assert s.log + [t.log[|s.log|]] == v.log;
    HitIs(s.units, t.log, |s.log|, victim, attacker, resolved, tick);
    HitWorksIs(s.units, v.units, victim, attacker, resolved, damage, after, remaining, credit, rewards, cut, t.units);
    hide IsHitOn;
    assert BrokenBy(s.units[victim], resolved, tick) == EndsOf(after, ShieldEnded(tick, s.units[victim].id, 0));
  }

  lemma NoDrain(s: FightState, h: Hit, damage: int, tick: int, cut: int)
    requires 0 <= h.source < |s.units| && !(h.healPercent > 0 && s.units[h.source].alive)
    ensures Drains(s, h, damage, tick, cut, s)
  {
  }

  lemma DrainsIs(s: FightState, h: Hit, damage: int, tick: int, cut: int, t: FightState)
    requires 0 <= h.source < |s.units| && h.healPercent > 0 && s.units[h.source].alive
    requires Heals(s, h.source, h.source, Clamp32(damage * h.healPercent / 100), tick, cut, t)
    ensures Drains(s, h, damage, tick, cut, t)
  {
    hide Heals, Clamp32;
  }

  lemma SharesLandIs(s: FightState, h: Hit, damage: int, tether: int, redirected: int, rewards: bool, tick: int, cut: int, w: FightState, x: FightState, t: FightState)
    requires Hurts(s, h.target, h.source, damage, true, rewards, tick, cut, w) && Drains(w, h, damage, tick, cut, x)
    requires if redirected > 0 then Hurts(x, tether, h.source, redirected, true, false, tick, cut, t) else t == x
    ensures SharesLand(s, h, damage, tether, redirected, rewards, tick, cut, t)
  {
    hide Hurts, Drains;
  }

  lemma TooLate(s: FightState, h: Hit, mitigated: int, rewards: bool, tick: int, cut: int)
    requires 0 <= h.source < |s.units| && 0 <= h.target < |s.units| && mitigated >= 0
    requires !s.units[h.target].alive || s.units[h.target].hp <= 0
    ensures HitLands(s, h, mitigated, rewards, tick, cut, s)
  {
    hide SharesLand;
  }

  lemma Blocked(s: FightState, h: Hit, mitigated: int, rewards: bool, tick: int, cut: int, t: FightState)
    requires 0 <= h.source < |s.units| && 0 <= h.target < |s.units| && mitigated >= 0
    requires s.units[h.target].alive && s.units[h.target].hp > 0 && IsBlocked(s.units, h)
    requires var u := s.units[h.target];
             var k := FirstOf(u.statuses, SpellShield, 0);
             k < |u.statuses| && t.units == s.units[h.target := UsedUp(u, k)] && t.log == s.log + [StatusEnded(tick, u.id, SpellShield, u.hp)]
    requires t == s.(units := t.units, members := MembersOf(t.units), log := t.log)
    ensures HitLands(s, h, mitigated, rewards, tick, cut, t)
  {
    hide SharesLand, IsBlocked, UsedUp, MembersOf;
  }

  lemma Landed(s: FightState, h: Hit, mitigated: int, rewards: bool, tick: int, cut: int, t: FightState, redirected: int)
    requires 0 <= h.source < |s.units| && 0 <= h.target < |s.units| && mitigated >= 0 && t.casts == s.casts && t.hits == s.hits
    requires s.units[h.target].alive && s.units[h.target].hp > 0 && !IsBlocked(s.units, h)
    requires 0 <= redirected <= mitigated && redirected == Redirected(s.units, h.target, mitigated)
    requires SharesLand(s, h, mitigated - redirected, TetheredTo(s.units, h.target), redirected, rewards, tick, cut, t)
    ensures HitLands(s, h, mitigated, rewards, tick, cut, t)
  {
    hide SharesLand, IsBlocked, Redirected, TetheredTo;
  }

  lemma ArrivesIs(s: FightState, h: Hit, mitigated: int, rewards: bool, tick: int, law: Law, t: FightState)
    requires HitLands(s, h, mitigated, rewards, tick, law.cut, t)
    requires mitigated == (var x := law.numbers.mitigated(SceneOf(s, tick), h); if x > 0 then x else 0) && rewards == law.numbers.rewarding(SceneOf(s, tick), h)
    ensures Arrives(s, h, tick, law, t) && t.hits == s.hits && t.casts == s.casts
  {
    hide SharesLand, IsBlocked, Redirected, TetheredTo, UsedUp;
  }

  lemma QueueLanded(s: FightState, w: FightState, tick: int, law: Law)
    requires InOrder(s, s.hits, (a: FightState, h: Hit, b: FightState) => Arrives(a, h, tick, law, b), w)
    ensures AllHitsLand(s, tick, law, w.(hits := []))
  {
    hide InOrder, Arrives;
    assert HitsInOrder(s, tick, law, w);
  }

  // What the log says about a hit on a living unit that is not blocked: first what the tether leaves of it,
  // and then, if the tether takes a share, that one on the unit at its other end.
  lemma LandedHitTells(s: FightState, h: Hit, mitigated: int, rewards: bool, tick: int, cut: int, t: FightState)
    requires HitLands(s, h, mitigated, rewards, tick, cut, t)
    requires s.units[h.target].alive && s.units[h.target].hp > 0 && !IsBlocked(s.units, h)
    ensures var redirected := Redirected(s.units, h.target, mitigated);
            && 0 <= redirected <= mitigated
            && IsHitOn(s.units, t.log, |s.log|, h.target, h.source, mitigated - redirected, tick)
            && (redirected > 0 ==>
                  && 0 <= TetheredTo(s.units, h.target) < |s.units|
                  && HitsLater(t.log, |s.log| + 1, s.units[TetheredTo(s.units, h.target)].id, s.units[h.source].id, redirected))
  {
    hide IsBlocked, Redirected, TetheredTo, Hurts, Drains, UsedUp, IsHitOn, HitsLater;
    var redirected, tether := Redirected(s.units, h.target, mitigated), TetheredTo(s.units, h.target);
    var damage := mitigated - redirected;
    assert SharesLand(s, h, damage, tether, redirected, rewards, tick, cut, t);
    var w, x :| Hurts(s, h.target, h.source, damage, true, rewards, tick, cut, w) && Drains(w, h, damage, tick, cut, x)
                && if redirected > 0 then Hurts(x, tether, h.source, redirected, true, false, tick, cut, t) else t == x;
    HurtTells(s, h.target, h.source, damage, true, rewards, tick, cut, w);
    DrainTells(w, h, damage, tick, cut, x);
    HitStays(s.units, w.log, x.log, |s.log|, h.target, h.source, damage, tick);
    if redirected > 0 {
      HurtTells(x, tether, h.source, redirected, true, false, tick, cut, t);
      HitStays(s.units, x.log, t.log, |s.log|, h.target, h.source, damage, tick);
      HitIsLater(s.units, x.units, t.log, |s.log|, |x.log|, tether, h.source, redirected, tick);
    }
  }

  lemma HurtTells(s: FightState, victim: int, attacker: int, damage: int, credit: bool, rewards: bool, tick: int, cut: int, t: FightState)
    requires Hurts(s, victim, attacker, damage, credit, rewards, tick, cut, t)
    ensures 0 <= victim < |s.units| && 0 <= attacker < |s.units| && IsHitOn(s.units, t.log, |s.log|, victim, attacker, damage, tick)
    ensures s.log <= t.log && |s.log| < |t.log| && damage >= 0
    ensures |t.units| == |s.units| && forall i | 0 <= i < |s.units| :: t.units[i].id == s.units[i].id
  {
    hide IsHitOn, HitWorks, BrokenBy;
    HitIsThere(s.units, t.log, |s.log|, victim, attacker, damage, tick);
    HurtNobodyNew(s.units, victim, attacker, damage, credit, rewards, cut, t.units);
  }

  lemma DrainTells(s: FightState, h: Hit, damage: int, tick: int, cut: int, t: FightState)
    requires Drains(s, h, damage, tick, cut, t)
    ensures s.log <= t.log && |t.units| == |s.units| && forall i | 0 <= i < |s.units| :: t.units[i].id == s.units[i].id
  {
    hide Restored, Clamp32;
  }

  lemma HitIsThere(units: seq<FightUnit>, log: seq<Event>, k: nat, victim: int, attacker: int, resolved: int, tick: int)
    requires 0 <= victim < |units| && 0 <= attacker < |units| && IsHitOn(units, log, k, victim, attacker, resolved, tick)
    ensures k < |log| && resolved >= 0
  {
    hide Reduced, ShieldsOk;
  }

  lemma HitIsLater(us: seq<FightUnit>, vs: seq<FightUnit>, log: seq<Event>, k: nat, m: nat, victim: int, attacker: int, resolved: int, tick: int)
    requires 0 <= victim < |us| == |vs| && 0 <= attacker < |us| && k < m && IsHitOn(vs, log, m, victim, attacker, resolved, tick)
    requires vs[victim].id == us[victim].id && vs[attacker].id == us[attacker].id
    ensures HitsLater(log, k + 1, us[victim].id, us[attacker].id, resolved)
  {
    hide BestReduction, ShieldTotal;
    assert log[m].Damage?;
  }

  // Nobody joins or leaves by a hit.
  lemma HurtNobodyNew(us: seq<FightUnit>, victim: nat, attacker: nat, resolved: int, credit: bool, rewards: bool, cut: int, vs: seq<FightUnit>)
    requires HitWorks(us, victim, attacker, resolved, credit, rewards, cut, vs)
    ensures |vs| == |us| && forall i | 0 <= i < |us| :: vs[i].id == us[i].id
  {
    hide Reduced, ShieldTotal, Unbroken, SoakUp, ShieldsOk, Restored, StatusPercent, Clamp32;
  }

  // ---- What each effect makes of one target --------------------------------------------------------

  // A hit, and one on the nearest other enemy that it bounces on to.
  function BounceScore(units: seq<FightUnit>, caster: nat, x: nat, j: nat): Score
    requires caster < |units| && x < |units| && j < |units|
  {
    var v := units[j];
    if j == x || !v.alive || v.team == units[caster].team || !Affectable(v) then Out else In(-(Distance(v.pos, units[x].pos) as int))
  }

  function BounceScores(units: seq<FightUnit>, caster: nat, x: nat): (scores: seq<Score>)
    requires caster < |units| && x < |units|
    ensures |scores| == |units| && forall j | 0 <= j < |units| :: scores[j] == BounceScore(units, caster, x, j)
  {
    seq(|units|, j requires 0 <= j < |units| => BounceScore(units, caster, x, j))
  }

  ghost predicate Strikes(s: FightState, caster: int, x: int, roll: Roll, t: FightState) {
    && 0 <= caster < |s.units| && 0 <= x < |s.units|
    && if roll.amount <= 0 then t == s
       else
         exists next :: FirstBest(BounceScores(s.units, caster, x), next) &&
           t == s.(hits := s.hits + [Hit(caster, x, Clamp32(roll.amount), true, false, 0)]
                           + if next >= 0 && roll.bounced > 0 then [Hit(caster, next, roll.bounced, true, false, 0)] else [])
  }

  ghost predicate Shielded(s: FightState, x: int, roll: Roll, permanent: bool, capped: bool, reduction: int, tick: int, cut: int, t: FightState) {
    && 0 <= x < |s.units|
    && var u := s.units[x];
       var lasts := Clamp32(roll.length);
       var gain := if permanent || lasts > 0 then ShieldGain(u, Clamp32(roll.amount), capped, roll.cap, cut) else 0;
       if gain <= 0 then t == s
       else t == WithUnits(s, s.units[x := u.(shields := u.shields + [Shield(gain, if permanent then FOREVER else tick + lasts, reduction, 0)])])
                   .(log := s.log + [ShieldApplied(tick, u.id, gain)])
  }

  predicate IsFlatBonus(kind: StatusType) {
    kind == BonusAttackDamage || kind == BonusArmor || kind == BonusMagicResist || kind == BonusMaxHp || kind == BonusAbilityDamage
    || kind == BonusCritChance || kind == BonusManaRegen || kind == BonusMaxMana
  }

  // Nothing without a duration, and no bonus of nothing.
  ghost predicate Afflicts(s: FightState, caster: int, x: int, roll: Roll, kind: StatusType, lasting: bool, refreshes: bool, tick: int, t: FightState) {
    && 0 <= x < |s.units|
    && if (!lasting && roll.length <= 0) || (IsFlatBonus(kind) && roll.amount == 0) then t == s
       else
         && IsAfflicted(s, t, x, kind, roll.amount, if lasting then FOREVER else tick + Clamp32(roll.length), refreshes, caster, tick)
         && t == WithUnits(s, t.units).(log := t.log, chan := t.chan)
  }

  ghost predicate Ignites(s: FightState, caster: int, x: int, roll: Roll, e: Payload, tick: int, t: FightState)
    requires e.DotEffect?
  {
    && 0 <= caster < |s.units| && 0 <= x < |s.units|
    && if roll.amount <= 0 || roll.length <= 0 then t == s
       else
         && IsBurned(s.units, t.units, x, caster, e, Clamp32(roll.length), roll.amount, tick)
         && t == WithUnits(s, t.units).(log := t.log)
         && t.log == s.log + [StatusApplied(tick, s.units[x].id, e.visual, s.units[x].hp)]
                     + if StatusPercent(s.units[caster].statuses, InflictsWound) > 0 then [StatusApplied(tick, s.units[x].id, Wound, s.units[x].hp)] else []
  }

  ghost predicate AffectsBy(s: FightState, cast: CastRecord, e: Payload, x: int, centre: HexCoord, tick: int, law: Law, roll: Roll, t: FightState) {
    match e
    case DamageEffect => Strikes(s, cast.caster, x, roll, t)
    case ShieldEffect(permanent, capped, reduction) => Shielded(s, x, roll, permanent, capped, reduction, tick, law.cut, t)
    case StatusEffect(kind, lasting, refreshes) => Afflicts(s, cast.caster, x, roll, kind, lasting, refreshes, tick, t)
    case DotEffect(_, _, _, _, _, _) => Ignites(s, cast.caster, x, roll, e, tick, t)
    case HealEffect => Heals(s, cast.caster, x, Clamp32(roll.amount), tick, law.cut, t)
    case TeleportEffect(destination) => Dives(s, x, destination, cast.target, tick, t)
    case DisplaceEffect(sense, hexes) => IsPushed(s, cast.caster, x, sense, centre, hexes, tick, t)
    case _ => false
  }

  // Whatever the numbers come to.
  ghost predicate Affects(s: FightState, cast: CastRecord, e: Payload, x: int, centre: HexCoord, tick: int, law: Law, t: FightState) {
    AffectsBy(s, cast, e, x, centre, tick, law, law.numbers.roll(SceneOf(s, tick), cast, e, x), t)
  }

  lemma Affecting(s: FightState, cast: CastRecord, e: Payload, x: int, centre: HexCoord, tick: int, law: Law, roll: Roll, t: FightState)
    requires roll == law.numbers.roll(SceneOf(s, tick), cast, e, x)
    requires match e
             case DamageEffect => Strikes(s, cast.caster, x, roll, t)
             case ShieldEffect(permanent, capped, reduction) => Shielded(s, x, roll, permanent, capped, reduction, tick, law.cut, t)
             case StatusEffect(kind, lasting, refreshes) => Afflicts(s, cast.caster, x, roll, kind, lasting, refreshes, tick, t)
             case DotEffect(_, _, _, _, _, _) => Ignites(s, cast.caster, x, roll, e, tick, t)
             case HealEffect => Heals(s, cast.caster, x, Clamp32(roll.amount), tick, law.cut, t)
             case TeleportEffect(destination) => Dives(s, x, destination, cast.target, tick, t)
             case DisplaceEffect(sense, hexes) => IsPushed(s, cast.caster, x, sense, centre, hexes, tick, t)
             case _ => false
    ensures Affects(s, cast, e, x, centre, tick, law, t)
  {
    hide Strikes, Shielded, Afflicts, Ignites, Heals, Dives, IsPushed;
    assert AffectsBy(s, cast, e, x, centre, tick, law, roll, t);
  }

  // ---- Effects, casts, batches ---------------------------------------------------------------------

  // Every target in its turn.
  ghost predicate AffectsAll(s: FightState, cast: CastRecord, e: Payload, targets: seq<int>, centre: HexCoord, tick: int, law: Law, t: FightState) {
    InOrder(s, targets, (a: FightState, x: int, b: FightState) => Affects(a, cast, e, x, centre, tick, law, b), t)
  }

  // An ally blinks to a target that is not of its own side, strikes it and is back.
  ghost predicate BlinksTo(s: FightState, ally: int, x: int, raw: int, tick: int, t: FightState) {
    && 0 <= ally < |s.units| && 0 <= x < |s.units|
    && var helper, victim := s.units[ally], s.units[x];
       if victim.team == helper.team || raw <= 0 then t == s
       else t == s.(log := s.log + [Teleport(tick, helper.id, helper.pos, victim.pos, 2)], hits := s.hits + [Hit(ally, x, raw, true, false, 0)])
  }

  ghost predicate StrikesFor(s: FightState, ally: int, x: int, tick: int, law: Law, t: FightState) {
    BlinksTo(s, ally, x, law.numbers.strike(SceneOf(s, tick), ally, x), tick, t)
  }

  predicate MayStrike(units: seq<FightUnit>, caster: int, ally: int) {
    0 <= caster < |units| && 0 <= ally < |units| && ally != caster && units[ally].alive && units[ally].team == units[caster].team
  }

  ghost predicate AllyStrikes(s: FightState, caster: int, targets: seq<int>, tick: int, law: Law, t: FightState) {
    var ally := law.numbers.helper(SceneOf(s, tick), caster);
    if MayStrike(s.units, caster, ally) then AllyStrikesAll(s, ally, targets, tick, law, t) else t == s
  }

  ghost predicate AllyStrikesAll(s: FightState, ally: int, targets: seq<int>, tick: int, law: Law, t: FightState) {
    InOrder(s, targets, (a: FightState, x: int, b: FightState) => StrikesFor(a, ally, x, tick, law, b), t)
  }

  ghost predicate Summons(s: FightState, t: FightState) {
    Continues(s, t) && s.scheduled <= t.scheduled
  }

  // One effect, on targets the caster can reach.
  // Of what a selector names, whatever the caster can reach.
  function Reached(units: seq<FightUnit>, caster: int, picked: seq<int>): seq<int> {
    if picked == [] then []
    else
      var x := picked[|picked| - 1];
      Reached(units, caster, picked[..|picked| - 1]) + if Reachable(units, caster, x) then [x] else []
  }

  // Exactly those, and they are within reach.
  lemma {:induction false} ReachedExact(units: seq<FightUnit>, caster: int, picked: seq<int>)
    ensures AllReachable(units, caster, Reached(units, caster, picked))
    ensures forall x :: x in Reached(units, caster, picked) <==> x in picked && Reachable(units, caster, x)
  {
    hide Reachable;
    if picked != [] {
      var n := |picked| - 1;
      ReachedExact(units, caster, picked[..n]);
      assert picked == picked[..n] + [picked[n]];
    }
  }

  lemma ReachedNext(units: seq<FightUnit>, caster: int, picked: seq<int>, k: nat)
    requires k < |picked|
    ensures Reached(units, caster, picked[..0]) == []
    ensures Reached(units, caster, picked[..k + 1]) == Reached(units, caster, picked[..k]) + if Reachable(units, caster, picked[k]) then [picked[k]] else []
  {
    assert picked[..k + 1][..k] == picked[..k];
  }

  lemma ReachableIs(units: seq<FightUnit>, caster: int, x: int)
    requires 0 <= caster < |units|
    ensures Reachable(units, caster, x) <==> 0 <= x < |units| && units[x].alive && (units[x].team == units[caster].team || Affectable(units[x]))
  {
    hide Affectable;
  }

  lemma NothingReached(units: seq<FightUnit>, caster: int, picked: seq<int>)
    ensures Reached(units, caster, picked[..0]) == [] && picked[..|picked|] == picked
  {
  }

  // One effect, on the targets its selector names and the caster can reach -- unless a condition prevents it.
  ghost predicate Executes(s: FightState, cast: CastRecord, e: Effect, tick: int, law: Law, t: FightState) {
    TakesEffect(s.(dice := s.dice + 1), cast, e, tick, law, t)
  }

  ghost predicate TakesEffect(s: FightState, cast: CastRecord, e: Effect, tick: int, law: Law, t: FightState) {
    var scene := SceneOf(s, tick);
    if e.conditional && law.numbers.prevented(scene, cast, e) then t == s
    else
      var targets := Reached(s.units, cast.caster, law.numbers.targets(scene, cast, e));
      match e.payload
      case ManaEffect => t == s
      case SummonEffect => Summons(s, t)
      case CloneEffect(_) => Summons(s, t)
      case AllyStrikeEffect => AllyStrikes(s, cast.caster, targets, tick, law, t)
      case _ => AffectsAll(s, cast, e.payload, targets, law.numbers.centre(scene, cast, e), tick, law, t)
  }

  // Run i of an effect: now if it is due, else it is put on the schedule.
  ghost predicate RunsOrWaits(s: FightState, cast: CastRecord, e: Effect, tick: int, extraDelay: int, law: Law, i: int, t: FightState) {
    var due := extraDelay + e.delayTicks + i * e.repeatIntervalTicks;
    if due <= 0 then Executes(s, cast, e, tick, law, t) else t == s.(scheduled := s.scheduled + [Scheduled(tick + due, cast, e)])
  }

  function Upto(n: nat): (r: seq<int>)
    ensures |r| == n && forall i | 0 <= i < n :: r[i] == i
  {
    seq(n, i => i)
  }

  // All runs of an effect.
  ghost predicate Repeats(s: FightState, cast: CastRecord, e: Effect, tick: int, extraDelay: int, law: Law, t: FightState) {
    InOrder(s, Upto(e.repeatCount), (a: FightState, i: int, b: FightState) => RunsOrWaits(a, cast, e, tick, extraDelay, law, i, b), t)
  }

  // The effects of a cast that grant immunity to crowd control, or those that do not.
  ghost predicate CastRuns(s: FightState, cast: CastRecord, immunity: bool, tick: int, law: Law, t: FightState) {
    InOrder(s, cast.effects, (a: FightState, e: Effect, b: FightState) => CastRunsOne(a, cast, e, immunity, tick, law, b), t)
  }

  ghost predicate CastRunsOne(s: FightState, cast: CastRecord, e: Effect, immunity: bool, tick: int, law: Law, t: FightState) {
    if GrantsImmunity(e) == immunity then Repeats(s, cast, e, tick, 0, law, t) else t == s
  }

  // One pass over a batch of casts (of living casters only, for hooks).
  ghost predicate PassRuns(s: FightState, batch: seq<CastRecord>, immunity: bool, livingOnly: bool, tick: int, law: Law, t: FightState) {
    InOrder(s, batch, (a: FightState, c: CastRecord, b: FightState) => PassRunsOne(a, c, immunity, livingOnly, tick, law, b), t)
  }

  ghost predicate PassRunsOne(s: FightState, cast: CastRecord, immunity: bool, livingOnly: bool, tick: int, law: Law, t: FightState) {
    && 0 <= cast.caster < |s.units|
    && if livingOnly && !s.units[cast.caster].alive then t == s else CastRuns(s, cast, immunity, tick, law, t)
  }

  // Both passes: whatever grants immunity comes first, so who cast first does not decide.
  ghost predicate BatchRuns(s: FightState, batch: seq<CastRecord>, livingOnly: bool, tick: int, law: Law, t: FightState) {
    exists w :: PassRuns(s, batch, true, livingOnly, tick, law, w) && PassRuns(w, batch, false, livingOnly, tick, law, t)
  }

  // A unit's passives, as of tick 0; inside a mech they wait.
  ghost predicate PassivesRun(s: FightState, index: int, law: Law, t: FightState) {
    && 0 <= index < |s.units|
    && if HasStatus(s.units[index], Piloting) then t == s
       else PassivesFrom(s, CastRecord(index, -1, s.units[index].template.passives, false, 0, false, false), law, t)
  }

  ghost predicate PassivesFrom(s: FightState, cast: CastRecord, law: Law, t: FightState) {
    InOrder(s, cast.effects, (a: FightState, e: Effect, b: FightState) => Repeats(a, cast, e, 0, 0, law, b), t)
  }

  // A scheduled run whose time has come: not once its caster is dead or its channel is over.
  ghost predicate DueRuns(s: FightState, due: Scheduled, tick: int, law: Law, t: FightState) {
    var cast := due.cast;
    && 0 <= cast.caster < |s.units|
    && if (cast.stopsOnDeath && !s.units[cast.caster].alive)
          || (cast.channeled && (!s.units[cast.caster].alive || s.units[cast.caster].activeChannelSerial != cast.serial)) then t == s
       else Executes(if cast.channeled then s.(chan := s.chan + [ChanEvent.Run(cast.serial)]) else s, cast, due.effect, tick, law, t)
  }

  // Everything that is due runs, in the order it was scheduled.
  ghost predicate AllDueRun(s: FightState, tick: int, law: Law, t: FightState) {
    InOrder(s.(scheduled := DueAfter(s.scheduled, tick)), DueBy(s.scheduled, tick),
            (a: FightState, d: Scheduled, b: FightState) => DueRuns(a, d, tick, law, b), t)
  }

  // One round of hooks: the pending ones leave the list, run, and what they deal lands.
  ghost predicate HooksRun(s: FightState, tick: int, law: Law, t: FightState) {
    exists w :: BatchRuns(s.(pendingHooks := []), s.pendingHooks, true, tick, law, w) && AllHitsLand(w, tick, law, t)
  }

  predicate IsSecond(tick: int) {
    tick > 0 && tick % TICKS_PER_SECOND == 0
  }

  // One of a unit's statuses heals or hurts it by its percentage of the maximum.
  ghost predicate StatusWorks(s: FightState, i: int, st: Status, tick: int, cut: int, t: FightState) {
    && 0 <= i < |s.units|
    && if st.kind != HpPerSecond || st.percent == 0 || s.units[i].hp <= 0 then t == s
       else
         var amount := Clamp32(s.units[i].maxHp * Abs(st.percent) / 100);
         var source := if st.source >= 0 then st.source else i;
         if st.percent > 0 then Heals(s, source, i, amount, tick, cut, t) else Hurts(s, i, source, amount, false, false, tick, cut, t)
  }

  ghost predicate StatusesWork(s: FightState, i: int, statuses: seq<Status>, tick: int, cut: int, t: FightState) {
    InOrder(s, statuses, (a: FightState, st: Status, b: FightState) => StatusWorks(a, i, st, tick, cut, b), t)
  }

  // Below the strongest threshold it loses the rest of its HP, past shields.
  ghost predicate IsExecuted(s: FightState, i: int, tick: int, t: FightState) {
    && 0 <= i < |s.units| && 0 <= ExecuteSource(s.units[i].statuses, i) < |s.units|
    && var u := s.units[i];
       if u.hp > 0 && u.hp * 100 < Threshold(u.statuses) * u.maxHp
       then t == WithUnits(s, s.units[i := u.(hp := 0)]).(log := s.log + [Damage(tick, u.id, s.units[ExecuteSource(u.statuses, i)].id, u.hp, 0, 0)])
       else t == s
  }

  // Once a second the statuses of a living unit work, one after the other; then it may be executed.
  ghost predicate Sweeps(s: FightState, i: int, tick: int, cut: int, t: FightState) {
    && 0 <= i < |s.units|
    && var u := s.units[i];
       if !u.alive || u.hp <= 0 || u.statuses == [] || HasStatus(u, Piloting) then t == s
       else exists w :: SecondWorks(s, i, tick, cut, w) && IsExecuted(w, i, tick, t)
  }

  ghost predicate SecondWorks(s: FightState, i: int, tick: int, cut: int, t: FightState)
    requires 0 <= i < |s.units|
  {
    if IsSecond(tick) then StatusesWork(s, i, s.units[i].statuses, tick, cut, t) else t == s
  }

  ghost predicate SweepsAll(s: FightState, tick: int, cut: int, t: FightState) {
    InOrder(s, Upto(|s.units|), (a: FightState, i: int, b: FightState) => Sweeps(a, i, tick, cut, b), t)
  }

  // A dead unit whose ability is cast on death casts it once more, at a target that still stands.
  predicate HasLastWords(units: seq<FightUnit>, x: int) {
    && 0 <= x < |units|
    && var u := units[x];
       u.template.ability.Ability? && u.template.ability.castOnDeath && 0 <= u.target < |units| && units[u.target].alive
  }

  // The casts of the dead, in their order.
  function LastWords(units: seq<FightUnit>, dead: seq<int>, serial: int): seq<CastRecord> {
    if dead == [] then []
    else
      var x := dead[|dead| - 1];
      LastWords(units, dead[..|dead| - 1], serial)
      + if HasLastWords(units, x) then [Declaration(units[x], x, units[x].target, serial, true)] else []
  }

  function LastNotes(units: seq<FightUnit>, casts: seq<CastRecord>, tick: int): seq<Event> {
    if casts == [] then []
    else
      var x := casts[|casts| - 1].caster;
      LastNotes(units, casts[..|casts| - 1], tick) + if 0 <= x < |units| then [Note(tick, units[x].id, SpellCast)] else []
  }

  // Whoever is remembered as the killer of x, if it still stands, gains statuses for the kill.
  ghost predicate RewardRuns(s: FightState, killer: int, victim: int, e: Effect, tick: int, law: Law, t: FightState) {
    if e.payload.StatusEffect? then Executes(s, CastRecord(killer, victim, [], false, 0, false, false), e, tick, law, t) else t == s
  }

  ghost predicate RewardsRun(s: FightState, killer: int, victim: int, rewards: seq<Effect>, tick: int, law: Law, t: FightState) {
    InOrder(s, rewards, (a: FightState, e: Effect, b: FightState) => RewardRuns(a, killer, victim, e, tick, law, b), t)
  }

  ghost predicate KillerRewarded(s: FightState, x: int, tick: int, law: Law, t: FightState) {
    && 0 <= x < |s.units|
    && var killer := s.units[x].killer;
       if 0 <= killer < |s.units| && s.units[killer].alive then RewardsRun(s, killer, x, Listed(law.numbers.killRewards(SceneOf(s, tick), x)), tick, law, t) else t == s
  }

  ghost predicate KillersRewarded(s: FightState, dead: seq<int>, tick: int, law: Law, t: FightState) {
    InOrder(s, dead, (a: FightState, x: int, b: FightState) => KillerRewarded(a, x, tick, law, b), t)
  }

  ghost predicate HookRoundRuns(s: FightState, tick: int, law: Law, t: FightState) {
    s.pendingHooks != [] && HooksRun(s, tick, law, t)
  }

  // Rounds of hooks until there are none, or the bound is reached; whatever is pending then is dropped.
  ghost predicate HooksProcessed(s: FightState, tick: int, law: Law, t: FightState) {
    exists n: nat, w ::
      && HookRounds(s, n, tick, law, w)
      && n <= MAX_HOOK_ROUNDS && (n < MAX_HOOK_ROUNDS ==> w.pendingHooks == []) && t == w.(pendingHooks := [])
  }

  ghost predicate HookRounds(s: FightState, n: nat, tick: int, law: Law, t: FightState) {
    InOrder(s, Upto(n), (a: FightState, i: int, b: FightState) => HookRoundRuns(a, tick, law, b), t)
  }

  // A channel whose time is up is over.
  function Completed(u: FightUnit, tick: int): FightUnit {
    if u.activeChannelSerial != 0 && tick >= u.channelEnd then u.(activeChannelSerial := 0) else u
  }

  ghost predicate ChannelsComplete(s: FightState, tick: int, t: FightState) {
    && |t.units| == |s.units| && (forall i | 0 <= i < |s.units| :: t.units[i] == Completed(s.units[i], tick))
    && t == WithUnits(s, t.units).(chan := t.chan)
  }

  // ---- ... step by step ----------------------------------------------------------------------------

  lemma NoStrike(s: FightState, caster: int, x: int, roll: Roll)
    requires 0 <= caster < |s.units| && 0 <= x < |s.units| && roll.amount <= 0
    ensures Strikes(s, caster, x, roll, s)
  {
  }

  lemma StrikesIs(s: FightState, caster: int, x: int, roll: Roll, next: int, t: FightState)
    requires 0 <= caster < |s.units| && 0 <= x < |s.units| && roll.amount > 0 && FirstBest(BounceScores(s.units, caster, x), next)
    requires t.hits == s.hits + [Hit(caster, x, Clamp32(roll.amount), true, false, 0)]
                       + if next >= 0 && roll.bounced > 0 then [Hit(caster, next, roll.bounced, true, false, 0)] else []
    requires t == s.(hits := t.hits)
    ensures Strikes(s, caster, x, roll, t)
  {
    hide FirstBest, BounceScores, Clamp32;
  }

  lemma BounceIn(units: seq<FightUnit>, caster: nat, x: nat, next: int)
    requires caster < |units| && x < |units| && FirstBest(BounceScores(units, caster, x), next)
    ensures -1 <= next < |units|
  {
  }

  lemma ShieldGainIs(u: FightUnit, amount: int, capped: bool, cap: int, cut: int)
    ensures ShieldGain(u, amount, capped, cap, cut) ==
              if amount <= 0 then 0
              else
                var fitting := if capped then Min(amount, cap - ShieldTotal(u.shields)) else amount;
                if fitting <= 0 then 0
                else
                  var amp := StatusPercent(u.statuses, HealingAmp);
                  var amplified := if amp != 0 then ApplyPercent(fitting, amp) else fitting;
                  if cut != 0 then ApplyPercent(amplified, cut) else amplified
  {
  }

  lemma AmountsAre(roll: Roll)
    ensures Clamp32(roll.amount) <= MAX_VALUE && forall a: int, b: int {:trigger Min(a, b)} :: Min(a, b) <= a
    ensures forall a, b :: ApplyPercent(a, b) <= MAX_VALUE
  {
  }

  lemma NotShielded(s: FightState, x: int, roll: Roll, permanent: bool, capped: bool, reduction: int, tick: int, cut: int)
    requires 0 <= x < |s.units|
    requires (!permanent && Clamp32(roll.length) <= 0) || ShieldGain(s.units[x], Clamp32(roll.amount), capped, roll.cap, cut) <= 0
    ensures Shielded(s, x, roll, permanent, capped, reduction, tick, cut, s)
  {
    hide ShieldGain, Clamp32;
  }

  lemma ShieldedIs(s: FightState, x: int, roll: Roll, permanent: bool, capped: bool, reduction: int, tick: int, cut: int, gain: int, t: FightState)
    requires 0 <= x < |s.units| && (permanent || Clamp32(roll.length) > 0)
    requires gain == ShieldGain(s.units[x], Clamp32(roll.amount), capped, roll.cap, cut) && gain > 0
    requires var u := s.units[x];
             t == s.(units := s.units[x := u.(shields := u.shields + [Shield(gain, if permanent then FOREVER else tick + Clamp32(roll.length), reduction, 0)])],
                     members := MembersOf(t.units), log := s.log + [ShieldApplied(tick, u.id, gain)])
    ensures Shielded(s, x, roll, permanent, capped, reduction, tick, cut, t)
  {
    hide ShieldGain, Clamp32;
  }

  lemma AfflictsIs(s: FightState, caster: int, x: int, roll: Roll, kind: StatusType, lasting: bool, refreshes: bool, tick: int, t: FightState)
    requires 0 <= x < |s.units|
    ensures Afflicts(s, caster, x, roll, kind, lasting, refreshes, tick, t) <==>
              if (!lasting && roll.length <= 0) || (IsFlatBonus(kind) && roll.amount == 0) then t == s
              else
                && IsAfflicted(s, t, x, kind, roll.amount, if lasting then FOREVER else tick + Clamp32(roll.length), refreshes, caster, tick)
                && t == s.(units := t.units, members := MembersOf(t.units), log := t.log, chan := t.chan)
  {
    hide IsAfflicted, Clamp32, IsFlatBonus, MembersOf;
  }

  lemma NotIgnited(s: FightState, caster: int, x: int, roll: Roll, e: Payload, tick: int)
    requires 0 <= caster < |s.units| && 0 <= x < |s.units| && e.DotEffect? && (roll.amount <= 0 || roll.length <= 0)
    ensures Ignites(s, caster, x, roll, e, tick, s)
  {
  }

  lemma IgnitesIs(s: FightState, caster: int, x: int, roll: Roll, e: Payload, tick: int, t: FightState)
    requires 0 <= caster < |s.units| && 0 <= x < |s.units| && e.DotEffect? && roll.amount > 0 && roll.length > 0
    requires IsBurned(s.units, t.units, x, caster, e, Clamp32(roll.length), roll.amount, tick)
    requires t == s.(units := t.units, members := MembersOf(t.units), log := t.log)
    requires t.log == s.log + [StatusApplied(tick, s.units[x].id, e.visual, s.units[x].hp)]
                      + if StatusPercent(s.units[caster].statuses, InflictsWound) > 0 then [StatusApplied(tick, s.units[x].id, Wound, s.units[x].hp)] else []
    ensures Ignites(s, caster, x, roll, e, tick, t)
  {
    hide IsBurned, Clamp32, StatusPercent;
  }

  lemma BurningKeeps(u: FightUnit, source: int, e: Payload, duration: int, total: int, tick: int)
    requires e.DotEffect? && e.intervalTicks >= 1 && duration >= 1 && total >= 0 && tick >= 0
    ensures var v := Burned(u, source, e, duration, total, tick); v.id == u.id && v.hp == u.hp && v.statuses == u.statuses
  {
    hide NewDot, NextOf, CombatRules.Without;
  }

  lemma SameStatusesOf(us: seq<FightUnit>, vs: seq<FightUnit>, x: int, caster: int, kind: StatusType)
    requires 0 <= x < |us| && 0 <= caster < |us| == |vs| && vs == us[x := vs[x]] && vs[x].statuses == us[x].statuses
    ensures StatusPercent(vs[caster].statuses, kind) == StatusPercent(us[caster].statuses, kind)
  {
  }

  lemma WoundKeepsHp(u: FightUnit, wound: int, expires: int)
    ensures WithStatus(u, Wound, wound, expires, false, -1).hp == u.hp && WithStatus(u, Wound, wound, expires, false, -1).id == u.id
  {
  }

  lemma HealsIs(s: FightState, source: int, x: int, healing: int, tick: int, cut: int, t: FightState)
    requires 0 <= source < |s.units| && 0 <= x < |s.units|
    requires t == s.(units := Healed(s.units, x, healing, cut), members := MembersOf(t.units), log := t.log)
    requires var restored := Restored(s.units[x], healing, cut);
             t.log == s.log + if restored > 0 then [Heal(tick, t.units[x].id, t.units[source].id, restored, t.units[x].hp)] else []
    ensures Heals(s, source, x, healing, tick, cut, t)
  {
    hide Restored;
  }

  lemma PayloadOk(e: Payload)
    requires EffectOk(Effect(e, 0, 1, 0, false))
    ensures e.ShieldEffect? ==> 0 <= e.reduction <= 100
    ensures e.DotEffect? ==> e.intervalTicks >= 1
  {
  }

  lemma AffectsAllIs(s: FightState, cast: CastRecord, e: Payload, targets: seq<int>, centre: HexCoord, tick: int, law: Law, t: FightState)
    requires InOrder(s, targets, (a: FightState, x: int, b: FightState) => Affects(a, cast, e, x, centre, tick, law, b), t)
    ensures AffectsAll(s, cast, e, targets, centre, tick, law, t)
  {
    hide InOrder, Affects;
  }

  lemma BlinksIs(s: FightState, ally: int, x: int, raw: int, tick: int, law: Law, t: FightState)
    requires 0 <= ally < |s.units| && 0 <= x < |s.units| && raw == law.numbers.strike(SceneOf(s, tick), ally, x)
    requires var helper, victim := s.units[ally], s.units[x];
             if victim.team == helper.team || raw <= 0 then t == s
             else t == s.(log := t.log, hits := t.hits) && t.log == s.log + [Teleport(tick, helper.id, helper.pos, victim.pos, 2)]
                  && t.hits == s.hits + [Hit(ally, x, raw, true, false, 0)]
    ensures StrikesFor(s, ally, x, tick, law, t) && t.units == s.units
  {
    assert BlinksTo(s, ally, x, raw, tick, t);
  }

  lemma NobodyStrikes(s: FightState, caster: int, ally: int, targets: seq<int>, tick: int, law: Law)
    requires 0 <= caster < |s.units| && ally == law.numbers.helper(SceneOf(s, tick), caster)
    requires !(0 <= ally < |s.units|) || ally == caster || !s.units[ally].alive || s.units[ally].team != s.units[caster].team
    ensures AllyStrikes(s, caster, targets, tick, law, s)
  {
    hide AllyStrikesAll;
  }

  lemma AllyStrikesIs(s: FightState, caster: int, ally: int, targets: seq<int>, tick: int, law: Law, t: FightState)
    requires ally == law.numbers.helper(SceneOf(s, tick), caster)
    requires 0 <= caster < |s.units| && 0 <= ally < |s.units| && ally != caster && s.units[ally].alive && s.units[ally].team == s.units[caster].team
    requires InOrder(s, targets, (a: FightState, x: int, b: FightState) => StrikesFor(a, ally, x, tick, law, b), t)
    ensures AllyStrikes(s, caster, targets, tick, law, t)
  {
    hide InOrder, StrikesFor;
    assert AllyStrikesAll(s, ally, targets, tick, law, t);
  }

  lemma SummonsIs(s: FightState, t: FightState)
    requires Continues(s, t) && s.scheduled <= t.scheduled
    ensures Summons(s, t)
  {
    hide Continues;
  }

  lemma Prevented(s: FightState, cast: CastRecord, e: Effect, tick: int, law: Law)
    requires e.conditional && law.numbers.prevented(SceneOf(s, tick), cast, e)
    ensures TakesEffect(s, cast, e, tick, law, s)
  {
    hide Reached, AffectsAll, AllyStrikes, Summons;
  }

  lemma ExecutesIs(s: FightState, cast: CastRecord, e: Effect, tick: int, law: Law, w: FightState, t: FightState)
    requires w == s.(dice := s.dice + 1) && TakesEffect(w, cast, e, tick, law, t)
    ensures Executes(s, cast, e, tick, law, t)
  {
    hide TakesEffect;
  }

  lemma Executing(s: FightState, cast: CastRecord, e: Effect, targets: seq<int>, centre: HexCoord, tick: int, law: Law, t: FightState)
    requires !(e.conditional && law.numbers.prevented(SceneOf(s, tick), cast, e))
    requires targets == Reached(s.units, cast.caster, law.numbers.targets(SceneOf(s, tick), cast, e)) && centre == law.numbers.centre(SceneOf(s, tick), cast, e)
    requires match e.payload
             case ManaEffect => t == s
             case SummonEffect => Summons(s, t)
             case CloneEffect(_) => Summons(s, t)
             case AllyStrikeEffect => AllyStrikes(s, cast.caster, targets, tick, law, t)
             case _ => AffectsAll(s, cast, e.payload, targets, centre, tick, law, t)
    ensures TakesEffect(s, cast, e, tick, law, t)
  {
    hide Reached, AffectsAll, AllyStrikes, Summons;
  }

  lemma UptoAt(n: nat, i: int)
    requires 0 <= i < n
    ensures |Upto(n)| == n && Upto(n)[i] == i
  {
  }

  lemma UptoSize(n: nat)
    ensures |Upto(n)| == n
  {
  }

  lemma RunsOrWaitsIs(s: FightState, cast: CastRecord, e: Effect, tick: int, extraDelay: int, law: Law, i: int, t: FightState)
    requires var due := extraDelay + e.delayTicks + i * e.repeatIntervalTicks;
             if due <= 0 then Executes(s, cast, e, tick, law, t) else t == s.(scheduled := s.scheduled + [Scheduled(tick + due, cast, e)])
    ensures RunsOrWaits(s, cast, e, tick, extraDelay, law, i, t)
  {
    hide Executes;
  }

  lemma RepeatsIs(s: FightState, cast: CastRecord, e: Effect, tick: int, extraDelay: int, law: Law, t: FightState)
    requires InOrder(s, Upto(e.repeatCount), (a: FightState, i: int, b: FightState) => RunsOrWaits(a, cast, e, tick, extraDelay, law, i, b), t)
    ensures Repeats(s, cast, e, tick, extraDelay, law, t)
  {
    hide InOrder, RunsOrWaits, Upto;
  }

  lemma CastRunsOneIs(s: FightState, cast: CastRecord, e: Effect, immunity: bool, tick: int, law: Law, t: FightState)
    requires if GrantsImmunity(e) == immunity then Repeats(s, cast, e, tick, 0, law, t) else t == s
    ensures CastRunsOne(s, cast, e, immunity, tick, law, t)
  {
    hide Repeats, GrantsImmunity;
  }

  lemma CastRunsIs(s: FightState, cast: CastRecord, immunity: bool, tick: int, law: Law, t: FightState)
    requires InOrder(s, cast.effects, (a: FightState, e: Effect, b: FightState) => CastRunsOne(a, cast, e, immunity, tick, law, b), t)
    ensures CastRuns(s, cast, immunity, tick, law, t)
  {
    hide InOrder, CastRunsOne;
  }

  lemma PassRunsOneIs(s: FightState, cast: CastRecord, immunity: bool, livingOnly: bool, tick: int, law: Law, t: FightState)
    requires 0 <= cast.caster < |s.units|
    requires if livingOnly && !s.units[cast.caster].alive then t == s else CastRuns(s, cast, immunity, tick, law, t)
    ensures PassRunsOne(s, cast, immunity, livingOnly, tick, law, t)
  {
    hide CastRuns;
  }

  lemma PassRunsIs(s: FightState, batch: seq<CastRecord>, immunity: bool, livingOnly: bool, tick: int, law: Law, t: FightState)
    requires InOrder(s, batch, (a: FightState, c: CastRecord, b: FightState) => PassRunsOne(a, c, immunity, livingOnly, tick, law, b), t)
    ensures PassRuns(s, batch, immunity, livingOnly, tick, law, t)
  {
    hide InOrder, PassRunsOne;
  }

  lemma BatchRunsIs(s: FightState, batch: seq<CastRecord>, livingOnly: bool, tick: int, law: Law, w: FightState, t: FightState)
    requires PassRuns(s, batch, true, livingOnly, tick, law, w) && PassRuns(w, batch, false, livingOnly, tick, law, t)
    ensures BatchRuns(s, batch, livingOnly, tick, law, t)
  {
    hide PassRuns;
  }

  lemma PassivesWait(s: FightState, index: int, law: Law)
    requires 0 <= index < |s.units| && HasStatus(s.units[index], Piloting)
    ensures PassivesRun(s, index, law, s)
  {
    hide PassivesFrom, HasStatus;
  }

  lemma PassivesRunIs(s: FightState, index: int, cast: CastRecord, law: Law, t: FightState)
    requires 0 <= index < |s.units| && !HasStatus(s.units[index], Piloting)
    requires cast == CastRecord(index, -1, s.units[index].template.passives, false, 0, false, false)
    requires InOrder(s, cast.effects, (a: FightState, e: Effect, b: FightState) => Repeats(a, cast, e, 0, 0, law, b), t)
    ensures PassivesRun(s, index, law, t)
  {
    hide InOrder, HasStatus, Repeats;
    assert PassivesFrom(s, cast, law, t);
  }

  lemma NotDue(s: FightState, due: Scheduled, tick: int, law: Law)
    requires 0 <= due.cast.caster < |s.units|
    requires var cast := due.cast;
             (cast.stopsOnDeath && !s.units[cast.caster].alive)
             || (cast.channeled && (!s.units[cast.caster].alive || s.units[cast.caster].activeChannelSerial != cast.serial))
    ensures DueRuns(s, due, tick, law, s)
  {
    hide Executes;
  }

  lemma DueRunsIs(s: FightState, due: Scheduled, tick: int, law: Law, w: FightState, t: FightState)
    requires 0 <= due.cast.caster < |s.units|
    requires var cast := due.cast;
             && !(cast.stopsOnDeath && !s.units[cast.caster].alive)
             && !(cast.channeled && (!s.units[cast.caster].alive || s.units[cast.caster].activeChannelSerial != cast.serial))
             && w == (if cast.channeled then s.(chan := s.chan + [ChanEvent.Run(cast.serial)]) else s)
             && Executes(w, cast, due.effect, tick, law, t)
    ensures DueRuns(s, due, tick, law, t)
  {
    hide Executes;
  }

  lemma AllDueRunIs(s: FightState, w: FightState, due: seq<Scheduled>, tick: int, law: Law, t: FightState)
    requires due == DueBy(s.scheduled, tick) && w == s.(scheduled := DueAfter(s.scheduled, tick))
    requires InOrder(w, due, (a: FightState, d: Scheduled, b: FightState) => DueRuns(a, d, tick, law, b), t)
    ensures AllDueRun(s, tick, law, t)
  {
    hide InOrder, DueRuns, DueBy, DueAfter;
  }

  lemma HooksRunIs(s: FightState, batch: seq<CastRecord>, v: FightState, w: FightState, tick: int, law: Law, t: FightState)
    requires batch == s.pendingHooks && v == s.(pendingHooks := []) && BatchRuns(v, batch, true, tick, law, w) && AllHitsLand(w, tick, law, t)
    ensures HooksRun(s, tick, law, t)
  {
    hide BatchRuns, AllHitsLand;
  }

  lemma CastIn(s: FightState, batch: seq<CastRecord>, k: nat)
    requires CastsOk(s, batch) && k < |batch|
    ensures CastOk(batch[k], |s.units|, s.chan)
  {
  }

  lemma CompletedIs(u: FightUnit, tick: int)
    ensures Completed(u, tick) == if u.activeChannelSerial != 0 && tick >= u.channelEnd then u.(activeChannelSerial := 0, lockedUntil := u.lockedUntil) else u
  {
  }

  lemma ChannelsCompleteIs(s: FightState, tick: int, t: FightState)
    requires |t.units| == |s.units| && forall i | 0 <= i < |s.units| :: t.units[i] == Completed(s.units[i], tick)
    requires t == s.(units := t.units, members := MembersOf(t.units), chan := t.chan)
    ensures ChannelsComplete(s, tick, t)
  {
    hide Completed, MembersOf;
  }

  lemma SomeRounds()
    ensures MAX_HOOK_ROUNDS >= 0
  {
  }

  lemma NoRounds(s: FightState, step: (FightState, int, FightState) -> bool)
    ensures InOrder(s, Upto(0), step, s)
  {
  }

  lemma RoundMore(s: FightState, n: nat, tick: int, law: Law, w: FightState, t: FightState)
    requires InOrder(s, Upto(n), (a: FightState, i: int, b: FightState) => HookRoundRuns(a, tick, law, b), w)
    requires w.pendingHooks != [] && HooksRun(w, tick, law, t)
    ensures InOrder(s, Upto(n + 1), (a: FightState, i: int, b: FightState) => HookRoundRuns(a, tick, law, b), t)
  {
    hide HooksRun;
    var step := (a: FightState, i: int, b: FightState) => HookRoundRuns(a, tick, law, b);
    assert Upto(n + 1)[..n] == Upto(n);
    assert step(w, n, t);
    assert InOrder(s, Upto(n + 1)[..n], step, w);
  }

  lemma HooksProcessedIs(s: FightState, n: nat, tick: int, law: Law, w: FightState)
    requires InOrder(s, Upto(n), (a: FightState, i: int, b: FightState) => HookRoundRuns(a, tick, law, b), w)
    requires n <= MAX_HOOK_ROUNDS && (n < MAX_HOOK_ROUNDS ==> w.pendingHooks == [])
    ensures HooksProcessed(s, tick, law, w.(pendingHooks := []))
  {
    hide InOrder, HookRoundRuns, Upto;
    assert HookRounds(s, n, tick, law, w);
  }

  lemma StatusIdles(s: FightState, i: int, st: Status, tick: int, cut: int)
    requires 0 <= i < |s.units| && (st.kind != HpPerSecond || st.percent == 0 || s.units[i].hp <= 0)
    ensures StatusWorks(s, i, st, tick, cut, s)
  {
    hide Hurts, Heals, Clamp32;
  }

  lemma StatusWorksIs(s: FightState, i: int, st: Status, amount: int, source: int, tick: int, cut: int, t: FightState)
    requires 0 <= i < |s.units| && st.kind == HpPerSecond && st.percent != 0 && s.units[i].hp > 0
    requires amount == Clamp32(s.units[i].maxHp * Abs(st.percent) / 100) && source == if st.source >= 0 then st.source else i
    requires if st.percent > 0 then Heals(s, source, i, amount, tick, cut, t) else Hurts(s, i, source, amount, false, false, tick, cut, t)
    ensures StatusWorks(s, i, st, tick, cut, t)
  {
    hide Hurts, Heals, Clamp32;
  }

  lemma StatusesWorkIs(s: FightState, i: int, statuses: seq<Status>, tick: int, cut: int, t: FightState)
    requires InOrder(s, statuses, (a: FightState, st: Status, b: FightState) => StatusWorks(a, i, st, tick, cut, b), t)
    ensures StatusesWork(s, i, statuses, tick, cut, t)
  {
    hide InOrder, StatusWorks;
  }

  lemma IsExecutedIs(s: FightState, i: int, tick: int, t: FightState)
    requires 0 <= i < |s.units| && 0 <= ExecuteSource(s.units[i].statuses, i) < |s.units|
    requires var u := s.units[i];
             var executed := u.hp > 0 && u.hp * 100 < Threshold(u.statuses) * u.maxHp;
             && t.units == (if executed then s.units[i := u.(hp := 0)] else s.units)
             && t.log == s.log + if executed then [Damage(tick, u.id, t.units[ExecuteSource(u.statuses, i)].id, u.hp, 0, 0)] else []
    requires t == s.(units := t.units, members := t.members, log := t.log) && t.members == MembersOf(t.units) && s.members == MembersOf(s.units)
    ensures IsExecuted(s, i, tick, t)
  {
    hide ExecuteSource, Threshold, MembersOf;
  }

  lemma NotSwept(s: FightState, i: int, tick: int, cut: int)
    requires 0 <= i < |s.units|
    requires !s.units[i].alive || s.units[i].hp <= 0 || s.units[i].statuses == [] || HasStatus(s.units[i], Piloting)
    ensures Sweeps(s, i, tick, cut, s)
  {
    hide HasStatus, SecondWorks, IsExecuted;
  }

  lemma SweepsIs(s: FightState, i: int, tick: int, cut: int, w: FightState, t: FightState)
    requires 0 <= i < |s.units|
    requires s.units[i].alive && s.units[i].hp > 0 && s.units[i].statuses != [] && !HasStatus(s.units[i], Piloting)
    requires if IsSecond(tick) then StatusesWork(s, i, s.units[i].statuses, tick, cut, w) else w == s
    requires IsExecuted(w, i, tick, t)
    ensures Sweeps(s, i, tick, cut, t)
  {
    hide HasStatus, StatusesWork, IsExecuted;
    assert SecondWorks(s, i, tick, cut, w);
  }

  lemma SweepsAllIs(s: FightState, tick: int, cut: int, t: FightState)
    requires InOrder(s, Upto(|s.units|), (a: FightState, i: int, b: FightState) => Sweeps(a, i, tick, cut, b), t)
    ensures SweepsAll(s, tick, cut, t)
  {
    hide InOrder, Sweeps, Upto;
  }

  lemma NoLastWords(s: FightState, dead: seq<int>, tick: int)
    ensures s == s.(casts := s.casts + LastWords(s.units, dead[..0], s.castSerial), log := s.log + LastNotes(s.units, LastWords(s.units, dead[..0], s.castSerial), tick))
    ensures LastWords(s.units, dead[..0], s.castSerial) == []
  {
    assert LastNotes(s.units, [], tick) == [];
  }

  lemma LastWordsNext(s: FightState, dead: seq<int>, k: nat, tick: int)
    requires k < |dead| && 0 <= dead[k] < |s.units| && s.units[dead[k]].target < |s.units|
    ensures var u := s.units[dead[k]];
            var before, after := LastWords(s.units, dead[..k], s.castSerial), LastWords(s.units, dead[..k + 1], s.castSerial);
            if u.template.ability.Ability? && u.template.ability.castOnDeath && u.target >= 0 && s.units[u.target].alive
            then && after == before + [Declaration(u, dead[k], u.target, s.castSerial, true)]
                 && LastNotes(s.units, after, tick) == LastNotes(s.units, before, tick) + [Note(tick, u.id, SpellCast)]
                 && s.casts + before + [Declaration(u, dead[k], u.target, s.castSerial, true)] == s.casts + after
                 && s.log + LastNotes(s.units, before, tick) + [Note(tick, u.id, SpellCast)] == s.log + LastNotes(s.units, after, tick)
            else after == before
  {
    assert dead[..k + 1][..k] == dead[..k];
    var u := s.units[dead[k]];
    var before := LastWords(s.units, dead[..k], s.castSerial);
    if HasLastWords(s.units, dead[k]) {
      var c := Declaration(u, dead[k], u.target, s.castSerial, true);
      assert c.caster == dead[k];
      assert (before + [c])[..|before|] == before;
    }
  }

  lemma AllDead(dead: seq<int>)
    ensures dead[..|dead|] == dead
  {
  }

  lemma NoReward(s: FightState, x: int, tick: int, law: Law)
    requires 0 <= x < |s.units| && !(0 <= s.units[x].killer < |s.units| && s.units[s.units[x].killer].alive)
    ensures KillerRewarded(s, x, tick, law, s)
  {
    hide RewardsRun;
  }

  lemma RewardRunsIs(s: FightState, killer: int, victim: int, e: Effect, tick: int, law: Law, t: FightState)
    requires if e.payload.StatusEffect? then Executes(s, CastRecord(killer, victim, [], false, 0, false, false), e, tick, law, t) else t == s
    ensures RewardRuns(s, killer, victim, e, tick, law, t)
  {
    hide Executes;
  }

  lemma KillerRewardedIs(s: FightState, x: int, rewards: seq<Effect>, tick: int, law: Law, t: FightState)
    requires 0 <= x < |s.units| && 0 <= s.units[x].killer < |s.units| && s.units[s.units[x].killer].alive
    requires rewards == Listed(law.numbers.killRewards(SceneOf(s, tick), x))
    requires InOrder(s, rewards, (a: FightState, e: Effect, b: FightState) => RewardRuns(a, s.units[x].killer, x, e, tick, law, b), t)
    ensures KillerRewarded(s, x, tick, law, t)
  {
    hide InOrder, RewardRuns;
    assert RewardsRun(s, s.units[x].killer, x, rewards, tick, law, t);
  }

  lemma KillersRewardedIs(s: FightState, dead: seq<int>, tick: int, law: Law, t: FightState)
    requires InOrder(s, dead, (a: FightState, x: int, b: FightState) => KillerRewarded(a, x, tick, law, b), t)
    ensures KillersRewarded(s, dead, tick, law, t)
  {
    hide InOrder, KillerRewarded;
  }

  lemma UnitIn(s: FightState, ks: seq<int>, k: nat)
    requires AllUnits(s, ks) && k < |ks|
    ensures 0 <= ks[k] < |s.units|
  {
  }
}
