// What happens in one tick of a fight (server/src/CombatSimulator.cpp:290-319, 465-482, 570-744, 788-801,
// 2013-2039, 2328-2396, 2411-2501), on values: every unit's turn, the phases of a tick in their order, and the
// ticks of a fight. Nothing here says how a phase is computed.
module CombatTurns {
  import opened Hex
  import opened CombatLog
  import opened GraphSearch
  import opened Pathfinder
  import opened Dots
  import opened CombatState
  import opened CombatSteps
  import opened CombatRules
  import opened CombatEffects
  import opened Arithmetic

  const MAX_DEATH_CAST_ROUNDS := 16

  // The part of CombatConfig the model reads; ticks stay far below the 32-bit limit.
  datatype Config = Config(hardLimitTicks: int, regulationTicks: int, overtimeSpeed: int, ticksPerHexMove: int,
                           repathBackoffTicks: int, dotSpreadIntervalTicks: int, overtimeHealingCutPercent: int,
                           numbers: Numbers)

  predicate ConfigOk(c: Config) {
    1 <= c.regulationTicks <= c.hardLimitTicks <= MAX_VALUE && c.overtimeSpeed >= 1 && c.dotSpreadIntervalTicks >= 1
  }

  // ---- Overtime ------------------------------------------------------------------------------------

  predicate InOvertime(c: Config, tick: int) {
    c.overtimeSpeed > 1 && c.regulationTicks <= tick
  }

  // How many times as fast everything goes.
  function FactorAt(c: Config, tick: int): int {
    if InOvertime(c, tick) then c.overtimeSpeed else 1
  }

  // A step takes so many ticks, one at least.
  function StepTicks(c: Config, tick: int): int
    requires ConfigOk(c)
  {
    Max(1, c.ticksPerHexMove / FactorAt(c, tick))
  }

  // The change, in percent, to every heal.
  function HealingAt(c: Config, tick: int): int {
    if InOvertime(c, tick) then -Clamp(c.overtimeHealingCutPercent, 0, 100) else 0
  }

  function LawAt(c: Config, tick: int): Law {
    Law(HealingAt(c, tick), c.numbers)
  }

  // Overtime begins with the regulation's last tick over: every running timer is shortened, and the log says so.
  ghost predicate OvertimeBegins(c: Config, s: FightState, tick: int, t: FightState)
    requires ConfigOk(c)
  {
    if tick == c.regulationTicks && c.overtimeSpeed > 1 then
      && |t.units| == |s.units| && (forall i | 0 <= i < |s.units| :: t.units[i] == Hurried(s.units[i], tick, c.overtimeSpeed))
      && t == WithUnits(s, t.units).(log := s.log + [Note(tick, 0, Overtime)])
    else t == s
  }

  // ---- Triggers ------------------------------------------------------------------------------------

  // One trigger: its slot counts, at the price of a charge if it asks for one; if it fires, its effects are
  // queued with the tick's casts. Nonsense in the data does nothing.
  ghost predicate Fires(s: FightState, f: Firing, tick: int, t: FightState) {
    if !(0 <= f.holder < |s.units|) || !(-1 <= f.target < |s.units|) || !EffectsOk(f.slot.effects) then t == s
    else
      var u := s.units[f.holder];
      var counts := !IsCapped(f.slot) && (f.slot.requiresCharge ==> HasStatus(u, EmpoweredAttack));
      var v := if IsCapped(f.slot) || !f.slot.requiresCharge then u else ChargeSpent(u);
      t == WithUnits(s, s.units[f.holder := v])
             .(log := s.log + (if |v.statuses| < |u.statuses| then [StatusEnded(tick, u.id, EmpoweredAttack, u.hp)] else []),
               casts := s.casts + if counts && Counted(f.slot).fired > f.slot.fired
                                  then [CastRecord(f.holder, f.target, f.slot.effects, f.slot.stopsOnDeath, 0, false, true)] else [])
  }

  // Whoever listens to this fires, in the order of the data.
  ghost predicate HooksFire(s: FightState, moment: Moment, tick: int, law: Law, t: FightState) {
    InOrder(s, law.numbers.firings(SceneOf(s, tick), moment), (a: FightState, f: Firing, b: FightState) => Fires(a, f, tick, b), t)
  }

  lemma FiresIs(s: FightState, f: Firing, tick: int, t: FightState)
    requires 0 <= f.holder < |s.units| && -1 <= f.target < |s.units| && EffectsOk(f.slot.effects) && |t.units| == |s.units|
    requires var u := s.units[f.holder];
             var counts := !IsCapped(f.slot) && (f.slot.requiresCharge ==> HasStatus(u, EmpoweredAttack));
             && t.units == (if IsCapped(f.slot) || !f.slot.requiresCharge then s.units else s.units[f.holder := ChargeSpent(u)])
             && t.casts == s.casts + (if counts && Counted(f.slot).fired > f.slot.fired
                                      then [CastRecord(f.holder, f.target, f.slot.effects, f.slot.stopsOnDeath, 0, false, true)] else [])
             && t.log == s.log + (if |t.units[f.holder].statuses| < |u.statuses| then [StatusEnded(tick, u.id, EmpoweredAttack, u.hp)] else [])
    requires t == s.(units := t.units, members := MembersOf(t.units), log := t.log, casts := t.casts)
    ensures Fires(s, f, tick, t)
  {
    hide IsCapped, Counted, ChargeSpent, EffectsOk, HasStatus, MembersOf;
    assert s.units[f.holder := s.units[f.holder]] == s.units;
  }

  lemma FiresNot(s: FightState, f: Firing, tick: int)
    requires !(0 <= f.holder < |s.units|) || !(-1 <= f.target < |s.units|) || !EffectsOk(f.slot.effects)
    ensures Fires(s, f, tick, s)
  {
    hide EffectsOk;
  }

  lemma HooksFireIs(s: FightState, moment: Moment, tick: int, law: Law, t: FightState)
    requires InOrder(s, law.numbers.firings(SceneOf(s, tick), moment), (a: FightState, f: Firing, b: FightState) => Fires(a, f, tick, b), t)
    ensures HooksFire(s, moment, tick, law, t)
  {
    hide InOrder, Fires;
  }

  // Nobody is hurt or moved by that, and nothing queued or logged is lost.
  ghost predicate Quiet(s: FightState, t: FightState) {
    OnlyStatuses(s.units, t.units) && s.casts <= t.casts && s.log <= t.log && t.hits == s.hits
  }

  lemma HooksAreQuiet(s: FightState, moment: Moment, tick: int, law: Law, t: FightState)
    requires HooksFire(s, moment, tick, law, t)
    ensures Quiet(s, t)
  {
    hide Fires, Quiet;
    FiringsAreQuiet(s, law.numbers.firings(SceneOf(s, tick), moment), tick, t);
  }

  lemma {:induction false} FiringsAreQuiet(s: FightState, firings: seq<Firing>, tick: int, t: FightState)
    requires InOrder(s, firings, (a: FightState, f: Firing, b: FightState) => Fires(a, f, tick, b), t)
    ensures Quiet(s, t)
    decreases |firings|
  {
    hide Fires;
    if firings != [] {
      var n := |firings| - 1;
      var step := (a: FightState, f: Firing, b: FightState) => Fires(a, f, tick, b);
      var w :| InOrder(s, firings[..n], step, w) && step(w, firings[n], t);
      FiringsAreQuiet(s, firings[..n], tick, w);
      FiringIsQuiet(w, firings[n], tick, t);
    }
  }

  lemma FiringIsQuiet(s: FightState, f: Firing, tick: int, t: FightState)
    requires Fires(s, f, tick, t)
    ensures Quiet(s, t)
  {
    hide IsCapped, Counted, ChargeSpent, EffectsOk, HasStatus, MembersOf;
    if 0 <= f.holder < |s.units| {
      OnlyCharges(s.units[f.holder]);
    }
  }

  // ---- A turn --------------------------------------------------------------------------------------

  // The target is kept, or there is a new one -- and then the cached route is of no use any more.
  ghost predicate Retargets(s: FightState, i: int, t: FightState) {
    && 0 <= i < |s.units| == |t.units| && IsTarget(s.units, i, t.units[i].target) && -1 <= t.units[i].target < |s.units|
    && var u := s.units[i];
       t == WithUnits(s, if Usable(s.units, u.target) && t.units[i].target == u.target then s.units
                         else s.units[i := u.(target := t.units[i].target, path := [], pathIndex := 0)])
  }

  // A cast is declared: the caster is locked for as long as it takes, the cast is queued, the log tells, and
  // whoever listens for casts may fire.
  ghost predicate DeclaresCast(s: FightState, i: int, target: int, tick: int, law: Law, t: FightState) {
    exists w :: IsLocked(s, i, tick, w) && IsDeclared(w, Declaration(s.units[i], i, target, w.castSerial, false), i, tick, law, t)
  }

  // A channel has a serial of its own.
  ghost predicate IsLocked(s: FightState, i: int, tick: int, t: FightState) {
    && 0 <= i < |s.units| && s.units[i].template.ability.Ability?
    && t.castSerial == s.castSerial + (if s.units[i].template.ability.channelTicks > 0 then 1 else 0)
    && t == WithUnits(s, s.units[i := Locked(s.units[i], tick, t.castSerial, false)]).(castSerial := t.castSerial, chan := t.chan)
  }

  ghost predicate IsDeclared(s: FightState, cast: CastRecord, i: int, tick: int, law: Law, t: FightState) {
    exists x :: HooksFire(s.(casts := s.casts + [cast]), OnCast(i), tick, law, x) && IsTold(x, i, tick, t)
  }

  ghost predicate IsTold(s: FightState, i: int, tick: int, t: FightState) {
    0 <= i < |s.units| && t == s.(log := s.log + [Note(tick, s.units[i].id, SpellCast)])
  }

  // The attack itself: the timer starts anew, the log tells on whom, and the damage is queued as one hit or
  // spread over a while.
  ghost predicate Swings(c: Config, s: FightState, i: int, raw: int, spread: int, interval: int, tick: int, t: FightState)
    requires ConfigOk(c)
  {
    && 0 <= i < |s.units| && 0 <= s.units[i].target < |s.units| && tick >= 0
    && var u, target := s.units[i], s.units[i].target;
       var us := s.units[i := u.(nextAttackTick := tick + Max(1, interval))];
       && t == WithUnits(s, if raw > 0 && spread > 0 && us[target].alive
                            then us[target := us[target].(dots := us[target].dots + [SpreadDot(i, tick, spread, c.dotSpreadIntervalTicks, raw)])] else us)
                 .(log := s.log + [Note(tick, u.id, Attack(s.units[target].id))],
                   hits := s.hits + if raw > 0 && spread <= 0 then [Hit(i, target, raw, false, false, 0)] else [])
  }

  // What an attack brings with it: whoever listens for attacks may fire, its riders are queued, and the
  // ability that comes with every Nth attack may be cast. Nobody is hurt by that, and nobody moves.
  ghost predicate AttackIsHeard(s: FightState, i: int, tick: int, law: Law, t: FightState) {
    exists a, b :: HooksFire(s, OnAttack(i), tick, law, a) && RiderIsQueued(a, i, tick, law, b) && CastsOnNth(b, i, tick, law, t)
  }

  ghost predicate RiderIsQueued(s: FightState, i: int, tick: int, law: Law, t: FightState) {
    && 0 <= i < |s.units|
    && var effects := Listed(law.numbers.attackRider(SceneOf(s, tick), i));
       t == if effects == [] then s else s.(casts := s.casts + [CastRecord(i, s.units[i].target, effects, false, 0, false, false)])
  }

  ghost predicate CastsOnNth(s: FightState, i: int, tick: int, law: Law, t: FightState) {
    && 0 <= i < |s.units|
    && if law.numbers.castsNow(SceneOf(s, tick), i) && s.units[i].template.ability.Ability? then DeclaresCast(s, i, s.units[i].target, tick, law, t) else t == s
  }

  ghost predicate Attacks(c: Config, s: FightState, i: int, tick: int, law: Law, t: FightState)
    requires ConfigOk(c)
  {
    var scene, n := SceneOf(s, tick), law.numbers;
    exists w :: Swings(c, s, i, n.attackDamage(scene, i), n.attackSpread(scene, i), n.attackInterval(scene, i), tick, w) && AttackIsHeard(w, i, tick, law, t)
  }

  // Its timer due, and neither stationary nor blind, the unit attacks.
  ghost predicate AttacksIfDue(c: Config, s: FightState, i: int, stationary: bool, tick: int, law: Law, t: FightState)
    requires ConfigOk(c)
  {
    && 0 <= i < |s.units|
    && if !stationary && tick >= s.units[i].nextAttackTick && !HasStatus(s.units[i], Blind) then Attacks(c, s, i, tick, law, t) else t == s
  }

  // A full mana bar makes it cast first; if the cast locks it, that is all.
  ghost predicate Engages(c: Config, s: FightState, i: int, stationary: bool, tick: int, law: Law, t: FightState)
    requires ConfigOk(c)
  {
    && 0 <= i < |s.units|
    && if CastsFirst(s, i, tick, law) then exists w :: DeclaresCast(s, i, s.units[i].target, tick, law, w) && AttacksUnlessLocked(c, s.units[i], w, i, stationary, tick, law, t)
       else AttacksIfDue(c, s, i, stationary, tick, law, t)
  }

  predicate CastsFirst(s: FightState, i: int, tick: int, law: Law) {
    0 <= i < |s.units| && s.units[i].template.ability.Ability? && law.numbers.castsFirst(SceneOf(s, tick), i)
  }

  ghost predicate AttacksUnlessLocked(c: Config, u: FightUnit, s: FightState, i: int, stationary: bool, tick: int, law: Law, t: FightState)
    requires ConfigOk(c) && u.template.ability.Ability?
  {
    if u.template.ability.castLockTicks > 0 then t == s else AttacksIfDue(c, s, i, stationary, tick, law, t)
  }

  // The next hex of the cached route leads to where the target stands, and is free.
  predicate Cached(g: Grid, u: FightUnit, goal: HexCoord)
    requires g.Valid()
  {
    0 <= u.pathIndex < |u.path| && u.pathGoal == goal && !g.IsBlocked(u.path[u.pathIndex])
  }

  // A shortest way over free hexes to within reach of the goal; none exactly if there is none.
  ghost predicate ShortestWay(g: Grid, from: HexCoord, goal: HexCoord, range: int, found: bool, path: seq<HexCoord>)
    requires g.Valid()
  {
    if found then
      && IsPath(g, from, path) && Distance(EndOf(from, path), goal) <= range
      && forall other | IsPath(g, from, other) && Distance(EndOf(from, other), goal) <= range :: |path| <= |other|
    else path == [] && NoWay(g, from, goal, range)
  }

  // The unit knows a way: the cached one, or -- at the earliest some ticks after a search in vain -- a new one.
  ghost predicate FindsWay(c: Config, s: FightState, i: int, goal: HexCoord, tick: int, found: bool, t: FightState) {
    && 0 <= i < |s.units| && s.grid.Valid()
    && var u := s.units[i];
       if Cached(s.grid, u, goal) then found && t == s
       else if tick < u.nextPathTick then !found && t == s
       else
         exists path :: ShortestWay(s.grid, u.pos, goal, u.template.range, found, path) &&
           t == WithUnits(s, s.units[i := u.(path := path, pathIndex := 0, pathGoal := goal,
                                             nextPathTick := if found then u.nextPathTick else tick + c.repathBackoffTicks)])
  }

  // One hex along the route.
  ghost predicate StepsAhead(c: Config, s: FightState, i: int, tick: int, t: FightState)
    requires ConfigOk(c)
  {
    && 0 <= i < |s.units| && 0 <= s.units[i].pathIndex < |s.units[i].path|
    && var u := s.units[i];
       var next := u.path[u.pathIndex];
       && Adjacent(u.pos, next) && Vacated(s.grid, t.grid, u.pos, next)
       && t == WithUnits(s, s.units[i := u.(pos := next, pathIndex := u.pathIndex + 1, nextMoveTick := tick + StepTicks(c, tick))])
                 .(log := s.log + [Move(tick, u.id, u.pos, next)], grid := t.grid)
  }

  ghost predicate Approaches(c: Config, s: FightState, i: int, goal: HexCoord, tick: int, t: FightState)
    requires ConfigOk(c)
  {
    exists found, w :: FindsWay(c, s, i, goal, tick, found, w) && if found then StepsAhead(c, w, i, tick, t) else t == w
  }

  predicate IsStationary(u: FightUnit) {
    u.template.stationary && !HasStatus(u, Awakened)
  }

  // With its target known: in range -- or rooted to the spot with something to cast -- it engages; else, unless
  // it is stationary, rooted or not yet due, it approaches.
  ghost predicate GoesOn(c: Config, s: FightState, i: int, tick: int, law: Law, t: FightState)
    requires ConfigOk(c)
  {
    && 0 <= i < |s.units| && s.units[i].target < |s.units|
    && var u := s.units[i];
       if u.target < 0 then t == s
       else if Distance(u.pos, s.units[u.target].pos) <= u.template.range || (IsStationary(u) && u.template.ability.Ability?) then
         Engages(c, s, i, IsStationary(u), tick, law, t)
       else if !IsStationary(u) && !HasStatus(u, Root) && tick >= u.nextMoveTick then Approaches(c, s, i, s.units[u.target].pos, tick, t)
       else t == s
  }

  // Nothing for the dead, the disabled and the locked; everybody else picks a target and goes on from there.
  ghost predicate TakesTurn(c: Config, s: FightState, i: int, tick: int, law: Law, t: FightState)
    requires ConfigOk(c)
  {
    && 0 <= i < |s.units|
    && var u := s.units[i];
       if !u.alive || IsDisabled(u) || tick < u.lockedUntil then t == s
       else exists w :: Retargets(s, i, w) && GoesOn(c, w, i, tick, law, t)
  }

  // Everybody, in the order of the units.
  ghost predicate AllTakeTurns(c: Config, s: FightState, tick: int, law: Law, t: FightState)
    requires ConfigOk(c)
  {
    InOrder(s, Upto(|s.units|), (a: FightState, i: int, b: FightState) => TakesTurn(c, a, i, tick, law, b), t)
  }

  // ---- The phases ----------------------------------------------------------------------------------

  // What has run out is gone.
  ghost predicate AllExpire(s: FightState, tick: int, t: FightState) {
    && |t.units| == |s.units| && (forall i | 0 <= i < |s.units| :: Expired(s.units[i], t.units[i], tick))
    && s.log <= t.log && t == WithUnits(s, t.units).(log := t.log)
  }

  // Every aura's list is right, and nobody has moved.
  ghost predicate AurasFollow(s: FightState, t: FightState) {
    && SamePlaces(s.units, t.units) && (forall h, b | 0 <= h < |t.units| && 0 <= b < |s.units[h].template.auras| :: Settled(t.units, h, b))
    && s.log <= t.log && t == WithUnits(s, t.units).(log := t.log)
  }

  ghost predicate DueRunsAndChannels(s: FightState, tick: int, law: Law, t: FightState) {
    exists w :: AllDueRun(s, tick, law, w) && ChannelsComplete(w, tick, t)
  }

  // All queued casts run, and the queue they leave behind is theirs.
  ghost predicate CastsRun(s: FightState, tick: int, law: Law, t: FightState) {
    BatchRuns(s.(casts := []), s.casts, false, tick, law, t)
  }

  // Every living unit's damage over time moves on by a tick.
  ghost predicate DotsTick(s: FightState, tick: int, t: FightState) {
    && |t.units| == |s.units| && (forall i | 0 <= i < |s.units| :: IsStepped(s.units[i], t.units[i], tick))
    && t.hits == s.hits + AllDotHits(s.units, |s.units|, tick) && s.log <= t.log && t == WithUnits(s, t.units).(log := t.log, hits := t.hits)
  }

  // Mana changes are told, nothing else happens.
  ghost predicate ManaIsTold(s: FightState, tick: int, t: FightState) {
    && s.log <= t.log && t == s.(log := t.log)
    && forall k | |s.log| <= k < |t.log| :: t.log[k].Note? && t.log[k].kind == ManaChanged && t.log[k].tick == tick
  }

  // ---- Deaths --------------------------------------------------------------------------------------

  function DeathsOf(units: seq<FightUnit>, dead: seq<int>, tick: int): seq<Event> {
    if dead == [] then []
    else
      var x := dead[|dead| - 1];
      DeathsOf(units, dead[..|dead| - 1], tick) + if 0 <= x < |units| then [Death(tick, units[x].id, units[x].isSummon)] else []
  }

  // Exactly the living at 0 HP, in the order of the units, fall -- all of them before anything follows from it.
  ghost predicate FallTogether(s: FightState, dead: seq<int>, tick: int, t: FightState) {
    && (forall i :: i in dead <==> 0 <= i < |s.units| && s.units[i].alive && s.units[i].hp == 0)
    && (forall a, b | 0 <= a < b < |dead| :: dead[a] < dead[b])
    && |t.units| == |s.units| && (forall i | 0 <= i < |s.units| :: t.units[i] == if i in dead then Fallen(s.units[i]) else s.units[i])
    && t.log == s.log + DeathsOf(s.units, dead, tick)
    && t == WithUnits(s, t.units).(log := t.log, grid := t.grid, alive := t.alive, summonAlive := t.summonAlive, chan := t.chan)
  }

  // The pilot of a fallen mech is out of it; if it lives it is back in the fight, and its passives run.
  ghost predicate PilotReturns(s: FightState, mech: int, tick: int, law: Law, t: FightState) {
    && 0 <= mech < |s.units|
    && var pilot := s.units[mech].pilot;
       if !(0 <= pilot < |s.units|) then t == s
       else
         var us := s.units[mech := s.units[mech].(pilot := -1)];
         var vs := us[pilot := us[pilot].(mech := -1)];
         if !vs[pilot].alive then t == WithUnits(s, vs)
         else PassivesRun(WithUnits(s, vs[pilot := ClimbedOut(vs[pilot], tick)])
                            .(log := s.log + [StatusEnded(tick, vs[pilot].id, Piloting, vs[pilot].hp)]), pilot, law, t)
  }

  // What the dead unit x leaves behind.
  ghost predicate LastAct(s: FightState, x: int, tick: int, law: Law, t: FightState) {
    exists w :: HooksFire(s, OnDeathOf(x), tick, law, w) && PilotReturns(w, x, tick, law, t)
  }

  ghost predicate LastActsRun(s: FightState, dead: seq<int>, tick: int, law: Law, t: FightState) {
    InOrder(s, dead, (a: FightState, x: int, b: FightState) => LastAct(a, x, tick, law, b), t)
  }

  ghost predicate LastWordsSaid(s: FightState, dead: seq<int>, tick: int, t: FightState) {
    t == s.(casts := s.casts + LastWords(s.units, dead, s.castSerial), log := s.log + LastNotes(s.units, LastWords(s.units, dead, s.castSerial), tick))
  }

  // The last words and whatever else was queued run, land, and call up hooks of their own.
  ghost predicate LastWordsLand(s: FightState, tick: int, law: Law, t: FightState) {
    exists v, w :: CastsRun(s, tick, law, v) && AllHitsLand(v, tick, law, w) && HooksProcessed(w, tick, law, t)
  }

  // After the fall: last acts, rewards for the killers, last words, and the hooks that listen for deaths.
  ghost predicate DeathsAreMarked(s: FightState, dead: seq<int>, tick: int, law: Law, cast: bool, t: FightState) {
    exists u, v, w ::
      && LastActsRun(s, dead, tick, law, u) && KillersRewarded(u, dead, tick, law, v) && LastWordsSaid(v, dead, tick, w) && HooksFire(w, OnAnyDeath(dead), tick, law, t)
      && (cast <==> LastWords(v.units, dead, v.castSerial) != [])
  }

  // One round; stable: nobody fell, or nobody had anything left to cast.
  ghost predicate RoundReaps(s: FightState, tick: int, law: Law, stable: bool, t: FightState) {
    exists dead, w :: FallTogether(s, dead, tick, w) && if dead == [] then stable && t == w else RoundGoesOn(w, dead, tick, law, stable, t)
  }

  ghost predicate RoundGoesOn(s: FightState, dead: seq<int>, tick: int, law: Law, stable: bool, t: FightState) {
    exists cast, w ::
      && DeathsAreMarked(s, dead, tick, law, cast, w)
      && if !cast && w.casts == [] then stable && t == w else !stable && LastWordsLand(w, tick, law, t)
  }

  ghost predicate RoundsReap(s: FightState, n: nat, tick: int, law: Law, t: FightState) {
    InOrder(s, Upto(n), (a: FightState, k: int, b: FightState) => RoundReaps(a, tick, law, false, b), t)
  }

  // Round after round until one is stable, or the bound is reached.
  ghost predicate DeathsAreReaped(s: FightState, tick: int, law: Law, t: FightState) {
    RoundsReap(s, MAX_DEATH_CAST_ROUNDS, tick, law, t) || exists n: nat, w :: n < MAX_DEATH_CAST_ROUNDS && RoundsReap(s, n, tick, law, w) && RoundReaps(w, tick, law, true, t)
  }

  // ---- Before the first tick -----------------------------------------------------------------------

  // Every item's stats are on its unit, item by item.
  ghost predicate ItemsApply(s: FightState, t: FightState) {
    && (forall i | 0 <= i < |s.units| :: s.units[i].alive ==> TemplateOk(s.units[i].template))
    && |t.units| == |s.units| && s.log <= t.log
    && (forall i | 0 <= i < |s.units| ::
          t.units[i] == if s.units[i].alive then GearedUp(s.units[i], s.units[i].template.gear, |s.units[i].template.gear|, i) else s.units[i])
    && t == WithUnits(s, t.units).(log := t.log)
  }

  // The first ally that may pilot mech i.
  ghost predicate FirstPilot(units: seq<FightUnit>, i: int, fielded: nat, pilot: int) {
    && 0 <= i < |units| && fielded <= |units| && -1 <= pilot < fielded
    && (pilot >= 0 ==> CanPilot(units, i, pilot)) && forall j | 0 <= j < fielded && (pilot < 0 || j < pilot) :: !CanPilot(units, i, j)
  }

  // The pilot is inside: out of the fight, and linked to its mech.
  ghost predicate IsBoarded(s: FightState, i: int, pilot: int, t: FightState) {
    && 0 <= i < |s.units| && 0 <= pilot < |s.units| && pilot != i
    && t.units == s.units[i := s.units[i].(pilot := pilot)][pilot := WithStatus(s.units[pilot].(mech := i), Piloting, 0, FOREVER, false, i)]
    && s.log <= t.log && t == WithUnits(s, t.units).(log := t.log)
  }

  // A mech that is no summon takes in its first pilot, gains its HP, and casts the bonus of the pilot's class.
  ghost predicate TakesPilot(s: FightState, i: int, fielded: nat, law: Law, t: FightState) {
    && 0 <= i < |s.units|
    && if !s.units[i].template.pilots || s.units[i].isSummon then t == s
       else exists pilot :: FirstPilot(s.units, i, fielded, pilot) && if pilot < 0 then t == s else Boards(s, i, pilot, law, t)
  }

  ghost predicate Boards(s: FightState, i: int, pilot: int, law: Law, t: FightState) {
    exists v, w :: IsBoarded(s, i, pilot, v) && Executes(v, CastRecord(i, -1, [], false, 0, false, false), MechHp(), 0, law, w) && Continues(w, t)
  }

  function MechHp(): Effect {
    Effect(StatusEffect(BonusMaxHp, true, false), 0, 1, 0, false)
  }

  ghost predicate PilotsBoard(s: FightState, law: Law, t: FightState) {
    InOrder(s, Upto(|s.units|), (a: FightState, i: int, b: FightState) => TakesPilot(a, i, |s.units|, law, b), t)
  }

  // Whoever stands there now runs its passives, in order.
  ghost predicate AllPassivesRun(s: FightState, law: Law, t: FightState) {
    InOrder(s, Upto(|s.units|), (a: FightState, i: int, b: FightState) => PassivesRun(a, i, law, b), t)
  }

  // Items, synergies, pilots and passives, in this order.
  ghost predicate IsPrepared(s: FightState, law: Law, t: FightState) {
    exists a, b, c, d ::
      ItemsApply(s, a) && ManaIsTold(a, 0, b) && Continues(b, c) && PilotsBoard(c, law, d) && AllPassivesRun(d, law, t)
  }

  // ---- The tick ------------------------------------------------------------------------------------

  // What was declared is resolved: interval hooks, the schedule, the casts, damage over time, the hits, ...
  ghost predicate HitsResolve(s: FightState, tick: int, law: Law, t: FightState) {
    exists a, b, c, d ::
      HooksFire(s, OnInterval, tick, law, a) && DueRunsAndChannels(a, tick, law, b) && CastsRun(b, tick, law, c) && DotsTick(c, tick, d) && AllHitsLand(d, tick, law, t)
  }

  // ... then the statuses that act on their own, the hooks, and the deaths.
  ghost predicate Settles(s: FightState, tick: int, law: Law, t: FightState) {
    exists a, b, c, d ::
      SweepsAll(s, tick, law.cut, a) && HooksProcessed(a, tick, law, b) && HooksFire(b, OnTeamHpLoss, tick, law, c) && DeathsAreReaped(c, tick, law, d) && ManaIsTold(d, tick, t)
  }

  ghost predicate Resolves(s: FightState, tick: int, law: Law, t: FightState) {
    exists w :: HitsResolve(s, tick, law, w) && Settles(w, tick, law, t)
  }

  // Overtime, expiry, auras, everybody's turn, and the resolution, one after the other.
  ghost predicate TickRuns(c: Config, s: FightState, tick: int, t: FightState)
    requires ConfigOk(c)
  {
    exists o, e, a, d ::
      && OvertimeBegins(c, s, tick, o) && AllExpire(o, tick, e) && AurasFollow(e, a) && AllTakeTurns(c, a, tick, LawAt(c, tick), d)
      && Resolves(d, tick, LawAt(c, tick), t)
  }

  // ---- The ticks of a fight ------------------------------------------------------------------------

  predicate BothStand(s: FightState) {
    |s.alive| == 2 && s.alive[0] > 0 && s.alive[1] > 0
  }

  // n ticks, each of them begun with both sides standing.
  ghost predicate TicksRun(c: Config, s: FightState, n: nat, t: FightState)
    requires ConfigOk(c)
  {
    InOrder(s, Upto(n), (a: FightState, tick: int, b: FightState) => BothStand(a) && TickRuns(c, a, tick, b), t)
  }

  // The fight ends with the tick in which a side falls, at the latest at its limit.
  ghost predicate FightRuns(c: Config, maxTicks: int, s: FightState, endTick: int, timedOut: bool, t: FightState)
    requires ConfigOk(c)
  {
    var limit := Min(maxTicks, c.hardLimitTicks);
    if !BothStand(s) then t == s && endTick == 0 && !timedOut
    else if timedOut then endTick == limit && TicksRun(c, s, if limit > 0 then limit else 0, t) && BothStand(t)
    else 0 <= endTick < limit && TicksRun(c, s, endTick + 1, t) && !BothStand(t)
  }

  // From the first Spawn: after the preparations the fight runs its course, and in the end the summons vanish.
  ghost predicate WholeFight(c: Config, maxTicks: int, fielded: seq<FightUnit>, endTick: int, timedOut: bool, units: seq<FightUnit>)
    requires ConfigOk(c)
  {
    exists s: FightState, p: FightState, t: FightState ::
      && s.units == fielded && |s.log| == |fielded| && (forall i | 0 <= i < |fielded| :: s.log[i] == SpawnOf(fielded[i]))
      && IsPrepared(s, LawAt(c, -1), p) && FightRuns(c, maxTicks, p, endTick, timedOut, t)
      && |units| == |t.units| && forall i | 0 <= i < |units| :: units[i] == if t.units[i].isSummon && t.units[i].alive then Vanished(t.units[i]) else t.units[i]
  }

  lemma WholeFightIs(c: Config, maxTicks: int, s: FightState, endTick: int, timedOut: bool, t: FightState, units: seq<FightUnit>)
    requires ConfigOk(c) && |s.log| == |s.units| && (forall i | 0 <= i < |s.units| :: s.log[i] == SpawnOf(s.units[i]))
    requires exists p :: IsPrepared(s, LawAt(c, -1), p) && FightRuns(c, maxTicks, p, endTick, timedOut, t)
    requires |units| == |t.units| && forall i | 0 <= i < |units| :: units[i] == if t.units[i].isSummon && t.units[i].alive then Vanished(t.units[i]) else t.units[i]
    ensures WholeFight(c, maxTicks, s.units, endTick, timedOut, units)
  {
    hide IsPrepared, FightRuns, Vanished, SpawnOf;
  }

  // ---- What a viewer sees of it --------------------------------------------------------------------

  // Since state s the log has an attack of this unit on that one.
  ghost predicate AttackTold(s: FightState, t: FightState, tick: int, unit: UnitId, other: UnitId) {
    exists k :: |s.log| <= k < |t.log| && t.log[k] == Note(tick, unit, Attack(other))
  }

  // The last word of the turn is a cast of this unit.
  predicate CastTold(s: FightState, t: FightState, tick: int, unit: UnitId) {
    |s.log| < |t.log| && t.log[|t.log| - 1] == Note(tick, unit, SpellCast)
  }

  // Nothing keeps the unit from acting.
  predicate Free(u: FightUnit, tick: int) {
    u.alive && !IsDisabled(u) && tick >= u.lockedUntil
  }

  // A free unit whose timer is due and that is neither stationary nor blind attacks somebody in its range if
  // an enemy it may pick is there -- unless it casts in this turn.
  lemma DueAttackIsWritten(c: Config, s: FightState, i: int, j: int, tick: int, law: Law, t: FightState)
    requires ConfigOk(c) && TakesTurn(c, s, i, tick, law, t) && Free(s.units[i], tick) && !IsStationary(s.units[i])
    requires tick >= s.units[i].nextAttackTick && !HasStatus(s.units[i], Blind) && 0 <= j < |s.units| && Candidate(s.units, i, j, true)
    ensures exists x :: 0 <= x < |s.units| && Distance(s.units[i].pos, s.units[x].pos) <= s.units[i].template.range
                        && (AttackTold(s, t, tick, s.units[i].id, s.units[x].id) || (s.units[i].template.ability.Ability? && CastTold(s, t, tick, s.units[i].id)))
  {
    hide IsDisabled, Distance, HasStatus, CanAutoTarget, Engages, Approaches;
    var u := s.units[i];
    var w :| Retargets(s, i, w) && GoesOn(c, w, i, tick, law, t);
    var x := w.units[i].target;
    TargetInRange(s.units, i, j, x);
    assert w.units[i].pos == u.pos && w.units[i].template == u.template && w.units[i].statuses == u.statuses && w.units[x].pos == s.units[x].pos && w.units[x].id == s.units[x].id;
    SameStatuses(u, w.units[i], Blind);
    SameStatuses(u, w.units[i], Awakened);
    assert Engages(c, w, i, false, tick, law, t);
    hide Retargets, GoesOn, TakesTurn;
    EngagedTells(c, w, i, tick, law, t);
    assert w.log == s.log;
    if AttackTold(w, t, tick, u.id, s.units[x].id) {
      assert AttackTold(s, t, tick, u.id, s.units[x].id);
    }
  }

  lemma TargetInRange(units: seq<FightUnit>, i: nat, j: nat, x: int)
    requires i < |units| && j < |units| && Candidate(units, i, j, true) && IsTarget(units, i, x) && -1 <= x < |units|
    ensures x >= 0 && Distance(units[i].pos, units[x].pos) <= units[i].template.range
  {
    hide Distance, CanAutoTarget;
    assert Candidate(units, i, j, false);
  }

  lemma EngagedTells(c: Config, s: FightState, i: int, tick: int, law: Law, t: FightState)
    requires ConfigOk(c) && 0 <= i < |s.units| && 0 <= s.units[i].target < |s.units| && Engages(c, s, i, false, tick, law, t)
    requires tick >= s.units[i].nextAttackTick && !HasStatus(s.units[i], Blind)
    ensures AttackTold(s, t, tick, s.units[i].id, s.units[s.units[i].target].id) || (CastsFirst(s, i, tick, law) && CastTold(s, t, tick, s.units[i].id))
  {
    hide HasStatus, DeclaresCast, Attacks;
    var u := s.units[i];
    if CastsFirst(s, i, tick, law) {
      var w :| DeclaresCast(s, i, u.target, tick, law, w) && AttacksUnlessLocked(c, u, w, i, false, tick, law, t);
      CastTells(s, i, u.target, tick, law, w);
      if t != w {
        AttackTells(c, w, i, tick, law, t);
        var k :| |w.log| <= k < |t.log| && t.log[k] == Note(tick, u.id, Attack(s.units[u.target].id));
        assert AttackTold(s, t, tick, u.id, s.units[u.target].id);
      }
    } else {
      AttackTells(c, s, i, tick, law, t);
    }
  }

  lemma CastTells(s: FightState, i: int, target: int, tick: int, law: Law, t: FightState)
    requires DeclaresCast(s, i, target, tick, law, t) && 0 <= s.units[i].target < |s.units|
    ensures s.units[i].template.ability.Ability? && CastTold(s, t, tick, s.units[i].id) && |t.units| == |s.units|
    ensures t.units[i].id == s.units[i].id && t.units[i].target == s.units[i].target && t.units[s.units[i].target].id == s.units[s.units[i].target].id
  {
    hide HooksFire, Declaration;
    var w :| IsLocked(s, i, tick, w) && IsDeclared(w, Declaration(s.units[i], i, target, w.castSerial, false), i, tick, law, t);
    var cast := Declaration(s.units[i], i, target, w.castSerial, false);
    var x :| HooksFire(w.(casts := w.casts + [cast]), OnCast(i), tick, law, x) && IsTold(x, i, tick, t);
    HooksAreQuiet(w.(casts := w.casts + [cast]), OnCast(i), tick, law, x);
  }

  lemma AttackTells(c: Config, s: FightState, i: int, tick: int, law: Law, t: FightState)
    requires ConfigOk(c) && 0 <= i < |s.units| && 0 <= s.units[i].target < |s.units| && Attacks(c, s, i, tick, law, t)
    ensures AttackTold(s, t, tick, s.units[i].id, s.units[s.units[i].target].id)
  {
    hide SpreadDot, AttackIsHeard;
    var scene, n := SceneOf(s, tick), law.numbers;
    var w :| Swings(c, s, i, n.attackDamage(scene, i), n.attackSpread(scene, i), n.attackInterval(scene, i), tick, w) && AttackIsHeard(w, i, tick, law, t);
    HeardGrows(w, i, tick, law, t);
    assert t.log[|s.log|] == w.log[|s.log|];
  }

  lemma HeardGrows(s: FightState, i: int, tick: int, law: Law, t: FightState)
    requires AttackIsHeard(s, i, tick, law, t)
    ensures s.log <= t.log
  {
    hide HooksFire, DeclaresCast, Listed;
    var a, b :| HooksFire(s, OnAttack(i), tick, law, a) && RiderIsQueued(a, i, tick, law, b) && CastsOnNth(b, i, tick, law, t);
    HooksAreQuiet(s, OnAttack(i), tick, law, a);
    if t != b {
      CastGrows(b, i, b.units[i].target, tick, law, t);
    }
  }

  lemma CastGrows(s: FightState, i: int, target: int, tick: int, law: Law, t: FightState)
    requires DeclaresCast(s, i, target, tick, law, t)
    ensures s.log <= t.log
  {
    hide HooksFire, Declaration, Locked;
    var w :| IsLocked(s, i, tick, w) && IsDeclared(w, Declaration(s.units[i], i, target, w.castSerial, false), i, tick, law, t);
    var cast := Declaration(s.units[i], i, target, w.castSerial, false);
    var x :| HooksFire(w.(casts := w.casts + [cast]), OnCast(i), tick, law, x) && IsTold(x, i, tick, t);
    HooksAreQuiet(w.(casts := w.casts + [cast]), OnCast(i), tick, law, x);
  }

  // A free unit with nobody to attack in its range takes a step towards its target if its timers are due, it
  // is neither stationary nor rooted, and there is a free way.
  lemma DueStepIsTaken(c: Config, s: FightState, i: int, path: seq<HexCoord>, tick: int, law: Law, t: FightState)
    requires ConfigOk(c) && TakesTurn(c, s, i, tick, law, t) && s.grid.Valid() && s.members == MembersOf(s.units) && Free(s.units[i], tick)
    requires Usable(s.units, s.units[i].target) && Distance(s.units[i].pos, s.units[s.units[i].target].pos) > s.units[i].template.range
    requires forall j | 0 <= j < |s.units| :: !Candidate(s.units, i, j, true)
    requires !IsStationary(s.units[i]) && !HasStatus(s.units[i], Root) && tick >= s.units[i].nextMoveTick && tick >= s.units[i].nextPathTick
    requires IsPath(s.grid, s.units[i].pos, path) && Distance(EndOf(s.units[i].pos, path), s.units[s.units[i].target].pos) <= s.units[i].template.range
    ensures i < |t.units| && Adjacent(s.units[i].pos, t.units[i].pos) && t.log == s.log + [Move(tick, s.units[i].id, s.units[i].pos, t.units[i].pos)]
    ensures t.units[i].nextMoveTick == tick + StepTicks(c, tick)
  {
    hide IsDisabled, Distance, HasStatus, CanAutoTarget, Engages, Approaches, IsPath, EndOf, Adjacent, Vacated, StepTicks, MembersOf;
    var u := s.units[i];
    var w :| Retargets(s, i, w) && GoesOn(c, w, i, tick, law, t);
    assert w.units[i].target == u.target;
    assert w == s;
    assert Approaches(c, s, i, s.units[u.target].pos, tick, t);
    hide Retargets, GoesOn, TakesTurn, Usable, IsTarget;
    StepIsTold(c, s, i, s.units[u.target].pos, path, tick, t);
  }

  lemma StepIsTold(c: Config, s: FightState, i: int, goal: HexCoord, path: seq<HexCoord>, tick: int, t: FightState)
    requires ConfigOk(c) && 0 <= i < |s.units| && s.grid.Valid() && Approaches(c, s, i, goal, tick, t) && tick >= s.units[i].nextPathTick
    requires IsPath(s.grid, s.units[i].pos, path) && Distance(EndOf(s.units[i].pos, path), goal) <= s.units[i].template.range
    ensures i < |t.units| && Adjacent(s.units[i].pos, t.units[i].pos) && t.log == s.log + [Move(tick, s.units[i].id, s.units[i].pos, t.units[i].pos)]
    ensures t.units[i].nextMoveTick == tick + StepTicks(c, tick)
  {
    hide Distance, IsPath, EndOf, Adjacent, Vacated, StepTicks, MembersOf;
    var found, w :| FindsWay(c, s, i, goal, tick, found, w) && if found then StepsAhead(c, w, i, tick, t) else t == w;
  }

  // For as long as its cast takes -- a channel one tick longer, for its finale -- a caster is not free.
  lemma CastersAreLocked(u: FightUnit, tick: int, serial: int, now: int)
    requires u.template.ability.Ability? && tick <= now
    ensures var v, ability := Locked(u, tick, serial, false), u.template.ability;
            && (ability.channelTicks > 0 && now <= tick + ability.channelTicks ==> !Free(v, now) && now < v.nextAttackTick && v.activeChannelSerial == serial)
            && (ability.channelTicks <= 0 && ability.castLockTicks > 0 && now < tick + ability.castLockTicks ==> !Free(v, now) && now < v.nextAttackTick)
  {
    hide IsDisabled;
  }

  // Every tick of a fight is one in which both sides stand at first, and all its phases happen.
  lemma {:induction false} EveryTickRuns(c: Config, s: FightState, n: nat, t: FightState, k: nat)
    requires ConfigOk(c) && TicksRun(c, s, n, t) && k < n
    ensures exists a, b :: TicksRun(c, s, k, a) && BothStand(a) && TickRuns(c, a, k, b)
  {
    hide TickRuns, BothStand;
    var step := (a: FightState, tick: int, b: FightState) => BothStand(a) && TickRuns(c, a, tick, b);
    assert Upto(n)[..n - 1] == Upto(n - 1);
    var w :| InOrder(s, Upto(n)[..n - 1], step, w) && step(w, Upto(n)[n - 1], t);
    assert TicksRun(c, s, n - 1, w);
    if k < n - 1 {
      EveryTickRuns(c, s, n - 1, w, k);
    }
  }

  // ---- A turn, step by step ------------------------------------------------------------------------

  lemma RetargetsIs(s: FightState, i: int, t: FightState)
    requires 0 <= i < |s.units| == |t.units| && IsTarget(s.units, i, t.units[i].target) && -1 <= t.units[i].target < |s.units|
    requires t.units == if Usable(s.units, s.units[i].target) && t.units[i].target == s.units[i].target then s.units
                        else s.units[i := s.units[i].(target := t.units[i].target, path := [], pathIndex := 0)]
    requires t == s.(units := t.units, members := MembersOf(t.units))
    ensures Retargets(s, i, t)
  {
    hide IsTarget, Usable, MembersOf;
  }

  lemma IsLockedIs(s: FightState, i: int, tick: int, t: FightState)
    requires 0 <= i < |s.units| && s.units[i].template.ability.Ability?
    requires t.castSerial == s.castSerial + if s.units[i].template.ability.channelTicks > 0 then 1 else 0
    requires t.units == s.units[i := Locked(s.units[i], tick, t.castSerial, false)]
    requires t == s.(units := t.units, members := MembersOf(t.units), castSerial := t.castSerial, chan := t.chan)
    ensures IsLocked(s, i, tick, t)
  {
    hide Locked, MembersOf;
  }

  lemma DeclaresCastIs(s: FightState, i: int, target: int, w: FightState, tick: int, law: Law, t: FightState)
    requires IsLocked(s, i, tick, w) && IsDeclared(w, Declaration(s.units[i], i, target, w.castSerial, false), i, tick, law, t)
    ensures DeclaresCast(s, i, target, tick, law, t)
  {
    hide IsDeclared, Declaration, Locked;
  }

  lemma IsDeclaredIs(s: FightState, cast: CastRecord, i: int, w: FightState, x: FightState, tick: int, law: Law, t: FightState)
    requires w == s.(casts := s.casts + [cast]) && HooksFire(w, OnCast(i), tick, law, x)
    requires 0 <= i < |x.units| && t == x.(log := x.log + [Note(tick, x.units[i].id, SpellCast)])
    ensures IsDeclared(s, cast, i, tick, law, t)
  {
    hide HooksFire;
    assert IsTold(x, i, tick, t);
  }

  lemma SwingsIs(c: Config, s: FightState, i: int, target: int, raw: int, spread: int, interval: int, tick: int, t: FightState)
    requires ConfigOk(c) && 0 <= i < |s.units| && 0 <= target < |s.units| && target == s.units[i].target && tick >= 0
    requires var us := s.units[i := s.units[i].(nextAttackTick := tick + Max(1, interval))];
             t.units == if raw > 0 && spread > 0 && us[target].alive
                        then us[target := us[target].(dots := us[target].dots + [SpreadDot(i, tick, spread, c.dotSpreadIntervalTicks, raw)])] else us
    requires t.log == s.log + [Note(tick, s.units[i].id, Attack(s.units[target].id))]
    requires t.hits == s.hits + if raw > 0 && spread <= 0 then [Hit(i, target, raw, false, false, 0)] else []
    requires t == s.(units := t.units, members := MembersOf(t.units), log := t.log, hits := t.hits)
    ensures Swings(c, s, i, raw, spread, interval, tick, t)
  {
    hide SpreadDot, MembersOf;
  }

  lemma AttacksIs(c: Config, s: FightState, i: int, raw: int, spread: int, interval: int, tick: int, law: Law, w: FightState, t: FightState)
    requires ConfigOk(c) && Swings(c, s, i, raw, spread, interval, tick, w) && AttackIsHeard(w, i, tick, law, t)
    requires var scene, n := SceneOf(s, tick), law.numbers;
             raw == n.attackDamage(scene, i) && spread == n.attackSpread(scene, i) && interval == n.attackInterval(scene, i)
    ensures Attacks(c, s, i, tick, law, t)
  {
    hide Swings, AttackIsHeard;
  }

  lemma AttackIsHeardIs(s: FightState, i: int, a: FightState, b: FightState, tick: int, law: Law, t: FightState)
    requires HooksFire(s, OnAttack(i), tick, law, a) && RiderIsQueued(a, i, tick, law, b) && CastsOnNth(b, i, tick, law, t)
    ensures AttackIsHeard(s, i, tick, law, t)
  {
    hide HooksFire, RiderIsQueued, CastsOnNth;
  }

  lemma RiderIsQueuedIs(s: FightState, i: int, effects: seq<Effect>, tick: int, law: Law, t: FightState)
    requires 0 <= i < |s.units| && effects == Listed(law.numbers.attackRider(SceneOf(s, tick), i))
    requires t == if effects == [] then s else s.(casts := s.casts + [CastRecord(i, s.units[i].target, effects, false, 0, false, false)])
    ensures RiderIsQueued(s, i, tick, law, t)
  {
    hide Listed;
  }

  lemma CastsOnNthIs(s: FightState, i: int, tick: int, law: Law, t: FightState)
    requires 0 <= i < |s.units|
    requires if law.numbers.castsNow(SceneOf(s, tick), i) && s.units[i].template.ability.Ability? then DeclaresCast(s, i, s.units[i].target, tick, law, t) else t == s
    ensures CastsOnNth(s, i, tick, law, t)
  {
    hide DeclaresCast;
  }

  lemma AttacksIfDueIs(c: Config, s: FightState, i: int, stationary: bool, tick: int, law: Law, t: FightState)
    requires ConfigOk(c) && 0 <= i < |s.units|
    requires if !stationary && tick >= s.units[i].nextAttackTick && !HasStatus(s.units[i], Blind) then Attacks(c, s, i, tick, law, t) else t == s
    ensures AttacksIfDue(c, s, i, stationary, tick, law, t)
  {
    hide Attacks, HasStatus;
  }

  lemma EngagesIs(c: Config, s: FightState, i: int, stationary: bool, tick: int, law: Law, w: FightState, t: FightState)
    requires ConfigOk(c) && 0 <= i < |s.units|
    requires if CastsFirst(s, i, tick, law) then
               && DeclaresCast(s, i, s.units[i].target, tick, law, w) && s.units[i].template.ability.Ability?
               && if s.units[i].template.ability.castLockTicks > 0 then t == w else AttacksIfDue(c, w, i, stationary, tick, law, t)
             else AttacksIfDue(c, s, i, stationary, tick, law, t)
    ensures Engages(c, s, i, stationary, tick, law, t)
  {
    hide DeclaresCast, AttacksIfDue;
    if CastsFirst(s, i, tick, law) {
      assert AttacksUnlessLocked(c, s.units[i], w, i, stationary, tick, law, t);
    }
  }

  lemma CastsFirstIs(s: FightState, i: int, tick: int, law: Law)
    requires 0 <= i < |s.units|
    ensures CastsFirst(s, i, tick, law) <==> s.units[i].template.ability.Ability? && law.numbers.castsFirst(SceneOf(s, tick), i)
  {
  }

  lemma FindsWayIs(c: Config, s: FightState, i: int, goal: HexCoord, tick: int, found: bool, t: FightState)
    requires 0 <= i < |s.units| == |t.units| && s.grid.Valid() && t == s.(units := t.units, members := MembersOf(t.units)) && s.members == MembersOf(s.units)
    requires var u, v := s.units[i], t.units[i];
             if Cached(s.grid, u, goal) then found && t.units == s.units
             else if tick < u.nextPathTick then !found && t.units == s.units
             else && ShortestWay(s.grid, u.pos, goal, u.template.range, found, v.path)
                  && t.units == s.units[i := u.(path := v.path, pathIndex := 0, pathGoal := goal, nextPathTick := if found then u.nextPathTick else tick + c.repathBackoffTicks)]
    ensures FindsWay(c, s, i, goal, tick, found, t)
  {
    hide Cached, ShortestWay, MembersOf;
  }

  lemma ShortestWayIs(g: Grid, from: HexCoord, goal: HexCoord, range: int, found: bool, path: seq<HexCoord>)
    requires g.Valid() && (found ==> IsPath(g, from, path) && Distance(EndOf(from, path), goal) <= range) && (!found ==> path == [])
    requires forall other | IsPath(g, from, other) && Distance(EndOf(from, other), goal) <= range :: found && |path| <= |other|
    requires !found ==> NoWay(g, from, goal, range)
    ensures ShortestWay(g, from, goal, range, found, path)
  {
    hide IsPath, Distance, EndOf, NoWay;
  }

  lemma NoWayStays(s: FightState, t: FightState, i: nat, goal: HexCoord, found: bool)
    requires i < |s.units| == |t.units| && t.grid == s.grid && s.grid.Valid()
    requires t.units[i].pos == s.units[i].pos && t.units[i].template == s.units[i].template
    requires ShortestWay(t.grid, t.units[i].pos, goal, t.units[i].template.range, found, t.units[i].path)
    ensures ShortestWay(s.grid, s.units[i].pos, goal, s.units[i].template.range, found, t.units[i].path)
    ensures !found ==> NoWay(t.grid, t.units[i].pos, goal, t.units[i].template.range)
  {
    hide IsPath, Distance, EndOf, NoWay;
  }

  lemma CachedIs(g: Grid, u: FightUnit, goal: HexCoord)
    requires g.Valid()
    ensures Cached(g, u, goal) <==> 0 <= u.pathIndex < |u.path| && u.pathGoal == goal && !g.IsBlocked(u.path[u.pathIndex])
  {
  }

  lemma StepsAheadIs(c: Config, s: FightState, i: int, tick: int, moveTicks: int, t: FightState)
    requires ConfigOk(c) && 0 <= i < |s.units| && 0 <= s.units[i].pathIndex < |s.units[i].path| && moveTicks == StepTicks(c, tick)
    requires var u := s.units[i];
             var next := u.path[u.pathIndex];
             && Adjacent(u.pos, next) && Vacated(s.grid, t.grid, u.pos, next)
             && t.units == s.units[i := u.(pos := next, pathIndex := u.pathIndex + 1, nextMoveTick := tick + moveTicks)]
             && t.log == s.log + [Move(tick, u.id, u.pos, next)]
    requires t == s.(units := t.units, members := MembersOf(t.units), log := t.log, grid := t.grid)
    ensures StepsAhead(c, s, i, tick, t)
  {
    hide Adjacent, Vacated, MembersOf, StepTicks;
  }

  lemma ApproachesIs(c: Config, s: FightState, i: int, goal: HexCoord, tick: int, found: bool, w: FightState, t: FightState)
    requires ConfigOk(c) && FindsWay(c, s, i, goal, tick, found, w) && if found then StepsAhead(c, w, i, tick, t) else t == w
    ensures Approaches(c, s, i, goal, tick, t)
  {
    hide FindsWay, StepsAhead;
  }

  lemma StationaryIs(u: FightUnit)
    ensures IsStationary(u) <==> u.template.stationary && !HasStatus(u, Awakened)
  {
    hide HasStatus;
  }

  lemma TurnPasses(c: Config, s: FightState, i: int, tick: int, law: Law)
    requires ConfigOk(c) && 0 <= i < |s.units| && (!s.units[i].alive || IsDisabled(s.units[i]) || tick < s.units[i].lockedUntil)
    ensures TakesTurn(c, s, i, tick, law, s)
  {
    hide IsDisabled;
  }

  lemma GoesOnIs(c: Config, s: FightState, i: int, tick: int, law: Law, t: FightState)
    requires ConfigOk(c) && 0 <= i < |s.units| && s.units[i].target < |s.units|
    requires var u := s.units[i];
             if u.target < 0 then t == s
             else if Distance(u.pos, s.units[u.target].pos) <= u.template.range || (IsStationary(u) && u.template.ability.Ability?) then
               Engages(c, s, i, IsStationary(u), tick, law, t)
             else if !IsStationary(u) && !HasStatus(u, Root) && tick >= u.nextMoveTick then Approaches(c, s, i, s.units[u.target].pos, tick, t)
             else t == s
    ensures GoesOn(c, s, i, tick, law, t)
  {
    hide Distance, IsStationary, HasStatus, Engages, Approaches;
  }

  lemma TurnIsTaken(c: Config, s: FightState, i: int, tick: int, law: Law, w: FightState, t: FightState)
    requires ConfigOk(c) && 0 <= i < |s.units| && s.units[i].alive && !IsDisabled(s.units[i]) && tick >= s.units[i].lockedUntil
    requires Retargets(s, i, w) && GoesOn(c, w, i, tick, law, t)
    ensures TakesTurn(c, s, i, tick, law, t)
  {
    hide IsDisabled, Retargets, GoesOn;
  }

  lemma AllTakeTurnsIs(c: Config, s: FightState, tick: int, law: Law, t: FightState)
    requires ConfigOk(c) && InOrder(s, Upto(|s.units|), (a: FightState, i: int, b: FightState) => TakesTurn(c, a, i, tick, law, b), t)
    ensures AllTakeTurns(c, s, tick, law, t)
  {
    hide InOrder, TakesTurn, Upto;
  }

  // ---- A tick, step by step ------------------------------------------------------------------------

  lemma DueIs(s: FightState, tick: int, law: Law, t: FightState)
    requires exists w :: AllDueRun(s, tick, law, w) && ChannelsComplete(w, tick, t)
    ensures DueRunsAndChannels(s, tick, law, t)
  {
    hide AllDueRun, ChannelsComplete;
  }

  lemma CastsRunIs(s: FightState, tick: int, law: Law, t: FightState)
    requires BatchRuns(s.(casts := []), s.casts, false, tick, law, t)
    ensures CastsRun(s, tick, law, t)
  {
    hide BatchRuns;
  }

  lemma DotsTickIs(s: FightState, tick: int, t: FightState)
    requires |t.units| == |s.units| && (forall i | 0 <= i < |s.units| :: IsStepped(s.units[i], t.units[i], tick))
    requires t.hits == s.hits + AllDotHits(s.units, |s.units|, tick) && s.log <= t.log
    requires t == s.(units := t.units, members := MembersOf(t.units), log := t.log, hits := t.hits)
    ensures DotsTick(s, tick, t)
  {
    hide IsStepped, AllDotHits, MembersOf;
  }

  lemma HitsResolveIs(s: FightState, a: FightState, b: FightState, c: FightState, d: FightState, tick: int, law: Law, t: FightState)
    requires HooksFire(s, OnInterval, tick, law, a) && DueRunsAndChannels(a, tick, law, b) && CastsRun(b, tick, law, c) && DotsTick(c, tick, d) && AllHitsLand(d, tick, law, t)
    ensures HitsResolve(s, tick, law, t)
  {
    hide HooksFire, DueRunsAndChannels, CastsRun, DotsTick, AllHitsLand;
  }

  lemma SettlesIs(s: FightState, a: FightState, b: FightState, c: FightState, d: FightState, tick: int, law: Law, t: FightState)
    requires SweepsAll(s, tick, law.cut, a) && HooksProcessed(a, tick, law, b) && HooksFire(b, OnTeamHpLoss, tick, law, c) && DeathsAreReaped(c, tick, law, d) && ManaIsTold(d, tick, t)
    ensures Settles(s, tick, law, t)
  {
    hide SweepsAll, HooksProcessed, HooksFire, DeathsAreReaped, ManaIsTold;
  }

  lemma ResolvesIs(s: FightState, w: FightState, tick: int, law: Law, t: FightState)
    requires HitsResolve(s, tick, law, w) && Settles(w, tick, law, t)
    ensures Resolves(s, tick, law, t)
  {
    hide HitsResolve, Settles;
  }

  lemma NothingTold(s: FightState, tick: int)
    ensures ManaIsTold(s, tick, s)
  {
  }

  lemma OneMoreTold(s: FightState, t: FightState, unit: UnitId, tick: int)
    requires ManaIsTold(s, tick, t)
    ensures ManaIsTold(s, tick, t.(log := t.log + [Note(tick, unit, ManaChanged)]))
  {
  }

  // ---- Deaths, step by step ------------------------------------------------------------------------

  lemma NobodyFallen(s: FightState, tick: int)
    ensures DeathsOf(s.units, [], tick) == [] && s.log == s.log + DeathsOf(s.units, [], tick)
  {
  }

  lemma OneMoreFallen(units: seq<FightUnit>, dead: seq<int>, x: int, tick: int)
    requires 0 <= x < |units|
    ensures DeathsOf(units, dead + [x], tick) == DeathsOf(units, dead, tick) + [Death(tick, units[x].id, units[x].isSummon)]
  {
    assert (dead + [x])[..|dead|] == dead;
  }

  lemma StillAscending(dead: seq<int>, x: int)
    requires (forall a, b | 0 <= a < b < |dead| :: dead[a] < dead[b]) && forall i | i in dead :: i < x
    ensures forall a, b | 0 <= a < b < |dead + [x]| :: (dead + [x])[a] < (dead + [x])[b]
  {
    assert forall a | 0 <= a < |dead| :: dead[a] in dead;
  }

  lemma FallTogetherIs(s: FightState, dead: seq<int>, tick: int, t: FightState)
    requires (forall i :: i in dead <==> 0 <= i < |s.units| && s.units[i].alive && s.units[i].hp == 0)
    requires (forall a, b | 0 <= a < b < |dead| :: dead[a] < dead[b])
    requires |t.units| == |s.units| && (forall i | 0 <= i < |s.units| :: t.units[i] == if s.units[i].alive && s.units[i].hp == 0 then Fallen(s.units[i]) else s.units[i])
    requires t.log == s.log + DeathsOf(s.units, dead, tick)
    requires t == s.(units := t.units, members := MembersOf(t.units), log := t.log, grid := t.grid, alive := t.alive, summonAlive := t.summonAlive, chan := t.chan)
    ensures FallTogether(s, dead, tick, t)
  {
    hide DeathsOf, MembersOf, Fallen;
  }

  lemma SamePilot(u: FightUnit, tick: int)
    ensures ClimbedOut(u, tick).id == u.id && ClimbedOut(u, tick).hp == u.hp
  {
  }

  lemma NoPilot(s: FightState, mech: int, tick: int, law: Law)
    requires 0 <= mech < |s.units| && !(0 <= s.units[mech].pilot < |s.units|)
    ensures PilotReturns(s, mech, tick, law, s)
  {
    hide PassivesRun;
  }

  lemma PilotReturnsIs(s: FightState, mech: int, pilot: int, us: seq<FightUnit>, vs: seq<FightUnit>, tick: int, law: Law, w: FightState, t: FightState)
    requires 0 <= mech < |s.units| && pilot == s.units[mech].pilot && 0 <= pilot < |s.units|
    requires us == s.units[mech := s.units[mech].(pilot := -1)] && vs == us[pilot := us[pilot].(mech := -1)]
    requires if !vs[pilot].alive then t == s.(units := vs, members := MembersOf(vs))
             else && w.units == vs[pilot := ClimbedOut(vs[pilot], tick)] && w.log == s.log + [StatusEnded(tick, vs[pilot].id, Piloting, vs[pilot].hp)]
                  && w == s.(units := w.units, members := MembersOf(w.units), log := w.log) && PassivesRun(w, pilot, law, t)
    ensures PilotReturns(s, mech, tick, law, t)
  {
    hide PassivesRun, ClimbedOut, MembersOf;
  }

  lemma LastActIs(s: FightState, w: FightState, x: int, tick: int, law: Law, t: FightState)
    requires HooksFire(s, OnDeathOf(x), tick, law, w) && PilotReturns(w, x, tick, law, t)
    ensures LastAct(s, x, tick, law, t)
  {
    hide HooksFire, PilotReturns;
  }

  lemma LastActsRunIs(s: FightState, dead: seq<int>, tick: int, law: Law, t: FightState)
    requires InOrder(s, dead, (a: FightState, x: int, b: FightState) => LastAct(a, x, tick, law, b), t)
    ensures LastActsRun(s, dead, tick, law, t)
  {
    hide InOrder, LastAct;
  }

  lemma LastWordsSaidIs(s: FightState, dead: seq<int>, tick: int, t: FightState)
    requires t == s.(casts := s.casts + LastWords(s.units, dead, s.castSerial), log := s.log + LastNotes(s.units, LastWords(s.units, dead, s.castSerial), tick))
    ensures LastWordsSaid(s, dead, tick, t)
  {
    hide LastWords, LastNotes;
  }

  lemma LastWordsLandIs(s: FightState, v: FightState, w: FightState, tick: int, law: Law, t: FightState)
    requires CastsRun(s, tick, law, v) && AllHitsLand(v, tick, law, w) && HooksProcessed(w, tick, law, t)
    ensures LastWordsLand(s, tick, law, t)
  {
    hide CastsRun, AllHitsLand, HooksProcessed;
  }

  lemma DeathsAreMarkedIs(s: FightState, dead: seq<int>, u: FightState, v: FightState, w: FightState, tick: int, law: Law, cast: bool, t: FightState)
    requires LastActsRun(s, dead, tick, law, u) && KillersRewarded(u, dead, tick, law, v) && LastWordsSaid(v, dead, tick, w) && HooksFire(w, OnAnyDeath(dead), tick, law, t)
    requires cast <==> LastWords(v.units, dead, v.castSerial) != []
    ensures DeathsAreMarked(s, dead, tick, law, cast, t)
  {
    hide LastActsRun, KillersRewarded, LastWordsSaid, HooksFire, LastWords;
  }

  lemma NobodyReaped(s: FightState, dead: seq<int>, tick: int, law: Law, t: FightState)
    requires FallTogether(s, dead, tick, t) && dead == []
    ensures RoundReaps(s, tick, law, true, t)
  {
    hide FallTogether, RoundGoesOn;
  }

  lemma RoundReapsIs(s: FightState, dead: seq<int>, w: FightState, cast: bool, x: FightState, tick: int, law: Law, stable: bool, t: FightState)
    requires FallTogether(s, dead, tick, w) && dead != [] && DeathsAreMarked(w, dead, tick, law, cast, x)
    requires if !cast && x.casts == [] then stable && t == x else !stable && LastWordsLand(x, tick, law, t)
    ensures RoundReaps(s, tick, law, stable, t)
  {
    hide FallTogether, DeathsAreMarked, LastWordsLand;
    assert RoundGoesOn(w, dead, tick, law, stable, t);
  }

  lemma SomeDeathRounds()
    ensures MAX_DEATH_CAST_ROUNDS > 0
  {
  }

  lemma NoRoundsYet(s: FightState, tick: int, law: Law)
    ensures RoundsReap(s, 0, tick, law, s)
  {
    hide RoundReaps;
  }

  lemma OneRoundMore(s: FightState, n: nat, tick: int, law: Law, w: FightState, t: FightState)
    requires RoundsReap(s, n, tick, law, w) && RoundReaps(w, tick, law, false, t)
    ensures RoundsReap(s, n + 1, tick, law, t)
  {
    hide RoundReaps;
    var step := (a: FightState, k: int, b: FightState) => RoundReaps(a, tick, law, false, b);
    assert Upto(n + 1)[..n] == Upto(n);
    assert step(w, n, t);
    assert InOrder(s, Upto(n + 1)[..n], step, w);
  }

  lemma DeathsAreReapedIs(s: FightState, n: nat, tick: int, law: Law, w: FightState, stable: bool, t: FightState)
    requires RoundsReap(s, n, tick, law, w)
    requires if stable then n < MAX_DEATH_CAST_ROUNDS && RoundReaps(w, tick, law, true, t) else n == MAX_DEATH_CAST_ROUNDS && t == w
    ensures DeathsAreReaped(s, tick, law, t)
  {
    hide RoundsReap, RoundReaps;
  }

  // ---- Ticks, step by step -------------------------------------------------------------------------

  lemma NoOvertimeYet(c: Config, s: FightState, tick: int)
    requires ConfigOk(c) && !(tick == c.regulationTicks && c.overtimeSpeed > 1)
    ensures OvertimeBegins(c, s, tick, s)
  {
  }

  lemma OvertimeBeginsIs(c: Config, s: FightState, tick: int, t: FightState)
    requires ConfigOk(c) && tick == c.regulationTicks && c.overtimeSpeed > 1
    requires |t.units| == |s.units| && (forall i | 0 <= i < |s.units| :: t.units[i] == Hurried(s.units[i], tick, c.overtimeSpeed))
    requires t.log == s.log + [Note(tick, 0, Overtime)] && t == s.(units := t.units, members := MembersOf(t.units), log := t.log)
    ensures OvertimeBegins(c, s, tick, t)
  {
    hide Hurried, MembersOf;
  }

  lemma AllExpireIs(s: FightState, tick: int, t: FightState)
    requires |t.units| == |s.units| && (forall i | 0 <= i < |s.units| :: Expired(s.units[i], t.units[i], tick)) && s.log <= t.log
    requires t == s.(units := t.units, members := MembersOf(t.units), log := t.log)
    ensures AllExpire(s, tick, t)
  {
    hide Expired, MembersOf;
  }

  lemma AurasFollowIs(s: FightState, t: FightState)
    requires SamePlaces(s.units, t.units) && |s.units| == |t.units| && (forall h, b | 0 <= h < |t.units| && 0 <= b < |s.units[h].template.auras| :: Settled(t.units, h, b))
    requires s.log <= t.log && t == s.(units := t.units, members := MembersOf(t.units), log := t.log)
    ensures AurasFollow(s, t)
  {
    hide SamePlaces, Settled, MembersOf;
  }

  lemma TickRunsIs(c: Config, s: FightState, o: FightState, e: FightState, a: FightState, d: FightState, tick: int, t: FightState)
    requires ConfigOk(c) && OvertimeBegins(c, s, tick, o) && AllExpire(o, tick, e) && AurasFollow(e, a) && AllTakeTurns(c, a, tick, LawAt(c, tick), d)
    requires Resolves(d, tick, LawAt(c, tick), t)
    ensures TickRuns(c, s, tick, t)
  {
    hide OvertimeBegins, AllExpire, AurasFollow, AllTakeTurns, Resolves, LawAt;
  }

  lemma NoTicks(c: Config, s: FightState)
    requires ConfigOk(c)
    ensures TicksRun(c, s, 0, s)
  {
    hide TickRuns;
  }

  lemma OneTickMore(c: Config, s: FightState, n: nat, w: FightState, t: FightState)
    requires ConfigOk(c) && TicksRun(c, s, n, w) && BothStand(w) && TickRuns(c, w, n, t)
    ensures TicksRun(c, s, n + 1, t)
  {
    hide TickRuns, BothStand;
    var step := (a: FightState, tick: int, b: FightState) => BothStand(a) && TickRuns(c, a, tick, b);
    assert Upto(n + 1)[..n] == Upto(n);
    assert step(w, n, t);
    assert InOrder(s, Upto(n + 1)[..n], step, w);
  }

  lemma FightRunsIs(c: Config, maxTicks: int, s: FightState, n: nat, endTick: int, timedOut: bool, t: FightState)
    requires ConfigOk(c)
    requires var limit := Min(maxTicks, c.hardLimitTicks);
             if !BothStand(s) then t == s && endTick == 0 && !timedOut
             else TicksRun(c, s, n, t) && if timedOut then endTick == limit && BothStand(t) && n == (if limit > 0 then limit else 0) else 0 <= endTick < limit && n == endTick + 1 && !BothStand(t)
    ensures FightRuns(c, maxTicks, s, endTick, timedOut, t)
  {
    hide TicksRun, BothStand;
  }

  // ---- The preparations, step by step --------------------------------------------------------------

  lemma ItemsApplyIs(s: FightState, t: FightState)
    requires Inv(s) && |t.units| == |s.units| && s.log <= t.log
    requires forall i | 0 <= i < |s.units| :: Equips(s.units[i], t.units[i], i)
    requires t == s.(units := t.units, members := MembersOf(t.units), log := t.log)
    ensures ItemsApply(s, t)
  {
    hide Inv, MembersOf, GearedUp;
    forall i | 0 <= i < |s.units|
      ensures TemplateOk(s.units[i].template)
    {
      UnitAt(s, i);
    }
    hide TemplateOk;
    forall i | 0 <= i < |s.units|
      ensures t.units[i] == if s.units[i].alive then GearedUp(s.units[i], s.units[i].template.gear, |s.units[i].template.gear|, i) else s.units[i]
    {
      assert Equips(s.units[i], t.units[i], i);
    }
  }

  ghost predicate Equips(u: FightUnit, v: FightUnit, i: int) {
    && (forall k | 0 <= k < |u.template.gear| :: |u.template.gear[k]| == |ITEM_STATS|)
    && v == if u.alive then GearedUp(u, u.template.gear, |u.template.gear|, i) else u
  }

  lemma EquipsIs(u: FightUnit, v: FightUnit, i: int)
    requires forall k | 0 <= k < |u.template.gear| :: |u.template.gear[k]| == |ITEM_STATS|
    requires v == if u.alive then GearedUp(u, u.template.gear, |u.template.gear|, i) else u
    ensures Equips(u, v, i)
  {
    hide GearedUp;
  }

  lemma NoPilotNeeded(s: FightState, i: int, fielded: nat, law: Law)
    requires 0 <= i < |s.units| && (!s.units[i].template.pilots || s.units[i].isSummon)
    ensures TakesPilot(s, i, fielded, law, s)
  {
    hide Boards, FirstPilot;
  }

  lemma NobodyBehind(s: FightState, i: int, fielded: nat, law: Law)
    requires 0 <= i < |s.units| && s.units[i].template.pilots && !s.units[i].isSummon && FirstPilot(s.units, i, fielded, -1)
    ensures TakesPilot(s, i, fielded, law, s)
  {
    hide Boards, FirstPilot;
  }

  lemma PilotTaken(s: FightState, i: int, fielded: nat, pilot: int, law: Law, t: FightState)
    requires 0 <= i < |s.units| && s.units[i].template.pilots && !s.units[i].isSummon && FirstPilot(s.units, i, fielded, pilot) && pilot >= 0
    requires Boards(s, i, pilot, law, t)
    ensures TakesPilot(s, i, fielded, law, t)
  {
    hide Boards, FirstPilot;
  }

  lemma FirstPilotIs(units: seq<FightUnit>, i: int, fielded: nat, pilot: int)
    requires 0 <= i < |units| && fielded <= |units| && -1 <= pilot < fielded && (pilot >= 0 ==> CanPilot(units, i, pilot))
    requires forall j | 0 <= j < fielded && (pilot < 0 || j < pilot) :: !CanPilot(units, i, j)
    ensures FirstPilot(units, i, fielded, pilot)
  {
    hide CanPilot;
  }

  lemma IsBoardedIs(s: FightState, i: int, pilot: int, t: FightState)
    requires 0 <= i < |s.units| && 0 <= pilot < |s.units| && pilot != i && s.log <= t.log && |t.units| == |s.units|
    requires t.units[pilot] == WithStatus(s.units[pilot].(mech := i), Piloting, 0, FOREVER, false, i)
    requires t.units == s.units[i := s.units[i].(pilot := pilot)][pilot := t.units[pilot]]
    requires t == s.(units := t.units, members := MembersOf(t.units), log := t.log)
    ensures IsBoarded(s, i, pilot, t)
  {
    hide WithStatus, MembersOf;
  }

  lemma BoardsIs(s: FightState, i: int, pilot: int, v: FightState, w: FightState, law: Law, t: FightState)
    requires IsBoarded(s, i, pilot, v) && Executes(v, CastRecord(i, -1, [], false, 0, false, false), MechHp(), 0, law, w) && Continues(w, t)
    ensures Boards(s, i, pilot, law, t)
  {
    hide IsBoarded, Executes, Continues;
  }

  lemma PilotsBoardIs(s: FightState, law: Law, t: FightState)
    requires InOrder(s, Upto(|s.units|), (a: FightState, i: int, b: FightState) => TakesPilot(a, i, |s.units|, law, b), t)
    ensures PilotsBoard(s, law, t)
  {
    hide InOrder, TakesPilot, Upto;
  }

  lemma AllPassivesRunIs(s: FightState, law: Law, t: FightState)
    requires InOrder(s, Upto(|s.units|), (a: FightState, i: int, b: FightState) => PassivesRun(a, i, law, b), t)
    ensures AllPassivesRun(s, law, t)
  {
    hide InOrder, PassivesRun, Upto;
  }

  lemma MayBoard(units: seq<FightUnit>, i: nat, j: nat)
    requires i < |units| && j < |units| && CanPilot(units, i, j)
    ensures j != i && units[j].alive
  {
  }

  lemma MechHpIs(i: nat, n: nat, chan: seq<ChanEvent>)
    requires i < n
    ensures EffectOk(MechHp()) && CastOk(CastRecord(i, -1, [], false, 0, false, false), n, chan) && MAX_VALUE >= 0
  {
  }

  lemma IsPreparedIs(s: FightState, a: FightState, b: FightState, c: FightState, d: FightState, law: Law, t: FightState)
    requires ItemsApply(s, a) && ManaIsTold(a, 0, b) && Continues(b, c) && PilotsBoard(c, law, d) && AllPassivesRun(d, law, t)
    ensures IsPrepared(s, law, t)
  {
    hide ItemsApply, ManaIsTold, Continues, PilotsBoard, AllPassivesRun;
  }
}
