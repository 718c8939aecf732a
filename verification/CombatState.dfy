// The state of one fight (server/src/CombatSimulator.cpp, class Fight) on values, the invariants
// that tie it to the log, the grid, the counters, the auras and the channels, and one lemma per
// kind of step that keeps them.
module CombatState {
  import opened Hex
  import opened CombatLog
  import opened Pathfinder
  import opened Dots

  const FOREVER: int := 0x7fff_ffff
  const MAX_VALUE: int := 1_000_000_000
  const MAX_SUMMONS_PER_FIGHT := 48
  const MAX_AURAS_PER_UNIT := 31
  const SUMMON_UNIT_BASE: nat := 0xE000_0000

  datatype Shield = Shield(amount: int, expires: int, reduction: int, absorbed: int)

  // `aura` is 0 or the key of the aura that granted the status.
  datatype Status = Status(kind: StatusType, percent: int, expires: int, source: int, aura: int)

  datatype TargetSide = Enemies | Allies | All

  datatype Aura = Aura(side: TargetSide, radius: int, status: StatusType, amount: int, includeSelf: bool)

  // Where an assassin dives to.
  datatype Destination = BehindFarthestEnemy | BehindClosestEnemy | NextToLowestHpEnemy | NextToHighestHpEnemy | BehindCurrentTarget

  datatype PushSense = TowardCaster | AwayFromCaster | TowardAreaCenter

  datatype Payload =
    | DamageEffect
    | AllyStrikeEffect
    | ShieldEffect(permanent: bool, capped: bool, reduction: int)
    | StatusEffect(status: StatusType, lasting: bool, refreshes: bool)
    | DotEffect(intervalTicks: int, amountIsTotal: bool, refreshesDot: bool, key: int, visual: StatusType, healPercent: int)
    | HealEffect
    | TeleportEffect(destination: Destination)
    | ManaEffect
    | SummonEffect
    | CloneEffect(count: int)
    | DisplaceEffect(direction: PushSense, hexes: int)

  // `conditional`: it does not happen if the caster was hurt since the cast began.
  datatype Effect = Effect(payload: Payload, delayTicks: int, repeatCount: nat, repeatIntervalTicks: int, conditional: bool)

  // The ranges that the data loader guarantees.
  predicate EffectOk(e: Effect) {
    && (e.payload.ShieldEffect? ==> 0 <= e.payload.reduction <= 100)
    && (e.payload.DotEffect? ==> e.payload.intervalTicks >= 1)
  }

  predicate EffectsOk(es: seq<Effect>) {
    forall k | 0 <= k < |es| :: EffectOk(es[k])
  }

  // A champion's own ability.
  datatype Ability = NoAbility | Ability(effects: seq<Effect>, channelTicks: int, castLockTicks: int, castOnDeath: bool, stopsOnDeath: bool)

  // What a definition and its items make of a fighter (MakeUnit).
  datatype Template = Template(maxHp: nat, range: int, stationary: bool, plant: bool, pilots: bool, ability: Ability,
                               passives: seq<Effect>, auras: seq<Aura>, gear: seq<seq<int>>)   // gear: the flat stats of each item

  // The stats an item can have, in the order in which they are granted.
  const ITEM_STATS := [BonusMaxHp, BonusArmor, BonusMagicResist, BonusAttackDamage, BonusAbilityDamage, AttackSpeed, BonusCritChance, BonusManaRegen]

  predicate TemplateOk(t: Template) {
    && |t.auras| <= MAX_AURAS_PER_UNIT
    && EffectsOk(t.passives)
    && (t.ability.Ability? ==> EffectsOk(t.ability.effects))
    && forall k | 0 <= k < |t.gear| :: |t.gear[k]| == |ITEM_STATS|
  }

  // `used` is not in the source: the keys of auras whose status the unit has used up since it joined them.
  datatype FightUnit = FightUnit(
    id: UnitId, team: int, isSummon: bool, template: Template,
    pos: HexCoord, hp: int, maxHp: int, baseMaxHp: int, alive: bool,
    shields: seq<Shield>, statuses: seq<Status>, dots: seq<Dot>, auraMembers: seq<seq<int>>,
    target: int, path: seq<HexCoord>, pathIndex: int, pathGoal: HexCoord,
    lockedUntil: int, nextAttackTick: int, nextMoveTick: int, nextPathTick: int,
    activeChannelSerial: int, channelEnd: int, pilot: int, mech: int, killer: int, used: set<int>)

  datatype CastRecord = CastRecord(caster: int, target: int, effects: seq<Effect>, stopsOnDeath: bool,
                                   serial: int, channeled: bool, fromHook: bool)

  datatype Scheduled = Scheduled(due: int, cast: CastRecord, effect: Effect)

  datatype Hit = Hit(source: int, target: int, raw: int, isAbility: bool, isDot: bool, healPercent: int)

  // The (ghost) history of channels: begun, ended (broken, completed or superseded), and every
  // delayed effect of a channelled cast that really ran.
  datatype ChanEvent = Begin(serial: int, caster: int) | Stop(serial: int) | Run(serial: int)

  // `members[i][a]` is the member list of unit i's aura a; `dice` tells how often the dice have been thrown.
  datatype FightState = FightState(
    units: seq<FightUnit>, members: seq<seq<seq<int>>>, log: seq<Event>, grid: Grid,
    alive: seq<int>, summonAlive: seq<int>, summonsSpawned: nat, castSerial: int, chan: seq<ChanEvent>,
    hits: seq<Hit>, casts: seq<CastRecord>, scheduled: seq<Scheduled>, pendingHooks: seq<CastRecord>, dice: int)

  // ---- Numbers --------------------------------------------------------------------------------

  function Clamp(v: int, lo: int, hi: int): int
    requires lo <= hi
  {
    if v < lo then lo else if v > hi then hi else v
  }

  function Clamp32(v: int): int {
    Clamp(v, -MAX_VALUE, MAX_VALUE)
  }

  // base * (100 + change) / 100, never negative. (A negative product is cut to 0, so the division's
  // rounding direction does not matter.)
  function ApplyPercent(base: int, change: int): (r: int)
    ensures 0 <= r <= MAX_VALUE
  {
    Clamp32(Max(0, base * (100 + change) / 100))
  }

  function StatusPercent(ss: seq<Status>, kind: StatusType): int {
    if ss == [] then 0
    else StatusPercent(ss[..|ss| - 1], kind) + if ss[|ss| - 1].kind == kind then ss[|ss| - 1].percent else 0
  }

  predicate HasStatus(u: FightUnit, kind: StatusType) {
    exists k | 0 <= k < |u.statuses| :: u.statuses[k].kind == kind
  }

  function ShieldTotal(shields: seq<Shield>): int {
    if shields == [] then 0 else ShieldTotal(shields[..|shields| - 1]) + shields[|shields| - 1].amount
  }

  // Effective max HP follows the MaxHp statuses; current HP grows with it and is clipped by it.
  function RecomputeMaxHp(u: FightUnit): (r: FightUnit)
    ensures r == u.(hp := r.hp, maxHp := r.maxHp)
    ensures 0 <= u.hp <= u.maxHp ==> 0 <= r.hp <= r.maxHp
    ensures r.maxHp > u.maxHp ==> r.hp - u.hp == r.maxHp - u.maxHp
    ensures r.maxHp <= u.maxHp ==> r.hp == Min(u.hp, r.maxHp)
  {
    var total := ApplyPercent(u.baseMaxHp, StatusPercent(u.statuses, MaxHp)) + StatusPercent(u.statuses, BonusMaxHp);
    var newMax := Max(1, Clamp32(total));
    if newMax > u.maxHp then u.(hp := u.hp + (newMax - u.maxHp), maxHp := newMax)
    else u.(hp := Min(u.hp, newMax), maxHp := newMax)
  }

  // ---- The viewer's picture of a unit ----------------------------------------------------------

  function AsView(u: FightUnit): UnitView {
    UnitView(u.team, u.isSummon, u.pos, u.hp, if u.alive then ShieldTotal(u.shields) else 0, u.alive)
  }

  ghost predicate Agrees(units: seq<FightUnit>, v: View) {
    && (forall i | 0 <= i < |units| :: units[i].id in v && v[units[i].id] == AsView(units[i]))
    && (forall id | id in v :: KnownId(units, id))
  }

  ghost predicate KnownId(units: seq<FightUnit>, id: UnitId) {
    exists i | 0 <= i < |units| :: units[i].id == id
  }

  ghost predicate LogOk(units: seq<FightUnit>, log: seq<Event>) {
    LegalLog(log) && Agrees(units, Replay(log))
  }

  // ---- One unit --------------------------------------------------------------------------------

  predicate InArena(h: HexCoord) {
    InBounds(h, ARENA_COLUMNS, ARENA_ROWS)
  }

  // What is left of a cached route leads from the unit's own hex over adjacent arena hexes.
  predicate RouteOk(pos: HexCoord, path: seq<HexCoord>, index: int) {
    && 0 <= index <= |path|
    && forall k | index <= k < |path| :: RouteStepOk(pos, path, index, k)
  }

  predicate RouteStepOk(pos: HexCoord, path: seq<HexCoord>, index: int, k: int)
    requires 0 <= index <= k < |path|
  {
    InArena(path[k]) && Adjacent(if k == index then pos else path[k - 1], path[k])
  }

  predicate TagsUnique(ss: seq<Status>) {
    forall a, b | 0 <= a < b < |ss| && ss[a].aura != 0 :: ss[a].aura != ss[b].aura
  }

  predicate StatusesOk(ss: seq<Status>, n: int) {
    && TagsUnique(ss)
    && forall k | 0 <= k < |ss| :: -1 <= ss[k].source < n && (ss[k].aura != 0 ==> ss[k].expires == FOREVER)
  }

  // What a shield still holds and what it has stored come to what it held at first.
  predicate ShieldsOk(shields: seq<Shield>) {
    forall k | 0 <= k < |shields| ::
      shields[k].amount > 0 && 0 <= shields[k].reduction <= 100 && 0 <= shields[k].absorbed && shields[k].amount + shields[k].absorbed <= MAX_VALUE
  }

  // Every damage-over-time stack is on schedule.
  predicate DotsOk(dots: seq<Dot>, n: int) {
    forall k | 0 <= k < |dots| :: DotOk(dots[k]) && 0 <= dots[k].source < n
  }

  predicate UnitOk(u: FightUnit, n: int) {
    && 0 <= u.hp <= u.maxHp
    && 0 <= u.team <= 1
    && TemplateOk(u.template)
    && |u.auraMembers| == |u.template.auras|
    && InArena(u.pos)
    && RouteOk(u.pos, u.path, u.pathIndex)
    && StatusesOk(u.statuses, n)
    && ShieldsOk(u.shields)
    && DotsOk(u.dots, n)
    && -1 <= u.target < n && -1 <= u.pilot < n && -1 <= u.mech < n && -1 <= u.killer < n
    && (!u.alive ==> u.hp == 0 && u.statuses == [] && u.shields == [] && u.dots == [] && u.activeChannelSerial == 0)
  }

  ghost predicate UnitsOk(units: seq<FightUnit>) {
    forall i | 0 <= i < |units| :: UnitOk(units[i], |units|)
  }

  // Ids are distinct and a summon's id is below the next one to be given out.
  ghost predicate IdsOk(units: seq<FightUnit>, summonsSpawned: nat) {
    && summonsSpawned <= MAX_SUMMONS_PER_FIGHT
    && (forall i, j | 0 <= i < j < |units| :: units[i].id != units[j].id)
    && (forall i | 0 <= i < |units| ::
          if units[i].isSummon then SUMMON_UNIT_BASE < units[i].id <= SUMMON_UNIT_BASE + summonsSpawned
          else !(SUMMON_UNIT_BASE < units[i].id <= SUMMON_UNIT_BASE + MAX_SUMMONS_PER_FIGHT))
  }

  // ---- Grid and counters -----------------------------------------------------------------------

  ghost predicate Occupied(units: seq<FightUnit>, h: HexCoord) {
    exists i | 0 <= i < |units| :: units[i].alive && units[i].pos == h
  }

  // A hex is blocked iff a living unit stands on it, and never two of them.
  ghost predicate GridOk(units: seq<FightUnit>, g: Grid) {
    && g.Valid() && g.width == ARENA_COLUMNS && g.height == ARENA_ROWS
    && (forall h | InArena(h) :: g.IsBlocked(h) <==> Occupied(units, h))
    && (forall i, j | 0 <= i < j < |units| && units[i].alive && units[j].alive :: units[i].pos != units[j].pos)
  }

  function CountLiving(units: seq<FightUnit>, team: int, summon: bool): nat {
    if units == [] then 0
    else
      var u := units[|units| - 1];
      CountLiving(units[..|units| - 1], team, summon) + if u.alive && u.team == team && u.isSummon == summon then 1 else 0
  }

  ghost predicate CountsOk(units: seq<FightUnit>, alive: seq<int>, summonAlive: seq<int>) {
    && |alive| == |summonAlive| == 2
    && forall t | 0 <= t <= 1 :: alive[t] == CountLiving(units, t, false) && summonAlive[t] == CountLiving(units, t, true)
  }

  // ---- Auras -----------------------------------------------------------------------------------

  function AuraKey(holder: int, aura: int): int {
    holder * 32 + aura + 1
  }

  function KeyHolder(key: int): int {
    (key - 1) / 32
  }

  function KeyAura(key: int): int {
    (key - 1) % 32
  }

  // A key names one holder and one of its (at most 31) auras.
  lemma KeyParts(holder: int, aura: int)
    requires 0 <= aura < 32
    ensures KeyHolder(AuraKey(holder, aura)) == holder && KeyAura(AuraKey(holder, aura)) == aura
  {
  }

  // The only statuses an aura can grant that something other than the aura takes away.
  predicate Consumable(kind: StatusType) {
    kind == SpellShield || kind == EmpoweredAttack || kind == Piloting
  }

  ghost predicate Carries(ss: seq<Status>, key: int, kind: StatusType) {
    exists k | 0 <= k < |ss| :: ss[k].aura == key && ss[k].kind == kind
  }

  // The status s of unit j, if an aura granted it: j is in that aura's member list.
  predicate TagOk(units: seq<FightUnit>, members: seq<seq<seq<int>>>, j: int, s: Status) {
    s.aura != 0 ==>
      var i, a := KeyHolder(s.aura), KeyAura(s.aura);
      && 0 <= i < |units| && i < |members| && 0 <= a < |units[i].template.auras| && a < |members[i]|
      && s.aura == AuraKey(i, a)
      && j in members[i][a] && s.kind == units[i].template.auras[a].status
  }

  // Every living member of an aura carries its status, unless it has used it up.
  ghost predicate MembersOk(units: seq<FightUnit>, key: int, kind: StatusType, list: seq<int>) {
    && (forall x | x in list :: 0 <= x < |units|)
    && (forall x | x in list && units[x].alive :: Carries(units[x].statuses, key, kind) || (Consumable(kind) && key in units[x].used))
  }

  ghost predicate AurasOk(units: seq<FightUnit>, members: seq<seq<seq<int>>>) {
    && |members| == |units|
    && (forall i | 0 <= i < |units| :: |members[i]| == |units[i].template.auras| <= MAX_AURAS_PER_UNIT)
    && (forall j, k | 0 <= j < |units| && 0 <= k < |units[j].statuses| :: TagOk(units, members, j, units[j].statuses[k]))
    && (forall i, a | 0 <= i < |units| && 0 <= a < |members[i]| ::
          MembersOk(units, AuraKey(i, a), units[i].template.auras[a].status, members[i][a]))
  }

  // ---- Channels --------------------------------------------------------------------------------

  // No delayed effect of a channel runs after that channel has stopped.
  ghost predicate StoppedStaysStopped(chan: seq<ChanEvent>) {
    forall a, b | 0 <= a < b < |chan| && chan[a].Stop? && chan[b].Run? :: chan[a].serial != chan[b].serial
  }

  ghost predicate ChannelsOk(units: seq<FightUnit>, castSerial: int, chan: seq<ChanEvent>) {
    && castSerial >= 0
    && StoppedStaysStopped(chan)
    && (forall k | 0 <= k < |chan| :: 1 <= chan[k].serial <= castSerial && (chan[k].Begin? ==> 0 <= chan[k].caster < |units|))
    && (forall a, b | 0 <= a < b < |chan| && chan[a].Begin? && chan[b].Begin? :: chan[a].serial != chan[b].serial)
    && (forall i | 0 <= i < |units| && units[i].activeChannelSerial != 0 ::
          Begin(units[i].activeChannelSerial, i) in chan && Stop(units[i].activeChannelSerial) !in chan)
    && (forall k | 0 <= k < |chan| && chan[k].Begin? ::
          Stop(chan[k].serial) in chan || units[chan[k].caster].activeChannelSerial == chan[k].serial)
  }

  // ---- Queues ----------------------------------------------------------------------------------

  ghost predicate CastOk(c: CastRecord, n: int, chan: seq<ChanEvent>) {
    && 0 <= c.caster < n && -1 <= c.target < n && EffectsOk(c.effects)
    && (c.channeled ==> Begin(c.serial, c.caster) in chan)
  }

  ghost predicate QueuesOk(s: FightState) {
    var n := |s.units|;
    && (forall k | 0 <= k < |s.hits| :: 0 <= s.hits[k].source < n && 0 <= s.hits[k].target < n)
    && (forall k | 0 <= k < |s.casts| :: CastOk(s.casts[k], n, s.chan))
    && (forall k | 0 <= k < |s.pendingHooks| :: CastOk(s.pendingHooks[k], n, s.chan))
    && (forall k | 0 <= k < |s.scheduled| :: CastOk(s.scheduled[k].cast, n, s.chan) && EffectOk(s.scheduled[k].effect))
  }

  ghost predicate Inv(s: FightState) {
    && UnitsOk(s.units)
    && LogOk(s.units, s.log)
    && IdsOk(s.units, s.summonsSpawned)
    && GridOk(s.units, s.grid)
    && CountsOk(s.units, s.alive, s.summonAlive)
    && AurasOk(s.units, s.members)
    && ChannelsOk(s.units, s.castSerial, s.chan)
    && QueuesOk(s)
  }

  function MembersOf(units: seq<FightUnit>): seq<seq<seq<int>>> {
    seq(|units|, i requires 0 <= i < |units| => units[i].auraMembers)
  }
}
