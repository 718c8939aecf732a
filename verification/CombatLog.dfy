// The combat log and what a viewer makes of it (server/include/w2f/Combat.h): a client never
// simulates, it replays the events. `Replay` is that viewer; `LegalLog` says that every event is
// one the viewer may see in the state it has reached.
module CombatLog {
  import opened Hex

  type UnitId = nat

  // Numbered as in server/include/w2f/Ability.h:51-104.
  datatype StatusType =
    | Stun | Burn | AttackDamage | AttackSpeed | Armor | MagicResist | MaxHp | Wound | InflictsWound | DamageAmp
    | Root | Knockup | CcImmunity | DamageTakenRegen | BonusAttackDamage | Tether | Untargetable | AggroDrop
    | BonusArmor | BonusMagicResist | BonusMaxHp | BonusAbilityDamage | BonusCritChance | AbilityCrit | CritDamage
    | CritDamageTakenReduction | BonusManaRegen | AbilityPower | SpellShield | Blind | DamageTaken | BonusMaxMana
    | ExecuteBelow | HpPerSecond | EmpoweredAttack | Poison | Bleed | Drain | ManaCost | HealingAmp | Omnivamp
    | Awakened | Piloting

  predicate AffectsMaxHp(s: StatusType) {
    s == MaxHp || s == BonusMaxHp
  }

  // Events a viewer's board does not depend on.
  datatype NoteKind = Attack(other: UnitId) | SpellCast | SpellInterrupted | ManaChanged | TraitActivated | Overtime

  datatype Event =
    | Spawn(tick: int, unit: UnitId, team: int, to: HexCoord, maxHp: int, hpAfter: int, summon: bool)
    | Move(tick: int, unit: UnitId, from: HexCoord, to: HexCoord)
    | Teleport(tick: int, unit: UnitId, from: HexCoord, to: HexCoord, subtype: int)
    | Damage(tick: int, unit: UnitId, other: UnitId, amount: int, absorbed: int, hpAfter: int)
    | Heal(tick: int, unit: UnitId, other: UnitId, amount: int, hpAfter: int)
    | ShieldApplied(tick: int, unit: UnitId, amount: int)
    | ShieldEnded(tick: int, unit: UnitId, amount: int)
    | StatusApplied(tick: int, unit: UnitId, status: StatusType, hpAfter: int)
    | StatusEnded(tick: int, unit: UnitId, status: StatusType, hpAfter: int)
    | Death(tick: int, unit: UnitId, summon: bool)
    | Note(tick: int, unit: UnitId, kind: NoteKind)

  // What a viewer knows about one unit. `shield` is the total capacity of its shields.
  datatype UnitView = UnitView(team: int, summon: bool, pos: HexCoord, hp: int, shield: int, alive: bool)

  type View = map<UnitId, UnitView>

  // Events that happen to one unit on its own hex.
  predicate IsLocal(e: Event) {
    e.Damage? || e.Heal? || e.ShieldApplied? || e.ShieldEnded? || e.StatusApplied? || e.StatusEnded?
  }

  function ApplyLocal(u: UnitView, e: Event): UnitView
    requires IsLocal(e)
  {
    match e
    case Damage(_, _, _, _, absorbed, hpAfter) => u.(hp := hpAfter, shield := u.shield - absorbed)
    case Heal(_, _, _, _, hpAfter) => u.(hp := hpAfter)
    case ShieldApplied(_, _, amount) => u.(shield := u.shield + amount)
    case ShieldEnded(_, _, amount) => u.(shield := u.shield - amount)
    case StatusApplied(_, _, _, hpAfter) => u.(hp := hpAfter)
    case StatusEnded(_, _, _, hpAfter) => u.(hp := hpAfter)
  }

  function Apply(v: View, e: Event): View {
    match e
    case Spawn(_, unit, team, to, _, hpAfter, summon) => v[unit := UnitView(team, summon, to, hpAfter, 0, true)]
    case Note(_, _, _) => v
    case Move(_, unit, _, to) => if unit in v then v[unit := v[unit].(pos := to)] else v
    case Teleport(_, unit, _, to, subtype) => if unit in v && subtype != 2 then v[unit := v[unit].(pos := to)] else v
    case Death(_, unit, _) => if unit in v then v[unit := v[unit].(hp := 0, shield := 0, alive := false)] else v
    case _ => if e.unit in v then v[e.unit := ApplyLocal(v[e.unit], e)] else v
  }

  predicate Living(v: View, unit: UnitId) {
    unit in v && v[unit].alive
  }

  predicate Vacant(v: View, h: HexCoord) {
    InBounds(h, ARENA_COLUMNS, ARENA_ROWS) && forall id | id in v && v[id].alive :: v[id].pos != h
  }

  function Min(a: int, b: int): int {
    if a < b then a else b
  }

  function Max(a: int, b: int): int {
    if a > b then a else b
  }

  // The rules of the game as a viewer can check them.
  predicate LegalLocal(u: UnitView, e: Event)
    requires IsLocal(e)
  {
    match e
    case Damage(_, _, _, amount, absorbed, hpAfter) =>
      && amount >= 0
      && hpAfter == Max(0, u.hp - (amount - absorbed))
      && (absorbed == Min(amount, u.shield)         // shields soak up all they can hold ...
          || (absorbed == 0 && amount == u.hp))     // ... except when the unit is executed
    case Heal(_, _, _, amount, hpAfter) => amount > 0 && hpAfter == u.hp + amount
    case ShieldApplied(_, _, amount) => amount > 0
    case ShieldEnded(_, _, amount) => 0 <= amount <= u.shield
    case StatusApplied(_, _, status, hpAfter) => 0 <= hpAfter && (hpAfter == u.hp || AffectsMaxHp(status))
    case StatusEnded(_, _, status, hpAfter) => 0 <= hpAfter && (hpAfter == u.hp || AffectsMaxHp(status))
  }

  predicate Legal(v: View, e: Event) {
    match e
    case Spawn(_, unit, team, to, maxHp, hpAfter, _) =>
      unit !in v && 0 <= team <= 1 && Vacant(v, to) && 0 <= hpAfter == maxHp
    case Move(_, unit, from, to) =>
      Living(v, unit) && v[unit].pos == from && Adjacent(from, to) && Vacant(v, to)
    case Teleport(_, unit, from, to, subtype) =>
      Living(v, unit) && v[unit].pos == from && 0 <= subtype <= 2 && (subtype != 2 ==> Vacant(v, to))
    case Death(_, unit, summon) =>
      Living(v, unit) && summon == v[unit].summon && (v[unit].hp == 0 || summon)
    case Note(_, _, _) => true
    case _ => Living(v, e.unit) && LegalLocal(v[e.unit], e)
  }

  function Replay(log: seq<Event>): View {
    if log == [] then map[]
    else Apply(Replay(log[..|log| - 1]), log[|log| - 1])
  }

  predicate LegalLog(log: seq<Event>) {
    log != [] ==>
      && LegalLog(log[..|log| - 1])
      && Legal(Replay(log[..|log| - 1]), log[|log| - 1])
  }

  lemma ReplayAppend(log: seq<Event>, e: Event)
    ensures Replay(log + [e]) == Apply(Replay(log), e)
    ensures LegalLog(log + [e]) <==> LegalLog(log) && Legal(Replay(log), e)
  {
    assert (log + [e])[..|log|] == log;
  }

  lemma {:induction false} LegalPrefix(log: seq<Event>, i: nat)
    requires LegalLog(log) && i <= |log|
    ensures LegalLog(log[..i])
    ensures i < |log| ==> Legal(Replay(log[..i]), log[i])
  {
    if i == |log| {
      assert log[..i] == log;
    } else {
      var init := log[..|log| - 1];
      if i == |log| - 1 {
        assert log[..i] == init;
      } else {
        LegalPrefix(init, i);
        assert init[..i] == log[..i];
      }
    }
  }

  // ---- What every legal log guarantees -------------------------------------------------------

  // No two living units share a hex, all stand in the arena, nothing is negative.
  ghost predicate SoundView(v: View) {
    && (forall id | id in v && v[id].alive :: InBounds(v[id].pos, ARENA_COLUMNS, ARENA_ROWS))
    && (forall id | id in v :: v[id].hp >= 0 && v[id].shield >= 0 && 0 <= v[id].team <= 1)
    && (forall id | id in v && !v[id].alive :: v[id].hp == 0 && v[id].shield == 0)
    && (forall a, b | a in v && b in v && a != b && v[a].alive && v[b].alive :: v[a].pos != v[b].pos)
  }

  lemma {:induction false} LegalLogIsSound(log: seq<Event>)
    requires LegalLog(log)
    ensures SoundView(Replay(log))
  {
    if log != [] {
      LegalLogIsSound(log[..|log| - 1]);
      LegalKeepsSound(Replay(log[..|log| - 1]), log[|log| - 1]);
    }
  }

  lemma LegalKeepsSound(v: View, e: Event)
    requires SoundView(v) && Legal(v, e)
    ensures SoundView(Apply(v, e))
  {
    if IsLocal(e) {
      LocalKeepsSound(v, e);
    } else {
      hide ApplyLocal, LegalLocal;
    }
  }

  lemma LocalKeepsSound(v: View, e: Event)
    requires SoundView(v) && Legal(v, e) && IsLocal(e)
    ensures SoundView(Apply(v, e))
  {
    var u := ApplyLocal(v[e.unit], e);
    assert u.hp >= 0 && u.shield >= 0 && u.team == v[e.unit].team && u.pos == v[e.unit].pos && u.alive;
    assert Apply(v, e) == v[e.unit := u];
    hide ApplyLocal, LegalLocal, Apply, Legal;
  }

  // A unit never changes sides, and once it is dead nothing ever happens to it again.
  lemma {:induction false} DeadStayDead(log: seq<Event>, i: nat, id: UnitId)
    requires LegalLog(log) && i <= |log| && id in Replay(log[..i])
    ensures id in Replay(log)
    ensures Replay(log)[id].team == Replay(log[..i])[id].team && Replay(log)[id].summon == Replay(log[..i])[id].summon
    ensures !Replay(log[..i])[id].alive ==> Replay(log)[id] == Replay(log[..i])[id]
  {
    if i == |log| {
      assert log[..i] == log;
    } else {
      var init := log[..|log| - 1];
      assert init[..i] == log[..i];
      DeadStayDead(init, i, id);
    }
  }
}
