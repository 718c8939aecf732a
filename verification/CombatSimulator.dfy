// The fight engine (server/src/CombatSimulator.cpp, class Fight). What a definition's numbers and
// targeting rules come to is arbitrary here (`*`): the theorems hold for every ability, item and
// synergy. Everything that moves a unit, its HP, its statuses or its life follows the source.
module CombatSimulator {
  import opened Hex
  import opened CombatLog
  import opened Pathfinder
  import opened Dots
  import opened CombatState
  import opened CombatSteps
  import opened CombatRules
  import opened CombatEffects
  import opened CombatTurns
  import opened GraphSearch
  import opened Arithmetic

  // ---- The fight -------------------------------------------------------------------------------

  class Fight {
    const config: Config
    const maxTicks: int
    const grid: HexGrid
    const pathfinder: HexPathfinder
    var units: seq<FightUnit>
    var log: seq<Event>
    var hits: seq<Hit>
    var casts: seq<CastRecord>
    var scheduled: seq<Scheduled>
    var pendingHooks: seq<CastRecord>
    var summonsSpawned: nat
    var alive: seq<int>
    var summonAlive: seq<int>
    var castSerial: int
    var overtimeFactor: int
    var overtimeStartTick: int   // -1 in regulation
    var dice: int                // how often the dice have been thrown
    ghost var chan: seq<ChanEvent>

    ghost predicate Ready()
      reads pathfinder, pathfinder.visitedStamp, `overtimeFactor
    {
      && grid.Valid() && grid.width == ARENA_COLUMNS && grid.height == ARENA_ROWS
      && pathfinder.Valid() && pathfinder.width == ARENA_COLUMNS && pathfinder.height == ARENA_ROWS
      && ConfigOk(config) && overtimeFactor >= 1
    }

    ghost function State(): FightState
      reads this, grid.blocked
      requires grid.Valid()
    {
      FightState(units, MembersOf(units), log, grid.Model(), alive, summonAlive, summonsSpawned, castSerial, chan,
                 hits, casts, scheduled, pendingHooks, dice)
    }

    ghost predicate Valid()
      reads this, grid.blocked, pathfinder, pathfinder.visitedStamp
    {
      Ready() && Inv(State())
    }

    // What the state is made of, for proofs that look no further.
    lemma Looking()
      requires Valid()
      ensures grid.Valid() && Inv(State())
      ensures State() == FightState(units, MembersOf(units), log, grid.Model(), alive, summonAlive, summonsSpawned, castSerial, chan,
                                    hits, casts, scheduled, pendingHooks, dice)
      ensures forall i: int :: IsUnit(i) <==> 0 <= i < |units|
      ensures Now() == Law(SuddenDeathHealing(), config.numbers)
      ensures ConfigOk(config) && config.dotSpreadIntervalTicks >= 1 && Ready() && forall h :: InArena(h) <==> InBounds(h, grid.width, grid.height)
    {
      hide Inv;
    }

    lemma StateIs()
      requires grid.Valid()
      ensures State() == FightState(units, MembersOf(units), log, grid.Model(), alive, summonAlive, summonsSpawned, castSerial, chan,
                                    hits, casts, scheduled, pendingHooks, dice)
    {
    }

    lemma Holds()
      ensures Ready() && Inv(State()) ==> Valid()
    {
      hide Inv, Fight.State;
    }

    predicate IsUnit(i: int)
      reads `units
    {
      0 <= i < |units|
    }

    // Sudden death: the change, in percent, to every heal.
    function SuddenDeathHealing(): int
      reads `overtimeStartTick
    {
      if overtimeStartTick >= 0 then -Clamp(config.overtimeHealingCutPercent, 0, 100) else 0
    }

    // What the data and the dice say now.
    ghost function Now(): Law
      reads `overtimeStartTick
    {
      Law(SuddenDeathHealing(), config.numbers)
    }

    lemma SceneIs(tick: int)
      requires grid.Valid()
      ensures SceneOf(State(), tick) == Scene(units, log, dice, tick)
    {
    }

    function MoveTicks(): int
      reads `overtimeFactor
      requires overtimeFactor >= 1
    {
      Max(1, config.ticksPerHexMove / overtimeFactor)
    }

    // The clock of the fight: sped up exactly in overtime.
    ghost predicate OnTime(tick: int)
      reads `overtimeFactor, `overtimeStartTick
    {
      overtimeFactor == FactorAt(config, tick) && (overtimeStartTick >= 0 <==> InOvertime(config, tick))
    }

    lemma TimeIs(tick: int)
      requires ConfigOk(config) && OnTime(tick)
      ensures overtimeFactor >= 1 && MoveTicks() == StepTicks(config, tick) && Now() == LawAt(config, tick)
    {
    }

    // Everything stands, nothing has been told yet.
    ghost predicate Fresh()
      reads this, grid.blocked, pathfinder, pathfinder.visitedStamp
    {
      Ready() && Lineup(State()) && log == [] && overtimeFactor == 1 && overtimeStartTick == -1 && forall i | 0 <= i < |units| :: Rested(units[i])
    }

    // Fighters in their starting hexes, in canonical (ascending id) order.
    constructor (config: Config, maxTicks: int, specs: seq<Spec>)
      requires ConfigOk(config) && SpecsOk(specs)
      ensures Fresh() && this.config == config && this.maxTicks == maxTicks
      ensures |units| == |SortById(specs)| && forall i | 0 <= i < |units| :: Stands(units[i], SortById(specs)[i])
    {
      hide Lineup, Rested, Stands, SpecsOk, SortById, Inv, Grid.IsBlocked, HexPathfinder.Valid;
      this.config, this.maxTicks := config, maxTicks;
      grid := new HexGrid(ARENA_COLUMNS, ARENA_ROWS);
      pathfinder := new HexPathfinder(ARENA_COLUMNS, ARENA_ROWS);
      units, log, hits, casts, scheduled, pendingHooks, dice := [], [], [], [], [], [], 0;
      summonsSpawned, alive, summonAlive, castSerial := 0, [0, 0], [0, 0], 0;
      overtimeFactor, overtimeStartTick := 1, -1;
      chan := [];
      new;
      EmptyLineup(State());
      FieldAll(specs);
    }

    // The canonical order: everything below iterates by ascending id.
    method FieldAll(specs: seq<Spec>)
      requires Fresh() && units == [] && SpecsOk(specs)
      modifies `units, `alive, grid.blocked
      ensures Fresh()
      ensures |units| == |SortById(specs)| && forall i | 0 <= i < |units| :: Stands(units[i], SortById(specs)[i])
    {
      hide Lineup, SpecOk, SpecsOk;
      var sorted := SortById(specs);
      SortByIdKeeps(specs);
      for k := 0 to |sorted|
        invariant Fresh() && |units| == k && forall i | 0 <= i < k :: Stands(units[i], sorted[i])
      {
        SpecsOkAt(sorted, k);
        Field(sorted[k]);
      }
    }

    // One more fighter takes its hex.
    method Field(x: Spec)
      requires Fresh() && SpecOk(x)
      requires forall i | 0 <= i < |units| :: units[i].id != x.id && units[i].pos != x.pos
      modifies `units, `alive, grid.blocked
      ensures Fresh() && |units| == |old(units)| + 1 && units[..|old(units)|] == old(units) && Stands(units[|old(units)|], x)
    {
      hide Lineup, SameFrame, UnitOk, TemplateOk;
      var u := MakeUnit(x.id, x.team, false, x.pos, x.template, x.template.maxHp);
      ghost var s := State();
      MakeUnitOk(x.id, x.team, false, x.pos, x.template, x.template.maxHp, |units| + 1);
      FreeStart(s, u.pos);
      grid.SetBlocked(u.pos, true);
      LineupStep(s, u, grid.Model());
      units := units + [u];
      alive := More(alive, u.team);
      assert MembersOf(units) == s.members + [u.auraMembers];
      assert State() == s.(units := units, members := MembersOf(units), grid := grid.Model(), alive := alive);
    }

    // ---- Small helpers -------------------------------------------------------------------------

    // Commits a change of unit i's own affairs together with the event that reports it.
    method Commit(i: nat, u: FightUnit, e: Event)
      requires Valid() && i < |units| && SameFrame(units[i], u) && UnitOk(u, |units|) && u.alive
      requires StatusesSafe(units[i].statuses, u.statuses)
      requires IsLocal(e) && e.unit == u.id && LegalLocal(AsView(units[i]), e) && AsView(u) == ApplyLocal(AsView(units[i]), e)
      modifies `units, `log
      ensures Valid() && Continues(old(State()), State())
      ensures units == old(units)[i := u] && log == old(log) + [e]
    {
      hide Inv, UnitOk, SameFrame, SameStand, UsesUp, StatusesSafe, LegalLocal, AsView, ApplyLocal;
      FrameStands(units[i], u);
      NothingUsed(units[i], u);
      Use(i, u, e);
    }

    // The same, when the unit may use up what an aura granted it.
    method Use(i: nat, u: FightUnit, e: Event)
      requires Valid() && i < |units| && SameStand(units[i], u) && UnitOk(u, |units|) && u.alive
      requires UsesUp(units[i], u)
      requires IsLocal(e) && e.unit == u.id && LegalLocal(AsView(units[i]), e) && AsView(u) == ApplyLocal(AsView(units[i]), e)
      modifies `units, `log
      ensures Valid() && Continues(old(State()), State())
      ensures units == old(units)[i := u] && log == old(log) + [e]
    {
      hide Inv, UnitOk, SameStand, UsesUp, LegalLocal, AsView, ApplyLocal;
      ghost var s := State();
      LocalStep(s, i, u, e);
      units := units[i := u];
      log := log + [e];
      assert State() == s.(units := units, log := log);
    }

    // Changes nothing a viewer sees.
    method Tweak(i: nat, u: FightUnit)
      requires Valid() && i < |units| && SameFrame(units[i], u) && UnitOk(u, |units|)
      requires StatusesSafe(units[i].statuses, u.statuses) && AsView(u) == AsView(units[i])
      modifies `units
      ensures Valid() && Continues(old(State()), State()) && units == old(units)[i := u]
    {
      hide Inv, UnitOk, SameFrame, StatusesSafe, AsView;
      ghost var s := State();
      QuietStep(s, i, u);
      units := units[i := u];
      assert State() == s.(units := units);
    }

    method EmitNote(unit: UnitId, kind: NoteKind, tick: int)
      requires Valid()
      modifies `log
      ensures Valid() && Continues(old(State()), State()) && log == old(log) + [Note(tick, unit, kind)]
    {
      hide Inv;
      ghost var s := State();
      NoteStep(s, Note(tick, unit, kind));
      log := log + [Note(tick, unit, kind)];
      assert State() == s.(log := log);
    }

    // Effects as some definition lists them.
    method SomeEffects() returns (es: seq<Effect>)
      ensures EffectsOk(es)
    {
      es := *;
      if !EffectsOk(es) {
        es := [];
      }
    }

    // ---- Healing -------------------------------------------------------------------------------

    // Restores HP, capped at the maximum. Silent if nothing is restored.
    method HealUnit(source: int, target: int, healing: int, tick: int)
      requires Valid() && IsUnit(source) && IsUnit(target)
      modifies `units, `log
      ensures Valid() && Continues(old(State()), State())
      ensures units == Healed(old(units), target, healing, SuddenDeathHealing())
      ensures var restored := Restored(old(units)[target], healing, SuddenDeathHealing());
              log == old(log) + if restored > 0 then [Heal(tick, units[target].id, units[source].id, restored, units[target].hp)] else []
    {
      hide Inv, UnitOk, SameFrame, StatusesSafe, LegalLocal, ApplyLocal, AsView, Continues, Fight.Valid, Fight.State, ApplyPercent, StrongestWound, StatusPercent;
      Looking();
      var u := units[target];
      ContinuesRefl(State());
      UnitAt(State(), target);
      if !u.alive || healing <= 0 {
        return;
      }
      var amp := StatusPercent(u.statuses, HealingAmp);
      var amount := if amp != 0 then ApplyPercent(healing, amp) else healing;
      amount := if SuddenDeathHealing() != 0 then ApplyPercent(amount, SuddenDeathHealing()) else amount;
      if amount <= 0 {
        return;
      }
      var wound := Clamp(StrongestWound(u.statuses), 0, 100);
      var effective := Clamp32(amount * (100 - wound) / 100);
      var restored := Min(effective, u.maxHp - u.hp);
      if restored <= 0 {
        return;
      }
      HealIsLegal(u, u.(hp := u.hp + restored), Heal(tick, u.id, units[source].id, restored, u.hp + restored), |units|);
      Commit(target, u.(hp := u.hp + restored), Heal(tick, u.id, units[source].id, restored, u.hp + restored));
    }

    // ---- Hooks ---------------------------------------------------------------------------------

    // Spends one EmpoweredAttack charge of the holder; false if it has none.
    method SpendCharge(holder: int, tick: int) returns (spent: bool)
      requires Valid() && IsUnit(holder)
      modifies `units, `log
      ensures Valid() && Continues(old(State()), State())
      ensures spent <==> HasStatus(old(units)[holder], EmpoweredAttack)
      ensures units == old(units)[holder := ChargeSpent(old(units)[holder])]
      ensures log == old(log) + if |units[holder].statuses| < |old(units)[holder].statuses|
                                then [StatusEnded(tick, units[holder].id, EmpoweredAttack, units[holder].hp)] else []
    {
      hide *;
      Looking();
      var u := units[holder];
      UnitAt(State(), holder);
      ContinuesRefl(State());
      var k := FirstOf(u.statuses, EmpoweredAttack, 0);
      ChargeIs(u, k);
      if k == |u.statuses| {
        return false;
      }
      LivingCarry(u, k, |units|);
      var st := u.statuses[k].(percent := u.statuses[k].percent - 1);
      if st.percent <= 0 {
        UsedUpIsRemembered(u, k, |units|);
        EndIsSeen(u, UsedUp(u, k), StatusEnded(tick, u.id, EmpoweredAttack, u.hp), |units|);
        Use(holder, UsedUp(u, k), StatusEnded(tick, u.id, EmpoweredAttack, u.hp));
      } else {
        OneChargeLess(u, k, |units|);
        Tweak(holder, u.(statuses := u.statuses[k := st]));
      }
      return true;
    }

    // Counts one occurrence of a hook; if it fires, its effects are queued: with this tick's casts,
    // or (damage hooks) until the tick's damage has landed. Counting may cost a charge.
    method FireHook(slot: TriggerSlot, holder: int, target: int, immediate: bool, tick: int) returns (after: TriggerSlot)
      requires Valid() && IsUnit(holder) && -1 <= target < |units| && EffectsOk(slot.effects)
      modifies `units, `log, `casts, `pendingHooks
      ensures Valid() && Continues(old(State()), State())
      ensures var counts := !IsCapped(slot) && (slot.requiresCharge ==> HasStatus(old(units)[holder], EmpoweredAttack));
              var fires := if counts && Counted(slot).fired > slot.fired
                           then [CastRecord(holder, target, slot.effects, slot.stopsOnDeath, 0, false, true)] else [];
              && after == (if counts then Counted(slot) else slot)
              && casts == old(casts) + (if immediate then fires else [])
              && pendingHooks == old(pendingHooks) + if immediate then [] else fires
      ensures units == if IsCapped(slot) || !slot.requiresCharge then old(units)
                       else old(units)[holder := ChargeSpent(old(units)[holder])]
      ensures |units| == |old(units)|
      ensures log == old(log) + if |units[holder].statuses| < |old(units)[holder].statuses|
                                then [StatusEnded(tick, units[holder].id, EmpoweredAttack, units[holder].hp)] else []
    {
      hide Inv, Continues, ChargeSpent, Fight.Valid, Fight.State, HasStatus;
      Looking();
      ContinuesRefl(State());
      if IsCapped(slot) {
        return slot;
      }
      if slot.requiresCharge {
        var spent := SpendCharge(holder, tick);
        if !spent {
          return slot;
        }
      }
      if slot.attackCount > 1 && slot.counter + 1 < slot.attackCount {
        return slot.(counter := slot.counter + 1);
      }
      after := slot.(counter := if slot.attackCount > 1 then 0 else slot.counter, fired := slot.fired + 1);
      ghost var t := State();
      ContinuesAt(old(State()), t, holder);
      QueueCast(CastRecord(holder, target, slot.effects, slot.stopsOnDeath, 0, false, true), immediate);
      ContinuesTrans(old(State()), t, State());
    }

    method QueueCast(cast: CastRecord, immediate: bool)
      requires Valid() && CastOk(cast, |units|, chan)
      modifies `casts, `pendingHooks
      ensures Valid() && Continues(old(State()), State())
      ensures casts == old(casts) + (if immediate then [cast] else []) && pendingHooks == old(pendingHooks) + if immediate then [] else [cast]
    {
      ghost var s := State();
      hide UnitsOk, LogOk, IdsOk, GridOk, CountsOk, AurasOk, ChannelsOk, CastOk;
      if immediate {
        casts := casts + [cast];
      } else {
        pendingHooks := pendingHooks + [cast];
      }
      assert QueuesOk(State());
    }

    // Whichever triggers listen to a hit fire, once the tick's damage has landed.
    method FireHooks(tick: int)
      requires Valid()
      modifies `units, `log, `casts, `pendingHooks
      ensures Valid() && Continues(old(State()), State()) && OnlyStatuses(old(units), units)
      ensures casts == old(casts) && old(pendingHooks) <= pendingHooks
    {
      hide Inv, ChargeSpent, Counted, IsCapped, Continues, Fight.Valid, Fight.State, EffectsOk, HasStatus;
      Looking();
      ghost var s := State();
      ContinuesRefl(s);
      var n: nat := *;
      while n > 0
        invariant Valid() && Continues(s, State()) && OnlyStatuses(s.units, units)
        invariant casts == s.casts && s.pendingHooks <= pendingHooks
        decreases n
      {
        var slot: TriggerSlot, holder: int, target: int := *, *, *;
        if IsUnit(holder) && -1 <= target < |units| && EffectsOk(slot.effects) {
          Looking();
          ghost var t := State();
          OnlyCharges(units[holder]);
          var _ := FireHook(slot, holder, target, false, tick);
          Looking();
          ContinuesTrans(s, t, State());
        }
        n := n - 1;
      }
    }

    // Whichever triggers listen to anything else fire at once, in the order of the data.
    method Hooks(moment: Moment, tick: int)
      requires Valid()
      modifies `units, `log, `casts, `pendingHooks
      ensures Valid() && Continues(old(State()), State()) && OnlyStatuses(old(units), units) && |units| == |old(units)|
      ensures HooksFire(old(State()), moment, tick, Now(), State())
      ensures old(casts) <= casts && pendingHooks == old(pendingHooks)
    {
      hide *;
      Looking();
      ghost var s := State();
      ghost var law := Now();
      ContinuesRefl(s);
      OnlyStatusesNow(units);
      SceneIs(tick);
      var firings := config.numbers.firings(Scene(units, log, dice, tick), moment);
      ghost var step := (a: FightState, f: Firing, b: FightState) => Fires(a, f, tick, b);
      NoSteps(s, firings, step);
      for k := 0 to |firings|
        invariant Valid() && Continues(s, State()) && OnlyStatuses(s.units, units) && |units| == |s.units|
        invariant s.casts <= casts && pendingHooks == s.pendingHooks
        invariant InOrder(s, firings[..k], step, State())
      {
        Looking();
        ghost var t := State();
        var f := firings[k];
        if IsUnit(f.holder) && -1 <= f.target < |units| && EffectsOk(f.slot.effects) {
          var _ := FireHook(f.slot, f.holder, f.target, true, tick);
          Looking();
          ContinuesTrans(s, t, State());
          ChargesOnly(t.units, units, f.slot, f.holder);
          OnlyStatusesTwice(s.units, t.units, units);
          FiresIs(t, f, tick, State());
        } else {
          FiresNot(t, f, tick);
        }
        OneStepMore(s, firings, k, step, t, State());
      }
      AllSteps(s, firings, step, State());
      HooksFireIs(s, moment, tick, law, State());
    }

    // ---- Damage --------------------------------------------------------------------------------

    // The tail of a hit, once its final damage is known: shield reduction and absorption, HP, the
    // event, and everything that reacts to it.
    method DealResolved(victim: int, attacker: int, resolved: int, tick: int, credit: bool, rewards: bool)
      requires Valid() && IsUnit(victim) && IsUnit(attacker) && units[victim].alive && resolved >= 0
      modifies `units, `log, `casts, `pendingHooks
      ensures Valid() && Continues(old(State()), State())
      ensures Hurts(old(State()), victim, attacker, resolved, credit, rewards, tick, SuddenDeathHealing(), State()) && |units| == |old(units)|
      ensures units[victim].shields == Unbroken(SoakUp(old(units)[victim].shields, Reduced(old(units)[victim].shields, resolved)))
      ensures old(casts) == casts && old(pendingHooks) <= pendingHooks
    {
      hide *;
      Looking();
      ghost var s := State();
      ShieldsAt(s, victim);
      var shields := units[victim].shields;
      var reduction := BestReduction(shields);
      var damage := if reduction > 0 then resolved * (100 - reduction) / 100 else resolved;
      ReducedIs(shields, resolved);
      var after, absorbed, remaining := Absorb(shields, damage);
      TakeHit(victim, attacker, damage, after, absorbed, remaining, tick);
      Looking();
      ghost var t := State();
      ContinuesAt(s, t, victim);
      EndBroken(victim, after, tick);
      Looking();
      ghost var w := State();
      ContinuesTrans(s, t, w);
      ContinuesRefl(w);
      Aftermath(victim, attacker, damage, credit, rewards, tick, w);
      Looking();
      ShieldsAre(t.units, units, victim);
      ContinuesLog(w, State());
      ContinuesTrans(s, w, State());
      HurtsIs(s, t, w, victim, attacker, resolved, damage, after, absorbed, remaining, credit, rewards, tick, SuddenDeathHealing(), State());
    }

    // Everything that reacts to a hit.
    method Aftermath(victim: int, attacker: int, damage: int, credit: bool, rewards: bool, tick: int, ghost s: FightState)
      requires Valid() && Continues(s, State()) && 0 <= victim < |s.units| && 0 <= attacker < |s.units|
      modifies `units, `log, `casts, `pendingHooks
      ensures Valid() && Continues(s, State())
      ensures casts == old(casts) && old(pendingHooks) <= pendingHooks && SameShields(old(units), units) && |units| == |old(units)|
      ensures victim < |old(units)| && attacker < |old(units)| && FollowsHit(old(units), victim, attacker, damage, credit, rewards, SuddenDeathHealing(), units)
    {
      hide *;
      Looking();
      ghost var t := State();
      ghost var us := units;
      ContinuesAt(s, t, attacker);
      FireHooks(tick);   // OnShieldBreak
      Looking();
      ghost var a := units;
      ShieldsAfterHooks(us, units);
      ContinuesTrans(s, t, State());
      ContinuesAt(s, State(), attacker);
      ContinuesAt(s, State(), victim);
      t := State();
      Recover(victim, attacker, damage, credit, tick);
      Looking();
      ShieldsAfterRecovery(t.units, victim, attacker, damage, credit, SuddenDeathHealing());
      ShieldsTwice(us, t.units, units);
      ContinuesTrans(s, t, State());
      ContinuesAt(s, State(), attacker);
      ContinuesAt(s, State(), victim);
      t := State();
      ghost var recovered := units;
      RememberKiller(victim, attacker, rewards);
      Looking();
      ghost var b := units;
      ContinuesTrans(s, t, State());
      ShieldsAfterKiller(t.units, victim, attacker);
      ShieldsTwice(us, t.units, units);
      t := State();
      FireHooks(tick);   // DispatchDamageHooks
      Looking();
      ShieldsAfterHooks(t.units, units);
      ShieldsTwice(us, t.units, units);
      SameShieldsLength(us, units);
      ContinuesTrans(s, t, State());
      SameShieldsLength(us, a);
      SameShieldsLength(us, recovered);
      FollowsHitIs(us, a, recovered, b, victim, attacker, damage, credit, rewards, SuddenDeathHealing(), units);
    }

    // Omnivamp heals the attacker, regeneration the victim, by their share of the hit.
    method Recover(victim: int, attacker: int, damage: int, credit: bool, tick: int)
      requires Valid() && IsUnit(victim) && IsUnit(attacker)
      modifies `units, `log
      ensures Valid() && Continues(old(State()), State())
      ensures var cut := SuddenDeathHealing();
              units == Regenerated(Leeched(old(units), victim, attacker, damage, credit, cut), victim, damage, cut)
    {
      hide Inv, Continues, Healed, StatusPercent, Fight.Valid, Fight.State, Fight.SuddenDeathHealing;
      Looking();
      ghost var s := State();
      ContinuesRefl(s);
      var vamp := StatusPercent(units[attacker].statuses, Omnivamp);
      if credit && damage > 0 && units[attacker].alive && attacker != victim && vamp > 0 {
        HealUnit(attacker, attacker, Clamp32(damage * vamp / 100), tick);
        Looking();
      }
      ContinuesAt(s, State(), victim);
      var regen := StatusPercent(units[victim].statuses, DamageTakenRegen);
      if regen > 0 && units[victim].hp > 0 && damage > 0 {
        ghost var t := State();
        HealUnit(victim, victim, Clamp32(damage * regen / 100), tick);
        Looking();
        ContinuesTrans(s, t, State());
      }
    }

    // HP and shields change together with the Damage event.
    method TakeHit(victim: int, attacker: int, damage: int, after: seq<Shield>, absorbed: int, remaining: int, tick: int)
      requires Valid() && IsUnit(victim) && IsUnit(attacker) && units[victim].alive && damage >= 0
      requires Soaked(units[victim].shields, after) && absorbed + remaining == damage
      requires absorbed == Min(damage, ShieldTotal(units[victim].shields))
      requires ShieldTotal(after) == ShieldTotal(units[victim].shields) - absorbed
      modifies `units, `log
      ensures Valid() && Continues(old(State()), State())
      ensures units == old(units)[victim := old(units)[victim].(hp := Max(0, old(units)[victim].hp - remaining), shields := Unbroken(after))]
      ensures log == old(log) + [Damage(tick, units[victim].id, units[attacker].id, damage, absorbed, units[victim].hp)]
    {
      hide *;
      Looking();
      var u := units[victim];
      UnitAt(State(), victim);
      var hp := Max(0, u.hp - remaining);
      var v := u.(hp := hp, shields := Unbroken(after));
      var e := Damage(tick, u.id, units[attacker].id, damage, absorbed, hp);
      StruckOk(u, v, e, after, remaining, |units|);
      Commit(victim, v, e);
    }

    // Shields that were fully used up end now.
    method EndBroken(victim: int, after: seq<Shield>, tick: int)
      requires Valid() && IsUnit(victim) && units[victim].alive
      modifies `log
      ensures Valid() && Continues(old(State()), State())
      ensures log == old(log) + EndsOf(after, ShieldEnded(tick, units[victim].id, 0))
    {
      hide Inv;
      ghost var s := State();
      ContinuesRefl(s);
      ghost var e := ShieldEnded(tick, units[victim].id, 0);
      var i := 0;
      while i < |after|
        invariant 0 <= i <= |after| && Valid() && Continues(s, State()) && units == s.units
        invariant log == s.log + EndsOf(after[..i], e)
      {
        assert after[..i + 1][..i] == after[..i];
        if after[i].amount <= 0 {
          ghost var t := State();
          EmitShieldEnded(victim, tick);
          ContinuesTrans(s, t, State());
        }
        i := i + 1;
      }
      assert after[..i] == after;
    }

    // The end of an empty shield: the viewer's totals stay.
    method EmitShieldEnded(victim: int, tick: int)
      requires Valid() && IsUnit(victim) && units[victim].alive
      modifies `log
      ensures Valid() && Continues(old(State()), State()) && log == old(log) + [ShieldEnded(tick, units[victim].id, 0)]
    {
      hide Inv, Legal, Apply;
      ghost var s := State();
      EmptyShieldEnds(s, victim, tick);
      NoteStep(s, ShieldEnded(tick, units[victim].id, 0));
      log := log + [ShieldEnded(tick, units[victim].id, 0)];
      assert State() == s.(log := log);
    }

    // The first hit with rewards for a kill that finds its victim at 0 HP.
    method RememberKiller(victim: int, attacker: int, rewards: bool)
      requires Valid() && IsUnit(victim) && IsUnit(attacker)
      modifies `units
      ensures Valid() && Continues(old(State()), State())
      ensures var u := old(units)[victim];
              units == if u.hp == 0 && u.killer < 0 && rewards then old(units)[victim := u.(killer := attacker)] else old(units)
    {
      hide Inv, StatusesSafe, RouteOk, StatusesOk, ShieldsOk, DotsOk, TemplateOk;
      UnitAt(State(), victim);
      StatusesUnchanged(units[victim].statuses);
      ContinuesRefl(State());
      if units[victim].hp == 0 && units[victim].killer < 0 && rewards {
        Tweak(victim, units[victim].(killer := attacker));
      }
    }

    // A SpellShield status swallows one ability hit and is used up.
    method ConsumeSpellShield(victim: int, tick: int) returns (blocked: bool)
      requires Valid() && IsUnit(victim) && units[victim].alive
      modifies `units, `log
      ensures Valid() && Continues(old(State()), State())
      ensures blocked <==> HasStatus(old(units)[victim], SpellShield)
      ensures var u := old(units)[victim];
              var k := FirstOf(u.statuses, SpellShield, 0);
              if blocked then k < |u.statuses| && units == old(units)[victim := UsedUp(u, k)]
                              && log == old(log) + [StatusEnded(tick, u.id, SpellShield, u.hp)]
              else State() == old(State())
    {
      hide Inv, UnitOk, UsesUp, SameStand, LegalLocal, ApplyLocal, AsView, Continues, Fight.Valid, Fight.State;
      Looking();
      var u := units[victim];
      UnitAt(State(), victim);
      ContinuesRefl(State());
      var k := FirstOf(u.statuses, SpellShield, 0);
      if k == |u.statuses| {
        return false;
      }
      UsedUpIsRemembered(u, k, |units|);
      EndIsSeen(u, UsedUp(u, k), StatusEnded(tick, u.id, SpellShield, u.hp), |units|);
      Use(victim, UsedUp(u, k), StatusEnded(tick, u.id, SpellShield, u.hp));
      return true;
    }

    // Everything queued this tick lands now: spell shield, mitigation, tether split, the hit itself.
    method ApplyHits(tick: int)
      requires Valid()
      modifies `units, `log, `casts, `pendingHooks, `hits
      ensures Valid() && Continues(old(State()), State()) && AllHitsLand(old(State()), tick, Now(), State())
    {
      hide *;
      Looking();
      ghost var s := State();
      ContinuesRefl(s);
      HitsAt(s);
      var queue := hits;
      ghost var law := Now();
      ghost var step := (a: FightState, h: Hit, b: FightState) => Arrives(a, h, tick, law, b);
      NoSteps(s, queue, step);
      for k := 0 to |queue|
        invariant Valid() && Continues(s, State())
        invariant InOrder(s, queue[..k], step, State())
      {
        Looking();
        ContinuesAt(s, State(), queue[k].source);
        ContinuesAt(s, State(), queue[k].target);
        ghost var t := State();
        SceneIs(tick);
        var scene := Scene(units, log, dice, tick);
        var amount, rewards := config.numbers.mitigated(scene, queue[k]), config.numbers.rewarding(scene, queue[k]);
        var mitigated := if amount > 0 then amount else 0;
        LandHit(queue[k], mitigated, rewards, tick);
        Looking();
        ContinuesTrans(s, t, State());
        ArrivesIs(t, queue[k], mitigated, rewards, tick, law, State());
        OneStepMore(s, queue, k, step, t, State());
      }
      AllSteps(s, queue, step, State());
      Looking();
      ghost var t := State();
      ClearHits();
      Looking();
      ContinuesTrans(s, t, State());
      QueueLanded(s, t, tick, law);
    }

    method ClearHits()
      requires Valid()
      modifies `hits
      ensures Valid() && Continues(old(State()), State()) && State() == old(State()).(hits := [])
    {
      hide UnitsOk, LogOk, IdsOk, GridOk, CountsOk, AurasOk, ChannelsOk, CastOk;
      hits := [];
      assert QueuesOk(State());
    }

    // One hit: nothing for those already at 0 HP, nothing but the shield's end for a blocked one, and
    // otherwise what is left of it after the tether's share -- with a heal for the source if it drains.
    method LandHit(h: Hit, mitigated: int, rewards: bool, tick: int)
      requires Valid() && IsUnit(h.source) && IsUnit(h.target) && mitigated >= 0
      modifies `units, `log, `casts, `pendingHooks
      ensures Valid() && Continues(old(State()), State())
      ensures HitLands(old(State()), h, mitigated, rewards, tick, SuddenDeathHealing(), State())
      ensures casts == old(casts)
    {
      hide *;
      Looking();
      ghost var s := State();
      ContinuesRefl(s);
      BlockedIs(units, h);
      if !units[h.target].alive || units[h.target].hp <= 0 {
        TooLate(s, h, mitigated, rewards, tick, SuddenDeathHealing());
        return;
      }
      if h.isAbility && !h.isDot && units[h.source].team != units[h.target].team {
        var blocked := ConsumeSpellShield(h.target, tick);
        if blocked {
          Looking();
          Blocked(s, h, mitigated, rewards, tick, SuddenDeathHealing(), State());
          return;
        }
      }
      Looking();
      ContinuesTrans(s, s, State());
      var tether, redirected := TetherShare(h.target, mitigated);
      LandShares(h, mitigated - redirected, tether, redirected, rewards, tick);
      Looking();
      Landed(s, h, mitigated, rewards, tick, SuddenDeathHealing(), State(), redirected);
    }

    // The hit itself, the heal of a source that drains, and the share that goes elsewhere.
    method LandShares(h: Hit, damage: int, tether: int, redirected: int, rewards: bool, tick: int)
      requires Valid() && IsUnit(h.source) && IsUnit(h.target) && units[h.target].alive && damage >= 0 && redirected >= 0
      requires redirected > 0 ==> IsUnit(tether) && units[tether].alive
      modifies `units, `log, `casts, `pendingHooks
      ensures Valid() && Continues(old(State()), State()) && casts == old(casts)
      ensures SharesLand(old(State()), h, damage, tether, redirected, rewards, tick, SuddenDeathHealing(), State())
    {
      hide *;
      Looking();
      ghost var s := State();
      ghost var cut := SuddenDeathHealing();
      DealResolved(h.target, h.source, damage, tick, true, rewards);
      Looking();
      ghost var w := State();
      SameIds(s, w, h.source);
      ContinuesRefl(w);
      if h.healPercent > 0 && units[h.source].alive {
        HealUnit(h.source, h.source, Clamp32(damage * h.healPercent / 100), tick);
        Looking();
        ContinuesTrans(s, w, State());
        HealsIs(w, h.source, h.source, Clamp32(damage * h.healPercent / 100), tick, cut, State());
        DrainsIs(w, h, damage, tick, cut, State());
      } else {
        NoDrain(w, h, damage, tick, cut);
      }
      ghost var x := State();
      if redirected > 0 {
        SameIds(s, x, tether);
        SameIds(s, x, h.source);
        DealResolved(tether, h.source, redirected, tick, true, false);
        Looking();
        ContinuesTrans(s, x, State());
      }
      SharesLandIs(s, h, damage, tether, redirected, rewards, tick, cut, w, x, State());
    }

    // A tether sends its share of the (already mitigated) hit to the tether's source.
    method TetherShare(victim: int, damage: int) returns (tether: int, redirected: int)
      requires Valid() && IsUnit(victim) && damage >= 0
      ensures tether == TetheredTo(units, victim) && redirected == Redirected(units, victim, damage)
      ensures 0 <= redirected <= damage
      ensures redirected > 0 ==> IsUnit(tether) && units[tether].alive && tether != victim
    {
      hide Inv;
      UnitAt(State(), victim);
      tether, redirected := -1, 0;
      var ss := units[victim].statuses;
      for k := 0 to |ss|
        invariant tether == -1 && redirected == 0
        invariant FirstTether(units, victim, 0) == FirstTether(units, victim, k)
      {
        var st := ss[k];
        if st.kind == Tether && st.source >= 0 && st.source != victim && units[st.source].alive && units[st.source].hp > 0 {
          return st.source, Share(damage, Clamp(st.percent, 0, 100));
        }
      }
    }

    // ---- Statuses ------------------------------------------------------------------------------

    // AddStatus and its event: crowd control from another unit bounces off CcImmunity.
    method GrantStatus(holder: int, selfApplied: bool, kind: StatusType, percent: int, expires: int, refresh: bool, source: int, tick: int)
      returns (added: bool)
      requires Valid() && IsUnit(holder) && units[holder].alive && -1 <= source < |units| && expires <= FOREVER
      modifies `units, `log
      ensures Valid() && Continues(old(State()), State())
      ensures added <==> !(IsCcStatus(kind) && !selfApplied && HasStatus(old(units)[holder], CcImmunity))
      ensures units == if added then old(units)[holder := WithStatus(old(units)[holder], kind, percent, expires, refresh, source)]
                       else old(units)
      ensures log == old(log) + if added then [StatusApplied(tick, units[holder].id, kind, units[holder].hp)] else []
    {
      hide Inv, StatusesSafe, UnitOk, SameFrame, WithStatus;
      var u := units[holder];
      UnitAt(State(), holder);
      ContinuesRefl(State());
      if IsCcStatus(kind) && !selfApplied && HasStatus(u, CcImmunity) {
        return false;
      }
      WithStatusKeeps(u, kind, percent, expires, refresh, source, |units|);
      var v := WithStatus(u, kind, percent, expires, refresh, source);
      assert v.hp >= 0 by {
        HpInRange(v, |units|);
      }
      assert SameFrame(u, v);
      SameFrameParts(u, v);
      Commit(holder, v, StatusApplied(tick, u.id, kind, v.hp));
      return true;
    }

    // A stun or knock-up breaks a channel: what is left of it is cancelled for good.
    method InterruptChannel(i: int, tick: int)
      requires Valid() && IsUnit(i)
      modifies `units, `log, `chan
      ensures Valid() && Continues(old(State()), State())
      ensures units == old(units)[i := Interrupted(old(units)[i], tick)] && chan == Ended(old(chan), old(units)[i])
      ensures log == old(log) + if old(units)[i].activeChannelSerial != 0 then [Note(tick, units[i].id, SpellInterrupted)] else []
    {
      hide Inv, Continues, UnitOk;
      ghost var s := State();
      ContinuesRefl(s);
      if units[i].activeChannelSerial == 0 {
        return;
      }
      EndChannel(i, Min(units[i].lockedUntil, tick));
      ghost var t := State();
      EmitNote(units[i].id, SpellInterrupted, tick);
      ContinuesTrans(s, t, State());
    }

    method EndChannel(i: int, lockedUntil: int)
      requires Valid() && IsUnit(i) && units[i].activeChannelSerial != 0
      modifies `units, `chan
      ensures Valid() && Continues(old(State()), State())
      ensures chan == old(chan) + [Stop(old(units)[i].activeChannelSerial)]
      ensures units == old(units)[i := old(units)[i].(activeChannelSerial := 0, lockedUntil := lockedUntil)]
    {
      hide Inv, StatusesSafe, RouteOk, StatusesOk, ShieldsOk, DotsOk, TemplateOk;
      ghost var s := State();
      var u := units[i].(activeChannelSerial := 0, lockedUntil := lockedUntil);
      UnitAt(s, i);
      StopStep(s, i, u);
      chan := chan + [Stop(units[i].activeChannelSerial)];
      units := units[i := u];
      assert State() == s.(units := units, chan := chan);
    }

    // ---- Effects -------------------------------------------------------------------------------

    // Of whatever the targeting rule names, the living units that the caster can reach, in that order.
    method ResolveTargets(cast: CastRecord, e: Effect, tick: int) returns (targets: seq<int>, centre: HexCoord)
      requires Valid() && IsUnit(cast.caster)
      ensures LiveTargets(State(), targets) && AllReachable(units, cast.caster, targets)
      ensures targets == Reached(units, cast.caster, config.numbers.targets(Scene(units, log, dice, tick), cast, e))
      ensures centre == config.numbers.centre(Scene(units, log, dice, tick), cast, e)
    {
      hide *;
      Looking();
      NobodyTargeted(State(), units, cast.caster);
      var picked := config.numbers.targets(Scene(units, log, dice, tick), cast, e);
      centre := config.numbers.centre(Scene(units, log, dice, tick), cast, e);
      targets := [];
      NothingReached(units, cast.caster, picked);
      for k := 0 to |picked|
        invariant LiveTargets(State(), targets) && AllReachable(units, cast.caster, targets)
        invariant targets == Reached(units, cast.caster, picked[..k])
      {
        ReachedNext(units, cast.caster, picked, k);
        ReachableIs(units, cast.caster, picked[k]);
        if IsUnit(picked[k]) && units[picked[k]].alive && (units[picked[k]].team == units[cast.caster].team || Affectable(units[picked[k]])) {
          OneTargetMore(State(), units, cast.caster, targets, picked[k]);
          targets := targets + [picked[k]];
        }
      }
    }

    method QueueHit(h: Hit)
      requires Valid() && IsUnit(h.source) && IsUnit(h.target)
      modifies `hits
      ensures Valid() && Continues(old(State()), State()) && hits == old(hits) + [h]
    {
      hide UnitsOk, LogOk, IdsOk, GridOk, CountsOk, AurasOk, ChannelsOk, CastOk;
      hits := hits + [h];
      assert QueuesOk(State());
    }

    // A blink that is presentation only (an ally joins a strike and is back at once).
    method EmitBlink(i: int, to: HexCoord, tick: int)
      requires Valid() && IsUnit(i) && units[i].alive
      modifies `log
      ensures Valid() && Continues(old(State()), State()) && log == old(log) + [Teleport(tick, units[i].id, units[i].pos, to, 2)]
    {
      hide Inv;
      ghost var s := State();
      SeenAlive(s, i);
      NoteStep(s, Teleport(tick, units[i].id, units[i].pos, to, 2));
      log := log + [Teleport(tick, units[i].id, units[i].pos, to, 2)];
      assert State() == s.(log := log);
    }

    // A new shield of positive capacity.
    method GrantShield(holder: int, amount: int, expires: int, reduction: int, tick: int)
      requires Valid() && IsUnit(holder) && units[holder].alive && 0 < amount <= MAX_VALUE && 0 <= reduction <= 100
      modifies `units, `log
      ensures Valid() && Continues(old(State()), State())
      ensures units == old(units)[holder := old(units)[holder].(shields := old(units)[holder].shields + [Shield(amount, expires, reduction, 0)])]
      ensures log == old(log) + [ShieldApplied(tick, units[holder].id, amount)]
    {
      hide Inv, StatusesSafe, RouteOk, StatusesOk, DotsOk, TemplateOk;
      var u := units[holder];
      UnitAt(State(), holder);
      StatusesUnchanged(u.statuses);
      var shields := u.shields + [Shield(amount, expires, reduction, 0)];
      assert shields[..|u.shields|] == u.shields;
      Commit(holder, u.(shields := shields), ShieldApplied(tick, u.id, amount));
    }

    // A new damage-over-time stack; a refreshing one takes over the rhythm of those it replaces.
    method GrantDot(holder: int, source: int, e: Payload, duration: int, total: int, tick: int)
      requires Valid() && IsUnit(holder) && units[holder].alive && IsUnit(source)
      requires e.DotEffect? && e.intervalTicks >= 1 && duration >= 1 && total >= 0 && tick >= 0
      modifies `units, `log
      ensures Valid() && Continues(old(State()), State())
      ensures units == old(units)[holder := Burned(old(units)[holder], source, e, duration, total, tick)]
      ensures log == old(log) + [StatusApplied(tick, units[holder].id, e.visual, units[holder].hp)]
    {
      hide Inv, StatusesSafe, RouteOk, StatusesOk, ShieldsOk, TemplateOk, DotOk;
      var u := units[holder];
      UnitAt(State(), holder);
      StatusesUnchanged(u.statuses);
      var inherited := if e.refreshesDot then NextOf(u.dots, e.key) else -1;
      var kept := if e.refreshesDot then Without(u.dots, e.key) else u.dots;
      WithoutKeeps(u.dots, e.key, |units|);
      var dot := NewDot(source, e.key, tick, duration, e.intervalTicks, inherited, total, true, e.visual, e.healPercent);
      Commit(holder, u.(dots := kept + [dot]), StatusApplied(tick, u.id, e.visual, u.hp));
    }

    // Runs one effect on the targets its rule resolves to now.
    method ExecuteEffect(cast: CastRecord, e: Effect, tick: int)
      requires Valid() && IsUnit(cast.caster) && -1 <= cast.target < |units| && EffectOk(e) && 0 <= tick <= MAX_VALUE
      modifies `units, `log, `hits, `casts, `scheduled, `pendingHooks, `dice, `summonsSpawned, `alive, `summonAlive, `castSerial, `chan, grid.blocked
      ensures Valid() && Continues(old(State()), State())
      ensures old(scheduled) <= scheduled
      ensures Executes(old(State()), cast, e, tick, Now(), State())
      decreases MAX_SUMMONS_PER_FIGHT - summonsSpawned, 3
    {
      hide *;
      Looking();
      ghost var s := State();
      ThrowDice();
      Looking();
      ghost var w := State();
      TakeEffect(cast, e, tick);
      Looking();
      ContinuesTrans(s, w, State());
      ExecutesIs(s, cast, e, tick, Now(), w, State());
    }

    method ThrowDice()
      requires Valid()
      modifies `dice
      ensures Valid() && Continues(old(State()), State()) && State() == old(State()).(dice := old(dice) + 1) && dice == old(dice) + 1
    {
      hide UnitsOk, LogOk, IdsOk, GridOk, CountsOk, AurasOk, ChannelsOk, CastOk;
      dice := dice + 1;
      assert QueuesOk(State());
    }

    // Of its targets, one after the other; a condition that is not met prevents it.
    method TakeEffect(cast: CastRecord, e: Effect, tick: int)
      requires Valid() && IsUnit(cast.caster) && -1 <= cast.target < |units| && EffectOk(e) && 0 <= tick <= MAX_VALUE
      modifies `units, `log, `hits, `casts, `scheduled, `pendingHooks, `dice, `summonsSpawned, `alive, `summonAlive, `castSerial, `chan, grid.blocked
      ensures Valid() && Continues(old(State()), State())
      ensures old(scheduled) <= scheduled
      ensures TakesEffect(old(State()), cast, e, tick, Now(), State())
      decreases MAX_SUMMONS_PER_FIGHT - summonsSpawned, 3, 0
    {
      hide *;
      Looking();
      ghost var s := State();
      ghost var law := Now();
      ContinuesRefl(s);
      SpawnedBound(s);
      SceneIs(tick);
      if e.conditional && config.numbers.prevented(Scene(units, log, dice, tick), cast, e) {
        Prevented(s, cast, e, tick, law);
        return;
      }
      var targets, centre := ResolveTargets(cast, e, tick);
      PayloadIs(e);
      match e.payload {
        case SummonEffect =>
          SummonUnits(cast.caster, tick);
          Looking();
          SummonsIs(s, State());
        case CloneEffect(count) =>
          CloneUnits(cast, e, count, tick);
          Looking();
          SummonsIs(s, State());
        case ManaEffect =>
        case AllyStrikeEffect => StrikeTargets(cast.caster, targets, tick);
        case _ => AffectTargets(cast, e.payload, targets, centre, tick);
      }
      Executing(s, cast, e, targets, centre, tick, law, State());
    }

    // An ally (there may be none) blinks to every target that is not its own side's, strikes and is back.
    method StrikeTargets(caster: int, targets: seq<int>, tick: int)
      requires Valid() && IsUnit(caster) && LiveTargets(State(), targets)
      modifies `log, `hits
      ensures Valid() && Continues(old(State()), State())
      ensures AllyStrikes(old(State()), caster, targets, tick, Now(), State())
    {
      hide *;
      Looking();
      ghost var s := State();
      ContinuesRefl(s);
      ghost var law := Now();
      TargetsIn(s, targets);
      SceneIs(tick);
      var ally := config.numbers.helper(Scene(units, log, dice, tick), caster);   // the ally of that champion, if there is one
      if !IsUnit(ally) || ally == caster || !units[ally].alive || units[ally].team != units[caster].team {
        NobodyStrikes(s, caster, ally, targets, tick, law);
        return;
      }
      ghost var step := (a: FightState, x: int, b: FightState) => StrikesFor(a, ally, x, tick, law, b);
      NoSteps(s, targets, step);
      for k := 0 to |targets|
        invariant Valid() && Continues(s, State()) && units == s.units
        invariant InOrder(s, targets[..k], step, State())
      {
        Looking();
        ghost var t := State();
        SceneIs(tick);
        var raw := config.numbers.strike(Scene(units, log, dice, tick), ally, targets[k]);
        if raw > 0 && units[targets[k]].team != units[ally].team {
          EmitBlink(ally, units[targets[k]].pos, tick);
          Looking();
          ContinuesTrans(s, t, State());
          ghost var w := State();
          QueueHit(Hit(ally, targets[k], raw, true, false, 0));
          Looking();
          ContinuesTrans(s, w, State());
        }
        BlinksIs(t, ally, targets[k], raw, tick, law, State());
        OneStepMore(s, targets, k, step, t, State());
      }
      AllSteps(s, targets, step, State());
      AllyStrikesIs(s, caster, ally, targets, tick, law, State());
    }

    method AffectTargets(cast: CastRecord, e: Payload, targets: seq<int>, centre: HexCoord, tick: int)
      requires Valid() && IsUnit(cast.caster) && LiveTargets(State(), targets) && 0 <= tick <= MAX_VALUE
      requires EffectOk(Effect(e, 0, 1, 0, false))
      requires e.DamageEffect? || e.ShieldEffect? || e.StatusEffect? || e.DotEffect? || e.HealEffect? || e.TeleportEffect? || e.DisplaceEffect?
      modifies `units, `log, `hits, `chan, grid.blocked
      ensures Valid() && Continues(old(State()), State())
      ensures AffectsAll(old(State()), cast, e, targets, centre, tick, Now(), State())
    {
      hide *;
      Looking();
      ghost var s := State();
      ghost var law := Now();
      ContinuesRefl(s);
      TargetsIn(s, targets);
      ghost var step := (a: FightState, x: int, b: FightState) => Affects(a, cast, e, x, centre, tick, law, b);
      NoSteps(s, targets, step);
      for k := 0 to |targets|
        invariant Valid() && Continues(s, State())
        invariant InOrder(s, targets[..k], step, State())
      {
        Looking();
        SameIds(s, State(), targets[k]);
        ContinuesAt(s, State(), cast.caster);
        ghost var t := State();
        AffectTarget(cast, e, targets[k], centre, tick);
        ContinuesTrans(s, t, State());
        OneStepMore(s, targets, k, step, t, State());
      }
      AllSteps(s, targets, step, State());
      AffectsAllIs(s, cast, e, targets, centre, tick, law, State());
    }

    // What is done with the numbers that the formulas come to.
    method AffectTarget(cast: CastRecord, e: Payload, t: int, centre: HexCoord, tick: int)
      requires Valid() && IsUnit(cast.caster) && IsUnit(t) && units[t].alive && 0 <= tick <= MAX_VALUE
      requires EffectOk(Effect(e, 0, 1, 0, false))
      requires e.DamageEffect? || e.ShieldEffect? || e.StatusEffect? || e.DotEffect? || e.HealEffect? || e.TeleportEffect? || e.DisplaceEffect?
      modifies `units, `log, `hits, `chan, grid.blocked
      ensures Valid() && Continues(old(State()), State())
      ensures Affects(old(State()), cast, e, t, centre, tick, Now(), State())
    {
      hide *;
      Looking();
      ghost var s := State();
      ContinuesRefl(s);
      PayloadOk(e);
      SceneIs(tick);
      var roll := config.numbers.roll(Scene(units, log, dice, tick), cast, e, t);
      match e {
        case ShieldEffect(permanent, capped, reduction) => ShieldTarget(t, roll, permanent, capped, reduction, tick);
        case StatusEffect(status, lasting, refreshes) => AfflictTarget(cast.caster, t, roll, status, lasting, refreshes, tick);
        case DotEffect(_, _, _, _, _, _) => BurnTarget(cast.caster, t, e, roll, tick);
        case HealEffect =>
          HealUnit(cast.caster, t, Clamp32(roll.amount), tick);
          Looking();
          HealsIs(s, cast.caster, t, Clamp32(roll.amount), tick, SuddenDeathHealing(), State());
        case TeleportEffect(destination) => TeleportUnit(t, destination, cast.target, tick);
        case DisplaceEffect(sense, hexes) => DisplaceUnit(cast.caster, t, sense, centre, hexes, tick);
        case DamageEffect => DamageTarget(cast.caster, t, roll);
      }
      Affecting(s, cast, e, t, centre, tick, Now(), roll, State());
    }

    // A hit, and perhaps one more on the nearest other enemy that it bounces on to.
    method DamageTarget(caster: int, t: int, roll: Roll)
      requires Valid() && IsUnit(caster) && IsUnit(t)
      modifies `hits
      ensures Valid() && Continues(old(State()), State())
      ensures Strikes(old(State()), caster, t, roll, State())
    {
      hide *;
      Looking();
      ghost var s := State();
      ContinuesRefl(s);
      if roll.amount <= 0 {
        NoStrike(s, caster, t, roll);
        return;
      }
      QueueHit(Hit(caster, t, Clamp32(roll.amount), true, false, 0));
      Looking();
      ghost var w := State();
      var next := PickBest(BounceScores(units, caster, t));
      BounceIn(units, caster, t, next);
      if next >= 0 && roll.bounced > 0 {
        QueueHit(Hit(caster, next, roll.bounced, true, false, 0));
        Looking();
        ContinuesTrans(s, w, State());
      }
      StrikesIs(s, caster, t, roll, next, State());
    }

    method ShieldTarget(t: int, roll: Roll, permanent: bool, capped: bool, reduction: int, tick: int)
      requires Valid() && IsUnit(t) && units[t].alive && 0 <= reduction <= 100
      modifies `units, `log
      ensures Valid() && Continues(old(State()), State())
      ensures Shielded(old(State()), t, roll, permanent, capped, reduction, tick, SuddenDeathHealing(), State())
    {
      hide *;
      Looking();
      ghost var s := State();
      ghost var cut := SuddenDeathHealing();
      ContinuesRefl(s);
      ShieldGainIs(units[t], Clamp32(roll.amount), capped, roll.cap, cut);
      AmountsAre(roll);
      var amount, duration := Clamp32(roll.amount), Clamp32(roll.length);
      if amount <= 0 || (!permanent && duration <= 0) {
        NotShielded(s, t, roll, permanent, capped, reduction, tick, cut);
        return;
      }
      var gain := if capped then Min(amount, roll.cap - ShieldTotal(units[t].shields)) else amount;
      if gain <= 0 {
        NotShielded(s, t, roll, permanent, capped, reduction, tick, cut);
        return;
      }
      var amp := StatusPercent(units[t].statuses, HealingAmp);
      gain := if amp != 0 then ApplyPercent(gain, amp) else gain;
      gain := if SuddenDeathHealing() != 0 then ApplyPercent(gain, SuddenDeathHealing()) else gain;
      if gain <= 0 {
        NotShielded(s, t, roll, permanent, capped, reduction, tick, cut);
        return;
      }
      GrantShield(t, gain, if permanent then FOREVER else tick + duration, reduction, tick);
      Looking();
      ShieldedIs(s, t, roll, permanent, capped, reduction, tick, cut, gain, State());
    }

    method AfflictTarget(caster: int, t: int, roll: Roll, status: StatusType, lasting: bool, refreshes: bool, tick: int)
      requires Valid() && IsUnit(t) && IsUnit(caster) && units[t].alive && 0 <= tick <= MAX_VALUE
      modifies `units, `log, `chan
      ensures Valid() && Continues(old(State()), State())
      ensures Afflicts(old(State()), caster, t, roll, status, lasting, refreshes, tick, State())
    {
      hide *;
      Looking();
      ghost var s := State();
      ContinuesRefl(s);
      ClampSign(roll.length);
      AfflictsIs(s, caster, t, roll, status, lasting, refreshes, tick, s);
      var duration := Clamp32(roll.length);
      if !lasting && duration <= 0 {
        return;
      }
      if IsFlatBonus(status) && roll.amount == 0 {
        return;
      }
      ForeverIsLast(tick, roll.length);
      Afflict(caster, t, status, roll.amount, if lasting then FOREVER else tick + duration, refreshes, tick);
      Looking();
      AfflictsIs(s, caster, t, roll, status, lasting, refreshes, tick, State());
    }

    // A status that lands may break a channel.
    method Afflict(caster: int, t: int, status: StatusType, percent: int, expires: int, refreshes: bool, tick: int)
      requires Valid() && IsUnit(t) && IsUnit(caster) && units[t].alive && expires <= FOREVER
      modifies `units, `log, `chan
      ensures Valid() && Continues(old(State()), State())
      ensures IsAfflicted(old(State()), State(), t, status, percent, expires, refreshes, caster, tick)
    {
      hide *;
      Looking();
      ghost var s := State();
      ContinuesRefl(s);
      var added := GrantStatus(t, t == caster, status, percent, expires, refreshes, caster, tick);
      Looking();
      ghost var w := State();
      ContinuesLength(s, w);
      if added && (status == Stun || status == Knockup) {
        InterruptChannel(t, tick);
        Looking();
        ContinuesTrans(s, w, State());
      }
      Affliction(s, w, State(), t, status, percent, expires, refreshes, caster, tick, added);
    }

    // A caster that carries InflictsWound wounds what it burns.
    method BurnTarget(caster: int, t: int, e: Payload, roll: Roll, tick: int)
      requires Valid() && IsUnit(t) && IsUnit(caster) && units[t].alive && 0 <= tick <= MAX_VALUE
      requires e.DotEffect? && e.intervalTicks >= 1
      modifies `units, `log
      ensures Valid() && Continues(old(State()), State())
      ensures Ignites(old(State()), caster, t, roll, e, tick, State())
    {
      hide *;
      Looking();
      ghost var s := State();
      ContinuesRefl(s);
      ClampSign(roll.length);
      var total, duration := roll.amount, Clamp32(roll.length);
      if total <= 0 || duration <= 0 {
        NotIgnited(s, caster, t, roll, e, tick);
        return;
      }
      GrantDot(t, caster, e, duration, total, tick);
      Looking();
      ghost var w := State();
      ContinuesAt(s, w, t);
      BurningKeeps(s.units[t], caster, e, duration, total, tick);
      SameStatusesOf(s.units, w.units, t, caster, InflictsWound);
      var wound := StatusPercent(units[caster].statuses, InflictsWound);
      if wound > 0 {
        ForeverIsLast(tick, roll.length);
        WoundIsNoCc();
        WoundKeepsHp(units[t], wound, tick + duration);
        var _ := GrantStatus(t, t == caster, Wound, wound, tick + duration, false, -1, tick);
        Looking();
        ContinuesTrans(s, w, State());
      }
      BurnedIs(s.units, w.units, units, t, caster, e, duration, total, tick);
      IgnitesIs(s, caster, t, roll, e, tick, State());
    }

    // Runs an effect now, or schedules it: repeatCount runs, the first after its delay.
    method RunOrSchedule(cast: CastRecord, e: Effect, tick: int, extraDelay: int)
      requires Valid() && CastOk(cast, |units|, chan) && EffectOk(e) && 0 <= tick <= MAX_VALUE
      modifies `units, `log, `hits, `casts, `scheduled, `pendingHooks, `dice, `summonsSpawned, `alive, `summonAlive, `castSerial, `chan, grid.blocked
      ensures Valid() && Continues(old(State()), State())
      ensures old(scheduled) <= scheduled
      ensures Repeats(old(State()), cast, e, tick, extraDelay, Now(), State())
      ensures extraDelay + e.delayTicks > 0 && e.repeatIntervalTicks >= 0 ==>
                State() == old(State()).(scheduled := old(scheduled) + Runs(cast, e, tick + extraDelay, e.repeatCount))
      decreases MAX_SUMMONS_PER_FIGHT - summonsSpawned, 5
    {
      hide *;
      Looking();
      ghost var s := State();
      ghost var law := Now();
      ContinuesRefl(s);
      ghost var step := (a: FightState, i: int, b: FightState) => RunsOrWaits(a, cast, e, tick, extraDelay, law, i, b);
      NoSteps(s, Upto(e.repeatCount), step);
      UptoSize(e.repeatCount);
      NoRuns(cast, e, tick + extraDelay, s.scheduled);
      for i := 0 to e.repeatCount
        invariant Valid() && Continues(s, State()) && s.scheduled <= scheduled
        invariant i <= |Upto(e.repeatCount)| && InOrder(s, Upto(e.repeatCount)[..i], step, State())
        invariant extraDelay + e.delayTicks > 0 && e.repeatIntervalTicks >= 0 ==>
                    State() == s.(scheduled := s.scheduled + Runs(cast, e, tick + extraDelay, i))
      {
        Looking();
        if e.repeatIntervalTicks >= 0 {
          MulMono(0, i, e.repeatIntervalTicks);
        }
        UptoAt(e.repeatCount, i);
        ContinuesCast(s, State(), cast);
        ContinuesSpawned(s, State());
        SpawnedBound(s);
        ghost var t := State();
        RunOne(cast, e, tick, extraDelay, i);
        ContinuesTrans(s, t, State());
        OneRunMore(cast, e, tick + extraDelay, i, s.scheduled, tick + extraDelay + e.delayTicks + i * e.repeatIntervalTicks);
        OneStepMore(s, Upto(e.repeatCount), i, step, t, State());
      }
      AllSteps(s, Upto(e.repeatCount), step, State());
      RepeatsIs(s, cast, e, tick, extraDelay, law, State());
    }

    // Run i: now, or later.
    method RunOne(cast: CastRecord, e: Effect, tick: int, extraDelay: int, i: nat)
      requires Valid() && CastOk(cast, |units|, chan) && EffectOk(e) && 0 <= tick <= MAX_VALUE
      modifies `units, `log, `hits, `casts, `scheduled, `pendingHooks, `dice, `summonsSpawned, `alive, `summonAlive, `castSerial, `chan, grid.blocked
      ensures Valid() && Continues(old(State()), State())
      ensures old(scheduled) <= scheduled
      ensures RunsOrWaits(old(State()), cast, e, tick, extraDelay, Now(), i, State())
      ensures var due := extraDelay + e.delayTicks + i * e.repeatIntervalTicks;
              due > 0 ==> State() == old(State()).(scheduled := old(scheduled) + [Scheduled(tick + due, cast, e)])
      decreases MAX_SUMMONS_PER_FIGHT - summonsSpawned, 4
    {
      hide *;
      Looking();
      ghost var s := State();
      CastParts(cast, |units|, chan);
      var due := extraDelay + e.delayTicks + i * e.repeatIntervalTicks;
      if due <= 0 {
        ExecuteEffect(cast, e, tick);
      } else {
        ScheduleEffect(Scheduled(tick + due, cast, e));
      }
      Looking();
      RunsOrWaitsIs(s, cast, e, tick, extraDelay, Now(), i, State());
    }

    method ScheduleEffect(later: Scheduled)
      requires Valid() && CastOk(later.cast, |units|, chan) && EffectOk(later.effect)
      modifies `scheduled
      ensures Valid() && Continues(old(State()), State())
      ensures scheduled == old(scheduled) + [later]
    {
      hide UnitsOk, LogOk, IdsOk, GridOk, CountsOk, AurasOk, ChannelsOk, CastOk, EffectOk;
      scheduled := scheduled + [later];
      assert QueuesOk(State());
    }

    // A unit's StartOfCombat effects. They count as of tick 0, whenever the unit appears.
    method RunPassives(index: int)
      requires Valid() && IsUnit(index)
      modifies `units, `log, `hits, `casts, `scheduled, `pendingHooks, `dice, `summonsSpawned, `alive, `summonAlive, `castSerial, `chan, grid.blocked
      ensures Valid() && Continues(old(State()), State())
      ensures old(scheduled) <= scheduled
      ensures PassivesRun(old(State()), index, Now(), State())
      decreases MAX_SUMMONS_PER_FIGHT - summonsSpawned, 6
    {
      hide *;
      Looking();
      ghost var s := State();
      ghost var law := Now();
      ContinuesRefl(s);
      if HasStatus(units[index], Piloting) {
        PassivesWait(s, index, law);
        return;
      }
      PassivesAt(s, index);
      var passives := units[index].template.passives;
      var cast := CastRecord(index, -1, passives, false, 0, false, false);
      PassivesCast(cast, |units|, chan);
      TicksFit();
      ghost var step := (a: FightState, e: Effect, b: FightState) => Repeats(a, cast, e, 0, 0, law, b);
      NoSteps(s, passives, step);
      for k := 0 to |passives|
        invariant Valid() && Continues(s, State()) && s.scheduled <= scheduled
        invariant InOrder(s, passives[..k], step, State())
      {
        Looking();
        ContinuesCast(s, State(), cast);
        ContinuesSpawned(s, State());
        SpawnedBound(s);
        ghost var t := State();
        EffectAt(passives, k);
        RunOrSchedule(cast, passives[k], 0, 0);
        Looking();
        ContinuesTrans(s, t, State());
        OneStepMore(s, passives, k, step, t, State());
      }
      AllSteps(s, passives, step, State());
      PassivesRunIs(s, index, cast, law, State());
    }

    // ---- Summons -------------------------------------------------------------------------------

    // The free hex nearest `center`: ring by ring, row by row, at most three away.
    method FreeHexNear(center: HexCoord) returns (found: bool, where: HexCoord)
      requires grid.Valid() && grid.width == ARENA_COLUMNS && grid.height == ARENA_ROWS
      ensures found ==> NearestFree(grid.Model(), center, where)
      ensures !found ==> forall h | InArena(h) && 1 <= Distance(h, center) <= 3 :: grid.Model().IsBlocked(h)
    {
      hide Distance;
      where := center;
      for ring := 1 to 4
        invariant forall h | InArena(h) && 1 <= Distance(h, center) < ring :: grid.Model().IsBlocked(h)
      {
        for y := 0 to ARENA_ROWS
          invariant forall h | InArena(h) && Distance(h, center) == ring && h.y < y :: grid.Model().IsBlocked(h)
        {
          for x := 0 to ARENA_COLUMNS
            invariant forall h | InArena(h) && Distance(h, center) == ring && h.y == y && h.x < x :: grid.Model().IsBlocked(h)
          {
            var h := HexCoord(x, y);
            var blocked := grid.IsBlocked(h);
            if Distance(h, center) == ring && !blocked {
              return true, h;
            }
          }
        }
      }
      return false, where;
    }

    method SummonUnits(summoner: int, tick: int)
      requires Valid() && IsUnit(summoner) && 0 <= tick <= MAX_VALUE
      modifies `units, `log, `hits, `casts, `scheduled, `pendingHooks, `dice, `summonsSpawned, `alive, `summonAlive, `castSerial, `chan, grid.blocked
      ensures Valid() && Continues(old(State()), State())
      ensures old(scheduled) <= scheduled
      decreases MAX_SUMMONS_PER_FIGHT - summonsSpawned, 2
    {
      hide Inv, Continues;
      ghost var s := State();
      ContinuesRefl(s);
      var count: int := *;
      count := Clamp(count, 0, 8);
      for k := 0 to count
        invariant Valid() && Continues(s, State()) && s.scheduled <= scheduled
      {
        ContinuesAt(s, State(), summoner);
        ContinuesSpawned(s, State());
        SpawnedBound(s);
        if !units[summoner].alive {
          return;
        }
        var found, where := FreeHexNear(units[summoner].pos);
        if !found {
          return;
        }
        ghost var t := State();
        var index := SpawnSummon(units[summoner].team, where, summoner, tick);
        ContinuesTrans(s, t, State());
        if index < 0 {
          return;
        }
      }
    }

    // Copies of the caster team's strongest units, each next to its original.
    method CloneUnits(cast: CastRecord, e: Effect, count: int, tick: int)
      requires Valid() && IsUnit(cast.caster) && 0 <= tick <= MAX_VALUE
      modifies `units, `log, `hits, `casts, `scheduled, `pendingHooks, `dice, `summonsSpawned, `alive, `summonAlive, `castSerial, `chan, grid.blocked
      ensures Valid() && Continues(old(State()), State())
      ensures old(scheduled) <= scheduled
      decreases MAX_SUMMONS_PER_FIGHT - summonsSpawned, 2
    {
      hide Inv, Continues;
      ghost var s := State();
      ContinuesRefl(s);
      var caster := cast.caster;
      var team := units[caster].team;
      var ranked, _ := ResolveTargets(cast, e, tick);
      for k := 0 to |ranked|
        invariant Valid() && Continues(s, State()) && s.scheduled <= scheduled
      {
        if k < count {
          ContinuesAt(s, State(), ranked[k]);
          ContinuesAt(s, State(), caster);
          ContinuesSpawned(s, State());
          SpawnedBound(s);
          var found, where := FreeHexNear(units[ranked[k]].pos);
          if found {
            ghost var t := State();
            var _ := SpawnSummon(team, where, caster, tick);
            ContinuesTrans(s, t, State());
          }
        }
      }
    }

    // A summon appears on a free hex and runs its own passive. -1: the cap is reached.
    method SpawnSummon(team: int, where: HexCoord, summoner: int, tick: int) returns (index: int)
      requires Valid() && IsUnit(summoner) && units[summoner].team == team && InArena(where) && !grid.Model().IsBlocked(where) && 0 <= tick <= MAX_VALUE
      modifies `units, `log, `hits, `casts, `scheduled, `pendingHooks, `dice, `summonsSpawned, `alive, `summonAlive, `castSerial, `chan, grid.blocked
      ensures Valid() && Continues(old(State()), State())
      ensures old(scheduled) <= scheduled
      ensures index < 0 ==> State() == old(State())
      ensures index >= 0 ==>
                && index == |old(units)| < |units| && old(summonsSpawned) < MAX_SUMMONS_PER_FIGHT && |old(log)| < |log|
                && IsSummoning(log[|old(log)|], old(summonsSpawned) + 1, team, where, tick)
      decreases MAX_SUMMONS_PER_FIGHT - summonsSpawned, 1
    {
      hide *;
      Looking();
      ghost var s := State();
      ContinuesRefl(s);
      SpawnedBound(s);
      if summonsSpawned >= MAX_SUMMONS_PER_FIGHT {
        return -1;
      }
      var found, template, maxHp := SummonDefinition();
      if !found {
        return -1;
      }
      index := |units|;
      TeamAt(s, summoner);
      Appear(template, team, where, maxHp, tick);
      Looking();
      ghost var w := State();
      RunPassives(index);
      Looking();
      ContinuesTrans(s, w, State());
      ContinuesLog(w, State());
      ContinuesLength(w, State());
    }

    // It is there, perhaps with some mana.
    method Appear(template: Template, team: int, where: HexCoord, maxHp: int, tick: int)
      requires Valid() && summonsSpawned < MAX_SUMMONS_PER_FIGHT && 0 <= team <= 1 && TemplateOk(template) && maxHp >= 0
      requires InArena(where) && !grid.Model().IsBlocked(where)
      modifies `units, `log, `summonAlive, `summonsSpawned, grid.blocked
      ensures Valid() && Continues(old(State()), State()) && summonsSpawned == old(summonsSpawned) + 1
      ensures units == old(units) + [MakeUnit(SUMMON_UNIT_BASE + summonsSpawned, team, true, where, template, maxHp)]
      ensures |old(log)| < |log| && IsSummoning(log[|old(log)|], summonsSpawned, team, where, tick)
    {
      hide *;
      Looking();
      ghost var s := State();
      PlaceSummon(template, team, where, maxHp, tick);
      Looking();
      SummoningIs(log[|log| - 1], summonsSpawned, team, where, maxHp, tick);
      ghost var t := State();
      var mana: bool := *;
      if mana {
        EmitNote(units[|units| - 1].id, ManaChanged, tick);
        Looking();
        ContinuesTrans(s, t, State());
      }
    }

    // What the data says about the summon, if it says anything.
    method SummonDefinition() returns (found: bool, template: Template, maxHp: int)
      ensures found ==> TemplateOk(template) && maxHp >= 0
    {
      template := *;
      var hp: int := *;
      maxHp := if hp > 0 then Clamp32(hp) else template.maxHp;
      found := TemplateOk(template) && maxHp >= 0;
    }

    method PlaceSummon(template: Template, team: int, where: HexCoord, maxHp: int, tick: int)
      requires Valid() && summonsSpawned < MAX_SUMMONS_PER_FIGHT && 0 <= team <= 1 && TemplateOk(template) && maxHp >= 0
      requires InArena(where) && !grid.Model().IsBlocked(where)
      modifies `units, `log, `summonAlive, `summonsSpawned, grid.blocked
      ensures Valid() && Continues(old(State()), State()) && summonsSpawned == old(summonsSpawned) + 1
      ensures units == old(units) + [MakeUnit(SUMMON_UNIT_BASE + summonsSpawned, team, true, where, template, maxHp)]
      ensures log == old(log) + [Spawn(tick, SUMMON_UNIT_BASE + summonsSpawned, team, where, maxHp, maxHp, true)]
    {
      hide Inv, Continues, UnitOk, TemplateOk;
      ghost var s := State();
      var u := MakeUnit(SUMMON_UNIT_BASE + summonsSpawned + 1, team, true, where, template, maxHp);
      MakeUnitOk(u.id, team, true, where, template, maxHp, |units| + 1);
      var e := Spawn(tick, u.id, team, where, maxHp, maxHp, true);
      grid.SetBlocked(where, true);
      SpawnStep(s, u, grid.Model(), e);
      units := units + [u];
      log := log + [e];
      summonAlive := More(summonAlive, team);
      summonsSpawned := summonsSpawned + 1;
      assert State() == s.(units := units, members := MembersOf(units), grid := grid.Model(), log := log,
                           summonAlive := summonAlive, summonsSpawned := summonsSpawned);
      ContinuesSpawn(s, State(), u);
    }

    // ---- Forced moves --------------------------------------------------------------------------

    // An assassin dive: onto a free hex next to an enemy (ring 1, else ring 2), the one farthest
    // from where the unit stood. Stays put if nothing is free. Any cached route is dropped.
    method TeleportUnit(i: int, destination: Destination, castTarget: int, tick: int)
      requires Valid() && IsUnit(i)
      modifies `units, `log, grid.blocked
      ensures Valid() && Continues(old(State()), State())
      ensures Dives(old(State()), i, destination, castTarget, tick, State())
    {
      hide *;
      Looking();
      ghost var s := State();
      ContinuesRefl(s);
      GridIs();
      if !units[i].alive {
        StaysPut(s, i, destination, castTarget, tick);
        return;
      }
      var enemy := PickBest(DiveScores(units, i, destination, castTarget));
      BestIn(DiveScores(units, i, destination, castTarget), enemy);
      DiveScoresSize(units, i, destination, castTarget);
      if enemy < 0 {
        Stays(s, i, destination, castTarget, enemy, tick);
        return;
      }
      var found, best := LandingHex(units[enemy].pos, units[i].pos);
      if !found {
        Stays(s, i, destination, castTarget, enemy, tick);
        return;
      }
      LandingIsFree(grid.Model(), units[enemy].pos, units[i].pos, best);
      TeleportIsRelocation(units[i].id, units[i].pos, best, tick);
      Relocate(i, best, if DivesByDistance(destination) then -1 else enemy, Teleport(tick, units[i].id, units[i].pos, best, 0));
      Looking();
      DivedTo(s, i, destination, castTarget, enemy, best, tick, State());
    }

    method LandingHex(around: HexCoord, from: HexCoord) returns (found: bool, best: HexCoord)
      requires grid.Valid() && grid.width == ARENA_COLUMNS && grid.height == ARENA_ROWS
      ensures if found then BestLanding(grid.Model(), around, from, best) else NoSpot(grid.Model(), around, 1, 2)
    {
      hide Distance, Grid.IsBlocked, HexGrid.Model, BestOfRing;
      found, best := false, HexCoord(-1, -1);
      for ring := 1 to 3
        invariant !found && NoSpot(grid.Model(), around, 1, ring - 1)
      {
        found, best := RingHex(around, from, ring);
        if found {
          return;
        }
      }
    }

    // The free hex of a ring that is farthest from where the unit stood, the first of them row by row.
    method RingHex(around: HexCoord, from: HexCoord, ring: int) returns (found: bool, best: HexCoord)
      requires grid.Valid() && grid.width == ARENA_COLUMNS && grid.height == ARENA_ROWS
      ensures if found then BestOfRing(grid.Model(), around, from, ring, best) else NoSpot(grid.Model(), around, ring, ring)
    {
      hide Distance, Grid.IsBlocked, HexGrid.Model, SoFar, Beats, BestOfRing, NoSpot, FreeSpot;
      ghost var g := grid.Model();
      found, best := false, HexCoord(-1, -1);
      NothingSeen(g, around, from, ring, best);
      for y := 0 to ARENA_ROWS
        invariant SoFar(g, around, from, ring, y, 0, found, best)
      {
        for x := 0 to ARENA_COLUMNS
          invariant SoFar(g, around, from, ring, y, x, found, best)
        {
          var h := HexCoord(x, y);
          var blocked := grid.IsBlocked(h);
          var better := Distance(h, around) == ring && !blocked && (!found || Distance(h, from) > Distance(best, from));
          CellSeen(g, around, from, ring, y, x, found, best, better);
          if better {
            found, best := true, h;
          }
        }
        RowSeen(g, around, from, ring, y, found, best);
      }
      AllSeen(g, around, from, ring, found, best);
    }

    // Unit i leaves its hex for the free hex `to`; its cached route is stale.
    method Relocate(i: int, to: HexCoord, target: int, e: Event)
      requires Valid() && IsUnit(i) && units[i].alive && -1 <= target < |units|
      requires InArena(to) && !grid.Model().IsBlocked(to) && RelocateEvent(e, units[i].id, units[i].pos, to)
      modifies `units, `log, grid.blocked
      ensures Valid() && Continues(old(State()), State())
      ensures units == old(units)[i := old(units)[i].(pos := to, target := target, path := [], pathIndex := 0)]
      ensures log == old(log) + [e]
    {
      hide Inv, Continues, StatusesOk, ShieldsOk, DotsOk, TemplateOk;
      ghost var s := State();
      UnitAt(s, i);
      var u := units[i].(pos := to, target := target, path := [], pathIndex := 0);
      HopGrid(i, to);
      RelocateStep(s, i, u, grid.Model(), e);
      units := units[i := u];
      log := log + [e];
      assert State() == s.(units := units, grid := grid.Model(), log := log);
    }

    // The grid's side of a step.
    method HopGrid(i: int, to: HexCoord)
      requires Valid() && IsUnit(i) && units[i].alive && InArena(to) && !grid.Model().IsBlocked(to)
      modifies grid.blocked
      ensures Vacated(old(grid.Model()), grid.Model(), units[i].pos, to)
    {
      hide Inv;
      grid.SetBlocked(units[i].pos, false);
      grid.SetBlocked(to, true);
    }

    // Up to `hexes` hexes in a straight line, as far as they are free.
    method Slide(start: HexCoord, direction: nat, hexes: int) returns (cursor: HexCoord)
      requires grid.Valid() && grid.width == ARENA_COLUMNS && grid.height == ARENA_ROWS && direction < DIRECTIONS
      ensures cursor == Slid(grid.Model(), start, direction, hexes)
    {
      hide Grid.IsBlocked, HexGrid.Model, Neighbor;
      cursor := start;
      var step := 0;
      while step < hexes
        invariant step == 0 || step <= hexes
        invariant Slid(grid.Model(), start, direction, hexes) == Slid(grid.Model(), cursor, direction, hexes - step)
      {
        var next := Neighbor(cursor, direction);
        var blocked := grid.IsBlocked(next);
        if blocked {
          break;
        }
        cursor := next;
        step := step + 1;
      }
    }

    // A pull or a knock-back: up to `hexes` hexes in a straight line, stopping at the first hex that
    // is blocked or off the board.
    method DisplaceUnit(caster: int, i: int, sense: PushSense, centre: HexCoord, hexes: int, tick: int)
      requires Valid() && IsUnit(i) && IsUnit(caster)
      modifies `units, `log, grid.blocked
      ensures Valid() && Continues(old(State()), State())
      ensures IsPushed(old(State()), caster, i, sense, centre, hexes, tick, State())
    {
      hide *;
      Looking();
      ghost var s := State();
      ContinuesRefl(s);
      GridIs();
      if !units[i].alive || i == caster || (sense == TowardAreaCenter && units[i].pos == centre) {
        NotPushed(s, caster, i, sense, centre, hexes, tick);
        return;
      }
      var start := units[i].pos;
      PushDirectionIs(sense, start, units[caster].pos, centre);
      var direction := if sense == TowardCaster then DirectionToward(start, units[caster].pos)
                       else if sense == TowardAreaCenter then DirectionToward(start, centre)
                       else DirectionToward(units[caster].pos, start);
      var cursor := Slide(start, direction, hexes);
      PushedIs(grid.Model(), start, sense, units[caster].pos, centre, hexes);
      if cursor == start {
        NotPushed(s, caster, i, sense, centre, hexes, tick);
        return;
      }
      TargetAt(State(), i);
      SlidIsFree(grid.Model(), start, direction, hexes);
      TeleportIsRelocation(units[i].id, start, cursor, tick);
      Relocate(i, cursor, units[i].target, Teleport(tick, units[i].id, start, cursor, 1));
      Looking();
      PushedTo(s, caster, i, sense, centre, hexes, tick, State());
    }

    lemma GridIs()
      requires Ready()
      ensures ArenaGrid(grid.Model()) && grid.Valid() && grid.width == ARENA_COLUMNS && grid.height == ARENA_ROWS
    {
    }

    // ---- 1. Expire -----------------------------------------------------------------------------

    // Everything whose time is up ends.
    method ExpireEffects(tick: int)
      requires Valid() && tick < FOREVER
      modifies `units, `log
      ensures Valid() && Continues(old(State()), State()) && |units| == |old(units)|
      ensures forall i | 0 <= i < |units| :: Expired(old(units)[i], units[i], tick)
    {
      hide Inv, Continues, Expired;
      ghost var s := State();
      ContinuesRefl(s);
      for i := 0 to |units|
        invariant Valid() && Continues(s, State()) && |units| == |s.units|
        invariant forall x | 0 <= x < i :: Expired(s.units[x], units[x], tick)
        invariant forall x | i <= x < |units| :: units[x] == s.units[x]
      {
        ghost var t := State();
        ExpireUnit(i, tick);
        ContinuesTrans(s, t, State());
      }
    }

    method ExpireUnit(i: nat, tick: int)
      requires Valid() && i < |units| && tick < FOREVER
      modifies `units, `log
      ensures Valid() && Continues(old(State()), State())
      ensures units == old(units)[i := units[i]] && Expired(old(units)[i], units[i], tick)
    {
      hide Inv, Continues;
      ghost var s := State();
      ContinuesRefl(s);
      if !units[i].alive {
        return;
      }
      ExpireShields(i, tick);
      ghost var t := State();
      ExpireStatuses(i, tick, false);
      ContinuesTrans(s, t, State());
      t := State();
      ExpireStatuses(i, tick, true);   // removing one can clip HP: these go last
      ContinuesTrans(s, t, State());
    }

    method ExpireShields(i: nat, tick: int)
      requires Valid() && i < |units| && units[i].alive
      modifies `units, `log
      ensures Valid() && Continues(old(State()), State())
      ensures units == old(units)[i := old(units)[i].(shields := LiveShields(old(units)[i].shields, tick))]
    {
      hide Inv, Continues, LiveShields, Fight.Valid, Fight.State;
      Looking();
      ghost var s := State();
      ContinuesRefl(s);
      ghost var u := units[i];
      var k := 0;
      while k < |units[i].shields|
        invariant Valid() && Continues(s, State())
        invariant |units| == |s.units| && units == s.units[i := u.(shields := units[i].shields)]
        invariant 0 <= k <= |units[i].shields| && LiveShields(units[i].shields, tick) == LiveShields(u.shields, tick)
        invariant forall m | 0 <= m < k :: units[i].shields[m].expires > tick
        decreases |units[i].shields| - k
      {
        if units[i].shields[k].expires <= tick {
          ghost var t := State();
          LiveShieldsErase(units[i].shields, k, tick);
          EraseShield(i, k, tick);
          Looking();
          ContinuesTrans(s, t, State());
        } else {
          k := k + 1;
        }
      }
      LiveShieldsAll(units[i].shields, tick);
    }

    // The event carries the capacity that was never used.
    method EraseShield(i: nat, k: nat, tick: int)
      requires Valid() && i < |units| && units[i].alive && k < |units[i].shields|
      modifies `units, `log
      ensures Valid() && Continues(old(State()), State())
      ensures units == old(units)[i := old(units)[i].(shields := old(units)[i].shields[..k] + old(units)[i].shields[k + 1..])]
    {
      hide Inv, StatusesSafe, RouteOk, StatusesOk, DotsOk, TemplateOk;
      var u := units[i];
      UnitAt(State(), i);
      StatusesUnchanged(u.statuses);
      ShieldTotalErase(u.shields, k);
      ShieldTotalNonNegative(u.shields[..k] + u.shields[k + 1..]);
      Commit(i, u.(shields := u.shields[..k] + u.shields[k + 1..]), ShieldEnded(tick, u.id, u.shields[k].amount));
    }

    method ExpireStatuses(i: nat, tick: int, maxHpToo: bool)
      requires Valid() && i < |units| && units[i].alive && tick < FOREVER
      requires maxHpToo ==> forall m | 0 <= m < |units[i].statuses| && units[i].statuses[m].expires <= tick :: AffectsMaxHp(units[i].statuses[m].kind)
      modifies `units, `log
      ensures Valid() && Continues(old(State()), State())
      ensures units == old(units)[i := units[i]] && OnlyAffliction(old(units)[i], units[i])
      ensures LiveStatuses(units[i].statuses, tick) == LiveStatuses(old(units)[i].statuses, tick)
      ensures forall m | 0 <= m < |units[i].statuses| && units[i].statuses[m].expires <= tick :: !maxHpToo && AffectsMaxHp(units[i].statuses[m].kind)
      ensures maxHpToo ==> units[i].statuses == LiveStatuses(old(units)[i].statuses, tick)
    {
      hide *;
      Looking();
      ghost var s := State();
      ContinuesRefl(s);
      ghost var u := units[i];
      OnlyAfflictionRefl(u);
      NothingChecked(u.statuses, tick, maxHpToo);
      var k := 0;
      while k < |units[i].statuses|
        invariant Valid() && Continues(s, State())
        invariant |units| == |s.units| && units == s.units[i := units[i]] && OnlyAffliction(u, units[i])
        invariant units[i].alive && 0 <= k <= |units[i].statuses| && LiveStatuses(units[i].statuses, tick) == LiveStatuses(u.statuses, tick)
        invariant Checked(units[i].statuses, k, tick, maxHpToo)
        decreases |units[i].statuses| - k
      {
        Looking();
        var st := units[i].statuses[k];
        if st.expires <= tick && (maxHpToo || !AffectsMaxHp(st.kind)) {
          ghost var t := State();
          LiveStatusesErase(units[i].statuses, k, tick);
          CheckedErase(units[i].statuses, k, tick, maxHpToo);
          Untagged(t, i, k);
          EraseStatus(i, k, tick);
          Looking();
          ContinuesTrans(s, t, State());
          ContinuesAt(t, State(), i);
          OnlyAfflictionTrans(u, t.units[i], units[i]);
        } else {
          CheckedNext(units[i].statuses, k, tick, maxHpToo);
          k := k + 1;
        }
      }
      AllChecked(units[i].statuses, tick, maxHpToo);
      if maxHpToo {
        LiveStatusesAll(units[i].statuses, tick);
      }
    }

    // One status ends; the event carries the unit's HP as it is afterwards.
    method EraseStatus(i: nat, k: nat, tick: int)
      requires Valid() && i < |units| && units[i].alive && k < |units[i].statuses|
      requires units[i].statuses[k].aura == 0
      modifies `units, `log
      ensures Valid() && Continues(old(State()), State())
      ensures units == old(units)[i := Lost(old(units)[i], k)]
      ensures |units| == |old(units)| && OnlyAffliction(old(units)[i], units[i])
      ensures units[i].statuses == old(units)[i].statuses[..k] + old(units)[i].statuses[k + 1..]
      ensures log == old(log) + [StatusEnded(tick, old(units)[i].id, old(units)[i].statuses[k].kind, units[i].hp)]
    {
      hide Inv, StatusesSafe, UnitOk, SameFrame, Lost, OnlyAffliction;
      var u := units[i];
      UnitAt(State(), i);
      LostKeeps(u, k, |units|);
      var v := Lost(u, k);
      assert v.hp >= 0 by {
        HpInRange(v, |units|);
      }
      SameFrameParts(u, v);
      LostParts(u, k);
      Commit(i, v, StatusEnded(tick, u.id, u.statuses[k].kind, v.hp));
    }

    // ---- 2. Auras ------------------------------------------------------------------------------

    // Recomputes who stands inside each aura, aura by aura.
    method UpdateAuras(tick: int)
      requires Valid()
      modifies `units, `log
      ensures Valid() && Continues(old(State()), State()) && SamePlaces(old(units), units)
      ensures forall h, b | 0 <= h < |units| && 0 <= b < |old(units)[h].template.auras| :: Settled(units, h, b)
    {
      hide Inv, Continues, SamePlaces, Settled;
      ghost var s := State();
      ContinuesRefl(s);
      SamePlacesRefl(units);
      for i := 0 to |units|
        invariant Valid() && Continues(s, State()) && SamePlaces(s.units, units) && |units| == |s.units|
        invariant forall h, b | 0 <= h < i && 0 <= b < |s.units[h].template.auras| :: Settled(units, h, b)
      {
        ghost var t := State();
        ContinuesAt(s, t, i);
        UpdateHolder(i, tick);
        ContinuesTrans(s, t, State());
        SamePlacesTrans(s.units, t.units, units);
      }
    }

    method UpdateHolder(i: nat, tick: int)
      requires Valid() && i < |units|
      modifies `units, `log
      ensures Valid() && Continues(old(State()), State()) && SamePlaces(old(units), units) && |units| == |old(units)|
      ensures forall b | 0 <= b < |old(units)[i].template.auras| :: Settled(units, i, b)
      ensures forall h: nat, b: nat | h != i && Settled(old(units), h, b) :: Settled(units, h, b)
    {
      hide Inv, Continues, SamePlaces, Settled;
      ghost var s := State();
      ContinuesRefl(s);
      SamePlacesRefl(units);
      for a := 0 to |units[i].template.auras|
        invariant Valid() && Continues(s, State()) && SamePlaces(s.units, units) && |units| == |s.units|
        invariant units[i].template == s.units[i].template
        invariant forall b | 0 <= b < a :: Settled(units, i, b)
        invariant forall h: nat, b: nat | h != i && Settled(s.units, h, b) :: Settled(units, h, b)
      {
        ghost var t := State();
        UpdateAura(i, a, tick);
        ContinuesAt(t, State(), i);
        ContinuesTrans(s, t, State());
        SamePlacesTrans(s.units, t.units, units);
        forall h: nat, b: nat | Settled(t.units, h, b) && (h != i || b != a)
          ensures Settled(units, h, b)
        {
          SettledStays(t.units, units, i, a, h, b);
        }
      }
    }

    // The living units aura (i, a) takes in as things stand, in unit order.
    method InsideAura(i: nat, a: nat) returns (now: seq<int>)
      requires i < |units| && a < |units[i].template.auras|
      ensures forall j :: j in now <==> 0 <= j < |units| && InAura(units, i, a, j)
      ensures forall x, y | 0 <= x < y < |now| :: now[x] < now[y]
    {
      hide InAura;
      now := [];
      for j := 0 to |units|
        invariant forall x :: x in now <==> 0 <= x < j && InAura(units, i, a, x)
        invariant forall x, y | 0 <= x < y < |now| :: now[x] < now[y]
      {
        if InAura(units, i, a, j) {
          assert forall x | 0 <= x < |now| :: now[x] in now;
          now := now + [j];
        }
      }
    }

    // Units that came in gain the status, units that left -- or whose holder died -- lose it.
    method UpdateAura(i: nat, a: nat, tick: int)
      requires Valid() && i < |units| && a < |units[i].template.auras|
      modifies `units, `log
      ensures Valid() && Continues(old(State()), State()) && SamePlaces(old(units), units)
      ensures Settled(units, i, a) && ListsExcept(old(units), units, i, a)
      ensures forall j :: j in units[i].auraMembers[a] <==> 0 <= j < |units| && InAura(old(units), i, a, j)
    {
      hide Inv, Continues, SamePlaces, InAura, Settled, Between, Updating;
      ghost var s := State();
      ListsAt(s, i);
      var now := InsideAura(i, a);
      var before := units[i].auraMembers[a];
      InsideLiving(units, i, a, now);
      UpdatingStart(s, i, a);
      BetweenStart(units, AuraKey(i, a), before, now);
      ghost var ms := LetGo(i, a, before, now, tick, s);
      ms := TakeIn(i, a, before, now, tick, s, ms);
      ghost var t := State();
      UpdatingParts(s, t, ms, i, a);
      Relist(i, a, before, now, ms, s);
      ContinuesTrans(s, t, State());
      SamePlacesTrans(s.units, t.units, units);
      SettledNow(s.units, units, i, a);
    }

    // Everyone on the old list who is not on the new one lets go of the aura's status.
    method LetGo(i: nat, a: nat, before: seq<int>, now: seq<int>, tick: int, ghost s: FightState) returns (ghost ms: seq<seq<seq<int>>>)
      requires Ready() && Shaped(s, State(), s.members, i, a) && Updating(s, State(), s.members, i, a) && before == s.members[i][a]
      requires Between(units, s.members[i][a], AuraKey(i, a), before, now, 0, 0) && forall x | x in before :: 0 <= x < |s.units|
      modifies `units, `log
      ensures Ready() && Shaped(s, State(), ms, i, a) && Updating(s, State(), ms, i, a)
      ensures Between(units, ms[i][a], AuraKey(i, a), before, now, |before|, 0)
    {
      hide Inv, Continues, Between, Updating;
      ms := s.members;
      for k := 0 to |before|
        invariant Ready() && Shaped(s, State(), ms, i, a) && Updating(s, State(), ms, i, a)
        invariant Between(units, ms[i][a], AuraKey(i, a), before, now, k, 0)
      {
        UpdatingShape(s, State(), ms, i, a);
        assert before[k] in before;
        if before[k] !in now {
          ghost var was, list := units, ms[i][a];
          ms := LetOneGo(i, a, before[k], tick, s, ms);
          UpdatingShape(s, State(), ms, i, a);
          BetweenGone(was, units, list, ms[i][a], AuraKey(i, a), before, now, k);
        } else {
          BetweenStays(units, ms[i][a], AuraKey(i, a), before, now, k);
        }
      }
    }

    method LetOneGo(i: nat, a: nat, j: int, tick: int, ghost s: FightState, ghost ms: seq<seq<seq<int>>>) returns (ghost ms': seq<seq<seq<int>>>)
      requires Ready() && Shaped(s, State(), ms, i, a) && Updating(s, State(), ms, i, a) && 0 <= j < |units|
      modifies `units, `log
      ensures Ready() && Shaped(s, State(), ms', i, a) && Updating(s, State(), ms', i, a)
      ensures |units| == |old(units)| && units == old(units)[j := units[j]] && NoTag(units, j, AuraKey(i, a))
      ensures forall x | x in ms'[i][a] :: x in ms[i][a]
      ensures forall x | x in ms[i][a] && x != j :: x in ms'[i][a]
    {
      hide Inv, StatusesSafe, UnitOk, SameFrame, Lost, Continues, Updating, SameSide, IsLocal, LegalLocal, ApplyLocal, AsView;
      UpdatingShape(s, State(), ms, i, a);
      ghost var t := State().(members := ms);
      ms' := ms;
      var u := units[j];
      UnitAt(t, j);
      if !u.alive {
        DeadHaveNone(units, j, AuraKey(i, a));
        return;
      }
      var k := FirstTagged(u.statuses, AuraKey(i, a), 0);
      if k == |u.statuses| {
        return;
      }
      var v := Lost(u, k);
      var e := StatusEnded(tick, u.id, u.statuses[k].kind, v.hp);
      LostOk(u, k, |units|);
      LostEvent(u, k, e, |units|);
      LostIsUntagged(u, k, |units|);
      ghost var list := Minus(ms[i][a], j);
      LeaveStep(t, i, a, j, k, v, e, list);
      ms' := WithList(ms, i, a, list);
      FrameStands(units[j], v);
      UpdatingStep(s, State(), ms, i, a, j, v, e, list);
      units := units[j := v];
      log := log + [e];
      assert State() == t.(units := units, log := log, members := MembersOf(units));
    }

    // Everyone on the new list who was not on the old one gains the aura's status.
    method TakeIn(i: nat, a: nat, before: seq<int>, now: seq<int>, tick: int, ghost s: FightState, ghost ms0: seq<seq<seq<int>>>)
      returns (ghost ms: seq<seq<seq<int>>>)
      requires Ready() && Shaped(s, State(), ms0, i, a) && Updating(s, State(), ms0, i, a)
      requires Between(units, ms0[i][a], AuraKey(i, a), before, now, |before|, 0)
      requires forall x | x in now :: 0 <= x < |s.units| && s.units[x].alive
      requires forall x, y | 0 <= x < y < |now| :: now[x] < now[y]
      modifies `units, `log
      ensures Ready() && Shaped(s, State(), ms, i, a) && Updating(s, State(), ms, i, a)
      ensures Between(units, ms[i][a], AuraKey(i, a), before, now, |before|, |now|)
    {
      hide Inv, Continues, Between, Updating;
      ms := ms0;
      for k := 0 to |now|
        invariant Ready() && Shaped(s, State(), ms, i, a) && Updating(s, State(), ms, i, a)
        invariant Between(units, ms[i][a], AuraKey(i, a), before, now, |before|, k)
      {
        UpdatingShape(s, State(), ms, i, a);
        assert now[k] in now;
        if now[k] !in before {
          ghost var was, list := units, ms[i][a];
          BetweenOutside(units, ms[i][a], AuraKey(i, a), before, now, k);
          UpdatingAlive(s, State(), ms, i, a, now[k]);
          ms := TakeOneIn(i, a, now[k], tick, s, ms);
          UpdatingShape(s, State(), ms, i, a);
          BetweenCome(was, units, list, ms[i][a], AuraKey(i, a), before, now, k);
        } else {
          BetweenKept(units, ms[i][a], AuraKey(i, a), before, now, k);
        }
      }
    }

    method TakeOneIn(i: nat, a: nat, j: int, tick: int, ghost s: FightState, ghost ms: seq<seq<seq<int>>>) returns (ghost ms': seq<seq<seq<int>>>)
      requires Ready() && Shaped(s, State(), ms, i, a) && Updating(s, State(), ms, i, a) && 0 <= j < |units| && units[j].alive && j !in ms[i][a]
      modifies `units, `log
      ensures Ready() && Shaped(s, State(), ms', i, a) && Updating(s, State(), ms', i, a)
      ensures |units| == |old(units)| && units == old(units)[j := units[j]]
      ensures ms'[i][a] == ms[i][a] + [j]
    {
      hide Inv, StatusesSafe, UnitOk, SameStand, Continues, Updating, SameSide, IsLocal, LegalLocal, ApplyLocal, AsView, Gained;
      UpdatingShape(s, State(), ms, i, a);
      ghost var t := State().(members := ms);
      var u := units[j];
      UnitAt(t, j);
      AuraAt(t, i, a);
      var aura := units[i].template.auras[a];
      var st := Status(aura.status, aura.amount, FOREVER, i, AuraKey(i, a));
      var v := Gained(u, st);
      var e := StatusApplied(tick, u.id, aura.status, v.hp);
      OutsiderUntagged(t, i, a, j);
      GainedOk(u, st, e, |units|);
      ghost var list := ms[i][a] + [j];
      EnterStep(t, i, a, j, st, v, e, list);
      ms' := WithList(ms, i, a, list);
      UpdatingStep(s, State(), ms, i, a, j, v, e, list);
      units := units[j := v];
      log := log + [e];
      assert State() == t.(units := units, log := log, members := MembersOf(units));
    }

    // The new list is stored; the field and the (ghost) lists agree again.
    method Relist(i: nat, a: nat, before: seq<int>, now: seq<int>, ghost ms: seq<seq<seq<int>>>, ghost s: FightState)
      requires Ready() && Shaped(s, State(), ms, i, a) && Updating(s, State(), ms, i, a) && s.members == MembersOf(s.units)
      requires Between(units, ms[i][a], AuraKey(i, a), before, now, |before|, |now|)
      modifies `units
      ensures Valid() && Continues(old(State()), State()) && SamePlaces(old(units), units) && ListsExcept(s.units, units, i, a)
      ensures i < |units| && a < |units[i].auraMembers| && units[i].auraMembers[a] == now
    {
      hide Inv, Between, Updating;
      ghost var t := State();
      UpdatingShape(s, t, ms, i, a);
      BetweenDone(units, ms[i][a], AuraKey(i, a), before, now);
      ListStep(t.(members := ms), i, a, now);
      UpdatingLists(s, t, ms, i, a, now);
      var u := units[i].(auraMembers := units[i].auraMembers[a := now]);
      RelistStep(t, i, u, WithList(ms, i, a, now));
      units := units[i := u];
      assert State() == t.(units := units, members := WithList(ms, i, a, now));
    }

    // ---- 3. Act --------------------------------------------------------------------------------

    // The closest enemy this unit may pick by itself (optionally: in its range); ties go to the
    // lowest id. -1 if there is none.
    method ClosestEnemy(i: nat, inRange: bool) returns (best: int)
      requires i < |units|
      ensures Closest(units, i, inRange, best)
    {
      hide Distance, Candidate;
      best := -1;
      for j := 0 to |units|
        invariant best == -1 || (0 <= best < j && Candidate(units, i, best, inRange))
        invariant forall k | 0 <= k < j && Candidate(units, i, k, inRange) ::
                    best >= 0 && (Distance(units[i].pos, units[best].pos) < Distance(units[i].pos, units[k].pos)
                                  || (Distance(units[i].pos, units[best].pos) == Distance(units[i].pos, units[k].pos) && best <= k))
      {
        if Candidate(units, i, j, inRange) && (best < 0 || Distance(units[i].pos, units[j].pos) < Distance(units[i].pos, units[best].pos)) {
          best := j;
        }
      }
    }

    // A new target makes the cached route stale.
    method SetTarget(i: nat, target: int)
      requires Valid() && i < |units| && -1 <= target < |units|
      modifies `units
      ensures Valid() && Continues(old(State()), State())
      ensures units == old(units)[i := old(units)[i].(target := target, path := [], pathIndex := 0)]
    {
      hide Inv, StatusesSafe, StatusesOk, ShieldsOk, DotsOk, TemplateOk;
      UnitAt(State(), i);
      StatusesUnchanged(units[i].statuses);
      Tweak(i, units[i].(target := target, path := [], pathIndex := 0));
    }

    // One unit's turn: pick a target, then cast, attack, or take one step toward it. Whatever it does,
    // nobody is hurt before the tick is resolved, and nobody else moves.
    method Act(i: nat, tick: int)
      requires OnTime(tick) && Valid() && i < |units| && units[i].alive && 0 <= tick <= MAX_VALUE
      modifies `units, `log, `hits, `casts, `pendingHooks, `castSerial, `chan, grid.blocked, pathfinder, pathfinder.visitedStamp, pathfinder.parent
      ensures Valid() && Continues(old(State()), State())
      ensures TakesTurn(config, old(State()), i, tick, Now(), State())
      ensures IsDisabled(old(units)[i]) || tick < old(units)[i].lockedUntil ==> State() == old(State())
      ensures ActsAlone(old(units), units, i) && |units| == |old(units)|
      ensures var u := old(units)[i];
              units[i].pos == u.pos ||
              (!HasStatus(u, Root) && tick >= u.nextMoveTick && Adjacent(u.pos, units[i].pos) && log == old(log) + [Move(tick, u.id, u.pos, units[i].pos)])
    {
      hide *;
      Looking();
      ghost var s := State();
      ContinuesRefl(s);
      AloneNow(units, i);
      if IsDisabled(units[i]) || tick < units[i].lockedUntil {
        TurnPasses(config, s, i, tick, Now());
        return;
      }
      var ready := Retarget(i);
      Looking();
      AloneOne(s.units, i, units[i], -1);
      RetargetsIs(s, i, State());
      AloneTwice(s.units, s.units, units, i);
      SameStatuses(s.units[i], units[i], Root);
      ghost var t := State();
      ContinuesRefl(t);
      AloneNow(units, i);
      if ready {
        GoOn(i, tick);
      } else {
        GoesOnIs(config, t, i, tick, Now(), t);
      }
      Looking();
      TurnIsTaken(config, s, i, tick, Now(), t, State());
      ContinuesTrans(s, t, State());
      AloneAnyway(t.units, units, i);
      AloneTwice(s.units, t.units, units, i);
    }

    // The target is known: cast, attack, or take one step toward it.
    method GoOn(i: nat, tick: int)
      requires OnTime(tick) && Valid() && i < |units| && units[i].alive && 0 <= units[i].target < |units| && 0 <= tick <= MAX_VALUE
      modifies `units, `log, `hits, `casts, `pendingHooks, `castSerial, `chan, grid.blocked, pathfinder, pathfinder.visitedStamp, pathfinder.parent
      ensures Valid() && Continues(old(State()), State())
      ensures GoesOn(config, old(State()), i, tick, Now(), State())
      ensures ActsAlone(old(units), units, i) && |units| == |old(units)|
      ensures var u := old(units)[i];
              units[i].pos == u.pos ||
              (!HasStatus(u, Root) && tick >= u.nextMoveTick && Adjacent(u.pos, units[i].pos) && log == old(log) + [Move(tick, u.id, u.pos, units[i].pos)])
    {
      hide *;
      Looking();
      ghost var s := State();
      ContinuesRefl(s);
      AloneNow(units, i);
      AloneNow(units, -1);
      StationaryIs(units[i]);
      var stationary := units[i].template.stationary && !HasStatus(units[i], Awakened);
      if Distance(units[i].pos, units[units[i].target].pos) <= units[i].template.range || (stationary && units[i].template.ability.Ability?) {
        Engage(i, stationary, tick);
        AloneAt(s.units, units, i);
        AloneAnyway(s.units, units, i);
      } else if !stationary && !HasStatus(units[i], Root) && tick >= units[i].nextMoveTick {
        Approach(i, units[units[i].target].pos, tick);
      }
      Looking();
      GoesOnIs(config, s, i, tick, Now(), State());
    }

    // Only re-evaluated when the target can have changed. False: there is nobody to fight.
    method Retarget(i: nat) returns (ready: bool)
      requires Valid() && i < |units| && units[i].alive
      modifies `units
      ensures Valid() && Continues(old(State()), State()) && |units| == |old(units)|
      ensures IsTarget(old(units), i, units[i].target) && (ready <==> units[i].target >= 0) && -1 <= units[i].target < |units|
      ensures var u := old(units)[i];
              units == if Usable(old(units), u.target) && units[i].target == u.target then old(units)
                       else old(units)[i := u.(target := units[i].target, path := [], pathIndex := 0)]
    {
      hide Inv, Continues, Candidate, Distance, UnitOk, CanAutoTarget, Fight.Valid, Fight.State;
      Looking();
      ContinuesRefl(State());
      TargetAt(State(), i);
      var target := units[i].target;
      if !(target >= 0 && units[target].alive && CanAutoTarget(units[target])) {
        var closest := ClosestEnemy(i, false);
        SetTarget(i, closest);
        return closest >= 0;
      }
      if Distance(units[i].pos, units[target].pos) > units[i].template.range {
        var nearby := ClosestEnemy(i, true);
        InRangeIs(units, i, target);
        if nearby >= 0 && nearby != target {
          SetTarget(i, nearby);
        }
      }
      return true;
    }

    // A full mana bar pre-empts the next attack.
    method Engage(i: nat, stationary: bool, tick: int)
      requires Valid() && i < |units| && units[i].alive && 0 <= units[i].target < |units| && 0 <= tick <= MAX_VALUE
      modifies `units, `log, `casts, `pendingHooks, `hits, `castSerial, `chan
      ensures Valid() && Continues(old(State()), State())
      ensures ActsAlone(old(units), units, -1) && |units| == |old(units)|
      ensures Engages(config, old(State()), i, stationary, tick, Now(), State())
    {
      hide *;
      Looking();
      ghost var s := State();
      ghost var law := Now();
      ContinuesRefl(s);
      AloneNow(units, -1);
      SceneIs(tick);
      CastsFirstIs(s, i, tick, law);
      if units[i].template.ability.Ability? && config.numbers.castsFirst(Scene(units, log, dice, tick), i) {
        DeclareCast(i, units[i].target, tick, false);
        Looking();
        LockedIsAlone(s.units, i, tick, castSerial, false);
        ContinuesAt(s, State(), i);
        SameCaster(s.units[i], units[i]);
        if units[i].template.ability.castLockTicks > 0 {
          EngagesIs(config, s, i, stationary, tick, law, State(), State());
          return;
        }
      }
      ghost var w := State();
      AttackIfDue(i, stationary, tick);
      Looking();
      ContinuesTrans(s, w, State());
      AloneTwice(s.units, w.units, units, -1);
      EngagesIs(config, s, i, stationary, tick, law, w, State());
    }

    method AttackIfDue(i: nat, stationary: bool, tick: int)
      requires Valid() && i < |units| && units[i].alive && 0 <= units[i].target < |units| && 0 <= tick <= MAX_VALUE
      modifies `units, `log, `casts, `pendingHooks, `hits, `castSerial, `chan
      ensures Valid() && Continues(old(State()), State())
      ensures ActsAlone(old(units), units, -1) && |units| == |old(units)|
      ensures AttacksIfDue(config, old(State()), i, stationary, tick, Now(), State())
    {
      hide *;
      Looking();
      ghost var s := State();
      ContinuesRefl(s);
      AloneNow(units, -1);
      if !stationary && tick >= units[i].nextAttackTick && !HasStatus(units[i], Blind) {
        DeclareAttack(i, tick);
        Looking();
      }
      AttacksIfDueIs(config, s, i, stationary, tick, Now(), State());
    }

    // One hex along the route, if there is one.
    method Approach(i: nat, goal: HexCoord, tick: int)
      requires OnTime(tick) && Valid() && i < |units| && units[i].alive && Distance(units[i].pos, goal) > units[i].template.range
      modifies `units, `log, grid.blocked, pathfinder, pathfinder.visitedStamp, pathfinder.parent
      ensures Valid() && Continues(old(State()), State())
      ensures ActsAlone(old(units), units, i) && |units| == |old(units)|
      ensures var u := old(units)[i];
              units[i].pos == u.pos || (Adjacent(u.pos, units[i].pos) && log == old(log) + [Move(tick, u.id, u.pos, units[i].pos)])
      ensures units[i].pos == old(units)[i].pos && tick >= old(units)[i].nextPathTick ==>
                NoWay(grid.Model(), units[i].pos, goal, units[i].template.range)
      ensures Approaches(config, old(State()), i, goal, tick, State())
    {
      hide *;
      Looking();
      ghost var s := State();
      var found := EnsurePath(i, goal, tick);
      Looking();
      AloneOne(s.units, i, units[i], i);
      AloneOne(s.units, i, units[i], -1);
      if found {
        ghost var t := State();
        StepAhead(i, tick);
        Looking();
        NeverInPlace(s.units[i].pos, units[i].pos);
        ContinuesTrans(s, t, State());
        AloneTwice(s.units, t.units, units, i);
        ApproachesIs(config, s, i, goal, tick, found, t, State());
      } else {
        ApproachesIs(config, s, i, goal, tick, found, State(), State());
      }
    }

    // True if the next hex of the cached route is a free step. Searches only when the cached route
    // is unusable; a search that finds nothing means there is no way at all.
    method EnsurePath(i: nat, goal: HexCoord, tick: int) returns (found: bool)
      requires Valid() && i < |units| && units[i].alive && Distance(units[i].pos, goal) > units[i].template.range
      modifies `units, pathfinder, pathfinder.visitedStamp, pathfinder.parent
      ensures Valid() && Continues(old(State()), State()) && |units| == |old(units)| && units[i].alive
      ensures units == old(units)[i := old(units)[i].(path := units[i].path, pathIndex := units[i].pathIndex, pathGoal := units[i].pathGoal,
                                                      nextPathTick := units[i].nextPathTick)]
      ensures found ==> 0 <= units[i].pathIndex < |units[i].path| && !grid.Model().IsBlocked(units[i].path[units[i].pathIndex])
      ensures !found && tick >= old(units)[i].nextPathTick ==> NoWay(grid.Model(), units[i].pos, goal, units[i].template.range)
      ensures FindsWay(config, old(State()), i, goal, tick, found, State())
    {
      hide *;
      Looking();
      GridIs();
      ghost var s := State();
      ContinuesRefl(s);
      RouteAt(s, i);
      var u := units[i];
      CachedIs(s.grid, u, goal);
      if u.pathIndex < |u.path| && u.pathGoal == goal {
        var blocked := grid.IsBlocked(u.path[u.pathIndex]);
        if !blocked {
          FindsWayIs(config, s, i, goal, tick, true, s);
          return true;
        }
      }
      if tick < u.nextPathTick {
        FindsWayIs(config, s, i, goal, tick, false, s);
        return false;
      }
      found := Reroute(i, goal, tick);
      Looking();
      NoWayStays(s, State(), i, goal, found);
      FindsWayIs(config, s, i, goal, tick, found, State());
    }

    method Reroute(i: nat, goal: HexCoord, tick: int) returns (found: bool)
      requires Valid() && i < |units| && units[i].alive && Distance(units[i].pos, goal) > units[i].template.range
      modifies `units, pathfinder, pathfinder.visitedStamp, pathfinder.parent
      ensures Valid() && Continues(old(State()), State())
      ensures |units| == |old(units)|
      ensures units == old(units)[i := old(units)[i].(path := units[i].path, pathIndex := 0, pathGoal := goal,
                                                      nextPathTick := if found then old(units)[i].nextPathTick else tick + config.repathBackoffTicks)]
      ensures found ==> units[i].path != [] && !grid.Model().IsBlocked(units[i].path[0])
      ensures ShortestWay(grid.Model(), units[i].pos, goal, units[i].template.range, found, units[i].path)
    {
      hide Inv, StatusesSafe, StatusesOk, ShieldsOk, DotsOk, TemplateOk, Distance, IsPath, RouteOk, NoWay, ShortestWay, EndOf;
      ghost var s := State();
      var u := units[i];
      var path;
      found, path := pathfinder.FindPathToRange(grid, u.pos, goal, u.template.range);
      assert State() == s;
      UnitAt(s, i);
      StatusesUnchanged(u.statuses);
      RouteFound(grid.Model(), u.pos, goal, u.template.range, found, path);
      ShortestWayIs(grid.Model(), u.pos, goal, u.template.range, found, path);
      Tweak(i, u.(path := path, pathIndex := 0, pathGoal := goal, nextPathTick := if found then u.nextPathTick else tick + config.repathBackoffTicks));
    }

    method StepAhead(i: nat, tick: int)
      requires OnTime(tick) && Valid() && i < |units| && units[i].alive
      requires 0 <= units[i].pathIndex < |units[i].path| && !grid.Model().IsBlocked(units[i].path[units[i].pathIndex])
      modifies `units, `log, grid.blocked
      ensures Valid() && Continues(old(State()), State()) && |units| == |old(units)|
      ensures var u := old(units)[i];
              var next := u.path[u.pathIndex];
              && Adjacent(u.pos, next)
              && units == old(units)[i := u.(pos := next, pathIndex := u.pathIndex + 1, nextMoveTick := tick + MoveTicks())]
              && log == old(log) + [Move(tick, u.id, u.pos, next)]
      ensures ActsAlone(old(units), units, i) && StepsAhead(config, old(State()), i, tick, State())
    {
      hide Inv, Continues, StatusesOk, ShieldsOk, DotsOk, TemplateOk, StepsAhead, StepTicks, Vacated, FactorAt, InOvertime;
      TimeIs(tick);
      ghost var s := State();
      UnitAt(s, i);
      var u := units[i];
      var next := u.path[u.pathIndex];
      var v := u.(pos := next, pathIndex := u.pathIndex + 1, nextMoveTick := tick + MoveTicks());
      var e := Move(tick, u.id, u.pos, next);
      StepOnRoute(u, next);
      HopGrid(i, next);
      RelocateStep(s, i, v, grid.Model(), e);
      units := units[i := v];
      log := log + [e];
      assert State() == s.(units := units, grid := grid.Model(), log := log);
      StepsAheadIs(config, s, i, tick, MoveTicks(), State());
    }

    // A basic attack: the hit lands when the tick is resolved, or in equal parts over a while.
    method DeclareAttack(i: nat, tick: int)
      requires Valid() && i < |units| && units[i].alive && 0 <= units[i].target < |units| && 0 <= tick <= MAX_VALUE
      modifies `units, `log, `casts, `pendingHooks, `hits, `castSerial, `chan
      ensures Valid() && Continues(old(State()), State())
      ensures ActsAlone(old(units), units, -1) && |units| == |old(units)|
      ensures var raw := config.numbers.attackDamage(Scene(old(units), old(log), dice, tick), i);
              hits == old(hits) + if raw > 0 && config.numbers.attackSpread(Scene(old(units), old(log), dice, tick), i) <= 0
                                  then [Hit(i, old(units)[i].target, raw, false, false, 0)] else []
      ensures old(casts) <= casts && |old(log)| < |log| && log[|old(log)|] == Note(tick, old(units)[i].id, Attack(old(units)[old(units)[i].target].id))
      ensures Attacks(config, old(State()), i, tick, Now(), State())
    {
      hide *;
      Looking();
      ghost var s := State();
      ghost var law := Now();
      SceneIs(tick);
      var scene := Scene(units, log, dice, tick);
      var raw, spread, interval := config.numbers.attackDamage(scene, i), config.numbers.attackSpread(scene, i), config.numbers.attackInterval(scene, i);
      var target := units[i].target;
      Swing(i, target, raw, spread, interval, tick);
      Looking();
      SwingsIs(config, s, i, target, raw, spread, interval, tick, State());
      ghost var t := State();
      SwingKeeps(s.units, i, target, raw, spread, interval, tick, config.dotSpreadIntervalTicks, units);
      Heard(i, tick);
      Looking();
      ContinuesTrans(s, t, State());
      AloneTwice(s.units, t.units, units, -1);
      ContinuesLog(t, State());
      AttacksIs(config, s, i, raw, spread, interval, tick, law, t, State());
    }

    // Whoever listens for attacks fires, and what the attack brings with it follows.
    method Heard(i: nat, tick: int)
      requires Valid() && i < |units| && units[i].alive && 0 <= units[i].target < |units| && 0 <= tick <= MAX_VALUE
      modifies `units, `log, `casts, `pendingHooks, `castSerial, `chan
      ensures Valid() && Continues(old(State()), State())
      ensures ActsAlone(old(units), units, -1) && |units| == |old(units)| && old(casts) <= casts
      ensures AttackIsHeard(old(State()), i, tick, Now(), State())
    {
      hide *;
      Looking();
      ghost var s := State();
      ghost var law := Now();
      Hooks(OnAttack(i), tick);
      Looking();
      OnlyStatusesAt(s.units, units, i);
      AloneHooks(s.units, units);
      ghost var w := State();
      Riders(i, tick);
      Looking();
      ContinuesTrans(s, w, State());
      AloneTwice(s.units, w.units, units, -1);
      ghost var b :| RiderIsQueued(w, i, tick, law, b) && CastsOnNth(b, i, tick, law, State());
      AttackIsHeardIs(s, i, w, b, tick, law, State());
    }

    // The attack itself: the timer, the event, the damage.
    method Swing(i: nat, target: int, raw: int, spread: int, interval: int, tick: int)
      requires Valid() && i < |units| && 0 <= target < |units| && tick >= 0
      modifies `units, `log, `hits
      ensures Valid() && Continues(old(State()), State()) && |units| == |old(units)|
      ensures hits == old(hits) + if raw > 0 && spread <= 0 then [Hit(i, target, raw, false, false, 0)] else []
      ensures var us := old(units)[i := old(units)[i].(nextAttackTick := tick + Max(1, interval))];
              units == if raw > 0 && spread > 0 && us[target].alive
                       then us[target := us[target].(dots := us[target].dots + [SpreadDot(i, tick, spread, config.dotSpreadIntervalTicks, raw)])] else us
      ensures ActsAlone(old(units), units, -1) && log == old(log) + [Note(tick, old(units)[i].id, Attack(old(units)[target].id))]
    {
      hide Inv, Continues, ActsAlone, SpreadDot, Fight.Valid, Fight.State;
      Looking();
      ghost var s := State();
      SetTimers(i, tick + Max(1, interval), units[i].lockedUntil);
      Looking();
      AloneOne(s.units, i, units[i], -1);
      ghost var t := State();
      EmitNote(units[i].id, Attack(units[target].id), tick);
      Looking();
      ContinuesTrans(s, t, State());
      t := State();
      Strike(i, target, raw, spread, tick);
      Looking();
      ContinuesTrans(s, t, State());
      AloneTwice(s.units, t.units, units, -1);
      AloneAt(t.units, units, i);
    }

    // The effects that come with every attack, and the ability that is cast on every Nth.
    method Riders(i: nat, tick: int)
      requires Valid() && i < |units| && units[i].alive && 0 <= units[i].target < |units| && 0 <= tick <= MAX_VALUE
      modifies `units, `log, `casts, `pendingHooks, `castSerial, `chan
      ensures Valid() && Continues(old(State()), State())
      ensures ActsAlone(old(units), units, -1) && |units| == |old(units)| && old(casts) <= casts
      ensures exists b :: RiderIsQueued(old(State()), i, tick, Now(), b) && CastsOnNth(b, i, tick, Now(), State())
    {
      hide *;
      Looking();
      ghost var s := State();
      ghost var law := Now();
      ContinuesRefl(s);
      AloneNow(units, -1);
      SceneIs(tick);
      var effects := Listed(config.numbers.attackRider(Scene(units, log, dice, tick), i));
      if effects != [] {
        PlainCastTargeted(i, units[i].target, effects, |units|, chan);
        QueueCast(CastRecord(i, units[i].target, effects, false, 0, false, false), true);
        Looking();
      }
      RiderIsQueuedIs(s, i, effects, tick, law, State());
      ghost var b := State();
      SceneIs(tick);
      if config.numbers.castsNow(Scene(units, log, dice, tick), i) && units[i].template.ability.Ability? {
        DeclareCast(i, units[i].target, tick, false);
        Looking();
        ContinuesTrans(s, b, State());
        CastsGrow(b.casts, Declaration(b.units[i], i, b.units[i].target, castSerial, false), casts);
      }
      CastsOnNthIs(b, i, tick, law, State());
    }

    // The damage of an attack is queued as one hit, or spread over time.
    method Strike(i: nat, target: int, raw: int, spread: int, tick: int)
      requires Valid() && i < |units| && 0 <= target < |units| && tick >= 0
      modifies `units, `hits
      ensures Valid() && Continues(old(State()), State())
      ensures hits == old(hits) + if raw > 0 && spread <= 0 then [Hit(i, target, raw, false, false, 0)] else []
      ensures var u := old(units)[target];
              units == if raw > 0 && spread > 0 && u.alive
                       then old(units)[target := u.(dots := u.dots + [SpreadDot(i, tick, spread, config.dotSpreadIntervalTicks, raw)])]
                       else old(units)
      ensures ActsAlone(old(units), units, -1) && |units| == |old(units)|
    {
      hide Inv, SpreadDot, Continues, Fight.Valid, Fight.State;
      Looking();
      ContinuesRefl(State());
      if raw <= 0 {
        return;
      }
      if spread > 0 {
        if units[target].alive {   // (a target is alive when it is attacked)
          SpreadAttack(i, target, raw, spread, tick);
        }
      } else {
        QueueHit(Hit(i, target, raw, false, false, 0));
      }
    }

    method SpreadAttack(i: nat, target: int, raw: int, spread: int, tick: int)
      requires Valid() && i < |units| && 0 <= target < |units| && units[target].alive && raw > 0 && spread > 0 && tick >= 0
      modifies `units
      ensures Valid() && Continues(old(State()), State())
      ensures var u := old(units)[target];
              units == old(units)[target := u.(dots := u.dots + [SpreadDot(i, tick, spread, config.dotSpreadIntervalTicks, raw)])]
    {
      hide Inv, StatusesSafe, RouteOk, StatusesOk, ShieldsOk, TemplateOk, DotOk;
      var u := units[target];
      UnitAt(State(), target);
      StatusesUnchanged(u.statuses);
      var dot := NewDot(i, 0, tick, spread, config.dotSpreadIntervalTicks, -1, raw, false, Burn, 0);
      Tweak(target, u.(dots := u.dots + [dot]));
    }

    method SetTimers(i: nat, nextAttackTick: int, lockedUntil: int)
      requires Valid() && i < |units|
      modifies `units
      ensures Valid() && Continues(old(State()), State())
      ensures units == old(units)[i := old(units)[i].(nextAttackTick := nextAttackTick, lockedUntil := lockedUntil)]
    {
      hide Inv, StatusesSafe, RouteOk, StatusesOk, ShieldsOk, DotsOk, TemplateOk;
      UnitAt(State(), i);
      StatusesUnchanged(units[i].statuses);
      Tweak(i, units[i].(nextAttackTick := nextAttackTick, lockedUntil := lockedUntil));
    }

    // A cast. A channel is locked for its whole length and gets a serial of its own.
    method DeclareCast(i: nat, target: int, tick: int, onDeath: bool)
      requires Valid() && i < |units| && units[i].template.ability.Ability? && -1 <= target < |units| && (onDeath || units[i].alive)
      modifies `units, `log, `casts, `pendingHooks, `castSerial, `chan
      ensures Valid() && Continues(old(State()), State()) && |units| == |old(units)|
      ensures ActsAlone(old(units), units, -1) && units[i] == Locked(old(units)[i], tick, castSerial, onDeath).(statuses := units[i].statuses, used := units[i].used)
      ensures castSerial == old(castSerial) + if !onDeath && old(units)[i].template.ability.channelTicks > 0 then 1 else 0
      ensures old(casts) + [Declaration(old(units)[i], i, target, castSerial, onDeath)] <= casts
      ensures |log| > |old(log)| && log[|log| - 1] == Note(tick, units[i].id, SpellCast)
      ensures onDeath ==> State() == old(State()).(casts := old(casts) + [Declaration(old(units)[i], i, target, castSerial, true)],
                                                    log := old(log) + [Note(tick, units[i].id, SpellCast)])
      ensures !onDeath ==> DeclaresCast(old(State()), i, target, tick, Now(), State())
    {
      hide *;
      Looking();
      ghost var s := State();
      ContinuesRefl(s);
      AbilityAt(s, i);
      var u := units[i];
      Lock(i, tick, onDeath);
      Looking();
      ghost var t := State();
      LockedIsAlone(s.units, i, tick, castSerial, onDeath);
      DeclarationIsOk(u, i, target, castSerial, onDeath, |units|, chan);
      Declare(i, Declaration(u, i, target, castSerial, onDeath), tick, onDeath);
      Looking();
      ContinuesTrans(s, t, State());
      ContinuesLog(s, t);
      OnlyStatusesAt(t.units, units, i);
      AloneHooks(t.units, units);
      AloneTwice(s.units, t.units, units, -1);
      if !onDeath {
        IsLockedIs(s, i, tick, t);
        DeclaresCastIs(s, i, target, t, tick, Now(), State());
      }
    }

    method Lock(i: nat, tick: int, onDeath: bool)
      requires Valid() && i < |units| && units[i].template.ability.Ability? && (onDeath || units[i].alive)
      modifies `units, `castSerial, `chan
      ensures Valid() && Continues(old(State()), State())
      ensures units == old(units)[i := Locked(old(units)[i], tick, castSerial, onDeath)]
      ensures castSerial == old(castSerial) + if !onDeath && old(units)[i].template.ability.channelTicks > 0 then 1 else 0
      ensures !onDeath && old(units)[i].template.ability.channelTicks > 0 ==> Begin(castSerial, i) in chan
      ensures onDeath ==> State() == old(State())
    {
      hide Inv, Continues, Fight.Valid, Fight.State;
      Looking();
      ContinuesRefl(State());
      var ability := units[i].template.ability;
      if !onDeath && ability.channelTicks > 0 {
        BeginChannel(i, ability.channelTicks, tick);
        assert chan[|chan| - 1] == Begin(castSerial, i);
      } else if !onDeath && ability.castLockTicks > 0 {
        SetTimers(i, Max(units[i].nextAttackTick, tick) + ability.castLockTicks, tick + ability.castLockTicks);
      }
    }

    // The cast is queued, whoever listens for casts fires, and the log tells.
    method Declare(i: nat, cast: CastRecord, tick: int, onDeath: bool)
      requires Valid() && i < |units| && CastOk(cast, |units|, chan)
      modifies `units, `log, `casts, `pendingHooks
      ensures Valid() && Continues(old(State()), State()) && OnlyStatuses(old(units), units) && |units| == |old(units)|
      ensures old(casts) + [cast] <= casts
      ensures |log| > |old(log)| && log[|log| - 1] == Note(tick, units[i].id, SpellCast)
      ensures onDeath ==> State() == old(State()).(casts := old(casts) + [cast], log := old(log) + [Note(tick, units[i].id, SpellCast)])
      ensures !onDeath ==> IsDeclared(old(State()), cast, i, tick, Now(), State())
    {
      hide *;
      Looking();
      ghost var s := State();
      QueueCast(cast, true);
      Looking();
      OnlyStatusesNow(units);
      ghost var t := State();
      if !onDeath {
        Hooks(OnCast(i), tick);
        Looking();
        ContinuesTrans(s, t, State());
        OnlyStatusesAt(t.units, units, i);
      }
      ghost var x := State();
      ContinuesLog(s, x);
      EmitNote(units[i].id, SpellCast, tick);
      Looking();
      ContinuesTrans(s, x, State());
      if !onDeath {
        IsDeclaredIs(s, cast, i, t, x, tick, Now(), State());
      }
    }

    method BeginChannel(i: nat, length: int, tick: int)
      requires Valid() && i < |units| && units[i].alive
      modifies `units, `castSerial, `chan
      ensures Valid() && Continues(old(State()), State())
      ensures castSerial == old(castSerial) + 1 && units == old(units)[i := Channeling(old(units)[i], length, tick, castSerial)]
      ensures chan == Ended(old(chan), old(units)[i]) + [Begin(castSerial, i)]
    {
      hide Inv, Continues, StatusesOk, ShieldsOk, DotsOk, TemplateOk, RouteOk;
      ghost var s := State();
      UnitAt(s, i);
      var u := Channeling(units[i], length, tick, castSerial + 1);
      BeginStep(s, i, u);
      chan := Ended(chan, units[i]) + [Begin(castSerial + 1, i)];
      castSerial := castSerial + 1;
      units := units[i := u];
      assert State() == s.(units := units, castSerial := castSerial, chan := chan);
    }

    // ---- 4. Resolve ----------------------------------------------------------------------------

    method Resolve(tick: int)
      requires Valid() && 0 <= tick <= MAX_VALUE
      modifies `units, `log, `hits, `casts, `scheduled, `pendingHooks, `dice, `summonsSpawned, `alive, `summonAlive, `castSerial, `chan, grid.blocked
      ensures Valid() && Advances(old(State()), State())
      ensures Resolves(old(State()), tick, Now(), State())
    {
      hide *;
      Looking();
      ghost var s := State();
      LandAll(tick);
      ghost var w := State();
      ContinuesAdvances(s, w);
      Settle(tick);
      AdvancesTrans(s, w, State());
      ResolvesIs(s, w, tick, Now(), State());
    }

    // What was declared before lands: interval hooks, the schedule, the casts, damage over time, the hits.
    method LandAll(tick: int)
      requires Valid() && 0 <= tick <= MAX_VALUE
      modifies `units, `log, `hits, `casts, `scheduled, `pendingHooks, `dice, `summonsSpawned, `alive, `summonAlive, `castSerial, `chan, grid.blocked
      ensures Valid() && Continues(old(State()), State())
      ensures HitsResolve(old(State()), tick, Now(), State())
    {
      hide *;
      Looking();
      ghost var s := State();
      ghost var law := Now();
      Hooks(OnInterval, tick);
      ghost var a := State();
      ExecuteScheduled(tick);
      ContinuesTrans(s, a, State());
      DueIs(a, tick, law, State());
      ghost var b := State();
      Looking();
      ExecuteCasts(tick);
      ContinuesTrans(s, b, State());
      CastsRunIs(b, tick, law, State());
      ghost var c := State();
      Looking();
      TickDots(tick);
      Looking();
      ContinuesTrans(s, c, State());
      ContinuesLog(c, State());
      DotsTickIs(c, tick, State());
      ghost var d := State();
      ApplyHits(tick);
      ContinuesTrans(s, d, State());
      HitsResolveIs(s, a, b, c, d, tick, law, State());
    }

    method Settle(tick: int)
      requires Valid() && 0 <= tick <= MAX_VALUE
      modifies `units, `log, `hits, `casts, `scheduled, `pendingHooks, `dice, `summonsSpawned, `alive, `summonAlive, `castSerial, `chan, grid.blocked
      ensures Valid() && Advances(old(State()), State())
      ensures Settles(old(State()), tick, Now(), State())
    {
      hide *;
      Looking();
      ghost var s := State();
      ghost var law := Now();
      AdvancesRefl(s);
      ApplyStatusSweeps(tick);
      AdvancesContinues(s, s, State());
      ghost var a := State();
      ProcessHooks(tick);
      AdvancesContinues(s, a, State());
      ghost var b := State();
      Hooks(OnTeamHpLoss, tick);
      AdvancesContinues(s, b, State());
      ghost var c := State();
      ReapDeathsAndDeathCasts(tick);
      AdvancesTrans(s, c, State());
      ghost var d := State();
      EmitManaEvents(tick);
      AdvancesContinues(s, d, State());
      SettlesIs(s, a, b, c, d, tick, law, State());
    }

    // Delayed effects that are due run, in the order they were scheduled; then channels whose time is
    // up have completed.
    method ExecuteScheduled(tick: int)
      requires Valid() && 0 <= tick <= MAX_VALUE
      modifies `units, `log, `hits, `casts, `scheduled, `pendingHooks, `dice, `summonsSpawned, `alive, `summonAlive, `castSerial, `chan, grid.blocked
      ensures Valid() && Continues(old(State()), State())
      ensures DueAfter(old(scheduled), tick) <= scheduled
      ensures exists w :: AllDueRun(old(State()), tick, Now(), w) && ChannelsComplete(w, tick, State())
    {
      hide *;
      Looking();
      ghost var s := State();
      ghost var law := Now();
      var due := TakeDue(tick);
      Looking();
      ghost var t := State();
      ContinuesRefl(t);
      ghost var step := (a: FightState, d: Scheduled, b: FightState) => DueRuns(a, d, tick, law, b);
      NoSteps(t, due, step);
      for k := 0 to |due|
        invariant Valid() && Continues(s, State()) && Continues(t, State())
        invariant DueAfter(s.scheduled, tick) <= scheduled
        invariant InOrder(t, due[..k], step, State())
      {
        Looking();
        ContinuesCast(t, State(), due[k].cast);
        CastParts(due[k].cast, |units|, chan);
        ghost var w := State();
        RunDue(due[k], tick);
        ContinuesTrans(s, w, State());
        ContinuesTrans(t, w, State());
        OneStepMore(t, due, k, step, w, State());
      }
      AllSteps(t, due, step, State());
      AllDueRunIs(s, t, due, tick, law, State());
      ghost var w := State();
      CompleteChannels(tick);
      ContinuesTrans(s, w, State());
    }

    method TakeDue(tick: int) returns (due: seq<Scheduled>)
      requires Valid()
      modifies `scheduled
      ensures Valid() && Continues(old(State()), State())
      ensures due == DueBy(old(scheduled), tick) && scheduled == DueAfter(old(scheduled), tick)
      ensures forall k | 0 <= k < |due| :: CastOk(due[k].cast, |units|, chan) && EffectOk(due[k].effect)
    {
      hide UnitsOk, LogOk, IdsOk, GridOk, CountsOk, AurasOk, ChannelsOk, CastOk, EffectOk;
      var later: seq<Scheduled>;
      due, later := [], [];
      ghost var s := State();
      for k := 0 to |scheduled|
        invariant due == DueBy(scheduled[..k], tick) && later == DueAfter(scheduled[..k], tick)
        invariant forall m | 0 <= m < |due| :: CastOk(due[m].cast, |units|, chan) && EffectOk(due[m].effect)
        invariant forall m | 0 <= m < |later| :: CastOk(later[m].cast, |units|, chan) && EffectOk(later[m].effect)
        invariant State() == s && Inv(s)
      {
        assert scheduled[..k + 1][..k] == scheduled[..k];
        if scheduled[k].due <= tick {
          due := due + [scheduled[k]];
        } else {
          later := later + [scheduled[k]];
        }
      }
      assert scheduled[..|scheduled|] == scheduled;
      scheduled := later;
      assert State() == s.(scheduled := later);
      assert QueuesOk(State());
    }

    // A channel's pulses and finale only happen while it is unbroken and its caster lives.
    method RunDue(due: Scheduled, tick: int)
      requires Valid() && CastOk(due.cast, |units|, chan) && EffectOk(due.effect) && 0 <= tick <= MAX_VALUE
      requires IsUnit(due.cast.caster) && -1 <= due.cast.target < |units|
      modifies `units, `log, `hits, `casts, `scheduled, `pendingHooks, `dice, `summonsSpawned, `alive, `summonAlive, `castSerial, `chan, grid.blocked
      ensures Valid() && Continues(old(State()), State())
      ensures old(scheduled) <= scheduled
      ensures DueRuns(old(State()), due, tick, Now(), State())
      ensures due.cast.channeled && Stop(due.cast.serial) in old(chan) ==> State() == old(State())
    {
      hide *;
      Looking();
      ghost var s := State();
      ghost var law := Now();
      ContinuesRefl(s);
      if due.cast.stopsOnDeath && !units[due.cast.caster].alive {
        NotDue(s, due, tick, law);
        return;
      }
      if due.cast.channeled {
        if !units[due.cast.caster].alive || units[due.cast.caster].activeChannelSerial != due.cast.serial {
          NotDue(s, due, tick, law);
          return;
        }
        ChannelIsOpen(s, due.cast);
        RunStep(s, due.cast.caster);
        chan := chan + [ChanEvent.Run(due.cast.serial)];
        StateIs();
        Holds();
      }
      Looking();
      ghost var w := State();
      ExecuteEffect(due.cast, due.effect, tick);
      Looking();
      ContinuesTrans(s, w, State());
      DueRunsIs(s, due, tick, law, w, State());
    }

    method CompleteChannels(tick: int)
      requires Valid()
      modifies `units, `chan
      ensures Valid() && Continues(old(State()), State())
      ensures ChannelsComplete(old(State()), tick, State())
    {
      hide *;
      Looking();
      ghost var s := State();
      ContinuesRefl(s);
      for i := 0 to |units|
        invariant Valid() && Continues(s, State()) && |units| == |s.units|
        invariant forall x | 0 <= x < |units| :: units[x] == if x < i then Completed(s.units[x], tick) else s.units[x]
      {
        Looking();
        CompletedIs(units[i], tick);
        if units[i].activeChannelSerial != 0 && tick >= units[i].channelEnd {
          ghost var t := State();
          EndChannel(i, units[i].lockedUntil);
          Looking();
          ContinuesTrans(s, t, State());
        }
      }
      Looking();
      ChannelsCompleteIs(s, tick, State());
    }

    // Two passes: effects that grant immunity to crowd control land first.
    method ExecuteCasts(tick: int)
      requires Valid() && 0 <= tick <= MAX_VALUE
      modifies `units, `log, `hits, `casts, `scheduled, `pendingHooks, `dice, `summonsSpawned, `alive, `summonAlive, `castSerial, `chan, grid.blocked
      ensures Valid() && Continues(old(State()), State())
      ensures BatchRuns(old(State()).(casts := []), old(casts), false, tick, Now(), State())
    {
      hide *;
      Looking();
      ghost var s := State();
      var batch := TakeCasts(true);
      Looking();
      RunBatch(batch, false, tick, s);
    }

    // First whatever grants immunity to crowd control, then the rest.
    method RunBatch(batch: seq<CastRecord>, livingOnly: bool, tick: int, ghost s: FightState)
      requires Valid() && CastsOk(State(), batch) && 0 <= tick <= MAX_VALUE && Continues(s, State())
      modifies `units, `log, `hits, `casts, `scheduled, `pendingHooks, `dice, `summonsSpawned, `alive, `summonAlive, `castSerial, `chan, grid.blocked
      ensures Valid() && Continues(s, State())
      ensures BatchRuns(old(State()), batch, livingOnly, tick, Now(), State())
    {
      hide *;
      Looking();
      ghost var v := State();
      RunPass(batch, true, livingOnly, tick);
      ContinuesTrans(s, v, State());
      CastsStay(v, State(), batch);
      ghost var w := State();
      RunPass(batch, false, livingOnly, tick);
      ContinuesTrans(s, w, State());
      BatchRunsIs(v, batch, livingOnly, tick, Now(), w, State());
    }

    // The queued casts (or hooks) leave their queue.
    method TakeCasts(declared: bool) returns (batch: seq<CastRecord>)
      requires Valid()
      modifies `casts, `pendingHooks
      ensures Valid() && Continues(old(State()), State())
      ensures batch == (if declared then old(casts) else old(pendingHooks)) && CastsOk(State(), batch)
      ensures State() == if declared then old(State()).(casts := []) else old(State()).(pendingHooks := [])
      ensures if declared then casts == [] && pendingHooks == old(pendingHooks) else pendingHooks == [] && casts == old(casts)
    {
      hide UnitsOk, LogOk, IdsOk, GridOk, CountsOk, AurasOk, ChannelsOk, CastOk;
      ghost var s := State();
      if declared {
        batch, casts := casts, [];
      } else {
        batch, pendingHooks := pendingHooks, [];
      }
      assert State() == s.(casts := casts, pendingHooks := pendingHooks);
      assert QueuesOk(State());
    }

    method RunPass(batch: seq<CastRecord>, immunity: bool, livingOnly: bool, tick: int)
      requires Valid() && CastsOk(State(), batch) && 0 <= tick <= MAX_VALUE
      modifies `units, `log, `hits, `casts, `scheduled, `pendingHooks, `dice, `summonsSpawned, `alive, `summonAlive, `castSerial, `chan, grid.blocked
      ensures Valid() && Continues(old(State()), State())
      ensures PassRuns(old(State()), batch, immunity, livingOnly, tick, Now(), State())
    {
      hide *;
      Looking();
      ghost var s := State();
      ghost var law := Now();
      ContinuesRefl(s);
      ghost var step := (a: FightState, c: CastRecord, b: FightState) => PassRunsOne(a, c, immunity, livingOnly, tick, law, b);
      NoSteps(s, batch, step);
      for k := 0 to |batch|
        invariant Valid() && Continues(s, State())
        invariant InOrder(s, batch[..k], step, State())
      {
        Looking();
        CastsStay(s, State(), batch);
        CastIn(State(), batch, k);
        CastParts(batch[k], |units|, chan);
        ghost var t := State();
        if !livingOnly || units[batch[k].caster].alive {
          RunCast(batch[k], immunity, tick);
          ContinuesTrans(s, t, State());
        }
        PassRunsOneIs(t, batch[k], immunity, livingOnly, tick, law, State());
        OneStepMore(s, batch, k, step, t, State());
      }
      AllSteps(s, batch, step, State());
      PassRunsIs(s, batch, immunity, livingOnly, tick, law, State());
    }

    method RunCast(cast: CastRecord, immunity: bool, tick: int)
      requires Valid() && CastOk(cast, |units|, chan) && EffectsOk(cast.effects) && 0 <= tick <= MAX_VALUE
      modifies `units, `log, `hits, `casts, `scheduled, `pendingHooks, `dice, `summonsSpawned, `alive, `summonAlive, `castSerial, `chan, grid.blocked
      ensures Valid() && Continues(old(State()), State())
      ensures CastRuns(old(State()), cast, immunity, tick, Now(), State())
    {
      hide *;
      Looking();
      ghost var s := State();
      ghost var law := Now();
      ContinuesRefl(s);
      ghost var step := (a: FightState, e: Effect, b: FightState) => CastRunsOne(a, cast, e, immunity, tick, law, b);
      NoSteps(s, cast.effects, step);
      for m := 0 to |cast.effects|
        invariant Valid() && Continues(s, State())
        invariant InOrder(s, cast.effects[..m], step, State())
      {
        ghost var t := State();
        if GrantsImmunity(cast.effects[m]) == immunity {
          Looking();
          ContinuesCast(s, State(), cast);
          EffectAt(cast.effects, m);
          RunOrSchedule(cast, cast.effects[m], tick, 0);
          ContinuesTrans(s, t, State());
        }
        CastRunsOneIs(t, cast, cast.effects[m], immunity, tick, law, State());
        OneStepMore(s, cast.effects, m, step, t, State());
      }
      AllSteps(s, cast.effects, step, State());
      CastRunsIs(s, cast, immunity, tick, law, State());
    }

    // ---- Damage over time ----------------------------------------------------------------------

    // Every living unit's stacks move on; each hit that is due joins the queue.
    method TickDots(tick: int)
      requires Valid()
      modifies `units, `log, `hits
      ensures Valid() && Continues(old(State()), State())
      ensures |units| == |old(units)| && forall i | 0 <= i < |units| :: IsStepped(old(units)[i], units[i], tick)
      ensures hits == old(hits) + AllDotHits(old(units), |old(units)|, tick)
    {
      hide *;
      Looking();
      ghost var s := State();
      ContinuesRefl(s);
      NoneStepped(units, tick);
      for i := 0 to |units|
        invariant Valid() && Continues(s, State()) && |units| == |s.units|
        invariant SteppedUpTo(s.units, units, i, tick) && hits == s.hits + AllDotHits(s.units, i, tick)
      {
        Looking();
        ghost var t := State();
        TickUnit(i, tick);
        Looking();
        ContinuesTrans(s, t, State());
        OneStepped(s.units, t.units, units, i, tick);
      }
      Looking();
      AllStepped(s.units, units, tick);
    }

    // One unit's stacks: whatever is due is queued as hits, what has run out is gone.
    method TickUnit(i: nat, tick: int)
      requires Valid() && i < |units|
      modifies `units, `log, `hits
      ensures Valid() && Continues(old(State()), State())
      ensures Timed(old(units)[i].dots)
      ensures var u := old(units)[i];
              var after := if u.alive then Stepped(u.dots, tick) else u.dots;
              && units == old(units)[i := u.(dots := after)]
              && hits == old(hits) + (if u.alive then DotHits(u.dots, i, tick) else [])
              && log == old(log) + RunOut(u.dots, after, |STATUS_ORDER|, tick, u)
    {
      hide *;
      Looking();
      ghost var s := State();
      ContinuesRefl(s);
      DotsAt(s, i);
      SteppedKeeps(units[i].dots, i, tick, |units|);
      StepNothing(i, tick);
      NothingRunsOut(units[i].dots, |STATUS_ORDER|, tick, units[i]);
      if !units[i].alive || units[i].dots == [] {
        return;
      }
      var before := units[i].dots;
      var after, made := StepDots(before, i, tick);
      StoreDots(i, after);
      Looking();
      ghost var t := State();
      QueueHits(made);
      Looking();
      ContinuesTrans(s, t, State());
      t := State();
      EndVisuals(i, before, after, tick);
      Looking();
      SameEnds(before, after, |STATUS_ORDER|, tick, units[i], s.units[i]);
      ContinuesTrans(s, t, State());
    }

    method StoreDots(i: nat, after: seq<Dot>)
      requires Valid() && i < |units| && units[i].alive && DotsOk(after, |units|)
      modifies `units
      ensures Valid() && Continues(old(State()), State()) && units == old(units)[i := old(units)[i].(dots := after)]
    {
      hide Inv, StatusesSafe, RouteOk, StatusesOk, ShieldsOk, DotsOk, TemplateOk;
      UnitAt(State(), i);
      StatusesUnchanged(units[i].statuses);
      Tweak(i, units[i].(dots := after));
    }

    method QueueHits(made: seq<Hit>)
      requires Valid() && HitsIn(made, |units|)
      modifies `hits
      ensures Valid() && Continues(old(State()), State()) && hits == old(hits) + made
    {
      hide UnitsOk, LogOk, IdsOk, GridOk, CountsOk, AurasOk, ChannelsOk, CastOk;
      hits := hits + made;
      assert QueuesOk(State());
    }

    // Each kind of visible stack that has just run out ends on its own, in the order of the kinds.
    method EndVisuals(i: nat, before: seq<Dot>, after: seq<Dot>, tick: int)
      requires Valid() && i < |units| && units[i].alive
      modifies `log
      ensures Valid() && Continues(old(State()), State()) && log == old(log) + RunOut(before, after, |STATUS_ORDER|, tick, units[i])
    {
      hide Inv, Continues, Visual, Fight.Valid, Fight.State;
      Looking();
      ghost var s := State();
      ContinuesRefl(s);
      for k := 0 to |STATUS_ORDER|
        invariant Valid() && Continues(s, State()) && log == s.log + RunOut(before, after, k, tick, units[i])
      {
        if Visual(before, STATUS_ORDER[k]) && !Visual(after, STATUS_ORDER[k]) {
          ghost var t := State();
          EmitEnded(i, STATUS_ORDER[k], tick);
          Looking();
          ContinuesTrans(s, t, State());
        }
      }
    }

    method EmitEnded(i: nat, kind: StatusType, tick: int)
      requires Valid() && i < |units| && units[i].alive
      modifies `log
      ensures Valid() && Continues(old(State()), State()) && log == old(log) + [StatusEnded(tick, units[i].id, kind, units[i].hp)]
    {
      hide Inv, Legal, Apply;
      ghost var s := State();
      EndedIsQuiet(s, i, kind, tick);
      NoteStep(s, StatusEnded(tick, units[i].id, kind, units[i].hp));
      log := log + [StatusEnded(tick, units[i].id, kind, units[i].hp)];
      assert State() == s.(log := log);
    }

    // ---- Statuses that act on their own --------------------------------------------------------

    // HpPerSecond (a heal, or true damage, once a second) and ExecuteBelow.
    method ApplyStatusSweeps(tick: int)
      requires Valid()
      modifies `units, `log, `casts, `pendingHooks
      ensures Valid() && Continues(old(State()), State())
      ensures SweepsAll(old(State()), tick, SuddenDeathHealing(), State())
    {
      hide *;
      Looking();
      ghost var s := State();
      ghost var cut := SuddenDeathHealing();
      ContinuesRefl(s);
      var n := |units|;
      ghost var step := (a: FightState, i: int, b: FightState) => Sweeps(a, i, tick, cut, b);
      NoSteps(s, Upto(n), step);
      UptoSize(n);
      for i := 0 to n
        invariant Valid() && Continues(s, State()) && n <= |units|
        invariant i <= |Upto(n)| && InOrder(s, Upto(n)[..i], step, State())
      {
        Looking();
        ghost var t := State();
        UptoAt(n, i);
        SweepUnit(i, tick);
        Looking();
        ContinuesTrans(s, t, State());
        ContinuesLength(s, State());
        OneStepMore(s, Upto(n), i, step, t, State());
      }
      AllSteps(s, Upto(n), step, State());
      SweepsAllIs(s, tick, cut, State());
    }

    method SweepUnit(i: nat, tick: int)
      requires Valid() && i < |units|
      modifies `units, `log, `casts, `pendingHooks
      ensures Valid() && Continues(old(State()), State())
      ensures Sweeps(old(State()), i, tick, SuddenDeathHealing(), State())
    {
      hide *;
      Looking();
      ghost var s := State();
      ghost var cut := SuddenDeathHealing();
      ContinuesRefl(s);
      if !units[i].alive || units[i].hp <= 0 || units[i].statuses == [] || HasStatus(units[i], Piloting) {
        NotSwept(s, i, tick, cut);
        return;
      }
      if IsSecond(tick) {
        SweepSecond(i, units[i].statuses, tick);
        Looking();
      }
      ghost var w := State();
      SameIds(s, w, i);
      SweepExecute(i, tick);
      Looking();
      ContinuesTrans(s, w, State());
      IsExecutedIs(w, i, tick, State());
      SweepsIs(s, i, tick, cut, w, State());
    }

    method SweepSecond(i: nat, snapshot: seq<Status>, tick: int)
      requires Valid() && i < |units| && units[i].alive && snapshot == units[i].statuses
      modifies `units, `log, `casts, `pendingHooks
      ensures Valid() && Continues(old(State()), State())
      ensures StatusesWork(old(State()), i, snapshot, tick, SuddenDeathHealing(), State())
    {
      hide *;
      Looking();
      ghost var s := State();
      ghost var cut := SuddenDeathHealing();
      ContinuesRefl(s);
      StatusSources(s, i);
      ghost var step := (a: FightState, st: Status, b: FightState) => StatusWorks(a, i, st, tick, cut, b);
      NoSteps(s, snapshot, step);
      for k := 0 to |snapshot|
        invariant Valid() && Continues(s, State())
        invariant InOrder(s, snapshot[..k], step, State())
      {
        Looking();
        SameIds(s, State(), i);
        SourceStays(s, State(), snapshot[k]);
        ghost var t := State();
        WorkStatus(i, snapshot[k], tick);
        ContinuesTrans(s, t, State());
        OneStepMore(s, snapshot, k, step, t, State());
      }
      AllSteps(s, snapshot, step, State());
      StatusesWorkIs(s, i, snapshot, tick, cut, State());
    }

    method WorkStatus(i: nat, st: Status, tick: int)
      requires Valid() && i < |units| && units[i].alive && -1 <= st.source < |units|
      modifies `units, `log, `casts, `pendingHooks
      ensures Valid() && Continues(old(State()), State())
      ensures StatusWorks(old(State()), i, st, tick, SuddenDeathHealing(), State())
    {
      hide *;
      Looking();
      ghost var s := State();
      ghost var cut := SuddenDeathHealing();
      ContinuesRefl(s);
      if st.kind != HpPerSecond || st.percent == 0 || units[i].hp <= 0 {
        StatusIdles(s, i, st, tick, cut);
        return;
      }
      AmountNonNegative(s, i, st.percent);
      var amount := Clamp32(units[i].maxHp * Abs(st.percent) / 100);
      var source := if st.source >= 0 then st.source else i;
      if st.percent > 0 {
        HealUnit(source, i, amount, tick);
        Looking();
        HealsIs(s, source, i, amount, tick, cut, State());
      } else {
        DealResolved(i, source, amount, tick, false, false);
      }
      StatusWorksIs(s, i, st, amount, source, tick, cut, State());
    }

    // Executed: the rest of its HP, past shields.
    method SweepExecute(i: nat, tick: int)
      requires Valid() && i < |units| && units[i].alive
      modifies `units, `log
      ensures Valid() && Continues(old(State()), State())
      ensures var u := old(units)[i];
              var executed := u.hp > 0 && u.hp * 100 < Threshold(u.statuses) * u.maxHp;
              && units == (if executed then old(units)[i := u.(hp := 0)] else old(units))
              && 0 <= ExecuteSource(u.statuses, i) < |units|
              && log == old(log) + if executed then [Damage(tick, u.id, units[ExecuteSource(u.statuses, i)].id, u.hp, 0, 0)] else []
    {
      hide Inv, UnitOk, SameFrame, StatusesSafe, LegalLocal, ApplyLocal, AsView, Threshold, ExecuteSource, Continues, Fight.Valid, Fight.State;
      Looking();
      var u := units[i];
      ContinuesRefl(State());
      UnitAt(State(), i);
      StatusSources(State(), i);
      ExecuteSourceIs(u.statuses, i, |units|);
      var threshold := Threshold(u.statuses);
      var source := ExecuteSource(u.statuses, i);   // whoever applied the strongest of them
      if u.hp > 0 && threshold > 0 && u.hp * 100 < threshold * u.maxHp {
        ExecutionIsLegal(u, Damage(tick, u.id, units[source].id, u.hp, 0, 0), |units|);
        Commit(i, u.(hp := 0), Damage(tick, u.id, units[source].id, u.hp, 0, 0));
      }
    }

    // Runs the hooks queued by the tick's damage, then lands whatever damage they made.
    method ProcessHooks(tick: int)
      requires Valid() && 0 <= tick <= MAX_VALUE
      modifies `units, `log, `hits, `casts, `scheduled, `pendingHooks, `dice, `summonsSpawned, `alive, `summonAlive, `castSerial, `chan, grid.blocked
      ensures Valid() && Continues(old(State()), State())
      ensures HooksProcessed(old(State()), tick, Now(), State())
    {
      hide *;
      Looking();
      ghost var s := State();
      ghost var law := Now();
      ContinuesRefl(s);
      ghost var step := (a: FightState, i: int, b: FightState) => HookRoundRuns(a, tick, law, b);
      NoRounds(s, step);
      SomeRounds();
      var round := 0;
      while round < MAX_HOOK_ROUNDS && pendingHooks != []
        invariant Valid() && Continues(s, State())
        invariant 0 <= round <= MAX_HOOK_ROUNDS && InOrder(s, Upto(round), step, State())
      {
        Looking();
        ghost var t := State();
        HookRound(tick);
        ContinuesTrans(s, t, State());
        RoundMore(s, round, tick, law, t, State());
        round := round + 1;
      }
      Looking();
      ghost var t := State();
      var _ := TakeCasts(false);
      ContinuesTrans(s, t, State());
      HooksProcessedIs(s, round, tick, law, t);
    }

    method HookRound(tick: int)
      requires Valid() && 0 <= tick <= MAX_VALUE
      modifies `units, `log, `hits, `casts, `scheduled, `pendingHooks, `dice, `summonsSpawned, `alive, `summonAlive, `castSerial, `chan, grid.blocked
      ensures Valid() && Continues(old(State()), State())
      ensures HooksRun(old(State()), tick, Now(), State())
    {
      hide *;
      Looking();
      ghost var s := State();
      var batch := TakeCasts(false);
      Looking();
      ghost var v := State();
      RunBatch(batch, true, tick, s);
      ghost var w := State();
      ApplyHits(tick);
      ContinuesTrans(s, w, State());
      HooksRunIs(s, batch, v, w, tick, Now(), State());
    }

    // Mana is not part of a viewer's board; its events are.
    method EmitManaEvents(tick: int)
      requires Valid()
      modifies `log
      ensures Valid() && Continues(old(State()), State()) && ManaIsTold(old(State()), tick, State())
    {
      hide *;
      Looking();
      ghost var s := State();
      ContinuesRefl(s);
      NothingTold(s, tick);
      for i := 0 to |units|
        invariant Valid() && Continues(s, State()) && ManaIsTold(s, tick, State())
      {
        var dirty: bool := *;
        if dirty {
          Looking();
          ghost var t := State();
          EmitNote(units[i].id, ManaChanged, tick);
          Looking();
          ContinuesTrans(s, t, State());
          OneMoreTold(s, t, units[i].id, tick);
        }
      }
    }

    // ---- Deaths --------------------------------------------------------------------------------

    // Units at 0 HP die. A dying unit may cast once more; that may kill others, so this repeats
    // until the tick is stable (or a bound is reached).
    method ReapDeathsAndDeathCasts(tick: int)
      requires Valid() && 0 <= tick <= MAX_VALUE
      modifies `units, `log, `hits, `casts, `scheduled, `pendingHooks, `dice, `summonsSpawned, `alive, `summonAlive, `castSerial, `chan, grid.blocked
      ensures Valid() && Advances(old(State()), State())
      ensures DeathsAreReaped(old(State()), tick, Now(), State())
      ensures |old(units)| <= |units| && forall i | 0 <= i < |old(units)| && old(units)[i].hp == 0 :: !units[i].alive
    {
      hide *;
      Looking();
      ghost var s := State();
      ghost var law := Now();
      AdvancesRefl(s);
      NoRoundsYet(s, tick, law);
      SomeDeathRounds();
      for round := 0 to MAX_DEATH_CAST_ROUNDS
        invariant Valid() && Advances(s, State()) && (round == 0 ==> State() == s) && RoundsReap(s, round, tick, law, State())
        invariant |s.units| <= |units| && (round > 0 ==> forall i | 0 <= i < |s.units| && s.units[i].hp == 0 :: !units[i].alive)
      {
        Looking();
        ghost var t := State();
        var stable := ReapRound(tick);
        Looking();
        AdvancesTrans(s, t, State());
        StaysDead(t, State());
        if stable {
          DeathsAreReapedIs(s, round, tick, law, t, true, State());
          return;
        }
        OneRoundMore(s, round, tick, law, t, State());
      }
      DeathsAreReapedIs(s, MAX_DEATH_CAST_ROUNDS, tick, law, State(), false, State());
    }

    method ReapRound(tick: int) returns (stable: bool)
      requires Valid() && 0 <= tick <= MAX_VALUE
      modifies `units, `log, `hits, `casts, `scheduled, `pendingHooks, `dice, `summonsSpawned, `alive, `summonAlive, `castSerial, `chan, grid.blocked
      ensures Valid() && Advances(old(State()), State())
      ensures RoundReaps(old(State()), tick, Now(), stable, State())
      ensures |old(units)| <= |units| && forall i | 0 <= i < |old(units)| && old(units)[i].hp == 0 :: !units[i].alive
    {
      hide *;
      Looking();
      ghost var s := State();
      ghost var law := Now();
      var dead := CollectDead(tick);
      Looking();
      ghost var t := State();
      AllFallen(s.units, units);
      if dead == [] {
        NobodyReaped(s, dead, tick, law, t);
        return true;
      }
      var cast := MarkDeaths(dead, tick);
      Looking();
      ghost var x := State();
      AdvancesContinues(s, t, x);
      ContinuesAdvances(t, x);
      StaysDead(t, x);
      if !cast && casts == [] {
        RoundReapsIs(s, dead, t, cast, x, tick, law, true, x);
        return true;
      }
      LandLastWords(tick);
      Looking();
      AdvancesContinues(s, x, State());
      ContinuesAdvances(x, State());
      StaysDead(x, State());
      RoundReapsIs(s, dead, t, cast, x, tick, law, false, State());
      return false;
    }

    // What follows from a fall: last acts, rewards, last words, and the hooks that listen for deaths.
    method MarkDeaths(dead: seq<int>, tick: int) returns (cast: bool)
      requires Valid() && AllUnits(State(), dead) && 0 <= tick <= MAX_VALUE
      modifies `units, `log, `hits, `casts, `scheduled, `pendingHooks, `dice, `summonsSpawned, `alive, `summonAlive, `castSerial, `chan, grid.blocked
      ensures Valid() && Continues(old(State()), State())
      ensures DeathsAreMarked(old(State()), dead, tick, Now(), cast, State())
    {
      hide *;
      Looking();
      ghost var s := State();
      ghost var law := Now();
      LastActs(dead, tick);
      Looking();
      ghost var u := State();
      StillUnits(s, u, dead);
      RewardKillers(dead, tick);
      Looking();
      ContinuesTrans(s, u, State());
      StillUnits(s, State(), dead);
      ghost var v := State();
      cast := CastLastWords(dead, tick);
      Looking();
      ContinuesTrans(s, v, State());
      LastWordsSaidIs(v, dead, tick, State());
      ghost var w := State();
      Hooks(OnAnyDeath(dead), tick);   // whenever any unit, an enemy, an ally dies
      Looking();
      ContinuesTrans(s, w, State());
      DeathsAreMarkedIs(s, dead, u, v, w, tick, law, cast, State());
    }

    method LandLastWords(tick: int)
      requires Valid() && 0 <= tick <= MAX_VALUE
      modifies `units, `log, `hits, `casts, `scheduled, `pendingHooks, `dice, `summonsSpawned, `alive, `summonAlive, `castSerial, `chan, grid.blocked
      ensures Valid() && Continues(old(State()), State())
      ensures LastWordsLand(old(State()), tick, Now(), State())
    {
      hide *;
      Looking();
      ghost var s := State();
      ghost var law := Now();
      ExecuteCasts(tick);
      CastsRunIs(s, tick, law, State());
      ghost var v := State();
      ApplyHits(tick);
      ContinuesTrans(s, v, State());
      ghost var w := State();
      ProcessHooks(tick);
      ContinuesTrans(s, w, State());
      LastWordsLandIs(s, v, w, tick, law, State());
    }

    // Everyone at 0 HP falls at once; afterwards every living unit has HP left.
    method CollectDead(tick: int) returns (dead: seq<int>)
      requires Valid()
      modifies `units, `log, `alive, `summonAlive, `chan, grid.blocked
      ensures Valid() && Advances(old(State()), State()) && |units| == |old(units)|
      ensures forall i | 0 <= i < |units| :: units[i] == if old(units)[i].alive && old(units)[i].hp == 0 then Fallen(old(units)[i]) else old(units)[i]
      ensures AllUnits(State(), dead) && forall i :: i in dead <==> 0 <= i < |units| && old(units)[i].alive && old(units)[i].hp == 0
      ensures FallTogether(old(State()), dead, tick, State())
    {
      hide *;
      Looking();
      ghost var s := State();
      AdvancesRefl(s);
      dead := [];
      NobodyFallen(s, tick);
      for i := 0 to |units|
        invariant Valid() && Advances(s, State()) && |units| == |s.units|
        invariant log == s.log + DeathsOf(s.units, dead, tick) && forall a, b | 0 <= a < b < |dead| :: dead[a] < dead[b]
        invariant forall x | 0 <= x < i :: units[x] == if s.units[x].alive && s.units[x].hp == 0 then Fallen(s.units[x]) else s.units[x]
        invariant forall x | i <= x < |units| :: units[x] == s.units[x]
        invariant forall x :: x in dead <==> 0 <= x < i && s.units[x].alive && s.units[x].hp == 0
        invariant forall k | 0 <= k < |dead| :: 0 <= dead[k] < |s.units|
      {
        Looking();
        HpAt(State(), i);
        if units[i].alive && units[i].hp <= 0 {
          ghost var t := State();
          Die(i, tick);
          Looking();
          AdvancesTrans(s, t, State());
          OneMoreFallen(s.units, dead, i, tick);
          StillAscending(dead, i);
          dead := dead + [i];
        }
      }
      Looking();
      UnitsIn(State(), dead);
      FallTogetherIs(s, dead, tick, State());
    }

    // Counters, grid, channel, statuses and the log follow a death.
    method Die(i: nat, tick: int)
      requires Valid() && i < |units| && units[i].alive && (units[i].hp == 0 || units[i].isSummon)
      modifies `units, `log, `alive, `summonAlive, `chan, grid.blocked
      ensures Valid() && Advances(old(State()), State())
      ensures units == old(units)[i := Fallen(old(units)[i])] && log == old(log) + [Death(tick, old(units)[i].id, old(units)[i].isSummon)]
    {
      hide *;
      Looking();
      ghost var s := State();
      var u := units[i];
      TeamAt(s, i);
      CountersAt(s);
      grid.SetBlocked(u.pos, false);
      var e := Death(tick, u.id, u.isSummon);
      DieStep(s, i, grid.Model(), e);
      FallenMembers(u);
      EndedGrows(chan, u);
      units := units[i := Fallen(u)];
      alive := Fewer(alive, u.team, !u.isSummon);
      summonAlive := Fewer(summonAlive, u.team, u.isSummon);
      log := log + [e];
      chan := Ended(chan, u);
      MembersSame(s.units, i, Fallen(u));
      StateIs();
      Holds();
      assert State() == s.(units := units, grid := grid.Model(), log := log, chan := chan, alive := alive, summonAlive := summonAlive);
      AdvancesDeath(s, State(), i);
    }

    method LastActs(dead: seq<int>, tick: int)
      requires Valid() && AllUnits(State(), dead) && 0 <= tick <= MAX_VALUE
      modifies `units, `log, `hits, `casts, `scheduled, `pendingHooks, `dice, `summonsSpawned, `alive, `summonAlive, `castSerial, `chan, grid.blocked
      ensures Valid() && Continues(old(State()), State())
      ensures LastActsRun(old(State()), dead, tick, Now(), State())
    {
      hide *;
      Looking();
      ghost var s := State();
      ghost var law := Now();
      ContinuesRefl(s);
      ghost var step := (a: FightState, x: int, b: FightState) => LastAct(a, x, tick, law, b);
      NoSteps(s, dead, step);
      for k := 0 to |dead|
        invariant Valid() && Continues(s, State())
        invariant InOrder(s, dead[..k], step, State())
      {
        Looking();
        UnitIn(s, dead, k);
        ContinuesLength(s, State());
        ghost var t := State();
        Hooks(OnDeathOf(dead[k]), tick);
        Looking();
        ghost var w := State();
        EjectPilot(dead[k], tick);
        ContinuesTrans(s, t, w);
        ContinuesTrans(s, w, State());
        LastActIs(t, w, dead[k], tick, law, State());
        OneStepMore(s, dead, k, step, t, State());
      }
      AllSteps(s, dead, step, State());
      LastActsRunIs(s, dead, tick, law, State());
    }

    // A mech fell: its pilot is back in the fight, and runs its passive.
    method EjectPilot(mech: int, tick: int)
      requires Valid() && IsUnit(mech) && 0 <= tick <= MAX_VALUE
      modifies `units, `log, `hits, `casts, `scheduled, `pendingHooks, `dice, `summonsSpawned, `alive, `summonAlive, `castSerial, `chan, grid.blocked
      ensures Valid() && Continues(old(State()), State())
      ensures PilotReturns(old(State()), mech, tick, Now(), State())
    {
      hide *;
      Looking();
      ghost var s := State();
      ghost var law := Now();
      ContinuesRefl(s);
      PilotAt(s, mech);
      var pilot := units[mech].pilot;
      if pilot < 0 {
        NoPilot(s, mech, tick, law);
        return;
      }
      Unlink(mech, -1, units[mech].mech);
      Looking();
      ghost var t := State();
      PilotAt(t, pilot);
      Unlink(pilot, units[pilot].pilot, -1);
      Looking();
      ContinuesTrans(s, t, State());
      ghost var w := State();
      if !units[pilot].alive {
        PilotReturnsIs(s, mech, pilot, t.units, w.units, tick, law, w, w);
        return;
      }
      SamePilot(units[pilot], tick);
      ClimbOut(pilot, tick);
      Looking();
      ContinuesTrans(s, w, State());
      ghost var x := State();
      RunPassives(pilot);
      ContinuesTrans(s, x, State());
      PilotReturnsIs(s, mech, pilot, t.units, w.units, tick, law, x, State());
    }

    method Unlink(i: int, pilot: int, mech: int)
      requires Valid() && IsUnit(i) && -1 <= pilot < |units| && -1 <= mech < |units|
      modifies `units
      ensures Valid() && Continues(old(State()), State())
      ensures units == old(units)[i := old(units)[i].(pilot := pilot, mech := mech)]
    {
      hide Inv, StatusesSafe, RouteOk, StatusesOk, ShieldsOk, DotsOk, TemplateOk;
      UnitAt(State(), i);
      StatusesUnchanged(units[i].statuses);
      Tweak(i, units[i].(pilot := pilot, mech := mech));
    }

    method ClimbOut(i: int, tick: int)
      requires Valid() && IsUnit(i) && units[i].alive
      modifies `units, `log
      ensures Valid() && Continues(old(State()), State()) && !HasStatus(ClimbedOut(old(units)[i], tick), Piloting)
      ensures units == old(units)[i := ClimbedOut(old(units)[i], tick)] && log == old(log) + [StatusEnded(tick, units[i].id, Piloting, units[i].hp)]
    {
      hide Inv, UnitOk, UsesUp, SameStand, LegalLocal, ApplyLocal, AsView, HasStatus;
      var u := units[i];
      UnitAt(State(), i);
      WithoutKindSafe(u, Piloting, tick, |units|);
      EndIsSeen(u, ClimbedOut(u, tick), StatusEnded(tick, u.id, Piloting, u.hp), |units|);
      Use(i, ClimbedOut(u, tick), StatusEnded(tick, u.id, Piloting, u.hp));
    }

    // Whoever made a kill may gain statuses for it.
    method RewardKillers(dead: seq<int>, tick: int)
      requires Valid() && AllUnits(State(), dead) && 0 <= tick <= MAX_VALUE
      modifies `units, `log, `hits, `casts, `scheduled, `pendingHooks, `dice, `summonsSpawned, `alive, `summonAlive, `castSerial, `chan, grid.blocked
      ensures Valid() && Continues(old(State()), State())
      ensures KillersRewarded(old(State()), dead, tick, Now(), State())
    {
      hide *;
      Looking();
      ghost var s := State();
      ghost var law := Now();
      ContinuesRefl(s);
      ghost var step := (a: FightState, x: int, b: FightState) => KillerRewarded(a, x, tick, law, b);
      NoSteps(s, dead, step);
      for k := 0 to |dead|
        invariant Valid() && Continues(s, State())
        invariant InOrder(s, dead[..k], step, State())
      {
        Looking();
        UnitIn(s, dead, k);
        ContinuesLength(s, State());
        ghost var t := State();
        KillerAt(t, dead[k]);
        var killer := units[dead[k]].killer;
        if killer >= 0 && units[killer].alive {
          Reward(killer, dead[k], tick);
          Looking();
          ContinuesTrans(s, t, State());
        } else {
          NoReward(t, dead[k], tick, law);
        }
        OneStepMore(s, dead, k, step, t, State());
      }
      AllSteps(s, dead, step, State());
      KillersRewardedIs(s, dead, tick, law, State());
    }

    method Reward(killer: int, victim: int, tick: int)
      requires Valid() && IsUnit(killer) && IsUnit(victim) && 0 <= tick <= MAX_VALUE && units[victim].killer == killer && units[killer].alive
      modifies `units, `log, `hits, `casts, `scheduled, `pendingHooks, `dice, `summonsSpawned, `alive, `summonAlive, `castSerial, `chan, grid.blocked
      ensures Valid() && Continues(old(State()), State())
      ensures KillerRewarded(old(State()), victim, tick, Now(), State())
    {
      hide *;
      Looking();
      ghost var s := State();
      ghost var law := Now();
      ContinuesRefl(s);
      SceneIs(tick);
      var rewards := Listed(config.numbers.killRewards(Scene(units, log, dice, tick), victim));
      ghost var step := (a: FightState, e: Effect, b: FightState) => RewardRuns(a, killer, victim, e, tick, law, b);
      NoSteps(s, rewards, step);
      for m := 0 to |rewards|
        invariant Valid() && Continues(s, State())
        invariant InOrder(s, rewards[..m], step, State())
      {
        Looking();
        ContinuesLength(s, State());
        ghost var t := State();
        if rewards[m].payload.StatusEffect? {
          EffectAt(rewards, m);
          ExecuteEffect(CastRecord(killer, victim, [], false, 0, false, false), rewards[m], tick);
          ContinuesTrans(s, t, State());
        }
        RewardRunsIs(t, killer, victim, rewards[m], tick, law, State());
        OneStepMore(s, rewards, m, step, t, State());
      }
      AllSteps(s, rewards, step, State());
      KillerRewardedIs(s, victim, rewards, tick, law, State());
    }

    method CastLastWords(dead: seq<int>, tick: int) returns (cast: bool)
      requires Valid() && AllUnits(State(), dead) && 0 <= tick <= MAX_VALUE
      modifies `units, `log, `casts, `pendingHooks, `castSerial, `chan
      ensures Valid() && Continues(old(State()), State())
      ensures State() == old(State()).(casts := old(casts) + LastWords(old(units), dead, castSerial),
                                       log := old(log) + LastNotes(old(units), LastWords(old(units), dead, castSerial), tick))
      ensures cast <==> LastWords(old(units), dead, castSerial) != []
    {
      hide *;
      Looking();
      ghost var s := State();
      ContinuesRefl(s);
      NoLastWords(s, dead, tick);
      cast := false;
      for k := 0 to |dead|
        invariant Valid() && Continues(s, State())
        invariant State() == s.(casts := s.casts + LastWords(s.units, dead[..k], s.castSerial),
                                log := s.log + LastNotes(s.units, LastWords(s.units, dead[..k], s.castSerial), tick))
        invariant cast <==> LastWords(s.units, dead[..k], s.castSerial) != []
      {
        Looking();
        UnitIn(s, dead, k);
        TargetAt(State(), dead[k]);
        var u := units[dead[k]];
        LastWordsNext(s, dead, k, tick);
        if u.template.ability.Ability? && u.template.ability.castOnDeath && u.target >= 0 && units[u.target].alive {
          ghost var t := State();
          DeclareCast(dead[k], u.target, tick, true);
          Looking();
          ContinuesTrans(s, t, State());
          cast := true;
        }
      }
      Looking();
      AllDead(dead);
    }

    // ---- Before the first tick -----------------------------------------------------------------

    // One Spawn event per fighter: from here on the log tells the whole story.
    method Announce()
      requires Fresh()
      modifies `log
      ensures Valid() && |log| == |units|
      ensures forall i | 0 <= i < |units| :: log[i] == SpawnOf(units[i])
    {
      hide Inv, Lineup, LogOk;
      ghost var s := State();
      NothingLogged(units);
      for k := 0 to |units|
        invariant Fresh'(s) && LogOk(units[..k], log) && |log| == k
        invariant forall i | 0 <= i < k :: log[i] == SpawnOf(units[i])
      {
        AnnounceOne(s, k, log);
        log := log + [SpawnOf(units[k])];
      }
      assert units[..|units|] == units;
      AllAnnounced(s, log);
    }

    // Nothing but the log has changed since state s, in which everyone stood ready.
    ghost predicate Fresh'(s: FightState)
      reads this, grid.blocked, pathfinder, pathfinder.visitedStamp
    {
      Ready() && Lineup(s) && State() == s.(log := log) && forall i | 0 <= i < |units| :: Rested(units[i])
    }

    // Items, synergies, pilots and passives, in this order.
    method Prepare()
      requires Valid()
      modifies `units, `log, `hits, `casts, `scheduled, `pendingHooks, `dice, `summonsSpawned, `alive, `summonAlive, `castSerial, `chan, grid.blocked
      ensures Valid() && Continues(old(State()), State())
      ensures IsPrepared(old(State()), Now(), State())
    {
      hide *;
      Looking();
      ghost var s := State();
      ghost var law := Now();
      ApplyItems();
      ghost var a := State();
      EmitManaEvents(0);
      ContinuesTrans(s, a, State());
      ghost var b := State();
      ApplyTraits();
      ContinuesTrans(s, b, State());
      ghost var c := State();
      ApplyPilots();
      ContinuesTrans(s, c, State());
      ghost var d := State();
      ApplyPassives();
      ContinuesTrans(s, d, State());
      IsPreparedIs(s, a, b, c, d, law, State());
    }

    // Each flat stat of an item becomes a permanent status. (Everybody is alive before the first tick.)
    method ApplyItems()
      requires Valid()
      modifies `units, `log
      ensures Valid() && Continues(old(State()), State()) && ItemsApply(old(State()), State())
    {
      hide *;
      Looking();
      ghost var s := State();
      ContinuesRefl(s);
      for i := 0 to |units|
        invariant Valid() && Continues(s, State()) && |units| == |s.units|
        invariant forall x | 0 <= x < i :: CombatTurns.Equips(s.units[x], units[x], x)
        invariant forall x | i <= x < |units| :: units[x] == s.units[x]
      {
        Looking();
        ghost var t := State();
        GearAt(t, i);
        if units[i].alive {
          GearUp(i);
          Looking();
          ContinuesTrans(s, t, State());
        }
        CombatTurns.EquipsIs(s.units[i], units[i], i);
      }
      Looking();
      ContinuesLog(s, State());
      ItemsApplyIs(s, State());
    }

    method GearUp(i: nat)
      requires Valid() && i < |units| && units[i].alive
      requires forall k | 0 <= k < |units[i].template.gear| :: |units[i].template.gear[k]| == |ITEM_STATS|
      modifies `units, `log
      ensures Valid() && Continues(old(State()), State())
      ensures var u := old(units)[i]; units == old(units)[i := GearedUp(u, u.template.gear, |u.template.gear|, i)]
    {
      hide *;
      Looking();
      ghost var s := State();
      ContinuesRefl(s);
      var gear := units[i].template.gear;
      NoItems(units[i], gear, i);
      for k := 0 to |gear|
        invariant Valid() && Continues(s, State()) && units == s.units[i := GearedUp(s.units[i], gear, k, i)]
      {
        Looking();
        ContinuesAt(s, State(), i);
        SameCaster(s.units[i], units[i]);
        OneItemMore(s.units[i], gear, k, i);
        ghost var t := State();
        ApplyItem(i, gear[k]);
        ContinuesTrans(s, t, State());
      }
    }

    method ApplyItem(i: nat, values: seq<int>)
      requires Valid() && i < |units| && units[i].alive && |values| == |ITEM_STATS|
      modifies `units, `log
      ensures Valid() && Continues(old(State()), State()) && units == old(units)[i := Geared(old(units)[i], values, |ITEM_STATS|, i)]
    {
      hide Inv, Continues, WithStatus, HasStatus, IsCcStatus, Fight.Valid, Fight.State;
      Looking();
      ghost var s := State();
      ContinuesRefl(s);
      for k := 0 to |ITEM_STATS|
        invariant Valid() && Continues(s, State()) && units == s.units[i := Geared(s.units[i], values, k, i)]
      {
        Looking();
        ContinuesAt(s, State(), i);
        if values[k] != 0 {
          ghost var t := State();
          var _ := GrantStatus(i, true, ITEM_STATS[k], values[k], FOREVER, false, i, 0);
          Looking();
          ContinuesTrans(s, t, State());
        }
      }
    }

    // Synergies: announcements, self-casts of the units in scope, and the Invention.
    method ApplyTraits()
      requires Valid()
      modifies `units, `log, `hits, `casts, `scheduled, `pendingHooks, `dice, `summonsSpawned, `alive, `summonAlive, `castSerial, `chan, grid.blocked
      ensures Valid() && Continues(old(State()), State())
    {
      hide Inv, Continues;
      ghost var s := State();
      ContinuesRefl(s);
      var active: int := *;
      for k := 0 to Max(0, active)
        invariant Valid() && Continues(s, State())
      {
        var holder: int, invents: bool := *, *;
        ghost var t := State();
        EmitNote(0, TraitActivated, 0);
        ContinuesTrans(s, t, State());
        if IsUnit(holder) {
          t := State();
          SelfCast(holder);
          ContinuesTrans(s, t, State());
          ContinuesLength(t, State());
          if invents {
            t := State();
            SpawnInvention(holder);
            ContinuesTrans(s, t, State());
          }
        }
      }
    }

    method SelfCast(holder: int)
      requires Valid() && IsUnit(holder)
      modifies `units, `log, `hits, `casts, `scheduled, `pendingHooks, `dice, `summonsSpawned, `alive, `summonAlive, `castSerial, `chan, grid.blocked
      ensures Valid() && Continues(old(State()), State())
    {
      hide Inv, Continues;
      var effects := SomeEffects();
      RunModule(CastRecord(holder, -1, effects, false, 0, false, false), 0);
    }

    // A summon on the team's right-most back hex (or near it) that fires its modules.
    method SpawnInvention(holder: int)
      requires Valid() && IsUnit(holder)
      modifies `units, `log, `hits, `casts, `scheduled, `pendingHooks, `dice, `summonsSpawned, `alive, `summonAlive, `castSerial, `chan, grid.blocked
      ensures Valid() && Continues(old(State()), State())
    {
      hide Inv, Continues, BoardToArena, NearestFree, IsSummoning, HexGrid.Model, Fight.Valid, Fight.State;
      Looking();
      ghost var s := State();
      ContinuesRefl(s);
      TeamAt(s, holder);
      var team := units[holder].team;
      var where := BoardToArena(BOARD_COLUMNS - 1, 0, if team == 0 then Home else Away);
      BackRowIsInArena(team);
      var blocked := grid.IsBlocked(where);
      if blocked {
        var found;
        found, where := FreeHexNear(where);
        if !found {
          return;
        }
        NearestIsFree(grid.Model(), BoardToArena(BOARD_COLUMNS - 1, 0, if team == 0 then Home else Away), where);
      }
      var index := SpawnSummon(team, where, holder, 0);
      if IsUnit(index) {
        Looking();
        ghost var t := State();
        RunModules(index);
        Looking();
        ContinuesTrans(s, t, State());
      }
    }

    method RunModules(holder: int)
      requires Valid() && IsUnit(holder)
      modifies `units, `log, `hits, `casts, `scheduled, `pendingHooks, `dice, `summonsSpawned, `alive, `summonAlive, `castSerial, `chan, grid.blocked
      ensures Valid() && Continues(old(State()), State())
    {
      hide Inv, Continues, CastOk, Fight.Valid, Fight.State;
      Looking();
      ghost var s := State();
      ContinuesRefl(s);
      var modules: int := *;
      for k := 0 to Max(0, modules)
        invariant Valid() && Continues(s, State()) && IsUnit(holder)
      {
        var effects, echo: int := [], *;
        effects := SomeEffects();
        Looking();
        ghost var t := State();
        PlainCastOk(holder, effects, |units|, chan);
        RunModule(CastRecord(holder, -1, effects, false, 0, false, false), echo);
        Looking();
        ContinuesTrans(s, t, State());
        ContinuesLength(t, State());
      }
    }

    // Every effect of a module; with an echo it runs again and again.
    method RunModule(cast: CastRecord, echo: int)
      requires Valid() && CastOk(cast, |units|, chan)
      modifies `units, `log, `hits, `casts, `scheduled, `pendingHooks, `dice, `summonsSpawned, `alive, `summonAlive, `castSerial, `chan, grid.blocked
      ensures Valid() && Continues(old(State()), State())
    {
      hide Inv, Continues, CastOk;
      ghost var s := State();
      ContinuesRefl(s);
      CastParts(cast, |units|, chan);
      for m := 0 to |cast.effects|
        invariant Valid() && Continues(s, State())
      {
        ContinuesCast(s, State(), cast);
        ghost var t := State();
        RunOrSchedule(cast, cast.effects[m], 0, 0);
        ContinuesTrans(s, t, State());
        if echo > 0 {
          for k := 1 to MAX_ECHOES + 1
            invariant Valid() && Continues(s, State())
          {
            ContinuesCast(s, State(), cast);
            t := State();
            RunOrSchedule(cast, cast.effects[m], 0, k * echo);
            ContinuesTrans(s, t, State());
          }
        }
      }
    }

    // A mech takes in the ally on the hex directly behind it.
    method ApplyPilots()
      requires Valid()
      modifies `units, `log, `hits, `casts, `scheduled, `pendingHooks, `dice, `summonsSpawned, `alive, `summonAlive, `castSerial, `chan, grid.blocked
      ensures Valid() && Continues(old(State()), State())
      ensures PilotsBoard(old(State()), Now(), State())
    {
      hide *;
      Looking();
      ghost var s := State();
      ghost var law := Now();
      ContinuesRefl(s);
      var fielded := |units|;
      ghost var step := (a: FightState, i: int, b: FightState) => TakesPilot(a, i, fielded, law, b);
      NoSteps(s, Upto(fielded), step);
      UptoSize(fielded);
      for i := 0 to fielded
        invariant Valid() && Continues(s, State())
        invariant i <= |Upto(fielded)| && InOrder(s, Upto(fielded)[..i], step, State())
      {
        Looking();
        UptoAt(fielded, i);
        ContinuesLength(s, State());
        ghost var t := State();
        ContinuesRefl(t);
        if units[i].template.pilots && !units[i].isSummon {
          var pilot := PilotBehind(i, fielded);
          if pilot >= 0 {
            MayBoard(units, i, pilot);
            BoardMech(i, pilot);
            PilotTaken(t, i, fielded, pilot, law, State());
          } else {
            NobodyBehind(t, i, fielded, law);
          }
        } else {
          NoPilotNeeded(t, i, fielded, law);
        }
        ContinuesTrans(s, t, State());
        OneStepMore(s, Upto(fielded), i, step, t, State());
      }
      AllSteps(s, Upto(fielded), step, State());
      PilotsBoardIs(s, law, State());
    }

    method PilotBehind(i: nat, fielded: nat) returns (pilot: int)
      requires i < |units| && fielded <= |units|
      ensures pilot == -1 || (0 <= pilot < fielded && CanPilot(units, i, pilot))
      ensures pilot == -1 ==> forall j | 0 <= j < fielded :: !CanPilot(units, i, j)
      ensures FirstPilot(units, i, fielded, pilot)
    {
      hide CanPilot, FirstPilot;
      for j := 0 to fielded
        invariant forall k | 0 <= k < j :: !CanPilot(units, i, k)
      {
        if CanPilot(units, i, j) {
          FirstPilotIs(units, i, fielded, j);
          return j;
        }
      }
      FirstPilotIs(units, i, fielded, -1);
      return -1;
    }

    method BoardMech(i: nat, pilot: nat)
      requires Valid() && i < |units| && pilot < |units| && pilot != i && units[pilot].alive
      modifies `units, `log, `hits, `casts, `scheduled, `pendingHooks, `dice, `summonsSpawned, `alive, `summonAlive, `castSerial, `chan, grid.blocked
      ensures Valid() && Continues(old(State()), State())
      ensures Boards(old(State()), i, pilot, Now(), State())
    {
      hide *;
      Looking();
      ghost var s := State();
      ghost var law := Now();
      EnterMech(i, pilot);
      Looking();
      ContinuesLog(s, State());
      IsBoardedIs(s, i, pilot, State());
      ghost var t := State();
      MechHpIs(i, |units|, chan);
      ExecuteEffect(CastRecord(i, -1, [], false, 0, false, false), MechHp(), 0);
      Looking();
      ContinuesTrans(s, t, State());
      ContinuesLength(s, State());
      ghost var w := State();
      SelfCast(i);   // the bonus of its pilot's class
      ContinuesTrans(s, w, State());
      BoardsIs(s, i, pilot, t, w, law, State());
    }

    // Mech and pilot know each other; the pilot is out of the fight until the mech falls.
    method EnterMech(i: nat, pilot: nat)
      requires Valid() && i < |units| && pilot < |units| && pilot != i && units[pilot].alive
      modifies `units, `log
      ensures Valid() && Continues(old(State()), State()) && |units| == |old(units)|
      ensures units[pilot] == WithStatus(old(units)[pilot].(mech := i), Piloting, 0, FOREVER, false, i)
      ensures units == old(units)[i := old(units)[i].(pilot := pilot)][pilot := units[pilot]]
    {
      hide Inv, Continues, WithStatus, HasStatus, Fight.Valid, Fight.State;
      Looking();
      ghost var s := State();
      PilotAt(s, i);
      PilotAt(s, pilot);
      Unlink(i, pilot, units[i].mech);
      Looking();
      ghost var t := State();
      Unlink(pilot, units[pilot].pilot, i);
      Looking();
      ContinuesTrans(s, t, State());
      t := State();
      var _ := GrantStatus(pilot, true, Piloting, 0, FOREVER, false, i, 0);
      Looking();
      ContinuesTrans(s, t, State());
    }

    method ApplyPassives()
      requires Valid()
      modifies `units, `log, `hits, `casts, `scheduled, `pendingHooks, `dice, `summonsSpawned, `alive, `summonAlive, `castSerial, `chan, grid.blocked
      ensures Valid() && Continues(old(State()), State())
      ensures AllPassivesRun(old(State()), Now(), State())
    {
      hide *;
      Looking();
      ghost var s := State();
      ghost var law := Now();
      ContinuesRefl(s);
      var fielded := |units|;
      ghost var step := (a: FightState, i: int, b: FightState) => PassivesRun(a, i, law, b);
      NoSteps(s, Upto(fielded), step);
      UptoSize(fielded);
      for i := 0 to fielded
        invariant Valid() && Continues(s, State())
        invariant i <= |Upto(fielded)| && InOrder(s, Upto(fielded)[..i], step, State())
      {
        Looking();
        UptoAt(fielded, i);
        ContinuesLength(s, State());
        ghost var t := State();
        RunPassives(i);
        ContinuesTrans(s, t, State());
        OneStepMore(s, Upto(fielded), i, step, t, State());
      }
      AllSteps(s, Upto(fielded), step, State());
      AllPassivesRunIs(s, law, State());
    }

    // ---- The whole fight -----------------------------------------------------------------------

    // Timers that were already running are shortened to match.
    method EnterOvertime(tick: int)
      requires Valid()
      modifies `units, `log, `overtimeFactor, `overtimeStartTick
      ensures Valid() && Continues(old(State()), State()) && overtimeFactor == config.overtimeSpeed && overtimeStartTick == tick
      ensures |units| == |old(units)| && forall i | 0 <= i < |units| :: units[i] == Hurried(old(units)[i], tick, config.overtimeSpeed)
      ensures log == old(log) + [Note(tick, 0, Overtime)]
    {
      hide Inv, Continues;
      ghost var s := State();
      ContinuesRefl(s);
      overtimeFactor, overtimeStartTick := config.overtimeSpeed, tick;
      for i := 0 to |units|
        invariant Valid() && Continues(s, State()) && overtimeFactor == config.overtimeSpeed && overtimeStartTick == tick
        invariant |units| == |s.units| && log == s.log
        invariant forall x | 0 <= x < |units| :: units[x] == if x < i then Hurried(s.units[x], tick, overtimeFactor) else s.units[x]
      {
        ghost var t := State();
        Hurry(i, tick);
        ContinuesTrans(s, t, State());
      }
      ghost var t := State();
      EmitNote(0, Overtime, tick);
      ContinuesTrans(s, t, State());
    }

    method Hurry(i: nat, tick: int)
      requires Valid() && i < |units|
      modifies `units
      ensures Valid() && Continues(old(State()), State()) && units == old(units)[i := Hurried(old(units)[i], tick, overtimeFactor)]
    {
      hide Inv, StatusesSafe, RouteOk, StatusesOk, ShieldsOk, DotsOk, TemplateOk;
      UnitAt(State(), i);
      StatusesUnchanged(units[i].statuses);
      Tweak(i, Hurried(units[i], tick, overtimeFactor));
    }

    // One tick: overtime, expiry, auras, everybody's turn, resolution.
    method Tick(tick: int)
      requires Valid() && 0 <= tick <= MAX_VALUE && OnTime(tick - 1)
      modifies this, grid.blocked, pathfinder, pathfinder.visitedStamp, pathfinder.parent
      ensures Valid() && Advances(old(State()), State()) && OnTime(tick)
      ensures TickRuns(config, old(State()), tick, State())
    {
      hide *;
      Looking();
      ghost var s := State();
      ContinuesRefl(s);
      NextTick(tick);
      if tick == config.regulationTicks && config.overtimeSpeed > 1 {
        EnterOvertime(tick);
        Looking();
        OvertimeBeginsIs(config, s, tick, State());
        OvertimeIsOn(tick);
      } else {
        NoOvertimeYet(config, s, tick);
      }
      ghost var o := State();
      TimeIs(tick);
      TickFits(tick);
      ExpireEffects(tick);
      Looking();
      ContinuesTrans(s, o, State());
      ContinuesLog(o, State());
      AllExpireIs(o, tick, State());
      ghost var e := State();
      UpdateAuras(tick);
      Looking();
      ContinuesTrans(s, e, State());
      ContinuesLog(e, State());
      PlacesSize(e.units, units);
      AurasFollowIs(e, State());
      ghost var a := State();
      ActAll(tick);
      ContinuesTrans(s, a, State());
      ghost var d := State();
      ContinuesAdvances(s, d);
      Resolve(tick);
      AdvancesTrans(s, d, State());
      TickRunsIs(config, s, o, e, a, d, tick, State());
    }

    // Time goes on: only the end of the regulation changes the clock.
    lemma NextTick(tick: int)
      requires ConfigOk(config) && OnTime(tick - 1)
      ensures !(tick == config.regulationTicks && config.overtimeSpeed > 1) ==> OnTime(tick)
    {
    }

    lemma OvertimeIsOn(tick: int)
      requires ConfigOk(config) && 0 <= tick == config.regulationTicks && config.overtimeSpeed > 1
      requires overtimeFactor == config.overtimeSpeed && overtimeStartTick == tick
      ensures OnTime(tick)
    {
    }

    // Everyone acts before anything lands: in this phase nobody's HP, shields or life change. (Whoever acts
    // earlier still claims its hex and queues its attack first.)
    method ActAll(tick: int)
      requires OnTime(tick) && Valid() && 0 <= tick <= MAX_VALUE
      modifies `units, `log, `hits, `casts, `pendingHooks, `castSerial, `chan, grid.blocked, pathfinder, pathfinder.visitedStamp, pathfinder.parent
      ensures Valid() && Continues(old(State()), State()) && |units| == |old(units)|
      ensures AllTakeTurns(config, old(State()), tick, Now(), State())
      ensures Unharmed(old(units), units)
    {
      hide *;
      Looking();
      ghost var s := State();
      ContinuesRefl(s);
      UnharmedNow(units);
      var n := |units|;
      ghost var law := Now();
      ghost var step := (a: FightState, i: int, b: FightState) => TakesTurn(config, a, i, tick, law, b);
      NoSteps(s, Upto(n), step);
      UptoSize(n);
      for i := 0 to n
        invariant Valid() && Continues(s, State()) && |units| == n && Unharmed(s.units, units)
        invariant i <= |Upto(n)| && InOrder(s, Upto(n)[..i], step, State())
      {
        Looking();
        UptoAt(n, i);
        ghost var t := State();
        ContinuesRefl(t);
        AloneNow(units, i);
        if units[i].alive {
          Act(i, tick);
        } else {
          TurnPasses(config, t, i, tick, law);
        }
        Looking();
        ContinuesTrans(s, t, State());
        UnharmedTwice(s.units, t.units, units, i);
        OneStepMore(s, Upto(n), i, step, t, State());
      }
      AllSteps(s, Upto(n), step, State());
      AllTakeTurnsIs(config, s, tick, law, State());
    }

    // The whole fight. The log it leaves is one a viewer can follow from the first event to the last,
    // and replaying it ends in exactly the state the fight ended in; every summon is gone; the fight
    // runs into its limit exactly if both sides still stand, and only the fall of both is a draw.
    method Run() returns (winner: Winner, endTick: int, timedOut: bool)
      requires Fresh()
      modifies this, grid.blocked, pathfinder, pathfinder.visitedStamp, pathfinder.parent
      ensures LegalLog(log) && Agrees(units, Replay(log)) && Standing(State())
      ensures WholeFight(config, maxTicks, old(units), endTick, timedOut, units)
      ensures |units| >= |old(units)| && forall i | 0 <= i < |old(units)| :: SameOrFallen(old(units)[i], units[i])
      ensures forall i | 0 <= i < |units| && units[i].isSummon :: !units[i].alive
      ensures StoppedStaysStopped(chan)
      ensures timedOut <==> alive[0] > 0 && alive[1] > 0
      ensures winner == Draw <==> alive[0] == 0 && alive[1] == 0
      ensures |alive| == 2 && forall t | 0 <= t <= 1 && alive[t] > alive[1 - t] :: winner == Victory(t)
      ensures forall t | 0 <= t <= 1 && alive[t] == alive[1 - t] > 0 && TotalHp(units, t) > TotalHp(units, 1 - t) :: winner == Victory(t)
    {
      hide Inv, Continues, Advances, Standing, Lineup, Rested, StoppedStaysStopped, LegalLog, Agrees, SameOrFallen, Vanished, IsPrepared, FightRuns, WholeFight, SpawnOf;
      ghost var units0 := units;
      Announce();
      ghost var s := State();
      AtTheStart();
      endTick, timedOut := Play();
      AdvancesAll(s, State());
      ChannelsAt(State());
      ghost var units1, t := units, State();
      DespawnSummons(endTick);
      WholeFightIs(config, maxTicks, s, endTick, timedOut, t, units);
      VanishedAll(units0, units1, units);
      StandingParts(State());
      winner := Decide(timedOut);
    }

    lemma AtTheStart()
      requires ConfigOk(config) && overtimeFactor == 1 && overtimeStartTick == -1
      ensures OnTime(-1)
    {
    }

    // From the first Spawn to the last tick.
    method Play() returns (endTick: int, timedOut: bool)
      requires Valid() && OnTime(-1)
      modifies this, grid.blocked, pathfinder, pathfinder.visitedStamp, pathfinder.parent
      ensures Valid() && Advances(old(State()), State())
      ensures exists p :: IsPrepared(old(State()), LawAt(config, -1), p) && FightRuns(config, maxTicks, p, endTick, timedOut, State())
      ensures |alive| == 2 && alive[0] >= 0 && alive[1] >= 0 && (timedOut <==> alive[0] > 0 && alive[1] > 0)
    {
      hide *;
      Looking();
      ghost var s := State();
      TimeIs(-1);
      Prepare();
      Looking();
      ghost var p := State();
      ContinuesAdvances(s, p);
      var tick := 0;
      var limit := Min(maxTicks, config.hardLimitTicks);
      LimitFits(maxTicks, limit);
      AliveAt(p);
      StandIs(p);
      if alive[0] == 0 || alive[1] == 0 {
        FightRunsIs(config, maxTicks, p, 0, 0, false, p);
        return tick, false;
      }
      NoTicks(config, p);
      while tick < limit
        invariant Valid() && Advances(s, State()) && 0 <= tick && (tick <= limit || tick == 0) && OnTime(tick - 1)
        invariant |alive| == 2 && alive[0] > 0 && alive[1] > 0 && TicksRun(config, p, tick, State())
        decreases limit - tick
      {
        ghost var t := State();
        Looking();
        StandIs(t);
        Tick(tick);
        Looking();
        AdvancesTrans(s, t, State());
        AliveAt(State());
        StandIs(State());
        OneTickMore(config, p, tick, t, State());
        if alive[0] == 0 || alive[1] == 0 {
          FightRunsIs(config, maxTicks, p, tick + 1, tick, false, State());
          return tick, false;
        }
        tick := tick + 1;
      }
      Looking();
      StandIs(State());
      FightRunsIs(config, maxTicks, p, tick, limit, true, State());
      return limit, true;
    }

    lemma LimitFits(maxTicks: int, limit: int)
      requires ConfigOk(config) && limit == Min(maxTicks, config.hardLimitTicks)
      ensures limit <= MAX_VALUE
    {
    }

    lemma StandIs(s: FightState)
      ensures BothStand(s) <==> |s.alive| == 2 && s.alive[0] > 0 && s.alive[1] > 0
    {
    }

    // Every summon still standing vanishes. (Unlike a death in the fight this leaves a vanished
    // summon's statuses in place, so only what a viewer sees is still claimed.)
    method DespawnSummons(tick: int)
      requires Valid()
      modifies `units, `log, `summonAlive, grid.blocked
      ensures grid.Valid() && Standing(State())
      ensures |units| == |old(units)| && forall i | 0 <= i < |units| :: units[i] == if old(units)[i].isSummon && old(units)[i].alive then Vanished(old(units)[i]) else old(units)[i]
      ensures forall i | 0 <= i < |units| && units[i].isSummon :: !units[i].alive
    {
      hide Inv, Standing;
      StandingAtEnd(State());
      ghost var s := State();
      for i := 0 to |units|
        invariant grid.Valid() && grid.width == ARENA_COLUMNS && grid.height == ARENA_ROWS && Standing(State()) && |units| == |s.units|
        invariant forall x | 0 <= x < i :: units[x] == if s.units[x].isSummon && s.units[x].alive then Vanished(s.units[x]) else s.units[x]
        invariant forall x | i <= x < |units| :: units[x] == s.units[x]
      {
        if units[i].isSummon && units[i].alive {
          Vanish(i, tick);
        }
      }
    }

    method Vanish(i: nat, tick: int)
      requires grid.Valid() && grid.width == ARENA_COLUMNS && grid.height == ARENA_ROWS
      requires Standing(State()) && i < |units| && units[i].isSummon && units[i].alive
      modifies `units, `log, `summonAlive, grid.blocked
      ensures grid.Valid() && Standing(State()) && units == old(units)[i := Vanished(old(units)[i])]
    {
      hide Standing;
      ghost var s := State();
      var u := units[i];
      StandingParts(s);
      StandingTeam(s, i);
      grid.SetBlocked(u.pos, false);
      var e := Death(tick, u.id, true);
      VanishStep(s, i, grid.Model(), e);
      units := units[i := Vanished(u)];
      summonAlive := Fewer(summonAlive, u.team, true);
      log := log + [e];
      assert State() == s.(units := units, members := MembersOf(units), grid := grid.Model(), log := log, summonAlive := summonAlive);
    }

    // More surviving units, then more total HP, then a coin; without a limit, whoever still stands.
    method Decide(atLimit: bool) returns (winner: Winner)
      requires |alive| == 2 && alive[0] >= 0 && alive[1] >= 0 && (atLimit <==> alive[0] > 0 && alive[1] > 0)
      ensures winner == Draw <==> alive[0] == 0 && alive[1] == 0
      ensures winner == Draw || winner == Victory(0) || winner == Victory(1)
      ensures forall t | 0 <= t <= 1 && alive[t] > alive[1 - t] :: winner == Victory(t)
      ensures forall t | 0 <= t <= 1 && alive[t] == alive[1 - t] > 0 && TotalHp(units, t) > TotalHp(units, 1 - t) :: winner == Victory(t)
    {
      if atLimit {
        if alive[0] != alive[1] {
          return Victory(if alive[0] > alive[1] then 0 else 1);
        }
        var hp := [0, 0];
        for i := 0 to |units|
          invariant |hp| == 2 && hp[0] == TotalHp(units[..i], 0) && hp[1] == TotalHp(units[..i], 1)
        {
          assert units[..i + 1][..i] == units[..i];
          if units[i].alive && !units[i].isSummon && 0 <= units[i].team <= 1 {
            hp := hp[units[i].team := hp[units[i].team] + units[i].hp];
          }
        }
        assert units[..|units|] == units;
        var coin: bool := *;
        return Victory(if hp[0] != hp[1] then (if hp[0] > hp[1] then 0 else 1) else if coin then 0 else 1);
      }
      return if alive[0] == 0 && alive[1] == 0 then Draw else if alive[1] == 0 then Victory(0) else Victory(1);
    }
  }
}
