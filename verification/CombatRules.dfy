// The parts of a fight that compute without changing the fight: status and shield lists, fighters
// as they take the field, and what the invariant says about one unit.
module CombatRules {
  import opened Hex
  import opened CombatLog
  import opened Pathfinder
  import opened Dots
  import opened CombatState
  import opened CombatSteps
  import opened GraphSearch
  import opened Arithmetic

  datatype Spec = Spec(id: UnitId, team: int, pos: HexCoord, template: Template)

  // ---- Statuses --------------------------------------------------------------------------------

  predicate IsCcStatus(kind: StatusType) {
    kind == Stun || kind == Root || kind == Knockup
  }

  // The first status of a kind from index k on; |ss| if there is none.
  function FirstOf(ss: seq<Status>, kind: StatusType, k: nat): (r: nat)
    requires k <= |ss|
    ensures k <= r <= |ss| && (r < |ss| ==> ss[r].kind == kind)
    ensures forall m | k <= m < r :: ss[m].kind != kind
    decreases |ss| - k
  {
    if k == |ss| || ss[k].kind == kind then k else FirstOf(ss, kind, k + 1)
  }

  // Wounds never stack, nor does anything marked "refreshes": the strongest applies, for as long as
  // the latest one lasts. Everything else adds up.
  function StatusesWith(ss: seq<Status>, kind: StatusType, percent: int, expires: int, refresh: bool, source: int): seq<Status> {
    var k := FirstOf(ss, kind, 0);
    if (kind == Wound || refresh) && k < |ss| then
      ss[k := ss[k].(percent := Max(ss[k].percent, percent), expires := Max(ss[k].expires, expires))]
    else ss + [Status(kind, percent, expires, source, 0)]
  }

  function WithStatus(u: FightUnit, kind: StatusType, percent: int, expires: int, refresh: bool, source: int): FightUnit {
    var v := u.(statuses := StatusesWith(u.statuses, kind, percent, expires, refresh, source));
    if AffectsMaxHp(kind) then RecomputeMaxHp(v) else v
  }

  // A wound, or a status that refreshes, never stacks: the first of its kind becomes the stronger and the
  // longer of the two. Everything else is one status more.
  lemma StatusIsGranted(ss: seq<Status>, kind: StatusType, percent: int, expires: int, refresh: bool, source: int)
    ensures var tt := StatusesWith(ss, kind, percent, expires, refresh, source);
            if (kind == Wound || refresh) && exists k :: 0 <= k < |ss| && ss[k].kind == kind then Refreshes(ss, kind, percent, expires, tt)
            else tt == ss + [Status(kind, percent, expires, source, 0)]
  {
    var k := FirstOf(ss, kind, 0);
    if (kind == Wound || refresh) && k < |ss| {
      assert RefreshesAt(ss, k, kind, percent, expires, StatusesWith(ss, kind, percent, expires, refresh, source));
    }
  }

  ghost predicate Refreshes(ss: seq<Status>, kind: StatusType, percent: int, expires: int, tt: seq<Status>) {
    exists k: nat :: RefreshesAt(ss, k, kind, percent, expires, tt)
  }

  predicate RefreshesAt(ss: seq<Status>, k: nat, kind: StatusType, percent: int, expires: int, tt: seq<Status>) {
    && k < |ss| && ss[k].kind == kind && (forall m | 0 <= m < k :: ss[m].kind != kind)
    && |tt| == |ss| && tt == ss[k := tt[k]] && tt[k] == ss[k].(percent := tt[k].percent, expires := tt[k].expires)
    && tt[k].percent in {ss[k].percent, percent} && ss[k].percent <= tt[k].percent && percent <= tt[k].percent
    && tt[k].expires in {ss[k].expires, expires} && ss[k].expires <= tt[k].expires && expires <= tt[k].expires
  }

  lemma StatusesWithKeeps(ss: seq<Status>, kind: StatusType, percent: int, expires: int, refresh: bool, source: int, n: int)
    requires StatusesOk(ss, n) && -1 <= source < n && expires <= FOREVER
    ensures var tt := StatusesWith(ss, kind, percent, expires, refresh, source);
            StatusesOk(tt, n) && StatusesSafe(ss, tt)
  {
    var k := FirstOf(ss, kind, 0);
    if (kind == Wound || refresh) && k < |ss| {
      UpdateSafe(ss, k, ss[k].(percent := Max(ss[k].percent, percent), expires := Max(ss[k].expires, expires)), n);
    } else {
      AppendSafe(ss, Status(kind, percent, expires, source, 0), n);
    }
  }

  lemma WithStatusKeeps(u: FightUnit, kind: StatusType, percent: int, expires: int, refresh: bool, source: int, n: int)
    requires UnitOk(u, n) && u.alive && -1 <= source < n && expires <= FOREVER
    ensures var v := WithStatus(u, kind, percent, expires, refresh, source);
            && SameFrame(u, v) && UnitOk(v, n) && StatusesSafe(u.statuses, v.statuses)
            && AsView(v) == AsView(u).(hp := v.hp) && (v.hp == u.hp || AffectsMaxHp(kind))
  {
    StatusesWithKeeps(u.statuses, kind, percent, expires, refresh, source, n);
    hide StatusesOk, StatusesSafe, ShieldsOk, DotsOk, RouteOk, TemplateOk, StatusesWith, InArena;
  }

  // ---- Healing ---------------------------------------------------------------------------------

  function StrongestWound(ss: seq<Status>): int {
    if ss == [] then 0
    else
      var last := ss[|ss| - 1];
      var best := StrongestWound(ss[..|ss| - 1]);
      if last.kind == Wound then Max(best, last.percent) else best
  }

  // What a heal restores: amplified, cut by sudden death, reduced by the strongest wound, capped by
  // what is missing. The dead are not healed.
  function Restored(u: FightUnit, healing: int, cut: int): (r: int)
    ensures r >= 0 && (u.hp <= u.maxHp ==> u.hp + r <= u.maxHp)
    ensures !u.alive || healing <= 0 ==> r == 0
  {
    if !u.alive || healing <= 0 then 0
    else
      var amp := StatusPercent(u.statuses, HealingAmp);
      var amplified := if amp != 0 then ApplyPercent(healing, amp) else healing;
      var amount := if cut != 0 then ApplyPercent(amplified, cut) else amplified;
      if amount <= 0 then 0
      else Max(0, Min(Clamp32(amount * (100 - Clamp(StrongestWound(u.statuses), 0, 100)) / 100), u.maxHp - u.hp))
  }

  // Without modifiers a heal restores all it can; a wound of 100% stops every heal.
  lemma HealsWhatIsMissing(u: FightUnit, healing: int, cut: int)
    requires u.alive && u.hp <= u.maxHp && 0 <= healing <= MAX_VALUE
    ensures StatusPercent(u.statuses, HealingAmp) == 0 && StrongestWound(u.statuses) == 0 && cut == 0 ==>
              Restored(u, healing, cut) == Min(healing, u.maxHp - u.hp)
    ensures StrongestWound(u.statuses) >= 100 ==> Restored(u, healing, cut) == 0
  {
  }

  // In between each step rounds down: first the target's healing bonus, then what sudden death leaves, then
  // what the strongest wound leaves -- 60% of it with a wound of 40% --, and never more than is missing.
  lemma HealIsExact(u: FightUnit, healing: int, cut: int, bonus: int, wound: int)
    requires u.alive && u.hp <= u.maxHp && 0 < healing && -100 <= cut <= 0 && -100 <= bonus && 0 <= wound <= 100
    requires bonus == StatusPercent(u.statuses, HealingAmp) && wound == Clamp(StrongestWound(u.statuses), 0, 100)
    requires healing * (100 + bonus) / 100 <= MAX_VALUE
    ensures var amplified := healing * (100 + bonus) / 100;
            var left := amplified * (100 + cut) / 100;
            Restored(u, healing, cut) == Min(left * (100 - wound) / 100, u.maxHp - u.hp)
  {
    var amplified := healing * (100 + bonus) / 100;
    PartOf(healing, 100 + bonus);
    assert ApplyPercent(healing, bonus) == amplified;
    assert bonus == 0 ==> amplified == healing;
    var left := amplified * (100 + cut) / 100;
    PartOf(amplified, 100 + cut);
    assert ApplyPercent(amplified, cut) == left;
    PartOf(left, 100 - wound);
  }

  lemma PartOf(x: int, percent: int)
    requires x >= 0 && percent >= 0
    ensures 0 <= x * percent / 100 && (percent <= 100 ==> x * percent / 100 <= x) && x * 100 / 100 == x
  {
    MulMono(0, x, percent);
    if percent <= 100 {
      MulMono(percent, 100, x);
    }
  }

  // The strongest wound is one of them, and no other is stronger.
  lemma {:induction false} StrongestWoundExact(ss: seq<Status>)
    ensures StrongestWound(ss) >= 0 && forall k | 0 <= k < |ss| && ss[k].kind == Wound :: ss[k].percent <= StrongestWound(ss)
    ensures StrongestWound(ss) > 0 ==> exists k :: 0 <= k < |ss| && ss[k].kind == Wound && ss[k].percent == StrongestWound(ss)
  {
    if ss != [] {
      var init := ss[..|ss| - 1];
      StrongestWoundExact(init);
      assert forall k | 0 <= k < |init| :: init[k] == ss[k];
    }
  }

  lemma HealIsLegal(u: FightUnit, v: FightUnit, e: Event, n: int)
    requires UnitOk(u, n) && u.alive && v == u.(hp := v.hp) && u.hp < v.hp <= u.maxHp
    requires e.Heal? && e.amount == v.hp - u.hp && e.hpAfter == v.hp
    ensures SameFrame(u, v) && UnitOk(v, n) && StatusesSafe(u.statuses, v.statuses)
    ensures IsLocal(e) && LegalLocal(AsView(u), e) && AsView(v) == ApplyLocal(AsView(u), e)
  {
    StatusesUnchanged(u.statuses);
    hide StatusesSafe, StatusesOk, ShieldsOk, DotsOk, TemplateOk, RouteOk;
  }

  function Healed(units: seq<FightUnit>, target: nat, healing: int, cut: int): seq<FightUnit>
    requires target < |units|
  {
    units[target := units[target].(hp := units[target].hp + Restored(units[target], healing, cut))]
  }

  // What a shield effect adds: a refill only up to its cap; amplified and cut like a heal.
  function ShieldGain(u: FightUnit, amount: int, capped: bool, cap: int, cut: int): int {
    if amount <= 0 then 0
    else
      var fitting := if capped then Min(amount, cap - ShieldTotal(u.shields)) else amount;
      if fitting <= 0 then 0
      else
        var amp := StatusPercent(u.statuses, HealingAmp);
        var amplified := if amp != 0 then ApplyPercent(fitting, amp) else fitting;
        if cut != 0 then ApplyPercent(amplified, cut) else amplified
  }

  // Without amplification a refill never takes the shields above its cap.
  lemma RefillStopsAtTheCap(u: FightUnit, amount: int, cap: int, cut: int, expires: int, reduction: int)
    requires StatusPercent(u.statuses, HealingAmp) == 0 && -100 <= cut <= 0
    ensures var gain := ShieldGain(u, amount, true, cap, cut);
            gain > 0 ==> ShieldTotal(u.shields + [Shield(gain, expires, reduction, 0)]) <= cap
  {
    var gain := ShieldGain(u, amount, true, cap, cut);
    if gain > 0 {
      var shields := u.shields + [Shield(gain, expires, reduction, 0)];
      assert shields[..|u.shields|] == u.shields;
      var fitting := Min(amount, cap - ShieldTotal(u.shields));
      MulMono(0, 100 + cut, fitting);
      MulMono(100 + cut, 100, fitting);
    }
  }

  // A channel that is broken off.
  function Interrupted(u: FightUnit, tick: int): FightUnit {
    if u.activeChannelSerial == 0 then u else u.(activeChannelSerial := 0, lockedUntil := Min(u.lockedUntil, tick))
  }

  // Crowd control from another unit bounces off CcImmunity.
  predicate Lands(u: FightUnit, kind: StatusType, selfApplied: bool) {
    !(IsCcStatus(kind) && !selfApplied && HasStatus(u, CcImmunity))
  }

  predicate Breaks(kind: StatusType) {
    kind == Stun || kind == Knockup
  }

  // A unit that has just gained a status: stuns and knock-ups break its channel.
  function Afflicted(v: FightUnit, kind: StatusType, tick: int): FightUnit {
    if Breaks(kind) then Interrupted(v, tick) else v
  }

  // From s to t the one thing that happened to the units is that unit i was given a status -- or it bounced off.
  ghost predicate IsAfflicted(s: FightState, t: FightState, i: int, kind: StatusType, percent: int, expires: int, refresh: bool, source: int,
                              tick: int)
    requires 0 <= i < |s.units|
  {
    var u := s.units[i];
    if Lands(u, kind, i == source) then
      && t.units == s.units[i := Afflicted(WithStatus(u, kind, percent, expires, refresh, source), kind, tick)]
      && t.chan == (if Breaks(kind) then Ended(s.chan, u) else s.chan)
      && t.log == s.log + [StatusApplied(tick, u.id, kind, WithStatus(u, kind, percent, expires, refresh, source).hp)]
                  + if Breaks(kind) && u.activeChannelSerial != 0 then [Note(tick, u.id, SpellInterrupted)] else []
    else t.units == s.units && t.chan == s.chan && t.log == s.log
  }

  lemma Affliction(s: FightState, w: FightState, t: FightState, i: int, kind: StatusType, percent: int, expires: int, refresh: bool, source: int,
                   tick: int, added: bool)
    requires 0 <= i < |s.units| && w.chan == s.chan
    requires added <==> !(IsCcStatus(kind) && i != source && HasStatus(s.units[i], CcImmunity))
    requires w.units == if added then s.units[i := WithStatus(s.units[i], kind, percent, expires, refresh, source)] else s.units
    requires |w.units| == |s.units|
    requires if added && (kind == Stun || kind == Knockup)
             then && t.units == w.units[i := Interrupted(w.units[i], tick)] && t.chan == Ended(w.chan, w.units[i])
                  && t.log == w.log + (if w.units[i].activeChannelSerial != 0 then [Note(tick, t.units[i].id, SpellInterrupted)] else [])
             else t == w
    requires w.log == s.log + if added then [StatusApplied(tick, w.units[i].id, kind, w.units[i].hp)] else []
    ensures IsAfflicted(s, t, i, kind, percent, expires, refresh, source, tick)
  {
    hide StatusesWith, HasStatus, RecomputeMaxHp, Interrupted;
    var v := WithStatus(s.units[i], kind, percent, expires, refresh, source);
    assert v.activeChannelSerial == s.units[i].activeChannelSerial && v.id == s.units[i].id;
    assert Interrupted(v, tick).id == v.id by {
      InterruptedIs(v, tick);
    }
  }

  lemma InterruptedIs(u: FightUnit, tick: int)
    ensures Interrupted(u, tick).id == u.id
  {
  }

  lemma ClampSign(length: int)
    ensures Clamp32(length) > 0 <==> length > 0
  {
  }

  lemma ForeverIsLast(tick: int, length: int)
    requires tick <= MAX_VALUE
    ensures tick + Clamp32(length) <= FOREVER
  {
  }

  // ---- Charges and hooks -----------------------------------------------------------------------

  // A status that is used up is gone; if an aura had granted it, that is remembered.
  function UsedUp(u: FightUnit, k: nat): FightUnit
    requires k < |u.statuses|
  {
    u.(statuses := u.statuses[..k] + u.statuses[k + 1..], used := if u.statuses[k].aura != 0 then u.used + {u.statuses[k].aura} else u.used)
  }

  lemma UsedUpIsRemembered(u: FightUnit, k: nat, n: int)
    requires UnitOk(u, n) && u.alive && k < |u.statuses| && Consumable(u.statuses[k].kind)
    ensures var v := UsedUp(u, k); SameStand(u, v) && UnitOk(v, n) && v.alive && UsesUp(u, v) && AsView(v) == AsView(u)
  {
    hide ShieldsOk, DotsOk, RouteOk, TemplateOk, StatusesOk;
    var ss, tt := u.statuses, UsedUp(u, k).statuses;
    ErasedOk(ss, k, n);
    forall m | 0 <= m < |ss| && m != k
      ensures Carries(tt, ss[m].aura, ss[m].kind)
    {
      assert tt[if m < k then m else m - 1] == ss[m];
    }
    forall m | 0 <= m < |tt|
      ensures Carries(ss, tt[m].aura, tt[m].kind)
    {
      assert tt[m] == ss[if m < k then m else m + 1];
    }
  }

  lemma ErasedOk(ss: seq<Status>, k: nat, n: int)
    requires StatusesOk(ss, n) && k < |ss|
    ensures StatusesOk(ss[..k] + ss[k + 1..], n)
  {
  }

  // The dead carry nothing.
  lemma LivingCarry(u: FightUnit, k: nat, n: int)
    requires UnitOk(u, n) && k < |u.statuses|
    ensures u.alive
  {
  }

  // Ending a status that does not touch HP.
  lemma EndIsSeen(u: FightUnit, v: FightUnit, e: Event, n: int)
    requires UnitOk(u, n) && AsView(v) == AsView(u) && e.StatusEnded? && e.hpAfter == u.hp
    ensures IsLocal(e) && LegalLocal(AsView(u), e) && AsView(v) == ApplyLocal(AsView(u), e)
  {
    hide ShieldsOk, DotsOk, RouteOk, TemplateOk, StatusesOk, ShieldTotal;
  }

  // One EmpoweredAttack charge is spent; a status without charges is used up.
  function ChargeSpent(u: FightUnit): FightUnit {
    var k := FirstOf(u.statuses, EmpoweredAttack, 0);
    if k == |u.statuses| then u
    else if u.statuses[k].percent <= 1 then UsedUp(u, k)
    else u.(statuses := u.statuses[k := u.statuses[k].(percent := u.statuses[k].percent - 1)])
  }

  lemma ChargeIs(u: FightUnit, k: nat)
    requires k == FirstOf(u.statuses, EmpoweredAttack, 0)
    ensures k <= |u.statuses| && (k < |u.statuses| <==> HasStatus(u, EmpoweredAttack)) && (k == |u.statuses| ==> ChargeSpent(u) == u)
    ensures k < |u.statuses| ==>
              && u.statuses[k].kind == EmpoweredAttack && Consumable(EmpoweredAttack) && UsedUp(u, k).id == u.id && UsedUp(u, k).hp == u.hp
              && |UsedUp(u, k).statuses| < |u.statuses|
              && ChargeSpent(u) == if u.statuses[k].percent <= 1 then UsedUp(u, k)
                                   else u.(statuses := u.statuses[k := u.statuses[k].(percent := u.statuses[k].percent - 1)])
  {
    hide FirstOf;
  }

  lemma OneChargeLess(u: FightUnit, k: nat, n: int)
    requires UnitOk(u, n) && k < |u.statuses|
    ensures var v := u.(statuses := u.statuses[k := u.statuses[k].(percent := u.statuses[k].percent - 1)]);
            SameFrame(u, v) && UnitOk(v, n) && StatusesSafe(u.statuses, v.statuses) && AsView(v) == AsView(u)
  {
    var st := u.statuses[k].(percent := u.statuses[k].percent - 1);
    assert u.alive;
    assert st.aura != 0 ==> st.expires == FOREVER;
    UpdateSafe(u.statuses, k, st, n);
    hide StatusesSafe, StatusesOk, ShieldsOk, DotsOk, RouteOk, TemplateOk;
  }

  lemma OnlyCharges(u: FightUnit)
    ensures ChargeSpent(u) == u.(statuses := ChargeSpent(u).statuses, used := ChargeSpent(u).used)
  {
  }

  // Something that listens for events: it acts on every `attackCount`-th one, at most `maxTriggers`
  // times (0: no limit).
  datatype TriggerSlot = TriggerSlot(maxTriggers: int, fired: int, requiresCharge: bool, attackCount: int, counter: int,
                                     effects: seq<Effect>, stopsOnDeath: bool)

  predicate IsCapped(slot: TriggerSlot) {
    slot.maxTriggers > 0 && slot.fired >= slot.maxTriggers
  }

  // One more event it listens for (and pays for).
  function Counted(slot: TriggerSlot): TriggerSlot {
    if IsCapped(slot) then slot
    else if slot.attackCount > 1 && slot.counter + 1 < slot.attackCount then slot.(counter := slot.counter + 1)
    else slot.(counter := if slot.attackCount > 1 then 0 else slot.counter, fired := slot.fired + 1)
  }

  function CountedUp(slot: TriggerSlot, n: nat): TriggerSlot {
    if n == 0 then slot else Counted(CountedUp(slot, n - 1))
  }

  // Every event is accounted for, until the limit is reached.
  lemma {:induction false} CountsEveryEvent(slot: TriggerSlot, n: nat)
    requires slot.attackCount >= 1 && slot.counter == 0 && slot.fired == 0
    ensures var after := CountedUp(slot, n);
            && after == slot.(fired := after.fired, counter := after.counter)
            && 0 <= after.counter < slot.attackCount && after.fired >= 0
            && if IsCapped(after) then after.fired == slot.maxTriggers && after.fired * slot.attackCount <= n
               else after.fired * slot.attackCount + after.counter == n
  {
    if n > 0 {
      CountsEveryEvent(slot, n - 1);
      MulNext(CountedUp(slot, n - 1).fired, slot.attackCount);
    }
  }

  // A hook fires on exactly every attackCount-th event, until it has fired maxTriggers times.
  lemma FiresEveryNth(slot: TriggerSlot, n: nat)
    requires slot.attackCount >= 1 && slot.counter == 0 && slot.fired == 0
    ensures CountedUp(slot, n).fired ==
              if slot.maxTriggers > 0 then Min(n / slot.attackCount, slot.maxTriggers) else n / slot.attackCount
  {
    hide CountedUp;
    CountsEveryEvent(slot, n);
    var after := CountedUp(slot, n);
    if IsCapped(after) {
      DivAtLeast(n, slot.attackCount, after.fired);
    } else {
      DivUnique(n, slot.attackCount, after.fired);
    }
  }

  // ---- Shields ---------------------------------------------------------------------------------

  function BestReduction(shields: seq<Shield>): (r: int)
    ensures r >= 0
    ensures ShieldsOk(shields) ==> r <= 100
  {
    if shields == [] then 0
    else
      var last := shields[|shields| - 1];
      var best := BestReduction(shields[..|shields| - 1]);
      if last.amount > 0 then Max(best, last.reduction) else best
  }

  function Unbroken(shields: seq<Shield>): seq<Shield> {
    if shields == [] then []
    else
      var last := shields[|shields| - 1];
      Unbroken(shields[..|shields| - 1]) + if last.amount <= 0 then [] else [last]
  }

  // One copy of an event for every shield that is used up.
  function EndsOf(shields: seq<Shield>, e: Event): seq<Event> {
    if shields == [] then []
    else EndsOf(shields[..|shields| - 1], e) + if shields[|shields| - 1].amount <= 0 then [e] else []
  }

  // What a hit comes to behind the best shield.
  function Reduced(shields: seq<Shield>, damage: int): (r: int)
    requires ShieldsOk(shields) && damage >= 0
    ensures 0 <= r <= damage
    ensures BestReduction(shields) == 0 ==> r == damage
  {
    var reduction := BestReduction(shields);
    MulMono(0, damage, 100 - reduction);
    MulMono(100 - reduction, 100, damage);
    if reduction > 0 then damage * (100 - reduction) / 100 else damage
  }

  // What a shield makes of a hit: how much it holds afterwards; what it lost it has stored.
  predicate SoakedOne(before: Shield, after: Shield) {
    && 0 <= after.amount <= before.amount
    && after == before.(amount := after.amount, absorbed := before.absorbed + (before.amount - after.amount))
  }

  ghost predicate Soaked(before: seq<Shield>, after: seq<Shield>) {
    && |before| == |after|
    && forall k | 0 <= k < |before| :: SoakedOne(before[k], after[k])
  }

  lemma {:induction false} ShieldTotalNonNegative(shields: seq<Shield>)
    requires forall k | 0 <= k < |shields| :: shields[k].amount >= 0
    ensures ShieldTotal(shields) >= 0
  {
    if shields != [] {
      ShieldTotalNonNegative(shields[..|shields| - 1]);
    }
  }

  lemma UnbrokenKeeps(before: seq<Shield>, after: seq<Shield>)
    requires ShieldsOk(before) && Soaked(before, after)
    ensures ShieldsOk(Unbroken(after)) && ShieldTotal(Unbroken(after)) == ShieldTotal(after)
  {
    hide Unbroken, ShieldTotal;
    forall k | 0 <= k < |after|
      ensures after[k].amount >= 0 && 0 <= after[k].reduction <= 100 && 0 <= after[k].absorbed && after[k].amount + after[k].absorbed <= MAX_VALUE
    {
      assert SoakedOne(before[k], after[k]);
    }
    UnbrokenTotal(after);
  }

  lemma {:induction false} UnbrokenTotal(after: seq<Shield>)
    requires forall k | 0 <= k < |after| ::
               after[k].amount >= 0 && 0 <= after[k].reduction <= 100 && 0 <= after[k].absorbed && after[k].amount + after[k].absorbed <= MAX_VALUE
    ensures ShieldsOk(Unbroken(after)) && ShieldTotal(Unbroken(after)) == ShieldTotal(after)
  {
    if after != [] {
      var a, last := after[..|after| - 1], after[|after| - 1];
      UnbrokenTotal(a);
      if last.amount > 0 {
        assert Unbroken(after)[..|Unbroken(after)| - 1] == Unbroken(a);
      } else {
        assert Unbroken(after) == Unbroken(a);
      }
    }
  }

  // Oldest first: what each shield is left with, and what it has stored by then.
  function SoakUp(shields: seq<Shield>, damage: int): seq<Shield> {
    if shields == [] || damage <= 0 then shields
    else
      var taken := Min(shields[0].amount, damage);
      [shields[0].(amount := shields[0].amount - taken, absorbed := Clamp32(shields[0].absorbed + taken))] + SoakUp(shields[1..], damage - taken)
  }

  function StoredTotal(shields: seq<Shield>): int {
    if shields == [] then 0 else shields[0].absorbed + StoredTotal(shields[1..])
  }

  // The absorbed part of a hit is the drop in total capacity and the rise in stored damage.
  lemma AbsorbedIsStored(shields: seq<Shield>, damage: int)
    requires ShieldsOk(shields) && damage >= 0
    ensures var absorbed := Min(damage, ShieldTotal(shields));
            && ShieldTotal(SoakUp(shields, damage)) == ShieldTotal(shields) - absorbed
            && StoredTotal(SoakUp(shields, damage)) == StoredTotal(shields) + absorbed
            && Soaked(shields, SoakUp(shields, damage))
  {
    hide *;
    SoakTotal(shields, damage);
    SoakStores(shields, damage);
    SoakIsSoaked(shields, damage);
  }

  lemma {:induction false} SoakTotal(shields: seq<Shield>, damage: int)
    requires ShieldsOk(shields) && damage >= 0
    ensures ShieldTotal(SoakUp(shields, damage)) == ShieldTotal(shields) - Min(damage, ShieldTotal(shields))
  {
    hide ShieldTotal;
    ShieldTotalNonNegative(shields);
    NothingTotal();
    if shields != [] && damage > 0 {
      var rest, taken := shields[1..], Min(shields[0].amount, damage);
      SoakTotal(rest, damage - taken);
      assert SoakUp(shields, damage)[1..] == SoakUp(rest, damage - taken);
      TotalFirst(shields);
      TotalFirst(SoakUp(shields, damage));
      ShieldTotalNonNegative(rest);
    }
  }

  // Capacity and stored damage together never change.
  lemma {:induction false} SoakStores(shields: seq<Shield>, damage: int)
    requires ShieldsOk(shields)
    ensures StoredTotal(SoakUp(shields, damage)) + ShieldTotal(SoakUp(shields, damage)) == StoredTotal(shields) + ShieldTotal(shields)
  {
    hide ShieldTotal;
    if shields != [] && damage > 0 {
      var rest, taken := shields[1..], Min(shields[0].amount, damage);
      SoakStores(rest, damage - taken);
      assert SoakUp(shields, damage)[1..] == SoakUp(rest, damage - taken);
      TotalFirst(shields);
      TotalFirst(SoakUp(shields, damage));
    }
  }

  lemma {:induction false} SoakIsSoaked(shields: seq<Shield>, damage: int)
    requires ShieldsOk(shields)
    ensures Soaked(shields, SoakUp(shields, damage))
  {
    if shields != [] && damage > 0 {
      var rest, taken := shields[1..], Min(shields[0].amount, damage);
      SoakIsSoaked(rest, damage - taken);
      var soaked := SoakUp(shields, damage);
      forall k | 0 <= k < |shields|
        ensures SoakedOne(shields[k], soaked[k])
      {
        assert k > 0 ==> shields[k] == rest[k - 1] && soaked[k] == SoakUp(rest, damage - taken)[k - 1];
      }
    }
  }

  lemma TotalFirst(shields: seq<Shield>)
    requires shields != []
    ensures ShieldTotal(shields) == shields[0].amount + ShieldTotal(shields[1..])
  {
    TotalSplit(shields, 1);
    assert shields[..1] == [shields[0]] && [shields[0]][..0] == [];
    assert ShieldTotal([shields[0]]) == ShieldTotal([]) + shields[0].amount;
  }

  lemma SoakStep(shields: seq<Shield>, i: nat, remaining: int)
    requires i < |shields| && remaining > 0
    ensures var taken := Min(shields[i].amount, remaining);
            SoakUp(shields[i..], remaining) ==
              [shields[i].(amount := shields[i].amount - taken, absorbed := Clamp32(shields[i].absorbed + taken))] + SoakUp(shields[i + 1..], remaining - taken)
  {
    assert shields[i..][1..] == shields[i + 1..];
  }

  lemma SoakNothing(shields: seq<Shield>, i: nat, remaining: int)
    requires i <= |shields| && (remaining <= 0 || i == |shields|)
    ensures SoakUp(shields[i..], remaining) == shields[i..]
  {
  }

  // Shields soak a hit up oldest first; the rest is left for HP.
  method Absorb(shields: seq<Shield>, damage: int) returns (after: seq<Shield>, absorbed: int, remaining: int)
    requires ShieldsOk(shields) && damage >= 0
    ensures after == SoakUp(shields, damage) && Soaked(shields, after)
    ensures absorbed + remaining == damage && absorbed == Min(damage, ShieldTotal(shields))
    ensures ShieldTotal(after) == ShieldTotal(shields) - absorbed && StoredTotal(after) == StoredTotal(shields) + absorbed
  {
    hide *;
    after, absorbed, remaining := shields, 0, damage;
    AbsorbedIsStored(shields, damage);
    SoakingBegins(shields, damage);
    var i := 0;
    while i < |after| && remaining > 0
      invariant i <= |after| == |shields| && Soaking(shields, damage, after, i, absorbed, remaining)
    {
      SoakingGoesOn(shields, damage, after, i, absorbed, remaining);
      var taken := Min(after[i].amount, remaining);
      after := after[i := after[i].(amount := after[i].amount - taken, absorbed := Clamp32(after[i].absorbed + taken))];
      remaining := remaining - taken;
      absorbed := absorbed + taken;
      i := i + 1;
    }
    SoakingEnds(shields, damage, after, i, absorbed, remaining);
  }

  // The first i shields have had their turn.
  ghost predicate Soaking(shields: seq<Shield>, damage: int, after: seq<Shield>, i: nat, absorbed: int, remaining: int) {
    && i <= |after| == |shields| && after[i..] == shields[i..]
    && absorbed + remaining == damage && 0 <= absorbed && 0 <= remaining
    && absorbed <= ShieldTotal(shields[..i]) && (remaining > 0 ==> absorbed == ShieldTotal(shields[..i]))
    && SoakUp(shields, damage) == after[..i] + SoakUp(shields[i..], remaining)
  }

  lemma SoakingBegins(shields: seq<Shield>, damage: int)
    requires damage >= 0
    ensures Soaking(shields, damage, shields, 0, 0, damage)
  {
    hide SoakUp;
    assert shields[0..] == shields;
  }

  lemma SoakingGoesOn(shields: seq<Shield>, damage: int, after: seq<Shield>, i: nat, absorbed: int, remaining: int)
    requires ShieldsOk(shields) && Soaking(shields, damage, after, i, absorbed, remaining) && i < |after| && remaining > 0
    ensures var taken := Min(after[i].amount, remaining);
            var soaked := after[i].(amount := after[i].amount - taken, absorbed := Clamp32(after[i].absorbed + taken));
            Soaking(shields, damage, after[i := soaked], i + 1, absorbed + taken, remaining - taken)
  {
    SoakStep(shields, i, remaining);
    TotalNext(shields, i);
    var taken := Min(after[i].amount, remaining);
    var soaked := after[i].(amount := after[i].amount - taken, absorbed := Clamp32(after[i].absorbed + taken));
    assert after[i] == after[i..][0] == shields[i..][0] == shields[i];
    assert shields[i].amount > 0;
    hide ShieldsOk, SoakUp, ShieldTotal, Clamp32;
    SoakedParts(shields, after, i, soaked, SoakUp(shields[i + 1..], remaining - taken));
  }

  // One more shield has had its turn.
  lemma SoakedParts(shields: seq<Shield>, after: seq<Shield>, i: nat, soaked: Shield, rest: seq<Shield>)
    requires i < |after| == |shields| && after[i..] == shields[i..]
    ensures after[i := soaked][..i + 1] == after[..i] + [soaked] && after[i := soaked][i + 1..] == shields[i + 1..]
    ensures after[..i] + ([soaked] + rest) == (after[..i] + [soaked]) + rest
  {
    assert after[i := soaked][i + 1..] == after[i..][1..] == shields[i..][1..] == shields[i + 1..];
  }

  lemma SoakingEnds(shields: seq<Shield>, damage: int, after: seq<Shield>, i: nat, absorbed: int, remaining: int)
    requires ShieldsOk(shields) && Soaking(shields, damage, after, i, absorbed, remaining) && (i == |after| || remaining <= 0)
    ensures after == SoakUp(shields, damage) && absorbed + remaining == damage && absorbed == Min(damage, ShieldTotal(shields))
  {
    TotalSplit(shields, i);
    RestIsNonNegative(shields, i);
    SoakNothing(shields, i, remaining);
    NothingTotal();
    hide SoakUp, ShieldTotal, ShieldsOk;
    assert after == after[..i] + after[i..];
    assert i == |shields| ==> shields[i..] == [];
  }

  lemma RestIsNonNegative(shields: seq<Shield>, i: nat)
    requires ShieldsOk(shields) && i <= |shields|
    ensures ShieldTotal(shields[i..]) >= 0
  {
    ShieldTotalNonNegative(shields[i..]);
  }

  lemma NothingTotal()
    ensures ShieldTotal([]) == 0
  {
  }

  lemma TotalNext(shields: seq<Shield>, i: nat)
    requires i < |shields|
    ensures ShieldTotal(shields[..i + 1]) == ShieldTotal(shields[..i]) + shields[i].amount
  {
    assert shields[..i + 1][..i] == shields[..i];
  }

  lemma {:induction false} TotalSplit(shields: seq<Shield>, i: nat)
    requires i <= |shields|
    ensures ShieldTotal(shields) == ShieldTotal(shields[..i]) + ShieldTotal(shields[i..])
  {
    if i == |shields| {
      assert shields[..i] == shields;
    } else {
      var init := shields[..|shields| - 1];
      TotalSplit(init, i);
      assert init[..i] == shields[..i];
      assert shields[i..][..|shields[i..]| - 1] == init[i..];
    }
  }

  // ---- Expiry ----------------------------------------------------------------------------------

  function LiveStatuses(ss: seq<Status>, tick: int): seq<Status> {
    if ss == [] then []
    else LiveStatuses(ss[..|ss| - 1], tick) + if ss[|ss| - 1].expires > tick then [ss[|ss| - 1]] else []
  }

  function LiveShields(ss: seq<Shield>, tick: int): seq<Shield> {
    if ss == [] then []
    else LiveShields(ss[..|ss| - 1], tick) + if ss[|ss| - 1].expires > tick then [ss[|ss| - 1]] else []
  }

  // A unit after expiry: what had run out is gone, what had not is there, in order; the rest of the
  // unit is as before, except that HP may have been clipped.
  predicate Expired(u: FightUnit, v: FightUnit, tick: int) {
    if !u.alive then v == u
    else v == u.(shields := LiveShields(u.shields, tick), statuses := LiveStatuses(u.statuses, tick), hp := v.hp, maxHp := v.maxHp)
  }

  lemma {:induction false} LiveStatusesErase(ss: seq<Status>, k: nat, tick: int)
    requires k < |ss| && ss[k].expires <= tick
    ensures LiveStatuses(ss[..k] + ss[k + 1..], tick) == LiveStatuses(ss, tick)
  {
    var init := ss[..|ss| - 1];
    if k == |ss| - 1 {
      assert ss[..k] + ss[k + 1..] == init;
    } else {
      var tt := ss[..k] + ss[k + 1..];
      LiveStatusesErase(init, k, tick);
      assert tt[..|tt| - 1] == init[..k] + init[k + 1..];
    }
  }

  lemma {:induction false} LiveStatusesAll(ss: seq<Status>, tick: int)
    requires forall m | 0 <= m < |ss| :: ss[m].expires > tick
    ensures LiveStatuses(ss, tick) == ss
  {
    if ss != [] {
      LiveStatusesAll(ss[..|ss| - 1], tick);
      assert ss == ss[..|ss| - 1] + [ss[|ss| - 1]];
    }
  }

  lemma {:induction false} LiveShieldsErase(ss: seq<Shield>, k: nat, tick: int)
    requires k < |ss| && ss[k].expires <= tick
    ensures LiveShields(ss[..k] + ss[k + 1..], tick) == LiveShields(ss, tick)
  {
    var init := ss[..|ss| - 1];
    if k == |ss| - 1 {
      assert ss[..k] + ss[k + 1..] == init;
    } else {
      var tt := ss[..k] + ss[k + 1..];
      LiveShieldsErase(init, k, tick);
      assert tt[..|tt| - 1] == init[..k] + init[k + 1..];
    }
  }

  lemma {:induction false} LiveShieldsAll(ss: seq<Shield>, tick: int)
    requires forall m | 0 <= m < |ss| :: ss[m].expires > tick
    ensures LiveShields(ss, tick) == ss
  {
    if ss != [] {
      LiveShieldsAll(ss[..|ss| - 1], tick);
      assert ss == ss[..|ss| - 1] + [ss[|ss| - 1]];
    }
  }

  lemma {:induction false} ShieldTotalErase(ss: seq<Shield>, k: nat)
    requires k < |ss|
    ensures ShieldTotal(ss[..k] + ss[k + 1..]) == ShieldTotal(ss) - ss[k].amount
  {
    var init := ss[..|ss| - 1];
    if k == |ss| - 1 {
      assert ss[..k] + ss[k + 1..] == init;
    } else {
      var tt := ss[..k] + ss[k + 1..];
      ShieldTotalErase(init, k);
      assert tt[..|tt| - 1] == init[..k] + init[k + 1..];
    }
  }

  // The unit without its k-th status.
  function Lost(u: FightUnit, k: nat): FightUnit
    requires k < |u.statuses|
  {
    var v := u.(statuses := u.statuses[..k] + u.statuses[k + 1..]);
    if AffectsMaxHp(u.statuses[k].kind) then RecomputeMaxHp(v) else v
  }

  lemma LostKeeps(u: FightUnit, k: nat, n: int)
    requires UnitOk(u, n) && u.alive && k < |u.statuses| && u.statuses[k].aura == 0
    ensures var v := Lost(u, k);
            && SameFrame(u, v) && UnitOk(v, n) && StatusesSafe(u.statuses, v.statuses)
            && AsView(v) == AsView(u).(hp := v.hp) && (v.hp == u.hp || AffectsMaxHp(u.statuses[k].kind))
  {
    EraseSafe(u.statuses, k, n);
    hide StatusesOk, StatusesSafe, ShieldsOk, DotsOk, RouteOk, TemplateOk, InArena;
  }

  lemma LostParts(u: FightUnit, k: nat)
    requires k < |u.statuses|
    ensures OnlyAffliction(u, Lost(u, k)) && Lost(u, k).statuses == u.statuses[..k] + u.statuses[k + 1..]
  {
  }

  // Only the statuses of a unit, and with them its HP, have changed.
  predicate OnlyAffliction(u: FightUnit, v: FightUnit) {
    v == u.(statuses := v.statuses, hp := v.hp, maxHp := v.maxHp)
  }

  // Of the first k statuses none is due (unless it is a max-HP one and those are left for later).
  predicate Checked(ss: seq<Status>, k: nat, tick: int, maxHpToo: bool) {
    k <= |ss| && forall m | 0 <= m < k && ss[m].expires <= tick :: !maxHpToo && AffectsMaxHp(ss[m].kind)
  }

  lemma NothingChecked(ss: seq<Status>, tick: int, maxHpToo: bool)
    ensures Checked(ss, 0, tick, maxHpToo)
  {
  }

  lemma CheckedNext(ss: seq<Status>, k: nat, tick: int, maxHpToo: bool)
    requires Checked(ss, k, tick, maxHpToo) && k < |ss| && !(ss[k].expires <= tick && (maxHpToo || !AffectsMaxHp(ss[k].kind)))
    ensures Checked(ss, k + 1, tick, maxHpToo)
  {
  }

  lemma CheckedErase(ss: seq<Status>, k: nat, tick: int, maxHpToo: bool)
    requires Checked(ss, k, tick, maxHpToo) && k < |ss|
    ensures Checked(ss[..k] + ss[k + 1..], k, tick, maxHpToo)
  {
  }

  lemma AllChecked(ss: seq<Status>, tick: int, maxHpToo: bool)
    requires Checked(ss, |ss|, tick, maxHpToo)
    ensures forall m | 0 <= m < |ss| && ss[m].expires <= tick :: !maxHpToo && AffectsMaxHp(ss[m].kind)
  {
  }

  lemma OnlyAfflictionRefl(u: FightUnit)
    ensures OnlyAffliction(u, u)
  {
  }

  lemma OnlyAfflictionTrans(u: FightUnit, v: FightUnit, w: FightUnit)
    requires OnlyAffliction(u, v) && OnlyAffliction(v, w)
    ensures OnlyAffliction(u, w)
  {
  }

  // Nothing an aura granted ever runs out by itself.
  lemma Untagged(s: FightState, i: nat, k: nat)
    requires Inv(s) && i < |s.units| && k < |s.units[i].statuses| && s.units[i].statuses[k].expires < FOREVER
    ensures s.units[i].statuses[k].aura == 0
  {
    assert UnitOk(s.units[i], |s.units|);
  }

  // A unit that was hit is in order, and the viewer sees the hit.
  lemma StruckOk(u: FightUnit, v: FightUnit, e: Event, after: seq<Shield>, remaining: int, n: int)
    requires UnitOk(u, n) && u.alive && e.Damage? && e.amount >= 0 && e.absorbed + remaining == e.amount
    requires Soaked(u.shields, after) && ShieldTotal(after) == ShieldTotal(u.shields) - e.absorbed && e.absorbed == Min(e.amount, ShieldTotal(u.shields))
    requires v == u.(hp := Max(0, u.hp - remaining), shields := Unbroken(after)) && e.hpAfter == v.hp
    ensures SameFrame(u, v) && UnitOk(v, n) && v.alive && StatusesSafe(u.statuses, v.statuses) && e.hpAfter == Max(0, u.hp - remaining)
    ensures IsLocal(e) && LegalLocal(AsView(u), e) && AsView(v) == ApplyLocal(AsView(u), e) && v.id == u.id
  {
    UnbrokenKeeps(u.shields, after);
    ShieldTotalNonNegative(u.shields);
    StatusesUnchanged(u.statuses);
    HitIsLegal(u, v, e, remaining);
    hide LegalLocal, ApplyLocal, AsView, StatusesSafe, StatusesOk, ShieldsOk, DotsOk, TemplateOk, RouteOk, Unbroken, Soaked, ShieldTotal;
  }

  // A hit on HP and shields as the viewer sees it.
  lemma HitIsLegal(u: FightUnit, v: FightUnit, e: Event, remaining: int)
    requires u.alive && e.Damage? && e.amount >= 0 && e.absorbed + remaining == e.amount && e.hpAfter == v.hp == Max(0, u.hp - remaining)
    requires e.absorbed == Min(e.amount, ShieldTotal(u.shields)) && ShieldTotal(v.shields) == ShieldTotal(u.shields) - e.absorbed
    requires v == u.(hp := v.hp, shields := v.shields)
    ensures IsLocal(e) && LegalLocal(AsView(u), e) && AsView(v) == ApplyLocal(AsView(u), e)
  {
    hide ShieldTotal;
  }

  // ---- Fighters --------------------------------------------------------------------------------

  function MakeUnit(id: UnitId, team: int, isSummon: bool, pos: HexCoord, template: Template, maxHp: int): FightUnit {
    FightUnit(id, team, isSummon, template, pos, maxHp, maxHp, maxHp, true,
              [], [], [], seq(|template.auras|, _ => []),
              -1, [], 0, HexCoord(-1, -1), 0, 0, 0, 0, 0, 0, -1, -1, -1, {})
  }

  predicate Stands(u: FightUnit, x: Spec) {
    u.id == x.id && u.pos == x.pos && u.team == x.team && u.template == x.template && u.alive && !u.isSummon
  }

  lemma MakeUnitOk(id: UnitId, team: int, isSummon: bool, pos: HexCoord, template: Template, maxHp: int, n: int)
    requires 0 <= team <= 1 && InArena(pos) && TemplateOk(template) && maxHp >= 0 && n >= 0
    ensures UnitOk(MakeUnit(id, team, isSummon, pos, template, maxHp), n)
  {
  }

  // What the caller of a fight promises: distinct ids (none of them a summon's), distinct hexes.
  predicate SpecOk(x: Spec) {
    && 0 <= x.team <= 1 && InArena(x.pos) && TemplateOk(x.template)
    && !(SUMMON_UNIT_BASE < x.id <= SUMMON_UNIT_BASE + MAX_SUMMONS_PER_FIGHT)
  }

  predicate Apart(x: Spec, specs: seq<Spec>) {
    forall y | y in specs :: y.id != x.id && y.pos != x.pos
  }

  predicate SpecsOk(specs: seq<Spec>) {
    specs != [] ==> SpecOk(specs[0]) && Apart(specs[0], specs[1..]) && SpecsOk(specs[1..])
  }

  predicate Ascending(specs: seq<Spec>) {
    forall i, j | 0 <= i < j < |specs| :: specs[i].id < specs[j].id
  }

  function InsertById(x: Spec, sorted: seq<Spec>): seq<Spec> {
    if sorted == [] || x.id < sorted[0].id then [x] + sorted else [sorted[0]] + InsertById(x, sorted[1..])
  }

  function SortById(specs: seq<Spec>): seq<Spec> {
    if specs == [] then [] else InsertById(specs[0], SortById(specs[1..]))
  }

  lemma {:induction false} InsertByIdMembers(x: Spec, sorted: seq<Spec>, y: Spec)
    ensures y in InsertById(x, sorted) <==> y == x || y in sorted
  {
    if sorted != [] && x.id >= sorted[0].id {
      InsertByIdMembers(x, sorted[1..], y);
    }
  }

  lemma {:induction false} InsertByIdKeeps(x: Spec, sorted: seq<Spec>)
    requires SpecsOk(sorted) && Ascending(sorted) && SpecOk(x) && Apart(x, sorted)
    ensures SpecsOk(InsertById(x, sorted)) && Ascending(InsertById(x, sorted))
  {
    if sorted != [] && x.id >= sorted[0].id {
      var first, tail := sorted[0], sorted[1..];
      assert first in sorted;
      assert Ascending(tail) by {
        forall i, j | 0 <= i < j < |tail|
          ensures tail[i].id < tail[j].id
        {
          assert sorted[1 + i].id < sorted[1 + j].id;
        }
      }
      InsertByIdKeeps(x, tail);
      forall y | y in InsertById(x, tail)
        ensures y.id > first.id && y.pos != first.pos
      {
        InsertByIdMembers(x, tail, y);
        if y != x {
          var k :| 0 <= k < |tail| && tail[k] == y;
          assert first.id < sorted[1 + k].id;
        }
      }
      ConsAscending(first, InsertById(x, tail));
    } else {
      forall y | y in sorted
        ensures y.id > x.id
      {
        var k :| 0 <= k < |sorted| && sorted[k] == y;
        assert k == 0 || sorted[0].id < sorted[k].id;
      }
      ConsAscending(x, sorted);
    }
  }

  lemma ConsAscending(x: Spec, rest: seq<Spec>)
    requires SpecsOk(rest) && Ascending(rest) && SpecOk(x) && Apart(x, rest) && forall y | y in rest :: y.id > x.id
    ensures SpecsOk([x] + rest) && Ascending([x] + rest)
  {
    assert ([x] + rest)[1..] == rest;
  }

  // The canonical order: the same fighters, ascending by id.
  lemma {:induction false} SortByIdKeeps(specs: seq<Spec>)
    requires SpecsOk(specs)
    ensures var r := SortById(specs); SpecsOk(r) && Ascending(r) && forall y :: y in r <==> y in specs
  {
    if specs != [] {
      var rest := SortById(specs[1..]);
      SortByIdKeeps(specs[1..]);
      InsertByIdKeeps(specs[0], rest);
      forall y
        ensures y in SortById(specs) <==> y in specs
      {
        InsertByIdMembers(specs[0], rest, y);
      }
    }
  }

  lemma {:induction false} SpecsOkAt(specs: seq<Spec>, k: nat)
    requires SpecsOk(specs) && k < |specs|
    ensures SpecOk(specs[k]) && forall i | 0 <= i < k :: specs[i].id != specs[k].id && specs[i].pos != specs[k].pos
  {
    if k > 0 {
      SpecsOkAt(specs[1..], k - 1);
      forall i | 0 <= i < k
        ensures specs[i].id != specs[k].id && specs[i].pos != specs[k].pos
      {
        if i == 0 {
          assert specs[1..][k - 1] in specs[1..];
        } else {
          assert specs[i] == specs[1..][i - 1];
        }
      }
    }
  }

  // ---- Auras -----------------------------------------------------------------------------------

  predicate CanBeAffectedByEnemies(u: FightUnit) {
    !HasStatus(u, Untargetable) && !HasStatus(u, Piloting)
  }

  // Side, radius and life, as an aura's rule asks for them ...
  predicate InReach(units: seq<FightUnit>, i: nat, a: nat, j: int)
    requires i < |units| && a < |units[i].template.auras|
  {
    var aura, holder := units[i].template.auras[a], units[i];
    && 0 <= j < |units| && holder.alive && units[j].alive && Distance(holder.pos, units[j].pos) <= aura.radius
    && match aura.side
       case All => true
       case Enemies => units[j].team != holder.team
       case Allies => units[j].team == holder.team && (j != i || aura.includeSelf)
  }

  // ... and, for an enemy, that it can be reached at all.
  predicate InAura(units: seq<FightUnit>, i: nat, a: nat, j: int)
    requires i < |units| && a < |units[i].template.auras|
  {
    InReach(units, i, a, j) && (units[i].template.auras[a].side == Enemies ==> CanBeAffectedByEnemies(units[j]))
  }

  // The member list of aura (i, a) is right for where the units stand and who lives. (Whether an
  // enemy could be reached at the aura's turn may have changed since.)
  ghost predicate Settled(units: seq<FightUnit>, i: nat, a: nat) {
    && i < |units| && a < |units[i].template.auras| && a < |units[i].auraMembers|
    && (forall j | j in units[i].auraMembers[a] :: InReach(units, i, a, j))
    && (units[i].template.auras[a].side != Enemies ==> forall j | InReach(units, i, a, j) :: j in units[i].auraMembers[a])
  }

  ghost predicate SamePlaces(us: seq<FightUnit>, vs: seq<FightUnit>) {
    |us| == |vs| && forall i | 0 <= i < |us| :: SameFighter(us[i], vs[i]) && us[i].pos == vs[i].pos
  }

  lemma SamePlacesRefl(us: seq<FightUnit>)
    ensures SamePlaces(us, us)
  {
  }

  lemma SamePlacesTrans(us: seq<FightUnit>, vs: seq<FightUnit>, ws: seq<FightUnit>)
    requires SamePlaces(us, vs) && SamePlaces(vs, ws)
    ensures SamePlaces(us, ws)
  {
    forall i | 0 <= i < |us|
      ensures SameFighter(us[i], ws[i]) && us[i].pos == ws[i].pos
    {
      assert SameFighter(us[i], vs[i]) && SameFighter(vs[i], ws[i]);
    }
  }

  ghost predicate SameLists(us: seq<FightUnit>, vs: seq<FightUnit>) {
    |us| == |vs| && forall i | 0 <= i < |us| :: us[i].auraMembers == vs[i].auraMembers
  }

  ghost predicate ListsExcept(us: seq<FightUnit>, vs: seq<FightUnit>, i: nat, a: nat) {
    && |us| == |vs|
    && (forall h | 0 <= h < |us| :: |us[h].auraMembers| == |vs[h].auraMembers|)
    && (forall h, b | 0 <= h < |us| && 0 <= b < |us[h].auraMembers| && (h != i || b != a) :: us[h].auraMembers[b] == vs[h].auraMembers[b])
  }

  lemma SettledStays(us: seq<FightUnit>, vs: seq<FightUnit>, i: nat, a: nat, h: nat, b: nat)
    requires SamePlaces(us, vs) && ListsExcept(us, vs, i, a) && Settled(us, h, b) && (h != i || b != a)
    ensures Settled(vs, h, b)
  {
    ReachSame(us, vs, h, b);
  }

  lemma ReachSame(us: seq<FightUnit>, vs: seq<FightUnit>, i: nat, a: nat)
    requires SamePlaces(us, vs) && i < |us| && a < |us[i].template.auras|
    ensures vs[i].template == us[i].template && forall j :: InReach(us, i, a, j) <==> InReach(vs, i, a, j)
  {
    hide Distance;
    assert SameFighter(us[i], vs[i]);
    forall j | 0 <= j < |us|
      ensures SameFighter(us[j], vs[j]) && us[j].pos == vs[j].pos
    {
    }
  }

  lemma SettledNow(us: seq<FightUnit>, vs: seq<FightUnit>, i: nat, a: nat)
    requires SamePlaces(us, vs) && i < |us| && a < |us[i].template.auras| && a < |vs[i].auraMembers|
    requires forall j :: j in vs[i].auraMembers[a] <==> 0 <= j < |us| && InAura(us, i, a, j)
    ensures Settled(vs, i, a)
  {
    ReachSame(us, vs, i, a);
  }

  lemma InsideLiving(units: seq<FightUnit>, i: nat, a: nat, now: seq<int>)
    requires i < |units| && a < |units[i].template.auras|
    requires forall j :: j in now <==> 0 <= j < |units| && InAura(units, i, a, j)
    ensures forall x | x in now :: 0 <= x < |units| && units[x].alive
  {
  }

  lemma ListsAt(s: FightState, i: nat)
    requires Inv(s) && i < |s.units| && s.members == MembersOf(s.units)
    ensures |s.units[i].auraMembers| == |s.units[i].template.auras| == |s.members[i]|
    ensures forall a, x | 0 <= a < |s.members[i]| && x in s.members[i][a] :: 0 <= x < |s.units|
  {
    assert UnitOk(s.units[i], |s.units|);
    forall a, x | 0 <= a < |s.members[i]| && x in s.members[i][a]
      ensures 0 <= x < |s.units|
    {
      assert MembersOk(s.units, AuraKey(i, a), s.units[i].template.auras[a].status, s.members[i][a]);
    }
  }

  lemma AuraAt(s: FightState, i: nat, a: nat)
    requires Inv(s) && i < |s.units| && a < |s.members[i]|
    ensures a < |s.units[i].template.auras|
  {
  }

  // ---- One aura's turn: the old list `before`, the new one `now`, and the list in between -------

  ghost predicate NoTag(units: seq<FightUnit>, x: int, key: int) {
    0 <= x < |units| && forall k | 0 <= k < |units[x].statuses| :: units[x].statuses[k].aura != key
  }

  // The first `gone` of the old members have been looked at, the first `come` of the new ones.
  ghost predicate Between(units: seq<FightUnit>, list: seq<int>, key: int, before: seq<int>, now: seq<int>, gone: nat, come: nat) {
    && gone <= |before| && come <= |now|
    && (forall x | x in list :: x in before || x in now[..come])
    && (forall x | x in before && x in now :: x in list)
    && (forall m | 0 <= m < gone && before[m] !in now :: NoTag(units, before[m], key))
    && (forall m | 0 <= m < come :: now[m] in list)
  }

  lemma BetweenStart(units: seq<FightUnit>, key: int, before: seq<int>, now: seq<int>)
    ensures Between(units, before, key, before, now, 0, 0)
  {
  }

  lemma BetweenGone(us: seq<FightUnit>, vs: seq<FightUnit>, list: seq<int>, list': seq<int>, key: int, before: seq<int>, now: seq<int>, k: nat)
    requires Between(us, list, key, before, now, k, 0) && k < |before| && before[k] !in now
    requires |us| == |vs| && 0 <= before[k] < |us| && vs == us[before[k] := vs[before[k]]] && NoTag(vs, before[k], key)
    requires forall x | x in list' :: x in list
    requires forall x | x in list && x != before[k] :: x in list'
    ensures Between(vs, list', key, before, now, k + 1, 0)
  {
    forall m | 0 <= m < k + 1 && before[m] !in now
      ensures NoTag(vs, before[m], key)
    {
      assert m < k ==> NoTag(us, before[m], key);
    }
  }

  lemma BetweenStays(units: seq<FightUnit>, list: seq<int>, key: int, before: seq<int>, now: seq<int>, k: nat)
    requires Between(units, list, key, before, now, k, 0) && k < |before| && before[k] in now
    ensures Between(units, list, key, before, now, k + 1, 0)
  {
  }

  lemma BetweenOutside(units: seq<FightUnit>, list: seq<int>, key: int, before: seq<int>, now: seq<int>, k: nat)
    requires Between(units, list, key, before, now, |before|, k) && k < |now| && now[k] !in before
    requires forall x, y | 0 <= x < y < |now| :: now[x] < now[y]
    ensures now[k] !in list
  {
    var j := now[k];
    assert j !in now[..k];
  }

  lemma BetweenCome(us: seq<FightUnit>, vs: seq<FightUnit>, list: seq<int>, list': seq<int>, key: int, before: seq<int>, now: seq<int>, k: nat)
    requires Between(us, list, key, before, now, |before|, k) && k < |now|
    requires |us| == |vs| && 0 <= now[k] < |us| && vs == us[now[k] := vs[now[k]]] && list' == list + [now[k]]
    ensures Between(vs, list', key, before, now, |before|, k + 1)
  {
    assert now[..k + 1] == now[..k] + [now[k]];
    forall m | 0 <= m < |before| && before[m] !in now
      ensures NoTag(vs, before[m], key)
    {
      assert NoTag(us, before[m], key);
    }
  }

  lemma BetweenKept(units: seq<FightUnit>, list: seq<int>, key: int, before: seq<int>, now: seq<int>, k: nat)
    requires Between(units, list, key, before, now, |before|, k) && k < |now| && now[k] in before
    ensures Between(units, list, key, before, now, |before|, k + 1)
  {
    assert now[..k + 1] == now[..k] + [now[k]];
    var j := now[k];
    assert j in before && j in now;
    assert j in list;
    forall m | 0 <= m < k + 1
      ensures now[m] in list
    {
      assert m < k ==> now[m] in list;
    }
  }

  lemma BetweenDone(units: seq<FightUnit>, list: seq<int>, key: int, before: seq<int>, now: seq<int>)
    requires Between(units, list, key, before, now, |before|, |now|)
    ensures forall x | x in now :: x in list
    ensures forall x | x in list && x !in now :: 0 <= x < |units| && forall k | 0 <= k < |units[x].statuses| :: units[x].statuses[k].aura != key
  {
    assert now[..|now|] == now;
    forall x | x in list && x !in now
      ensures NoTag(units, x, key)
    {
      var m :| 0 <= m < |before| && before[m] == x;
      assert before[m] !in now;
    }
  }

  // The state t somewhere inside the turn of aura (i, a) that began in state s: everything holds,
  // with `ms` for the member lists.
  ghost predicate Updating(s: FightState, t: FightState, ms: seq<seq<seq<int>>>, i: nat, a: nat) {
    && SamePlaces(s.units, t.units) && SameLists(s.units, t.units) && Continues(s, t)
    && i < |t.units| && |s.members| == |ms| == |t.units| && a < |s.members[i]| && a < |ms[i]| && a < |t.units[i].auraMembers|
    && ms == WithList(s.members, i, a, ms[i][a]) && Inv(t.(members := ms))
  }

  ghost predicate Shaped(s: FightState, t: FightState, ms: seq<seq<seq<int>>>, i: nat, a: nat) {
    |t.units| == |s.units| == |ms| == |s.members| && i < |ms| && a < |ms[i]| && a < |s.members[i]|
  }

  lemma UpdatingStart(s: FightState, i: nat, a: nat)
    requires Inv(s) && s.members == MembersOf(s.units) && i < |s.units| && a < |s.members[i]|
    ensures Shaped(s, s, s.members, i, a) && Updating(s, s, s.members, i, a)
  {
    hide Inv;
    ListsAt(s, i);
    assert s.(members := s.members) == s;
    assert s.members[i][a := s.members[i][a]] == s.members[i];
    assert WithList(s.members, i, a, s.members[i][a]) == s.members;
    assert |s.members| == |s.units|;
  }

  lemma UpdatingShape(s: FightState, t: FightState, ms: seq<seq<seq<int>>>, i: nat, a: nat)
    requires Updating(s, t, ms, i, a)
    ensures |t.units| == |s.units| == |ms| == |s.members| && i < |ms| && a < |ms[i]| && a < |s.members[i]| && a < |t.units[i].auraMembers|
    ensures Inv(t.(members := ms))
  {
    hide Inv;
  }

  lemma UpdatingParts(s: FightState, t: FightState, ms: seq<seq<seq<int>>>, i: nat, a: nat)
    requires Updating(s, t, ms, i, a)
    ensures Continues(s, t) && SamePlaces(s.units, t.units)
  {
    hide Inv, Continues, SamePlaces;
  }

  lemma UpdatingAlive(s: FightState, t: FightState, ms: seq<seq<seq<int>>>, i: nat, a: nat, j: nat)
    requires Updating(s, t, ms, i, a) && j < |s.units|
    ensures t.units[j].alive == s.units[j].alive
  {
    hide Inv, Continues;
    assert SameFighter(s.units[j], t.units[j]);
  }

  lemma UpdatingStep(s: FightState, t: FightState, ms: seq<seq<seq<int>>>, i: nat, a: nat, j: nat, v: FightUnit, e: Event, list: seq<int>)
    requires Updating(s, t, ms, i, a) && j < |t.units| && SameStand(t.units[j], v)
    requires Inv(t.(units := t.units[j := v], log := t.log + [e], members := WithList(ms, i, a, list)))
    ensures var w := t.(units := t.units[j := v], log := t.log + [e], members := MembersOf(t.units[j := v]));
            Shaped(s, w, WithList(ms, i, a, list), i, a) && Updating(s, w, WithList(ms, i, a, list), i, a) && WithList(ms, i, a, list)[i][a] == list
  {
    hide Inv;
    var w := t.(units := t.units[j := v], log := t.log + [e], members := MembersOf(t.units[j := v]));
    assert w.(members := WithList(ms, i, a, list)) == t.(units := t.units[j := v], log := t.log + [e], members := WithList(ms, i, a, list));
    SoloContinues(t, w, j);
    ContinuesTrans(s, t, w);
    hide Continues;
    assert WithList(ms, i, a, list)[i] == ms[i][a := list] == s.members[i][a := list];
    assert WithList(ms, i, a, list) == WithList(s.members, i, a, list);
    forall x | 0 <= x < |w.units|
      ensures SameFighter(s.units[x], w.units[x]) && s.units[x].pos == w.units[x].pos && s.units[x].auraMembers == w.units[x].auraMembers
    {
      assert SameFighter(s.units[x], t.units[x]);
    }
  }

  lemma UpdatingLists(s: FightState, t: FightState, ms: seq<seq<seq<int>>>, i: nat, a: nat, now: seq<int>)
    requires Updating(s, t, ms, i, a) && s.members == MembersOf(s.units)
    ensures var u := t.units[i].(auraMembers := t.units[i].auraMembers[a := now]);
            MembersOf(t.units[i := u]) == WithList(ms, i, a, now) && ListsExcept(s.units, t.units[i := u], i, a)
  {
    hide Inv, Continues;
    var u := t.units[i].(auraMembers := t.units[i].auraMembers[a := now]);
    assert ms[i][a := now] == s.members[i][a := now] == u.auraMembers;
    forall x | 0 <= x < |ms|
      ensures MembersOf(t.units[i := u])[x] == WithList(ms, i, a, now)[x]
    {
      assert s.units[x].auraMembers == t.units[x].auraMembers;
    }
  }

  function Minus(list: seq<int>, j: int): (r: seq<int>)
    ensures forall x :: x in r <==> x in list && x != j
  {
    if list == [] then [] else (if list[0] == j then [] else [list[0]]) + Minus(list[1..], j)
  }

  function FirstTagged(ss: seq<Status>, key: int, k: nat): (r: nat)
    requires k <= |ss|
    ensures k <= r <= |ss| && (r < |ss| ==> ss[r].aura == key)
    ensures forall m | k <= m < r :: ss[m].aura != key
    decreases |ss| - k
  {
    if k == |ss| || ss[k].aura == key then k else FirstTagged(ss, key, k + 1)
  }

  lemma DeadHaveNone(units: seq<FightUnit>, j: nat, key: int)
    requires j < |units| && UnitOk(units[j], |units|) && !units[j].alive
    ensures NoTag(units, j, key)
  {
  }

  lemma LostOk(u: FightUnit, k: nat, n: int)
    requires UnitOk(u, n) && u.alive && k < |u.statuses|
    ensures var v := Lost(u, k); SameFrame(u, v) && UnitOk(v, n) && v.statuses == u.statuses[..k] + u.statuses[k + 1..]
  {
    hide ShieldsOk, DotsOk, RouteOk, TemplateOk, InArena;
  }

  lemma LostEvent(u: FightUnit, k: nat, e: Event, n: int)
    requires UnitOk(u, n) && u.alive && k < |u.statuses| && UnitOk(Lost(u, k), n)
    requires e.StatusEnded? && e == StatusEnded(e.tick, u.id, u.statuses[k].kind, Lost(u, k).hp)
    ensures IsLocal(e) && e.unit == Lost(u, k).id && LegalLocal(AsView(u), e) && AsView(Lost(u, k)) == ApplyLocal(AsView(u), e)
  {
    hide ShieldsOk, DotsOk, RouteOk, TemplateOk, InArena, StatusesOk;
  }

  // Tags are unique: without the one status that carries a key, nothing carries it.
  lemma LostIsUntagged(u: FightUnit, k: nat, n: int)
    requires UnitOk(u, n) && k < |u.statuses| && u.statuses[k].aura != 0
    ensures forall m | 0 <= m < |Lost(u, k).statuses| :: Lost(u, k).statuses[m].aura != u.statuses[k].aura
  {
    LostParts(u, k);
    hide Lost, ShieldsOk, DotsOk, RouteOk, TemplateOk, InArena;
    forall m | 0 <= m < |Lost(u, k).statuses|
      ensures Lost(u, k).statuses[m].aura != u.statuses[k].aura
    {
      assert Lost(u, k).statuses[m] == u.statuses[if m < k then m else m + 1];
    }
  }

  // The unit with one more status.
  // Joining an aura starts afresh: what was used up of it before is forgotten.
  function Gained(u: FightUnit, st: Status): FightUnit {
    var v := u.(statuses := u.statuses + [st], used := u.used - {st.aura});
    if AffectsMaxHp(st.kind) then RecomputeMaxHp(v) else v
  }

  lemma GainedOk(u: FightUnit, st: Status, e: Event, n: int)
    requires UnitOk(u, n) && u.alive && -1 <= st.source < n && st.expires == FOREVER
    requires forall k | 0 <= k < |u.statuses| :: u.statuses[k].aura != st.aura
    requires e.StatusApplied? && e == StatusApplied(e.tick, u.id, st.kind, Gained(u, st).hp)
    ensures var v := Gained(u, st);
            && SameStand(u, v) && v.used == u.used - {st.aura} && UnitOk(v, n) && v.statuses == u.statuses + [st]
            && IsLocal(e) && e.unit == v.id && LegalLocal(AsView(u), e) && AsView(v) == ApplyLocal(AsView(u), e)
  {
    assert StatusesOk(u.statuses + [st], n);
    hide StatusesOk, ShieldsOk, DotsOk, RouteOk, TemplateOk, InArena;
  }

  // What the member lists are worth: a living unit is on the list of an aura exactly if it carries
  // the aura's status -- unless it has used it up since it joined (`Gained` forgets what was used up
  // before), and only a spell shield, an empowered attack or a seat in a mech can be -- and it carries it once.
  lemma AuraBookkeeping(s: FightState, i: nat, a: nat, j: nat)
    requires Inv(s) && i < |s.units| && a < |s.members[i]| && j < |s.units| && s.units[j].alive
    ensures var key, kind := AuraKey(i, a), s.units[i].template.auras[a].status;
            && (Carries(s.units[j].statuses, key, kind) ==> j in s.members[i][a])
            && (j in s.members[i][a] ==> Carries(s.units[j].statuses, key, kind) || (Consumable(kind) && key in s.units[j].used))
            && (forall k | 0 <= k < |s.units[j].statuses| && s.units[j].statuses[k].aura == key :: s.units[j].statuses[k].kind == kind)
            && (forall k, m | 0 <= k < m < |s.units[j].statuses| && s.units[j].statuses[k].aura == key :: s.units[j].statuses[m].aura != key)
  {
    assert AurasOk(s.units, s.members) && UnitOk(s.units[j], |s.units|);
    hide Inv, UnitsOk, KeyHolder, KeyAura;
    KeyParts(i, a);
    forall k | 0 <= k < |s.units[j].statuses| && s.units[j].statuses[k].aura == AuraKey(i, a)
      ensures j in s.members[i][a] && s.units[j].statuses[k].kind == s.units[i].template.auras[a].status
    {
      assert TagOk(s.units, s.members, j, s.units[j].statuses[k]);
    }
    assert MembersOk(s.units, AuraKey(i, a), s.units[i].template.auras[a].status, s.members[i][a]);
  }

  // After its aura's turn a dead holder has granted nothing that is still there.
  lemma DeadHolderGrantsNothing(s: FightState, i: nat, a: nat, j: nat)
    requires Inv(s) && s.members == MembersOf(s.units) && i < |s.units| && a < |s.members[i]| && j < |s.units|
    requires Settled(s.units, i, a) && !s.units[i].alive
    ensures NoTag(s.units, j, AuraKey(i, a))
  {
    hide Inv, Settled;
    if s.units[j].alive {
      assert j !in s.members[i][a] by {
        if j in s.members[i][a] {
          SettledHolds(s.units, i, a, j);
        }
      }
      OutsiderUntagged(s, i, a, j);
    } else {
      UnitAt(s, j);
      DeadHaveNone(s.units, j, AuraKey(i, a));
    }
  }

  lemma SettledHolds(units: seq<FightUnit>, i: nat, a: nat, j: int)
    requires Settled(units, i, a) && j in units[i].auraMembers[a]
    ensures 0 <= j < |units| && units[i].alive && units[j].alive
  {
    assert InReach(units, i, a, j);
  }

  // ---- Acting ----------------------------------------------------------------------------------

  predicate IsDisabled(u: FightUnit) {
    HasStatus(u, Stun) || HasStatus(u, Knockup) || HasStatus(u, Piloting)
  }

  predicate CanAutoTarget(u: FightUnit) {
    !HasStatus(u, Untargetable) && !HasStatus(u, AggroDrop) && !HasStatus(u, Piloting)
  }

  predicate Candidate(units: seq<FightUnit>, i: nat, j: nat, inRange: bool)
    requires i < |units| && j < |units|
  {
    && units[j].alive && units[j].team != units[i].team && CanAutoTarget(units[j])
    && (inRange ==> Distance(units[i].pos, units[j].pos) <= units[i].template.range)
  }

  // The nearest candidate; of several the one that comes first. -1: there is none.
  ghost predicate Closest(units: seq<FightUnit>, i: nat, inRange: bool, best: int)
    requires i < |units|
  {
    && (best == -1 || (0 <= best < |units| && Candidate(units, i, best, inRange)))
    && forall j | 0 <= j < |units| && Candidate(units, i, j, inRange) ::
         best >= 0 && (Distance(units[i].pos, units[best].pos) < Distance(units[i].pos, units[j].pos)
                       || (Distance(units[i].pos, units[best].pos) == Distance(units[i].pos, units[j].pos) && best <= j))
  }

  predicate Usable(units: seq<FightUnit>, target: int) {
    0 <= target < |units| && units[target].alive && CanAutoTarget(units[target])
  }

  // A target is kept while it can be attacked; one that is out of range gives way to one in range.
  ghost predicate IsTarget(units: seq<FightUnit>, i: nat, target: int)
    requires i < |units|
  {
    var now := units[i].target;
    if !Usable(units, now) then Closest(units, i, false, target)
    else if Distance(units[i].pos, units[now].pos) <= units[i].template.range then target == now
    else (target >= 0 && Closest(units, i, true, target)) || (target == now && Closest(units, i, true, -1))
  }

  // Nobody was hurt or healed, and nobody but (perhaps) unit i has moved.
  ghost predicate ActsAlone(us: seq<FightUnit>, vs: seq<FightUnit>, i: int) {
    && |us| == |vs|
    && forall j | 0 <= j < |us| ::
         && vs[j].id == us[j].id && vs[j].hp == us[j].hp && vs[j].maxHp == us[j].maxHp && vs[j].shields == us[j].shields
         && vs[j].alive == us[j].alive && (j == i || vs[j].pos == us[j].pos)
  }

  ghost predicate Unharmed(us: seq<FightUnit>, vs: seq<FightUnit>) {
    && |us| == |vs|
    && forall j | 0 <= j < |us| ::
         vs[j].hp == us[j].hp && vs[j].maxHp == us[j].maxHp && vs[j].shields == us[j].shields && vs[j].alive == us[j].alive
  }

  lemma UnharmedTwice(us: seq<FightUnit>, vs: seq<FightUnit>, ws: seq<FightUnit>, i: int)
    requires Unharmed(us, vs) && ActsAlone(vs, ws, i)
    ensures Unharmed(us, ws)
  {
  }

  lemma UnharmedNow(us: seq<FightUnit>)
    ensures Unharmed(us, us)
  {
  }

  lemma AloneNow(us: seq<FightUnit>, i: int)
    ensures ActsAlone(us, us, i)
  {
  }

  lemma AloneTwice(us: seq<FightUnit>, vs: seq<FightUnit>, ws: seq<FightUnit>, i: int)
    requires ActsAlone(us, vs, -1) && ActsAlone(vs, ws, i)
    ensures ActsAlone(us, ws, i) && |ws| == |us|
  {
  }

  lemma AloneHooks(us: seq<FightUnit>, vs: seq<FightUnit>)
    requires OnlyStatuses(us, vs)
    ensures ActsAlone(us, vs, -1) && |vs| == |us|
  {
    forall j | 0 <= j < |us|
      ensures vs[j].id == us[j].id && vs[j].hp == us[j].hp && vs[j].maxHp == us[j].maxHp && vs[j].shields == us[j].shields
      ensures vs[j].alive == us[j].alive && vs[j].pos == us[j].pos
    {
      assert vs[j] == us[j].(statuses := vs[j].statuses, used := vs[j].used);
    }
  }

  lemma AloneOne(us: seq<FightUnit>, j: nat, u: FightUnit, i: int)
    requires j < |us| && u.id == us[j].id && u.hp == us[j].hp && u.maxHp == us[j].maxHp && u.shields == us[j].shields && u.alive == us[j].alive
    requires j == i || u.pos == us[j].pos
    ensures ActsAlone(us, us[j := u], i)
  {
  }

  lemma AloneAnyway(us: seq<FightUnit>, vs: seq<FightUnit>, i: int)
    requires ActsAlone(us, vs, -1) || ActsAlone(us, vs, i)
    ensures ActsAlone(us, vs, i)
  {
  }

  lemma OnlyStatusesNow(us: seq<FightUnit>)
    ensures OnlyStatuses(us, us)
  {
  }

  lemma OnlyStatusesAt(us: seq<FightUnit>, vs: seq<FightUnit>, i: int)
    requires OnlyStatuses(us, vs) && 0 <= i < |us|
    ensures |vs| == |us| && vs[i] == us[i].(statuses := vs[i].statuses, used := vs[i].used)
  {
  }

  lemma SameStatuses(u: FightUnit, v: FightUnit, kind: StatusType)
    requires v.statuses == u.statuses
    ensures HasStatus(v, kind) <==> HasStatus(u, kind)
  {
  }

  lemma NeverInPlace(a: HexCoord, b: HexCoord)
    requires Adjacent(a, b)
    ensures a != b
  {
    AdjacentIsDistanceOne(a, b);
    DistanceTriangle(a, b, a);
  }

  lemma InRangeIs(units: seq<FightUnit>, i: nat, target: int)
    requires i < |units| && 0 <= target < |units| && Distance(units[i].pos, units[target].pos) > units[i].template.range
    ensures !Candidate(units, i, target, true)
  {
  }

  lemma AloneAt(us: seq<FightUnit>, vs: seq<FightUnit>, j: int)
    requires ActsAlone(us, vs, -1) && 0 <= j < |us|
    ensures |vs| == |us| && vs[j].pos == us[j].pos && vs[j].id == us[j].id && vs[j].alive == us[j].alive
  {
  }

  lemma OnlyStatusesTwice(us: seq<FightUnit>, vs: seq<FightUnit>, ws: seq<FightUnit>)
    requires OnlyStatuses(us, vs) && OnlyStatuses(vs, ws)
    ensures OnlyStatuses(us, ws)
  {
  }

  // What counting costs the holder.
  lemma ChargesOnly(us: seq<FightUnit>, vs: seq<FightUnit>, slot: TriggerSlot, holder: int)
    requires 0 <= holder < |us| && vs == if IsCapped(slot) || !slot.requiresCharge then us else us[holder := ChargeSpent(us[holder])]
    ensures OnlyStatuses(us, vs) && vs[holder].id == us[holder].id && vs[holder].hp == us[holder].hp
  {
    hide ChargeSpent, IsCapped;
    OnlyCharges(us[holder]);
  }

  lemma SwingKeeps(us: seq<FightUnit>, i: nat, target: int, raw: int, spread: int, interval: int, tick: int, every: int, vs: seq<FightUnit>)
    requires i < |us| && 0 <= target < |us| && every >= 1 && tick >= 0
    requires var ws := us[i := us[i].(nextAttackTick := tick + Max(1, interval))];
             vs == if raw > 0 && spread > 0 && ws[target].alive
                   then ws[target := ws[target].(dots := ws[target].dots + [SpreadDot(i, tick, spread, every, raw)])] else ws
    ensures |vs| == |us| && vs[i].target == us[i].target && vs[i].alive == us[i].alive
  {
    hide SpreadDot;
  }

  lemma CastsGrow(before: seq<CastRecord>, cast: CastRecord, after: seq<CastRecord>)
    requires before + [cast] <= after
    ensures before <= after
  {
  }

  lemma PlainCastTargeted(i: nat, target: int, effects: seq<Effect>, n: int, chan: seq<ChanEvent>)
    requires i < n && -1 <= target < n && EffectsOk(effects)
    ensures CastOk(CastRecord(i, target, effects, false, 0, false, false), n, chan)
  {
    hide EffectsOk;
  }

  lemma PlacesSize(us: seq<FightUnit>, vs: seq<FightUnit>)
    requires SamePlaces(us, vs)
    ensures |us| == |vs|
  {
  }

  lemma TickFits(tick: int)
    requires tick <= MAX_VALUE
    ensures tick < FOREVER
  {
  }

  lemma SameCaster(u: FightUnit, v: FightUnit)
    requires SameFighter(u, v)
    ensures v.template == u.template && v.alive == u.alive
  {
  }

  lemma RouteAt(s: FightState, i: nat)
    requires Inv(s) && i < |s.units|
    ensures s.units[i].pathIndex >= 0 && (s.units[i].pathIndex < |s.units[i].path| ==> InArena(s.units[i].path[s.units[i].pathIndex]))
  {
    hide Inv;
    UnitAt(s, i);
    var u := s.units[i];
    assert RouteOk(u.pos, u.path, u.pathIndex);
    hide UnitOk;
    if u.pathIndex < |u.path| {
      assert RouteStepOk(u.pos, u.path, u.pathIndex, u.pathIndex);
    }
  }

  // A basic attack that arrives in equal parts over `spread` ticks.
  function SpreadDot(source: int, tick: int, spread: int, interval: int, raw: int): Dot
    requires interval >= 1 && spread >= 1 && raw >= 0 && tick >= 0
  {
    NewDot(source, 0, tick, spread, interval, -1, raw, false, Burn, 0)
  }

  // A spread attack deals all of its damage, however the parts are rounded, by the tick it is due.
  lemma SpreadDealsItAll(source: int, tick: int, spread: int, interval: int, raw: int, until: int)
    requires interval >= 1 && spread >= 1 && raw >= 0 && tick >= 0 && tick + spread < until
    ensures var hits := Deliver(SpreadDot(source, tick, spread, interval, raw), tick, until);
            Total(hits) == raw && hits != [] && hits[|hits| - 1].0 == tick + spread
  {
    FreshDotDealsItsTotal(source, 0, tick, spread, interval, raw, false, Burn, 0, until);
  }

  // What a cast declares.
  function Declaration(u: FightUnit, i: nat, target: int, serial: int, onDeath: bool): CastRecord
    requires u.template.ability.Ability?
  {
    var ability := u.template.ability;
    var channeled := !onDeath && ability.channelTicks > 0;
    CastRecord(i, target, ability.effects, ability.stopsOnDeath, if channeled then serial else 0, channeled, false)
  }

  // The caster is locked: for a channel and the tick its finale lands on, or for the cast.
  function Locked(u: FightUnit, tick: int, serial: int, onDeath: bool): FightUnit
    requires u.template.ability.Ability?
  {
    var ability := u.template.ability;
    if onDeath then u
    else if ability.channelTicks > 0 then Channeling(u, ability.channelTicks, tick, serial)
    else if ability.castLockTicks > 0 then
      u.(nextAttackTick := Max(u.nextAttackTick, tick) + ability.castLockTicks, lockedUntil := tick + ability.castLockTicks)
    else u
  }

  function Channeling(u: FightUnit, length: int, tick: int, serial: int): FightUnit {
    u.(lockedUntil := tick + length + 1, nextAttackTick := Max(u.nextAttackTick, tick) + length + 1,
       activeChannelSerial := serial, channelEnd := tick + length)
  }

  lemma DeclarationIsOk(u: FightUnit, i: nat, target: int, serial: int, onDeath: bool, n: int, chan: seq<ChanEvent>)
    requires u.template.ability.Ability? && EffectsOk(u.template.ability.effects) && i < n && -1 <= target < n
    requires !onDeath && u.template.ability.channelTicks > 0 ==> Begin(serial, i) in chan
    ensures CastOk(Declaration(u, i, target, serial, onDeath), n, chan)
  {
    hide EffectsOk;
  }

  lemma LockedIsAlone(us: seq<FightUnit>, i: nat, tick: int, serial: int, onDeath: bool)
    requires i < |us| && us[i].template.ability.Ability?
    ensures ActsAlone(us, us[i := Locked(us[i], tick, serial, onDeath)], -1)
    ensures var u, v := us[i], Locked(us[i], tick, serial, onDeath); v.id == u.id && v.target == u.target && v.alive == u.alive
  {
  }

  // From `start` no free route leads within `range` of the goal.
  ghost predicate NoWay(g: Grid, start: HexCoord, goal: HexCoord, range: int)
    requires g.Valid()
  {
    forall other | IsPath(g, start, other) :: Distance(EndOf(start, other), goal) > range
  }

  lemma PathIsRouteOk(g: Grid, start: HexCoord, path: seq<HexCoord>)
    requires g.Valid() && g.width == ARENA_COLUMNS && g.height == ARENA_ROWS && IsPath(g, start, path)
    ensures RouteOk(start, path, 0)
    ensures path != [] ==> !g.IsBlocked(path[0])
  {
    forall k | 0 <= k < |path|
      ensures RouteStepOk(start, path, 0, k) && !g.IsBlocked(path[k])
    {
      assert StepOk(g, At(start, path, k), path[k]);
    }
  }

  lemma RouteFound(g: Grid, start: HexCoord, goal: HexCoord, range: int, found: bool, path: seq<HexCoord>)
    requires g.Valid() && g.width == ARENA_COLUMNS && g.height == ARENA_ROWS && Distance(start, goal) > range
    requires found ==> IsPath(g, start, path) && Distance(EndOf(start, path), goal) <= range
    requires !found ==> path == []
    requires forall other | IsPath(g, start, other) && Distance(EndOf(start, other), goal) <= range :: found && |path| <= |other|
    ensures RouteOk(start, path, 0)
    ensures found ==> path != [] && !g.IsBlocked(path[0])
    ensures !found ==> NoWay(g, start, goal, range)
  {
    hide Distance;
    if found {
      PathIsRouteOk(g, start, path);
    }
  }

  lemma StepOnRoute(u: FightUnit, next: HexCoord)
    requires RouteOk(u.pos, u.path, u.pathIndex) && u.pathIndex < |u.path| && next == u.path[u.pathIndex]
    ensures InArena(next) && Adjacent(u.pos, next) && RouteOk(next, u.path, u.pathIndex + 1)
  {
    assert RouteStepOk(u.pos, u.path, u.pathIndex, u.pathIndex);
    var index := u.pathIndex + 1;
    forall k | index <= k < |u.path|
      ensures RouteStepOk(next, u.path, index, k)
    {
      assert RouteStepOk(u.pos, u.path, u.pathIndex, k);
    }
  }

  lemma AbilityAt(s: FightState, i: nat)
    requires Inv(s) && i < |s.units|
    ensures s.units[i].template.ability.Ability? ==> EffectsOk(s.units[i].template.ability.effects)
  {
    assert UnitOk(s.units[i], |s.units|);
  }

  // Hooks touch no unit, except that they may use up charges.
  ghost predicate OnlyStatuses(us: seq<FightUnit>, vs: seq<FightUnit>) {
    |us| == |vs| && forall x | 0 <= x < |us| :: vs[x] == us[x].(statuses := vs[x].statuses, used := vs[x].used)
  }

  // ---- Resolving a tick ------------------------------------------------------------------------

  function DueBy(ss: seq<Scheduled>, tick: int): seq<Scheduled> {
    if ss == [] then [] else DueBy(ss[..|ss| - 1], tick) + if ss[|ss| - 1].due <= tick then [ss[|ss| - 1]] else []
  }

  function DueAfter(ss: seq<Scheduled>, tick: int): seq<Scheduled> {
    if ss == [] then [] else DueAfter(ss[..|ss| - 1], tick) + if ss[|ss| - 1].due <= tick then [] else [ss[|ss| - 1]]
  }

  predicate GrantsImmunity(e: Effect) {
    e.payload.StatusEffect? && e.payload.status == CcImmunity
  }

  ghost predicate CastsOk(s: FightState, batch: seq<CastRecord>) {
    forall k | 0 <= k < |batch| :: CastOk(batch[k], |s.units|, s.chan)
  }

  lemma CastsStay(s: FightState, t: FightState, batch: seq<CastRecord>)
    requires Continues(s, t) && CastsOk(s, batch)
    ensures CastsOk(t, batch)
  {
    hide Continues, CastOk;
    forall k | 0 <= k < |batch|
      ensures CastOk(batch[k], |t.units|, t.chan)
    {
      ContinuesCast(s, t, batch[k]);
    }
  }

  lemma CastParts(c: CastRecord, n: int, chan: seq<ChanEvent>)
    requires CastOk(c, n, chan)
    ensures 0 <= c.caster < n && -1 <= c.target < n && EffectsOk(c.effects)
  {
  }

  // A channelled cast whose caster still carries its serial has not been stopped.
  lemma ChannelIsOpen(s: FightState, c: CastRecord)
    requires Inv(s) && CastOk(c, |s.units|, s.chan) && c.channeled && s.units[c.caster].activeChannelSerial == c.serial
    ensures c.serial != 0 && Stop(c.serial) !in s.chan
  {
    assert ChannelsOk(s.units, s.castSerial, s.chan);
    hide Inv;
    var k :| 0 <= k < |s.chan| && s.chan[k] == Begin(c.serial, c.caster);
    assert s.chan[k].serial >= 1;
  }

  // A free hex of the arena at this distance.
  ghost predicate FreeSpot(g: Grid, h: HexCoord, around: HexCoord, ring: int)
    requires g.Valid() && g.width == ARENA_COLUMNS && g.height == ARENA_ROWS
  {
    InArena(h) && !g.IsBlocked(h) && Distance(h, around) == ring
  }

  // No free hex in these rings.
  ghost predicate NoSpot(g: Grid, around: HexCoord, first: int, last: int)
    requires g.Valid() && g.width == ARENA_COLUMNS && g.height == ARENA_ROWS
  {
    forall h: HexCoord, ring: int | first <= ring <= last :: !FreeSpot(g, h, around, ring)
  }

  // Farther from where the unit stood; at equal distance, earlier row by row.
  predicate Beats(a: HexCoord, b: HexCoord, from: HexCoord) {
    var da, db := Distance(a, from), Distance(b, from);
    da > db || (da == db && (a.y < b.y || (a.y == b.y && a.x < b.x)))
  }

  ghost predicate BestOfRing(g: Grid, around: HexCoord, from: HexCoord, ring: int, best: HexCoord)
    requires g.Valid() && g.width == ARENA_COLUMNS && g.height == ARENA_ROWS
  {
    FreeSpot(g, best, around, ring) && forall h | FreeSpot(g, h, around, ring) && h != best :: Beats(best, h, from)
  }

  ghost predicate BestLanding(g: Grid, around: HexCoord, from: HexCoord, best: HexCoord)
    requires g.Valid() && g.width == ARENA_COLUMNS && g.height == ARENA_ROWS
  {
    BestOfRing(g, around, from, 1, best) || (NoSpot(g, around, 1, 1) && BestOfRing(g, around, from, 2, best))
  }

  // Of the cells scanned so far (the rows before y, and row y up to x) `best` is the best free one.
  ghost predicate SoFar(g: Grid, around: HexCoord, from: HexCoord, ring: int, y: int, x: int, found: bool, best: HexCoord)
    requires g.Valid() && g.width == ARENA_COLUMNS && g.height == ARENA_ROWS
  {
    && (found ==> FreeSpot(g, best, around, ring) && Seen(best, y, x))
    && (forall h | FreeSpot(g, h, around, ring) && Seen(h, y, x) :: found && (h == best || Beats(best, h, from)))
  }

  predicate Seen(h: HexCoord, y: int, x: int) {
    h.y < y || (h.y == y && h.x < x)
  }

  lemma NothingSeen(g: Grid, around: HexCoord, from: HexCoord, ring: int, best: HexCoord)
    requires g.Valid() && g.width == ARENA_COLUMNS && g.height == ARENA_ROWS
    ensures SoFar(g, around, from, ring, 0, 0, false, best)
  {
    hide Distance;
  }

  lemma CellSeen(g: Grid, around: HexCoord, from: HexCoord, ring: int, y: int, x: int, found: bool, best: HexCoord, better: bool)
    requires g.Valid() && g.width == ARENA_COLUMNS && g.height == ARENA_ROWS && SoFar(g, around, from, ring, y, x, found, best)
    requires 0 <= x < ARENA_COLUMNS && 0 <= y < ARENA_ROWS
    requires var h := HexCoord(x, y);
             better <==> Distance(h, around) == ring && !g.IsBlocked(h) && (!found || Distance(h, from) > Distance(best, from))
    ensures SoFar(g, around, from, ring, y, x + 1, found || better, if better then HexCoord(x, y) else best)
  {
    hide Distance, Grid.IsBlocked;
    var now := HexCoord(x, y);
    forall h | FreeSpot(g, h, around, ring) && Seen(h, y, x + 1)
      ensures found || better
      ensures var b := if better then now else best; h == b || Beats(b, h, from)
    {
      assert h == now || Seen(h, y, x);
    }
  }

  lemma RowSeen(g: Grid, around: HexCoord, from: HexCoord, ring: int, y: int, found: bool, best: HexCoord)
    requires g.Valid() && g.width == ARENA_COLUMNS && g.height == ARENA_ROWS && SoFar(g, around, from, ring, y, ARENA_COLUMNS, found, best)
    ensures SoFar(g, around, from, ring, y + 1, 0, found, best)
  {
    hide Distance, Grid.IsBlocked, Beats;
    forall h | FreeSpot(g, h, around, ring) && Seen(h, y + 1, 0)
      ensures found && (h == best || Beats(best, h, from))
    {
      assert Seen(h, y, ARENA_COLUMNS);
    }
  }

  lemma AllSeen(g: Grid, around: HexCoord, from: HexCoord, ring: int, found: bool, best: HexCoord)
    requires g.Valid() && g.width == ARENA_COLUMNS && g.height == ARENA_ROWS && SoFar(g, around, from, ring, ARENA_ROWS, 0, found, best)
    ensures if found then BestOfRing(g, around, from, ring, best) else NoSpot(g, around, ring, ring)
  {
    hide Distance, Grid.IsBlocked, Beats;
    forall h | FreeSpot(g, h, around, ring)
      ensures found && (h == best || Beats(best, h, from))
    {
      assert Seen(h, ARENA_ROWS, 0);
    }
  }

  // There is only one best landing hex, so where a dive ends is determined.
  lemma LandingIsDetermined(g: Grid, around: HexCoord, from: HexCoord, a: HexCoord, b: HexCoord)
    requires g.Valid() && g.width == ARENA_COLUMNS && g.height == ARENA_ROWS
    requires BestLanding(g, around, from, a) && BestLanding(g, around, from, b)
    ensures a == b
  {
    hide Distance, FreeSpot;
    if NoSpot(g, around, 1, 1) {
      assert !FreeSpot(g, a, around, 1) && !FreeSpot(g, b, around, 1);
      assert BestOfRing(g, around, from, 2, a) && BestOfRing(g, around, from, 2, b);
    } else {
      assert BestOfRing(g, around, from, 1, a) && BestOfRing(g, around, from, 1, b);
    }
  }

  lemma LandingIsFree(g: Grid, around: HexCoord, from: HexCoord, best: HexCoord)
    requires g.Valid() && g.width == ARENA_COLUMNS && g.height == ARENA_ROWS && BestLanding(g, around, from, best)
    ensures InArena(best) && !g.IsBlocked(best) && 1 <= Distance(best, around) <= 2
  {
    hide Distance;
  }

  // The first free hex, row by row, of the nearest ring that has one.
  ghost predicate NearestFree(g: Grid, center: HexCoord, where: HexCoord)
    requires g.Valid() && g.width == ARENA_COLUMNS && g.height == ARENA_ROWS
  {
    && InArena(where) && !g.IsBlocked(where) && 1 <= Distance(where, center) <= 3
    && (forall h | InArena(h) && 1 <= Distance(h, center) < Distance(where, center) :: g.IsBlocked(h))
    && (forall h | InArena(h) && Distance(h, center) == Distance(where, center) && (h.y < where.y || (h.y == where.y && h.x < where.x)) :: g.IsBlocked(h))
  }

  lemma NearestIsFree(g: Grid, center: HexCoord, where: HexCoord)
    requires g.Valid() && g.width == ARENA_COLUMNS && g.height == ARENA_ROWS && NearestFree(g, center, where)
    ensures InArena(where) && !g.IsBlocked(where)
  {
  }

  lemma BackRowIsInArena(team: int)
    ensures InArena(BoardToArena(BOARD_COLUMNS - 1, 0, if team == 0 then Home else Away))
  {
  }

  lemma PlainCastOk(holder: int, effects: seq<Effect>, n: int, chan: seq<ChanEvent>)
    requires 0 <= holder < n && EffectsOk(effects)
    ensures CastOk(CastRecord(holder, -1, effects, false, 0, false, false), n, chan)
  {
  }

  // Where a push of up to `hexes` hexes ends.
  function Slid(g: Grid, start: HexCoord, direction: nat, hexes: int): HexCoord
    requires g.Valid() && direction < DIRECTIONS
    decreases hexes
  {
    if hexes <= 0 || g.IsBlocked(Neighbor(start, direction)) then start else Slid(g, Neighbor(start, direction), direction, hexes - 1)
  }

  // k steps in one direction.
  function Along(start: HexCoord, direction: nat, k: nat): HexCoord
    requires direction < DIRECTIONS
    decreases k
  {
    if k == 0 then start else Along(Neighbor(start, direction), direction, k - 1)
  }

  // A push is straight: it ends exactly k hexes away, all of them free, and only stops early in front
  // of a hex that is blocked or off the board.
  lemma {:induction false} SlidesStraight(g: Grid, start: HexCoord, direction: nat, hexes: int) returns (k: nat)
    requires g.Valid() && direction < DIRECTIONS
    ensures (k == 0 || k <= hexes) && Slid(g, start, direction, hexes) == Along(start, direction, k)
    ensures forall j: nat | 1 <= j <= k :: !g.IsBlocked(Along(start, direction, j))
    ensures k < hexes ==> g.IsBlocked(Along(start, direction, k + 1))
    ensures Distance(start, Slid(g, start, direction, hexes)) == k
    decreases hexes
  {
    if hexes <= 0 || g.IsBlocked(Neighbor(start, direction)) {
      k := 0;
      assert Along(start, direction, 1) == Along(Neighbor(start, direction), direction, 0);
    } else {
      var next := Neighbor(start, direction);
      var m := SlidesStraight(g, next, direction, hexes - 1);
      k := m + 1;
      forall j: nat | 1 <= j <= k
        ensures !g.IsBlocked(Along(start, direction, j))
      {
        assert Along(start, direction, j) == Along(next, direction, j - 1);
        assert j > 1 ==> 1 <= j - 1 <= m;
      }
      assert Along(start, direction, k + 1) == Along(next, direction, m + 1);
    }
    AlongIsFar(start, direction, k);
  }

  lemma {:induction false} AlongAxial(start: HexCoord, direction: nat, k: nat)
    requires direction < DIRECTIONS
    ensures ToAxial(Along(start, direction, k)) == Axial(ToAxial(start).q + k * AxialStep(direction).0, ToAxial(start).r + k * AxialStep(direction).1)
    decreases k
  {
    hide ToAxial, Neighbor, AxialStep;
    if k > 0 {
      AlongAxial(Neighbor(start, direction), direction, k - 1);
      NeighborIsAxialStep(start, direction);
      var (dq, dr) := AxialStep(direction);
      assert k * dq == dq + (k - 1) * dq && k * dr == dr + (k - 1) * dr;
    }
  }

  lemma AlongIsFar(start: HexCoord, direction: nat, k: nat)
    requires direction < DIRECTIONS
    ensures Distance(start, Along(start, direction, k)) == k
  {
    AlongAxial(start, direction, k);
    DistanceIsNorm(start, Along(start, direction, k));
    hide Along, ToAxial, Distance;
  }

  lemma {:induction false} SlidIsFree(g: Grid, start: HexCoord, direction: nat, hexes: int)
    requires g.Valid() && g.width == ARENA_COLUMNS && g.height == ARENA_ROWS && direction < DIRECTIONS
    ensures var to := Slid(g, start, direction, hexes); to != start ==> InArena(to) && !g.IsBlocked(to)
    decreases hexes
  {
    if hexes > 0 && !g.IsBlocked(Neighbor(start, direction)) {
      SlidIsFree(g, Neighbor(start, direction), direction, hexes - 1);
    }
  }

  // What a summon's first event tells.
  predicate IsSummoning(e: Event, serial: nat, team: int, where: HexCoord, tick: int) {
    e.Spawn? && e == Spawn(tick, SUMMON_UNIT_BASE + serial, team, where, e.maxHp, e.maxHp, true)
  }

  lemma SummoningIs(e: Event, serial: nat, team: int, where: HexCoord, hp: int, tick: int)
    requires e == Spawn(tick, SUMMON_UNIT_BASE + serial, team, where, hp, hp, true)
    ensures IsSummoning(e, serial, team, where, tick)
  {
  }

  // The runs of a delayed effect: `n` of them, an interval apart.
  function Runs(cast: CastRecord, e: Effect, start: int, n: nat): seq<Scheduled> {
    if n == 0 then [] else Runs(cast, e, start, n - 1) + [Scheduled(start + e.delayTicks + (n - 1) * e.repeatIntervalTicks, cast, e)]
  }

  lemma NoRuns(cast: CastRecord, e: Effect, start: int, before: seq<Scheduled>)
    ensures before + Runs(cast, e, start, 0) == before
  {
  }

  lemma OneRunMore(cast: CastRecord, e: Effect, start: int, n: nat, before: seq<Scheduled>, due: int)
    requires due == start + e.delayTicks + n * e.repeatIntervalTicks
    ensures before + Runs(cast, e, start, n + 1) == before + Runs(cast, e, start, n) + [Scheduled(due, cast, e)]
  {
  }

  lemma {:induction false} RunsAreSpaced(cast: CastRecord, e: Effect, start: int, n: nat, k: nat)
    requires k < n
    ensures |Runs(cast, e, start, n)| == n
    ensures Runs(cast, e, start, n)[k] == Scheduled(start + e.delayTicks + k * e.repeatIntervalTicks, cast, e)
  {
    if n == 1 {
      assert Runs(cast, e, start, 0) == [];
    } else {
      RunsAreSpaced(cast, e, start, n - 1, if k < n - 1 then k else 0);
    }
  }

  // Raw damage still to come from a list of stacks, and in a list of hits.
  function RawLeft(dots: seq<Dot>): int {
    if dots == [] then 0 else RawLeft(dots[..|dots| - 1]) + dots[|dots| - 1].remainingRaw
  }

  function RawQueued(made: seq<Hit>): int {
    if made == [] then 0 else RawQueued(made[..|made| - 1]) + made[|made| - 1].raw
  }

  lemma RawLeftNext(dots: seq<Dot>, d: Dot)
    ensures RawLeft(dots + [d]) == RawLeft(dots) + d.remainingRaw
  {
    assert (dots + [d])[..|dots|] == dots;
  }

  lemma RawQueuedNext(made: seq<Hit>, h: Hit)
    ensures RawQueued(made + [h]) == RawQueued(made) + h.raw
  {
    assert (made + [h])[..|made|] == made;
  }

  lemma RawNothing()
    ensures RawLeft([]) == 0 && RawQueued([]) == 0
  {
  }

  ghost predicate HitsIn(made: seq<Hit>, n: int) {
    forall k | 0 <= k < |made| :: 0 <= made[k].source < n && 0 <= made[k].target < n
  }

  ghost predicate Timed(dots: seq<Dot>) {
    forall k | 0 <= k < |dots| :: dots[k].hitsTotal >= 1
  }

  // The stacks after a look at `tick`; what is used up is gone.
  function Stepped(dots: seq<Dot>, tick: int): seq<Dot>
    requires Timed(dots)
  {
    if dots == [] then []
    else
      var d := DotStep(dots[|dots| - 1], tick).0;
      Stepped(dots[..|dots| - 1], tick) + if d.hitsLeft > 0 then [d] else []
  }

  // The hits on unit i that this look makes.
  function DotHits(dots: seq<Dot>, i: int, tick: int): seq<Hit>
    requires Timed(dots)
  {
    if dots == [] then []
    else
      var d, raw := dots[|dots| - 1], DotStep(dots[|dots| - 1], tick).1;
      DotHits(dots[..|dots| - 1], i, tick) + if raw > 0 then [Hit(d.source, i, raw, d.visible, true, d.healPercent)] else []
  }

  // Every bit of raw damage that leaves a stack is in a hit: none is lost and none is made.
  lemma {:induction false} NoDotIsLost(dots: seq<Dot>, i: nat, tick: int, n: int)
    requires DotsOk(dots, n)
    ensures Timed(dots) && RawLeft(Stepped(dots, tick)) + RawQueued(DotHits(dots, i, tick)) == RawLeft(dots)
  {
    hide DotOk, RawLeft, RawQueued, DotStep;
    RawNothing();
    AllTimed(dots, n);
    if dots != [] {
      var init, d := dots[..|dots| - 1], dots[|dots| - 1];
      NoDotIsLost(init, i, tick, n);
      DotStepKeeps(d, tick);
      LastHitTakesAll(d, tick);
      var (d', raw) := DotStep(d, tick);
      RawLeftNext(init, d);
      assert init + [d] == dots;
      RawQueuedNext(DotHits(init, i, tick), Hit(d.source, i, raw, d.visible, true, d.healPercent));
      RawLeftNext(Stepped(init, tick), d');
      assert raw == 0 ==> DotHits(dots, i, tick) == DotHits(init, i, tick);
      assert d'.hitsLeft == 0 ==> Stepped(dots, tick) == Stepped(init, tick);
    }
  }

  lemma AllTimed(dots: seq<Dot>, n: int)
    requires DotsOk(dots, n)
    ensures Timed(dots)
  {
    forall k | 0 <= k < |dots|
      ensures dots[k].hitsTotal >= 1
    {
      DotParts(dots[k]);
    }
  }

  lemma {:induction false} SteppedKeeps(dots: seq<Dot>, i: nat, tick: int, n: int)
    requires DotsOk(dots, n) && i < n
    ensures Timed(dots) && DotsOk(Stepped(dots, tick), n) && HitsIn(DotHits(dots, i, tick), n)
  {
    hide DotOk, DotStep;
    AllTimed(dots, n);
    if dots != [] {
      var init, d := dots[..|dots| - 1], dots[|dots| - 1];
      SteppedKeeps(init, i, tick, n);
      DotStepKeeps(d, tick);
      LastHitTakesAll(d, tick);
      var made := DotHits(init, i, tick);
      assert 0 <= d.source < n;
      forall k | 0 <= k < |DotHits(dots, i, tick)|
        ensures 0 <= DotHits(dots, i, tick)[k].source < n && DotHits(dots, i, tick)[k].target < n
      {
        assert k < |made| ==> DotHits(dots, i, tick)[k] == made[k];
      }
    }
  }

  // Every hit is a real one on unit i, and a stack that is not due stays as it is.
  lemma {:induction false} OnlyDueStacksHit(dots: seq<Dot>, i: nat, tick: int)
    requires Timed(dots)
    ensures forall k | 0 <= k < |DotHits(dots, i, tick)| ::
              DotHits(dots, i, tick)[k].target == i && DotHits(dots, i, tick)[k].isDot && DotHits(dots, i, tick)[k].raw > 0
    ensures (forall k | 0 <= k < |dots| :: tick < dots[k].nextTick && dots[k].hitsLeft > 0) ==>
              Stepped(dots, tick) == dots && DotHits(dots, i, tick) == []
  {
    if dots != [] {
      OnlyDueStacksHit(dots[..|dots| - 1], i, tick);
    }
  }

  // One look at every stack of unit i.
  method StepDots(dots: seq<Dot>, i: nat, tick: int) returns (after: seq<Dot>, made: seq<Hit>)
    requires Timed(dots)
    ensures after == Stepped(dots, tick) && made == DotHits(dots, i, tick)
  {
    hide DotStep, Stepped, DotHits;
    StepNothing(i, tick);
    assert dots[..0] == [];
    after, made := [], [];
    for k := 0 to |dots|
      invariant after == Stepped(dots[..k], tick) && made == DotHits(dots[..k], i, tick)
    {
      var d := dots[k];
      StepNext(dots, k, i, tick);
      var (d', raw) := DotStep(d, tick);
      if raw > 0 {
        made := made + [Hit(d.source, i, raw, d.visible, true, d.healPercent)];
      }
      if d'.hitsLeft > 0 {
        after := after + [d'];
      }
    }
    assert dots[..|dots|] == dots;
  }

  lemma StepNothing(i: nat, tick: int)
    ensures Stepped([], tick) == [] && DotHits([], i, tick) == []
  {
  }

  lemma StepNext(dots: seq<Dot>, k: nat, i: nat, tick: int)
    requires Timed(dots) && k < |dots|
    ensures var (d', raw) := DotStep(dots[k], tick);
            && Stepped(dots[..k + 1], tick) == Stepped(dots[..k], tick) + (if d'.hitsLeft > 0 then [d'] else [])
            && DotHits(dots[..k + 1], i, tick) == DotHits(dots[..k], i, tick) +
                 if raw > 0 then [Hit(dots[k].source, i, raw, dots[k].visible, true, dots[k].healPercent)] else []
  {
    hide DotStep;
    assert dots[..k + 1][..k] == dots[..k];
  }

  ghost predicate IsStepped(u: FightUnit, v: FightUnit, tick: int) {
    Timed(u.dots) && v == if u.alive then u.(dots := Stepped(u.dots, tick)) else u
  }

  // The first n units have had their look.
  ghost predicate SteppedUpTo(us: seq<FightUnit>, vs: seq<FightUnit>, n: nat, tick: int) {
    && |us| == |vs|
    && (forall x | 0 <= x < n && x < |us| :: IsStepped(us[x], vs[x], tick))
    && (forall x | n <= x < |us| :: vs[x] == us[x])
  }

  lemma NoneStepped(us: seq<FightUnit>, tick: int)
    ensures SteppedUpTo(us, us, 0, tick) && AllDotHits(us, 0, tick) == []
  {
  }

  lemma OneStepped(us: seq<FightUnit>, vs: seq<FightUnit>, ws: seq<FightUnit>, i: nat, tick: int)
    requires SteppedUpTo(us, vs, i, tick) && i < |vs| && Timed(vs[i].dots)
    requires ws == vs[i := vs[i].(dots := if vs[i].alive then Stepped(vs[i].dots, tick) else vs[i].dots)]
    ensures SteppedUpTo(us, ws, i + 1, tick) && vs[i] == us[i]
    ensures i < |us| && AllDotHits(us, i + 1, tick) == AllDotHits(us, i, tick) + if vs[i].alive then DotHits(vs[i].dots, i, tick) else []
  {
    hide Stepped, DotHits;
    assert vs[i] == us[i];
  }

  lemma AllStepped(us: seq<FightUnit>, vs: seq<FightUnit>, tick: int)
    requires SteppedUpTo(us, vs, |us|, tick)
    ensures |us| == |vs| && forall i | 0 <= i < |us| :: IsStepped(us[i], vs[i], tick)
  {
    hide IsStepped;
  }

  // The hits that come due on the first n units.
  ghost function AllDotHits(units: seq<FightUnit>, n: nat, tick: int): seq<Hit>
    requires n <= |units|
  {
    if n == 0 then []
    else
      var u := units[n - 1];
      AllDotHits(units, n - 1, tick) + if u.alive && Timed(u.dots) then DotHits(u.dots, n - 1, tick) else []
  }

  lemma {:induction false} NothingRunsOut(dots: seq<Dot>, n: nat, tick: int, u: FightUnit)
    requires n <= |STATUS_ORDER|
    ensures RunOut(dots, dots, n, tick, u) == []
  {
    if n > 0 {
      hide Visual;
      NothingRunsOut(dots, n - 1, tick, u);
    }
  }

  lemma {:induction false} SameEnds(before: seq<Dot>, after: seq<Dot>, n: nat, tick: int, u: FightUnit, v: FightUnit)
    requires n <= |STATUS_ORDER| && u.id == v.id && u.hp == v.hp
    ensures RunOut(before, after, n, tick, u) == RunOut(before, after, n, tick, v)
  {
    if n > 0 {
      hide Visual;
      SameEnds(before, after, n - 1, tick, u, v);
    }
  }

  // The kinds of visible stacks that have run out, of the first n kinds.
  function RunOut(before: seq<Dot>, after: seq<Dot>, n: nat, tick: int, u: FightUnit): seq<Event>
    requires n <= |STATUS_ORDER|
  {
    if n == 0 then []
    else RunOut(before, after, n - 1, tick, u) +
         if Visual(before, STATUS_ORDER[n - 1]) && !Visual(after, STATUS_ORDER[n - 1]) then [StatusEnded(tick, u.id, STATUS_ORDER[n - 1], u.hp)] else []
  }

  lemma DotParts(d: Dot)
    requires DotOk(d)
    ensures d.hitsTotal >= 1 && d.hitsLeft >= 1 && d.nextTick >= 0
  {
  }

  lemma LastHitTakesAll(d: Dot, tick: int)
    requires DotOk(d)
    ensures var (d', raw) := DotStep(d, tick);
            && d'.source == d.source && d'.hitsLeft >= 0 && (d'.hitsLeft == 0 ==> d'.remainingRaw == 0)
            && (tick < d.nextTick ==> d' == d && raw == 0)
  {
  }

  predicate Visual(dots: seq<Dot>, kind: StatusType) {
    exists k | 0 <= k < |dots| :: dots[k].visible && dots[k].visual == kind
  }

  // The kinds of status in the order of their numbers.
  const STATUS_ORDER: seq<StatusType> := [
    Stun, Burn, AttackDamage, AttackSpeed, Armor, MagicResist, MaxHp, Wound, InflictsWound, DamageAmp,
    Root, Knockup, CcImmunity, DamageTakenRegen, BonusAttackDamage, Tether, Untargetable, AggroDrop,
    BonusArmor, BonusMagicResist, BonusMaxHp, BonusAbilityDamage, BonusCritChance, AbilityCrit, CritDamage,
    CritDamageTakenReduction, BonusManaRegen, AbilityPower, SpellShield, Blind, DamageTaken, BonusMaxMana,
    ExecuteBelow, HpPerSecond, EmpoweredAttack, Poison, Bleed, Drain, ManaCost, HealingAmp, Omnivamp,
    Awakened, Piloting]

  lemma DotsAt(s: FightState, i: nat)
    requires Inv(s) && i < |s.units|
    ensures DotsOk(s.units[i].dots, |s.units|)
  {
    assert UnitOk(s.units[i], |s.units|);
  }

  // The end of something that never touched HP: the viewer's picture stays.
  lemma EndedIsQuiet(s: FightState, i: nat, kind: StatusType, tick: int)
    requires Inv(s) && i < |s.units| && s.units[i].alive
    ensures var e := StatusEnded(tick, s.units[i].id, kind, s.units[i].hp);
            Legal(Replay(s.log), e) && Apply(Replay(s.log), e) == Replay(s.log)
  {
    hide Inv, Legal, Apply;
    HpAt(s, i);
    QuietEvent(s, i, StatusEnded(tick, s.units[i].id, kind, s.units[i].hp));
  }

  lemma StatusSources(s: FightState, i: nat)
    requires Inv(s) && i < |s.units|
    ensures forall k | 0 <= k < |s.units[i].statuses| :: -1 <= s.units[i].statuses[k].source < |s.units|
  {
    assert UnitOk(s.units[i], |s.units|);
  }

  lemma SourceStays(s: FightState, t: FightState, st: Status)
    requires Continues(s, t) && -1 <= st.source < |s.units|
    ensures -1 <= st.source < |t.units|
  {
  }

  lemma AmountNonNegative(s: FightState, i: nat, percent: int)
    requires Inv(s) && i < |s.units|
    ensures Clamp32(s.units[i].maxHp * Abs(percent) / 100) >= 0
  {
    UnitAt(s, i);
    hide Inv;
    MulMono(0, s.units[i].maxHp, Abs(percent));
  }

  // The strongest ExecuteBelow, in percent of maximum HP; 0 if there is none.
  function Threshold(ss: seq<Status>): (r: int)
    ensures r >= 0
  {
    if ss == [] then 0
    else
      var rest := Threshold(ss[..|ss| - 1]);
      if ss[|ss| - 1].kind == ExecuteBelow then Max(rest, ss[|ss| - 1].percent) else rest
  }

  // Whoever applied the strongest ExecuteBelow (of equals, the first).
  function ExecuteSource(ss: seq<Status>, self: int): int {
    if ss == [] then self
    else
      var init, last := ss[..|ss| - 1], ss[|ss| - 1];
      if last.kind == ExecuteBelow && last.percent > Threshold(init) then (if last.source >= 0 then last.source else self)
      else ExecuteSource(init, self)
  }

  // No ExecuteBelow is stronger, and its first bearer of that strength says who executes.
  lemma {:induction false} ExecuterExact(ss: seq<Status>, self: int)
    ensures forall k | 0 <= k < |ss| && ss[k].kind == ExecuteBelow :: ss[k].percent <= Threshold(ss)
    ensures if Threshold(ss) == 0 then ExecuteSource(ss, self) == self
            else exists k :: FirstStrongest(ss, k) && ExecuteSource(ss, self) == if ss[k].source >= 0 then ss[k].source else self
  {
    if ss != [] {
      var n := |ss| - 1;
      var init := ss[..n];
      ExecuterExact(init, self);
      if ss[n].kind == ExecuteBelow && ss[n].percent > Threshold(init) {
        assert forall k | 0 <= k < n :: init[k] == ss[k];
        assert FirstStrongest(ss, n);
      } else if Threshold(init) > 0 {
        var k :| FirstStrongest(init, k) && ExecuteSource(init, self) == if init[k].source >= 0 then init[k].source else self;
        assert FirstStrongest(ss, k);
      }
    }
  }

  predicate FirstStrongest(ss: seq<Status>, k: int) {
    && 0 <= k < |ss| && ss[k].kind == ExecuteBelow && ss[k].percent == Threshold(ss)
    && forall m | 0 <= m < k :: ss[m].kind != ExecuteBelow || ss[m].percent < ss[k].percent
  }

  lemma ExecutionIsLegal(u: FightUnit, e: Event, n: int)
    requires UnitOk(u, n) && u.alive && u.hp > 0 && e.Damage? && e.amount == u.hp && e.absorbed == 0 && e.hpAfter == 0
    ensures var v := u.(hp := 0);
            && SameFrame(u, v) && UnitOk(v, n) && StatusesSafe(u.statuses, v.statuses)
            && IsLocal(e) && LegalLocal(AsView(u), e) && AsView(v) == ApplyLocal(AsView(u), e)
  {
    StatusesUnchanged(u.statuses);
    hide StatusesSafe, StatusesOk, ShieldsOk, DotsOk, TemplateOk, RouteOk, ShieldTotal;
  }

  lemma {:induction false} ExecuteSourceIs(ss: seq<Status>, self: int, n: int)
    requires 0 <= self < n && forall k | 0 <= k < |ss| :: -1 <= ss[k].source < n
    ensures 0 <= ExecuteSource(ss, self) < n
  {
    if ss != [] {
      ExecuteSourceIs(ss[..|ss| - 1], self, n);
    }
  }

  // Timers that are running are shortened.
  function Hurried(u: FightUnit, tick: int, factor: int): FightUnit
    requires factor >= 1
  {
    u.(nextAttackTick := tick + Max(0, u.nextAttackTick - tick) / factor,
       nextMoveTick := tick + Max(0, u.nextMoveTick - tick) / factor)
  }

  // In overtime nothing is due later than it was, and nothing is due in the past.
  lemma HurriedIsSooner(u: FightUnit, tick: int, factor: int)
    requires factor >= 1
    ensures var v := Hurried(u, tick, factor);
            && tick <= v.nextAttackTick <= Max(tick, u.nextAttackTick)
            && tick <= v.nextMoveTick <= Max(tick, u.nextMoveTick)
  {
    forall t: int
      ensures 0 <= Max(0, t) / factor <= Max(0, t)
    {
      MulMono(1, factor, Max(0, t));
      DivAtLeast(Max(0, t), factor, 0);
      DivAtMost(Max(0, t), factor, Max(0, t));
    }
  }

  // What even a death leaves in place: who fought for whom, and history; nobody comes back.
  predicate SameOrFallen(u: FightUnit, v: FightUnit) {
    v.id == u.id && v.team == u.team && v.isSummon == u.isSummon && v.template == u.template && (v.alive ==> u.alive)
  }

  ghost predicate Advances(s: FightState, t: FightState) {
    && |s.units| <= |t.units|
    && (forall i | 0 <= i < |s.units| :: SameOrFallen(s.units[i], t.units[i]))
    && s.log <= t.log && s.chan <= t.chan && s.summonsSpawned <= t.summonsSpawned
  }

  lemma AdvancesTrans(s: FightState, t: FightState, w: FightState)
    requires Advances(s, t) && Advances(t, w)
    ensures Advances(s, w)
  {
    forall i | 0 <= i < |s.units|
      ensures SameOrFallen(s.units[i], w.units[i])
    {
      assert SameOrFallen(s.units[i], t.units[i]) && SameOrFallen(t.units[i], w.units[i]);
    }
  }

  lemma ContinuesAdvances(s: FightState, t: FightState)
    requires Continues(s, t)
    ensures Advances(s, t)
  {
    forall i | 0 <= i < |s.units|
      ensures SameOrFallen(s.units[i], t.units[i])
    {
      assert SameFighter(s.units[i], t.units[i]);
    }
  }

  lemma AdvancesContinues(s: FightState, t: FightState, w: FightState)
    requires Advances(s, t) && Continues(t, w)
    ensures Advances(s, w)
  {
    ContinuesAdvances(t, w);
    AdvancesTrans(s, t, w);
  }

  lemma AdvancesRefl(s: FightState)
    ensures Advances(s, s)
  {
  }

  lemma MembersSame(units: seq<FightUnit>, i: nat, u: FightUnit)
    requires i < |units| && u.auraMembers == units[i].auraMembers
    ensures MembersOf(units[i := u]) == MembersOf(units)
  {
  }

  lemma AdvancesDeath(s: FightState, t: FightState, i: nat)
    requires i < |s.units| && t.units == s.units[i := Fallen(s.units[i])]
    requires s.log <= t.log && s.chan <= t.chan && s.summonsSpawned <= t.summonsSpawned
    ensures Advances(s, t)
  {
  }

  lemma StaysDead(s: FightState, t: FightState)
    requires Advances(s, t)
    ensures |s.units| <= |t.units| && forall i | 0 <= i < |s.units| && !s.units[i].alive :: !t.units[i].alive
  {
    forall i | 0 <= i < |s.units| && !s.units[i].alive
      ensures !t.units[i].alive
    {
      assert SameOrFallen(s.units[i], t.units[i]);
    }
  }

  lemma AllFallen(us: seq<FightUnit>, vs: seq<FightUnit>)
    requires |us| == |vs| && forall i | 0 <= i < |us| :: vs[i] == if us[i].alive && us[i].hp == 0 then Fallen(us[i]) else us[i]
    ensures forall i | 0 <= i < |us| && us[i].hp == 0 :: !vs[i].alive
  {
  }

  lemma StillUnits(s: FightState, t: FightState, list: seq<int>)
    requires Continues(s, t) && AllUnits(s, list)
    ensures AllUnits(t, list)
  {
  }

  // A pilot back in the fight, with nothing to do before the next tick.
  function ClimbedOut(u: FightUnit, tick: int): FightUnit {
    u.(statuses := WithoutKind(u.statuses, Piloting), used := u.used + (set st | st in u.statuses && st.kind == Piloting && st.aura != 0 :: st.aura), target := -1, path := [], pathIndex := 0,
       nextAttackTick := Max(u.nextAttackTick, tick + 1), nextMoveTick := Max(u.nextMoveTick, tick + 1))
  }

  ghost predicate AllUnits(s: FightState, list: seq<int>) {
    forall k | 0 <= k < |list| :: 0 <= list[k] < |s.units|
  }

  lemma EndedGrows(chan: seq<ChanEvent>, u: FightUnit)
    ensures chan <= Ended(chan, u)
  {
  }

  lemma FallenMembers(u: FightUnit)
    ensures Fallen(u).auraMembers == u.auraMembers
  {
  }

  lemma UnitsIn(s: FightState, list: seq<int>)
    requires forall k | 0 <= k < |list| :: 0 <= list[k] < |s.units|
    ensures AllUnits(s, list)
  {
  }

  lemma ContinuesLength(s: FightState, t: FightState)
    requires Continues(s, t)
    ensures |s.units| <= |t.units|
  {
  }

  lemma HpAt(s: FightState, i: nat)
    requires Inv(s) && i < |s.units|
    ensures 0 <= s.units[i].hp <= s.units[i].maxHp
  {
    assert UnitOk(s.units[i], |s.units|);
  }

  lemma PilotAt(s: FightState, i: nat)
    requires Inv(s) && i < |s.units|
    ensures -1 <= s.units[i].pilot < |s.units| && -1 <= s.units[i].mech < |s.units|
  {
    assert UnitOk(s.units[i], |s.units|);
  }

  lemma KillerAt(s: FightState, i: nat)
    requires Inv(s) && i < |s.units|
    ensures -1 <= s.units[i].killer < |s.units|
  {
    assert UnitOk(s.units[i], |s.units|);
  }

  lemma CountersAt(s: FightState)
    requires Inv(s)
    ensures |s.alive| == |s.summonAlive| == 2
    ensures s.grid.Valid() && s.grid.width == ARENA_COLUMNS && s.grid.height == ARENA_ROWS
  {
  }

  function WithoutKind(ss: seq<Status>, kind: StatusType): (r: seq<Status>)
    ensures forall s :: s in r <==> s in ss && s.kind != kind
  {
    if ss == [] then []
    else WithoutKind(ss[..|ss| - 1], kind) + if ss[|ss| - 1].kind == kind then [] else [ss[|ss| - 1]]
  }

  lemma WithoutKindSafe(u: FightUnit, kind: StatusType, tick: int, n: int)
    requires UnitOk(u, n) && u.alive && kind == Piloting
    ensures var v := ClimbedOut(u, tick); SameStand(u, v) && UnitOk(v, n) && v.alive && UsesUp(u, v) && AsView(v) == AsView(u) && !HasStatus(v, kind)
  {
    hide ShieldsOk, DotsOk, TemplateOk, StatusesOk;
    WithoutKindUnique(u.statuses, kind, n);
    var v, ss := ClimbedOut(u, tick), u.statuses;
    var r := v.statuses;
    forall k | 0 <= k < |r|
      ensures r[k] in ss && r[k].kind != kind && Carries(ss, r[k].aura, r[k].kind)
    {
      assert r[k] in r;
    }
    forall k | 0 <= k < |ss| && ss[k].aura != 0
      ensures Carries(r, ss[k].aura, ss[k].kind) || (ss[k].kind == kind && ss[k].aura in v.used)
    {
      assert ss[k].kind != kind ==> ss[k] in r;
    }
  }

  lemma {:induction false} WithoutKindUnique(ss: seq<Status>, kind: StatusType, n: int)
    requires StatusesOk(ss, n)
    ensures StatusesOk(WithoutKind(ss, kind), n)
  {
    if ss != [] {
      var init, last := ss[..|ss| - 1], ss[|ss| - 1];
      WithoutKindUnique(init, kind, n);
      var r := WithoutKind(init, kind);
      forall k | 0 <= k < |r|
        ensures r[k].aura != 0 ==> r[k].aura != last.aura
      {
        assert r[k] in r;
        assert r[k] in init;
      }
    }
  }

  // ---- Beginning and end -----------------------------------------------------------------------

  const MAX_ECHOES := 8

  datatype Winner = Draw | Victory(team: int)

  // The first n stats of an item, as permanent statuses.
  function Geared(u: FightUnit, values: seq<int>, n: nat, i: int): FightUnit
    requires n <= |values| == |ITEM_STATS|
  {
    if n == 0 then u
    else
      var v := Geared(u, values, n - 1, i);
      if values[n - 1] != 0 then WithStatus(v, ITEM_STATS[n - 1], values[n - 1], FOREVER, false, i) else v
  }

  // The first n items of a unit.
  function GearedUp(u: FightUnit, gear: seq<seq<int>>, n: nat, i: int): FightUnit
    requires n <= |gear| && forall k | 0 <= k < |gear| :: |gear[k]| == |ITEM_STATS|
  {
    if n == 0 then u else Geared(GearedUp(u, gear, n - 1, i), gear[n - 1], |ITEM_STATS|, i)
  }

  lemma OneItemMore(u: FightUnit, gear: seq<seq<int>>, n: nat, i: int)
    requires n < |gear| && forall k | 0 <= k < |gear| :: |gear[k]| == |ITEM_STATS|
    ensures GearedUp(u, gear, 0, i) == u && GearedUp(u, gear, n + 1, i) == Geared(GearedUp(u, gear, n, i), gear[n], |ITEM_STATS|, i)
  {
    hide Geared;
  }

  lemma NoItems(u: FightUnit, gear: seq<seq<int>>, i: int)
    requires forall k | 0 <= k < |gear| :: |gear[k]| == |ITEM_STATS|
    ensures GearedUp(u, gear, 0, i) == u
  {
  }

  // Every stat that an item has is there as a status of the unit's own, and for good.
  lemma {:induction false} GearedHas(u: FightUnit, values: seq<int>, n: nat, i: int, k: nat)
    requires n <= |values| == |ITEM_STATS| && k < n && values[k] != 0
    ensures exists m :: 0 <= m < |Geared(u, values, n, i).statuses| && Geared(u, values, n, i).statuses[m] == Status(ITEM_STATS[k], values[k], FOREVER, i, 0)
  {
    hide *;
    OneStatMore(u, values, n, i);
    var v, w := Geared(u, values, n - 1, i), Geared(u, values, n, i);
    if k == n - 1 {
      assert w.statuses[|v.statuses|] == Status(ITEM_STATS[k], values[k], FOREVER, i, 0);
    } else {
      GearedHas(u, values, n - 1, i, k);
      var m :| 0 <= m < |v.statuses| && v.statuses[m] == Status(ITEM_STATS[k], values[k], FOREVER, i, 0);
      assert w.statuses[m] == v.statuses[m];
    }
  }

  lemma OneStatMore(u: FightUnit, values: seq<int>, n: nat, i: int)
    requires 0 < n <= |values| == |ITEM_STATS|
    ensures Geared(u, values, n, i).statuses ==
            Geared(u, values, n - 1, i).statuses + if values[n - 1] != 0 then [Status(ITEM_STATS[n - 1], values[n - 1], FOREVER, i, 0)] else []
  {
    NotWounds(n - 1);
    hide Geared;
    WithPlainStatus(Geared(u, values, n - 1, i), ITEM_STATS[n - 1], values[n - 1], i);
  }

  lemma WithPlainStatus(u: FightUnit, kind: StatusType, percent: int, source: int)
    requires kind != Wound
    ensures WithStatus(u, kind, percent, FOREVER, false, source).statuses == u.statuses + [Status(kind, percent, FOREVER, source, 0)]
  {
  }

  lemma NotWounds(k: nat)
    requires k < |ITEM_STATS|
    ensures ITEM_STATS[k] != Wound
  {
  }

  lemma GearAt(s: FightState, i: nat)
    requires Inv(s) && i < |s.units|
    ensures forall k | 0 <= k < |s.units[i].template.gear| :: |s.units[i].template.gear[k]| == |ITEM_STATS|
  {
    hide Inv;
    UnitAt(s, i);
  }

  // What a team's surviving fighters have left, summons aside.
  function TotalHp(units: seq<FightUnit>, team: int): int {
    if units == [] then 0
    else
      var u := units[|units| - 1];
      TotalHp(units[..|units| - 1], team) + if u.alive && !u.isSummon && u.team == team then u.hp else 0
  }

  // A fighter nothing has happened to.
  predicate Rested(u: FightUnit) {
    u.alive && !u.isSummon && u.hp == u.maxHp && u.shields == []
  }

  function SpawnOf(u: FightUnit): Event {
    Spawn(0, u.id, u.team, u.pos, u.maxHp, u.hp, false)
  }

  lemma NothingLogged(units: seq<FightUnit>)
    ensures LogOk(units[..0], [])
  {
  }

  lemma AnnounceOne(s: FightState, k: nat, log: seq<Event>)
    requires Lineup(s) && k < |s.units| && LogOk(s.units[..k], log)
    requires forall i | 0 <= i < |s.units| :: Rested(s.units[i])
    ensures LogOk(s.units[..k + 1], log + [SpawnOf(s.units[k])])
  {
    var u, us := s.units[k], s.units[..k];
    StillVacant(s, k, Replay(log));
    assert UnitOk(u, |s.units|);
    hide Lineup, Vacant;
    ReplayAppend(log, SpawnOf(u));
    AnnounceAgrees(us, u, Replay(log), Apply(Replay(log), SpawnOf(u)));
    assert s.units[..k + 1] == us + [u];
  }

  lemma StillVacant(s: FightState, k: nat, v: View)
    requires Lineup(s) && k < |s.units| && Agrees(s.units[..k], v)
    requires forall i | 0 <= i < |s.units| :: Rested(s.units[i])
    ensures s.units[k].id !in v && Vacant(v, s.units[k].pos)
  {
    var u, us := s.units[k], s.units[..k];
    assert GridOk(s.units, s.grid) && IdsOk(s.units, s.summonsSpawned) && UnitOk(u, |s.units|);
    hide Lineup;
    forall id | id in v
      ensures id != u.id && (v[id].alive ==> v[id].pos != u.pos)
    {
      assert KnownId(us, id);
      var i :| 0 <= i < |us| && us[i].id == id;
      assert s.units[i] == us[i];
    }
  }

  lemma AllAnnounced(s: FightState, log: seq<Event>)
    requires Lineup(s) && LogOk(s.units, log)
    ensures Inv(s.(log := log))
  {
    QueuesKept(s, s.(log := log));
    hide UnitsOk, IdsOk, LogOk, GridOk, CountsOk, AurasOk, ChannelsOk, QueuesOk;
  }

  lemma AnnounceAgrees(us: seq<FightUnit>, u: FightUnit, v: View, v': View)
    requires Agrees(us, v) && u.id !in v && v' == v[u.id := AsView(u)]
    ensures Agrees(us + [u], v')
  {
    var vs := us + [u];
    assert vs[|us|].id == u.id;
    forall id | id in v'
      ensures KnownId(vs, id)
    {
      if id != u.id {
        assert KnownId(us, id);
        var k :| 0 <= k < |us| && us[k].id == id;
        assert vs[k].id == id;
      }
    }
  }

  predicate CanPilot(units: seq<FightUnit>, i: nat, j: nat)
    requires i < |units| && j < |units|
  {
    var p, mech := units[j], units[i];
    && j != i && p.team == mech.team && p.alive && !p.isSummon && !p.template.plant && !p.template.pilots && p.mech < 0
    && p.pos == HexCoord(mech.pos.x, mech.pos.y + if mech.team == 0 then -1 else 1)
  }

  // What a viewer can see is in order: the log, the hexes, the counters.
  ghost predicate Standing(s: FightState) {
    && LogOk(s.units, s.log) && IdsOk(s.units, s.summonsSpawned) && GridOk(s.units, s.grid)
    && CountsOk(s.units, s.alive, s.summonAlive)
    && forall i | 0 <= i < |s.units| :: 0 <= s.units[i].team <= 1 && 0 <= s.units[i].hp <= s.units[i].maxHp
  }

  lemma StandingAtEnd(s: FightState)
    requires Inv(s)
    ensures Standing(s) && s.grid.Valid() && s.grid.width == ARENA_COLUMNS && s.grid.height == ARENA_ROWS
  {
    forall i | 0 <= i < |s.units|
      ensures 0 <= s.units[i].team <= 1 && 0 <= s.units[i].hp <= s.units[i].maxHp
    {
      assert UnitOk(s.units[i], |s.units|);
    }
  }

  lemma StandingParts(s: FightState)
    requires Standing(s)
    ensures |s.alive| == |s.summonAlive| == 2 && s.alive[0] >= 0 && s.alive[1] >= 0
    ensures LegalLog(s.log) && Agrees(s.units, Replay(s.log))
  {
  }

  lemma StandingTeam(s: FightState, i: nat)
    requires Standing(s) && i < |s.units|
    ensures 0 <= s.units[i].team <= 1
  {
  }

  lemma AliveAt(s: FightState)
    requires Inv(s)
    ensures |s.alive| == 2 && s.alive[0] >= 0 && s.alive[1] >= 0
  {
  }

  lemma ChannelsAt(s: FightState)
    requires Inv(s)
    ensures StoppedStaysStopped(s.chan)
  {
  }

  lemma AdvancesAll(s: FightState, t: FightState)
    requires Advances(s, t)
    ensures |s.units| <= |t.units| && forall i | 0 <= i < |s.units| :: SameOrFallen(s.units[i], t.units[i])
  {
  }

  function Vanished(u: FightUnit): FightUnit {
    u.(alive := false, hp := 0)
  }

  lemma VanishedAll(us: seq<FightUnit>, vs: seq<FightUnit>, ws: seq<FightUnit>)
    requires |us| <= |vs| == |ws| && forall i | 0 <= i < |us| :: SameOrFallen(us[i], vs[i])
    requires forall i | 0 <= i < |ws| :: ws[i] == if vs[i].isSummon && vs[i].alive then Vanished(vs[i]) else vs[i]
    ensures forall i | 0 <= i < |us| :: SameOrFallen(us[i], ws[i])
  {
  }

  lemma VanishStep(s: FightState, i: nat, g: Grid, e: Event)
    requires Standing(s) && i < |s.units| && s.units[i].alive && s.units[i].isSummon
    requires s.grid.Valid() && g.Valid() && g.width == s.grid.width && g.height == s.grid.height
    requires forall h | InArena(h) :: g.IsBlocked(h) == if h == s.units[i].pos then false else s.grid.IsBlocked(h)
    requires e.Death? && e.unit == s.units[i].id && e.summon
    ensures Standing(s.(units := s.units[i := Vanished(s.units[i])], members := MembersOf(s.units[i := Vanished(s.units[i])]), grid := g,
                        log := s.log + [e], summonAlive := Fewer(s.summonAlive, s.units[i].team, true)))
  {
    hide LogOk, CountsOk, GridOk, IdsOk;
    var u := s.units[i];
    assert IdsOk(s.units[i := Vanished(u)], s.summonsSpawned) by {
      VanishIds(s.units, i, s.summonsSpawned);
    }
    VanishLog(s.units, s.log, i, e, s.summonsSpawned);
    VanishCounts(s.units, s.alive, s.summonAlive, i);
    GridAfterDeath(s.units, s.grid, i, Vanished(u), g);
  }

  lemma VanishIds(units: seq<FightUnit>, i: nat, n: nat)
    requires IdsOk(units, n) && i < |units|
    ensures IdsOk(units[i := Vanished(units[i])], n)
  {
  }

  lemma VanishLog(units: seq<FightUnit>, log: seq<Event>, i: nat, e: Event, n: nat)
    requires LogOk(units, log) && IdsOk(units, n) && i < |units| && units[i].alive && units[i].isSummon
    requires e.Death? && e.unit == units[i].id && e.summon
    ensures LogOk(units[i := Vanished(units[i])], log + [e])
  {
    var v := Replay(log);
    ReplayAppend(log, e);
    assert v[units[i].id] == AsView(units[i]);
    AgreesKept(units, v, i, Vanished(units[i]), Apply(v, e));
  }

  lemma VanishCounts(units: seq<FightUnit>, alive: seq<int>, summonAlive: seq<int>, i: nat)
    requires CountsOk(units, alive, summonAlive) && i < |units| && units[i].alive && units[i].isSummon && 0 <= units[i].team <= 1
    ensures CountsOk(units[i := Vanished(units[i])], alive, Fewer(summonAlive, units[i].team, true))
  {
    var u := units[i];
    forall t: int, b: bool
      ensures CountLiving(units[i := Vanished(u)], t, b) == CountLiving(units, t, b) - Contribution(u, t, b)
    {
      CountChanged(units, i, Vanished(u), t, b);
    }
  }

  // ---- What the invariant says about one unit, one list, one step -------------------------------

  ghost predicate LiveTargets(s: FightState, ts: seq<int>) {
    forall k | 0 <= k < |ts| :: 0 <= ts[k] < |s.units| && s.units[ts[k]].alive
  }

  // The next tick of the running visible stacks of an ability; -1 if there are none.
  function NextOf(dots: seq<Dot>, key: int): int {
    if dots == [] then -1
    else
      var last := dots[|dots| - 1];
      var next := NextOf(dots[..|dots| - 1], key);
      if last.visible && last.key == key && last.hitsLeft > 0 then (if next < 0 then last.nextTick else Min(next, last.nextTick)) else next
  }

  function Without(dots: seq<Dot>, key: int): seq<Dot> {
    if dots == [] then []
    else
      var last := dots[|dots| - 1];
      Without(dots[..|dots| - 1], key) + if last.visible && last.key == key then [] else [last]
  }

  lemma {:induction false} WithoutKeeps(dots: seq<Dot>, key: int, n: int)
    requires DotsOk(dots, n)
    ensures DotsOk(Without(dots, key), n)
  {
    if dots != [] {
      WithoutKeeps(dots[..|dots| - 1], key, n);
    }
  }

  // A new stack; one that refreshes replaces the running ones of its ability and keeps their rhythm.
  function Burned(u: FightUnit, source: int, e: Payload, duration: int, total: int, tick: int): FightUnit
    requires e.DotEffect? && e.intervalTicks >= 1 && duration >= 1 && total >= 0 && tick >= 0
  {
    var inherited := if e.refreshesDot then NextOf(u.dots, e.key) else -1;
    var kept := if e.refreshesDot then Without(u.dots, e.key) else u.dots;
    u.(dots := kept + [NewDot(source, e.key, tick, duration, e.intervalTicks, inherited, total, true, e.visual, e.healPercent)])
  }

  // Unit i was set on fire -- and wounded, if whoever did it inflicts wounds.
  ghost predicate IsBurned(us: seq<FightUnit>, vs: seq<FightUnit>, i: int, source: int, e: Payload, duration: int, total: int, tick: int)
    requires 0 <= i < |us| && 0 <= source < |us| && e.DotEffect?
  {
    && e.intervalTicks >= 1 && duration >= 1 && total >= 0 && tick >= 0
    && var wound := StatusPercent(us[source].statuses, InflictsWound);
       var u := Burned(us[i], source, e, duration, total, tick);
       vs == us[i := if wound > 0 then WithStatus(u, Wound, wound, tick + duration, false, -1) else u]
  }

  lemma BurnedIs(us: seq<FightUnit>, ws: seq<FightUnit>, vs: seq<FightUnit>, i: int, source: int, e: Payload, duration: int, total: int, tick: int)
    requires 0 <= i < |us| && 0 <= source < |us| && e.DotEffect? && e.intervalTicks >= 1 && duration >= 1 && total >= 0 && tick >= 0
    requires ws == us[i := Burned(us[i], source, e, duration, total, tick)] && |ws| == |us|
    requires var wound := StatusPercent(ws[source].statuses, InflictsWound);
             vs == if wound > 0 then ws[i := WithStatus(ws[i], Wound, wound, tick + duration, false, -1)] else ws
    ensures IsBurned(us, vs, i, source, e, duration, total, tick)
  {
    hide StatusPercent, StatusesWith, RecomputeMaxHp, NewDot, NextOf, Without;
    assert ws[source].statuses == us[source].statuses;
  }

  lemma WoundIsNoCc()
    ensures !IsCcStatus(Wound)
  {
  }

  // However often it is refreshed, a stack's next hit never moves: a fast attacker cannot keep it from
  // ever dealing damage.
  lemma RefreshKeepsTheRhythm(u: FightUnit, source: int, e: Payload, duration: int, total: int, tick: int, n: int)
    requires UnitOk(u, n) && e.DotEffect? && e.intervalTicks >= 1 && duration >= 1 && total >= 0 && tick >= 0 && e.refreshesDot
    ensures var v := Burned(u, source, e, duration, total, tick);
            && Running(v.dots, e.key) == 1
            && NextOf(v.dots, e.key) == if Running(u.dots, e.key) > 0 then NextOf(u.dots, e.key) else tick + duration / HitCount(duration, e.intervalTicks)
  {
    hide StatusesOk, ShieldsOk, RouteOk, TemplateOk;
    var v := Burned(u, source, e, duration, total, tick);
    var kept, last := Without(u.dots, e.key), v.dots[|v.dots| - 1];
    NoneRunning(u.dots, e.key);
    NextIsReal(u.dots, e.key, n);
    assert v.dots[..|v.dots| - 1] == kept;
    hide DotOk;
    assert DotOk(last);
    DotParts(last);
  }

  // Some stack is running exactly if there is a next hit.
  lemma {:induction false} NextIsReal(dots: seq<Dot>, key: int, n: int)
    requires DotsOk(dots, n)
    ensures NextOf(dots, key) >= -1 && (NextOf(dots, key) >= 0 <==> Running(dots, key) > 0)
  {
    if dots != [] {
      NextIsReal(dots[..|dots| - 1], key, n);
      assert DotOk(dots[|dots| - 1]);
      hide DotOk;
      DotParts(dots[|dots| - 1]);
    }
  }

  // How many visible stacks of an ability are running.
  function Running(dots: seq<Dot>, key: int): nat {
    if dots == [] then 0
    else Running(dots[..|dots| - 1], key) + if dots[|dots| - 1].visible && dots[|dots| - 1].key == key then 1 else 0
  }

  lemma {:induction false} NoneRunning(dots: seq<Dot>, key: int)
    ensures Running(Without(dots, key), key) == 0 && NextOf(Without(dots, key), key) == -1
  {
    if dots != [] {
      var init, last := dots[..|dots| - 1], dots[|dots| - 1];
      NoneRunning(init, key);
      var r := Without(init, key);
      if last.visible && last.key == key {
        assert Without(dots, key) == r;
      } else {
        assert Without(dots, key) == r + [last];
        assert (r + [last])[..|r|] == r;
      }
    }
  }

  lemma SpawnedBound(s: FightState)
    requires Inv(s)
    ensures s.summonsSpawned <= MAX_SUMMONS_PER_FIGHT
  {
  }

  lemma ContinuesSpawned(s: FightState, t: FightState)
    requires Continues(s, t)
    ensures |s.units| <= |t.units| && s.summonsSpawned <= t.summonsSpawned
  {
  }

  lemma ContinuesCast(s: FightState, t: FightState, c: CastRecord)
    requires Continues(s, t) && CastOk(c, |s.units|, s.chan)
    ensures CastOk(c, |t.units|, t.chan)
  {
  }

  lemma ContinuesSpawn(s: FightState, t: FightState, u: FightUnit)
    requires t.units == s.units + [u] && s.log <= t.log && s.chan <= t.chan && s.summonsSpawned <= t.summonsSpawned
    ensures Continues(s, t)
  {
  }

  lemma PassivesCast(c: CastRecord, n: int, chan: seq<ChanEvent>)
    requires 0 <= c.caster < n && c.target == -1 && !c.channeled && EffectsOk(c.effects)
    ensures CastOk(c, n, chan)
  {
  }

  lemma TicksFit()
    ensures 0 <= MAX_VALUE
  {
  }

  lemma EffectAt(es: seq<Effect>, k: nat)
    requires EffectsOk(es) && k < |es|
    ensures EffectOk(es[k])
  {
  }

  lemma PayloadIs(e: Effect)
    requires EffectOk(e)
    ensures EffectOk(Effect(e.payload, 0, 1, 0, false))
  {
  }

  lemma TargetsIn(s: FightState, ts: seq<int>)
    requires LiveTargets(s, ts)
    ensures forall k | 0 <= k < |ts| :: 0 <= ts[k] < |s.units| && s.units[ts[k]].alive
  {
  }

  lemma PassivesAt(s: FightState, i: nat)
    requires Inv(s) && i < |s.units|
    ensures EffectsOk(s.units[i].template.passives)
  {
    assert UnitOk(s.units[i], |s.units|);
  }

  lemma TargetAt(s: FightState, i: nat)
    requires Inv(s) && i < |s.units|
    ensures -1 <= s.units[i].target < |s.units|
  {
    assert UnitOk(s.units[i], |s.units|);
  }

  lemma TeamAt(s: FightState, i: nat)
    requires Inv(s) && i < |s.units|
    ensures 0 <= s.units[i].team <= 1
  {
    assert UnitOk(s.units[i], |s.units|);
  }

  // ---- Hits --------------------------------------------------------------------------------------

  // A Damage event at position k of the log: what is left of `resolved` behind the best shield; shields
  // absorb what they can hold and HP takes the rest, down to 0.
  ghost predicate IsHitOn(units: seq<FightUnit>, log: seq<Event>, k: nat, victim: int, attacker: int, resolved: int, tick: int)
    requires 0 <= victim < |units| && 0 <= attacker < |units|
  {
    var u := units[victim];
    && ShieldsOk(u.shields) && resolved >= 0 && k < |log|
    && var damage := Reduced(u.shields, resolved);
       var absorbed := Min(damage, ShieldTotal(u.shields));
       log[k] == Damage(tick, u.id, units[attacker].id, damage, absorbed, Max(0, u.hp - (damage - absorbed)))
  }

  lemma ReducedIs(shields: seq<Shield>, damage: int)
    requires ShieldsOk(shields) && damage >= 0
    ensures var reduction := BestReduction(shields);
            Reduced(shields, damage) == (if reduction > 0 then damage * (100 - reduction) / 100 else damage) >= 0
  {
  }

  lemma HitIs(units: seq<FightUnit>, log: seq<Event>, k: nat, victim: int, attacker: int, resolved: int, tick: int)
    requires 0 <= victim < |units| && 0 <= attacker < |units| && ShieldsOk(units[victim].shields) && resolved >= 0 && k < |log|
    requires var u := units[victim];
             var damage := Reduced(u.shields, resolved);
             var absorbed := Min(damage, ShieldTotal(u.shields));
             log[k] == Damage(tick, u.id, units[attacker].id, damage, absorbed, Max(0, u.hp - (damage - absorbed)))
    ensures IsHitOn(units, log, k, victim, attacker, resolved, tick)
  {
  }

  lemma HitStays(units: seq<FightUnit>, log: seq<Event>, log': seq<Event>, k: nat, victim: int, attacker: int, resolved: int, tick: int)
    requires 0 <= victim < |units| && 0 <= attacker < |units| && IsHitOn(units, log, k, victim, attacker, resolved, tick) && log <= log'
    ensures IsHitOn(units, log', k, victim, attacker, resolved, tick)
  {
  }

  // Somewhere from position k on, `unit` takes a hit of at most `resolved` from `other`.
  ghost predicate HitsLater(log: seq<Event>, k: nat, unit: UnitId, other: UnitId, resolved: int) {
    exists m | k <= m < |log| :: log[m].Damage? && log[m].unit == unit && log[m].other == other && log[m].amount <= resolved
  }

  lemma SameIds(s: FightState, t: FightState, i: int)
    requires Continues(s, t) && 0 <= i < |s.units|
    ensures |s.units| <= |t.units| && t.units[i].id == s.units[i].id && t.units[i].alive == s.units[i].alive
  {
  }

  lemma ContinuesLog(s: FightState, t: FightState)
    requires Continues(s, t)
    ensures s.log <= t.log
  {
  }

  // Omnivamp: the attacker heals a share of what it dealt.
  function Leeched(units: seq<FightUnit>, victim: nat, attacker: nat, damage: int, credit: bool, cut: int): seq<FightUnit>
    requires victim < |units| && attacker < |units|
  {
    var vamp := StatusPercent(units[attacker].statuses, Omnivamp);
    if credit && damage > 0 && units[attacker].alive && attacker != victim && vamp > 0
    then Healed(units, attacker, Clamp32(damage * vamp / 100), cut) else units
  }

  // Regeneration: a victim that survives heals a share of what it took.
  function Regenerated(units: seq<FightUnit>, victim: nat, damage: int, cut: int): seq<FightUnit>
    requires victim < |units|
  {
    var regen := StatusPercent(units[victim].statuses, DamageTakenRegen);
    if regen > 0 && units[victim].hp > 0 && damage > 0 then Healed(units, victim, Clamp32(damage * regen / 100), cut) else units
  }

  // A victim at 0 HP remembers the first hit with rewards for a kill.
  function Marked(units: seq<FightUnit>, victim: nat, attacker: int, rewards: bool): seq<FightUnit>
    requires victim < |units|
  {
    var u := units[victim];
    if u.hp == 0 && u.killer < 0 && rewards then units[victim := u.(killer := attacker)] else units
  }

  // What follows a hit: hooks (which only use up charges), omnivamp, regeneration, the memory of who
  // killed, and hooks again.
  ghost predicate FollowsHit(us: seq<FightUnit>, victim: nat, attacker: nat, damage: int, credit: bool, rewards: bool, cut: int, vs: seq<FightUnit>) {
    victim < |us| && attacker < |us| && exists a, b :: OnlyStatuses(us, a) && b == Reacted(a, victim, attacker, damage, credit, rewards, cut) && OnlyStatuses(b, vs)
  }

  function Reacted(us: seq<FightUnit>, victim: nat, attacker: nat, damage: int, credit: bool, rewards: bool, cut: int): seq<FightUnit> {
    if victim < |us| && attacker < |us| && victim < |Regenerated(Leeched(us, victim, attacker, damage, credit, cut), victim, damage, cut)|
    then Marked(Regenerated(Leeched(us, victim, attacker, damage, credit, cut), victim, damage, cut), victim, attacker, rewards)
    else us
  }

  lemma FollowsHitIs(us: seq<FightUnit>, a: seq<FightUnit>, c: seq<FightUnit>, b: seq<FightUnit>, victim: nat, attacker: nat, damage: int, credit: bool,
                     rewards: bool, cut: int, vs: seq<FightUnit>)
    requires victim < |us| && attacker < |us| && OnlyStatuses(us, a) && |a| == |us| && |c| == |us|
    requires c == Regenerated(Leeched(a, victim, attacker, damage, credit, cut), victim, damage, cut)
    requires b == (var u := c[victim]; if u.hp == 0 && u.killer < 0 && rewards then c[victim := u.(killer := attacker)] else c)
    requires OnlyStatuses(b, vs)
    ensures FollowsHit(us, victim, attacker, damage, credit, rewards, cut, vs)
  {
    hide OnlyStatuses, Leeched, Regenerated;
    assert b == Reacted(a, victim, attacker, damage, credit, rewards, cut);
  }

  // Nobody else's HP, shields or killer change; whoever is left at 0 HP knows its killer, and who remembers
  // one does not forget.
  lemma FollowsHitMeans(us: seq<FightUnit>, victim: nat, attacker: nat, damage: int, credit: bool, rewards: bool, cut: int, vs: seq<FightUnit>)
    requires FollowsHit(us, victim, attacker, damage, credit, rewards, cut, vs) && us[victim].hp <= us[victim].maxHp && us[attacker].hp <= us[attacker].maxHp
    ensures |vs| == |us| && forall i | 0 <= i < |us| && i != victim && i != attacker :: vs[i].hp == us[i].hp && vs[i].killer == us[i].killer
    ensures forall i | 0 <= i < |us| :: vs[i].shields == us[i].shields && us[i].hp <= vs[i].hp
    ensures us[victim].killer >= 0 ==> vs[victim].killer == us[victim].killer
    ensures us[victim].killer < 0 ==> vs[victim].killer == if vs[victim].hp == 0 && rewards then attacker else us[victim].killer
    ensures us[victim].hp == 0 && attacker != victim ==> vs[victim].hp == 0
  {
    var a: seq<FightUnit>, b: seq<FightUnit> :| OnlyStatuses(us, a) && b == Reacted(a, victim, attacker, damage, credit, rewards, cut) && OnlyStatuses(b, vs);
    StandAlike(us, a);
    ReactedMeans(a, victim, attacker, damage, credit, rewards, cut);
    StandAlike(b, vs);
    hide OnlyStatuses, Reacted;
  }

  lemma StandAlike(us: seq<FightUnit>, vs: seq<FightUnit>)
    requires OnlyStatuses(us, vs)
    ensures |vs| == |us|
    ensures forall i | 0 <= i < |us| :: vs[i].hp == us[i].hp && vs[i].maxHp == us[i].maxHp && vs[i].shields == us[i].shields && vs[i].killer == us[i].killer
  {
    forall i | 0 <= i < |us|
      ensures vs[i].hp == us[i].hp && vs[i].maxHp == us[i].maxHp && vs[i].shields == us[i].shields && vs[i].killer == us[i].killer
    {
      assert vs[i] == us[i].(statuses := vs[i].statuses, used := vs[i].used);
    }
  }

  lemma ReactedMeans(us: seq<FightUnit>, victim: nat, attacker: nat, damage: int, credit: bool, rewards: bool, cut: int)
    requires victim < |us| && attacker < |us| && us[victim].hp <= us[victim].maxHp && us[attacker].hp <= us[attacker].maxHp
    ensures var vs := Reacted(us, victim, attacker, damage, credit, rewards, cut);
            && |vs| == |us| && (forall i | 0 <= i < |us| && i != victim && i != attacker :: vs[i].hp == us[i].hp && vs[i].killer == us[i].killer)
            && (forall i | 0 <= i < |us| :: vs[i].shields == us[i].shields && us[i].hp <= vs[i].hp)
            && (attacker != victim ==> vs[attacker].killer == us[attacker].killer)
            && (us[victim].killer >= 0 ==> vs[victim].killer == us[victim].killer)
            && (us[victim].killer < 0 ==> vs[victim].killer == if vs[victim].hp == 0 && rewards then attacker else us[victim].killer)
            && (us[victim].hp == 0 && attacker != victim ==> vs[victim].hp == 0)
  {
    var a := Leeched(us, victim, attacker, damage, credit, cut);
    LeechedMeans(us, victim, attacker, damage, credit, cut);
    var b := Regenerated(a, victim, damage, cut);
    RegeneratedMeans(a, victim, damage, cut);
    hide Leeched, Regenerated;
    assert Reacted(us, victim, attacker, damage, credit, rewards, cut) == Marked(b, victim, attacker, rewards);
  }

  lemma LeechedMeans(us: seq<FightUnit>, victim: nat, attacker: nat, damage: int, credit: bool, cut: int)
    requires victim < |us| && attacker < |us| && us[attacker].hp <= us[attacker].maxHp
    ensures var vs := Leeched(us, victim, attacker, damage, credit, cut);
            && |vs| == |us| && (forall i | 0 <= i < |us| && (i != attacker || attacker == victim) :: vs[i] == us[i])
            && vs[attacker] == us[attacker].(hp := vs[attacker].hp) && us[attacker].hp <= vs[attacker].hp <= us[attacker].maxHp
  {
    hide StatusPercent, Clamp32;
  }

  lemma RegeneratedMeans(us: seq<FightUnit>, victim: nat, damage: int, cut: int)
    requires victim < |us| && us[victim].hp <= us[victim].maxHp
    ensures var vs := Regenerated(us, victim, damage, cut);
            && |vs| == |us| && (forall i | 0 <= i < |us| && i != victim :: vs[i] == us[i])
            && vs[victim] == us[victim].(hp := vs[victim].hp) && us[victim].hp <= vs[victim].hp
            && (us[victim].hp == 0 ==> vs[victim].hp == 0)
  {
    hide StatusPercent, Clamp32;
  }

  // A hit and all that follows it.
  ghost predicate HitWorks(us: seq<FightUnit>, victim: nat, attacker: nat, resolved: int, credit: bool, rewards: bool, cut: int, vs: seq<FightUnit>) {
    && victim < |us| && attacker < |us| && ShieldsOk(us[victim].shields) && resolved >= 0
    && var u := us[victim];
       var damage := Reduced(u.shields, resolved);
       var remaining := damage - Min(damage, ShieldTotal(u.shields));
       FollowsHit(us[victim := u.(hp := Max(0, u.hp - remaining), shields := Unbroken(SoakUp(u.shields, damage)))], victim, attacker, damage, credit, rewards, cut, vs)
  }

  lemma HitWorksIs(us: seq<FightUnit>, ws: seq<FightUnit>, victim: nat, attacker: nat, resolved: int, damage: int, after: seq<Shield>, remaining: int,
                   credit: bool, rewards: bool, cut: int, vs: seq<FightUnit>)
    requires victim < |us| && attacker < |us| && ShieldsOk(us[victim].shields) && resolved >= 0 && damage == Reduced(us[victim].shields, resolved)
    requires remaining == damage - Min(damage, ShieldTotal(us[victim].shields)) && after == SoakUp(us[victim].shields, damage)
    requires ws == us[victim := us[victim].(hp := Max(0, us[victim].hp - remaining), shields := Unbroken(after))]
    requires FollowsHit(ws, victim, attacker, damage, credit, rewards, cut, vs)
    ensures HitWorks(us, victim, attacker, resolved, credit, rewards, cut, vs)
  {
    hide FollowsHit, Reduced, SoakUp, Unbroken, ShieldTotal, ShieldsOk;
  }

  ghost predicate SameShields(us: seq<FightUnit>, vs: seq<FightUnit>) {
    |us| == |vs| && forall i | 0 <= i < |us| :: vs[i].shields == us[i].shields
  }

  lemma ShieldsTwice(us: seq<FightUnit>, vs: seq<FightUnit>, ws: seq<FightUnit>)
    requires SameShields(us, vs) && SameShields(vs, ws)
    ensures SameShields(us, ws)
  {
  }

  lemma ShieldsAfterHooks(us: seq<FightUnit>, vs: seq<FightUnit>)
    requires OnlyStatuses(us, vs)
    ensures SameShields(us, vs)
  {
    forall i | 0 <= i < |us|
      ensures vs[i].shields == us[i].shields
    {
      assert vs[i] == us[i].(statuses := vs[i].statuses, used := vs[i].used);
    }
  }

  lemma ShieldsAfterRecovery(us: seq<FightUnit>, victim: nat, attacker: nat, damage: int, credit: bool, cut: int)
    requires victim < |us| && attacker < |us|
    ensures |Leeched(us, victim, attacker, damage, credit, cut)| == |us|
    ensures SameShields(us, Regenerated(Leeched(us, victim, attacker, damage, credit, cut), victim, damage, cut))
  {
    hide Restored, StatusPercent;
  }

  lemma SameShieldsLength(us: seq<FightUnit>, vs: seq<FightUnit>)
    requires SameShields(us, vs)
    ensures |us| == |vs|
  {
  }

  lemma ShieldsAfterKiller(us: seq<FightUnit>, i: nat, killer: int)
    requires i < |us|
    ensures SameShields(us, us[i := us[i].(killer := killer)]) && SameShields(us, us)
  {
  }

  lemma ShieldsAre(us: seq<FightUnit>, vs: seq<FightUnit>, i: int)
    requires SameShields(us, vs) && 0 <= i < |us|
    ensures i < |vs| && vs[i].shields == us[i].shields
  {
  }

  // A spell shield swallows an enemy's ability whole, but not its damage over time.
  predicate IsBlocked(units: seq<FightUnit>, h: Hit)
    requires 0 <= h.source < |units| && 0 <= h.target < |units|
  {
    h.isAbility && !h.isDot && units[h.source].team != units[h.target].team && HasStatus(units[h.target], SpellShield)
  }

  lemma BlockedIs(units: seq<FightUnit>, h: Hit)
    requires 0 <= h.source < |units| && 0 <= h.target < |units|
    ensures IsBlocked(units, h) <==>
              h.isAbility && !h.isDot && units[h.source].team != units[h.target].team && HasStatus(units[h.target], SpellShield)
  {
  }

  // Another unit that still stands takes a share of the victim's damage.
  predicate Tethers(units: seq<FightUnit>, victim: int, st: Status) {
    st.kind == Tether && 0 <= st.source < |units| && st.source != victim && units[st.source].alive && units[st.source].hp > 0
  }

  function FirstTether(units: seq<FightUnit>, victim: int, k: nat): (r: nat)
    requires 0 <= victim < |units| && k <= |units[victim].statuses|
    ensures k <= r <= |units[victim].statuses|
    ensures r < |units[victim].statuses| ==> Tethers(units, victim, units[victim].statuses[r])
    ensures forall m | k <= m < r :: !Tethers(units, victim, units[victim].statuses[m])
    decreases |units[victim].statuses| - k
  {
    if k == |units[victim].statuses| || Tethers(units, victim, units[victim].statuses[k]) then k else FirstTether(units, victim, k + 1)
  }

  function TetheredTo(units: seq<FightUnit>, victim: int): int
    requires 0 <= victim < |units|
  {
    var k := FirstTether(units, victim, 0);
    if k < |units[victim].statuses| then units[victim].statuses[k].source else -1
  }

  function Redirected(units: seq<FightUnit>, victim: int, damage: int): (r: int)
    requires 0 <= victim < |units| && damage >= 0
  {
    var k := FirstTether(units, victim, 0);
    if k < |units[victim].statuses| then Share(damage, Clamp(units[victim].statuses[k].percent, 0, 100)) else 0
  }

  // percent of a hit, rounded down.
  function Share(damage: int, percent: int): (r: int)
    requires damage >= 0 && 0 <= percent <= 100
    ensures 0 <= r <= damage
  {
    damage * percent / 100
  }

  lemma HpInRange(u: FightUnit, n: int)
    requires UnitOk(u, n)
    ensures 0 <= u.hp <= u.maxHp
  {
  }

  lemma SameFrameParts(u: FightUnit, v: FightUnit)
    requires SameFrame(u, v)
    ensures v.id == u.id && v.alive == u.alive && v.pos == u.pos
  {
  }

  lemma HitsAt(s: FightState)
    requires Inv(s)
    ensures forall k | 0 <= k < |s.hits| :: 0 <= s.hits[k].source < |s.units| && 0 <= s.hits[k].target < |s.units|
  {
  }

  lemma ShieldsAt(s: FightState, i: nat)
    requires Inv(s) && i < |s.units|
    ensures ShieldsOk(s.units[i].shields)
  {
    assert UnitOk(s.units[i], |s.units|);
  }

  lemma ContinuesAt(s: FightState, t: FightState, i: int)
    requires Continues(s, t) && 0 <= i < |s.units|
    ensures |s.units| <= |t.units| && SameFighter(s.units[i], t.units[i])
  {
  }

  // An event about a living unit that leaves its picture as it is.
  lemma QuietEvent(s: FightState, i: nat, e: Event)
    requires Inv(s) && i < |s.units| && s.units[i].alive && IsLocal(e) && e.unit == s.units[i].id
    requires LegalLocal(AsView(s.units[i]), e) && ApplyLocal(AsView(s.units[i]), e) == AsView(s.units[i])
    ensures Legal(Replay(s.log), e) && Apply(Replay(s.log), e) == Replay(s.log)
  {
    SeenAlive(s, i);
    hide Inv, LegalLocal, ApplyLocal;
    var v := Replay(s.log);
    assert v[s.units[i].id := v[s.units[i].id]] == v;
  }

  lemma EmptyShieldEnds(s: FightState, i: nat, tick: int)
    requires Inv(s) && i < |s.units| && s.units[i].alive
    ensures var e := ShieldEnded(tick, s.units[i].id, 0);
            Legal(Replay(s.log), e) && Apply(Replay(s.log), e) == Replay(s.log)
  {
    hide Inv, Legal, Apply;
    ShieldsAt(s, i);
    ShieldTotalNonNegative(s.units[i].shields);
    QuietEvent(s, i, ShieldEnded(tick, s.units[i].id, 0));
  }

  lemma EmptyLineup(s: FightState)
    requires s.units == [] && s.members == [] && s.summonsSpawned == 0 && s.castSerial == 0 && s.chan == []
    requires s.alive == s.summonAlive == [0, 0]
    requires s.hits == [] && s.casts == [] && s.scheduled == [] && s.pendingHooks == []
    requires s.grid.Valid() && s.grid.width == ARENA_COLUMNS && s.grid.height == ARENA_ROWS
    requires forall h | InArena(h) :: !s.grid.IsBlocked(h)
    ensures Lineup(s)
  {
  }

  lemma FreeStart(s: FightState, h: HexCoord)
    requires Lineup(s) && InArena(h) && forall i | 0 <= i < |s.units| :: s.units[i].pos != h
    ensures s.grid.Valid() && s.grid.width == ARENA_COLUMNS && s.grid.height == ARENA_ROWS && !s.grid.IsBlocked(h)
  {
    hide UnitsOk, IdsOk, CountsOk, AurasOk, ChannelsOk, QueuesOk;
  }

  lemma ContinuesRefl(s: FightState)
    ensures Continues(s, s)
  {
  }

  // The viewer sees unit i as it is.
  lemma SeenAlive(s: FightState, i: nat)
    requires Inv(s) && i < |s.units|
    ensures s.units[i].id in Replay(s.log) && Replay(s.log)[s.units[i].id] == AsView(s.units[i])
  {
  }
}
