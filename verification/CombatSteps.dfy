// One lemma per kind of step of a fight: each keeps the whole invariant.
module CombatSteps {
  import opened Hex
  import opened CombatLog
  import opened Pathfinder
  import opened CombatState

  predicate SameBody(u: FightUnit, v: FightUnit) {
    && v.id == u.id && v.team == u.team && v.isSummon == u.isSummon && v.template == u.template
    && v.alive == u.alive && v.auraMembers == u.auraMembers
  }

  // Everything a living unit's moves and affairs never change ...
  predicate SameSide(u: FightUnit, v: FightUnit) {
    SameBody(u, v) && v.used == u.used
  }

  // ... staying where it is, on the channel it is on.
  predicate SameFrame(u: FightUnit, v: FightUnit) {
    SameSide(u, v) && v.pos == u.pos && v.activeChannelSerial == u.activeChannelSerial
  }

  // ... even if it uses up what auras have granted it.
  predicate SameStand(u: FightUnit, v: FightUnit) {
    SameBody(u, v) && v.pos == u.pos && v.activeChannelSerial == u.activeChannelSerial
  }

  // What every step that kills nobody leaves in place: who fights for whom, and history.
  predicate SameFighter(u: FightUnit, v: FightUnit) {
    v.id == u.id && v.team == u.team && v.isSummon == u.isSummon && v.template == u.template && v.alive == u.alive
  }

  ghost predicate Continues(s: FightState, t: FightState) {
    && |s.units| <= |t.units|
    && (forall i | 0 <= i < |s.units| :: SameFighter(s.units[i], t.units[i]))
    && s.log <= t.log && s.chan <= t.chan && s.summonsSpawned <= t.summonsSpawned
  }

  // One unit changed in place.
  lemma SoloContinues(s: FightState, t: FightState, i: nat)
    requires i < |s.units| == |t.units| && t.units == s.units[i := t.units[i]] && SameBody(s.units[i], t.units[i])
    requires s.log <= t.log && s.chan <= t.chan && s.summonsSpawned <= t.summonsSpawned
    ensures Continues(s, t) && MembersOf(t.units) == MembersOf(s.units)
  {
  }

  lemma ContinuesTrans(s: FightState, t: FightState, w: FightState)
    requires Continues(s, t) && Continues(t, w)
    ensures Continues(s, w)
  {
    forall i | 0 <= i < |s.units|
      ensures SameFighter(s.units[i], w.units[i])
    {
      assert SameFighter(s.units[i], t.units[i]) && SameFighter(t.units[i], w.units[i]);
    }
  }

  // The status list changed in a way the auras allow.
  ghost predicate StatusesSafe(ss: seq<Status>, tt: seq<Status>) {
    && (forall k | 0 <= k < |tt| && tt[k].aura != 0 :: Carries(ss, tt[k].aura, tt[k].kind))
    && (forall k | 0 <= k < |ss| && ss[k].aura != 0 :: Carries(tt, ss[k].aura, ss[k].kind))
  }

  // ... or something an aura granted was used up, and that is remembered.
  ghost predicate UsesUp(u: FightUnit, v: FightUnit) {
    && u.used <= v.used
    && (forall k | 0 <= k < |v.statuses| && v.statuses[k].aura != 0 :: Carries(u.statuses, v.statuses[k].aura, v.statuses[k].kind))
    && (forall k | 0 <= k < |u.statuses| && u.statuses[k].aura != 0 ::
          Carries(v.statuses, u.statuses[k].aura, u.statuses[k].kind) || (Consumable(u.statuses[k].kind) && u.statuses[k].aura in v.used))
  }

  lemma NothingUsed(u: FightUnit, v: FightUnit)
    requires StatusesSafe(u.statuses, v.statuses) && v.used == u.used
    ensures UsesUp(u, v)
  {
  }

  lemma FrameStands(u: FightUnit, v: FightUnit)
    requires SameFrame(u, v)
    ensures SameStand(u, v) && SameBody(u, v) && v.used == u.used
  {
  }

  lemma EraseSafe(ss: seq<Status>, k: nat, n: int)
    requires k < |ss| && StatusesOk(ss, n) && ss[k].aura == 0
    ensures StatusesSafe(ss, ss[..k] + ss[k + 1..]) && StatusesOk(ss[..k] + ss[k + 1..], n)
  {
    var tt := ss[..k] + ss[k + 1..];
    forall m | 0 <= m < |ss| && ss[m].aura != 0
      ensures Carries(tt, ss[m].aura, ss[m].kind)
    {
      assert m != k;
      assert tt[if m < k then m else m - 1] == ss[m];
    }
  }

  lemma AppendSafe(ss: seq<Status>, s: Status, n: int)
    requires StatusesOk(ss, n) && s.aura == 0 && -1 <= s.source < n
    ensures StatusesSafe(ss, ss + [s]) && StatusesOk(ss + [s], n)
  {
    forall m | 0 <= m < |ss|
      ensures ss[m] == (ss + [s])[m]
    {
    }
  }

  lemma UpdateSafe(ss: seq<Status>, k: nat, s: Status, n: int)
    requires k < |ss| && StatusesOk(ss, n)
    requires s.aura == ss[k].aura && s.kind == ss[k].kind && -1 <= s.source < n && (s.aura != 0 ==> s.expires == FOREVER)
    ensures StatusesSafe(ss, ss[k := s]) && StatusesOk(ss[k := s], n)
  {
    forall m | 0 <= m < |ss|
      ensures ss[m].aura == ss[k := s][m].aura && ss[m].kind == ss[k := s][m].kind
    {
    }
  }

  // ---- The parts of the invariant that a unit's own affairs leave alone -------------------------

  lemma {:induction false} CountSame(us: seq<FightUnit>, vs: seq<FightUnit>, team: int, summon: bool)
    requires |us| == |vs|
    requires forall i | 0 <= i < |us| :: us[i].alive == vs[i].alive && us[i].team == vs[i].team && us[i].isSummon == vs[i].isSummon
    ensures CountLiving(us, team, summon) == CountLiving(vs, team, summon)
  {
    if us != [] {
      CountSame(us[..|us| - 1], vs[..|vs| - 1], team, summon);
    }
  }

  lemma CountsKept(s: FightState, i: nat, u: FightUnit)
    requires i < |s.units| && SameBody(s.units[i], u) && CountsOk(s.units, s.alive, s.summonAlive)
    ensures CountsOk(s.units[i := u], s.alive, s.summonAlive)
  {
    CountSame(s.units, s.units[i := u], 0, true);
    CountSame(s.units, s.units[i := u], 0, false);
    CountSame(s.units, s.units[i := u], 1, true);
    CountSame(s.units, s.units[i := u], 1, false);
  }

  lemma GridKept(s: FightState, i: nat, u: FightUnit)
    requires i < |s.units| && SameBody(s.units[i], u) && u.pos == s.units[i].pos && GridOk(s.units, s.grid)
    ensures GridOk(s.units[i := u], s.grid)
  {
    var us := s.units[i := u];
    forall h | InArena(h)
      ensures Occupied(us, h) <==> Occupied(s.units, h)
    {
      if Occupied(s.units, h) {
        var k :| 0 <= k < |s.units| && s.units[k].alive && s.units[k].pos == h;
        assert us[k].alive && us[k].pos == h;
      }
    }
  }

  lemma AurasKept(s: FightState, i: nat, u: FightUnit)
    requires i < |s.units| && SameBody(s.units[i], u) && AurasOk(s.units, s.members)
    requires UsesUp(s.units[i], u)
    ensures AurasOk(s.units[i := u], s.members)
  {
    var us := s.units[i := u];
    forall j, k | 0 <= j < |us| && 0 <= k < |us[j].statuses|
      ensures TagOk(us, s.members, j, us[j].statuses[k])
    {
      var t := us[j].statuses[k];
      if j == i {
        if t.aura != 0 {
          var m :| 0 <= m < |s.units[i].statuses| && s.units[i].statuses[m].aura == t.aura && s.units[i].statuses[m].kind == t.kind;
          assert TagOk(s.units, s.members, i, s.units[i].statuses[m]);
        }
      } else {
        assert TagOk(s.units, s.members, j, s.units[j].statuses[k]);
      }
    }
    forall h, a | 0 <= h < |us| && 0 <= a < |s.members[h]|
      ensures MembersOk(us, AuraKey(h, a), us[h].template.auras[a].status, s.members[h][a])
    {
      MembersKept(s, i, u, AuraKey(h, a), s.units[h].template.auras[a].status, s.members[h][a]);
    }
  }

  lemma MembersKept(s: FightState, i: nat, u: FightUnit, key: int, kind: StatusType, list: seq<int>)
    requires i < |s.units| && SameBody(s.units[i], u) && UsesUp(s.units[i], u)
    requires MembersOk(s.units, key, kind, list) && key != 0
    ensures MembersOk(s.units[i := u], key, kind, list)
  {
    var ss := s.units[i].statuses;
    forall x | x in list
      ensures 0 <= x < |s.units|
      ensures var v := s.units[i := u][x]; v.alive ==> Carries(v.statuses, key, kind) || (Consumable(kind) && key in v.used)
    {
      if x == i && Carries(ss, key, kind) {
        var m :| 0 <= m < |ss| && ss[m].aura == key && ss[m].kind == kind;
        assert Carries(u.statuses, ss[m].aura, ss[m].kind) || (Consumable(kind) && key in u.used);
      }
    }
  }

  lemma ChannelsKept(s: FightState, i: nat, u: FightUnit)
    requires i < |s.units| && u.activeChannelSerial == s.units[i].activeChannelSerial && ChannelsOk(s.units, s.castSerial, s.chan)
    ensures ChannelsOk(s.units[i := u], s.castSerial, s.chan)
  {
  }

  lemma AgreesKept(units: seq<FightUnit>, v: View, i: nat, u: FightUnit, v': View)
    requires i < |units| && Agrees(units, v) && u.id == units[i].id
    requires exists n :: IdsOk(units, n)
    requires v' == v[u.id := AsView(u)]
    ensures Agrees(units[i := u], v')
  {
    var us := units[i := u];
    forall id | id in v'
      ensures KnownId(us, id)
    {
      assert KnownId(units, id);
      var k :| 0 <= k < |units| && units[k].id == id;
      assert us[k].id == id;
    }
  }

  lemma QueuesKept(s: FightState, t: FightState)
    requires QueuesOk(s) && |s.units| == |t.units| && s.chan == t.chan
    requires s.hits == t.hits && s.casts == t.casts && s.scheduled == t.scheduled && s.pendingHooks == t.pendingHooks
    ensures QueuesOk(t)
  {
  }

  lemma UnitsKept(units: seq<FightUnit>, i: nat, u: FightUnit, summonsSpawned: nat)
    requires UnitsOk(units) && IdsOk(units, summonsSpawned) && i < |units| && UnitOk(u, |units|) && SameBody(units[i], u)
    ensures UnitsOk(units[i := u]) && IdsOk(units[i := u], summonsSpawned)
  {
  }

  // A unit's own affairs keep everything but the log, wherever the log stands.
  lemma BoardKept(s: FightState, i: nat, u: FightUnit, log: seq<Event>)
    requires Inv(s) && i < |s.units| && SameStand(s.units[i], u) && UnitOk(u, |s.units|)
    requires UsesUp(s.units[i], u) && LogOk(s.units[i := u], log)
    ensures Inv(s.(units := s.units[i := u], log := log))
  {
    UnitsKept(s.units, i, u, s.summonsSpawned);
    CountsKept(s, i, u);
    GridKept(s, i, u);
    AurasKept(s, i, u);
    ChannelsKept(s, i, u);
    QueuesKept(s, s.(units := s.units[i := u], log := log));
    hide UnitsOk, IdsOk, LogOk, CountsOk, GridOk, AurasOk, ChannelsOk, QueuesOk, SameStand, UsesUp, UnitOk;
  }

  lemma UnseenLog(units: seq<FightUnit>, log: seq<Event>, i: nat, u: FightUnit, n: nat)
    requires LogOk(units, log) && IdsOk(units, n) && i < |units| && u.id == units[i].id && AsView(u) == AsView(units[i])
    ensures LogOk(units[i := u], log)
  {
    var v := Replay(log);
    assert v[u.id := AsView(u)] == v;
    AgreesKept(units, v, i, u, v);
  }

  lemma UnitAt(s: FightState, i: nat)
    requires Inv(s) && i < |s.units|
    ensures UnitOk(s.units[i], |s.units|)
  {
  }

  // ---- The steps -------------------------------------------------------------------------------

  // Unit i's own affairs change unseen: nothing the viewer shows.
  lemma QuietStep(s: FightState, i: nat, u: FightUnit)
    requires Inv(s) && i < |s.units| && SameFrame(s.units[i], u) && UnitOk(u, |s.units|)
    requires StatusesSafe(s.units[i].statuses, u.statuses) && AsView(u) == AsView(s.units[i])
    ensures Inv(s.(units := s.units[i := u]))
    ensures Continues(s, s.(units := s.units[i := u])) && MembersOf(s.units[i := u]) == MembersOf(s.units)
  {
    assert LogOk(s.units, s.log) && IdsOk(s.units, s.summonsSpawned);
    assert u.id == s.units[i].id && SameSide(s.units[i], u);
    FrameStands(s.units[i], u);
    NothingUsed(s.units[i], u);
    SoloContinues(s, s.(units := s.units[i := u]), i);
    UnseenLog(s.units, s.log, i, u, s.summonsSpawned);
    hide Inv, UnitOk, SameFrame, StatusesSafe, AsView, Continues;
    BoardKept(s, i, u, s.log);
    assert s.(units := s.units[i := u], log := s.log) == s.(units := s.units[i := u]);
  }

  // Unit i's own affairs change, and the event says so.
  lemma LocalStep(s: FightState, i: nat, u: FightUnit, e: Event)
    requires Inv(s) && i < |s.units| && SameStand(s.units[i], u) && UnitOk(u, |s.units|) && u.alive
    requires UsesUp(s.units[i], u)
    requires IsLocal(e) && e.unit == u.id && LegalLocal(AsView(s.units[i]), e) && AsView(u) == ApplyLocal(AsView(s.units[i]), e)
    ensures Inv(s.(units := s.units[i := u], log := s.log + [e]))
    ensures Continues(s, s.(units := s.units[i := u], log := s.log + [e])) && MembersOf(s.units[i := u]) == MembersOf(s.units)
  {
    assert LogOk(s.units, s.log) && IdsOk(s.units, s.summonsSpawned);
    assert u.id == s.units[i].id && u.alive == s.units[i].alive && SameBody(s.units[i], u);
    hide Inv, UnitOk, SameStand, UsesUp, AsView, Continues, LegalLocal, ApplyLocal, LogOk, IdsOk;
    SoloContinues(s, s.(units := s.units[i := u], log := s.log + [e]), i);
    LocalLog(s.units, s.log, i, u, e, s.summonsSpawned);
    BoardKept(s, i, u, s.log + [e]);
  }

  lemma LocalLog(units: seq<FightUnit>, log: seq<Event>, i: nat, u: FightUnit, e: Event, n: nat)
    requires LogOk(units, log) && IdsOk(units, n) && i < |units| && u.id == units[i].id && units[i].alive
    requires IsLocal(e) && e.unit == u.id && LegalLocal(AsView(units[i]), e) && AsView(u) == ApplyLocal(AsView(units[i]), e)
    ensures LogOk(units[i := u], log + [e])
  {
    var v := Replay(log);
    ReplayAppend(log, e);
    assert v[units[i].id] == AsView(units[i]);
    AgreesKept(units, v, i, u, Apply(v, e));
  }

  // An event that changes nothing on the board.
  lemma NoteStep(s: FightState, e: Event)
    requires Inv(s) && Legal(Replay(s.log), e) && Apply(Replay(s.log), e) == Replay(s.log)
    ensures Inv(s.(log := s.log + [e])) && Continues(s, s.(log := s.log + [e]))
  {
    ReplayAppend(s.log, e);
    QueuesKept(s, s.(log := s.log + [e]));
  }

  // ---- Moving ----------------------------------------------------------------------------------

  // A free hex of the grid is vacant in the viewer's eyes too.
  lemma FreeIsVacant(s: FightState, h: HexCoord)
    requires LogOk(s.units, s.log) && GridOk(s.units, s.grid) && InArena(h) && !s.grid.IsBlocked(h)
    ensures Vacant(Replay(s.log), h)
  {
    var v := Replay(s.log);
    forall id | id in v && v[id].alive
      ensures v[id].pos != h
    {
      assert KnownId(s.units, id);
      var k :| 0 <= k < |s.units| && s.units[k].id == id;
      assert v[id] == AsView(s.units[k]);
      assert !Occupied(s.units, h);
    }
  }

  // The grid after unit i left its hex for a free one.
  ghost predicate Vacated(g: Grid, g': Grid, from: HexCoord, to: HexCoord) {
    && g.Valid() && g'.Valid() && g'.width == g.width && g'.height == g.height
    && forall h | InBounds(h, g.width, g.height) :: g'.IsBlocked(h) == (if h == to then true else if h == from then false else g.IsBlocked(h))
  }

  lemma GridMoved(units: seq<FightUnit>, g: Grid, i: nat, u: FightUnit, g': Grid)
    requires GridOk(units, g) && i < |units| && units[i].alive && u.alive && InArena(u.pos) && !g.IsBlocked(u.pos)
    requires Vacated(g, g', units[i].pos, u.pos)
    ensures GridOk(units[i := u], g')
  {
    var us := units[i := u];
    forall h | InArena(h)
      ensures g'.IsBlocked(h) <==> Occupied(us, h)
    {
      if h == u.pos {
        assert us[i].pos == h;
      } else if h == units[i].pos {
        forall k | 0 <= k < |us| && us[k].alive
          ensures us[k].pos != h
        {
          assert k < i ==> units[k].pos != units[i].pos;
          assert i < k ==> units[i].pos != units[k].pos;
        }
      } else if Occupied(units, h) {
        var k :| 0 <= k < |units| && units[k].alive && units[k].pos == h;
        assert us[k].alive && us[k].pos == h;
      }
    }
    forall a, b | 0 <= a < b < |us| && us[a].alive && us[b].alive
      ensures us[a].pos != us[b].pos
    {
      assert !Occupied(units, u.pos);
    }
  }

  // The event of a step: a walk to an adjacent hex, a blink or a forced slide.
  predicate RelocateEvent(e: Event, id: UnitId, from: HexCoord, to: HexCoord) {
    && e.unit == id
    && ((e.Move? && e.from == from && e.to == to && Adjacent(from, to))
        || (e.Teleport? && e.from == from && e.to == to && 0 <= e.subtype <= 1))
  }

  lemma RelocateLog(s: FightState, i: nat, u: FightUnit, e: Event)
    requires LogOk(s.units, s.log) && GridOk(s.units, s.grid) && IdsOk(s.units, s.summonsSpawned)
    requires i < |s.units| && s.units[i].alive && AsView(u) == AsView(s.units[i]).(pos := u.pos) && u.id == s.units[i].id
    requires InArena(u.pos) && !s.grid.IsBlocked(u.pos) && RelocateEvent(e, u.id, s.units[i].pos, u.pos)
    ensures LogOk(s.units[i := u], s.log + [e])
  {
    var v := Replay(s.log);
    FreeIsVacant(s, u.pos);
    ReplayAppend(s.log, e);
    assert v[s.units[i].id] == AsView(s.units[i]);
    AgreesKept(s.units, v, i, u, Apply(v, e));
  }

  lemma RelocateStep(s: FightState, i: nat, u: FightUnit, g: Grid, e: Event)
    requires Inv(s) && i < |s.units| && s.units[i].alive && SameSide(s.units[i], u) && UnitOk(u, |s.units|)
    requires u.statuses == s.units[i].statuses && u.activeChannelSerial == s.units[i].activeChannelSerial
    requires AsView(u) == AsView(s.units[i]).(pos := u.pos)
    requires !s.grid.IsBlocked(u.pos) && Vacated(s.grid, g, s.units[i].pos, u.pos)
    requires RelocateEvent(e, u.id, s.units[i].pos, u.pos)
    ensures Inv(s.(units := s.units[i := u], grid := g, log := s.log + [e]))
    ensures Continues(s, s.(units := s.units[i := u], grid := g, log := s.log + [e])) && MembersOf(s.units[i := u]) == MembersOf(s.units)
  {
    assert InArena(u.pos);
    hide UnitsOk, IdsOk, LogOk, CountsOk, GridOk, AurasOk, ChannelsOk, QueuesOk, UnitOk, Continues, AsView, Vacated, RelocateEvent;
    SoloContinues(s, s.(units := s.units[i := u], grid := g, log := s.log + [e]), i);
    RelocateLog(s, i, u, e);
    GridMoved(s.units, s.grid, i, u, g);
    StatusesUnchanged(u.statuses);
    NothingUsed(s.units[i], u);
    UnitsKept(s.units, i, u, s.summonsSpawned);
    CountsKept(s, i, u);
    AurasKept(s, i, u);
    ChannelsKept(s, i, u);
    QueuesKept(s, s.(units := s.units[i := u], grid := g, log := s.log + [e]));
  }

  // ---- Dying -----------------------------------------------------------------------------------

  function Contribution(u: FightUnit, team: int, summon: bool): nat {
    if u.alive && u.team == team && u.isSummon == summon then 1 else 0
  }

  lemma {:induction false} CountChanged(us: seq<FightUnit>, i: nat, u: FightUnit, team: int, summon: bool)
    requires i < |us|
    ensures CountLiving(us[i := u], team, summon) ==
            CountLiving(us, team, summon) - Contribution(us[i], team, summon) + Contribution(u, team, summon)
  {
    var init := us[..|us| - 1];
    if i == |us| - 1 {
      assert us[i := u][..|us| - 1] == init;
    } else {
      CountChanged(init, i, u, team, summon);
      assert us[i := u][..|us| - 1] == init[i := u];
    }
  }

  // One less on the side (and in the column) of the fallen unit.
  function Fewer(counts: seq<int>, team: int, fewer: bool): seq<int>
    requires 0 <= team < |counts|
  {
    if fewer then counts[team := counts[team] - 1] else counts
  }

  function Fallen(u: FightUnit): FightUnit {
    u.(alive := false, hp := 0, shields := [], statuses := [], dots := [], activeChannelSerial := 0)
  }

  // The channel history once unit u's channel (if any) is over.
  function Ended(chan: seq<ChanEvent>, u: FightUnit): seq<ChanEvent> {
    if u.activeChannelSerial != 0 then chan + [Stop(u.activeChannelSerial)] else chan
  }

  lemma CountsAfterDeath(s: FightState, i: nat)
    requires i < |s.units| && s.units[i].alive && 0 <= s.units[i].team <= 1 && CountsOk(s.units, s.alive, s.summonAlive)
    ensures var u := s.units[i];
            CountsOk(s.units[i := Fallen(u)], Fewer(s.alive, u.team, !u.isSummon), Fewer(s.summonAlive, u.team, u.isSummon))
  {
    var u := s.units[i];
    forall t: int, b: bool
      ensures CountLiving(s.units[i := Fallen(u)], t, b) == CountLiving(s.units, t, b) - Contribution(u, t, b)
    {
      CountChanged(s.units, i, Fallen(u), t, b);
    }
  }

  lemma GridAfterDeath(units: seq<FightUnit>, g: Grid, i: nat, u: FightUnit, g': Grid)
    requires GridOk(units, g) && i < |units| && units[i].alive && !u.alive
    requires g'.Valid() && g'.width == g.width && g'.height == g.height
    requires forall h | InArena(h) :: g'.IsBlocked(h) == if h == units[i].pos then false else g.IsBlocked(h)
    ensures GridOk(units[i := u], g')
  {
    var us := units[i := u];
    forall h | InArena(h)
      ensures g'.IsBlocked(h) <==> Occupied(us, h)
    {
      if h == units[i].pos {
        forall k | 0 <= k < |us| && us[k].alive
          ensures us[k].pos != h
        {
          assert k < i ==> units[k].pos != units[i].pos;
          assert i < k ==> units[i].pos != units[k].pos;
        }
      } else if Occupied(units, h) {
        var k :| 0 <= k < |units| && units[k].alive && units[k].pos == h;
        assert us[k].alive && us[k].pos == h;
      }
    }
  }

  lemma AurasAfterDeath(s: FightState, i: nat)
    requires i < |s.units| && AurasOk(s.units, s.members)
    ensures AurasOk(s.units[i := Fallen(s.units[i])], s.members)
  {
    var us := s.units[i := Fallen(s.units[i])];
    forall j, k | 0 <= j < |us| && 0 <= k < |us[j].statuses|
      ensures TagOk(us, s.members, j, us[j].statuses[k])
    {
      assert TagOk(s.units, s.members, j, s.units[j].statuses[k]);
    }
    forall h, a | 0 <= h < |us| && 0 <= a < |s.members[h]|
      ensures MembersOk(us, AuraKey(h, a), us[h].template.auras[a].status, s.members[h][a])
    {
      assert MembersOk(s.units, AuraKey(h, a), s.units[h].template.auras[a].status, s.members[h][a]);
    }
  }

  // Any unit's channel may end; its serial is marked as stopped.
  lemma ChannelsAfterStop(units: seq<FightUnit>, castSerial: int, chan: seq<ChanEvent>, i: nat, u: FightUnit)
    requires i < |units| && ChannelsOk(units, castSerial, chan) && u.activeChannelSerial == 0
    ensures ChannelsOk(units[i := u], castSerial, Ended(chan, units[i]))
  {
    var c := Ended(chan, units[i]);
    var us := units[i := u];
    if units[i].activeChannelSerial != 0 {
      HistoryAfterStop(units, castSerial, chan, i);
      forall k | 0 <= k < |us| && us[k].activeChannelSerial != 0
        ensures Begin(us[k].activeChannelSerial, k) in c && Stop(us[k].activeChannelSerial) !in c
      {
        StillOpen(units, castSerial, chan, i, k);
      }
      forall k | 0 <= k < |c| && c[k].Begin?
        ensures Stop(c[k].serial) in c || us[c[k].caster].activeChannelSerial == c[k].serial
      {
        BegunAndOver(units, castSerial, chan, i, u, k);
      }
      hide StoppedStaysStopped, Ended;
    }
  }

  // What is written about channels stays in order when one stops.
  lemma HistoryAfterStop(units: seq<FightUnit>, castSerial: int, chan: seq<ChanEvent>, i: nat)
    requires i < |units| && ChannelsOk(units, castSerial, chan) && units[i].activeChannelSerial != 0
    ensures var c := Ended(chan, units[i]);
            && StoppedStaysStopped(c) && (forall k | 0 <= k < |c| :: 1 <= c[k].serial <= castSerial && (c[k].Begin? ==> 0 <= c[k].caster < |units|))
            && (forall a, b | 0 <= a < b < |c| && c[a].Begin? && c[b].Begin? :: c[a].serial != c[b].serial)
  {
    assert Begin(units[i].activeChannelSerial, i) in chan;
  }

  // Another unit's channel is still open.
  lemma StillOpen(units: seq<FightUnit>, castSerial: int, chan: seq<ChanEvent>, i: nat, k: nat)
    requires i < |units| && ChannelsOk(units, castSerial, chan) && units[i].activeChannelSerial != 0
    requires k < |units| && k != i && units[k].activeChannelSerial != 0
    ensures var c := Ended(chan, units[i]); Begin(units[k].activeChannelSerial, k) in c && Stop(units[k].activeChannelSerial) !in c
  {
    hide StoppedStaysStopped;
    assert Begin(units[k].activeChannelSerial, k) in chan && Begin(units[i].activeChannelSerial, i) in chan;
  }

  // Whoever began is over, or still at it.
  lemma BegunAndOver(units: seq<FightUnit>, castSerial: int, chan: seq<ChanEvent>, i: nat, u: FightUnit, k: nat)
    requires i < |units| && ChannelsOk(units, castSerial, chan) && units[i].activeChannelSerial != 0
    requires k < |Ended(chan, units[i])| && Ended(chan, units[i])[k].Begin?
    ensures var c := Ended(chan, units[i]);
            && k < |chan| && c[k] == chan[k] && 0 <= c[k].caster < |units|
            && (Stop(c[k].serial) in c || units[i := u][c[k].caster].activeChannelSerial == c[k].serial)
  {
    hide StoppedStaysStopped;
    var c := Ended(chan, units[i]);
    assert chan[k] == c[k];
    if c[k].caster == i && c[k].serial == units[i].activeChannelSerial {
      assert c[|chan|] in c;
    } else if Stop(c[k].serial) in chan {
      assert Stop(c[k].serial) in c;
    }
  }

  lemma QueuesAfterChan(s: FightState, t: FightState)
    requires QueuesOk(s) && |s.units| <= |t.units| && s.chan <= t.chan
    requires s.hits == t.hits && s.casts == t.casts && s.scheduled == t.scheduled && s.pendingHooks == t.pendingHooks
    ensures QueuesOk(t)
  {
    forall c | CastOk(c, |s.units|, s.chan)
      ensures CastOk(c, |t.units|, t.chan)
    {
    }
  }

  // Unit i dies: the counters, the grid, its channel and the log all follow.
  lemma DieStep(s: FightState, i: nat, g: Grid, e: Event)
    requires Inv(s) && i < |s.units| && s.units[i].alive
    requires g.Valid() && g.width == s.grid.width && g.height == s.grid.height
    requires forall h | InArena(h) :: g.IsBlocked(h) == if h == s.units[i].pos then false else s.grid.IsBlocked(h)
    requires e.Death? && e.unit == s.units[i].id && e.summon == s.units[i].isSummon
    requires s.units[i].hp == 0 || s.units[i].isSummon
    ensures var u := s.units[i];
            Inv(s.(units := s.units[i := Fallen(u)], grid := g, log := s.log + [e], chan := Ended(s.chan, u),
                   alive := Fewer(s.alive, u.team, !u.isSummon), summonAlive := Fewer(s.summonAlive, u.team, u.isSummon)))
  {
    var u := s.units[i];
    DeathLog(s, i, e);
    assert UnitOk(u, |s.units|);
    CountsAfterDeath(s, i);
    GridAfterDeath(s.units, s.grid, i, Fallen(u), g);
    AurasAfterDeath(s, i);
    ChannelsAfterStop(s.units, s.castSerial, s.chan, i, Fallen(u));
    DeathUnits(s.units, i, s.summonsSpawned);
    QueuesAfterChan(s, s.(units := s.units[i := Fallen(u)], grid := g, log := s.log + [e], chan := Ended(s.chan, u),
                          alive := Fewer(s.alive, u.team, !u.isSummon), summonAlive := Fewer(s.summonAlive, u.team, u.isSummon)));
    hide UnitsOk, IdsOk, LogOk, CountsOk, GridOk, AurasOk, ChannelsOk, QueuesOk, UnitOk;
  }

  lemma DeathUnits(units: seq<FightUnit>, i: nat, n: nat)
    requires UnitsOk(units) && IdsOk(units, n) && i < |units|
    ensures UnitsOk(units[i := Fallen(units[i])]) && IdsOk(units[i := Fallen(units[i])], n)
  {
    FallenOk(units[i], |units|);
  }

  lemma FallenOk(u: FightUnit, n: int)
    requires UnitOk(u, n)
    ensures UnitOk(Fallen(u), n)
  {
  }

  lemma DeathLog(s: FightState, i: nat, e: Event)
    requires LogOk(s.units, s.log) && IdsOk(s.units, s.summonsSpawned) && i < |s.units| && s.units[i].alive
    requires e.Death? && e.unit == s.units[i].id && e.summon == s.units[i].isSummon
    requires s.units[i].hp == 0 || s.units[i].isSummon
    ensures LogOk(s.units[i := Fallen(s.units[i])], s.log + [e])
  {
    var v := Replay(s.log);
    ReplayAppend(s.log, e);
    assert v[s.units[i].id] == AsView(s.units[i]);
    AgreesKept(s.units, v, i, Fallen(s.units[i]), Apply(v, e));
  }

  // ---- Summoning -------------------------------------------------------------------------------

  // A fighter or a summon as it appears.
  predicate Newborn(u: FightUnit, n: int) {
    && u.alive && UnitOk(u, n) && u.hp == u.maxHp
    && u.statuses == [] && u.shields == [] && u.activeChannelSerial == 0
    && forall a | 0 <= a < |u.auraMembers| :: u.auraMembers[a] == []
  }

  // One more on a side.
  function More(counts: seq<int>, team: int): seq<int> {
    if 0 <= team < |counts| then counts[team := counts[team] + 1] else counts
  }

  lemma UnitsGrown(units: seq<FightUnit>, u: FightUnit)
    requires UnitsOk(units) && Newborn(u, |units| + 1)
    ensures UnitsOk(units + [u])
  {
    forall i | 0 <= i < |units|
      ensures UnitOk(units[i], |units| + 1)
    {
      assert UnitOk(units[i], |units|);
    }
  }

  lemma IdsGrown(units: seq<FightUnit>, u: FightUnit, summonsSpawned: nat)
    requires IdsOk(units, summonsSpawned) && summonsSpawned < MAX_SUMMONS_PER_FIGHT
    requires u.isSummon && u.id == SUMMON_UNIT_BASE + summonsSpawned + 1
    ensures IdsOk(units + [u], summonsSpawned + 1)
  {
  }

  lemma GridGrown(units: seq<FightUnit>, g: Grid, u: FightUnit, g': Grid)
    requires GridOk(units, g) && Newborn(u, |units| + 1) && !g.IsBlocked(u.pos)
    requires g'.Valid() && g'.width == g.width && g'.height == g.height
    requires forall h | InArena(h) :: g'.IsBlocked(h) == if h == u.pos then true else g.IsBlocked(h)
    ensures GridOk(units + [u], g')
  {
    var us := units + [u];
    forall h | InArena(h)
      ensures g'.IsBlocked(h) <==> Occupied(us, h)
    {
      if h == u.pos {
        assert us[|units|].pos == h;
      } else if Occupied(units, h) {
        var k :| 0 <= k < |units| && units[k].alive && units[k].pos == h;
        assert us[k].alive && us[k].pos == h;
      }
    }
    forall i, j | 0 <= i < j < |us| && us[i].alive && us[j].alive
      ensures us[i].pos != us[j].pos
    {
      assert !Occupied(units, u.pos);
    }
  }

  lemma CountsGrown(units: seq<FightUnit>, alive: seq<int>, summonAlive: seq<int>, u: FightUnit)
    requires CountsOk(units, alive, summonAlive) && Newborn(u, |units| + 1)
    ensures CountsOk(units + [u], if u.isSummon then alive else More(alive, u.team), if u.isSummon then More(summonAlive, u.team) else summonAlive)
  {
    assert (units + [u])[..|units|] == units;
  }

  lemma AurasGrown(units: seq<FightUnit>, members: seq<seq<seq<int>>>, u: FightUnit)
    requires AurasOk(units, members) && Newborn(u, |units| + 1)
    ensures AurasOk(units + [u], members + [u.auraMembers])
  {
    var us, ms := units + [u], members + [u.auraMembers];
    forall j, k | 0 <= j < |us| && 0 <= k < |us[j].statuses|
      ensures TagOk(us, ms, j, us[j].statuses[k])
    {
      assert TagOk(units, members, j, units[j].statuses[k]);
    }
    forall i, a | 0 <= i < |us| && 0 <= a < |ms[i]|
      ensures MembersOk(us, AuraKey(i, a), us[i].template.auras[a].status, ms[i][a])
    {
      if i < |units| {
        assert MembersOk(units, AuraKey(i, a), units[i].template.auras[a].status, members[i][a]);
      }
    }
  }

  lemma ChannelsGrown(units: seq<FightUnit>, castSerial: int, chan: seq<ChanEvent>, u: FightUnit)
    requires ChannelsOk(units, castSerial, chan) && u.activeChannelSerial == 0
    ensures ChannelsOk(units + [u], castSerial, chan)
  {
    var us := units + [u];
    forall k | 0 <= k < |chan| && chan[k].Begin?
      ensures Stop(chan[k].serial) in chan || us[chan[k].caster].activeChannelSerial == chan[k].serial
    {
      assert 0 <= chan[k].caster < |units|;
    }
  }

  lemma SpawnLog(s: FightState, u: FightUnit, e: Event)
    requires LogOk(s.units, s.log) && GridOk(s.units, s.grid) && IdsOk(s.units, s.summonsSpawned) && s.summonsSpawned < MAX_SUMMONS_PER_FIGHT
    requires Newborn(u, |s.units| + 1) && u.isSummon && u.id == SUMMON_UNIT_BASE + s.summonsSpawned + 1 && !s.grid.IsBlocked(u.pos)
    requires e.Spawn? && e == Spawn(e.tick, u.id, u.team, u.pos, u.maxHp, u.hp, true)
    ensures LogOk(s.units + [u], s.log + [e])
  {
    FreeIsVacant(s, u.pos);
    ReplayAppend(s.log, e);
    var v := Replay(s.log);
    assert u.id in v ==> KnownId(s.units, u.id);
    var us := s.units + [u];
    assert us[|s.units|].id == u.id;
    forall id | id in Apply(v, e)
      ensures KnownId(us, id)
    {
      if id != u.id {
        assert KnownId(s.units, id);
        var k :| 0 <= k < |s.units| && s.units[k].id == id;
        assert us[k].id == id;
      }
    }
  }

  lemma SpawnStep(s: FightState, u: FightUnit, g: Grid, e: Event)
    requires Inv(s) && s.grid.Valid() && s.summonsSpawned < MAX_SUMMONS_PER_FIGHT
    requires Newborn(u, |s.units| + 1) && u.isSummon && u.id == SUMMON_UNIT_BASE + s.summonsSpawned + 1 && !s.grid.IsBlocked(u.pos)
    requires g.Valid() && g.width == s.grid.width && g.height == s.grid.height
    requires forall h | InArena(h) :: g.IsBlocked(h) == if h == u.pos then true else s.grid.IsBlocked(h)
    requires e.Spawn? && e == Spawn(e.tick, u.id, u.team, u.pos, u.maxHp, u.hp, true)
    ensures Inv(s.(units := s.units + [u], members := s.members + [u.auraMembers], grid := g, log := s.log + [e],
                   summonAlive := More(s.summonAlive, u.team), summonsSpawned := s.summonsSpawned + 1))
    ensures Continues(s, s.(units := s.units + [u], log := s.log + [e], summonsSpawned := s.summonsSpawned + 1))
    ensures MembersOf(s.units + [u]) == MembersOf(s.units) + [u.auraMembers]
  {
    hide UnitsOk, IdsOk, LogOk, CountsOk, GridOk, AurasOk, ChannelsOk, QueuesOk, UnitOk;
    SpawnLog(s, u, e);
    SpawnBoard(s, u, g);
    QueuesAfterChan(s, s.(units := s.units + [u], members := s.members + [u.auraMembers], grid := g, log := s.log + [e],
                          summonAlive := More(s.summonAlive, u.team), summonsSpawned := s.summonsSpawned + 1));
  }

  lemma SpawnBoard(s: FightState, u: FightUnit, g: Grid)
    requires Inv(s) && s.grid.Valid() && s.summonsSpawned < MAX_SUMMONS_PER_FIGHT
    requires Newborn(u, |s.units| + 1) && u.isSummon && u.id == SUMMON_UNIT_BASE + s.summonsSpawned + 1 && !s.grid.IsBlocked(u.pos)
    requires g.Valid() && g.width == s.grid.width && g.height == s.grid.height
    requires forall h | InArena(h) :: g.IsBlocked(h) == if h == u.pos then true else s.grid.IsBlocked(h)
    ensures UnitsOk(s.units + [u]) && IdsOk(s.units + [u], s.summonsSpawned + 1) && GridOk(s.units + [u], g)
    ensures CountsOk(s.units + [u], s.alive, More(s.summonAlive, u.team))
    ensures AurasOk(s.units + [u], s.members + [u.auraMembers]) && ChannelsOk(s.units + [u], s.castSerial, s.chan)
  {
    hide UnitsOk, IdsOk, LogOk, CountsOk, GridOk, AurasOk, ChannelsOk, QueuesOk, UnitOk;
    UnitsGrown(s.units, u);
    IdsGrown(s.units, u, s.summonsSpawned);
    GridGrown(s.units, s.grid, u, g);
    CountsGrown(s.units, s.alive, s.summonAlive, u);
    AurasGrown(s.units, s.members, u);
    ChannelsGrown(s.units, s.castSerial, s.chan, u);
  }

  // Before the first event: everything but the log.
  ghost predicate Lineup(s: FightState) {
    && UnitsOk(s.units) && IdsOk(s.units, s.summonsSpawned) && GridOk(s.units, s.grid)
    && CountsOk(s.units, s.alive, s.summonAlive) && AurasOk(s.units, s.members)
    && ChannelsOk(s.units, s.castSerial, s.chan) && QueuesOk(s)
  }

  // One more fighter takes its place.
  lemma LineupStep(s: FightState, u: FightUnit, g: Grid)
    requires Lineup(s) && s.grid.Valid() && Newborn(u, |s.units| + 1) && !u.isSummon && !s.grid.IsBlocked(u.pos)
    requires !(SUMMON_UNIT_BASE < u.id <= SUMMON_UNIT_BASE + MAX_SUMMONS_PER_FIGHT)
    requires forall i | 0 <= i < |s.units| :: s.units[i].id != u.id
    requires g.Valid() && g.width == s.grid.width && g.height == s.grid.height
    requires forall h | InArena(h) :: g.IsBlocked(h) == if h == u.pos then true else s.grid.IsBlocked(h)
    ensures Lineup(s.(units := s.units + [u], members := s.members + [u.auraMembers], grid := g, alive := More(s.alive, u.team)))
  {
    assert IdsOk(s.units + [u], s.summonsSpawned);
    hide UnitsOk, IdsOk, LogOk, CountsOk, GridOk, AurasOk, ChannelsOk, QueuesOk, UnitOk;
    UnitsGrown(s.units, u);
    GridGrown(s.units, s.grid, u, g);
    CountsGrown(s.units, s.alive, s.summonAlive, u);
    AurasGrown(s.units, s.members, u);
    ChannelsGrown(s.units, s.castSerial, s.chan, u);
    QueuesAfterChan(s, s.(units := s.units + [u], members := s.members + [u.auraMembers], grid := g, alive := More(s.alive, u.team)));
  }

  // ---- Auras -----------------------------------------------------------------------------------

  function WithList(members: seq<seq<seq<int>>>, i: nat, a: nat, list: seq<int>): seq<seq<seq<int>>>
    requires i < |members| && a < |members[i]|
  {
    members[i := members[i][a := list]]
  }

  // A member that does not (any longer) carry the aura's status may be dropped; order never matters.
  lemma ListStep(s: FightState, i: nat, a: nat, list: seq<int>)
    requires Inv(s) && i < |s.units| && a < |s.members[i]|
    requires forall x | x in list :: x in s.members[i][a]
    requires forall x | x in s.members[i][a] && x !in list ::
               0 <= x < |s.units| && forall k | 0 <= k < |s.units[x].statuses| :: s.units[x].statuses[k].aura != AuraKey(i, a)
    ensures Inv(s.(members := WithList(s.members, i, a, list)))
  {
    AurasRelisted(s.units, s.members, i, a, list);
    QueuesKept(s, s.(members := WithList(s.members, i, a, list)));
    hide UnitsOk, IdsOk, LogOk, CountsOk, GridOk, AurasOk, ChannelsOk, QueuesOk;
  }

  lemma AurasRelisted(units: seq<FightUnit>, members: seq<seq<seq<int>>>, i: nat, a: nat, list: seq<int>)
    requires AurasOk(units, members) && i < |units| && a < |members[i]|
    requires forall x | x in list :: x in members[i][a]
    requires forall x | x in members[i][a] && x !in list ::
               0 <= x < |units| && forall k | 0 <= k < |units[x].statuses| :: units[x].statuses[k].aura != AuraKey(i, a)
    ensures AurasOk(units, WithList(members, i, a, list))
  {
    var ms := WithList(members, i, a, list);
    forall j, k | 0 <= j < |units| && 0 <= k < |units[j].statuses|
      ensures TagOk(units, ms, j, units[j].statuses[k])
    {
      assert TagOk(units, members, j, units[j].statuses[k]);
    }
    forall h, b | 0 <= h < |units| && 0 <= b < |ms[h]|
      ensures MembersOk(units, AuraKey(h, b), units[h].template.auras[b].status, ms[h][b])
    {
      assert MembersOk(units, AuraKey(h, b), units[h].template.auras[b].status, members[h][b]);
    }
  }

  // Unit j leaves aura (i, a): it loses the status with the aura's key and drops off the list.
  lemma LeaveStep(s: FightState, i: nat, a: nat, j: nat, k: nat, u: FightUnit, e: Event, list: seq<int>)
    requires Inv(s) && i < |s.units| && a < |s.members[i]| && j < |s.units| && s.units[j].alive && k < |s.units[j].statuses|
    requires s.units[j].statuses[k].aura == AuraKey(i, a)
    requires SameFrame(s.units[j], u) && u.statuses == s.units[j].statuses[..k] + s.units[j].statuses[k + 1..]
    requires UnitOk(u, |s.units|)
    requires forall x :: x in list <==> x in s.members[i][a] && x != j
    requires IsLocal(e) && e.unit == u.id && LegalLocal(AsView(s.units[j]), e) && AsView(u) == ApplyLocal(AsView(s.units[j]), e)
    ensures Inv(s.(units := s.units[j := u], log := s.log + [e], members := WithList(s.members, i, a, list)))
  {
    LocalLog(s.units, s.log, j, u, e, s.summonsSpawned);
    assert UnitOk(s.units[j], |s.units|);
    AurasAfterLeave(s.units, s.members, i, a, j, k, u, list);
    UnitsKept(s.units, j, u, s.summonsSpawned);
    CountsKept(s, j, u);
    GridKept(s, j, u);
    ChannelsKept(s, j, u);
    QueuesKept(s, s.(units := s.units[j := u], log := s.log + [e], members := WithList(s.members, i, a, list)));
    hide UnitsOk, IdsOk, LogOk, CountsOk, GridOk, AurasOk, ChannelsOk, QueuesOk, SameFrame, SameSide, UnitOk;
  }

  lemma AurasAfterLeave(units: seq<FightUnit>, members: seq<seq<seq<int>>>, i: nat, a: nat, j: nat, k: nat, u: FightUnit, list: seq<int>)
    requires AurasOk(units, members) && i < |units| && a < |members[i]| && j < |units| && k < |units[j].statuses|
    requires TagsUnique(units[j].statuses) && units[j].statuses[k].aura == AuraKey(i, a)
    requires u.template == units[j].template && u.alive == units[j].alive && u.used == units[j].used
    requires u.statuses == units[j].statuses[..k] + units[j].statuses[k + 1..]
    requires forall x :: x in list <==> x in members[i][a] && x != j
    ensures AurasOk(units[j := u], WithList(members, i, a, list))
  {
    TagsAfterLeave(units, members, i, a, j, k, u, list);
    var us, ms := units[j := u], WithList(members, i, a, list);
    forall h, b | 0 <= h < |us| && 0 <= b < |ms[h]|
      ensures MembersOk(us, AuraKey(h, b), us[h].template.auras[b].status, ms[h][b])
    {
      var key, kind := AuraKey(h, b), us[h].template.auras[b].status;
      assert MembersOk(units, key, kind, members[h][b]);
      if h != i || b != a {
        KeysDiffer(h, b, i, a);
        StillCarries(units[j].statuses, k, key, kind);
      }
    }
  }

  lemma StillCarries(ss: seq<Status>, k: nat, key: int, kind: StatusType)
    requires k < |ss| && ss[k].aura != key
    ensures Carries(ss, key, kind) ==> Carries(ss[..k] + ss[k + 1..], key, kind)
  {
    if Carries(ss, key, kind) {
      var q :| 0 <= q < |ss| && ss[q].aura == key && ss[q].kind == kind;
      assert (ss[..k] + ss[k + 1..])[if q < k then q else q - 1] == ss[q];
    }
  }

  lemma TagsAfterLeave(units: seq<FightUnit>, members: seq<seq<seq<int>>>, i: nat, a: nat, j: nat, k: nat, u: FightUnit, list: seq<int>)
    requires AurasOk(units, members) && i < |units| && a < |members[i]| && j < |units| && k < |units[j].statuses|
    requires TagsUnique(units[j].statuses) && units[j].statuses[k].aura == AuraKey(i, a)
    requires u.template == units[j].template && u.statuses == units[j].statuses[..k] + units[j].statuses[k + 1..]
    requires forall x :: x in list <==> x in members[i][a] && x != j
    ensures var us, ms := units[j := u], WithList(members, i, a, list);
            forall x, q | 0 <= x < |us| && 0 <= q < |us[x].statuses| :: TagOk(us, ms, x, us[x].statuses[q])
  {
    KeyParts(i, a);
    hide KeyHolder, KeyAura;
    var us, ms, ss := units[j := u], WithList(members, i, a, list), units[j].statuses;
    forall x, q | 0 <= x < |us| && 0 <= q < |us[x].statuses|
      ensures TagOk(us, ms, x, us[x].statuses[q])
    {
      var was := if x == j && q >= k then q + 1 else q;
      assert TagOk(units, members, x, units[x].statuses[was]);
      assert us[x].statuses[q] == units[x].statuses[was];
    }
  }

  lemma KeysDiffer(h: nat, b: nat, i: nat, a: nat)
    requires b < 32 && a < 32 && (h != i || b != a)
    ensures AuraKey(h, b) != AuraKey(i, a)
  {
  }

  // Unit j enters aura (i, a): it gains the tagged status and joins the list.
  lemma EnterStep(s: FightState, i: nat, a: nat, j: nat, t: Status, u: FightUnit, e: Event, list: seq<int>)
    requires Inv(s) && i < |s.units| && a < |s.members[i]| && j < |s.units| && s.units[j].alive
    requires t.aura == AuraKey(i, a) && t.kind == s.units[i].template.auras[a].status && t.expires == FOREVER
    requires j !in s.members[i][a] && SameStand(s.units[j], u) && u.statuses == s.units[j].statuses + [t] && u.used == s.units[j].used - {t.aura}
    requires UnitOk(u, |s.units|)
    requires forall x :: x in list <==> x in s.members[i][a] || x == j
    requires IsLocal(e) && e.unit == u.id && LegalLocal(AsView(s.units[j]), e) && AsView(u) == ApplyLocal(AsView(s.units[j]), e)
    ensures Inv(s.(units := s.units[j := u], log := s.log + [e], members := WithList(s.members, i, a, list)))
  {
    LocalLog(s.units, s.log, j, u, e, s.summonsSpawned);
    AurasAfterEnter(s.units, s.members, i, a, j, t, u, list);
    UnitsKept(s.units, j, u, s.summonsSpawned);
    CountsKept(s, j, u);
    GridKept(s, j, u);
    ChannelsKept(s, j, u);
    QueuesKept(s, s.(units := s.units[j := u], log := s.log + [e], members := WithList(s.members, i, a, list)));
    hide UnitsOk, IdsOk, LogOk, CountsOk, GridOk, AurasOk, ChannelsOk, QueuesOk, SameStand, SameSide, UnitOk;
  }

  lemma AurasAfterEnter(units: seq<FightUnit>, members: seq<seq<seq<int>>>, i: nat, a: nat, j: nat, t: Status, u: FightUnit, list: seq<int>)
    requires AurasOk(units, members) && i < |units| && a < |members[i]| && j < |units|
    requires t.aura == AuraKey(i, a) && t.kind == units[i].template.auras[a].status
    requires u.template == units[j].template && u.alive == units[j].alive && u.used == units[j].used - {t.aura} && u.statuses == units[j].statuses + [t]
    requires forall x :: x in list <==> x in members[i][a] || x == j
    ensures AurasOk(units[j := u], WithList(members, i, a, list))
  {
    KeyParts(i, a);
    hide KeyHolder, KeyAura;
    var us, ms, ss := units[j := u], WithList(members, i, a, list), units[j].statuses;
    forall x, q | 0 <= x < |us| && 0 <= q < |us[x].statuses|
      ensures TagOk(us, ms, x, us[x].statuses[q])
    {
      if x != j || q < |ss| {
        assert TagOk(units, members, x, units[x].statuses[q]);
      }
    }
    forall h, b | 0 <= h < |us| && 0 <= b < |ms[h]|
      ensures MembersOk(us, AuraKey(h, b), us[h].template.auras[b].status, ms[h][b])
    {
      MembersAfterEnter(units, members, i, a, j, t, u, list, h, b);
    }
  }

  lemma MembersAfterEnter(units: seq<FightUnit>, members: seq<seq<seq<int>>>, i: nat, a: nat, j: nat, t: Status, u: FightUnit, list: seq<int>, h: int, b: int)
    requires AurasOk(units, members) && i < |units| && a < |members[i]| && j < |units|
    requires t.aura == AuraKey(i, a) && t.kind == units[i].template.auras[a].status
    requires u.template == units[j].template && u.alive == units[j].alive && u.used == units[j].used - {t.aura} && u.statuses == units[j].statuses + [t]
    requires forall x :: x in list <==> x in members[i][a] || x == j
    requires 0 <= h < |units| && 0 <= b < |members[h]|
    ensures 0 <= b < |WithList(members, i, a, list)[h]|
    ensures MembersOk(units[j := u], AuraKey(h, b), units[h].template.auras[b].status, WithList(members, i, a, list)[h][b])
  {
    var key, kind, ss := AuraKey(h, b), units[h].template.auras[b].status, units[j].statuses;
    assert MembersOk(units, key, kind, members[h][b]);
    KeyParts(h, b);
    KeyParts(i, a);
    hide AurasOk, KeyHolder, KeyAura, AuraKey, TagOk;
    if Carries(ss, key, kind) {
      var q :| 0 <= q < |ss| && ss[q].aura == key && ss[q].kind == kind;
      assert u.statuses[q] == ss[q];
    }
    assert u.statuses[|ss|] == t;
  }

  // A unit outside aura (i, a) carries no status with its key, so gaining one keeps the tags unique.
  lemma OutsiderUntagged(s: FightState, i: nat, a: nat, j: nat)
    requires Inv(s) && i < |s.units| && a < |s.members[i]| && j < |s.units| && j !in s.members[i][a]
    ensures forall k | 0 <= k < |s.units[j].statuses| :: s.units[j].statuses[k].aura != AuraKey(i, a)
  {
    assert AurasOk(s.units, s.members);
    KeyParts(i, a);
    hide Inv, UnitsOk, KeyHolder, KeyAura;
    forall k | 0 <= k < |s.units[j].statuses|
      ensures s.units[j].statuses[k].aura != AuraKey(i, a)
    {
      assert TagOk(s.units, s.members, j, s.units[j].statuses[k]);
    }
  }

  // A unit's member lists are replaced by the ones the invariant already speaks of.
  lemma RelistStep(s: FightState, i: nat, u: FightUnit, ms: seq<seq<seq<int>>>)
    requires i < |s.units| && Inv(s.(members := ms)) && ms == MembersOf(s.units[i := u])
    requires u == s.units[i].(auraMembers := u.auraMembers) && |u.auraMembers| == |s.units[i].auraMembers|
    ensures Inv(s.(units := s.units[i := u], members := ms))
    ensures Continues(s, s.(units := s.units[i := u], members := ms))
  {
    hide UnitsOk, IdsOk, LogOk, GridOk, CountsOk, AurasOk, ChannelsOk, QueuesOk;
    var t := s.(members := ms);
    RelistUnits(s.units, i, u, s.summonsSpawned);
    UnseenLog(s.units, s.log, i, u, s.summonsSpawned);
    RelistCounts(s.units, s.alive, s.summonAlive, i, u);
    RelistGrid(s.units, s.grid, i, u);
    RelistAuras(s.units, ms, i, u);
    ChannelsKept(t, i, u);
    QueuesKept(t, t.(units := s.units[i := u]));
  }

  lemma RelistCounts(units: seq<FightUnit>, alive: seq<int>, summonAlive: seq<int>, i: nat, u: FightUnit)
    requires CountsOk(units, alive, summonAlive) && i < |units| && u == units[i].(auraMembers := u.auraMembers)
    ensures CountsOk(units[i := u], alive, summonAlive)
  {
    CountSame(units, units[i := u], 0, true);
    CountSame(units, units[i := u], 0, false);
    CountSame(units, units[i := u], 1, true);
    CountSame(units, units[i := u], 1, false);
  }

  lemma RelistUnits(units: seq<FightUnit>, i: nat, u: FightUnit, n: nat)
    requires UnitsOk(units) && IdsOk(units, n) && i < |units|
    requires u == units[i].(auraMembers := u.auraMembers) && |u.auraMembers| == |units[i].auraMembers|
    ensures UnitsOk(units[i := u]) && IdsOk(units[i := u], n)
  {
    assert UnitOk(units[i], |units|);
  }

  lemma RelistGrid(units: seq<FightUnit>, g: Grid, i: nat, u: FightUnit)
    requires GridOk(units, g) && i < |units| && u.alive == units[i].alive && u.pos == units[i].pos
    ensures GridOk(units[i := u], g)
  {
    var us := units[i := u];
    forall h | InArena(h)
      ensures Occupied(us, h) <==> Occupied(units, h)
    {
      if Occupied(units, h) {
        var k :| 0 <= k < |units| && units[k].alive && units[k].pos == h;
        assert us[k].alive && us[k].pos == h;
      }
    }
  }

  lemma RelistAuras(units: seq<FightUnit>, ms: seq<seq<seq<int>>>, i: nat, u: FightUnit)
    requires AurasOk(units, ms) && i < |units| && u == units[i].(auraMembers := u.auraMembers)
    ensures AurasOk(units[i := u], ms)
  {
    var us := units[i := u];
    forall j, k | 0 <= j < |us| && 0 <= k < |us[j].statuses|
      ensures TagOk(us, ms, j, us[j].statuses[k])
    {
      assert TagOk(units, ms, j, units[j].statuses[k]);
    }
    forall h, b | 0 <= h < |us| && 0 <= b < |ms[h]|
      ensures MembersOk(us, AuraKey(h, b), us[h].template.auras[b].status, ms[h][b])
    {
      assert MembersOk(units, AuraKey(h, b), units[h].template.auras[b].status, ms[h][b]);
    }
  }

  // ---- Channels --------------------------------------------------------------------------------

  lemma StopStep(s: FightState, i: nat, u: FightUnit)
    requires Inv(s) && i < |s.units| && SameSide(s.units[i], u) && u.pos == s.units[i].pos && UnitOk(u, |s.units|)
    requires u.activeChannelSerial == 0 && u.statuses == s.units[i].statuses && AsView(u) == AsView(s.units[i])
    ensures Inv(s.(units := s.units[i := u], chan := Ended(s.chan, s.units[i])))
    ensures Continues(s, s.(units := s.units[i := u], chan := Ended(s.chan, s.units[i]))) && MembersOf(s.units[i := u]) == MembersOf(s.units)
  {
    hide UnitsOk, IdsOk, LogOk, CountsOk, GridOk, AurasOk, ChannelsOk, QueuesOk, UnitOk, AsView, Continues;
    SoloContinues(s, s.(units := s.units[i := u], chan := Ended(s.chan, s.units[i])), i);
    UnseenLog(s.units, s.log, i, u, s.summonsSpawned);
    ChannelsAfterStop(s.units, s.castSerial, s.chan, i, u);
    UnitsKept(s.units, i, u, s.summonsSpawned);
    StopBoard(s, i, u);
    QueuesAfterChan(s, s.(units := s.units[i := u], chan := Ended(s.chan, s.units[i])));
  }

  lemma StopBoard(s: FightState, i: nat, u: FightUnit)
    requires Inv(s) && i < |s.units| && SameSide(s.units[i], u) && u.pos == s.units[i].pos && u.statuses == s.units[i].statuses
    ensures CountsOk(s.units[i := u], s.alive, s.summonAlive) && GridOk(s.units[i := u], s.grid) && AurasOk(s.units[i := u], s.members)
  {
    hide UnitsOk, IdsOk, LogOk, CountsOk, GridOk, AurasOk, ChannelsOk, QueuesOk;
    StatusesUnchanged(u.statuses);
    NothingUsed(s.units[i], u);
    CountsKept(s, i, u);
    GridKept(s, i, u);
    AurasKept(s, i, u);
  }

  lemma StatusesUnchanged(ss: seq<Status>)
    ensures StatusesSafe(ss, ss)
  {
    forall k | 0 <= k < |ss|
      ensures Carries(ss, ss[k].aura, ss[k].kind)
    {
    }
  }

  lemma BeginIdleStep(s: FightState, i: nat, u: FightUnit)
    requires Inv(s) && i < |s.units| && SameSide(s.units[i], u) && u.pos == s.units[i].pos && UnitOk(u, |s.units|) && u.alive
    requires s.units[i].activeChannelSerial == 0 && u.activeChannelSerial == s.castSerial + 1
    requires u.statuses == s.units[i].statuses && AsView(u) == AsView(s.units[i])
    ensures Inv(s.(units := s.units[i := u], castSerial := s.castSerial + 1, chan := s.chan + [Begin(s.castSerial + 1, i)]))
  {
    hide UnitsOk, IdsOk, LogOk, CountsOk, GridOk, AurasOk, ChannelsOk, QueuesOk, UnitOk, AsView;
    UnseenLog(s.units, s.log, i, u, s.summonsSpawned);
    StatusesUnchanged(u.statuses);
    NothingUsed(s.units[i], u);
    ChannelsAfterBegin(s.units, s.castSerial, s.chan, i, u);
    UnitsKept(s.units, i, u, s.summonsSpawned);
    CountsKept(s, i, u);
    GridKept(s, i, u);
    AurasKept(s, i, u);
    QueuesAfterChan(s, s.(units := s.units[i := u], castSerial := s.castSerial + 1, chan := s.chan + [Begin(s.castSerial + 1, i)]));
  }

  // A new channel gets a serial nobody ever had; whatever channel was still open ends.
  lemma BeginStep(s: FightState, i: nat, u: FightUnit)
    requires Inv(s) && i < |s.units| && SameSide(s.units[i], u) && u.pos == s.units[i].pos && UnitOk(u, |s.units|) && u.alive
    requires u.activeChannelSerial == s.castSerial + 1 && u.statuses == s.units[i].statuses && AsView(u) == AsView(s.units[i])
    ensures var t := s.(units := s.units[i := u], castSerial := s.castSerial + 1, chan := Ended(s.chan, s.units[i]) + [Begin(s.castSerial + 1, i)]);
            Inv(t) && Continues(s, t) && MembersOf(s.units[i := u]) == MembersOf(s.units)
  {
    hide Inv;
    var idle := u.(activeChannelSerial := 0);
    StopStep(s, i, idle);
    var t := s.(units := s.units[i := idle], chan := Ended(s.chan, s.units[i]));
    BeginIdleStep(t, i, u);
    assert t.units[i := u] == s.units[i := u];
  }

  lemma ChannelsAfterBegin(units: seq<FightUnit>, castSerial: int, chan: seq<ChanEvent>, i: nat, u: FightUnit)
    requires i < |units| && ChannelsOk(units, castSerial, chan) && u.activeChannelSerial == castSerial + 1 && units[i].activeChannelSerial == 0
    ensures ChannelsOk(units[i := u], castSerial + 1, chan + [Begin(castSerial + 1, i)])
  {
    var c, us := chan + [Begin(castSerial + 1, i)], units[i := u];
    assert c[|chan|] == Begin(castSerial + 1, i);
    forall k | 0 <= k < |us| && us[k].activeChannelSerial != 0
      ensures Begin(us[k].activeChannelSerial, k) in c && Stop(us[k].activeChannelSerial) !in c
    {
      if k != i {
        assert Begin(units[k].activeChannelSerial, k) in chan;
      }
    }
    forall k | 0 <= k < |c| && c[k].Begin?
      ensures Stop(c[k].serial) in c || us[c[k].caster].activeChannelSerial == c[k].serial
    {
      if k < |chan| {
        assert chan[k] == c[k];
        if Stop(c[k].serial) in chan {
          assert Stop(c[k].serial) in c;
        }
      }
    }
  }

  // A delayed effect of a live channel runs.
  lemma RunStep(s: FightState, i: nat)
    requires Inv(s) && i < |s.units| && s.units[i].activeChannelSerial != 0
    ensures Inv(s.(chan := s.chan + [Run(s.units[i].activeChannelSerial)]))
    ensures Continues(s, s.(chan := s.chan + [Run(s.units[i].activeChannelSerial)]))
  {
    ChannelsAfterRun(s.units, s.castSerial, s.chan, i);
    QueuesAfterChan(s, s.(chan := s.chan + [Run(s.units[i].activeChannelSerial)]));
    hide UnitsOk, IdsOk, LogOk, CountsOk, GridOk, AurasOk, ChannelsOk, QueuesOk;
  }

  lemma ChannelsAfterRun(units: seq<FightUnit>, castSerial: int, chan: seq<ChanEvent>, i: nat)
    requires i < |units| && ChannelsOk(units, castSerial, chan) && units[i].activeChannelSerial != 0
    ensures ChannelsOk(units, castSerial, chan + [Run(units[i].activeChannelSerial)])
  {
    var c := chan + [Run(units[i].activeChannelSerial)];
    forall k | 0 <= k < |units| && units[k].activeChannelSerial != 0
      ensures Begin(units[k].activeChannelSerial, k) in c && Stop(units[k].activeChannelSerial) !in c
    {
      assert Begin(units[k].activeChannelSerial, k) in chan;
    }
    forall k | 0 <= k < |c| && c[k].Begin?
      ensures Stop(c[k].serial) in c || units[c[k].caster].activeChannelSerial == c[k].serial
    {
      assert chan[k] == c[k];
      if Stop(c[k].serial) in chan {
        assert Stop(c[k].serial) in c;
      }
    }
  }
}
