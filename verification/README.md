# W2F: a verified model

W2F is a deterministic auto-battler server. This project models its four hard parts in Dafny and proves what
each of them promises, for every input, every run and every ability:

- **The fight engine** (`Hex`, `GraphSearch`, `Pathfinder`, `CombatLog`, `Dots`, `CombatState`, `CombatSteps`,
  `CombatRules`, `CombatEffects`, `CombatTurns`, `CombatSimulator`). The client never simulates: it replays the event log.
  So the central theorem is a refinement. `Fight.Run` leaves a log that keeps the rules a viewer can check, and folding it
  gives exactly the positions, HP, shields and lives the fight ended with. The invariant behind it ties the units to the
  log, the grid, the team counters, the auras and the channels. And the fight really happens: `CombatTurns` says what a
  turn, a phase and a tick are, as relations between states, and every tick of every fight is one. Formulas,
  selectors and dice are functions of what has happened, about which nothing is assumed (`CombatEffects.Numbers`); what
  is done with what they say follows the source.
- **The copy economy** (`Items`, `ChampionPool`, `Roster`, `RosterMerge`, `RosterLaws`, `UnitRosters`, `Offers`, `Players`,
  `SeatActions`, `Placements`, `Match`, `Traits`). Copies of champions move between the pool, shop slots, gift offers and rosters; three equal units merge and
  cascade. The server's own audit (`VerifyPoolIntegrity`) is proved to hold after every action of every match, and with
  it that no guarded return to the pool ever fails. Item components are conserved through recipes. Each action of a player is
  accepted if and only if its rule allows it, and `RosterLaws`, `Offers` and `SeatActions` say, over cells, slots and recipes,
  what the seat has afterwards.
- **The snapshot codec** (`Bytes`, `SnapshotFormat`, `SnapshotWriter`, `SnapshotReader`). Writing and reading are inverse
  to each other, and exactly the encodings of matches that fit are accepted.
- **The JSON reader** (`JsonNumber`, `JsonString`, `JsonTrivia`, `JsonGrammar`, `JsonParser`). Exactly the texts of the
  grammar (sections 2, 6 and 7 of RFC 8259, with comments) are accepted, and mean exactly one value. Strings become UTF-8
  (section 3 of RFC 3629).

Where the source updates state step by step, so does the model: the classes carry the source's fields and their methods are
proved against functions on values, about which the theorems are stated. `Fight.State()`, `UnitRoster.State()` and
`MatchManager.Views()` are those values.

## Findings

Where the code falls short of what it promises, the failing input and the exact condition are proved.

- **Numbers with many decimal places convert wrongly** (server/src/Json.cpp:11-15, 40-61). Powers of ten are 64-bit words.
  `ToScaled(decimals)` is exact for every number with at most `decimals + 18` places; beyond that it is exact if and only
  if the wrapped divisor leaves a rest, and from `decimals + 64` places on it divides by zero (`JsonNumber.ToScaled`).
  68739955140067328 / 10^37 converts to 1 (`TinyScalesToOne`), and 1e-19 seconds become minus five ticks
  (`TicksBelowZero`). The reader accepts both (`BelowOneIsWritten`).
- **A big cash-out cannot be restored** (server/src/Snapshot.cpp:519, server/src/MatchTraits.cpp:24). The decoder accepts
  tiers 0 to 4, a player can be offered tiers 1 to 6; a snapshot fits exactly without an offer of tier 5 or 6
  (`SnapshotFormat.CashOutFits`, `CashOutIsLost`).
- **A failed restore can leave units behind** (server/src/UnitRoster.cpp:342-362). The header promises an empty roster on
  failure (server/include/w2f/UnitRoster.h:51). That holds if and only if the first thing refused is not the id of a unit
  that is not the first (`UnitRosters.RestoreLeavesNothing`, with the input in `RestoreCanLeaveAUnit`). And a roster that only
  the final check refuses leaves its serial counter behind (`RestoreCanKeepTheSerial`; in general `RestoreSerial`).
- **Not every swap is allowed** (server/src/UnitRoster.cpp:244, 260-264). The header says that swaps never change the board
  population and so always are (server/include/w2f/UnitRoster.h:66-67). A swap is accepted if and only if no plant would
  come to sit on the bench and the board slots it adds, if any, fit the capacity (`UnitRosters.SwapAllowedExactly`). A champion
  of two slots on a full board is refused (`TwoSlotSwapRefused`), and so is any trade between the bench and a plant, from
  either side and with room to spare (`PlantSwapRefused`). Without plants and with equal slots the header is right
  (`EqualsAlwaysSwap`).
- **The counts of the match and of the fight can differ** (server/src/Trait.cpp:153-172, server/src/CombatSimulator.cpp:200).
  The fight leaves out champions without combat stats; the counts agree if and only if every holder on the board has them
  (`Traits.CountsAgree`). On a board with one holder that has none the match counts 1 and the fight 0 (`CountsCanDiffer`). A
  data file cannot define such a champion (server/src/ChampionLoader.cpp:1434), a database made in code can
  (server/src/ChampionDatabase.cpp:61, 114).

## Model

| member | source | states |
|---|---|---|
| Hex.NeighborsExact | server/include/w2f/Hex.h:111-118 | a hex is listed exactly if it is in bounds and one step away |
| Hex.DistanceTriangle | server/include/w2f/Hex.h:51-57 | the distance is a metric: symmetric, 0 only for the hex itself, no detour is shorter |
| Hex.WalkNotShorter | server/include/w2f/Hex.h:50-57 | no walk, however long, gets from one hex to another in fewer steps than their distance |
| Hex.WalkOfDistance | server/include/w2f/Hex.h:50-57 | and some walk takes exactly that many, so the distance is the "minimum number of steps" |
| Hex.AdjacentIsDistanceOne | server/include/w2f/Hex.h:51-66 | two hexes are neighbours exactly if their distance is 1 |
| Hex.NeighborIsAxialStep | server/include/w2f/Hex.h:60-69 | whatever the row parity, direction d is the same axial step: repeated steps walk a straight line |
| Hex.DirectionTowardApproaches | server/include/w2f/Hex.h:67-81 | from any other hex the chosen direction really comes one step closer |
| Hex.BoardToArenaIsometry | server/include/w2f/Hex.h:126-136 | the half turn of the away side keeps every distance |
| GraphSearch.BfsCorrect | server/src/Hex.cpp:30-75 | from every state a breadth-first search can be in it ends with a shortest route to a goal, or with none if there is none |
| GraphSearch.NoShorterRoute | server/src/Hex.cpp:49-64 | when the head of the queue is the first goal, no route to any goal is shorter than its depth |
| Pathfinder.SearchIsShortest | server/src/Hex.cpp:30-75 | a returned path is legal and ends at a goal, no legal path to any goal is shorter, and "not found" means there is none |
| Pathfinder.PathIsRoute | server/src/Hex.cpp:66-73 | the legal paths over free cells are exactly the routes of the searched graph |
| Pathfinder.HexGrid.IsBlocked | server/include/w2f/Hex.h:148 | blocked, or off the grid |
| Pathfinder.HexGrid.SetBlocked | server/src/Hex.cpp:13-16 | exactly the one cell changes, and nothing off the grid |
| Pathfinder.HexPathfinder.NextStamp | server/src/Hex.cpp:34-38 | after the stamp has moved on -- or wrapped and the table was cleared -- no cell carries it: as good as clearing every time |
| Pathfinder.HexPathfinder.Search | server/src/Hex.cpp:30-75 | whatever earlier searches left in the tables, the result is that of a search with clean ones |
| Pathfinder.HexPathfinder.WalkBack | server/src/Hex.cpp:55-62 | the parent links, walked back and reversed, are the route from the start |
| Pathfinder.HexPathfinder.FindPath | server/src/Hex.cpp:77-85 | a shortest free path to the goal, or "no" exactly if there is none |
| Pathfinder.HexPathfinder.FindPathToRange | server/src/Hex.cpp:87-92 | a shortest free path to within range of the target, or "no" exactly if there is none |
| CombatLog.LegalLogIsSound | server/include/w2f/Combat.h:7-10 | every log that keeps the rules shows, at every moment, living units on different arena hexes, no negative HP or shields, and the dead with neither |
| CombatLog.DeadStayDead | server/include/w2f/Combat.h:7-10 | in such a log nobody changes sides, and nothing ever happens to the dead again |
| CombatLog.LegalPrefix | server/include/w2f/Combat.h:7-10 | a viewer may stop anywhere: every prefix keeps the rules and every event was legal where it stood |
| CombatSimulator.Fight.Run | server/src/CombatSimulator.cpp:276-333 | for every ability, item and synergy: the log keeps the rules, replaying it gives exactly the final position, HP, shields and life of every unit, grid and counters agree, no summon is left, no broken channel ran on, it times out exactly if both sides stand, and the winner is who has more units, then more HP; and the whole fight is preparations, ticks and the end as the relations below say |
| CombatSimulator.Fight.Play | server/src/CombatSimulator.cpp:299-319 | the invariant survives every tick to the end; items, synergies, pilots and passives come first, in this order, and from then on tick by tick, each begun with both sides standing, everything a tick asks for happens, up to the tick in which a side falls, at the latest up to the limit |
| CombatSimulator.Fight.Tick | server/src/CombatSimulator.cpp:307-314 | all of it happens, in this order: overtime exactly at the end of the regulation; what has run out is gone; the aura lists are right; everybody takes a turn; interval hooks, due runs and finished channels, the casts, damage over time, the hits; sweeps, hooks, deaths round by round, mana -- nobody comes back to life, and history only grows |
| CombatTurns.EveryTickRuns | server/src/CombatSimulator.cpp:307-319 | so for each tick of a fight: it began with both sides standing, and all its phases ran |
| CombatSimulator.Fight.Resolve | server/src/CombatSimulator.cpp:788-801 | hooks, schedule, casts, damage over time, hits, sweeps, hooks, deaths and mana, one after the other, each as its own row says |
| CombatSimulator.Fight.Prepare | server/src/CombatSimulator.cpp:290-294 | every item's stats, the synergies, every mech's first pilot, and everybody's passives, in this order |
| CombatSimulator.Fight.Announce | server/src/CombatSimulator.cpp:278-289 | one Spawn per fighter, and from then on the log tells the whole state |
| CombatSimulator.Fight.constructor | server/src/CombatSimulator.cpp:186-222 | fighters stand on their hexes in ascending order of id |
| CombatRules.SortByIdKeeps | server/src/CombatSimulator.cpp:204-210 | the canonical order: the same fighters, ascending by id |
| CombatSimulator.Fight.Commit | server/src/CombatSimulator.cpp:526-566 | whenever HP, shields or statuses of a unit change together with the one event that says so, the invariant -- log, grid, counters, auras, channels -- holds again |
| CombatSimulator.Fight.Use | server/src/CombatSimulator.cpp:1799-1810 | the same when the unit uses up what an aura granted it |
| CombatSteps.LocalStep | server/src/CombatSimulator.cpp:526-566 | the step behind it on values |
| CombatSteps.RelocateStep | server/src/CombatSimulator.cpp:603-613 | a walk, blink or push keeps the invariant if the new hex was free and grid, position and event agree |
| CombatSteps.SpawnStep | server/src/CombatSimulator.cpp:1913-1947 | so does a summon with a fresh id on a free hex |
| CombatSteps.DieStep | server/src/CombatSimulator.cpp:2412-2432 | so does a death: counters, grid, channel, statuses and log all follow |
| CombatState.RecomputeMaxHp | server/src/CombatSimulator.cpp:360-370 | 0 <= hp <= maxHp holds again: a maximum that grows gives its growth as HP, one that shrinks clips |
| CombatSimulator.Fight.HealUnit | server/src/CombatSimulator.cpp:1991-2009 | restores exactly the amplified, cut and wounded amount that is missing; silent exactly if that is nothing |
| CombatRules.HealsWhatIsMissing | server/src/CombatSimulator.cpp:1991-2009 | an unmodified heal restores all it can; a wound of 100% stops every heal |
| CombatRules.HealIsExact | server/src/CombatSimulator.cpp:1991-2001 | healing bonus, sudden death and wound each take their percentage, rounded down one after the other: a wound of 40% leaves 60%; never more than is missing |
| CombatRules.StrongestWoundExact | server/src/CombatSimulator.cpp:1999-2001 | only the strongest wound counts |
| CombatSimulator.Fight.DealResolved | server/src/CombatSimulator.cpp:1587-1682 | the next event is the hit -- reduced by the best shield, absorbed as far as the shields hold, HP down to 0 by the rest --, then the ends of the broken shields; the units afterwards are those of the hit, hooks aside, after omnivamp, regeneration and the memory of the killer |
| CombatRules.FollowsHitMeans | server/src/CombatSimulator.cpp:1632-1682 | so nobody but victim and attacker changes HP, nobody loses any more, a victim at 0 HP stays there, and exactly then a rewarding first hit is remembered |
| CombatRules.Absorb | server/src/CombatSimulator.cpp:1598-1606 | oldest shield first; absorbed plus remaining is the damage |
| CombatRules.AbsorbedIsStored | server/src/CombatSimulator.cpp:1598-1606 | the absorbed part is the drop in total capacity and the rise in stored damage |
| CombatRules.UnbrokenKeeps | server/src/CombatSimulator.cpp:1619-1630 | what survives a hit has positive capacity, and no capacity is lost with the broken ones |
| CombatSimulator.Fight.TakeHit | server/src/CombatSimulator.cpp:1598-1617 | HP, shields and the Damage event change together |
| CombatSimulator.Fight.EndBroken | server/src/CombatSimulator.cpp:1619-1630 | one ShieldEnded per shield that is used up |
| CombatSimulator.Fight.Recover | server/src/CombatSimulator.cpp:1639-1648 | omnivamp, then regeneration, each exactly its share of the hit |
| CombatSimulator.Fight.RememberKiller | server/src/CombatSimulator.cpp:1650-1654 | the first rewarding hit that finds its victim at 0 HP |
| CombatSimulator.Fight.ConsumeSpellShield | server/src/CombatSimulator.cpp:1799-1810 | blocks exactly if there is a spell shield; the first one is used up and its end logged |
| CombatSimulator.Fight.LandHit | server/src/CombatSimulator.cpp:1541-1581 | nothing for the dead; nothing but the end of the spell shield for a blocked hit; else the hit minus the tether share, the drain, and then the share on the tether, each with all that follows a hit |
| CombatEffects.LandedHitTells | server/src/CombatSimulator.cpp:1541-1581 | what the log tells of a hit that is not blocked: the Damage event of the victim next, and later that of the tether |
| CombatSimulator.Fight.LandShares | server/src/CombatSimulator.cpp:1575-1580 | the hit, the drain, the redirected share |
| CombatSimulator.Fight.TetherShare | server/src/CombatSimulator.cpp:1562-1573 | the first tether whose source stands takes its percentage |
| CombatSimulator.Fight.ApplyHits | server/src/CombatSimulator.cpp:1541-1583 | every queued hit lands, one after the other in the order of the queue, each with its mitigated amount -- or nothing if that is negative -- as LandHit says; then the queue is empty |
| CombatSimulator.Fight.SweepExecute | server/src/CombatSimulator.cpp:875-890 | executed exactly below the strongest threshold, past shields, credited to whoever applied it first |
| CombatRules.ExecuterExact | server/src/CombatSimulator.cpp:872-879 | the threshold is the strongest one, and the first status of that strength names the executioner |
| CombatSimulator.Fight.ApplyStatusSweeps | server/src/CombatSimulator.cpp:856-891 | unit by unit: once a second each of its statuses heals it by, or costs it, exactly its percentage of the maximum, in order; then it is executed if it is below the threshold |
| CombatSimulator.Fight.Decide | server/src/CombatSimulator.cpp:453-470 | more units win, then more HP; nobody wins exactly if nobody stands |
| CombatSimulator.Fight.GrantStatus | server/src/CombatSimulator.cpp:380-399 | refused exactly for crowd control from another unit against immunity; else merged or added, with one event carrying the HP |
| CombatRules.WithStatusKeeps | server/src/CombatSimulator.cpp:382-399 | a new status keeps the unit in order and HP within bounds |
| CombatRules.StatusIsGranted | server/src/CombatSimulator.cpp:382-399 | a wound or a refreshing status makes the first of its kind the stronger and the longer of the two; everything else is one status more |
| CombatSimulator.Fight.AfflictTarget | server/src/CombatSimulator.cpp:1384-1414 | no duration or a bonus of nothing: no effect; otherwise the status lands with its event or bounces off |
| CombatSimulator.Fight.Afflict | server/src/CombatSimulator.cpp:1397-1413 | one that lands and stuns or knocks up breaks the channel |
| CombatSimulator.Fight.ShieldTarget | server/src/CombatSimulator.cpp:1360-1383 | exactly the gain that fits, amplified and cut like a heal, with its event; nothing else changes |
| CombatRules.RefillStopsAtTheCap | server/src/CombatSimulator.cpp:1366-1371 | an unamplified refill never takes the shields above its cap |
| CombatSimulator.Fight.BurnTarget | server/src/CombatSimulator.cpp:1434-1497 | the new stack, and the wound if the caster inflicts wounds, each with its event; nothing else changes |
| CombatSimulator.Fight.GrantDot | server/src/CombatSimulator.cpp:1441-1484 | exactly the stack below, and its event |
| Dots.NewDot | server/src/CombatSimulator.cpp:1459-1475 | a new stack is on schedule; a refreshing one starts at the tick it inherits |
| Dots.FreshDotDealsItsTotal | server/src/CombatSimulator.cpp:1459-1475 | left alone it deals exactly its total, hit k at start + floor(duration * k / hits), the last exactly at the end, and any two hits differ by at most 1 |
| Dots.DotIsExact | server/src/CombatSimulator.cpp:1511-1519 | the same from every state a stack can be in |
| Dots.LandingsIncrease | server/src/CombatSimulator.cpp:1516-1517 | hits land on strictly increasing ticks |
| CombatRules.RefreshKeepsTheRhythm | server/src/CombatSimulator.cpp:1441-1471 | however often it is refreshed, one stack of the ability is running and its next hit stays where it was |
| CombatRules.SpreadDealsItAll | server/src/CombatSimulator.cpp:671-684 | a spread attack has dealt all of its damage when its time is over |
| CombatSimulator.Fight.TickUnit | server/src/CombatSimulator.cpp:1503-1538 | exactly the due stacks hit, used-up ones go, each kind that has run out ends once, in order |
| CombatSimulator.Fight.TickDots | server/src/CombatSimulator.cpp:1502-1539 | all units, in order |
| CombatRules.NoDotIsLost | server/src/CombatSimulator.cpp:1510-1527 | every bit of raw damage that leaves a stack is in a queued hit, and none is made |
| CombatRules.OnlyDueStacksHit | server/src/CombatSimulator.cpp:1510-1527 | nothing happens to a stack that is not due |
| CombatSimulator.Fight.ExpireEffects | server/src/CombatSimulator.cpp:526-566 | exactly what has run out is gone, what has not is there in order, and max-HP statuses go last |
| CombatSimulator.Fight.ExpireUnit | server/src/CombatSimulator.cpp:526-566 | unit by unit |
| CombatSimulator.Fight.ApplyItem | server/src/CombatSimulator.cpp:2013-2040 | each non-zero stat becomes a permanent status, in order |
| CombatRules.GearedHas | server/src/CombatSimulator.cpp:2018-2035 | every stat an item has is afterwards a permanent status of its unit, with exactly that value |
| CombatSimulator.Fight.FireHook | server/src/CombatSimulator.cpp:1684-1709 | capped or unpaid: nothing; else the counter moves, a charge is spent, and on the right event exactly one cast is queued where it belongs |
| CombatSimulator.Fight.Hooks | server/src/CombatSimulator.cpp:804-852 | all triggers that listen to the moment, in order, each as FireHook says; nobody is hurt or moved, and no cast or event is lost |
| CombatRules.FiresEveryNth | server/src/CombatSimulator.cpp:1685-1692 | over any number of events a hook fires floor(n / attackCount) times, but never more than its limit |
| CombatSimulator.Fight.SpendCharge | server/src/CombatSimulator.cpp:1712-1726 | spends one charge exactly if there is one; the last one ends the status with an event |
| CombatSimulator.Fight.DeclareCast | server/src/CombatSimulator.cpp:711-770 | the caster is locked for the channel or the cast, the cast queued with its record, whoever listens to casts fires, the last event is SpellCast, and nobody is hurt |
| CombatSimulator.Fight.BeginChannel | server/src/CombatSimulator.cpp:730-739 | a serial nobody had; whatever channel was open is over |
| CombatSteps.BeginStep | server/src/CombatSimulator.cpp:730-739 | and the channel invariant holds |
| CombatSimulator.Fight.InterruptChannel | server/src/CombatSimulator.cpp:1000-1008 | the serial is given up for good and the interruption logged exactly if a channel was open |
| CombatRules.ChannelIsOpen | server/src/CombatSimulator.cpp:988-991 | a caster that still carries the serial of a cast has not been stopped |
| CombatSimulator.Fight.RunDue | server/src/CombatSimulator.cpp:986-993 | it runs unless its caster is dead or its channel is over; once its channel has stopped it changes nothing at all |
| CombatSimulator.Fight.ExecuteScheduled | server/src/CombatSimulator.cpp:975-997 | everything that is due runs, in the order it was scheduled, each as RunDue says; what is not due is kept; then exactly the channels whose time is up are over |
| CombatSimulator.Fight.TakeDue | server/src/CombatSimulator.cpp:977-985 | what is due leaves the list, in order |
| CombatSimulator.Fight.RunOrSchedule | server/src/CombatSimulator.cpp:957-968 | its runs in order: each now, as ExecuteEffect says, or -- if it is due later -- on the schedule and nothing else |
| CombatRules.RunsAreSpaced | server/src/CombatSimulator.cpp:958-966 | run k is due exactly k intervals after the first |
| CombatSimulator.Fight.ExecuteEffect | server/src/CombatSimulator.cpp:1298-1500 | the dice are thrown anew; then, unless its condition prevents it, every target that the selector names and the caster can reach is affected in turn, as AffectTarget says |
| CombatSimulator.Fight.ResolveTargets | server/src/CombatSimulator.cpp:1015-1200 | exactly those of the named units that live and, if they are enemies, are neither untargetable nor inside a mech, in that order |
| CombatEffects.InOrderContinues | server/src/CombatSimulator.cpp:940-995 | steps of which each only continues the fight -- who fights for whom, and history -- together only continue it |
| CombatSimulator.Fight.StrikeTargets | server/src/CombatSimulator.cpp:1331-1359 | the helping ally, if it stands on the same side: for every target not on its side, in order, a blink there and back and one hit of its strike -- and none at all if that is nothing |
| CombatSimulator.Fight.DamageTarget | server/src/CombatSimulator.cpp:1307-1330 | one hit if the amount is positive, and a second one exactly on the nearest other reachable enemy if it bounces |
| CombatSimulator.Fight.AffectTarget | server/src/CombatSimulator.cpp:1307-1497 | effect by effect the whole state afterwards: the hit queued, the shield, the status, the stack, the heal, the dive, the push, each of the rolled size -- or nothing |
| CombatSimulator.Fight.ExecuteCasts | server/src/CombatSimulator.cpp:940-955 | every queued cast runs each of its effects, in order, in two passes: first whatever grants immunity to crowd control |
| CombatSimulator.Fight.RunPassives | server/src/CombatSimulator.cpp:911-924 | every passive of the unit runs, in order, as of tick 0; inside a mech none does |
| CombatSimulator.Fight.HookRound | server/src/CombatSimulator.cpp:1781-1794 | the pending hooks leave their list, those of living holders run like casts, and what they deal lands |
| CombatSimulator.Fight.ProcessHooks | server/src/CombatSimulator.cpp:1780-1796 | such rounds until none is pending, at most eight; whatever is pending then is dropped |
| CombatSimulator.Fight.ClosestEnemy | server/src/CombatSimulator.cpp:487-515 | the nearest pickable enemy, ties to the lowest id; none exactly if there is none |
| CombatSimulator.Fight.Retarget | server/src/CombatSimulator.cpp:574-584 | a usable target is kept, one out of range gives way to one in range, anything else to the nearest |
| CombatSimulator.Fight.Act | server/src/CombatSimulator.cpp:570-613 | the dead, disabled and locked do nothing; anybody else keeps or picks its target and then casts, attacks that very target, walks one hex of a shortest free way, or does nothing, exactly when the rules say so; nobody is hurt, nobody else moves |
| CombatSimulator.Fight.ActAll | server/src/CombatSimulator.cpp:310-312 | everybody takes a turn, in the order of the units; meanwhile nobody's HP, shields or life change: whatever attacks and casts do lands after everybody has acted |
| CombatTurns.DueAttackIsWritten | server/src/CombatSimulator.cpp:570-592 | a unit that nothing keeps from attacking, with an enemy in range and its timer due, is logged attacking a unit in its range -- or casting |
| CombatTurns.DueStepIsTaken | server/src/CombatSimulator.cpp:598-613 | one with nobody in range, its timers due and a free way known to exist takes a step and waits for the next |
| CombatTurns.CastersAreLocked | server/src/CombatSimulator.cpp:728-744 | for as long as a cast takes, a channel one tick longer, its caster neither acts nor is due to attack |
| CombatSimulator.Fight.Engage | server/src/CombatSimulator.cpp:586-594 | a cast first, exactly if the bar is full and there is an ability; the attack unless the cast locks, exactly if it is due and the unit is neither stationary nor blind |
| CombatSimulator.Fight.Approach | server/src/CombatSimulator.cpp:598-613 | the cached way if it still leads to the target, else a shortest one, searched for at most every few ticks; with a way exactly one step, else nothing |
| CombatSimulator.Fight.EnsurePath | server/src/CombatSimulator.cpp:616-634 | the cached route if it still fits, nothing before the next search is due, else a shortest free route into range, or "no" exactly if there is none |
| CombatSimulator.Fight.StepAhead | server/src/CombatSimulator.cpp:603-613 | one hex of the cached route, adjacent to where the unit stands |
| CombatRules.StepOnRoute | server/src/CombatSimulator.cpp:599-613 | what is left of a cached route still starts next to the unit |
| CombatSimulator.Fight.DeclareAttack | server/src/CombatSimulator.cpp:636-709 | the Attack event on the target first, then the timer and the damage as one hit on that target or spread over a while; then whoever listens to attacks fires, the riders are queued and the Nth attack casts; nobody is hurt yet |
| CombatSimulator.Fight.Swing | server/src/CombatSimulator.cpp:636-688 | the timer, the event, the hit or the spread |
| CombatSimulator.Fight.TeleportUnit | server/src/CombatSimulator.cpp:2055-2123 | dives to exactly the enemy its rule picks -- the farthest, the nearest, the one with least or most HP, ties to the lowest id, or the cast target if it can be reached -- onto the best free hex there; stays only if there is nobody or no room |
| CombatEffects.PickBest | server/src/CombatSimulator.cpp:2068-2093 | the first of the highest scores, nobody exactly if nobody qualifies |
| CombatEffects.FirstBestIsDetermined | server/src/CombatSimulator.cpp:2068-2093 | and there is only one |
| CombatRules.LandingIsDetermined | server/src/CombatSimulator.cpp:2098-2112 | there is only one best landing hex |
| CombatSimulator.Fight.RingHex | server/src/CombatSimulator.cpp:2100-2112 | the free hex of the ring that is farthest from the start, first row by row |
| CombatSimulator.Fight.DisplaceUnit | server/src/CombatSimulator.cpp:2127-2152 | ends exactly where the slide toward or away from the caster, or toward the centre, ends; logged exactly if that is elsewhere |
| CombatEffects.PushGoesAway | server/src/CombatSimulator.cpp:2127-2141 | every hex of a knock-back is one hex farther from the caster, however long it is |
| CombatEffects.PullComesCloser | server/src/CombatSimulator.cpp:2127-2141 | a pull that moves the unit, over no more hexes than its distance, brings it closer |
| CombatEffects.PullCanMiss | server/src/CombatSimulator.cpp:2127-2141 | but not always by every hex: here two free hexes toward the caster come only one closer |
| CombatRules.SlidesStraight | server/src/CombatSimulator.cpp:2135-2140 | a push goes straight over free hexes, ends exactly that many hexes away, and stops early only in front of a blocked one |
| CombatSimulator.Fight.EnterOvertime | server/src/CombatSimulator.cpp:473-483 | every running timer is divided, one event |
| CombatRules.HurriedIsSooner | server/src/CombatSimulator.cpp:477-478 | no timer gets later, none lands in the past |
| CombatState.KeyParts | server/src/CombatSimulator.cpp:1821 | a key names one holder and one of its auras |
| CombatSimulator.Fight.UpdateAuras | server/src/CombatSimulator.cpp:1816-1866 | afterwards every member list is right for where units stand and who lives |
| CombatSimulator.Fight.UpdateAura | server/src/CombatSimulator.cpp:1822-1865 | the new list is exactly the units the rule takes in |
| CombatRules.AuraBookkeeping | server/src/CombatSimulator.cpp:1816-1866 | a living unit carries an aura's status only as a member, once, and a member lacks it only if it has used it up since it joined -- a spell shield, an empowered attack, a seat in a mech |
| CombatRules.GainedOk | server/src/CombatSimulator.cpp:1850-1862 | joining an aura gives its status and starts afresh: what was used up of it before is forgotten |
| CombatRules.DeadHolderGrantsNothing | server/src/CombatSimulator.cpp:1823-1849 | after its turn nothing a dead holder granted is left |
| CombatRules.UsedUpIsRemembered | server/src/CombatSimulator.cpp:1716-1723 | a granted status that is used up is remembered, and the unit stays in order otherwise |
| CombatSimulator.Fight.FreeHexNear | server/src/CombatSimulator.cpp:1881-1894 | the first free hex of the nearest ring that has one; none exactly if three rings are full |
| CombatSimulator.Fight.SpawnSummon | server/src/CombatSimulator.cpp:1913-1947 | past the cap nothing happens; else a new unit with the next id, and the next event is its Spawn on that hex |
| CombatSimulator.Fight.PlaceSummon | server/src/CombatSimulator.cpp:1915-1939 | the unit, the grid, the counter and the event agree |
| CombatSimulator.Fight.CollectDead | server/src/CombatSimulator.cpp:2414-2432 | exactly the living at 0 HP fall, all of them at once, with one Death event each, in order of id |
| CombatSimulator.Fight.MarkDeaths | server/src/CombatSimulator.cpp:2433-2496 | what follows a fall: last acts and ejected pilots, rewards, last words and hooks, in this order and for each of the dead in turn |
| CombatSimulator.Fight.EjectPilot | server/src/CombatSimulator.cpp:2377-2396 | the pilot of a fallen mech is unlinked; if it lives it is back in the fight and runs its passives |
| CombatSimulator.Fight.Die | server/src/CombatSimulator.cpp:2417-2431 | one death, one event, everything it held is gone |
| CombatSimulator.Fight.ReapDeathsAndDeathCasts | server/src/CombatSimulator.cpp:2412-2501 | round by round until one is stable: those at 0 HP fall together, then last acts, rewards, last words and hooks, and what they cast lands; whoever was at 0 HP is dead afterwards, and nobody comes back |
| CombatSimulator.Fight.CastLastWords | server/src/CombatSimulator.cpp:2471-2479 | exactly the dead whose ability is cast on death and whose target still stands cast once more, in the order of their deaths, and nothing else happens |
| CombatSimulator.Fight.RewardKillers | server/src/CombatSimulator.cpp:2452-2469 | death by death the remembered killer, if it stands, gains exactly the statuses its rewards name |
| CombatSimulator.Fight.EnterMech | server/src/CombatSimulator.cpp:2342-2352 | mech and pilot know each other and the pilot carries Piloting; nobody else changes |
| CombatSimulator.Fight.PilotBehind | server/src/CombatSimulator.cpp:2332-2341 | the ally right behind, if one may pilot |
| CombatSimulator.Fight.ClimbOut | server/src/CombatSimulator.cpp:2384-2393 | the pilot is back, with nothing due before the next tick |
| CombatSimulator.Fight.DespawnSummons | server/src/CombatSimulator.cpp:1977-1988 | exactly the summons vanish, and the viewer sees it |
| ChampionPool.SharedChampionPool.constructor | server/src/SharedChampionPool.cpp:12-26 | every pooled champion starts with its tier's copies |
| ChampionPool.SharedChampionPool.DrawFromTier | server/src/SharedChampionPool.cpp:28-48 | a copy of an allowed champion of the tier leaves; none exactly if the tier holds none |
| ChampionPool.PickIsWeighted | server/src/SharedChampionPool.cpp:35-42 | a champion is picked by exactly the rolls of one interval |
| ChampionPool.RollsPerChampion | server/src/SharedChampionPool.cpp:35-42 | and there are exactly as many of them as it has copies left |
| ChampionPool.PickFinds | server/src/SharedChampionPool.cpp:30-46 | no roll below the total misses |
| ChampionPool.TierTotalIsDrawable | server/src/SharedChampionPool.cpp:101-104 | a tier's total is always the sum of its members |
| ChampionPool.SharedChampionPool.DrawableInTier | server/src/SharedChampionPool.cpp:50-58 | the copies the rule allows |
| ChampionPool.SharedChampionPool.RemainingInTier | server/src/SharedChampionPool.cpp:101-104 | every copy of the tier |
| ChampionPool.SharedChampionPool.Return | server/src/SharedChampionPool.cpp:60-68 | refused, and nothing changes, exactly beyond the supply |
| ChampionPool.SharedChampionPool.Take | server/src/SharedChampionPool.cpp:70-77 | refused exactly beyond what is there |
| ChampionPool.SharedChampionPool.RestoreRemaining | server/src/SharedChampionPool.cpp:79-89 | all counts or none |
| ChampionPool.MembersExact | server/src/SharedChampionPool.cpp:15-25 | a tier's members are exactly its pooled champions |
| Items.Create | server/src/Item.cpp:11-79 | accepted exactly if the definitions keep every recipe rule |
| Items.Find | server/src/Item.cpp:81-84 | binary search finds the item exactly if it is there |
| Items.FindCombination | server/src/Item.cpp:86-93 | the first recipe that fits |
| Items.RecipesAreUnique | server/src/Item.cpp:43-57 | in an accepted database order does not matter and at most one item is made from a pair |
| Items.CombiningKeepsParts | server/src/Item.cpp:43-57 | what combines are base components, and exactly they are in what comes out |
| Items.FinishedNeverCombines | server/src/Item.cpp:43-57 | recipes never nest |
| RosterMerge.AddKeepsEverything | server/src/UnitRoster.cpp:160-180 | every accepted unit leaves a sound layout -- one cell per unit and one unit per cell, nobody without a cell even on a full roster, nothing left to merge; a refused one changes nothing |
| RosterMerge.AddTotals | server/src/UnitRoster.cpp:160-226 | the copies a roster stands for grow by exactly the new unit's, and no item component is lost through any cascade |
| RosterMerge.AddKeepsBare | server/src/UnitRoster.cpp:160-226 | no merge ever puts an item on a plant |
| RosterMerge.CascadeSettles | server/src/UnitRoster.cpp:168-179 | the merge loop ends with nothing left to merge |
| RosterMerge.MergeTotals | server/src/UnitRoster.cpp:182-226 | three of a star level become one of the next: same copies, same components counting the overflow |
| RosterMerge.ThreeExact | server/src/UnitRoster.cpp:186-198 | the candidates are all units of that level, best rank first |
| RosterMerge.RoomIsFound | server/src/UnitRoster.cpp:113-142 | if the count says there is room, an empty cell is found |
| RosterMerge.BenchOnlyIsExact | server/src/PlayerState.cpp:122-134 | the trial purchase is accepted exactly if the real one leaves every fighter -- id, champion, star, items, cell -- as it is |
| RosterMerge.ConsumedFollowSurvivor | server/src/PlayerState.cpp:126-131 | so looking at the consumed units, too, never changes the answer |
| Roster.CarryKeepsParts | server/src/UnitRoster.cpp:199-221 | items of merged units are carried, combined or left over, component by component |
| RosterLaws.PlaceItemExact | server/src/UnitRoster.cpp:281-300 | in terms of recipes: the item combines in the first slot where a recipe allows it; only if there is none it takes the first empty slot; and only if there is neither it stays off |
| RosterLaws.PlacedIsDetermined | server/src/UnitRoster.cpp:281-300 | that leaves exactly one outcome |
| RosterLaws.CarryExact | server/src/UnitRoster.cpp:199-221 | so for every item that a merge hands over, one after the other; what finds no place is left over, in order |
| RosterLaws.CellsAreDifferent | server/src/UnitRoster.cpp:94-106 | exactly nine bench slots and four rows of seven board cells, no two of them the same |
| RosterLaws.CountsAreCells | server/src/UnitRoster.cpp:113-123 | counting units is counting cells: occupied bench cells, and the slots in use on the board's cells |
| RosterLaws.AddAllowedExactly | server/src/UnitRoster.cpp:81-87 | a unit can be added if and only if a bench cell is empty, or fewer board slots are in use than allowed and a board cell is empty, or -- below the top star -- two of its kind are there |
| RosterLaws.NewCellExact | server/src/UnitRoster.cpp:125-142 | it takes the lowest empty bench slot; only if there is none the first empty board cell, row by row, below the capacity; else none |
| RosterLaws.MergeExact | server/src/UnitRoster.cpp:182-226 | at the lowest star level with three of a kind the first of them -- board before bench -- goes up and takes over what the next two carry; those two are gone, their cells empty, nobody else changes |
| RosterLaws.CascadeExact | server/src/UnitRoster.cpp:168-179 | merge after merge until no three of a kind are left |
| RosterLaws.AddExact | server/src/UnitRoster.cpp:160-180 | what becomes of an added unit in these terms alone: its id, its cell, its merges; a refused one changes nothing |
| UnitRosters.UnitRoster.HasRoom | server/src/UnitRoster.cpp:113-123 | exactly if a bench slot is empty, or slots in use are below the capacity and a board cell is empty |
| UnitRosters.UnitRoster.Accepts | server/src/UnitRoster.cpp:81-87 | exactly if there is room, or two of its kind below the top star |
| UnitRosters.UnitRoster.FindPlace | server/src/UnitRoster.cpp:125-142 | the first free bench slot, else the first free cell |
| UnitRosters.UnitRoster.AddUnit | server/src/UnitRoster.cpp:160-180 | accepted exactly as AddAllowedExactly says, with exactly the outcome of AddExact |
| UnitRosters.UnitRoster.MergeOne | server/src/UnitRoster.cpp:182-226 | one merge at the lowest level that has three; two units fewer, so the loop ends |
| UnitRosters.UnitRoster.Move | server/src/UnitRoster.cpp:230-279 | exactly the move on values, which MoveExact describes |
| UnitRosters.MovedKeeps | server/src/UnitRoster.cpp:230-279 | a move keeps the layout and every unit, and never pushes the board past its capacity |
| UnitRosters.MoveExact | server/src/UnitRoster.cpp:230-279 | onto an empty cell or in a swap: accepted exactly if no plant leaves the board and whoever joins it finds slots; then the unit is there and its cell empty or its partner's, else nothing changes |
| UnitRosters.SwapAllowedExactly | server/src/UnitRoster.cpp:257-279 | a swap is accepted exactly if no plant would come to the bench and the board slots it adds, if any, fit the capacity; then exactly those two trade places, else nothing changes |
| UnitRosters.EqualsAlwaysSwap | server/src/UnitRoster.cpp:257-279 | without plants and with equal slots every swap is allowed |
| UnitRosters.TwoSlotSwapRefused | server/src/UnitRoster.cpp:261-264 | a champion of two slots is refused the place of one with one slot on a full board |
| UnitRosters.PlantSwapRefused | server/src/UnitRoster.cpp:244-260 | with room to spare, a bench unit is refused a plant's cell and a plant an occupied bench slot |
| UnitRosters.BenchMoves | server/src/MatchManager.cpp:667-676 | a bench move leaves the board as it is |
| UnitRosters.UnitRoster.EquipItem | server/src/UnitRoster.cpp:302-308 | the first slot that combines, else the first empty one, else refused with nothing changed |
| UnitRosters.EquippedKeeps | server/src/UnitRoster.cpp:281-308 | an equipped item's components are all there, nothing else changes |
| UnitRosters.UnitRoster.UnequipItem | server/src/UnitRoster.cpp:310-317 | exactly the unequip on values |
| UnitRosters.UnequippedKeeps | server/src/UnitRoster.cpp:310-317 | what comes off is what the unit lacks |
| UnitRosters.EquippingKeepsFormation | server/src/UnitRoster.cpp:302-308 | items move no unit |
| UnitRosters.UnitRoster.AddPlaced | server/src/UnitRoster.cpp:319-331 | a plant takes exactly that free cell, or nothing happens |
| UnitRosters.UnitRoster.RemoveUnit | server/src/UnitRoster.cpp:333-340 | that unit goes, and its cell is free |
| UnitRosters.RemovedKeeps | server/src/UnitRoster.cpp:333-340 | the layout stays sound |
| UnitRosters.UnitRoster.CheckInvariants | server/src/UnitRoster.cpp:372-395 | true exactly for a sound roster |
| UnitRosters.OccupiedExact | server/src/UnitRoster.cpp:384-389 | counting suffices: as many occupied cells as units means every cell names its unit |
| UnitRosters.UnitRoster.Restore | server/src/UnitRoster.cpp:342-362 | accepted exactly if ids, cells and layout are sound; and exactly which units, and which serial counter, a failure leaves behind |
| UnitRosters.RestoreLeavesNothing | server/src/UnitRoster.cpp:342-362 | a failure leaves the roster empty unless the first thing refused is the id of a later unit -- exactly then not |
| UnitRosters.RestoreCanLeaveAUnit | server/src/UnitRoster.cpp:342-362 | two stored units, the second without an id: the first one stays |
| UnitRosters.RestoreCanKeepTheSerial | server/src/UnitRoster.cpp:357-361 | a well placed unit of star level 0: the roster is left empty, but the serial counter is the refused one's |
| Players.ShopManager.DrawOne | server/src/ShopManager.cpp:83-124 | nothing exactly if no tier holds a copy this owner may draw; else a copy of a tier the odds allow, or of the nearest one |
| Offers.PickTier | server/src/ShopManager.cpp:94-106 | the tier in whose interval the roll falls, never one of weight 0 |
| Players.ShopManager.DrawNearest | server/src/ShopManager.cpp:107-123 | the nearest stocked tier to the favourite one |
| Players.ShopManager.Refresh | server/src/ShopManager.cpp:23-27 | every slot is dealt anew from the stock there is then, old offer returned: a champion its owner may draw, of a tier the level's odds allow or else the nearest; a slot stays empty only if nothing is left to draw; every copy is accounted for |
| Offers.DealtIsAllowed | server/src/ShopManager.cpp:83-124 | whoever is on offer may be, and an empty slot means that at the end, too, no champion this owner may draw has a copy left |
| Offers.SoldOutMeans | server/src/ShopManager.cpp:83-124 | that is: every tier's drawable total is zero |
| Players.ShopManager.ReturnShopToPool | server/src/ShopManager.cpp:70-81 | every offered copy goes back; no return is refused |
| Players.ShopManager.OfferSpecial | server/src/ShopManager.cpp:56-68 | takes the first slot, and what was there goes back |
| Players.SellNeverProfits | server/src/PlayerState.cpp:203-209 | a sale pays at most what the copies cost, and at most one gold less |
| Players.RefundIsExact | server/src/PlayerState.cpp:203-209 | one, three or nine times the price -- its own or its cost --, one gold less for a merged unit that costs more than one |
| Players.PlayerState.TryBuy | server/src/ShopManager.cpp:29-47 | accepted exactly with an offer in the slot, room and gold; then the price is paid, the slot empty, the unit added; else nothing changes |
| Players.PlayerState.TryReroll | server/src/ShopManager.cpp:16-21 | paid exactly if affordable; then a new offer as Refresh deals it, for the level and the unlocks of its owner |
| Players.PlayerState.BenchOnlyPurchaseFits | server/src/PlayerState.cpp:122-134 | the answer of BenchOnlyIsExact |
| Players.PlayerState.CanAcquire | server/src/PlayerState.cpp:136-139 | exactly if the unit may be added and, on a locked board, leaves everybody on it as they are |
| Players.PlayerState.BlockedReason | server/src/PlayerState.cpp:141-144 | only a locked board is another reason than a full roster |
| Players.PlayerState.AcquireUnit | server/src/PlayerState.cpp:146-167 | the roster is that of Add, overflow is in the bag; copies grow by the unit, components are kept, and a locked board stays as it is |
| Players.PlayerState.TryMoveUnit | server/src/PlayerState.cpp:169-177 | accepted exactly as MoveExact says; copies and items are kept |
| Players.PlayerState.SellUnit | server/src/PlayerState.cpp:179-201 | exactly a living player's unit that is no plant: its price is paid, its items are in the bag, all its copies in the pool |
| Players.PlayerState.AddItemToBag | server/src/PlayerState.cpp:211-215 | exactly the items the game knows |
| Players.PlayerState.TryEquipItem | server/src/PlayerState.cpp:217-249 | accepted exactly for an item of the bag the game knows and a unit, no plant, on which it combines or finds a slot -- for a remover, one with something to take off; it leaves the bag and goes where EquipItem says, a remover gives everything back; no other component is lost |
| Players.BaredCarriesNothing | server/src/PlayerState.cpp:224-236 | a bared unit carries nothing, everything else is as it was |
| Players.PlayerState.TryCombineBagItems | server/src/PlayerState.cpp:251-272 | accepted exactly if two different entries of the bag hold the items and a recipe combines them; the bag loses those two and gains what they make |
| Players.PlayerState.TryUnequipItem | server/src/PlayerState.cpp:274-284 | accepted exactly for a slot that holds an item; it is in the bag then, no component is lost |
| Players.PlayerState.AddXp | server/src/PlayerState.cpp:47-58 | experience is never lost on the way up |
| Players.PlayerState.TryBuyXp | server/src/PlayerState.cpp:39-45 | accepted exactly below the top level with the gold |
| Players.PlayerState.Heal | server/src/PlayerState.cpp:104-109 | restores exactly what is missing up to the amount |
| Players.PlayerState.GrantPlant | server/src/PlayerState.cpp:343-349 | exactly a living player's plant on a free board cell; no copy and no item changes |
| Players.PlayerState.RemovePlant | server/src/PlayerState.cpp:351-360 | exactly plants go, and as they carry nothing no item is lost |
| Players.PlayerState.CheckUnlocks | server/src/MatchTraits.cpp:94-108 | exactly the gated champions that were locked and whose trait shines enough on the board unlock |
| Players.NewUnlocksExact | server/src/MatchTraits.cpp:94-108 | each of them once, in order, and no others |
| Players.PlayerState.OfferQueen | server/src/MatchTraits.cpp:168-181 | the Queen takes the first slot exactly if level and holders suffice, none is owned and none is on offer |
| Players.PlayerState.Eliminate | server/src/PlayerState.cpp:362-375 | everything the player held is back in the pool; no return is refused |
| Match.MatchManager.Play | server/src/MatchManager.cpp:51-763 | over any sequence of actions and phases the conservation law and everything else hold, a finished match stays as it is, and between the actions that hand items out no seat's item components grow -- or change at all, but for used removers |
| Match.MatchManager.Perform | server/src/MatchManager.cpp:599-704 | so for each action; while a fight is on none moves a fighter; and every seat keeps its item components, but for a remover used up and for what a gift or a choice hands out |
| Match.MatchManager.VerifyPoolIntegrity | server/src/MatchManager.cpp:742-763 | the server's audit is true exactly if the law holds for every pooled champion and no other has copies |
| Match.MatchManager.constructor | server/src/MatchManager.cpp:20-40 | a new match keeps the law |
| Match.MatchManager.Start | server/src/MatchManager.cpp:51-74 | only a match that has not started starts, with round 1: every living seat gets one unit of each cost while copies last -- into its roster, or back --, then the round begins |
| Match.MatchManager.ResolveActor | server/src/MatchManager.cpp:599-609 | accepted exactly for a living seat in a phase the rule allows, with the reason if not |
| Match.MatchManager.TryRerollShop | server/src/MatchManager.cpp:618-626 | accepted exactly in time, in an open shop, with the gold; then the offer is dealt anew and the special champions whose rules are met are on offer |
| Match.MatchManager.TryBuyXp | server/src/MatchManager.cpp:648-655 | accepted exactly in time, below the top level, with the gold; level and bar are exactly those of the experience bought, and unlocks follow |
| Match.MatchManager.AfterRosterChange | server/src/MatchTraits.cpp:79-90 | plants aside the roster stays -- on a locked board altogether --, the first slot goes to the special champions whose rules are met, and unlocked is exactly what the new board unlocks |
| SeatActions.FightersExact | server/src/MatchTraits.cpp:110-165 | plants aside means exactly that |
| SeatActions.QueensTakeTheFirstSlot | server/src/MatchTraits.cpp:168-181 | no other slot changes, and the first one only for a special champion whose rule is met |
| Match.MatchManager.TryBuyShopUnit | server/src/MatchManager.cpp:628-638 | accepted exactly for a living seat in time, in an open shop, with an offer in the slot, room -- on a locked board without touching a fighter -- and gold; then price, slot, roster and bag are exactly those of the purchase, and only plants, special offers and unlocks follow |
| Match.MatchManager.TrySellUnit | server/src/MatchManager.cpp:657-665 | accepted exactly in time for a unit that is no plant and no fighter; then price, bag and roster are exactly those of the sale, and what follows a change of the roster |
| Match.MatchManager.TryMoveUnit | server/src/MatchManager.cpp:667-676 | accepted exactly in time for a move the roster allows, on a locked board only on the bench; then exactly that move, and what follows |
| Match.MatchManager.TryEquipItem | server/src/MatchManager.cpp:678-687 | accepted exactly in time for an item the unit takes; then exactly the item is on the unit, or everything it carried in the bag, and what follows; components kept but for a used remover |
| Match.MatchManager.TryCombineItems | server/src/MatchManager.cpp:689-694 | accepted exactly in time for two entries of the bag that a recipe combines; then one of each is gone and the result is there |
| Match.MatchManager.TryUnequipItem | server/src/MatchManager.cpp:696-704 | accepted exactly in time for a slot with an item on a unit that is not locked; then exactly that item is in the bag, and what follows |
| Match.MatchManager.TryPickTraitChoice | server/src/MatchTraits.cpp:360-365 | accepted exactly in time with an option that can be picked; then bag and gold grow by exactly its items and gold |
| Match.MatchManager.ResolveTraitChoice | server/src/MatchTraits.cpp:332-358 | result by result, and a module pays nothing |
| Match.MatchManager.SettleTraitChoices | server/src/MatchTraits.cpp:367-374 | settling modules changes nothing anybody owns |
| Match.MatchManager.OfferQueen | server/src/MatchTraits.cpp:168-181 | the first slot shows the special champion exactly if its rule is met, and the law holds |
| Match.MatchManager.CheckUnlocks | server/src/MatchTraits.cpp:94-108 | unlocked is exactly what the rules say |
| Match.MatchManager.FollowPlants | server/src/MatchTraits.cpp:110-165 | whatever plants come and go, every other unit stays as it is, in order, and the law holds |
| Match.MatchManager.GrantTraitRewards | server/src/MatchTraits.cpp:264-330 | whatever they are: gold and level never fall, items and the other seats stay, and the law holds |
| Match.MatchManager.GenerateGifts | server/src/MatchManager.cpp:480-505 | every living player has at most so many offers, and nothing left to choose exactly if there are none; units on offer are checked out of the pool |
| Match.MatchManager.PickGift | server/src/MatchManager.cpp:527-560 | accepted exactly for a living player who has not chosen and an offer that is there; then the seat is exactly what the gift makes of it -- gold, experience, health, the item, or the unit if it finds room and else its price -- and every other offer goes back |
| Match.MatchManager.ReleaseOffers | server/src/MatchManager.cpp:515-525 | no return is refused |
| Match.MatchManager.FinishGiftPhase | server/src/MatchManager.cpp:568-574 | exactly those who had not chosen get their first offer, nothing is on offer any more, and the law holds |
| Match.MatchManager.PayDropLine | server/src/MatchManager.cpp:362-420 | whatever line it is, no other seat changes and the law holds |
| Match.MatchManager.AdvancePhase | server/src/MatchManager.cpp:109-167 | which phase follows which, and what it brings: gifts taken and shops opened, fights paid for, income and the next round; after a round exactly those at 0 health or below are out, worse health placing worse |
| Match.MatchManager.EnterPlanning | server/src/MatchManager.cpp:139-144 | a closed shop is empty; every open one that its owner has not locked is dealt anew, a locked one stays; then seat by seat what follows a change of the roster |
| Match.MatchManager.DealOpeningUnits | server/src/MatchManager.cpp:60-74 | every living seat, cost by cost: a champion of that cost, ungated, as long as one is left; kept if there is room, else back in the pool |
| Match.MatchManager.DealOne | server/src/MatchManager.cpp:66-72 | nothing exactly if none of that cost is left; the copy is in the roster or back -- a drop then pays its cost |
| Match.MatchManager.ApplyCombatOutcomes | server/src/MatchManager.cpp:225-307 | every living seat loses exactly the damage of the fights it lost, and exactly those at 0 or below are out |
| Match.MatchManager.SettleFights | server/src/MatchManager.cpp:225-287 | fight by fight, health and streak follow the results; loot and trait rewards touch neither |
| SeatActions.OnlyTheLoserPays | server/src/MatchManager.cpp:256-286 | the winner, a tie, a third seat and the owner of a ghost never pay, and a ghost's owner keeps its streak |
| SeatActions.RunsAreCounted | server/src/PlayerState.cpp:111-117 | a run of wins or losses is a streak of its length |
| Match.MatchManager.EliminateDying | server/src/MatchManager.cpp:289-306 | whoever fell is out, in the order below |
| Match.InOrder | server/src/MatchManager.cpp:291-304 | of two who fall together, less health -- then the higher seat -- places worse |
| Match.MatchManager.EndMatch | server/src/MatchManager.cpp:582-593 | every placement from 1 to the player count is held once, the first by the winner, even when everyone fell |
| Placements.PlaceNext | server/src/MatchManager.cpp:301-305 | the next one out takes the worst placement left |
| Placements.SurvivorCompletes | server/src/MatchManager.cpp:582-593 | a lone survivor completes the placements |
| Placements.AllFallen | server/src/MatchManager.cpp:582-593 | if all fell they are complete already |
| Placements.SortWorstExact | server/src/MatchManager.cpp:295-299 | the same seats, worst first |
| Traits.ActiveTier | server/src/Trait.cpp:137-145 | the tier of the specification |
| Traits.TierMeans | server/src/Trait.cpp:137-145 | the last reached breakpoint; the top one of a long list only with an emblem |
| Traits.MoreNeverLowers | server/src/Trait.cpp:137-145 | more holders or emblems never lower a tier |
| Traits.CountTraitHolders | server/src/Trait.cpp:153-160 | different champions with the trait |
| Traits.CountEmblemHolders | server/src/Trait.cpp:162-172 | different champions that have it only through an emblem |
| Traits.BoardTraitUnits | server/src/Trait.cpp:174-191 | exactly the units on the board, with what their items grant |
| Traits.CountInFight | server/src/CombatSimulator.cpp:2169-2193 | the fight's nested loops count the same |
| Traits.FieldTeam | server/src/CombatSimulator.cpp:199-203 | exactly the capable units are fielded |
| Traits.FieldsTogether | server/src/CombatSimulator.cpp:199-210 | in whatever order, and next to whatever other team, they then stand |
| Traits.SynergiesAgree | server/src/CombatSimulator.cpp:2164-2193 | the fight's holders are the board's holders that can fight |
| Traits.CountsAgree | server/src/CombatSimulator.cpp:2164-2193 | so the counts are equal exactly if every holder can fight |
| Traits.CountsCanDiffer | server/src/CombatSimulator.cpp:199-203 | one holder without combat stats: the match counts 1, the fight 0, and so do the tiers |
| Traits.TiersAgree | server/src/CombatSimulator.cpp:2164-2193 | and then the tier the match pays for is the tier the fight activates |
| SnapshotReader.Restore | server/src/Snapshot.cpp:367-606 | accepted exactly for the sealed encoding of a match that fits the limits and the loaded data, and then gives back exactly that match: the round trip in both directions |
| SnapshotWriter.Snapshot | server/src/Snapshot.cpp:244-363 | writes exactly the encoding |
| SnapshotReader.ParseHeader | server/src/Snapshot.cpp:206-233 | checksum, magic and version; and what stands behind |
| SnapshotReader.Unseal | server/src/Snapshot.cpp:206-212 | the trailer is the checksum of the rest |
| SnapshotFormat.CashOutFits | server/src/Snapshot.cpp:519 | of the cash-outs a player can be offered exactly tiers 1 to 4 can be restored |
| SnapshotFormat.CashOutIsLost | server/src/Snapshot.cpp:519 | a match with a cash-out above tier 4 cannot be restored at all |
| Bytes.ByteWriter.Word | server/src/Snapshot.cpp:18-25 | appends the little-endian word |
| Bytes.LittleOfFromLittle | server/src/Snapshot.cpp:19-24 | bytes and words determine each other |
| Bytes.FromLittleOfLittle | server/src/Snapshot.cpp:19-24 | a written word reads back |
| Bytes.ByteReader.Need | server/src/Snapshot.cpp:86-92 | false once anything failed, and never past the end |
| Bytes.ByteReader.Word | server/src/Snapshot.cpp:46-61 | reads exactly one word or latches the failure and yields 0 |
| Bytes.ByteReader.Bool | server/src/Snapshot.cpp:63-67 | 0 and 1, nothing else |
| Bytes.ByteReader.Count | server/src/Snapshot.cpp:75-83 | within the limit and the bytes left, or 0 and a failure |
| SnapshotFormat.EventSize | server/src/Snapshot.cpp:104-106 | the declared size of an event is its encoded size |
| SnapshotFormat.UnitSize | server/src/Snapshot.cpp:107 | of a unit |
| SnapshotFormat.GiftSize | server/src/Snapshot.cpp:101 | of a gift |
| SnapshotFormat.HeaderSize | server/src/Snapshot.cpp:100 | of the header |
| SnapshotFormat.ListSize | server/src/Snapshot.cpp:75-83 | a list is at least as long as its guard assumes, so no guard refuses a written list |
| SnapshotWriter.WriteEvent | server/src/Snapshot.cpp:117-145 | the encoding of an event |
| SnapshotReader.ReadEvent | server/src/Snapshot.cpp:147-180 | inverse of writing, for events of a known kind |
| SnapshotReader.ReadMatchup | server/src/Snapshot.cpp:190-197 | inverse of writing |
| SnapshotReader.ReadChoice | server/src/Snapshot.cpp:505-531 | accepted exactly if it fits |
| SnapshotReader.ReadPlayer | server/src/Snapshot.cpp:403-545 | a player, accepted exactly if it fits |
| SnapshotReader.ReadOutcome | server/src/Snapshot.cpp:546-582 | an outcome, accepted exactly if it fits |
| JsonParser.Parse | server/src/Json.cpp:65-365 | accepts exactly the texts of the grammar within the limits, and gives exactly the value the text means |
| JsonParser.Parser.ParseDocument | server/src/Json.cpp:69-75 | one value between gaps, to the end |
| JsonParser.Parser.ParseValue | server/src/Json.cpp:131-148 | each kind of value |
| JsonParser.Parser.ParseList | server/src/Json.cpp:162-212 | arrays and objects: items, commas, brackets, keys used once |
| JsonParser.Parser.ParseNumber | server/src/Json.cpp:293-352 | exactly the literals within the limits, as the one canonical decimal that denotes the value |
| JsonParser.Parser.ParseString | server/src/Json.cpp:251-291 | exactly the well-formed strings, as the UTF-8 they mean |
| JsonParser.Parser.SkipTrivia | server/src/Json.cpp:98-129 | exactly the spaces and comments; an unterminated one is refused |
| JsonParser.Parser.ParseHex4 | server/src/Json.cpp:221-231 | four digits and their value |
| JsonNumber.EqualLiteralsEqualDecimals | server/src/Json.cpp:339-349 | two literals have the same value exactly if they become the same pair |
| JsonNumber.CanonicalIsUnique | server/src/Json.cpp:343-348 | a value has one canonical pair |
| JsonNumber.LeadingZerosDoNotCount | server/src/Json.cpp:303-308 | significant digits |
| JsonNumber.ToScaled | server/src/Json.cpp:40-51 | exact -- the integer value, or a refusal where there is none that fits -- up to 18 digits beyond what is asked for; beyond that exactly if the wrapped divisor leaves a rest; it divides by zero exactly from 64 on |
| JsonNumber.ToTicks | server/src/Json.cpp:54-61 | up to 18 places it rounds half up exactly as long as the sums fit a word; below half a tick only 0 is right; it divides by zero exactly from 63 places on |
| JsonNumber.UsualTicksFit | server/src/Json.cpp:54-61 | and for every accepted number and up to four million ticks a second they fit |
| JsonNumber.Pow10Fits | server/src/Json.cpp:11-15 | a power of ten fits a word exactly up to 18 zeros |
| JsonNumber.WordPow10Vanishes | server/src/Json.cpp:11-15 | and is 0 exactly from 64 on |
| JsonNumber.TinyScalesToOne | server/src/Json.cpp:48-50 | 68739955140067328 / 10^37 converts to 1 |
| JsonNumber.TicksBelowZero | server/src/Json.cpp:57-60 | 1e-19 seconds convert to minus five ticks |
| JsonNumber.BelowOneIsWritten | server/src/Json.cpp:293-352 | both are accepted: every number below 1 with at most 18 significant digits has a literal |
| JsonString.Utf8Decodes | server/src/Json.cpp:233-249 | the encoding of a code point decodes to it |
| JsonString.DecodesUtf8 | server/src/Json.cpp:233-249 | and only its encoding does |
| JsonString.PrintedAllMeans | server/src/Json.cpp:251-291 | a canonical printer, surrogate pairs included, is undone by the reader |
| JsonString.PairMeans | server/src/Json.cpp:268-284 | a surrogate pair means its code point |

## Left out

The fight:
- Formulas, target selectors, mana, attack values, mitigation, dice and the choice of triggers are unknown functions of the
  units, the log, the dice thrown so far and the tick (`CombatEffects.Numbers`). Asked the same with none of these changed,
  they answer the same. Positions, HP, shields, statuses, lives and the log follow the source.
- Presentation fields of events (windup, flight, shapes, kinds, flags) are not part of the model.
- CombatSimulator.Fight.Prepare: items, pilots and passives are exact; which synergies and modules apply, and what the bonus of
  a pilot's class is, is arbitrary.
- CombatSimulator.Fight.ExecuteEffect: how many summons appear and what they are made of is arbitrary; a summoning or cloning
  effect promises the invariant and that nothing scheduled is forgotten.
- CombatSimulator.Fight.Hooks: the counter a trigger keeps between two moments comes with it each time; over a whole row of
  events it is the subject of CombatRules.FiresEveryNth.
- CombatSimulator.Fight.DealResolved: mana, takedowns and damage tallies are not kept; which hooks a hit fires for when it has landed is arbitrary.
- CombatSimulator.Fight.DespawnSummons: a summon that vanishes at the end keeps its statuses, as in the source, so only what a
  viewer sees is claimed after it.
- Overtime, the tick limit and intervals are assumed to be in the ranges the configuration check allows; ticks stay below 10^9.

The economy:
- Random draws are arbitrary values below their bound; the quality of randomness is not stated.
- Items of a unit are three slots, bench and board one table of cells; a merge's report of combined items is not kept.
- Unit ids are unbounded: the source keeps a 24-bit serial per owner and asserts that it never runs out.
- Plants never go through the ordinary Add; the source never adds them that way either.
- Traits: which plants and special units a trait grants, its module tiers and its gold come at arbitrary times and in
  arbitrary amounts; star dust, chosen modules and takedown tallies are not kept.
- Match.MatchManager.GenerateGifts: what is offered is arbitrary, and so is whether an offer can be made.
- Match.MatchManager.ApplyCombatOutcomes: who fights whom, who wins and what a defeat costs are given.
- Players.PlayerState.RemovePlant: that plants carry nothing holds for every roster built by play; a restored roster with an
  item on a plant is not fed back into a player here.
- Match.MatchManager.PayDropLine, Match.MatchManager.GrantTraitRewards: which line of a drop table is paid, and how much, is
  arbitrary; that copies are conserved is not.
- Matchmaking, income amounts, phase timers and listeners. (Income can only add up: `SeatActions.Earns`.)
- Match.MatchManager.Play: needs at least one seat, as the configuration check guarantees.

Snapshots:
- Checksums and content hashes are arbitrary functions of the bytes; nothing says that they are injective.
- The verdicts of the loaded data (known champions, items, modules, gifts; roster and pool consistency; the state hash) are
  arguments of the decoder.
- A player's `loot` and everything derived from the fights is not stored and not restored.

JSON:
- JsonParser.Parser.ParseList: arrays and objects, two functions in the source, are one method.
- The position of an error is line and column of the reader; its message text is not modelled.

Not modelled at all: loading and validating game data, bots, networking, accounts, files, tools and the browser client.
