// The snapshot format (server/src/Snapshot.cpp:104-205, 223-331): what is stored, in which order, and
// what a decoder accepts. Each `XThen(x, rest)` is the encoding of x followed by the bytes `rest`.
module SnapshotFormat {
  import opened Bytes

  const MAGIC: Word32 := 0x53463257
  const VERSION: Word32 := 7
  const HEADER_BYTES := 4 + 4 + 8 * 7 + 1 + 4 + 4 + 1
  const TRAILER_BYTES := 8
  const GIFT_BYTES := 4 + 1 + 4 + 4 + 4
  const EVENT_BYTES := 4 + 1 + 1 + 4 + 4 + 16 + 4 + 4 + 4 + 1 + 4 + 1 + 1 + 4 + 4 + 4 + 4 + 4 + 4 + 4 + 4 + 1 + 1 + 1
  const MAX_ITEMS_PER_UNIT := 3
  const UNIT_BYTES := 4 + 4 + 1 + 1 + 4 + 4 + 4 * MAX_ITEMS_PER_UNIT
  const MATCHUP_BYTES := 1 + 1 + 1 + 1 + 4
  const OUTCOME_BYTES := MATCHUP_BYTES + 1 + 4 + 4 + 1 + 4 + 4 + 4 + 4 + 4 + 4 + 4 + 8 + 4
  const MAX_UNITS_PER_PLAYER := 9 + 4 * 7
  const MAX_ITEM_BAG := 65535
  const MAX_SHOP_SLOTS := 64
  const MAX_OFFERS := 4
  const MAX_PLAYERS := 8
  const MAX_EVENTS := 0x100_0000
  const MAX_TAKEDOWNS := 256
  const CASH_OUT_TIERS := 6
  const NOBODY: Byte := 255
  const NO_CHAMPION: Word32 := 0

  // The last value of each enumeration.
  const MATCH_OVER: Byte := 5
  const MOTHER_NATURE: Byte := 1
  const BOARD: Byte := 1
  const OVERTIME: Byte := 15
  const DRAW: Byte := 2
  const DROP_ITEM: Byte := 3
  const GIFT_ITEM: Byte := 3
  const GIFT_UNIT: Byte := 4
  const NO_CHOICE: Byte := 0
  const MODULE: Byte := 1
  const PROTOTYPE: Byte := 2

  // ---- What is stored ------------------------------------------------------------------------------

  // One event of a fight's log, its fields in three groups: who and where, what, and how it looks.
  datatype Event = Event(scene: EventScene, effect: EventEffect, look: EventLook)

  datatype EventScene = EventScene(
    tick: Int32, kind: Byte, team: Byte, unit: Word32, other: Word32, fromX: Int32, fromY: Int32, toX: Int32, toY: Int32)

  datatype EventEffect = EventEffect(
    amount: Int32, hpAfter: Int32, champion: Word32, star: Byte, absorbed: Int32, subtype: Byte, flags: Byte, ability: Word32, duration: Int32)

  datatype EventLook = EventLook(
    manaMax: Int32, manaRegen: Int32, reduced: Int32, traitId: Word32, windup: Int32, flight: Int32, style: Byte, shape: Byte, size: Byte)

  datatype Matchup = Matchup(home: Byte, away: Byte, awayIsGhost: bool, awayIsMonsters: bool, encounter: Word32)

  datatype Takedown = Takedown(unit: Word32, count: Int32)

  datatype FightResult = FightResult(
    matchup: Matchup, winner: Byte, winnerSurvivors: Int32, damageToLoser: Int32,
    dropKind: Byte, dropGold: Int32, dropChampion: Word32, dropItem: Word32)

  datatype Outcome = Outcome(
    result: FightResult, endTick: Int32, survivorsHome: Int32, survivorsAway: Int32, pathSearches: Int32, checksum: Word64,
    events: Listed<Event>, takedowns: Listed<Takedown>)

  datatype RngState = RngState(a: Word64, b: Word64, c: Word64, d: Word64)

  datatype UnitRecord = UnitRecord(
    id: Word32, champion: Word32, star: Byte, location: Byte, x: Int32, y: Int32, item0: Word32, item1: Word32, item2: Word32)

  datatype Gift = Gift(gift: Word32, kind: Byte, amount: Int32, item: Word32, champion: Word32)

  datatype Progress = Progress(
    traitGold: Int32, takedownCounter: Int32, starDust: Int32, grantCombats: Int32, unitGranted: bool, moduleTiersOffered: Int32,
    modules: Listed<Word32>, unlocked: Listed<Word32>)

  datatype Choice = Choice(
    kind: Byte, trait_: Word32, tier: Int32, bonusGold: Int32, options: Listed<Word32>, bonusItems: Listed<Word32>)

  datatype Economy = Economy(
    health: Int32, level: Int32, xp: Int32, gold: Int32, streak: Int32, eliminated: bool, placement: Int32, nextSerial: Word32)

  datatype Player = Player(
    economy: Economy, units: Listed<UnitRecord>, itemBag: Listed<Word32>, shopSlots: Listed<Word32>, shopRng: RngState, shopLocked: bool,
    settled: bool, offers: Listed<Gift>, progress: Progress, choice: Choice)

  datatype Hashes = Hashes(
    seed: Word64, config: Word64, champions: Word64, items: Word64, encounters: Word64, gifts: Word64, state: Word64)

  datatype Header = Header(
    hashes: Hashes, phase: Byte, round: Int32, ticksInPhase: Int32, playerCount: Byte)

  datatype Body = Body(
    rng: RngState, winner: Byte, remaining: Listed<Int32>, players: seq<Player>, matchups: Listed<Matchup>, outcomes: Listed<Outcome>)

  // ---- Encodings -----------------------------------------------------------------------------------

  function EventThen(e: Event, rest: seq<Byte>): seq<Byte> {
    SceneThen(e.scene, EffectThen(e.effect, LookThen(e.look, rest)))
  }

  function SceneThen(s: EventScene, rest: seq<Byte>): seq<Byte> {
    I32Then(s.tick, U8Then(s.kind, U8Then(s.team, U32Then(s.unit, U32Then(s.other,
    I32Then(s.fromX, I32Then(s.fromY, I32Then(s.toX, I32Then(s.toY, rest)))))))))
  }

  function EffectThen(f: EventEffect, rest: seq<Byte>): seq<Byte> {
    I32Then(f.amount, I32Then(f.hpAfter, U32Then(f.champion, U8Then(f.star, I32Then(f.absorbed,
    U8Then(f.subtype, U8Then(f.flags, U32Then(f.ability, I32Then(f.duration, rest)))))))))
  }

  function LookThen(l: EventLook, rest: seq<Byte>): seq<Byte> {
    I32Then(l.manaMax, I32Then(l.manaRegen, I32Then(l.reduced, U32Then(l.traitId,
    I32Then(l.windup, I32Then(l.flight, U8Then(l.style, U8Then(l.shape, U8Then(l.size, rest)))))))))
  }

  function MatchupThen(m: Matchup, rest: seq<Byte>): seq<Byte> {
    U8Then(m.home, U8Then(m.away, BoolThen(m.awayIsGhost, BoolThen(m.awayIsMonsters, U32Then(m.encounter, rest)))))
  }

  function TakedownThen(t: Takedown, rest: seq<Byte>): seq<Byte> {
    U32Then(t.unit, I32Then(t.count, rest))
  }

  function RngThen(s: RngState, rest: seq<Byte>): seq<Byte> {
    U64Then(s.a, U64Then(s.b, U64Then(s.c, U64Then(s.d, rest))))
  }

  function UnitThen(u: UnitRecord, rest: seq<Byte>): seq<Byte> {
    U32Then(u.id, U32Then(u.champion, U8Then(u.star, U8Then(u.location, I32Then(u.x, I32Then(u.y,
    U32Then(u.item0, U32Then(u.item1, U32Then(u.item2, rest)))))))))
  }

  function GiftThen(g: Gift, rest: seq<Byte>): seq<Byte> {
    U32Then(g.gift, U8Then(g.kind, I32Then(g.amount, U32Then(g.item, U32Then(g.champion, rest)))))
  }

  function EconomyThen(e: Economy, rest: seq<Byte>): seq<Byte> {
    I32Then(e.health, I32Then(e.level, I32Then(e.xp, I32Then(e.gold, I32Then(e.streak,
    BoolThen(e.eliminated, I32Then(e.placement, U32Then(e.nextSerial, rest))))))))
  }

  // One after the other.
  function ListThen<T>(f: (T, seq<Byte>) -> seq<Byte>, xs: seq<T>, rest: seq<Byte>): seq<Byte> {
    if xs == [] then rest else f(xs[0], ListThen(f, xs[1..], rest))
  }

  // How many, then one after the other.
  function CountedThen<T>(f: (T, seq<Byte>) -> seq<Byte>, xs: Listed<T>, rest: seq<Byte>): seq<Byte> {
    U32Then(|xs|, ListThen(f, xs, rest))
  }

  function ProgressThen(p: Progress, rest: seq<Byte>): seq<Byte> {
    I32Then(p.traitGold, I32Then(p.takedownCounter, I32Then(p.starDust, I32Then(p.grantCombats, BoolThen(p.unitGranted,
    I32Then(p.moduleTiersOffered, CountedThen(U32Then, p.modules, CountedThen(U32Then, p.unlocked, rest))))))))
  }

  function ChoiceThen(c: Choice, rest: seq<Byte>): seq<Byte> {
    U8Then(c.kind, U32Then(c.trait_, I32Then(c.tier, I32Then(c.bonusGold,
    CountedThen(U32Then, c.options, CountedThen(U32Then, c.bonusItems, rest))))))
  }

  function PlayerThen(p: Player, rest: seq<Byte>): seq<Byte> {
    EconomyThen(p.economy, CountedThen(UnitThen, p.units, CountedThen(U32Then, p.itemBag, CountedThen(U32Then, p.shopSlots,
    RngThen(p.shopRng, BoolThen(p.shopLocked, BoolThen(p.settled, CountedThen(GiftThen, p.offers,
    ProgressThen(p.progress, ChoiceThen(p.choice, rest))))))))))
  }

  function ResultThen(o: FightResult, rest: seq<Byte>): seq<Byte> {
    MatchupThen(o.matchup, U8Then(o.winner, I32Then(o.winnerSurvivors, I32Then(o.damageToLoser,
    U8Then(o.dropKind, I32Then(o.dropGold, U32Then(o.dropChampion, U32Then(o.dropItem, rest))))))))
  }

  function OutcomeThen(o: Outcome, rest: seq<Byte>): seq<Byte> {
    ResultThen(o.result, I32Then(o.endTick, I32Then(o.survivorsHome, I32Then(o.survivorsAway, I32Then(o.pathSearches, U64Then(o.checksum,
    CountedThen(EventThen, o.events, CountedThen(TakedownThen, o.takedowns, rest))))))))
  }

  function HeaderThen(h: Header, rest: seq<Byte>): seq<Byte> {
    U32Then(MAGIC, U32Then(VERSION, HashesThen(h.hashes, U8Then(h.phase, I32Then(h.round, I32Then(h.ticksInPhase, U8Then(h.playerCount, rest)))))))
  }

  function HashesThen(h: Hashes, rest: seq<Byte>): seq<Byte> {
    U64Then(h.seed, U64Then(h.config, U64Then(h.champions, U64Then(h.items, U64Then(h.encounters, U64Then(h.gifts, U64Then(h.state, rest)))))))
  }

  function BodyThen(b: Body, rest: seq<Byte>): seq<Byte> {
    RngThen(b.rng, U8Then(b.winner, CountedThen(I32Then, b.remaining, ListThen(PlayerThen, b.players,
    CountedThen(MatchupThen, b.matchups, CountedThen(OutcomeThen, b.outcomes, rest))))))
  }

  // The trailer is a checksum of everything before it.
  function Sealed(checksum: seq<Byte> -> Word64, content: seq<Byte>): (bytes: seq<Byte>)
    ensures |bytes| == |content| + TRAILER_BYTES && bytes[..|content|] == content
  {
    content + U64Then(checksum(content), [])
  }

  // The whole buffer.
  function Encoding(checksum: seq<Byte> -> Word64, h: Header, b: Body): seq<Byte> {
    Sealed(checksum, HeaderThen(h, BodyThen(b, [])))
  }

  // ---- What a decoder accepts ----------------------------------------------------------------------

  // The data a snapshot is restored against, and the verdicts of the parts that take over what was read.
  datatype World = World(
    champions: seq<Word32>, summons: set<Word32>, items: set<Word32>, gifts: map<Word32, Byte>, modules: map<Word32, set<Word32>>,
    hashes: seq<Word64>, playerCount: Byte, requireMatchingData: bool, phaseDuration: Byte -> Int32,
    checksum: seq<Byte> -> Word64, logChecksum: seq<Event> -> Word64,
    poolFits: seq<Int32> -> bool, accepts: Player -> bool, consistent: (Header, Body) -> bool)

  predicate EventFits(e: Event) {
    e.scene.kind <= OVERTIME
  }

  predicate TakedownFits(t: Takedown) {
    t.count >= 1
  }

  predicate UnitFits(w: World, u: UnitRecord) {
    u.champion in w.champions && u.location <= BOARD
  }

  predicate UnitsFit(w: World, units: seq<UnitRecord>) {
    |units| <= MAX_UNITS_PER_PLAYER && forall k | 0 <= k < |units| :: UnitFits(w, units[k])
  }

  predicate EventsFit(events: seq<Event>) {
    |events| <= MAX_EVENTS && forall k | 0 <= k < |events| :: EventFits(events[k])
  }

  predicate TakedownsFit(takedowns: seq<Takedown>) {
    |takedowns| <= MAX_TAKEDOWNS && forall k | 0 <= k < |takedowns| :: TakedownFits(takedowns[k])
  }

  predicate SlotsFit(w: World, slots: seq<Word32>) {
    |slots| <= MAX_SHOP_SLOTS && forall k | 0 <= k < |slots| :: SlotFits(w, slots[k])
  }

  predicate GiftsFit(w: World, gifts: seq<Gift>) {
    |gifts| <= MAX_OFFERS && forall k | 0 <= k < |gifts| :: GiftFits(w, gifts[k])
  }

  predicate PlayersFit(w: World, phase: Byte, players: seq<Player>) {
    forall k | 0 <= k < |players| :: PlayerFits(w, phase, players[k])
  }

  predicate OutcomesFit(w: World, outcomes: seq<Outcome>) {
    |outcomes| <= MAX_PLAYERS && forall k | 0 <= k < |outcomes| :: OutcomeFits(w, outcomes[k])
  }

  predicate SlotFits(w: World, c: Word32) {
    c == NO_CHAMPION || c in w.champions
  }

  predicate GiftFits(w: World, g: Gift) {
    && g.kind <= GIFT_UNIT && g.gift in w.gifts && w.gifts[g.gift] == g.kind
    && (if g.kind == GIFT_UNIT then g.champion != NO_CHAMPION && g.champion in w.champions && g.champion !in w.summons else g.champion == NO_CHAMPION)
    && (if g.kind == GIFT_ITEM then g.item in w.items else g.item == 0)
  }

  // Offers only during the gift phase, and none for a player who has chosen.
  predicate OffersFit(w: World, phase: Byte, settled: bool, offers: seq<Gift>) {
    GiftsFit(w, offers) && (settled || offers != [] ==> phase == MOTHER_NATURE) && (settled ==> offers == [])
  }

  predicate ModuleKnown(w: World, m: Word32) {
    exists t | t in w.modules :: m in w.modules[t]
  }

  predicate ProgressFits(w: World, p: Progress) {
    |p.modules| <= 3 && |p.unlocked| <= 3 && forall k | 0 <= k < |p.modules| :: ModuleKnown(w, p.modules[k])
  }

  predicate ChoiceFits(w: World, c: Choice) {
    && |c.options| <= 8 && |c.bonusItems| <= 16 && c.kind <= PROTOTYPE
    && (c.kind != NO_CHOICE <==> c.options != []) && c.bonusGold >= 0 && 0 <= c.tier <= 4
    && (c.kind == MODULE ==> c.trait_ in w.modules && forall k | 0 <= k < |c.options| :: c.options[k] in w.modules[c.trait_])
    && (c.kind == PROTOTYPE ==> forall k | 0 <= k < |c.options| :: c.options[k] in w.items)
  }

  // The decoder knows four cash-out tiers, the match pays six: of the choices a player can be offered,
  // exactly those of tiers 5 and 6 cannot be restored.
  lemma CashOutFits(w: World, c: Choice)
    requires c.kind == PROTOTYPE && 1 <= c.tier <= CASH_OUT_TIERS && c.bonusGold >= 0
    requires 0 < |c.options| <= 8 && |c.bonusItems| <= 16 && forall k | 0 <= k < |c.options| :: c.options[k] in w.items
    ensures ChoiceFits(w, c) <==> c.tier <= 4
  {
  }

  lemma CashOutIsLost(w: World, h: Header, b: Body, i: nat)
    requires i < |b.players| && b.players[i].choice.tier > 4
    ensures !Fits(w, h, b)
  {
    assert !PlayerFits(w, h.phase, b.players[i]);
  }

  predicate PlayerFits(w: World, phase: Byte, p: Player) {
    && UnitsFit(w, p.units) && |p.itemBag| <= MAX_ITEM_BAG && SlotsFit(w, p.shopSlots)
    && OffersFit(w, phase, p.settled, p.offers) && ProgressFits(w, p.progress) && ChoiceFits(w, p.choice) && w.accepts(p)
  }

  predicate SeatsExist(w: World, m: Matchup) {
    m.home < w.playerCount && if m.awayIsMonsters then m.away == NOBODY && !m.awayIsGhost else m.away < w.playerCount
  }

  predicate AllSeatsExist(w: World, b: Body) {
    && (forall k | 0 <= k < |b.matchups| :: SeatsExist(w, b.matchups[k]))
    && (forall k | 0 <= k < |b.outcomes| :: SeatsExist(w, b.outcomes[k].result.matchup))
  }

  predicate OutcomeFits(w: World, o: Outcome) {
    EventsFit(o.events) && TakedownsFit(o.takedowns) && o.result.winner <= DRAW && o.result.dropKind <= DROP_ITEM && w.logChecksum(o.events) == o.checksum
  }

  predicate HeaderFits(w: World, h: Header) {
    && (w.requireMatchingData ==> [h.hashes.config, h.hashes.champions, h.hashes.items, h.hashes.encounters, h.hashes.gifts] == w.hashes)
    && h.phase <= MATCH_OVER && h.playerCount == w.playerCount
    && if 0 < h.phase < MATCH_OVER then h.round >= 1 && 0 <= h.ticksInPhase < w.phaseDuration(h.phase)
       else h.ticksInPhase == 0 && (if h.phase == 0 then h.round == 0 else h.round >= 1)
  }

  predicate BodyFits(w: World, phase: Byte, b: Body) {
    && b.rng != RngState(0, 0, 0, 0) && (b.winner == NOBODY || b.winner < w.playerCount)
    && |b.remaining| == |w.champions| && w.poolFits(b.remaining)
    && |b.players| == w.playerCount && PlayersFit(w, phase, b.players)
    && |b.matchups| <= MAX_PLAYERS && OutcomesFit(w, b.outcomes) && AllSeatsExist(w, b)
  }

  predicate Fits(w: World, h: Header, b: Body) {
    HeaderFits(w, h) && BodyFits(w, h.phase, b) && w.consistent(h, b)
  }

  // ---- Lists ---------------------------------------------------------------------------------------

  lemma {:induction false} ListSnoc<T>(f: (T, seq<Byte>) -> seq<Byte>, xs: seq<T>, x: T, rest: seq<Byte>)
    ensures ListThen(f, xs + [x], rest) == ListThen(f, xs, f(x, rest))
  {
    if xs == [] {
      assert ([x])[1..] == [] && xs + [x] == [x];
    } else {
      ListSnoc(f, xs[1..], x, rest);
      assert (xs + [x])[1..] == xs[1..] + [x];
    }
  }

  lemma NothingListed<T>(f: (T, seq<Byte>) -> seq<Byte>, rest: seq<Byte>)
    ensures ListThen(f, [], rest) == rest
  {
  }

  // A list is at least as long as its elements' smallest size says.
  lemma {:induction false} ListSize<T(!new)>(f: (T, seq<Byte>) -> seq<Byte>, size: nat, xs: seq<T>, rest: seq<Byte>)
    requires forall x: T, r: seq<Byte> :: |f(x, r)| >= size + |r|
    ensures |ListThen(f, xs, rest)| >= |xs| * size + |rest|
  {
    if xs != [] {
      ListSize(f, size, xs[1..], rest);
    }
  }

  // From b0 to b the list xs was appended.
  ghost predicate Wrote<T>(f: (T, seq<Byte>) -> seq<Byte>, b0: seq<Byte>, xs: seq<T>, b: seq<Byte>) {
    forall rest: seq<Byte> :: b + rest == b0 + ListThen(f, xs, rest)
  }

  lemma WroteNext<T>(f: (T, seq<Byte>) -> seq<Byte>, b0: seq<Byte>, xs: seq<T>, b: seq<Byte>, x: T, next: seq<Byte>)
    requires Wrote(f, b0, xs, b) && forall rest: seq<Byte> :: next + rest == b + f(x, rest)
    ensures Wrote(f, b0, xs + [x], next)
  {
    forall rest: seq<Byte>
      ensures next + rest == b0 + ListThen(f, xs + [x], rest)
    {
      ListSnoc(f, xs, x, rest);
    }
  }

  lemma WroteAll<T>(f: (T, seq<Byte>) -> seq<Byte>, start: seq<Byte>, b0: seq<Byte>, xs: Listed<T>, b: seq<Byte>)
    requires Wrote(f, b0, xs, b) && forall rest: seq<Byte> :: b0 + rest == start + U32Then(|xs|, rest)
    ensures forall rest: seq<Byte> :: b + rest == start + CountedThen(f, xs, rest)
  {
  }

  // Having read xs with `now` left to read: whatever list of n was written at `start`, xs is its
  // beginning and the rest of it comes next.
  ghost predicate Tracks<T(!new)>(f: (T, seq<Byte>) -> seq<Byte>, n: nat, start: seq<Byte>, ok: bool, xs: seq<T>, now: seq<Byte>) {
    && |xs| <= n
    && forall xs0: seq<T>, rest0: seq<Byte> :: |xs0| == n && start == ListThen(f, xs0, rest0) ==>
         ok && xs == xs0[..|xs|] && now == ListThen(f, xs0[|xs|..], rest0)
  }

  lemma TrackStart<T(!new)>(f: (T, seq<Byte>) -> seq<Byte>, n: nat, start: seq<Byte>)
    ensures Tracks(f, n, start, true, [], start)
  {
    forall xs0: seq<T>, rest0: seq<Byte> | |xs0| == n && start == ListThen(f, xs0, rest0)
      ensures [] == xs0[..0] && start == ListThen(f, xs0[0..], rest0)
    {
      assert xs0[0..] == xs0;
    }
  }

  lemma TrackStep<T(!new)>(f: (T, seq<Byte>) -> seq<Byte>, n: nat, start: seq<Byte>, ok: bool, xs: seq<T>, now: seq<Byte>,
                     okThen: bool, x: T, nowThen: seq<Byte>)
    requires Tracks(f, n, start, ok, xs, now) && |xs| < n
    requires forall x0: T, rest0: seq<Byte> :: ok && now == f(x0, rest0) ==> okThen && x == x0 && nowThen == rest0
    ensures Tracks(f, n, start, okThen, xs + [x], nowThen)
  {
    forall xs0: seq<T>, rest0: seq<Byte> | |xs0| == n && start == ListThen(f, xs0, rest0)
      ensures okThen && xs + [x] == xs0[..|xs| + 1] && nowThen == ListThen(f, xs0[|xs| + 1..], rest0)
    {
      var later := xs0[|xs|..];
      assert later[1..] == xs0[|xs| + 1..] && later[0] == xs0[|xs|];
      assert now == ListThen(f, later, rest0) == f(later[0], ListThen(f, later[1..], rest0));
    }
  }

  // So what comes next is the next element.
  lemma TrackNext<T(!new)>(f: (T, seq<Byte>) -> seq<Byte>, n: nat, start: seq<Byte>, ok: bool, xs: seq<T>, now: seq<Byte>, xs0: seq<T>, rest0: seq<Byte>)
    requires Tracks(f, n, start, ok, xs, now) && |xs| < n == |xs0| && start == ListThen(f, xs0, rest0)
    ensures ok && now == f(xs0[|xs|], ListThen(f, xs0[|xs| + 1..], rest0))
  {
    var later := xs0[|xs|..];
    assert later[1..] == xs0[|xs| + 1..] && later[0] == xs0[|xs|];
    assert now == ListThen(f, later, rest0) == f(later[0], ListThen(f, later[1..], rest0));
  }

  lemma TrackEnd<T(!new)>(f: (T, seq<Byte>) -> seq<Byte>, n: nat, start: seq<Byte>, ok: bool, xs: seq<T>, now: seq<Byte>)
    requires Tracks(f, n, start, ok, xs, now) && |xs| == n
    ensures forall xs0: seq<T>, rest0: seq<Byte> :: |xs0| == n && start == ListThen(f, xs0, rest0) ==> ok && xs == xs0 && now == rest0
  {
    forall xs0: seq<T>, rest0: seq<Byte> | |xs0| == n && start == ListThen(f, xs0, rest0)
      ensures ok && xs == xs0 && now == rest0
    {
      var none := xs0[n..];
      assert xs0[..n] == xs0 && none == [] && now == ListThen(f, none, rest0);
    }
  }

  // ---- Sizes: no guard refuses what was written ----------------------------------------------------

  lemma EventSize(e: Event, rest: seq<Byte>)
    ensures |EventThen(e, rest)| == EVENT_BYTES + |rest|
  {
  }

  lemma UnitSize(u: UnitRecord, rest: seq<Byte>)
    ensures |UnitThen(u, rest)| == UNIT_BYTES + |rest|
  {
  }

  lemma GiftSize(g: Gift, rest: seq<Byte>)
    ensures |GiftThen(g, rest)| == GIFT_BYTES + |rest|
  {
  }

  lemma MatchupSize(m: Matchup, rest: seq<Byte>)
    ensures |MatchupThen(m, rest)| == MATCHUP_BYTES + |rest|
  {
  }

  lemma HeaderSize(h: Header, rest: seq<Byte>)
    ensures |HeaderThen(h, rest)| == HEADER_BYTES + |rest|
  {
  }

  // Behind the header comes the body.
  lemma BehindHeader(h: Header, rest: seq<Byte>)
    ensures HeaderThen(h, rest)[HEADER_BYTES..] == rest
  {
    hide LittleThen, U8Then, I32Then, U32Then, U64Then;
    Extends();
    HeaderSize(h, []);
    assert HeaderThen(h, []) + rest == HeaderThen(h, [] + rest);
    assert [] + rest == rest;
  }

  lemma Extends()
    ensures forall v: Byte, a, b: seq<Byte> :: U8Then(v, a) + b == U8Then(v, a + b)
    ensures forall v: Int32, a, b: seq<Byte> :: I32Then(v, a) + b == I32Then(v, a + b)
    ensures forall v: Word32, a, b: seq<Byte> :: U32Then(v, a) + b == U32Then(v, a + b)
    ensures forall v: Word64, a, b: seq<Byte> :: U64Then(v, a) + b == U64Then(v, a + b)
  {
  }

  lemma OutcomeSize(o: Outcome, rest: seq<Byte>)
    ensures |OutcomeThen(o, rest)| >= OUTCOME_BYTES + 4 + |rest|
  {
    forall e: Event, r: seq<Byte>
      ensures |EventThen(e, r)| >= EVENT_BYTES + |r|
    {
      EventSize(e, r);
    }
    ListSize(TakedownThen, 8, o.takedowns, rest);
    ListSize(EventThen, EVENT_BYTES, o.events, CountedThen(TakedownThen, o.takedowns, rest));
  }
}
