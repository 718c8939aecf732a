// Writing a snapshot (server/src/Snapshot.cpp:116-147, 244-331): what is appended is exactly the encoding
// of the match, field by field.
module SnapshotWriter {
  import opened Wrappers
  import opened Bytes
  import opened SnapshotFormat

  // ---- Writing -------------------------------------------------------------------------------------

  method WriteScene(w: ByteWriter, s: EventScene)
    modifies w
    ensures forall rest :: w.bytes + rest == old(w.bytes) + SceneThen(s, rest)
  {
    hide U8Then, I32Then, U32Then, U64Then, BoolThen, LittleThen;
    w.I32(s.tick);
    w.U8(s.kind);
    w.U8(s.team);
    w.U32(s.unit);
    w.U32(s.other);
    w.I32(s.fromX);
    w.I32(s.fromY);
    w.I32(s.toX);
    w.I32(s.toY);
  }

  method WriteEffect(w: ByteWriter, f: EventEffect)
    modifies w
    ensures forall rest :: w.bytes + rest == old(w.bytes) + EffectThen(f, rest)
  {
    hide U8Then, I32Then, U32Then, U64Then, BoolThen, LittleThen;
    w.I32(f.amount);
    w.I32(f.hpAfter);
    w.U32(f.champion);
    w.U8(f.star);
    w.I32(f.absorbed);
    w.U8(f.subtype);
    w.U8(f.flags);
    w.U32(f.ability);
    w.I32(f.duration);
  }

  method WriteLook(w: ByteWriter, l: EventLook)
    modifies w
    ensures forall rest :: w.bytes + rest == old(w.bytes) + LookThen(l, rest)
  {
    hide U8Then, I32Then, U32Then, U64Then, BoolThen, LittleThen;
    w.I32(l.manaMax);
    w.I32(l.manaRegen);
    w.I32(l.reduced);
    w.U32(l.traitId);
    w.I32(l.windup);
    w.I32(l.flight);
    w.U8(l.style);
    w.U8(l.shape);
    w.U8(l.size);
  }

  method WriteMatchup(w: ByteWriter, m: Matchup)
    modifies w
    ensures forall rest :: w.bytes + rest == old(w.bytes) + MatchupThen(m, rest)
  {
    hide U8Then, I32Then, U32Then, U64Then, BoolThen, LittleThen;
    w.U8(m.home);
    w.U8(m.away);
    w.Bool(m.awayIsGhost);
    w.Bool(m.awayIsMonsters);
    w.U32(m.encounter);
  }

  method WriteTakedown(w: ByteWriter, t: Takedown)
    modifies w
    ensures forall rest :: w.bytes + rest == old(w.bytes) + TakedownThen(t, rest)
  {
    hide U8Then, I32Then, U32Then, U64Then, BoolThen, LittleThen;
    w.U32(t.unit);
    w.I32(t.count);
  }

  method WriteRng(w: ByteWriter, s: RngState)
    modifies w
    ensures forall rest :: w.bytes + rest == old(w.bytes) + RngThen(s, rest)
  {
    hide U8Then, I32Then, U32Then, U64Then, BoolThen, LittleThen;
    w.U64(s.a);
    w.U64(s.b);
    w.U64(s.c);
    w.U64(s.d);
  }

  method WriteUnit(w: ByteWriter, u: UnitRecord)
    modifies w
    ensures forall rest :: w.bytes + rest == old(w.bytes) + UnitThen(u, rest)
  {
    hide U8Then, I32Then, U32Then, U64Then, BoolThen, LittleThen;
    w.U32(u.id);
    w.U32(u.champion);
    w.U8(u.star);
    w.U8(u.location);
    w.I32(u.x);
    w.I32(u.y);
    w.U32(u.item0);
    w.U32(u.item1);
    w.U32(u.item2);
  }

  method WriteGift(w: ByteWriter, g: Gift)
    modifies w
    ensures forall rest :: w.bytes + rest == old(w.bytes) + GiftThen(g, rest)
  {
    hide U8Then, I32Then, U32Then, U64Then, BoolThen, LittleThen;
    w.U32(g.gift);
    w.U8(g.kind);
    w.I32(g.amount);
    w.U32(g.item);
    w.U32(g.champion);
  }

  method WriteEconomy(w: ByteWriter, e: Economy)
    modifies w
    ensures forall rest :: w.bytes + rest == old(w.bytes) + EconomyThen(e, rest)
  {
    hide U8Then, I32Then, U32Then, U64Then, BoolThen, LittleThen;
    w.I32(e.health);
    w.I32(e.level);
    w.I32(e.xp);
    w.I32(e.gold);
    w.I32(e.streak);
    w.Bool(e.eliminated);
    w.I32(e.placement);
    w.U32(e.nextSerial);
  }

  method WriteEvent(w: ByteWriter, e: Event)
    modifies w
    ensures forall rest :: w.bytes + rest == old(w.bytes) + EventThen(e, rest)
  {
    hide SceneThen, EffectThen, LookThen;
    WriteScene(w, e.scene);
    WriteEffect(w, e.effect);
    WriteLook(w, e.look);
  }

  method WriteWords(w: ByteWriter, xs: Listed<Word32>)
    modifies w
    ensures forall rest :: w.bytes + rest == old(w.bytes) + CountedThen(U32Then, xs, rest)
  {
    hide U32Then;
    w.U32(|xs|);
    ghost var b0 := w.bytes;
    for k := 0 to |xs|
      invariant Wrote(U32Then, b0, xs[..k], w.bytes)
    {
      ghost var b := w.bytes;
      w.U32(xs[k]);
      WroteNext(U32Then, b0, xs[..k], b, xs[k], w.bytes);
      assert xs[..k] + [xs[k]] == xs[..k + 1];
    }
    assert xs[..|xs|] == xs;
    WroteAll(U32Then, old(w.bytes), b0, xs, w.bytes);
  }

  method WriteCopies(w: ByteWriter, xs: Listed<Int32>)
    modifies w
    ensures forall rest :: w.bytes + rest == old(w.bytes) + CountedThen(I32Then, xs, rest)
  {
    hide I32Then;
    w.U32(|xs|);
    ghost var b0 := w.bytes;
    for k := 0 to |xs|
      invariant Wrote(I32Then, b0, xs[..k], w.bytes)
    {
      ghost var b := w.bytes;
      w.I32(xs[k]);
      WroteNext(I32Then, b0, xs[..k], b, xs[k], w.bytes);
      assert xs[..k] + [xs[k]] == xs[..k + 1];
    }
    assert xs[..|xs|] == xs;
    WroteAll(I32Then, old(w.bytes), b0, xs, w.bytes);
  }

  method WriteUnits(w: ByteWriter, xs: Listed<UnitRecord>)
    modifies w
    ensures forall rest :: w.bytes + rest == old(w.bytes) + CountedThen(UnitThen, xs, rest)
  {
    hide UnitThen;
    w.U32(|xs|);
    ghost var b0 := w.bytes;
    for k := 0 to |xs|
      invariant Wrote(UnitThen, b0, xs[..k], w.bytes)
    {
      ghost var b := w.bytes;
      WriteUnit(w, xs[k]);
      WroteNext(UnitThen, b0, xs[..k], b, xs[k], w.bytes);
      assert xs[..k] + [xs[k]] == xs[..k + 1];
    }
    assert xs[..|xs|] == xs;
    WroteAll(UnitThen, old(w.bytes), b0, xs, w.bytes);
  }

  method WriteGifts(w: ByteWriter, xs: Listed<Gift>)
    modifies w
    ensures forall rest :: w.bytes + rest == old(w.bytes) + CountedThen(GiftThen, xs, rest)
  {
    hide GiftThen;
    w.U32(|xs|);
    ghost var b0 := w.bytes;
    for k := 0 to |xs|
      invariant Wrote(GiftThen, b0, xs[..k], w.bytes)
    {
      ghost var b := w.bytes;
      WriteGift(w, xs[k]);
      WroteNext(GiftThen, b0, xs[..k], b, xs[k], w.bytes);
      assert xs[..k] + [xs[k]] == xs[..k + 1];
    }
    assert xs[..|xs|] == xs;
    WroteAll(GiftThen, old(w.bytes), b0, xs, w.bytes);
  }

  method WriteEvents(w: ByteWriter, xs: Listed<Event>)
    modifies w
    ensures forall rest :: w.bytes + rest == old(w.bytes) + CountedThen(EventThen, xs, rest)
  {
    hide EventThen;
    w.U32(|xs|);
    ghost var b0 := w.bytes;
    for k := 0 to |xs|
      invariant Wrote(EventThen, b0, xs[..k], w.bytes)
    {
      ghost var b := w.bytes;
      WriteEvent(w, xs[k]);
      WroteNext(EventThen, b0, xs[..k], b, xs[k], w.bytes);
      assert xs[..k] + [xs[k]] == xs[..k + 1];
    }
    assert xs[..|xs|] == xs;
    WroteAll(EventThen, old(w.bytes), b0, xs, w.bytes);
  }

  method WriteTakedowns(w: ByteWriter, xs: Listed<Takedown>)
    modifies w
    ensures forall rest :: w.bytes + rest == old(w.bytes) + CountedThen(TakedownThen, xs, rest)
  {
    hide TakedownThen;
    w.U32(|xs|);
    ghost var b0 := w.bytes;
    for k := 0 to |xs|
      invariant Wrote(TakedownThen, b0, xs[..k], w.bytes)
    {
      ghost var b := w.bytes;
      WriteTakedown(w, xs[k]);
      WroteNext(TakedownThen, b0, xs[..k], b, xs[k], w.bytes);
      assert xs[..k] + [xs[k]] == xs[..k + 1];
    }
    assert xs[..|xs|] == xs;
    WroteAll(TakedownThen, old(w.bytes), b0, xs, w.bytes);
  }

  method WriteMatchups(w: ByteWriter, xs: Listed<Matchup>)
    modifies w
    ensures forall rest :: w.bytes + rest == old(w.bytes) + CountedThen(MatchupThen, xs, rest)
  {
    hide MatchupThen;
    w.U32(|xs|);
    ghost var b0 := w.bytes;
    for k := 0 to |xs|
      invariant Wrote(MatchupThen, b0, xs[..k], w.bytes)
    {
      ghost var b := w.bytes;
      WriteMatchup(w, xs[k]);
      WroteNext(MatchupThen, b0, xs[..k], b, xs[k], w.bytes);
      assert xs[..k] + [xs[k]] == xs[..k + 1];
    }
    assert xs[..|xs|] == xs;
    WroteAll(MatchupThen, old(w.bytes), b0, xs, w.bytes);
  }

  method WriteProgress(w: ByteWriter, p: Progress)
    modifies w
    ensures forall rest :: w.bytes + rest == old(w.bytes) + ProgressThen(p, rest)
  {
    hide U8Then, I32Then, U32Then, U64Then, BoolThen, LittleThen, CountedThen;
    w.I32(p.traitGold);
    w.I32(p.takedownCounter);
    w.I32(p.starDust);
    w.I32(p.grantCombats);
    w.Bool(p.unitGranted);
    w.I32(p.moduleTiersOffered);
    WriteWords(w, p.modules);
    WriteWords(w, p.unlocked);
  }

  method WriteChoice(w: ByteWriter, c: Choice)
    modifies w
    ensures forall rest :: w.bytes + rest == old(w.bytes) + ChoiceThen(c, rest)
  {
    hide U8Then, I32Then, U32Then, U64Then, BoolThen, LittleThen, CountedThen;
    w.U8(c.kind);
    w.U32(c.trait_);
    w.I32(c.tier);
    w.I32(c.bonusGold);
    WriteWords(w, c.options);
    WriteWords(w, c.bonusItems);
  }

  method WritePlayer(w: ByteWriter, p: Player)
    modifies w
    ensures forall rest :: w.bytes + rest == old(w.bytes) + PlayerThen(p, rest)
  {
    hide U8Then, I32Then, U32Then, U64Then, BoolThen, LittleThen, CountedThen, EconomyThen, RngThen, ProgressThen, ChoiceThen;
    WriteEconomy(w, p.economy);
    WriteUnits(w, p.units);
    WriteWords(w, p.itemBag);
    WriteWords(w, p.shopSlots);
    WriteRng(w, p.shopRng);
    w.Bool(p.shopLocked);
    w.Bool(p.settled);
    WriteGifts(w, p.offers);
    WriteProgress(w, p.progress);
    WriteChoice(w, p.choice);
  }

  method WritePlayers(w: ByteWriter, xs: seq<Player>)
    modifies w
    ensures forall rest :: w.bytes + rest == old(w.bytes) + ListThen(PlayerThen, xs, rest)
  {
    hide PlayerThen;
    for k := 0 to |xs|
      invariant Wrote(PlayerThen, old(w.bytes), xs[..k], w.bytes)
    {
      ghost var b := w.bytes;
      WritePlayer(w, xs[k]);
      WroteNext(PlayerThen, old(w.bytes), xs[..k], b, xs[k], w.bytes);
      assert xs[..k] + [xs[k]] == xs[..k + 1];
    }
    assert xs[..|xs|] == xs;
  }

  method WriteResult(w: ByteWriter, o: FightResult)
    modifies w
    ensures forall rest :: w.bytes + rest == old(w.bytes) + ResultThen(o, rest)
  {
    hide U8Then, I32Then, U32Then, U64Then, BoolThen, LittleThen, MatchupThen;
    WriteMatchup(w, o.matchup);
    w.U8(o.winner);
    w.I32(o.winnerSurvivors);
    w.I32(o.damageToLoser);
    w.U8(o.dropKind);
    w.I32(o.dropGold);
    w.U32(o.dropChampion);
    w.U32(o.dropItem);
  }

  method WriteOutcome(w: ByteWriter, o: Outcome)
    modifies w
    ensures forall rest :: w.bytes + rest == old(w.bytes) + OutcomeThen(o, rest)
  {
    hide U8Then, I32Then, U32Then, U64Then, BoolThen, LittleThen, CountedThen, ResultThen;
    WriteResult(w, o.result);
    w.I32(o.endTick);
    w.I32(o.survivorsHome);
    w.I32(o.survivorsAway);
    w.I32(o.pathSearches);
    w.U64(o.checksum);
    WriteEvents(w, o.events);
    WriteTakedowns(w, o.takedowns);
  }

  method WriteOutcomes(w: ByteWriter, xs: Listed<Outcome>)
    modifies w
    ensures forall rest :: w.bytes + rest == old(w.bytes) + CountedThen(OutcomeThen, xs, rest)
  {
    hide OutcomeThen;
    w.U32(|xs|);
    ghost var b0 := w.bytes;
    for k := 0 to |xs|
      invariant Wrote(OutcomeThen, b0, xs[..k], w.bytes)
    {
      ghost var b := w.bytes;
      WriteOutcome(w, xs[k]);
      WroteNext(OutcomeThen, b0, xs[..k], b, xs[k], w.bytes);
      assert xs[..k] + [xs[k]] == xs[..k + 1];
    }
    assert xs[..|xs|] == xs;
    WroteAll(OutcomeThen, old(w.bytes), b0, xs, w.bytes);
  }

  method WriteHeader(w: ByteWriter, h: Header)
    modifies w
    ensures forall rest :: w.bytes + rest == old(w.bytes) + HeaderThen(h, rest)
  {
    hide U8Then, I32Then, U32Then, U64Then, BoolThen, LittleThen, HashesThen;
    w.U32(MAGIC);
    w.U32(VERSION);
    WriteHashes(w, h.hashes);
    w.U8(h.phase);
    w.I32(h.round);
    w.I32(h.ticksInPhase);
    w.U8(h.playerCount);
  }

  method WriteHashes(w: ByteWriter, h: Hashes)
    modifies w
    ensures forall rest :: w.bytes + rest == old(w.bytes) + HashesThen(h, rest)
  {
    hide U8Then, I32Then, U32Then, U64Then, BoolThen, LittleThen;
    w.U64(h.seed);
    w.U64(h.config);
    w.U64(h.champions);
    w.U64(h.items);
    w.U64(h.encounters);
    w.U64(h.gifts);
    w.U64(h.state);
  }

  method WriteBody(w: ByteWriter, b: Body)
    modifies w
    ensures forall rest :: w.bytes + rest == old(w.bytes) + BodyThen(b, rest)
  {
    hide U8Then, I32Then, U32Then, U64Then, BoolThen, LittleThen, CountedThen, ListThen, RngThen;
    WriteRng(w, b.rng);
    w.U8(b.winner);
    WriteCopies(w, b.remaining);
    WritePlayers(w, b.players);
    WriteMatchups(w, b.matchups);
    WriteOutcomes(w, b.outcomes);
  }

  // Everything, and the checksum of it behind it.
  method Snapshot(checksum: seq<Byte> -> Word64, h: Header, b: Body) returns (bytes: seq<Byte>)
    ensures bytes == Encoding(checksum, h, b)
  {
    hide U8Then, I32Then, U32Then, U64Then, BoolThen, LittleThen, HeaderThen, BodyThen;
    var w := new ByteWriter();
    WriteHeader(w, h);
    ghost var header := w.bytes;
    assert header + BodyThen(b, []) == HeaderThen(h, BodyThen(b, []));
    WriteBody(w, b);
    ghost var content := w.bytes;
    assert content + [] == content;
    w.U64(checksum(w.bytes));
    bytes := w.bytes;
    assert bytes + [] == bytes;
  }
}
