// Restoring a snapshot (server/src/Snapshot.cpp:139-205, 335-582): exactly the encodings of what fits are
// accepted, and what comes out is what was written.
module SnapshotReader {
  import opened Wrappers
  import opened Bytes
  import opened SnapshotFormat

  // ---- Records -------------------------------------------------------------------------------------

  method ReadScene(r: ByteReader) returns (s: EventScene)
    requires r.Valid()
    modifies r`pos, r`ok
    ensures r.Valid() && (r.ok ==> old(r.ok) && old(r.Rest()) == SceneThen(s, r.Rest()))
    ensures forall s0: EventScene, rest0 :: old(r.ok) && old(r.Rest()) == SceneThen(s0, rest0) ==> r.ok && s == s0 && r.Rest() == rest0
  {
    hide U8Then, I32Then, U32Then, U64Then, BoolThen, LittleThen, ByteReader.Rest, ByteReader.Valid;
    var tick := r.I32();
    var kind := r.U8();
    var team := r.U8();
    var unit := r.U32();
    var other := r.U32();
    var fromX := r.I32();
    var fromY := r.I32();
    var toX := r.I32();
    var toY := r.I32();
    s := EventScene(tick, kind, team, unit, other, fromX, fromY, toX, toY);
  }

  method ReadEffect(r: ByteReader) returns (f: EventEffect)
    requires r.Valid()
    modifies r`pos, r`ok
    ensures r.Valid() && (r.ok ==> old(r.ok) && old(r.Rest()) == EffectThen(f, r.Rest()))
    ensures forall f0: EventEffect, rest0 :: old(r.ok) && old(r.Rest()) == EffectThen(f0, rest0) ==> r.ok && f == f0 && r.Rest() == rest0
  {
    hide U8Then, I32Then, U32Then, U64Then, BoolThen, LittleThen, ByteReader.Rest, ByteReader.Valid;
    var amount := r.I32();
    var hpAfter := r.I32();
    var champion := r.U32();
    var star := r.U8();
    var absorbed := r.I32();
    var subtype := r.U8();
    var flags := r.U8();
    var ability := r.U32();
    var duration := r.I32();
    f := EventEffect(amount, hpAfter, champion, star, absorbed, subtype, flags, ability, duration);
  }

  method ReadLook(r: ByteReader) returns (l: EventLook)
    requires r.Valid()
    modifies r`pos, r`ok
    ensures r.Valid() && (r.ok ==> old(r.ok) && old(r.Rest()) == LookThen(l, r.Rest()))
    ensures forall l0: EventLook, rest0 :: old(r.ok) && old(r.Rest()) == LookThen(l0, rest0) ==> r.ok && l == l0 && r.Rest() == rest0
  {
    hide U8Then, I32Then, U32Then, U64Then, BoolThen, LittleThen, ByteReader.Rest, ByteReader.Valid;
    var manaMax := r.I32();
    var manaRegen := r.I32();
    var reduced := r.I32();
    var traitId := r.U32();
    var windup := r.I32();
    var flight := r.I32();
    var style := r.U8();
    var shape := r.U8();
    var size := r.U8();
    l := EventLook(manaMax, manaRegen, reduced, traitId, windup, flight, style, shape, size);
  }

  method ReadMatchup(r: ByteReader) returns (m: Matchup)
    requires r.Valid()
    modifies r`pos, r`ok
    ensures r.Valid() && (r.ok ==> old(r.ok) && old(r.Rest()) == MatchupThen(m, r.Rest()))
    ensures forall m0: Matchup, rest0 :: old(r.ok) && old(r.Rest()) == MatchupThen(m0, rest0) ==> r.ok && m == m0 && r.Rest() == rest0
  {
    hide U8Then, I32Then, U32Then, U64Then, BoolThen, LittleThen, ByteReader.Rest, ByteReader.Valid;
    var home := r.U8();
    var away := r.U8();
    var awayIsGhost := r.Bool();
    var awayIsMonsters := r.Bool();
    var encounter := r.U32();
    m := Matchup(home, away, awayIsGhost, awayIsMonsters, encounter);
  }

  method ReadTakedown(r: ByteReader) returns (t: Takedown)
    requires r.Valid()
    modifies r`pos, r`ok
    ensures r.Valid() && (r.ok ==> old(r.ok) && old(r.Rest()) == TakedownThen(t, r.Rest()))
    ensures forall t0: Takedown, rest0 :: old(r.ok) && old(r.Rest()) == TakedownThen(t0, rest0) ==> r.ok && t == t0 && r.Rest() == rest0
  {
    hide U8Then, I32Then, U32Then, U64Then, BoolThen, LittleThen, ByteReader.Rest, ByteReader.Valid;
    var unit := r.U32();
    var count := r.I32();
    t := Takedown(unit, count);
  }

  method ReadRng(r: ByteReader) returns (s: RngState)
    requires r.Valid()
    modifies r`pos, r`ok
    ensures r.Valid() && (r.ok ==> old(r.ok) && old(r.Rest()) == RngThen(s, r.Rest()))
    ensures forall s0: RngState, rest0 :: old(r.ok) && old(r.Rest()) == RngThen(s0, rest0) ==> r.ok && s == s0 && r.Rest() == rest0
  {
    hide U8Then, I32Then, U32Then, U64Then, BoolThen, LittleThen, ByteReader.Rest, ByteReader.Valid;
    var a := r.U64();
    var b := r.U64();
    var c := r.U64();
    var d := r.U64();
    s := RngState(a, b, c, d);
  }

  method ReadUnit(r: ByteReader) returns (u: UnitRecord)
    requires r.Valid()
    modifies r`pos, r`ok
    ensures r.Valid() && (r.ok ==> old(r.ok) && old(r.Rest()) == UnitThen(u, r.Rest()))
    ensures forall u0: UnitRecord, rest0 :: old(r.ok) && old(r.Rest()) == UnitThen(u0, rest0) ==> r.ok && u == u0 && r.Rest() == rest0
  {
    hide U8Then, I32Then, U32Then, U64Then, BoolThen, LittleThen, ByteReader.Rest, ByteReader.Valid;
    var id := r.U32();
    var champion := r.U32();
    var star := r.U8();
    var location := r.U8();
    var x := r.I32();
    var y := r.I32();
    var item0 := r.U32();
    var item1 := r.U32();
    var item2 := r.U32();
    u := UnitRecord(id, champion, star, location, x, y, item0, item1, item2);
  }

  method ReadGift(r: ByteReader) returns (g: Gift)
    requires r.Valid()
    modifies r`pos, r`ok
    ensures r.Valid() && (r.ok ==> old(r.ok) && old(r.Rest()) == GiftThen(g, r.Rest()))
    ensures forall g0: Gift, rest0 :: old(r.ok) && old(r.Rest()) == GiftThen(g0, rest0) ==> r.ok && g == g0 && r.Rest() == rest0
  {
    hide U8Then, I32Then, U32Then, U64Then, BoolThen, LittleThen, ByteReader.Rest, ByteReader.Valid;
    var gift := r.U32();
    var kind := r.U8();
    var amount := r.I32();
    var item := r.U32();
    var champion := r.U32();
    g := Gift(gift, kind, amount, item, champion);
  }

  method ReadEconomy(r: ByteReader) returns (e: Economy)
    requires r.Valid()
    modifies r`pos, r`ok
    ensures r.Valid() && (r.ok ==> old(r.ok) && old(r.Rest()) == EconomyThen(e, r.Rest()))
    ensures forall e0: Economy, rest0 :: old(r.ok) && old(r.Rest()) == EconomyThen(e0, rest0) ==> r.ok && e == e0 && r.Rest() == rest0
  {
    hide U8Then, I32Then, U32Then, U64Then, BoolThen, LittleThen, ByteReader.Rest, ByteReader.Valid;
    var health := r.I32();
    var level := r.I32();
    var xp := r.I32();
    var gold := r.I32();
    var streak := r.I32();
    var eliminated := r.Bool();
    var placement := r.I32();
    var nextSerial := r.U32();
    e := Economy(health, level, xp, gold, streak, eliminated, placement, nextSerial);
  }

  // An event of a kind beyond the last one is malformed.
  method ReadEvent(r: ByteReader) returns (e: Option<Event>)
    requires r.Valid()
    modifies r`pos, r`ok
    ensures r.Valid() && (e.Some? ==> r.ok && old(r.ok) && old(r.Rest()) == EventThen(e.value, r.Rest()) && EventFits(e.value))
    ensures forall e0: Event, rest0 :: old(r.ok) && old(r.Rest()) == EventThen(e0, rest0) ==>
              r.ok && r.Rest() == rest0 && e == if EventFits(e0) then Some(e0) else None
  {
    hide SceneThen, EffectThen, LookThen, ByteReader.Rest, ByteReader.Valid;
    var scene := ReadScene(r);
    var effect := ReadEffect(r);
    var look := ReadLook(r);
    if scene.kind > OVERTIME || !r.ok {
      return None;
    }
    e := Some(Event(scene, effect, look));
  }

  // ---- Lists ---------------------------------------------------------------------------------------

  // A counted list of words, at most `limit` of them.
  method ReadWords(r: ByteReader, limit: nat) returns (xs: Listed<Word32>)
    requires r.Valid()
    modifies r`pos, r`ok
    ensures r.Valid() && (r.ok ==> old(r.ok) && old(r.Rest()) == CountedThen(U32Then, xs, r.Rest()) && |xs| <= limit)
    ensures forall xs0: Listed<Word32>, rest0 :: old(r.ok) && old(r.Rest()) == CountedThen(U32Then, xs0, rest0) ==>
              (r.ok <==> |xs0| <= limit) && (r.ok ==> xs == xs0 && r.Rest() == rest0)
  {
    hide U32Then, ByteReader.Rest, ByteReader.Valid;
    WordsFit();
    var n := r.Count(limit, 4);
    xs := ReadWordsPlainly(r, n);
  }

  // The guard of a counted list lets every list of words pass.
  lemma WordsFit()
    ensures forall xs0: Listed<Word32>, rest0 :: |xs0| * 4 <= |ListThen(U32Then, xs0, rest0)|
  {
    forall xs0: Listed<Word32>, rest0
      ensures |xs0| * 4 <= |ListThen(U32Then, xs0, rest0)|
    {
      ListSize(U32Then, 4, xs0, rest0);
    }
  }

  method ReadWordsPlainly(r: ByteReader, n: Word32) returns (xs: Listed<Word32>)
    requires r.Valid()
    modifies r`pos, r`ok
    ensures r.Valid() && |xs| == n && (r.ok ==> old(r.ok) && old(r.Rest()) == ListThen(U32Then, xs, r.Rest()))
    ensures forall xs0: Listed<Word32>, rest0 :: |xs0| == n && old(r.ok) && old(r.Rest()) == ListThen(U32Then, xs0, rest0) ==>
              r.ok && xs == xs0 && r.Rest() == rest0
  {
    hide U32Then, ListThen, Tracks, ByteReader.Rest, ByteReader.Valid;
    ghost var start, ok0 := r.Rest(), r.ok;
    xs := [];
    TrackStart<Word32>(U32Then, n, start);
    NothingListed<Word32>(U32Then, start);
    for k := 0 to n
      invariant r.Valid() && |xs| == k && (r.ok ==> ok0 && start == ListThen(U32Then, xs, r.Rest()))
      invariant ok0 ==> Tracks(U32Then, n, start, r.ok, xs, r.Rest())
    {
      ghost var now, ok := r.Rest(), r.ok;
      var x := r.U32();
      ListSnoc(U32Then, xs, x, r.Rest());
      if ok0 {
        TrackStep(U32Then, n, start, ok, xs, now, r.ok, x, r.Rest());
      }
      xs := xs + [x];
    }
    if ok0 {
      TrackEnd(U32Then, n, start, r.ok, xs, r.Rest());
    }
  }

  // A unit must be of a champion that is loaded and stand somewhere.
  method ReadKnownUnit(w: World, r: ByteReader) returns (u: Option<UnitRecord>)
    requires r.Valid()
    modifies r`pos, r`ok
    ensures r.Valid() && (u.Some? ==> r.ok && old(r.ok) && old(r.Rest()) == UnitThen(u.value, r.Rest()) && UnitFits(w, u.value))
    ensures forall u0: UnitRecord, rest0 :: old(r.ok) && old(r.Rest()) == UnitThen(u0, rest0) ==>
              r.ok && r.Rest() == rest0 && u == if UnitFits(w, u0) then Some(u0) else None
  {
    hide UnitThen, ByteReader.Rest, ByteReader.Valid;
    var unit := ReadUnit(r);
    if !r.ok || unit.champion !in w.champions || unit.location > BOARD {
      return None;
    }
    u := Some(unit);
  }

  // The unread rest of a takedown list may hold anything once a count is refused.
  method ReadTally(r: ByteReader) returns (t: Option<Takedown>)
    requires r.Valid()
    modifies r`pos, r`ok
    ensures r.Valid() && (t.Some? && r.ok ==> old(r.ok) && old(r.Rest()) == TakedownThen(t.value, r.Rest())) && (t.Some? ==> TakedownFits(t.value))
    ensures forall t0: Takedown, rest0 :: old(r.ok) && old(r.Rest()) == TakedownThen(t0, rest0) ==>
              r.ok && r.Rest() == rest0 && t == if TakedownFits(t0) then Some(t0) else None
  {
    hide TakedownThen, ByteReader.Rest, ByteReader.Valid;
    var takedown := ReadTakedown(r);
    if takedown.count < 1 {
      return None;
    }
    t := Some(takedown);
  }

  // A gift must be one the loaded data offers, and name what its kind says.
  method ReadOffer(w: World, r: ByteReader) returns (g: Option<Gift>)
    requires r.Valid()
    modifies r`pos, r`ok
    ensures r.Valid() && (g.Some? ==> r.ok && old(r.ok) && old(r.Rest()) == GiftThen(g.value, r.Rest()) && GiftFits(w, g.value))
    ensures forall g0: Gift, rest0 :: old(r.ok) && old(r.Rest()) == GiftThen(g0, rest0) ==>
              r.ok && r.Rest() == rest0 && g == if GiftFits(w, g0) then Some(g0) else None
  {
    hide GiftThen, ByteReader.Rest, ByteReader.Valid;
    var gift := ReadGift(r);
    if !r.ok || gift.kind > GIFT_UNIT || gift.gift !in w.gifts || w.gifts[gift.gift] != gift.kind {
      return None;
    }
    if gift.kind == GIFT_UNIT {
      if gift.champion == NO_CHAMPION || gift.champion !in w.champions || gift.champion in w.summons {
        return None;
      }
    } else if gift.champion != NO_CHAMPION {
      return None;
    }
    if gift.kind == GIFT_ITEM && gift.item !in w.items {
      return None;
    }
    if gift.kind != GIFT_ITEM && gift.item != 0 {
      return None;
    }
    g := Some(gift);
  }

  method ReadUnits(w: World, r: ByteReader) returns (xs: Option<Listed<UnitRecord>>)
    requires r.Valid()
    modifies r`pos, r`ok
    ensures r.Valid() && (xs.Some? && r.ok ==> old(r.ok) && old(r.Rest()) == CountedThen(UnitThen, xs.value, r.Rest()))
    ensures xs.Some? ==> UnitsFit(w, xs.value)
    ensures forall xs0: Listed<UnitRecord>, rest0 :: old(r.ok) && old(r.Rest()) == CountedThen(UnitThen, xs0, rest0) ==>
              (xs.Some? && r.ok <==> UnitsFit(w, xs0)) && (xs.Some? && r.ok ==> xs.value == xs0 && r.Rest() == rest0)
  {
    hide UnitThen, ByteReader.Rest, ByteReader.Valid;
    UnitsLongEnough();
    var n := r.Count(MAX_UNITS_PER_PLAYER, UNIT_BYTES);
    xs := ReadUnitsPlainly(w, r, n);
  }

  lemma UnitsLongEnough()
    ensures forall xs0: Listed<UnitRecord>, rest0 :: |xs0| * UNIT_BYTES <= |ListThen(UnitThen, xs0, rest0)|
  {
    forall xs0: Listed<UnitRecord>, rest0
      ensures |xs0| * UNIT_BYTES <= |ListThen(UnitThen, xs0, rest0)|
    {
      forall x: UnitRecord, b: seq<Byte>
        ensures |UnitThen(x, b)| >= UNIT_BYTES + |b|
      {
        UnitSize(x, b);
      }
      ListSize(UnitThen, UNIT_BYTES, xs0, rest0);
    }
  }

  method ReadUnitsPlainly(w: World, r: ByteReader, n: Word32) returns (xs: Option<Listed<UnitRecord>>)
    requires r.Valid() && n <= MAX_UNITS_PER_PLAYER
    modifies r`pos, r`ok
    ensures r.Valid() && (xs.Some? && r.ok ==> old(r.ok) && old(r.Rest()) == ListThen(UnitThen, xs.value, r.Rest()))
    ensures xs.Some? ==> |xs.value| == n && UnitsFit(w, xs.value)
    ensures forall xs0: Listed<UnitRecord>, rest0 :: |xs0| == n && old(r.ok) && old(r.Rest()) == ListThen(UnitThen, xs0, rest0) ==>
              (xs.Some? && r.ok <==> UnitsFit(w, xs0)) && (xs.Some? && r.ok ==> xs.value == xs0 && r.Rest() == rest0)
  {
    hide UnitThen, ListThen, Tracks, UnitFits, ByteReader.Rest, ByteReader.Valid;
    ghost var start, ok0 := r.Rest(), r.ok;
    var list: seq<UnitRecord> := [];
    TrackStart<UnitRecord>(UnitThen, n, start);
    NothingListed<UnitRecord>(UnitThen, start);
    for k := 0 to n
      invariant r.Valid() && |list| == k && (r.ok ==> ok0 && start == ListThen(UnitThen, list, r.Rest()))
      invariant forall j | 0 <= j < k :: UnitFits(w, list[j])
      invariant ok0 ==> Tracks(UnitThen, n, start, r.ok, list, r.Rest())
    {
      ghost var now, ok := r.Rest(), r.ok;
      var x := ReadKnownUnit(w, r);
      if x.None? {
        forall xs0: Listed<UnitRecord>, rest0 | |xs0| == n && ok0 && start == ListThen(UnitThen, xs0, rest0)
          ensures !UnitsFit(w, xs0)
        {
          TrackNext(UnitThen, n, start, ok, list, now, xs0, rest0);
        }
        return None;
      }
      ListSnoc(UnitThen, list, x.value, r.Rest());
      if ok0 {
        TrackStep(UnitThen, n, start, ok, list, now, r.ok, x.value, r.Rest());
      }
      list := list + [x.value];
    }
    if ok0 {
      TrackEnd(UnitThen, n, start, r.ok, list, r.Rest());
    }
    xs := Some(list);
  }

  method ReadGifts(w: World, r: ByteReader) returns (xs: Option<Listed<Gift>>)
    requires r.Valid()
    modifies r`pos, r`ok
    ensures r.Valid() && (xs.Some? && r.ok ==> old(r.ok) && old(r.Rest()) == CountedThen(GiftThen, xs.value, r.Rest()))
    ensures xs.Some? ==> GiftsFit(w, xs.value)
    ensures forall xs0: Listed<Gift>, rest0 :: old(r.ok) && old(r.Rest()) == CountedThen(GiftThen, xs0, rest0) ==>
              (xs.Some? && r.ok <==> GiftsFit(w, xs0)) && (xs.Some? && r.ok ==> xs.value == xs0 && r.Rest() == rest0)
  {
    hide GiftThen, ByteReader.Rest, ByteReader.Valid;
    GiftsLongEnough();
    var n := r.Count(MAX_OFFERS, GIFT_BYTES);
    xs := ReadGiftsPlainly(w, r, n);
  }

  lemma GiftsLongEnough()
    ensures forall xs0: Listed<Gift>, rest0 :: |xs0| * GIFT_BYTES <= |ListThen(GiftThen, xs0, rest0)|
  {
    forall xs0: Listed<Gift>, rest0
      ensures |xs0| * GIFT_BYTES <= |ListThen(GiftThen, xs0, rest0)|
    {
      forall x: Gift, b: seq<Byte>
        ensures |GiftThen(x, b)| >= GIFT_BYTES + |b|
      {
        GiftSize(x, b);
      }
      ListSize(GiftThen, GIFT_BYTES, xs0, rest0);
    }
  }

  method ReadGiftsPlainly(w: World, r: ByteReader, n: Word32) returns (xs: Option<Listed<Gift>>)
    requires r.Valid() && n <= MAX_OFFERS
    modifies r`pos, r`ok
    ensures r.Valid() && (xs.Some? && r.ok ==> old(r.ok) && old(r.Rest()) == ListThen(GiftThen, xs.value, r.Rest()))
    ensures xs.Some? ==> |xs.value| == n && GiftsFit(w, xs.value)
    ensures forall xs0: Listed<Gift>, rest0 :: |xs0| == n && old(r.ok) && old(r.Rest()) == ListThen(GiftThen, xs0, rest0) ==>
              (xs.Some? && r.ok <==> GiftsFit(w, xs0)) && (xs.Some? && r.ok ==> xs.value == xs0 && r.Rest() == rest0)
  {
    hide GiftThen, ListThen, Tracks, GiftFits, ByteReader.Rest, ByteReader.Valid;
    ghost var start, ok0 := r.Rest(), r.ok;
    var list: seq<Gift> := [];
    TrackStart<Gift>(GiftThen, n, start);
    NothingListed<Gift>(GiftThen, start);
    for k := 0 to n
      invariant r.Valid() && |list| == k && (r.ok ==> ok0 && start == ListThen(GiftThen, list, r.Rest()))
      invariant forall j | 0 <= j < k :: GiftFits(w, list[j])
      invariant ok0 ==> Tracks(GiftThen, n, start, r.ok, list, r.Rest())
    {
      ghost var now, ok := r.Rest(), r.ok;
      var x := ReadOffer(w, r);
      if x.None? {
        forall xs0: Listed<Gift>, rest0 | |xs0| == n && ok0 && start == ListThen(GiftThen, xs0, rest0)
          ensures !GiftsFit(w, xs0)
        {
          TrackNext(GiftThen, n, start, ok, list, now, xs0, rest0);
        }
        return None;
      }
      ListSnoc(GiftThen, list, x.value, r.Rest());
      if ok0 {
        TrackStep(GiftThen, n, start, ok, list, now, r.ok, x.value, r.Rest());
      }
      list := list + [x.value];
    }
    if ok0 {
      TrackEnd(GiftThen, n, start, r.ok, list, r.Rest());
    }
    xs := Some(list);
  }

  method ReadEvents(r: ByteReader) returns (xs: Option<Listed<Event>>)
    requires r.Valid()
    modifies r`pos, r`ok
    ensures r.Valid() && (xs.Some? && r.ok ==> old(r.ok) && old(r.Rest()) == CountedThen(EventThen, xs.value, r.Rest()))
    ensures xs.Some? ==> EventsFit(xs.value)
    ensures forall xs0: Listed<Event>, rest0 :: old(r.ok) && old(r.Rest()) == CountedThen(EventThen, xs0, rest0) ==>
              (xs.Some? && r.ok <==> EventsFit(xs0)) && (xs.Some? && r.ok ==> xs.value == xs0 && r.Rest() == rest0)
  {
    hide EventThen, ByteReader.Rest, ByteReader.Valid;
    EventsLongEnough();
    var n := r.Count(MAX_EVENTS, EVENT_BYTES);
    xs := ReadEventsPlainly(r, n);
  }

  lemma EventsLongEnough()
    ensures forall xs0: Listed<Event>, rest0 :: |xs0| * EVENT_BYTES <= |ListThen(EventThen, xs0, rest0)|
  {
    forall xs0: Listed<Event>, rest0
      ensures |xs0| * EVENT_BYTES <= |ListThen(EventThen, xs0, rest0)|
    {
      forall x: Event, b: seq<Byte>
        ensures |EventThen(x, b)| >= EVENT_BYTES + |b|
      {
        EventSize(x, b);
      }
      ListSize(EventThen, EVENT_BYTES, xs0, rest0);
    }
  }

  method ReadEventsPlainly(r: ByteReader, n: Word32) returns (xs: Option<Listed<Event>>)
    requires r.Valid() && n <= MAX_EVENTS
    modifies r`pos, r`ok
    ensures r.Valid() && (xs.Some? && r.ok ==> old(r.ok) && old(r.Rest()) == ListThen(EventThen, xs.value, r.Rest()))
    ensures xs.Some? ==> |xs.value| == n && EventsFit(xs.value)
    ensures forall xs0: Listed<Event>, rest0 :: |xs0| == n && old(r.ok) && old(r.Rest()) == ListThen(EventThen, xs0, rest0) ==>
              (xs.Some? && r.ok <==> EventsFit(xs0)) && (xs.Some? && r.ok ==> xs.value == xs0 && r.Rest() == rest0)
  {
    hide EventThen, ListThen, Tracks, EventFits, ByteReader.Rest, ByteReader.Valid;
    ghost var start, ok0 := r.Rest(), r.ok;
    var list: seq<Event> := [];
    TrackStart<Event>(EventThen, n, start);
    NothingListed<Event>(EventThen, start);
    for k := 0 to n
      invariant r.Valid() && |list| == k && (r.ok ==> ok0 && start == ListThen(EventThen, list, r.Rest()))
      invariant forall j | 0 <= j < k :: EventFits(list[j])
      invariant ok0 ==> Tracks(EventThen, n, start, r.ok, list, r.Rest())
    {
      ghost var now, ok := r.Rest(), r.ok;
      var x := ReadEvent(r);
      if x.None? {
        forall xs0: Listed<Event>, rest0 | |xs0| == n && ok0 && start == ListThen(EventThen, xs0, rest0)
          ensures !EventsFit(xs0)
        {
          TrackNext(EventThen, n, start, ok, list, now, xs0, rest0);
        }
        return None;
      }
      ListSnoc(EventThen, list, x.value, r.Rest());
      if ok0 {
        TrackStep(EventThen, n, start, ok, list, now, r.ok, x.value, r.Rest());
      }
      list := list + [x.value];
    }
    if ok0 {
      TrackEnd(EventThen, n, start, r.ok, list, r.Rest());
    }
    xs := Some(list);
  }

  method ReadTakedowns(r: ByteReader) returns (xs: Option<Listed<Takedown>>)
    requires r.Valid()
    modifies r`pos, r`ok
    ensures r.Valid() && (xs.Some? && r.ok ==> old(r.ok) && old(r.Rest()) == CountedThen(TakedownThen, xs.value, r.Rest()))
    ensures xs.Some? ==> TakedownsFit(xs.value)
    ensures forall xs0: Listed<Takedown>, rest0 :: old(r.ok) && old(r.Rest()) == CountedThen(TakedownThen, xs0, rest0) ==>
              (xs.Some? && r.ok <==> TakedownsFit(xs0)) && (xs.Some? && r.ok ==> xs.value == xs0 && r.Rest() == rest0)
  {
    hide TakedownThen, ByteReader.Rest, ByteReader.Valid;
    TakedownsLongEnough();
    var n := r.Count(MAX_TAKEDOWNS, 8);
    xs := ReadTakedownsPlainly(r, n);
  }

  lemma TakedownsLongEnough()
    ensures forall xs0: Listed<Takedown>, rest0 :: |xs0| * 8 <= |ListThen(TakedownThen, xs0, rest0)|
  {
    forall xs0: Listed<Takedown>, rest0
      ensures |xs0| * 8 <= |ListThen(TakedownThen, xs0, rest0)|
    {
      forall x: Takedown, b: seq<Byte>
        ensures |TakedownThen(x, b)| >= 8 + |b|
      {
        assert |TakedownThen(x, b)| == 8 + |b|;
      }
      ListSize(TakedownThen, 8, xs0, rest0);
    }
  }

  method ReadTakedownsPlainly(r: ByteReader, n: Word32) returns (xs: Option<Listed<Takedown>>)
    requires r.Valid() && n <= MAX_TAKEDOWNS
    modifies r`pos, r`ok
    ensures r.Valid() && (xs.Some? && r.ok ==> old(r.ok) && old(r.Rest()) == ListThen(TakedownThen, xs.value, r.Rest()))
    ensures xs.Some? ==> |xs.value| == n && TakedownsFit(xs.value)
    ensures forall xs0: Listed<Takedown>, rest0 :: |xs0| == n && old(r.ok) && old(r.Rest()) == ListThen(TakedownThen, xs0, rest0) ==>
              (xs.Some? && r.ok <==> TakedownsFit(xs0)) && (xs.Some? && r.ok ==> xs.value == xs0 && r.Rest() == rest0)
  {
    hide TakedownThen, ListThen, Tracks, TakedownFits, ByteReader.Rest, ByteReader.Valid;
    ghost var start, ok0 := r.Rest(), r.ok;
    var list: seq<Takedown> := [];
    TrackStart<Takedown>(TakedownThen, n, start);
    NothingListed<Takedown>(TakedownThen, start);
    for k := 0 to n
      invariant r.Valid() && |list| == k && (r.ok ==> ok0 && start == ListThen(TakedownThen, list, r.Rest()))
      invariant forall j | 0 <= j < k :: TakedownFits(list[j])
      invariant ok0 ==> Tracks(TakedownThen, n, start, r.ok, list, r.Rest())
    {
      ghost var now, ok := r.Rest(), r.ok;
      var x := ReadTally(r);
      if x.None? {
        forall xs0: Listed<Takedown>, rest0 | |xs0| == n && ok0 && start == ListThen(TakedownThen, xs0, rest0)
          ensures !TakedownsFit(xs0)
        {
          TrackNext(TakedownThen, n, start, ok, list, now, xs0, rest0);
        }
        return None;
      }
      ListSnoc(TakedownThen, list, x.value, r.Rest());
      if ok0 {
        TrackStep(TakedownThen, n, start, ok, list, now, r.ok, x.value, r.Rest());
      }
      list := list + [x.value];
    }
    if ok0 {
      TrackEnd(TakedownThen, n, start, r.ok, list, r.Rest());
    }
    xs := Some(list);
  }

  // A shop slot is empty or offers a champion that is loaded.
  method ReadSlot(w: World, r: ByteReader) returns (c: Option<Word32>)
    requires r.Valid()
    modifies r`pos, r`ok
    ensures r.Valid() && (c.Some? && r.ok ==> old(r.ok) && old(r.Rest()) == U32Then(c.value, r.Rest())) && (c.Some? ==> SlotFits(w, c.value))
    ensures forall c0: Word32, rest0 :: old(r.ok) && old(r.Rest()) == U32Then(c0, rest0) ==>
              r.ok && r.Rest() == rest0 && c == if SlotFits(w, c0) then Some(c0) else None
  {
    hide U32Then, ByteReader.Rest, ByteReader.Valid;
    var id := r.U32();
    if id != NO_CHAMPION && id !in w.champions {
      return None;
    }
    c := Some(id);
  }

  method ReadSlots(w: World, r: ByteReader) returns (xs: Option<Listed<Word32>>)
    requires r.Valid()
    modifies r`pos, r`ok
    ensures r.Valid() && (xs.Some? && r.ok ==> old(r.ok) && old(r.Rest()) == CountedThen(U32Then, xs.value, r.Rest()))
    ensures xs.Some? ==> SlotsFit(w, xs.value)
    ensures forall xs0: Listed<Word32>, rest0 :: old(r.ok) && old(r.Rest()) == CountedThen(U32Then, xs0, rest0) ==>
              (xs.Some? && r.ok <==> SlotsFit(w, xs0)) && (xs.Some? && r.ok ==> xs.value == xs0 && r.Rest() == rest0)
  {
    hide U32Then, ByteReader.Rest, ByteReader.Valid;
    SlotsLongEnough();
    var n := r.Count(MAX_SHOP_SLOTS, 4);
    xs := ReadSlotsPlainly(w, r, n);
  }

  lemma SlotsLongEnough()
    ensures forall xs0: Listed<Word32>, rest0 :: |xs0| * 4 <= |ListThen(U32Then, xs0, rest0)|
  {
    forall xs0: Listed<Word32>, rest0
      ensures |xs0| * 4 <= |ListThen(U32Then, xs0, rest0)|
    {
      forall x: Word32, b: seq<Byte>
        ensures |U32Then(x, b)| >= 4 + |b|
      {
        assert |U32Then(x, b)| == 4 + |b|;
      }
      ListSize(U32Then, 4, xs0, rest0);
    }
  }

  method ReadSlotsPlainly(w: World, r: ByteReader, n: Word32) returns (xs: Option<Listed<Word32>>)
    requires r.Valid() && n <= MAX_SHOP_SLOTS
    modifies r`pos, r`ok
    ensures r.Valid() && (xs.Some? && r.ok ==> old(r.ok) && old(r.Rest()) == ListThen(U32Then, xs.value, r.Rest()))
    ensures xs.Some? ==> |xs.value| == n && SlotsFit(w, xs.value)
    ensures forall xs0: Listed<Word32>, rest0 :: |xs0| == n && old(r.ok) && old(r.Rest()) == ListThen(U32Then, xs0, rest0) ==>
              (xs.Some? && r.ok <==> SlotsFit(w, xs0)) && (xs.Some? && r.ok ==> xs.value == xs0 && r.Rest() == rest0)
  {
    hide U32Then, ListThen, Tracks, SlotFits, ByteReader.Rest, ByteReader.Valid;
    ghost var start, ok0 := r.Rest(), r.ok;
    var list: seq<Word32> := [];
    TrackStart<Word32>(U32Then, n, start);
    NothingListed<Word32>(U32Then, start);
    for k := 0 to n
      invariant r.Valid() && |list| == k && (r.ok ==> ok0 && start == ListThen(U32Then, list, r.Rest()))
      invariant forall j | 0 <= j < k :: SlotFits(w, list[j])
      invariant ok0 ==> Tracks(U32Then, n, start, r.ok, list, r.Rest())
    {
      ghost var now, ok := r.Rest(), r.ok;
      var x := ReadSlot(w, r);
      if x.None? {
        forall xs0: Listed<Word32>, rest0 | |xs0| == n && ok0 && start == ListThen(U32Then, xs0, rest0)
          ensures !SlotsFit(w, xs0)
        {
          TrackNext(U32Then, n, start, ok, list, now, xs0, rest0);
        }
        return None;
      }
      ListSnoc(U32Then, list, x.value, r.Rest());
      if ok0 {
        TrackStep(U32Then, n, start, ok, list, now, r.ok, x.value, r.Rest());
      }
      list := list + [x.value];
    }
    if ok0 {
      TrackEnd(U32Then, n, start, r.ok, list, r.Rest());
    }
    xs := Some(list);
  }

  // Exactly n copy counts.
  method ReadCopies(r: ByteReader, n: Word32) returns (xs: Listed<Int32>)
    requires r.Valid()
    modifies r`pos, r`ok
    ensures r.Valid() && |xs| == n && (r.ok ==> old(r.ok) && old(r.Rest()) == ListThen(I32Then, xs, r.Rest()))
    ensures forall xs0: Listed<Int32>, rest0 :: |xs0| == n && old(r.ok) && old(r.Rest()) == ListThen(I32Then, xs0, rest0) ==>
              r.ok && xs == xs0 && r.Rest() == rest0
  {
    hide I32Then, ListThen, Tracks, ByteReader.Rest, ByteReader.Valid;
    ghost var start, ok0 := r.Rest(), r.ok;
    xs := [];
    TrackStart<Int32>(I32Then, n, start);
    NothingListed<Int32>(I32Then, start);
    for k := 0 to n
      invariant r.Valid() && |xs| == k && (r.ok ==> ok0 && start == ListThen(I32Then, xs, r.Rest()))
      invariant ok0 ==> Tracks(I32Then, n, start, r.ok, xs, r.Rest())
    {
      ghost var now, ok := r.Rest(), r.ok;
      var x := r.I32();
      ListSnoc(I32Then, xs, x, r.Rest());
      if ok0 {
        TrackStep(I32Then, n, start, ok, xs, now, r.ok, x, r.Rest());
      }
      xs := xs + [x];
    }
    if ok0 {
      TrackEnd(I32Then, n, start, r.ok, xs, r.Rest());
    }
  }

  method ReadMatchups(r: ByteReader) returns (xs: Listed<Matchup>)
    requires r.Valid()
    modifies r`pos, r`ok
    ensures r.Valid() && (r.ok ==> old(r.ok) && old(r.Rest()) == CountedThen(MatchupThen, xs, r.Rest()) && |xs| <= MAX_PLAYERS)
    ensures forall xs0: Listed<Matchup>, rest0 :: old(r.ok) && old(r.Rest()) == CountedThen(MatchupThen, xs0, rest0) ==>
              (r.ok <==> |xs0| <= MAX_PLAYERS) && (r.ok ==> xs == xs0 && r.Rest() == rest0)
  {
    hide MatchupThen, ListThen, Tracks, ByteReader.Rest, ByteReader.Valid;
    MatchupsLongEnough();
    var n := r.Count(MAX_PLAYERS, MATCHUP_BYTES);
    ghost var start, ok0 := r.Rest(), r.ok;
    xs := [];
    TrackStart<Matchup>(MatchupThen, n, start);
    NothingListed<Matchup>(MatchupThen, start);
    for k := 0 to n
      invariant r.Valid() && |xs| == k && (r.ok ==> ok0 && start == ListThen(MatchupThen, xs, r.Rest()))
      invariant ok0 ==> Tracks(MatchupThen, n, start, r.ok, xs, r.Rest())
    {
      ghost var now, ok := r.Rest(), r.ok;
      var x := ReadMatchup(r);
      ListSnoc(MatchupThen, xs, x, r.Rest());
      if ok0 {
        TrackStep(MatchupThen, n, start, ok, xs, now, r.ok, x, r.Rest());
      }
      xs := xs + [x];
    }
    if ok0 {
      TrackEnd(MatchupThen, n, start, r.ok, xs, r.Rest());
    }
  }

  lemma MatchupsLongEnough()
    ensures forall xs0: Listed<Matchup>, rest0 :: |xs0| * MATCHUP_BYTES <= |ListThen(MatchupThen, xs0, rest0)|
  {
    forall xs0: Listed<Matchup>, rest0
      ensures |xs0| * MATCHUP_BYTES <= |ListThen(MatchupThen, xs0, rest0)|
    {
      forall x: Matchup, b: seq<Byte>
        ensures |MatchupThen(x, b)| >= MATCHUP_BYTES + |b|
      {
        MatchupSize(x, b);
      }
      ListSize(MatchupThen, MATCHUP_BYTES, xs0, rest0);
    }
  }

  // ---- Players -------------------------------------------------------------------------------------

  method ReadProgress(r: ByteReader) returns (p: Progress)
    requires r.Valid()
    modifies r`pos, r`ok
    ensures r.Valid() && (r.ok ==> old(r.ok) && old(r.Rest()) == ProgressThen(p, r.Rest()) && |p.modules| <= 3 && |p.unlocked| <= 3)
    ensures forall p0: Progress, rest0 :: old(r.ok) && old(r.Rest()) == ProgressThen(p0, rest0) ==>
              (r.ok <==> |p0.modules| <= 3 && |p0.unlocked| <= 3) && (r.ok ==> p == p0 && r.Rest() == rest0)
  {
    hide U8Then, I32Then, U32Then, U64Then, BoolThen, LittleThen, CountedThen, ByteReader.Rest, ByteReader.Valid;
    var traitGold := r.I32();
    var takedownCounter := r.I32();
    var starDust := r.I32();
    var grantCombats := r.I32();
    var unitGranted := r.Bool();
    var moduleTiersOffered := r.I32();
    var modules := ReadWords(r, 3);
    var unlocked := ReadWords(r, 3);
    p := Progress(traitGold, takedownCounter, starDust, grantCombats, unitGranted, moduleTiersOffered, modules, unlocked);
  }

  // The bonus items of a choice are counted without the guard, only against their limit.
  method ReadBonus(r: ByteReader) returns (xs: Option<Listed<Word32>>)
    requires r.Valid()
    modifies r`pos, r`ok
    ensures r.Valid() && (xs.Some? && r.ok ==> old(r.ok) && old(r.Rest()) == CountedThen(U32Then, xs.value, r.Rest()))
    ensures xs.Some? ==> |xs.value| <= 16
    ensures forall xs0: Listed<Word32>, rest0 :: old(r.ok) && old(r.Rest()) == CountedThen(U32Then, xs0, rest0) ==>
              (xs.Some? && r.ok <==> |xs0| <= 16) && (xs.Some? && r.ok ==> xs.value == xs0 && r.Rest() == rest0)
  {
    hide U32Then, ListThen, ByteReader.Rest, ByteReader.Valid;
    var n := r.U32();
    if n > 16 {
      return None;
    }
    var list := ReadWordsPlainly(r, n);
    xs := Some(list);
  }

  method ReadChoice(w: World, r: ByteReader) returns (c: Option<Choice>)
    requires r.Valid()
    modifies r`pos, r`ok
    ensures r.Valid() && (c.Some? ==> r.ok && old(r.ok) && old(r.Rest()) == ChoiceThen(c.value, r.Rest()) && ChoiceFits(w, c.value))
    ensures forall c0: Choice, rest0 :: old(r.ok) && old(r.Rest()) == ChoiceThen(c0, rest0) ==>
              (c.Some? <==> ChoiceFits(w, c0)) && (c.Some? ==> c.value == c0 && r.Rest() == rest0)
  {
    hide U8Then, I32Then, U32Then, U64Then, BoolThen, LittleThen, CountedThen, ByteReader.Rest, ByteReader.Valid;
    var kind := r.U8();
    var trait_ := r.U32();
    var tier := r.I32();
    var bonusGold := r.I32();
    var options := ReadWords(r, 8);
    var bonusItems := ReadBonus(r);
    if bonusItems.None? || !r.ok {
      return None;
    }
    var choice := Choice(kind, trait_, tier, bonusGold, options, bonusItems.value);
    var fits := CheckChoice(w, choice);
    c := if fits then Some(choice) else None;
  }

  method CheckChoice(w: World, c: Choice) returns (fits: bool)
    requires |c.options| <= 8 && |c.bonusItems| <= 16
    ensures fits == ChoiceFits(w, c)
  {
    if c.kind > PROTOTYPE || (c.kind != NO_CHOICE) == (c.options == []) {
      return false;
    }
    if c.bonusGold < 0 || c.tier < 0 || c.tier > 4 {
      return false;
    }
    if c.kind == MODULE && c.trait_ !in w.modules {
      return false;
    }
    for k := 0 to |c.options|
      invariant c.kind == MODULE ==> forall j | 0 <= j < k :: c.options[j] in w.modules[c.trait_]
      invariant c.kind == PROTOTYPE ==> forall j | 0 <= j < k :: c.options[j] in w.items
    {
      if c.kind == MODULE && c.options[k] !in w.modules[c.trait_] {
        return false;
      }
      if c.kind == PROTOTYPE && c.options[k] !in w.items {
        return false;
      }
    }
    return true;
  }

  method ModulesKnown(w: World, modules: seq<Word32>) returns (known: bool)
    ensures known <==> forall k | 0 <= k < |modules| :: ModuleKnown(w, modules[k])
  {
    hide ModuleKnown;
    for k := 0 to |modules|
      invariant forall j | 0 <= j < k :: ModuleKnown(w, modules[j])
    {
      if !ModuleKnown(w, modules[k]) {
        return false;
      }
    }
    return true;
  }

  method ReadPlayer(w: World, phase: Byte, r: ByteReader) returns (p: Option<Player>)
    requires r.Valid()
    modifies r`pos, r`ok
    ensures r.Valid() && (p.Some? ==> r.ok && old(r.ok) && old(r.Rest()) == PlayerThen(p.value, r.Rest()) && PlayerFits(w, phase, p.value))
    ensures forall p0: Player, rest0 :: old(r.ok) && old(r.Rest()) == PlayerThen(p0, rest0) ==>
              (p.Some? <==> PlayerFits(w, phase, p0)) && (p.Some? ==> p.value == p0 && r.Rest() == rest0)
  {
    hide U8Then, I32Then, U32Then, U64Then, BoolThen, LittleThen, CountedThen, EconomyThen, RngThen, ProgressThen, ChoiceThen, UnitsFit, SlotsFit, GiftsFit, ChoiceFits, ModuleKnown, ByteReader.Rest, ByteReader.Valid;
    var economy := ReadEconomy(r);
    var units := ReadUnits(w, r);
    if units.None? {
      return None;
    }
    var itemBag := ReadWords(r, MAX_ITEM_BAG);
    var shopSlots := ReadSlots(w, r);
    if shopSlots.None? {
      return None;
    }
    var shopRng := ReadRng(r);
    var shopLocked := r.Bool();
    if !r.ok {
      return None;
    }
    var settled := r.Bool();
    var offers := ReadGifts(w, r);
    if offers.None? || ((settled || offers.value != []) && phase != MOTHER_NATURE) || (settled && offers.value != []) {
      return None;
    }
    var progress := ReadProgress(r);
    var choice := ReadChoice(w, r);
    if choice.None? {
      return None;
    }
    var known := ModulesKnown(w, progress.modules);
    var player := Player(economy, units.value, itemBag, shopSlots.value, shopRng, shopLocked, settled, offers.value, progress, choice.value);
    p := if known && w.accepts(player) then Some(player) else None;
  }

  // ---- Fights --------------------------------------------------------------------------------------

  method ReadResult(r: ByteReader) returns (o: FightResult)
    requires r.Valid()
    modifies r`pos, r`ok
    ensures r.Valid() && (r.ok ==> old(r.ok) && old(r.Rest()) == ResultThen(o, r.Rest()))
    ensures forall o0: FightResult, rest0 :: old(r.ok) && old(r.Rest()) == ResultThen(o0, rest0) ==> r.ok && o == o0 && r.Rest() == rest0
  {
    hide U8Then, I32Then, U32Then, U64Then, BoolThen, LittleThen, MatchupThen, ByteReader.Rest, ByteReader.Valid;
    var matchup := ReadMatchup(r);
    var winner := r.U8();
    var winnerSurvivors := r.I32();
    var damageToLoser := r.I32();
    var dropKind := r.U8();
    var dropGold := r.I32();
    var dropChampion := r.U32();
    var dropItem := r.U32();
    o := FightResult(matchup, winner, winnerSurvivors, damageToLoser, dropKind, dropGold, dropChampion, dropItem);
  }

  method ReadOutcome(w: World, r: ByteReader) returns (o: Option<Outcome>)
    requires r.Valid()
    modifies r`pos, r`ok
    ensures r.Valid() && (o.Some? ==> r.ok && old(r.ok) && old(r.Rest()) == OutcomeThen(o.value, r.Rest()) && OutcomeFits(w, o.value))
    ensures forall o0: Outcome, rest0 :: old(r.ok) && old(r.Rest()) == OutcomeThen(o0, rest0) ==>
              (o.Some? <==> OutcomeFits(w, o0)) && (o.Some? ==> o.value == o0 && r.Rest() == rest0)
  {
    hide U8Then, I32Then, U32Then, U64Then, BoolThen, LittleThen, CountedThen, ResultThen, EventsFit, TakedownsFit, ByteReader.Rest, ByteReader.Valid;
    var result := ReadResult(r);
    var endTick := r.I32();
    var survivorsHome := r.I32();
    var survivorsAway := r.I32();
    var pathSearches := r.I32();
    var checksum := r.U64();
    var events := ReadEvents(r);
    if events.None? {
      return None;
    }
    var takedowns := ReadTakedowns(r);
    if takedowns.None? || !r.ok {
      return None;
    }
    var outcome := Outcome(result, endTick, survivorsHome, survivorsAway, pathSearches, checksum, events.value, takedowns.value);
    if result.winner > DRAW || result.dropKind > DROP_ITEM || w.logChecksum(outcome.events) != checksum {
      return None;
    }
    o := Some(outcome);
  }

  // One player after the other; their number is in the header.
  method ReadPlayers(w: World, phase: Byte, n: Byte, r: ByteReader) returns (xs: Option<seq<Player>>)
    requires r.Valid()
    modifies r`pos, r`ok
    ensures r.Valid() && (xs.Some? && r.ok ==> old(r.ok) && old(r.Rest()) == ListThen(PlayerThen, xs.value, r.Rest()))
    ensures xs.Some? ==> |xs.value| == n && PlayersFit(w, phase, xs.value)
    ensures forall xs0: seq<Player>, rest0 :: |xs0| == n && old(r.ok) && old(r.Rest()) == ListThen(PlayerThen, xs0, rest0) ==>
              (xs.Some? && r.ok <==> PlayersFit(w, phase, xs0)) && (xs.Some? && r.ok ==> xs.value == xs0 && r.Rest() == rest0)
  {
    hide PlayerThen, ListThen, Tracks, PlayerFits, ByteReader.Rest, ByteReader.Valid;
    ghost var start, ok0 := r.Rest(), r.ok;
    var list: seq<Player> := [];
    TrackStart<Player>(PlayerThen, n, start);
    NothingListed<Player>(PlayerThen, start);
    for k := 0 to n
      invariant r.Valid() && |list| == k && (r.ok ==> ok0 && start == ListThen(PlayerThen, list, r.Rest()))
      invariant forall j | 0 <= j < k :: PlayerFits(w, phase, list[j])
      invariant ok0 ==> Tracks(PlayerThen, n, start, r.ok, list, r.Rest())
    {
      ghost var now, ok := r.Rest(), r.ok;
      var x := ReadPlayer(w, phase, r);
      if x.None? {
        forall xs0: seq<Player>, rest0 | |xs0| == n && ok0 && start == ListThen(PlayerThen, xs0, rest0)
          ensures !PlayersFit(w, phase, xs0)
        {
          TrackNext(PlayerThen, n, start, ok, list, now, xs0, rest0);
        }
        return None;
      }
      ListSnoc(PlayerThen, list, x.value, r.Rest());
      if ok0 {
        TrackStep(PlayerThen, n, start, ok, list, now, r.ok, x.value, r.Rest());
      }
      list := list + [x.value];
    }
    if ok0 {
      TrackEnd(PlayerThen, n, start, r.ok, list, r.Rest());
    }
    xs := Some(list);
  }

  method ReadOutcomes(w: World, r: ByteReader) returns (xs: Option<Listed<Outcome>>)
    requires r.Valid()
    modifies r`pos, r`ok
    ensures r.Valid() && (xs.Some? && r.ok ==> old(r.ok) && old(r.Rest()) == CountedThen(OutcomeThen, xs.value, r.Rest()))
    ensures xs.Some? ==> OutcomesFit(w, xs.value)
    ensures forall xs0: Listed<Outcome>, rest0 :: old(r.ok) && old(r.Rest()) == CountedThen(OutcomeThen, xs0, rest0) ==>
              (xs.Some? && r.ok <==> OutcomesFit(w, xs0)) && (xs.Some? && r.ok ==> xs.value == xs0 && r.Rest() == rest0)
  {
    hide OutcomeThen, ByteReader.Rest, ByteReader.Valid;
    OutcomesLongEnough();
    var n := r.Count(MAX_PLAYERS, OUTCOME_BYTES);
    xs := ReadOutcomesPlainly(w, r, n);
  }

  lemma OutcomesLongEnough()
    ensures forall xs0: Listed<Outcome>, rest0 :: |xs0| * OUTCOME_BYTES <= |ListThen(OutcomeThen, xs0, rest0)|
  {
    forall xs0: Listed<Outcome>, rest0
      ensures |xs0| * OUTCOME_BYTES <= |ListThen(OutcomeThen, xs0, rest0)|
    {
      forall x: Outcome, b: seq<Byte>
        ensures |OutcomeThen(x, b)| >= OUTCOME_BYTES + |b|
      {
        OutcomeSize(x, b);
      }
      ListSize(OutcomeThen, OUTCOME_BYTES, xs0, rest0);
    }
  }

  method ReadOutcomesPlainly(w: World, r: ByteReader, n: Word32) returns (xs: Option<Listed<Outcome>>)
    requires r.Valid() && n <= MAX_PLAYERS
    modifies r`pos, r`ok
    ensures r.Valid() && (xs.Some? && r.ok ==> old(r.ok) && old(r.Rest()) == ListThen(OutcomeThen, xs.value, r.Rest()))
    ensures xs.Some? ==> |xs.value| == n && OutcomesFit(w, xs.value)
    ensures forall xs0: Listed<Outcome>, rest0 :: |xs0| == n && old(r.ok) && old(r.Rest()) == ListThen(OutcomeThen, xs0, rest0) ==>
              (xs.Some? && r.ok <==> OutcomesFit(w, xs0)) && (xs.Some? && r.ok ==> xs.value == xs0 && r.Rest() == rest0)
  {
    hide OutcomeThen, ListThen, Tracks, OutcomeFits, ByteReader.Rest, ByteReader.Valid;
    ghost var start, ok0 := r.Rest(), r.ok;
    var list: seq<Outcome> := [];
    TrackStart<Outcome>(OutcomeThen, n, start);
    NothingListed<Outcome>(OutcomeThen, start);
    for k := 0 to n
      invariant r.Valid() && |list| == k && (r.ok ==> ok0 && start == ListThen(OutcomeThen, list, r.Rest()))
      invariant forall j | 0 <= j < k :: OutcomeFits(w, list[j])
      invariant ok0 ==> Tracks(OutcomeThen, n, start, r.ok, list, r.Rest())
    {
      ghost var now, ok := r.Rest(), r.ok;
      var x := ReadOutcome(w, r);
      if x.None? {
        forall xs0: Listed<Outcome>, rest0 | |xs0| == n && ok0 && start == ListThen(OutcomeThen, xs0, rest0)
          ensures !OutcomesFit(w, xs0)
        {
          TrackNext(OutcomeThen, n, start, ok, list, now, xs0, rest0);
        }
        return None;
      }
      ListSnoc(OutcomeThen, list, x.value, r.Rest());
      if ok0 {
        TrackStep(OutcomeThen, n, start, ok, list, now, r.ok, x.value, r.Rest());
      }
      list := list + [x.value];
    }
    if ok0 {
      TrackEnd(OutcomeThen, n, start, r.ok, list, r.Rest());
    }
    xs := Some(list);
  }

  // ---- The body ------------------------------------------------------------------------------------

  method ReadBody(w: World, phase: Byte, r: ByteReader) returns (b: Option<Body>)
    requires r.Valid()
    modifies r`pos, r`ok
    ensures r.Valid() && (b.Some? ==> old(r.ok) && old(r.Rest()) == BodyThen(b.value, []) && BodyFits(w, phase, b.value))
    ensures forall b0: Body :: |b0.players| == w.playerCount && old(r.ok) && old(r.Rest()) == BodyThen(b0, []) ==>
              b == if BodyFits(w, phase, b0) then Some(b0) else None
  {
    hide U8Then, I32Then, U32Then, U64Then, BoolThen, LittleThen, ListThen, RngThen, PlayersFit, OutcomesFit, AllSeatsExist, ByteReader.Rest, ByteReader.Valid;
    var rng := ReadRng(r);
    if rng == RngState(0, 0, 0, 0) {
      return None;
    }
    var winner := r.U8();
    if winner != NOBODY && winner >= w.playerCount {
      return None;
    }
    CopiesLongEnough();
    var n := r.Count(|w.champions|, 4);
    if n != |w.champions| {
      return None;
    }
    var remaining := ReadCopies(r, n);
    if !r.ok || !w.poolFits(remaining) {
      return None;
    }
    var players := ReadPlayers(w, phase, w.playerCount, r);
    if players.None? {
      return None;
    }
    var matchups := ReadMatchups(r);
    var outcomes := ReadOutcomes(w, r);
    if outcomes.None? || !r.ok {
      return None;
    }
    var atEnd := r.AtEnd();
    if !atEnd {
      return None;
    }
    var body := Body(rng, winner, remaining, players.value, matchups, outcomes.value);
    var exist := CheckSeats(w, body);
    b := if exist then Some(body) else None;
  }

  lemma CopiesLongEnough()
    ensures forall xs0: Listed<Int32>, rest0 :: |xs0| * 4 <= |ListThen(I32Then, xs0, rest0)|
  {
    forall xs0: Listed<Int32>, rest0
      ensures |xs0| * 4 <= |ListThen(I32Then, xs0, rest0)|
    {
      ListSize(I32Then, 4, xs0, rest0);
    }
  }

  method CheckSeats(w: World, b: Body) returns (exist: bool)
    ensures exist == AllSeatsExist(w, b)
  {
    hide SeatsExist;
    for k := 0 to |b.matchups|
      invariant forall j | 0 <= j < k :: SeatsExist(w, b.matchups[j])
    {
      if !SeatsExist(w, b.matchups[k]) {
        return false;
      }
    }
    for k := 0 to |b.outcomes|
      invariant forall j | 0 <= j < k :: SeatsExist(w, b.outcomes[j].result.matchup)
    {
      if !SeatsExist(w, b.outcomes[k].result.matchup) {
        return false;
      }
    }
    return true;
  }

  // ---- The whole snapshot --------------------------------------------------------------------------

  method ReadHashes(r: ByteReader) returns (h: Hashes)
    requires r.Valid()
    modifies r`pos, r`ok
    ensures r.Valid() && (r.ok ==> old(r.ok) && old(r.Rest()) == HashesThen(h, r.Rest()))
    ensures forall h0: Hashes, rest0 :: old(r.ok) && old(r.Rest()) == HashesThen(h0, rest0) ==> r.ok && h == h0 && r.Rest() == rest0
  {
    hide U8Then, I32Then, U32Then, U64Then, BoolThen, LittleThen, ByteReader.Rest, ByteReader.Valid;
    var seed := r.U64();
    var config := r.U64();
    var champions := r.U64();
    var items := r.U64();
    var encounters := r.U64();
    var gifts := r.U64();
    var state := r.U64();
    h := Hashes(seed, config, champions, items, encounters, gifts, state);
  }

  method ReadHeader(r: ByteReader) returns (h: Option<Header>)
    requires r.Valid()
    modifies r`pos, r`ok
    ensures r.Valid() && (h.Some? ==> r.ok && old(r.ok) && old(r.Rest()) == HeaderThen(h.value, r.Rest()))
    ensures forall h0: Header, rest0 :: old(r.ok) && old(r.Rest()) == HeaderThen(h0, rest0) ==> r.ok && h == Some(h0) && r.Rest() == rest0
  {
    hide U8Then, I32Then, U32Then, U64Then, BoolThen, LittleThen, ByteReader.Rest, ByteReader.Valid, HashesThen;
    var magic := r.U32();
    if magic != MAGIC {
      return None;
    }
    var version := r.U32();
    if version != VERSION {
      return None;
    }
    var hashes := ReadHashes(r);
    var phase := r.U8();
    var round := r.I32();
    var ticksInPhase := r.I32();
    var playerCount := r.U8();
    h := if r.ok then Some(Header(hashes, phase, round, ticksInPhase, playerCount)) else None;
  }

  // The seal holds, and nothing but the checksum is behind the content.
  method Unseal(checksum: seq<Byte> -> Word64, bytes: seq<Byte>) returns (content: Option<seq<Byte>>)
    ensures content.Some? <==> |bytes| >= TRAILER_BYTES && bytes == Sealed(checksum, bytes[..|bytes| - TRAILER_BYTES])
    ensures content.Some? ==> content.value == bytes[..|bytes| - TRAILER_BYTES]
  {
    hide U64Then, ByteReader.Valid;
    if |bytes| < TRAILER_BYTES {
      return None;
    }
    var front, back := bytes[..|bytes| - TRAILER_BYTES], bytes[|bytes| - TRAILER_BYTES..];
    assert bytes == front + back;
    var tail := new ByteReader(back);
    var sum := tail.U64();
    assert back == U64Then(sum, []);
    if sum != checksum(front) {
      assert bytes == Sealed(checksum, front) ==> back == U64Then(checksum(front), []);
      return None;
    }
    content := Some(front);
  }

  // What a snapshot says about itself.
  method ParseHeader(checksum: seq<Byte> -> Word64, bytes: seq<Byte>) returns (h: Option<Header>)
    ensures h.Some? ==> exists rest :: bytes == Sealed(checksum, HeaderThen(h.value, rest))
    ensures forall h0, rest0 :: bytes == Sealed(checksum, HeaderThen(h0, rest0)) ==> h == Some(h0)
  {
    hide HeaderThen, Sealed, ByteReader.Valid;
    HeaderSizes();
    if |bytes| < HEADER_BYTES + TRAILER_BYTES {
      return None;
    }
    var content := Unseal(checksum, bytes);
    if content.None? {
      return None;
    }
    var r := new ByteReader(content.value);
    h := ReadHeader(r);
  }

  lemma HeaderSizes()
    ensures forall h: Header, rest :: |HeaderThen(h, rest)| == HEADER_BYTES + |rest|
  {
    forall h: Header, rest
      ensures |HeaderThen(h, rest)| == HEADER_BYTES + |rest|
    {
      HeaderSize(h, rest);
    }
  }

  datatype Restored = Restored(header: Header, body: Body)

  method CheckHeader(w: World, h: Header) returns (fits: bool)
    ensures fits == HeaderFits(w, h)
  {
    if w.requireMatchingData && [h.hashes.config, h.hashes.champions, h.hashes.items, h.hashes.encounters, h.hashes.gifts] != w.hashes {
      return false;
    }
    if h.phase > MATCH_OVER || h.playerCount != w.playerCount {
      return false;
    }
    var active := h.phase != 0 && h.phase != MATCH_OVER;
    if active {
      return !(h.round < 1 || h.ticksInPhase < 0 || h.ticksInPhase >= w.phaseDuration(h.phase));
    }
    return !(h.ticksInPhase != 0 || (h.phase == 0 && h.round != 0) || (h.phase == MATCH_OVER && h.round < 1));
  }

  // Restoring is exact. Accepted bytes are the snapshot of what comes out, byte for byte; and what was
  // written is accepted exactly if it fits, and comes out as it was.
  method Restore(w: World, bytes: seq<Byte>) returns (m: Option<Restored>)
    ensures m.Some? ==> Fits(w, m.value.header, m.value.body) && bytes == Encoding(w.checksum, m.value.header, m.value.body)
    ensures forall h0: Header, b0: Body :: |b0.players| == h0.playerCount && bytes == Encoding(w.checksum, h0, b0) ==>
              m == if Fits(w, h0, b0) then Some(Restored(h0, b0)) else None
  {
    hide HeaderThen, BodyThen, Sealed, BodyFits, ByteReader.Valid;
    HeaderSizes();
    var header := ParseHeader(w.checksum, bytes);
    if header.None? {
      return None;
    }
    ghost var rest :| bytes == Sealed(w.checksum, HeaderThen(header.value, rest));
    var headerFits := CheckHeader(w, header.value);
    if !headerFits {
      return None;
    }
    var r := new ByteReader(bytes[HEADER_BYTES..|bytes| - TRAILER_BYTES]);
    BehindHeader(header.value, rest);
    assert r.Rest() == rest;
    forall h0: Header, b0: Body | bytes == Encoding(w.checksum, h0, b0)
      ensures h0 == header.value && rest == BodyThen(b0, [])
    {
      BehindHeader(h0, BodyThen(b0, []));
    }
    var body := ReadBody(w, header.value.phase, r);
    if body.None? || !w.consistent(header.value, body.value) {
      return None;
    }
    m := Some(Restored(header.value, body.value));
  }
}
