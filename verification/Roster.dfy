// A player's units on values (server/src/UnitRoster.cpp): nine bench slots, four rows of seven board
// cells, and the rule that three equal units merge into one of the next star level.
//
// The bench and the board are one table here: cells 0..8 are the bench, then the board row by row
// from the back row, which is the order in which a free cell is looked for. Cell -1 is "nowhere".
module Roster {
  import opened Wrappers
  import opened Items
  import opened ChampionPool

  const BENCH_SLOTS := 9
  const BOARD_ROWS := 4
  const BOARD_COLUMNS := 7
  const BOARD_CELLS := BOARD_ROWS * BOARD_COLUMNS
  const CELLS := BENCH_SLOTS + BOARD_CELLS
  const MAX_ITEMS_PER_UNIT := 3
  const SERIALS := 0x100_0000

  type UnitId = nat   // 0 = no unit

  datatype UnitInstance = UnitInstance(id: UnitId, champion: ChampionIndex, star: int, cell: int, items: seq<ItemId>)

  datatype Location = Nowhere | Bench | Board

  function LocationOf(cell: int): Location {
    if cell < 0 then Nowhere else if cell < BENCH_SLOTS then Bench else Board
  }

  // The cell of (location, x, y); -1 if there is none.
  function CellAt(location: Location, x: int, y: int): (c: int)
    ensures -1 <= c < CELLS
    ensures c >= 0 ==> LocationOf(c) == location
  {
    match location
    case Nowhere => -1
    case Bench => if y == 0 && 0 <= x < BENCH_SLOTS then x else -1
    case Board => if 0 <= x < BOARD_COLUMNS && 0 <= y < BOARD_ROWS then BENCH_SLOTS + BOARD_COLUMNS * y + x else -1
  }

  datatype RosterState = RosterState(owner: nat, serial: nat, capacity: int, units: seq<UnitInstance>, cells: seq<UnitId>)

  datatype Merge = Merge(upgraded: UnitInstance, consumed: seq<UnitId>, previousStar: int, overflow: seq<ItemId>)

  // ---- Layout ------------------------------------------------------------------------------------

  predicate InstanceOk(u: UnitInstance, owner: nat, serial: nat) {
    && (owner + 1) * SERIALS <= u.id < (owner + 1) * SERIALS + serial && u.id != 0
    && 1 <= u.star <= MAX_STAR_LEVEL && |u.items| == MAX_ITEMS_PER_UNIT && -1 <= u.cell < CELLS
  }

  ghost predicate Sits(units: seq<UnitInstance>, cell: int, id: UnitId) {
    exists i | 0 <= i < |units| :: units[i].cell == cell && units[i].id == id
  }

  // Units and cells agree. A unit may still be nowhere.
  ghost predicate Seated(r: RosterState) {
    && |r.cells| == CELLS
    && (forall i | 0 <= i < |r.units| :: InstanceOk(r.units[i], r.owner, r.serial))
    && (forall i, j | 0 <= i < j < |r.units| :: r.units[i].id != r.units[j].id)
    && (forall i | 0 <= i < |r.units| && r.units[i].cell >= 0 :: r.cells[r.units[i].cell] == r.units[i].id)
    && (forall c | 0 <= c < CELLS && r.cells[c] != 0 :: Sits(r.units, c, r.cells[c]))
  }

  ghost predicate AllPlaced(units: seq<UnitInstance>) {
    forall i | 0 <= i < |units| :: units[i].cell >= 0
  }

  // Every unit sits in exactly one cell, and every occupied cell names exactly that unit.
  ghost predicate Layout(r: RosterState) {
    Seated(r) && AllPlaced(r.units)
  }

  predicate Is(u: UnitInstance, champion: ChampionIndex, star: int) {
    u.champion == champion && u.star == star
  }

  function Counts(u: UnitInstance, champion: ChampionIndex, star: int): nat {
    if Is(u, champion, star) then 1 else 0
  }

  function Weighs(u: UnitInstance, champion: ChampionIndex): nat {
    if u.champion == champion then Copies(u.star) else 0
  }

  function CountOf(units: seq<UnitInstance>, champion: ChampionIndex, star: int): nat {
    if units == [] then 0
    else CountOf(units[..|units| - 1], champion, star) + Counts(units[|units| - 1], champion, star)
  }

  // No champion but the plants has three loose copies of one star level; plants stay on the board.
  ghost predicate Settled(db: seq<Champion>, units: seq<UnitInstance>) {
    && (forall c: nat, s | s < MAX_STAR_LEVEL && !IsPlant(db, c) :: CountOf(units, c, s) <= 2)
    && AllKnown(db, units)
  }

  predicate UnitKnown(db: seq<Champion>, u: UnitInstance) {
    u.champion < |db| && (IsPlant(db, u.champion) ==> LocationOf(u.cell) == Board)
  }

  predicate AllKnown(db: seq<Champion>, units: seq<UnitInstance>) {
    forall i | 0 <= i < |units| :: UnitKnown(db, units[i])
  }

  predicate IsPlant(db: seq<Champion>, c: ChampionIndex) {
    c < |db| && db[c].plant
  }

  // The copies a champion's units stand for.
  function Weight(units: seq<UnitInstance>, champion: ChampionIndex): nat {
    if units == [] then 0
    else Weight(units[..|units| - 1], champion) + Weighs(units[|units| - 1], champion)
  }

  // How often the base component x is in what the units carry.
  function UnitParts(defs: seq<ItemDef>, units: seq<UnitInstance>, x: ItemId): nat {
    if units == [] then 0
    else UnitParts(defs, units[..|units| - 1], x) + PartsOf(defs, units[|units| - 1].items, x)
  }

  function BenchCount(units: seq<UnitInstance>): nat {
    if units == [] then 0
    else BenchCount(units[..|units| - 1]) + if LocationOf(units[|units| - 1].cell) == Bench then 1 else 0
  }

  function Slots(db: seq<Champion>, c: ChampionIndex): int {
    if c < |db| then db[c].teamSlots else 0
  }

  // Board SLOTS in use: a plant takes none, the Queen two.
  function BoardCount(db: seq<Champion>, units: seq<UnitInstance>): int {
    if units == [] then 0
    else BoardCount(db, units[..|units| - 1]) + if LocationOf(units[|units| - 1].cell) == Board then Slots(db, units[|units| - 1].champion) else 0
  }

  // ---- Changing one unit -------------------------------------------------------------------------

  // The index of the unit with this id; |units| if there is none.
  function IndexOf(units: seq<UnitInstance>, id: UnitId): (k: nat)
    ensures k <= |units| && (k < |units| ==> units[k].id == id)
    ensures forall m | 0 <= m < k :: units[m].id != id
  {
    if units == [] || units[0].id == id then 0 else 1 + IndexOf(units[1..], id)
  }

  function Without(units: seq<UnitInstance>, k: nat): (r: seq<UnitInstance>)
    requires k < |units|
    ensures |r| == |units| - 1
  {
    units[..k] + units[k + 1..]
  }

  // What each count and total becomes when unit k goes, becomes u, or u comes.
  lemma {:induction false} EraseTotals(defs: seq<ItemDef>, units: seq<UnitInstance>, k: nat, c: ChampionIndex, s: int, x: ItemId)
    requires k < |units|
    ensures CountOf(Without(units, k), c, s) == CountOf(units, c, s) - Counts(units[k], c, s)
    ensures Weight(Without(units, k), c) == Weight(units, c) - Weighs(units[k], c)
    ensures UnitParts(defs, Without(units, k), x) == UnitParts(defs, units, x) - PartsOf(defs, units[k].items, x)
  {
    hide Counts, Weighs, PartsOf;
    var init, last := units[..|units| - 1], units[|units| - 1];
    if k == |units| - 1 {
      assert Without(units, k) == init;
    } else {
      EraseTotals(defs, init, k, c, s, x);
      var w := Without(units, k);
      assert w[..|w| - 1] == Without(init, k) && w[|w| - 1] == last;
    }
  }

  lemma {:induction false} UpdateTotals(defs: seq<ItemDef>, units: seq<UnitInstance>, k: nat, u: UnitInstance, c: ChampionIndex, s: int, x: ItemId)
    requires k < |units|
    ensures CountOf(units[k := u], c, s) == CountOf(units, c, s) - Counts(units[k], c, s) + Counts(u, c, s)
    ensures Weight(units[k := u], c) == Weight(units, c) - Weighs(units[k], c) + Weighs(u, c)
    ensures UnitParts(defs, units[k := u], x) == UnitParts(defs, units, x) - PartsOf(defs, units[k].items, x) + PartsOf(defs, u.items, x)
  {
    hide Counts, Weighs, PartsOf;
    var init, last := units[..|units| - 1], units[|units| - 1];
    if k == |units| - 1 {
      assert units[k := u][..|units| - 1] == init;
    } else {
      UpdateTotals(defs, init, k, u, c, s, x);
      assert units[k := u][..|units| - 1] == init[k := u];
    }
  }

  lemma AppendTotals(defs: seq<ItemDef>, units: seq<UnitInstance>, u: UnitInstance, c: ChampionIndex, s: int, x: ItemId)
    ensures CountOf(units + [u], c, s) == CountOf(units, c, s) + Counts(u, c, s)
    ensures Weight(units + [u], c) == Weight(units, c) + Weighs(u, c)
    ensures UnitParts(defs, units + [u], x) == UnitParts(defs, units, x) + PartsOf(defs, u.items, x)
  {
    assert (units + [u])[..|units|] == units;
  }

  function Remove(r: RosterState, k: nat): RosterState
    requires k < |r.units|
  {
    var c := r.units[k].cell;
    r.(units := Without(r.units, k), cells := if 0 <= c < |r.cells| then r.cells[c := 0] else r.cells)
  }

  lemma RemoveSeated(r: RosterState, k: nat)
    requires Seated(r) && k < |r.units|
    ensures Seated(Remove(r, k))
    ensures AllPlaced(r.units) ==> AllPlaced(Remove(r, k).units)
  {
    var t := Remove(r, k);
    hide InstanceOk;
    assert forall i | 0 <= i < |t.units| :: t.units[i] == r.units[if i < k then i else i + 1];
    forall i | 0 <= i < |t.units|
      ensures InstanceOk(t.units[i], t.owner, t.serial) && (t.units[i].cell >= 0 ==> t.cells[t.units[i].cell] == t.units[i].id)
    {
      CellRange(r, if i < k then i else i + 1);
    }
    forall c | 0 <= c < CELLS && t.cells[c] != 0
      ensures Sits(t.units, c, t.cells[c])
    {
      StillSits(r, k, c);
    }
  }

  lemma CellRange(r: RosterState, i: nat)
    requires Seated(r) && i < |r.units|
    ensures -1 <= r.units[i].cell < CELLS && r.units[i].id != 0
  {
    assert InstanceOk(r.units[i], r.owner, r.serial);
  }

  lemma StillSits(r: RosterState, k: nat, c: int)
    requires Seated(r) && k < |r.units| && 0 <= c < CELLS && Remove(r, k).cells[c] != 0
    ensures Sits(Remove(r, k).units, c, Remove(r, k).cells[c])
  {
    hide InstanceOk;
    var t := Remove(r, k);
    CellRange(r, k);
    assert Sits(r.units, c, r.cells[c]);
    var i :| 0 <= i < |r.units| && r.units[i].cell == c && r.units[i].id == r.cells[c];
    assert t.units[if i < k then i else i - 1] == r.units[i];
  }

  // Unit k moves to a free cell (or from nowhere).
  function Reseat(r: RosterState, k: nat, to: int): RosterState
    requires k < |r.units| && 0 <= to < |r.cells|
  {
    var c := r.units[k].cell;
    var freed := if 0 <= c < |r.cells| then r.cells[c := 0] else r.cells;
    r.(units := r.units[k := r.units[k].(cell := to)], cells := freed[to := r.units[k].id])
  }

  lemma ReseatSeated(r: RosterState, k: nat, to: int)
    requires Seated(r) && k < |r.units| && 0 <= to < CELLS && r.cells[to] == 0
    ensures Seated(Reseat(r, k, to))
    ensures AllPlaced(r.units) ==> AllPlaced(Reseat(r, k, to).units)
  {
    var t := Reseat(r, k, to);
    forall i | 0 <= i < |t.units| && t.units[i].cell >= 0
      ensures t.cells[t.units[i].cell] == t.units[i].id
    {
      if i != k {
        assert r.cells[r.units[i].cell] == r.units[i].id;
      }
    }
    forall c | 0 <= c < CELLS && t.cells[c] != 0
      ensures Sits(t.units, c, t.cells[c])
    {
      if c == to {
        assert t.units[k].cell == c;
      } else {
        assert Sits(r.units, c, r.cells[c]);
        var i :| 0 <= i < |r.units| && r.units[i].cell == c && r.units[i].id == r.cells[c];
        assert i != k && t.units[i] == r.units[i];
      }
    }
  }

  // Units k and m trade places.
  function Swap(r: RosterState, k: nat, m: nat): RosterState
    requires k < |r.units| && m < |r.units| && 0 <= r.units[k].cell < |r.cells| && 0 <= r.units[m].cell < |r.cells|
  {
    var a, b := r.units[k], r.units[m];
    r.(units := r.units[k := a.(cell := b.cell)][m := b.(cell := a.cell)], cells := r.cells[b.cell := a.id][a.cell := b.id])
  }

  lemma CellsDiffer(r: RosterState, k: nat, m: nat)
    requires Seated(r) && k < |r.units| && m < |r.units| && k != m && r.units[k].cell >= 0 && r.units[m].cell >= 0
    ensures r.units[k].cell != r.units[m].cell && r.units[k].id != r.units[m].id
  {
    assert r.cells[r.units[k].cell] == r.units[k].id && r.cells[r.units[m].cell] == r.units[m].id;
    assert k < m ==> r.units[k].id != r.units[m].id;
    assert m < k ==> r.units[m].id != r.units[k].id;
  }

  lemma SwapSeated(r: RosterState, k: nat, m: nat)
    requires Layout(r) && k < |r.units| && m < |r.units| && k != m
    ensures Layout(Swap(r, k, m))
  {
    var t := Swap(r, k, m);
    var a, b := r.units[k], r.units[m];
    CellsDiffer(r, k, m);
    assert |t.cells| == CELLS && |t.units| == |r.units|;
    forall i | 0 <= i < |t.units|
      ensures InstanceOk(t.units[i], t.owner, t.serial) && t.units[i].id == r.units[i].id && t.units[i].cell >= 0
      ensures t.cells[t.units[i].cell] == t.units[i].id
    {
      assert InstanceOk(r.units[i], r.owner, r.serial);
      if i != k && i != m {
        CellsDiffer(r, i, k);
        CellsDiffer(r, i, m);
      }
    }
    forall c | 0 <= c < CELLS && t.cells[c] != 0
      ensures Sits(t.units, c, t.cells[c])
    {
      SwapSits(r, k, m, c);
    }
  }

  lemma SwapSits(r: RosterState, k: nat, m: nat, c: int)
    requires Layout(r) && k < |r.units| && m < |r.units| && k != m && 0 <= c < CELLS && Swap(r, k, m).cells[c] != 0
    ensures Sits(Swap(r, k, m).units, c, Swap(r, k, m).cells[c])
  {
    var t := Swap(r, k, m);
    var a, b := r.units[k], r.units[m];
    CellsDiffer(r, k, m);
    if c == a.cell {
      assert t.units[m].cell == c && t.units[m].id == t.cells[c];
    } else if c == b.cell {
      assert t.units[k].cell == c && t.units[k].id == t.cells[c];
    } else {
      assert Sits(r.units, c, r.cells[c]);
      var i :| 0 <= i < |r.units| && r.units[i].cell == c && r.units[i].id == r.cells[c];
      assert t.units[i] == r.units[i];
    }
  }

  // Unit k changes, but not where it is or who it is.
  function Improve(r: RosterState, k: nat, star: int, items: seq<ItemId>): RosterState
    requires k < |r.units|
  {
    r.(units := r.units[k := r.units[k].(star := star, items := items)])
  }

  lemma ImproveSeated(r: RosterState, k: nat, star: int, items: seq<ItemId>)
    requires Seated(r) && k < |r.units| && 1 <= star <= MAX_STAR_LEVEL && |items| == MAX_ITEMS_PER_UNIT
    ensures Seated(Improve(r, k, star, items))
    ensures AllPlaced(r.units) ==> AllPlaced(Improve(r, k, star, items).units)
  {
    var t := Improve(r, k, star, items);
    forall c | 0 <= c < CELLS && t.cells[c] != 0
      ensures Sits(t.units, c, t.cells[c])
    {
      assert Sits(r.units, c, r.cells[c]);
      var i :| 0 <= i < |r.units| && r.units[i].cell == c && r.units[i].id == r.cells[c];
      assert t.units[i].cell == c && t.units[i].id == r.cells[c];
    }
  }

  // A new unit takes a free cell, or none at all.
  function Append(r: RosterState, u: UnitInstance): RosterState
    requires u.cell < |r.cells|
  {
    r.(serial := r.serial + 1, units := r.units + [u], cells := if u.cell >= 0 then r.cells[u.cell := u.id] else r.cells)
  }

  lemma AppendSeated(r: RosterState, u: UnitInstance)
    requires Seated(r) && InstanceOk(u, r.owner, r.serial + 1) && u.id == (r.owner + 1) * SERIALS + r.serial
    requires u.cell >= 0 ==> r.cells[u.cell] == 0
    ensures Seated(Append(r, u))
    ensures AllPlaced(r.units) && u.cell >= 0 ==> AllPlaced(Append(r, u).units)
  {
    var t := Append(r, u);
    forall i | 0 <= i < |r.units|
      ensures InstanceOk(r.units[i], r.owner, r.serial + 1) && r.units[i].id != u.id
      ensures r.units[i].cell >= 0 ==> t.cells[r.units[i].cell] == r.units[i].id
    {
      assert InstanceOk(r.units[i], r.owner, r.serial);
    }
    forall c | 0 <= c < CELLS && t.cells[c] != 0
      ensures Sits(t.units, c, t.cells[c])
    {
      if c == u.cell {
        assert t.units[|r.units|] == u;
      } else {
        assert Sits(r.units, c, r.cells[c]);
        var i :| 0 <= i < |r.units| && r.units[i].cell == c && r.units[i].id == r.cells[c];
        assert t.units[i] == r.units[i];
      }
    }
  }

  // ---- Items on a unit ---------------------------------------------------------------------------

  // The first slot from k on whose item combines with `item`.
  function Partner(defs: seq<ItemDef>, items: seq<ItemId>, item: ItemId, k: nat): (r: nat)
    requires k <= |items|
    ensures k <= r <= |items|
    ensures r < |items| ==> items[r] != 0 && Combination(defs, items[r], item) != 0
    decreases |items| - k
  {
    if k == |items| || (items[k] != 0 && Combination(defs, items[k], item) != 0) then k else Partner(defs, items, item, k + 1)
  }

  function FreeSlot(items: seq<ItemId>, k: nat): (r: nat)
    requires k <= |items|
    ensures k <= r <= |items|
    ensures r < |items| ==> items[r] == 0
    decreases |items| - k
  {
    if k == |items| || items[k] == 0 then k else FreeSlot(items, k + 1)
  }

  // The slots with `item` in them: combined with a partner if there is one, else in the first free
  // slot; None if neither is possible.
  function PlaceItem(defs: seq<ItemDef>, items: seq<ItemId>, item: ItemId): (r: Option<seq<ItemId>>)
    ensures r.Some? ==> |r.value| == |items|
  {
    var p, f := Partner(defs, items, item, 0), FreeSlot(items, 0);
    if p < |items| then Some(items[p := Combination(defs, items[p], item)])
    else if f < |items| then Some(items[f := item])
    else None
  }

  lemma PlaceItemKeepsParts(defs: seq<ItemDef>, items: seq<ItemId>, item: ItemId, x: ItemId)
    requires DatabaseOk(defs)
    ensures var r := PlaceItem(defs, items, item);
            r.Some? ==> PartsOf(defs, r.value, x) == PartsOf(defs, items, x) + Parts(defs, item, x)
  {
    hide PartsOf, DatabaseOk;
    var p, f := Partner(defs, items, item, 0), FreeSlot(items, 0);
    if p < |items| {
      hide Parts;
      CombiningKeepsParts(defs, items[p], item, x);
      PartsUpdate(defs, items, p, Combination(defs, items[p], item), x);
    } else if f < |items| {
      PartsUpdate(defs, items, f, item, x);
    }
  }

  // Every item finds its place or overflows, in order.
  function Carry(defs: seq<ItemDef>, items: seq<ItemId>, carried: seq<ItemId>): (r: (seq<ItemId>, seq<ItemId>))
    ensures |r.0| == |items|
    decreases carried
  {
    if carried == [] then (items, [])
    else
      var placed := PlaceItem(defs, items, carried[0]);
      if placed.Some? then Carry(defs, placed.value, carried[1..])
      else
        var (rest, overflow) := Carry(defs, items, carried[1..]);
        (rest, [carried[0]] + overflow)
  }

  lemma {:induction false} CarryKeepsParts(defs: seq<ItemDef>, items: seq<ItemId>, carried: seq<ItemId>, x: ItemId)
    requires DatabaseOk(defs)
    ensures var (after, overflow) := Carry(defs, items, carried);
            PartsOf(defs, after, x) + PartsOf(defs, overflow, x) == PartsOf(defs, items, x) + PartsOf(defs, carried, x)
    decreases carried
  {
    if carried != [] {
      var first, rest := carried[0], carried[1..];
      assert carried == [first] + rest;
      hide PlaceItem, Parts, DatabaseOk;
      PartsAppend(defs, [first], rest, x);
      PartsOfOne(defs, first, x);
      PlaceItemKeepsParts(defs, items, first, x);
      hide PartsOf;
      var placed := PlaceItem(defs, items, first);
      if placed.Some? {
        CarryKeepsParts(defs, placed.value, rest, x);
      } else {
        CarryKeepsParts(defs, items, rest, x);
        PartsAppend(defs, [first], Carry(defs, items, rest).1, x);
      }
    }
  }

  // What a unit carries, slot by slot, without the empty slots.
  function Carried(items: seq<ItemId>): seq<ItemId> {
    if items == [] then [] else Carried(items[..|items| - 1]) + if items[|items| - 1] == 0 then [] else [items[|items| - 1]]
  }

  lemma {:induction false} CarriedParts(defs: seq<ItemDef>, items: seq<ItemId>, x: ItemId)
    ensures PartsOf(defs, Carried(items), x) == PartsOf(defs, items, x)
  {
    if items != [] {
      var init, last := items[..|items| - 1], items[|items| - 1];
      CarriedParts(defs, init, x);
      PartsAppend(defs, Carried(init), if last == 0 then [] else [last], x);
      PartsOfOne(defs, last, x);
    }
  }

  // ---- Merging -----------------------------------------------------------------------------------

  // Units on the board first (row by row), then the bench, the unplaced one last.
  function Rank(cell: int): int {
    if cell < 0 then CELLS else if cell < BENCH_SLOTS then BOARD_CELLS + cell else cell - BENCH_SLOTS
  }

  // The indices of a champion's units of one star level, in unit order.
  function Candidates(units: seq<UnitInstance>, champion: ChampionIndex, star: int): seq<nat> {
    if units == [] then []
    else Candidates(units[..|units| - 1], champion, star) + if Is(units[|units| - 1], champion, star) then [|units| - 1] else []
  }

  predicate AllAre(units: seq<UnitInstance>, ks: seq<nat>, champion: ChampionIndex, star: int) {
    forall a | 0 <= a < |ks| :: ks[a] < |units| && Is(units[ks[a]], champion, star)
  }

  predicate Increasing(ks: seq<nat>) {
    forall a, b | 0 <= a < b < |ks| :: ks[a] < ks[b]
  }

  lemma {:induction false} CandidatesExact(units: seq<UnitInstance>, champion: ChampionIndex, star: int)
    ensures var cs := Candidates(units, champion, star);
            |cs| == CountOf(units, champion, star) && Increasing(cs) && AllAre(units, cs, champion, star)
  {
    if units != [] {
      hide Is, AllAre, Increasing;
      var n := |units| - 1;
      CandidatesExact(units[..n], champion, star);
      CandidatesGrow(units, Candidates(units[..n], champion, star), champion, star);
      assert Counts(units[n], champion, star) == if Is(units[n], champion, star) then 1 else 0;
    }
  }

  lemma CandidatesGrow(units: seq<UnitInstance>, cs: seq<nat>, champion: ChampionIndex, star: int)
    requires units != [] && AllAre(units[..|units| - 1], cs, champion, star) && Increasing(cs)
    ensures AllAre(units, cs, champion, star)
    ensures Increasing(cs + [|units| - 1]) && (Is(units[|units| - 1], champion, star) ==> AllAre(units, cs + [|units| - 1], champion, star))
  {
    hide Is;
    forall a | 0 <= a < |cs|
      ensures cs[a] < |units| - 1 && Is(units[cs[a]], champion, star)
    {
      assert units[..|units| - 1][cs[a]] == units[cs[a]];
    }
  }

  lemma {:induction false} CandidatesComplete(units: seq<UnitInstance>, champion: ChampionIndex, star: int, i: nat)
    requires i < |units| && Is(units[i], champion, star)
    ensures i in Candidates(units, champion, star)
  {
    if i < |units| - 1 {
      CandidatesComplete(units[..|units| - 1], champion, star, i);
    }
  }

  predicate Ranked(units: seq<UnitInstance>, ks: seq<nat>) {
    && (forall a | 0 <= a < |ks| :: ks[a] < |units|)
    && forall a, b | 0 <= a < b < |ks| :: Rank(units[ks[a]].cell) <= Rank(units[ks[b]].cell)
  }

  // k among the ranked ks: after every unit that ranks no higher.
  function InsertRanked(units: seq<UnitInstance>, ks: seq<nat>, k: nat): (r: seq<nat>)
    requires k < |units| && forall a | 0 <= a < |ks| :: ks[a] < |units|
    ensures multiset(r) == multiset(ks) + multiset{k} && |r| == |ks| + 1
    ensures forall a | 0 <= a < |r| :: r[a] < |units|
  {
    if ks == [] || Rank(units[k].cell) < Rank(units[ks[0]].cell) then [k] + ks
    else (assert ks == [ks[0]] + ks[1..]; [ks[0]] + InsertRanked(units, ks[1..], k))
  }

  function SortRanked(units: seq<UnitInstance>, ks: seq<nat>): (r: seq<nat>)
    requires forall a | 0 <= a < |ks| :: ks[a] < |units|
    ensures multiset(r) == multiset(ks) && |r| == |ks|
    ensures forall a | 0 <= a < |r| :: r[a] < |units|
  {
    if ks == [] then []
    else
      assert ks == ks[..|ks| - 1] + [ks[|ks| - 1]];
      InsertRanked(units, SortRanked(units, ks[..|ks| - 1]), ks[|ks| - 1])
  }

  lemma {:induction false} InsertKeepsRanked(units: seq<UnitInstance>, ks: seq<nat>, k: nat)
    requires k < |units| && Ranked(units, ks)
    ensures Ranked(units, InsertRanked(units, ks, k))
  {
    hide Rank;
    if ks != [] {
      RestIsRanked(units, ks);
      if Rank(units[k].cell) >= Rank(units[ks[0]].cell) {
        InsertKeepsRanked(units, ks[1..], k);
        InsertedAfter(units, ks, k);
      }
    }
  }

  lemma RestIsRanked(units: seq<UnitInstance>, ks: seq<nat>)
    requires Ranked(units, ks) && ks != []
    ensures Ranked(units, ks[1..]) && forall a | 0 <= a < |ks| :: Rank(units[ks[0]].cell) <= Rank(units[ks[a]].cell)
  {
    hide Rank;
    var rest := ks[1..];
    forall a, b | 0 <= a < b < |rest|
      ensures Rank(units[rest[a]].cell) <= Rank(units[rest[b]].cell)
    {
      assert rest[a] == ks[a + 1] && rest[b] == ks[b + 1];
    }
  }

  // The first of the others stays in front.
  lemma InsertedAfter(units: seq<UnitInstance>, ks: seq<nat>, k: nat)
    requires k < |units| && Ranked(units, ks) && ks != [] && Rank(units[k].cell) >= Rank(units[ks[0]].cell)
    ensures forall a | 0 <= a < |InsertRanked(units, ks[1..], k)| :: Rank(units[ks[0]].cell) <= Rank(units[InsertRanked(units, ks[1..], k)[a]].cell)
  {
    RestIsRanked(units, ks);
    hide Rank, Ranked;
    var rest, r := ks[1..], InsertRanked(units, ks[1..], k);
    forall a | 0 <= a < |r|
      ensures Rank(units[ks[0]].cell) <= Rank(units[r[a]].cell)
    {
      assert r[a] in multiset(r);
      if r[a] != k {
        assert r[a] in multiset(rest);
        var b :| 0 <= b < |rest| && rest[b] == r[a];
        assert ks[b + 1] == rest[b];
      }
    }
  }

  lemma {:induction false} SortIsRanked(units: seq<UnitInstance>, ks: seq<nat>)
    requires forall a | 0 <= a < |ks| :: ks[a] < |units|
    ensures Ranked(units, SortRanked(units, ks))
  {
    if ks != [] {
      SortIsRanked(units, ks[..|ks| - 1]);
      InsertKeepsRanked(units, SortRanked(units, ks[..|ks| - 1]), ks[|ks| - 1]);
    }
  }
}
