// What a player may expect of a roster (server/src/UnitRoster.cpp), without a word about how it is computed:
// which slot an item takes, when there is room and where a new unit goes, which units merge and what is
// left of them. Each law is stated over slots, cells and recipes, has exactly one outcome, and the functions
// of Roster and RosterMerge are proved to give it.
module RosterLaws {
  import opened Wrappers
  import opened Items
  import opened ChampionPool
  import opened Roster
  import opened RosterMerge

  // ---- Items ---------------------------------------------------------------------------------------

  // Some recipe makes something of these two.
  ghost predicate Pairs(defs: seq<ItemDef>, a: ItemId, b: ItemId) {
    a != 0 && b != 0 && exists k :: 0 <= k < |defs| && Makes(defs[k], a, b)
  }

  // The item combines in slot p, the first one where it can.
  ghost predicate CombinesIn(defs: seq<ItemDef>, items: seq<ItemId>, item: ItemId, p: nat, after: seq<ItemId>) {
    && p < |items| && (forall m | 0 <= m < p :: !Pairs(defs, items[m], item))
    && exists k :: 0 <= k < |defs| && items[p] != 0 && Makes(defs[k], items[p], item) && after == items[p := defs[k].id]
  }

  // It takes slot f, the first empty one, as it combines with nothing.
  ghost predicate FillsSlot(defs: seq<ItemDef>, items: seq<ItemId>, item: ItemId, f: nat, after: seq<ItemId>) {
    && f < |items| && (forall m | 0 <= m < |items| :: !Pairs(defs, items[m], item))
    && items[f] == 0 && (forall m | 0 <= m < f :: items[m] != 0) && after == items[f := item]
  }

  // There is neither a partner nor an empty slot.
  ghost predicate NoPlace(defs: seq<ItemDef>, items: seq<ItemId>, item: ItemId) {
    forall m | 0 <= m < |items| :: items[m] != 0 && !Pairs(defs, items[m], item)
  }

  ghost predicate IsPlaced(defs: seq<ItemDef>, items: seq<ItemId>, item: ItemId, r: Option<seq<ItemId>>) {
    match r
    case None => NoPlace(defs, items, item)
    case Some(after) => (exists p :: CombinesIn(defs, items, item, p, after)) || (exists f :: FillsSlot(defs, items, item, f, after))
  }

  // A combining item goes to its first partner, whatever slots are free; only one that combines with
  // nothing takes a slot of its own.
  lemma PlaceItemExact(defs: seq<ItemDef>, items: seq<ItemId>, item: ItemId)
    requires DatabaseOk(defs) && item != 0
    ensures IsPlaced(defs, items, item, PlaceItem(defs, items, item))
  {
    var p, f := Partner(defs, items, item, 0), FreeSlot(items, 0);
    forall m | 0 <= m < |items|
      ensures Combination(defs, items[m], item) != 0 <==> Pairs(defs, items[m], item)
    {
      PairsExact(defs, items[m], item);
    }
    FirstPartner(defs, items, item, 0);
    FirstSlot(items, 0);
    if p < |items| {
      PairsExact(defs, items[p], item);
      assert CombinesIn(defs, items, item, p, items[p := Combination(defs, items[p], item)]);
    } else if f < |items| {
      assert FillsSlot(defs, items, item, f, items[f := item]);
    }
  }

  lemma PairsExact(defs: seq<ItemDef>, a: ItemId, b: ItemId)
    requires DatabaseOk(defs)
    ensures Combination(defs, a, b) != 0 <==> Pairs(defs, a, b)
    ensures Combination(defs, a, b) != 0 ==> exists k :: 0 <= k < |defs| && Makes(defs[k], a, b) && defs[k].id == Combination(defs, a, b)
  {
    if a != 0 && b != 0 {
      forall k | 0 <= k < |defs|
        ensures defs[k].id != 0
      {
        assert ItemOk(defs, k);
      }
      CombinationExact(defs, a, b);
    }
  }

  lemma {:induction false} FirstPartner(defs: seq<ItemDef>, items: seq<ItemId>, item: ItemId, k: nat)
    requires k <= |items|
    ensures forall m | k <= m < Partner(defs, items, item, k) :: items[m] == 0 || Combination(defs, items[m], item) == 0
    decreases |items| - k
  {
    if k < |items| {
      FirstPartner(defs, items, item, k + 1);
    }
  }

  lemma {:induction false} FirstSlot(items: seq<ItemId>, k: nat)
    requires k <= |items|
    ensures forall m | k <= m < FreeSlot(items, k) :: items[m] != 0
    decreases |items| - k
  {
    if k < |items| {
      FirstSlot(items, k + 1);
    }
  }

  // The law leaves no choice.
  lemma PlacedIsDetermined(defs: seq<ItemDef>, items: seq<ItemId>, item: ItemId, r: Option<seq<ItemId>>, s: Option<seq<ItemId>>)
    requires DatabaseOk(defs) && item != 0 && IsPlaced(defs, items, item, r) && IsPlaced(defs, items, item, s)
    ensures r == s
  {
    PlacedIs(defs, items, item, r);
    PlacedIs(defs, items, item, s);
  }

  lemma PlacedIs(defs: seq<ItemDef>, items: seq<ItemId>, item: ItemId, r: Option<seq<ItemId>>)
    requires DatabaseOk(defs) && item != 0 && IsPlaced(defs, items, item, r)
    ensures r == PlaceItem(defs, items, item)
  {
    PlaceItemExact(defs, items, item);
    hide PlaceItem, DatabaseOk;
    var s := PlaceItem(defs, items, item);
    if r.Some? && s.Some? {
      if p, q :| CombinesIn(defs, items, item, p, r.value) && CombinesIn(defs, items, item, q, s.value) {
        SamePartner(defs, items, item, p, q, r.value, s.value);
      }
    }
  }

  lemma SamePartner(defs: seq<ItemDef>, items: seq<ItemId>, item: ItemId, p: nat, q: nat, r: seq<ItemId>, s: seq<ItemId>)
    requires DatabaseOk(defs) && item != 0 && CombinesIn(defs, items, item, p, r) && CombinesIn(defs, items, item, q, s)
    ensures r == s
  {
    hide DatabaseOk;
    assert Pairs(defs, items[p], item) && Pairs(defs, items[q], item);
    assert p == q;
    var k :| 0 <= k < |defs| && items[p] != 0 && Makes(defs[k], items[p], item) && r == items[p := defs[k].id];
    var l :| 0 <= l < |defs| && items[q] != 0 && Makes(defs[l], items[q], item) && s == items[q := defs[l].id];
    RecipesAreUnique(defs, items[p], item, k);
    RecipesAreUnique(defs, items[p], item, l);
  }

  lemma RoomForItem(defs: seq<ItemDef>, items: seq<ItemId>, item: ItemId)
    requires DatabaseOk(defs) && item != 0
    ensures PlaceItem(defs, items, item).None? <==> NoPlace(defs, items, item)
  {
    PlaceItemExact(defs, items, item);
    hide PlaceItem, DatabaseOk;
    var r := PlaceItem(defs, items, item);
    if r.Some? {
      if p: nat :| CombinesIn(defs, items, item, p, r.value) {
        assert p < |items| && Pairs(defs, items[p], item);
      }
    }
  }

  // Items handed over one after the other: each finds its place or is left over.
  ghost predicate AreCarried(defs: seq<ItemDef>, items: seq<ItemId>, carried: seq<ItemId>, after: seq<ItemId>, overflow: seq<ItemId>)
    decreases |carried|
  {
    if carried == [] then after == items && overflow == []
    else
      exists placed :: IsPlaced(defs, items, carried[0], placed) &&
        match placed
        case Some(next) => AreCarried(defs, next, carried[1..], after, overflow)
        case None => overflow != [] && overflow[0] == carried[0] && AreCarried(defs, items, carried[1..], after, overflow[1..])
  }

  lemma {:induction false} CarryExact(defs: seq<ItemDef>, items: seq<ItemId>, carried: seq<ItemId>)
    requires DatabaseOk(defs) && forall k | 0 <= k < |carried| :: carried[k] != 0
    ensures AreCarried(defs, items, carried, Carry(defs, items, carried).0, Carry(defs, items, carried).1)
    decreases |carried|
  {
    hide PlaceItem, IsPlaced, DatabaseOk;
    if carried != [] {
      PlaceItemExact(defs, items, carried[0]);
      var placed := PlaceItem(defs, items, carried[0]);
      if placed.Some? {
        CarryExact(defs, placed.value, carried[1..]);
      } else {
        CarryExact(defs, items, carried[1..]);
        var overflow := Carry(defs, items, carried).1;
        assert overflow[1..] == Carry(defs, items, carried[1..]).1;
      }
    }
  }

  function Only(item: ItemId): seq<ItemId> {
    if item == 0 then [] else [item]
  }

  // The items in three slots, in order.
  function ItemsIn(items: seq<ItemId>): seq<ItemId>
    requires |items| == 3
  {
    Only(items[0]) + Only(items[1]) + Only(items[2])
  }

  lemma CarriedExact(items: seq<ItemId>)
    requires |items| == 3
    ensures Carried(items) == ItemsIn(items)
    ensures forall k | 0 <= k < |Carried(items)| :: Carried(items)[k] != 0
  {
    assert items[..2][..1] == items[..1] && items[..1][..0] == [];
    assert Carried(items[..1]) == Only(items[0]);
    assert Carried(items[..2]) == Only(items[0]) + Only(items[1]);
  }

  // ---- Cells ---------------------------------------------------------------------------------------

  // Nine bench slots and four rows of seven board cells, all different, and nothing else.
  lemma CellsAreDifferent(l: Location, x: int, y: int, l': Location, x': int, y': int)
    ensures CellAt(l, x, y) >= 0 <==> (l == Bench && 0 <= x < 9 && y == 0) || (l == Board && 0 <= x < 7 && 0 <= y < 4)
    ensures CellAt(l, x, y) >= 0 ==> CellAt(l, x, y) < CELLS && LocationOf(CellAt(l, x, y)) == l
    ensures CellAt(l, x, y) == CellAt(l', x', y') >= 0 ==> l == l' && x == x' && y == y'
    ensures CellAt(Board, x, y) >= 0 && CellAt(Board, x', y') >= 0 ==> (CellAt(Board, x, y) < CellAt(Board, x', y') <==> y < y' || (y == y' && x < x'))
  {
  }

  // Every cell is one of them.
  lemma EveryCellIsOne(c: int) returns (l: Location, x: int, y: int)
    requires 0 <= c < CELLS
    ensures CellAt(l, x, y) == c
  {
    if c < BENCH_SLOTS {
      l, x, y := Bench, c, 0;
    } else {
      l, x, y := Board, (c - BENCH_SLOTS) % BOARD_COLUMNS, (c - BENCH_SLOTS) / BOARD_COLUMNS;
    }
  }

  ghost predicate BenchSlotFree(r: RosterState, x: int) {
    0 <= x < 9 && 0 <= CellAt(Bench, x, 0) < |r.cells| && r.cells[CellAt(Bench, x, 0)] == 0
  }

  ghost predicate BoardCellFree(r: RosterState, x: int, y: int) {
    0 <= x < 7 && 0 <= y < 4 && 0 <= CellAt(Board, x, y) < |r.cells| && r.cells[CellAt(Board, x, y)] == 0
  }

  // ---- Slots in use --------------------------------------------------------------------------------

  // The slots of the unit in cell c.
  function SlotsAt(r: RosterState, db: seq<Champion>, c: nat): int
    requires c < |r.cells|
  {
    var k := IndexOf(r.units, r.cells[c]);
    if r.cells[c] != 0 && k < |r.units| then Slots(db, r.units[k].champion) else 0
  }

  // The slots in use on the first n cells behind the bench, cell by cell.
  function SlotsUpTo(r: RosterState, db: seq<Champion>, n: nat): int
    requires |r.cells| == CELLS && n <= BOARD_CELLS
  {
    if n == 0 then 0 else SlotsUpTo(r, db, n - 1) + SlotsAt(r, db, BENCH_SLOTS + n - 1)
  }

  // What the board's cells hold.
  function SlotsInUseOnBoard(r: RosterState, db: seq<Champion>): int
    requires |r.cells| == CELLS
  {
    SlotsUpTo(r, db, BOARD_CELLS)
  }

  function FilledUpTo(cells: seq<UnitId>, n: nat): nat
    requires n <= |cells|
  {
    if n == 0 then 0 else FilledUpTo(cells, n - 1) + if cells[n - 1] != 0 then 1 else 0
  }

  // Counting units and counting cells is the same.
  lemma {:induction false} CountsAreCells(r: RosterState, db: seq<Champion>)
    requires Layout(r)
    ensures |r.cells| == CELLS && BenchCount(r.units) == FilledUpTo(r.cells, BENCH_SLOTS) && BoardCount(db, r.units) == SlotsInUseOnBoard(r, db)
    decreases |r.units|
  {
    hide Layout;
    LaidOutCells(r);
    if r.units == [] {
      NothingFilled(r.cells, BENCH_SLOTS);
      NothingInUse(r, db, BOARD_CELLS);
    } else {
      var k := |r.units| - 1;
      var t := Remove(r, k);
      LayoutWithout(r, k);
      CountsAreCells(t, db);
      assert t.units == r.units[..k];
      var c := r.units[k].cell;
      FilledWithout(r.cells, BENCH_SLOTS, c);
      SlotsWithout(r, db, BOARD_CELLS, k);
    }
  }

  lemma LaidOutCells(r: RosterState)
    requires Layout(r)
    ensures |r.cells| == CELLS
    ensures r.units == [] ==> forall c | 0 <= c < CELLS :: r.cells[c] == 0
    ensures forall k | 0 <= k < |r.units| :: 0 <= r.units[k].cell < CELLS && r.cells[r.units[k].cell] == r.units[k].id != 0
  {
    if r.units == [] {
      forall c | 0 <= c < CELLS
        ensures r.cells[c] == 0
      {
        assert !Sits(r.units, c, r.cells[c]);
      }
    }
    forall k | 0 <= k < |r.units|
      ensures 0 <= r.units[k].cell < CELLS && r.units[k].id != 0
    {
      assert InstanceOk(r.units[k], r.owner, r.serial);
    }
  }

  lemma LayoutWithout(r: RosterState, k: nat)
    requires Layout(r) && k < |r.units|
    ensures Layout(Remove(r, k)) && Remove(r, k).cells == r.cells[r.units[k].cell := 0]
  {
    LaidOutCells(r);
    RemoveSeated(r, k);
  }

  lemma {:induction false} NothingFilled(cells: seq<UnitId>, n: nat)
    requires n <= |cells| && forall c | 0 <= c < n :: cells[c] == 0
    ensures FilledUpTo(cells, n) == 0
  {
    if n > 0 {
      NothingFilled(cells, n - 1);
    }
  }

  lemma {:induction false} NothingInUse(r: RosterState, db: seq<Champion>, n: nat)
    requires |r.cells| == CELLS && n <= BOARD_CELLS && forall c | 0 <= c < CELLS :: r.cells[c] == 0
    ensures SlotsUpTo(r, db, n) == 0
  {
    if n > 0 {
      NothingInUse(r, db, n - 1);
    }
  }

  lemma {:induction false} FilledWithout(cells: seq<UnitId>, n: nat, c: int)
    requires n <= |cells| && 0 <= c < |cells| && cells[c] != 0
    ensures FilledUpTo(cells, n) == FilledUpTo(cells[c := 0], n) + if c < n then 1 else 0
  {
    if n > 0 {
      FilledWithout(cells, n - 1, c);
    }
  }

  // Taking the last unit off leaves the slots of every other cell as they are.
  lemma {:induction false} SlotsWithout(r: RosterState, db: seq<Champion>, n: nat, k: nat)
    requires Layout(r) && |r.cells| == CELLS && n <= BOARD_CELLS && k == |r.units| - 1 && |Remove(r, k).cells| == CELLS
    ensures SlotsUpTo(r, db, n) ==
            SlotsUpTo(Remove(r, k), db, n) + if BENCH_SLOTS <= r.units[k].cell < BENCH_SLOTS + n then Slots(db, r.units[k].champion) else 0
  {
    hide Layout, Remove;
    if n > 0 {
      SlotsWithout(r, db, n - 1, k);
      SlotsAtWithout(r, db, BENCH_SLOTS + n - 1, k);
    }
  }

  lemma SlotsAtWithout(r: RosterState, db: seq<Champion>, c: nat, k: nat)
    requires Layout(r) && c < |r.cells| == CELLS && k == |r.units| - 1 && |Remove(r, k).cells| == CELLS
    ensures SlotsAt(r, db, c) == SlotsAt(Remove(r, k), db, c) + if r.units[k].cell == c then Slots(db, r.units[k].champion) else 0
  {
    LayoutWithout(r, k);
    LaidOutCells(r);
    var t := Remove(r, k);
    assert t.units == r.units[..k];
    if r.cells[c] != 0 {
      var i := WhoSits(r, c);
      hide Layout, IndexOf;
      if i < k {
        assert t.units[i] == r.units[i];
        IndexOfUnit(t.units, i);
      }
    }
  }

  lemma WhoSits(r: RosterState, c: nat) returns (i: nat)
    requires Layout(r) && c < |r.cells| == CELLS && r.cells[c] != 0
    ensures i < |r.units| && r.units[i].cell == c && r.units[i].id == r.cells[c] && IndexOf(r.units, r.cells[c]) == i
    ensures forall j | 0 <= j < |r.units| && j != i :: r.units[j].cell != c
    ensures forall a, b | 0 <= a < b < |r.units| :: r.units[a].id != r.units[b].id
  {
    assert Sits(r.units, c, r.cells[c]);
    i :| 0 <= i < |r.units| && r.units[i].cell == c && r.units[i].id == r.cells[c];
    IndexOfUnit(r.units, i);
    forall j | 0 <= j < |r.units| && j != i
      ensures r.units[j].cell != c
    {
      assert r.units[j].cell >= 0 ==> r.cells[r.units[j].cell] == r.units[j].id;
    }
  }

  // ---- Room ----------------------------------------------------------------------------------------

  // The units of one kind.
  ghost function Kind(units: seq<UnitInstance>, champion: ChampionIndex, star: int): set<int> {
    set i | 0 <= i < |units| && units[i].champion == champion && units[i].star == star
  }

  // There is an empty bench slot, or -- below the capacity and below 28 slots -- an empty board cell; or
  // the unit makes three of a kind.
  ghost predicate MayAdd(r: RosterState, db: seq<Champion>, champion: ChampionIndex, star: int)
    requires |r.cells| == CELLS
  {
    && champion < |db| && 1 <= star <= 3
    && ((exists x :: BenchSlotFree(r, x))
        || (SlotsInUseOnBoard(r, db) < r.capacity && SlotsInUseOnBoard(r, db) < 28 && exists x, y :: BoardCellFree(r, x, y))
        || (star < 3 && |Kind(r.units, champion, star)| >= 2))
  }

  lemma AddAllowedExactly(r: RosterState, db: seq<Champion>, champion: ChampionIndex, star: int)
    requires Layout(r)
    ensures |r.cells| == CELLS && (CanAdd(r, db, champion, star) <==> MayAdd(r, db, champion, star))
  {
    CountsAreCells(r, db);
    KindIsCounted(r.units, champion, star);
    BenchHasRoom(r);
    BoardHasRoom(r);
    hide Layout, BenchCount, BoardCount, SlotsUpTo, CountOf, Kind, FilledUpTo, BenchSlotFree, BoardCellFree;
  }

  lemma BenchHasRoom(r: RosterState)
    requires |r.cells| == CELLS
    ensures FilledUpTo(r.cells, BENCH_SLOTS) < BENCH_SLOTS <==> exists x :: BenchSlotFree(r, x)
  {
    FilledExact(r.cells, BENCH_SLOTS);
    if x :| 0 <= x < BENCH_SLOTS && r.cells[x] == 0 {
      assert BenchSlotFree(r, x);
    }
  }

  lemma {:induction false} FilledExact(cells: seq<UnitId>, n: nat)
    requires n <= |cells|
    ensures FilledUpTo(cells, n) <= n && (FilledUpTo(cells, n) < n <==> exists c :: 0 <= c < n && cells[c] == 0)
  {
    if n > 0 {
      FilledExact(cells, n - 1);
    }
  }

  lemma BoardHasRoom(r: RosterState)
    requires |r.cells| == CELLS
    ensures FirstFree(r.cells, BENCH_SLOTS, CELLS) < CELLS <==> exists x, y :: BoardCellFree(r, x, y)
  {
    var c := FirstFree(r.cells, BENCH_SLOTS, CELLS);
    if c < CELLS {
      var l, x, y := EveryCellIsOne(c);
      assert BoardCellFree(r, x, y);
    }
  }

  lemma {:induction false} KindIsCounted(units: seq<UnitInstance>, champion: ChampionIndex, star: int)
    ensures CountOf(units, champion, star) == |Kind(units, champion, star)|
  {
    if units != [] {
      var n := |units| - 1;
      KindIsCounted(units[..n], champion, star);
      assert Kind(units, champion, star) == Kind(units[..n], champion, star) + if Is(units[n], champion, star) then {n} else {};
      assert n !in Kind(units[..n], champion, star);
    }
  }

  // Where the new unit goes: the lowest bench slot that is free; only if none is, the first free board cell,
  // row by row, while the slots in use are below the capacity; else nowhere.
  ghost predicate IsNewCell(r: RosterState, db: seq<Champion>, cell: int)
    requires |r.cells| == CELLS
  {
    if exists x :: BenchSlotFree(r, x) then exists x :: BenchSlotFree(r, x) && cell == CellAt(Bench, x, 0) && forall x' | x' < x :: !BenchSlotFree(r, x')
    else if SlotsInUseOnBoard(r, db) < r.capacity && exists x, y :: BoardCellFree(r, x, y)
    then exists x, y :: FirstOnBoard(r, x, y) && cell == CellAt(Board, x, y)
    else cell == -1
  }

  ghost predicate FirstOnBoard(r: RosterState, x: int, y: int) {
    BoardCellFree(r, x, y) && forall x', y' | y' < y || (y' == y && x' < x) :: !BoardCellFree(r, x', y')
  }

  lemma NewCellExact(r: RosterState, db: seq<Champion>)
    requires Layout(r)
    ensures |r.cells| == CELLS && IsNewCell(r, db, NewCell(r, db))
  {
    CountsAreCells(r, db);
    hide Layout, BoardCount, BenchCount, SlotsUpTo, BenchSlotFree, BoardCellFree, SlotsInUseOnBoard;
    FirstBenchSlot(r);
    FirstBoardCell(r);
  }

  lemma FirstBenchSlot(r: RosterState)
    requires |r.cells| == CELLS
    ensures var c := FirstFree(r.cells, 0, BENCH_SLOTS);
            && c <= BENCH_SLOTS && (c == BENCH_SLOTS ==> forall x :: !BenchSlotFree(r, x))
            && (c < BENCH_SLOTS ==> BenchSlotFree(r, c) && c == CellAt(Bench, c, 0) && forall x' | x' < c :: !BenchSlotFree(r, x'))
  {
  }

  lemma FirstBoardCell(r: RosterState)
    requires |r.cells| == CELLS
    ensures var c := FirstFree(r.cells, BENCH_SLOTS, CELLS);
            && c <= CELLS && (c == CELLS ==> forall x, y :: !BoardCellFree(r, x, y))
            && (c < CELLS ==> exists x, y :: FirstOnBoard(r, x, y) && c == CellAt(Board, x, y))
            && (c < CELLS ==> exists x, y :: BoardCellFree(r, x, y))
  {
    var c := FirstFree(r.cells, BENCH_SLOTS, CELLS);
    if c < CELLS {
      var l, x, y := EveryCellIsOne(c);
      assert BoardCellFree(r, x, y);
      forall x', y' | y' < y || (y' == y && x' < x)
        ensures !BoardCellFree(r, x', y')
      {
        CellsAreDifferent(Board, x', y', Board, x, y);
      }
      assert FirstOnBoard(r, x, y);
    }
  }

  // ---- Merging -------------------------------------------------------------------------------------

  // Who of two survives: board before bench before nowhere, rows from the back, columns from the left.
  predicate Precedes(a: int, b: int) {
    match LocationOf(a)
    case Board => LocationOf(b) != Board || a < b
    case Bench => (LocationOf(b) == Bench && a < b) || LocationOf(b) == Nowhere
    case Nowhere => false
  }

  // i, j and k are the first three of a kind, in this order.
  predicate FirstThree(units: seq<UnitInstance>, champion: ChampionIndex, star: int, i: nat, j: nat, k: nat) {
    && i < |units| && j < |units| && k < |units| && i != j && i != k && j != k
    && Is(units[i], champion, star) && Is(units[j], champion, star) && Is(units[k], champion, star)
    && Precedes(units[i].cell, units[j].cell) && Precedes(units[j].cell, units[k].cell)
    && forall m | 0 <= m < |units| && m != i && m != j && m != k && Is(units[m], champion, star) :: Precedes(units[k].cell, units[m].cell)
  }

  // Two units leave, the others stay in order.
  function Leave(units: seq<UnitInstance>, j: nat, k: nat): seq<UnitInstance>
    requires j < |units| && k < |units| && j != k
  {
    var lo, hi := if j < k then j else k, if j < k then k else j;
    units[..lo] + units[lo + 1..hi] + units[hi + 1..]
  }

  // Unit i becomes `up`, units j and k are gone and their cells empty; nothing else changes.
  ghost predicate UsesUp(r: RosterState, i: nat, j: nat, k: nat, up: UnitInstance, t: RosterState)
    requires i < |r.units| && j < |r.units| && k < |r.units| && j != k
  {
    && t.units == Leave(r.units[i := up], j, k) && |t.cells| == |r.cells|
    && (forall c | 0 <= c < |r.cells| :: t.cells[c] == if c == r.units[j].cell || c == r.units[k].cell then 0 else r.cells[c])
    && t == r.(units := t.units, cells := t.cells)
  }

  // Unit i goes up one star and takes over what j and k carry, slot by slot.
  ghost predicate TakesOver(defs: seq<ItemDef>, r: RosterState, star: int, i: nat, j: nat, k: nat, merge: Merge)
    requires i < |r.units| && j < |r.units| && k < |r.units|
  {
    && |r.units[j].items| == 3 && |r.units[k].items| == 3
    && merge.consumed == [r.units[j].id, r.units[k].id] && merge.previousStar == star
    && merge.upgraded == r.units[i].(star := star + 1, items := merge.upgraded.items)
    && AreCarried(defs, r.units[i].items, ItemsIn(r.units[j].items) + ItemsIn(r.units[k].items), merge.upgraded.items, merge.overflow)
  }

  // One merge, at the lowest star level with three of a kind: of the first three, the second and the third
  // are used up, the first goes up.
  ghost predicate MergesThree(defs: seq<ItemDef>, r: RosterState, champion: ChampionIndex, star: int, i: nat, j: nat, k: nat, merge: Merge, t: RosterState) {
    && 1 <= star < 3 && (forall s | 1 <= s < star :: |Kind(r.units, champion, s)| < 3) && FirstThree(r.units, champion, star, i, j, k)
    && TakesOver(defs, r, star, i, j, k, merge) && UsesUp(r, i, j, k, merge.upgraded, t)
  }

  ghost predicate MergesInto(defs: seq<ItemDef>, r: RosterState, champion: ChampionIndex, merge: Merge, t: RosterState) {
    exists star, i, j, k :: MergesThree(defs, r, champion, star, i, j, k, merge, t)
  }

  lemma MergeExact(r: RosterState, defs: seq<ItemDef>, champion: ChampionIndex)
    requires DatabaseOk(defs) && Seated(r) && AtMostOneLoose(r.units) && MergeOnce(r, defs, champion).Some?
    ensures var (t, merge) := MergeOnce(r, defs, champion).value; MergesInto(defs, r, champion, merge, t)
  {
    var star := MergeStar(r.units, champion, 1);
    MergeFromStar(r, defs, champion, 1);
    forall s | 1 <= s < star
      ensures |Kind(r.units, champion, s)| < 3
    {
      KindIsCounted(r.units, champion, s);
    }
    hide *;
    MaxStarIs();
    var (t, merge) := MergeAt(r, defs, champion, star);
    var i, j, k := ThreeMerge(r, defs, champion, star);
    assert MergesThree(defs, r, champion, star, i, j, k, merge, t) by {
      MergesThreeIs(defs, r, champion, star, i, j, k, merge, t);
    }
    MergesIntoIs(defs, r, champion, star, i, j, k, merge, t);
  }

  lemma MaxStarIs()
    ensures MAX_STAR_LEVEL == 3
  {
  }

  lemma MergesThreeIs(defs: seq<ItemDef>, r: RosterState, champion: ChampionIndex, star: int, i: nat, j: nat, k: nat, merge: Merge, t: RosterState)
    requires 1 <= star < 3 && (forall s | 1 <= s < star :: |Kind(r.units, champion, s)| < 3) && FirstThree(r.units, champion, star, i, j, k)
    requires i < |r.units| && j < |r.units| && k < |r.units| && j != k
    requires TakesOver(defs, r, star, i, j, k, merge) && UsesUp(r, i, j, k, merge.upgraded, t)
    ensures MergesThree(defs, r, champion, star, i, j, k, merge, t)
  {
    hide TakesOver, UsesUp, Kind;
  }

  lemma MergesIntoIs(defs: seq<ItemDef>, r: RosterState, champion: ChampionIndex, star: int, i: nat, j: nat, k: nat, merge: Merge, t: RosterState)
    requires MergesThree(defs, r, champion, star, i, j, k, merge, t)
    ensures MergesInto(defs, r, champion, merge, t)
  {
    hide MergesThree;
  }

  // The three by rank are the three by place.
  lemma ThreeMerge(r: RosterState, defs: seq<ItemDef>, champion: ChampionIndex, star: int) returns (i: nat, j: nat, k: nat)
    requires DatabaseOk(defs) && Seated(r) && AtMostOneLoose(r.units) && CountOf(r.units, champion, star) >= 3
    ensures |Three(r.units, champion, star)| >= 3 && i < |r.units| && j < |r.units| && k < |r.units| && j != k
    ensures FirstThree(r.units, champion, star, i, j, k)
    ensures var (t, merge) := MergeAt(r, defs, champion, star);
            TakesOver(defs, r, star, i, j, k, merge) && UsesUp(r, i, j, k, merge.upgraded, t)
  {
    hide Seated, DatabaseOk, Three, CountOf, MergeAt, Handover, AreCarried, ItemsIn, Leave, FirstThree, Without, AtMostOneLoose;
    var ks, b, p := MergeShape(r, defs, champion, star);
    ThreeAre(r.units, champion, star);
    ThreeComeFirst(r, champion, star);
    i, j, k := ks[0], ks[1], ks[2];
    InstanceAt(r, j);
    InstanceAt(r, k);
    HandoverExact(defs, r.units, ks);
    ConsumedAre(r, defs, champion, star);
    ThreeDiffer(r.units, champion, star);
    ShapeExact(r, i, j, k, b, p, MergeAt(r, defs, champion, star).1.upgraded);
  }

  lemma ThreeDiffer(units: seq<UnitInstance>, champion: ChampionIndex, star: int)
    requires |Three(units, champion, star)| >= 3
    ensures var ks := Three(units, champion, star); ks[0] != ks[1] && ks[0] != ks[2] && ks[1] != ks[2]
  {
    ThreeExact(units, champion, star);
    hide Three;
  }

  lemma ConsumedAre(r: RosterState, defs: seq<ItemDef>, champion: ChampionIndex, star: int)
    requires |Three(r.units, champion, star)| >= 3
    ensures var ks, merge := Three(r.units, champion, star), MergeAt(r, defs, champion, star).1;
            merge.consumed == [r.units[ks[1]].id, r.units[ks[2]].id] && merge.previousStar == star
  {
    hide Three, Handover;
  }

  lemma HandoverExact(defs: seq<ItemDef>, units: seq<UnitInstance>, ks: seq<nat>)
    requires DatabaseOk(defs) && |ks| >= 3 && (forall a | 0 <= a < |ks| :: ks[a] < |units|)
    requires |units[ks[1]].items| == 3 && |units[ks[2]].items| == 3
    ensures var (items, overflow) := Handover(defs, units, ks);
            AreCarried(defs, units[ks[0]].items, ItemsIn(units[ks[1]].items) + ItemsIn(units[ks[2]].items), items, overflow)
  {
    hide AreCarried, Carry, DatabaseOk, Carried, ItemsIn;
    CarriedExact(units[ks[1]].items);
    CarriedExact(units[ks[2]].items);
    CarryExact(defs, units[ks[0]].items, Carried(units[ks[1]].items) + Carried(units[ks[2]].items));
  }

  // The first three by rank are the first three by place.
  lemma ThreeComeFirst(r: RosterState, champion: ChampionIndex, star: int)
    requires Seated(r) && AtMostOneLoose(r.units) && CountOf(r.units, champion, star) >= 3
    ensures |Three(r.units, champion, star)| >= 3
    ensures var ks := Three(r.units, champion, star);
            FirstThree(r.units, champion, star, ks[0], ks[1], ks[2])
  {
    ThreeExact(r.units, champion, star);
    var ks := Three(r.units, champion, star);
    hide Three, CountOf;
    forall a, b | 0 <= a < b < |ks|
      ensures Precedes(r.units[ks[a]].cell, r.units[ks[b]].cell)
    {
      RankedPrecedes(r, ks[a], ks[b]);
    }
    forall m: nat | m < |r.units| && m != ks[0] && m != ks[1] && m != ks[2] && Is(r.units[m], champion, star)
      ensures Precedes(r.units[ks[2]].cell, r.units[m].cell)
    {
      assert m in ks;
      var c :| 0 <= c < |ks| && ks[c] == m;
    }
  }

  // Only the new unit may be nowhere.
  ghost predicate AtMostOneLoose(units: seq<UnitInstance>) {
    forall i, j | 0 <= i < j < |units| :: units[i].cell >= 0 || units[j].cell >= 0
  }

  lemma ShapeExact(r: RosterState, i: nat, j: nat, k: nat, b: nat, p: nat, up: UnitInstance)
    requires Seated(r) && i < |r.units| && j < |r.units| && k < |r.units| && i != j && i != k && j != k
    requires b == Shift(j, k) && b < |r.units| - 1 && p == Shift(b, Shift(j, i)) && p < |r.units| - 2
    ensures var t := Remove(Remove(r, j), b);
            && |t.units| == |r.units| - 2 && UsesUp(r, i, j, k, up, t.(units := t.units[p := up]))
  {
    WithoutAt(r.units, j, k);
    InstanceAt(r, j);
    InstanceAt(r, k);
    hide Seated, Leave;
    WithoutBoth(r.units[i := up], j, k);
    UpdateWithout(r.units, i, j, up);
    UpdateWithout(Roster.Without(r.units, j), Shift(j, i), b, up);
    hide Without;
  }

  lemma UpdateWithout(units: seq<UnitInstance>, i: nat, j: nat, up: UnitInstance)
    requires i < |units| && j < |units| && i != j
    ensures 0 <= Shift(j, i) < |Roster.Without(units, j)|
    ensures Roster.Without(units[i := up], j) == Roster.Without(units, j)[Shift(j, i) := up]
  {
  }

  lemma WithoutBoth(units: seq<UnitInstance>, j: nat, k: nat)
    requires j < |units| && k < |units| && j != k
    ensures 0 <= Shift(j, k) < |Roster.Without(units, j)| && Roster.Without(Roster.Without(units, j), Shift(j, k)) == Leave(units, j, k)
  {
  }

  lemma RankedPrecedes(r: RosterState, i: nat, j: nat)
    requires Seated(r) && i < |r.units| && j < |r.units| && i != j && Rank(r.units[i].cell) <= Rank(r.units[j].cell)
    requires r.units[i].cell >= 0 || r.units[j].cell >= 0
    ensures Precedes(r.units[i].cell, r.units[j].cell)
  {
    InstanceAt(r, i);
    InstanceAt(r, j);
    assert r.units[i].id != r.units[j].id;
    assert r.units[i].cell >= 0 ==> r.cells[r.units[i].cell] == r.units[i].id;
    assert r.units[j].cell >= 0 ==> r.cells[r.units[j].cell] == r.units[j].id;
  }

  // ---- Adding --------------------------------------------------------------------------------------

  // One merge after the other until no three of a kind are left below the top star level.
  ghost predicate MergesUp(defs: seq<ItemDef>, r: RosterState, champion: ChampionIndex, merges: seq<Merge>, t: RosterState)
    decreases |merges|
  {
    if merges == [] then t == r && forall star | 1 <= star < 3 :: |Kind(r.units, champion, star)| < 3
    else exists w :: MergesInto(defs, r, champion, merges[0], w) && MergesUp(defs, w, champion, merges[1..], t)
  }

  lemma {:induction false} CascadeExact(r: RosterState, defs: seq<ItemDef>, champion: ChampionIndex)
    requires DatabaseOk(defs) && Seated(r) && AtMostOneLoose(r.units)
    ensures var (t, merges) := MergeAll(r, defs, champion); MergesUp(defs, r, champion, merges, t)
    decreases |r.units|
  {
    hide Seated, DatabaseOk, MergesInto, MergeOnce, AtMostOneLoose, Kind;
    var once := MergeOnce(r, defs, champion);
    if once.None? {
      NothingLeft(r, defs, champion);
    } else {
      OnceSeated(r, defs, champion);
      MergeExact(r, defs, champion);
      OnceLoose(r, defs, champion);
      CascadeExact(once.value.0, defs, champion);
      var (t, merges) := MergeAll(r, defs, champion);
      assert merges[1..] == MergeAll(once.value.0, defs, champion).1;
    }
  }

  lemma NothingLeft(r: RosterState, defs: seq<ItemDef>, champion: ChampionIndex)
    requires MergeOnce(r, defs, champion).None?
    ensures forall star | 1 <= star < 3 :: |Kind(r.units, champion, star)| < 3
  {
    MergeFromStar(r, defs, champion, 1);
    forall star | 1 <= star < 3
      ensures |Kind(r.units, champion, star)| < 3
    {
      KindIsCounted(r.units, champion, star);
    }
  }

  lemma OnceLoose(r: RosterState, defs: seq<ItemDef>, champion: ChampionIndex)
    requires DatabaseOk(defs) && Seated(r) && AtMostOneLoose(r.units) && MergeOnce(r, defs, champion).Some?
    ensures AtMostOneLoose(MergeOnce(r, defs, champion).value.0.units)
  {
    hide Seated, DatabaseOk, MergesInto, MergeOnce, TakesOver, UsesUp, Leave, FirstThree, Kind;
    MergeExact(r, defs, champion);
    var (t, merge) := MergeOnce(r, defs, champion).value;
    var star, i: nat, j: nat, k: nat := SomeThree(defs, r, champion, merge, t);
    LooseAfter(r.units, i, j, k, merge.upgraded);
  }

  lemma SomeThree(defs: seq<ItemDef>, r: RosterState, champion: ChampionIndex, merge: Merge, t: RosterState)
    returns (star: int, i: nat, j: nat, k: nat)
    requires MergesInto(defs, r, champion, merge, t)
    ensures i < |r.units| && j < |r.units| && k < |r.units| && j != k && t.units == Leave(r.units[i := merge.upgraded], j, k)
    ensures merge.upgraded.cell == r.units[i].cell
  {
    hide Kind, AreCarried, ItemsIn, Leave;
    var star0, i0: nat, j0: nat, k0: nat :| MergesThree(defs, r, champion, star0, i0, j0, k0, merge, t);
    star, i, j, k := star0, i0, j0, k0;
  }

  lemma LooseAfter(units: seq<UnitInstance>, i: nat, j: nat, k: nat, up: UnitInstance)
    requires AtMostOneLoose(units) && i < |units| && j < |units| && k < |units| && j != k && up.cell == units[i].cell
    ensures AtMostOneLoose(Leave(units[i := up], j, k))
  {
    var us := units[i := up];
    LooseSame(units, us);
    hide AtMostOneLoose, Leave;
    WithoutBoth(us, j, k);
    LooseWithout(us, j);
    LooseWithout(Roster.Without(us, j), Shift(j, k));
  }

  lemma LooseSame(us: seq<UnitInstance>, vs: seq<UnitInstance>)
    requires AtMostOneLoose(us) && |us| == |vs| && forall m | 0 <= m < |us| :: vs[m].cell == us[m].cell
    ensures AtMostOneLoose(vs)
  {
  }

  lemma LooseWithout(units: seq<UnitInstance>, k: nat)
    requires AtMostOneLoose(units) && k < |units|
    ensures AtMostOneLoose(Roster.Without(units, k))
  {
    var left := Roster.Without(units, k);
    assert forall a | 0 <= a < |left| :: left[a] == units[if a < k then a else a + 1];
  }

  // The roster once the unit has come, before anything merges.
  function Joined(r: RosterState, u: UnitInstance): RosterState {
    r.(serial := r.serial + 1, units := r.units + [u], cells := if 0 <= u.cell < |r.cells| then r.cells[u.cell := u.id] else r.cells)
  }

  // A new unit with the owner's next id and nothing on it takes its cell and merges as far as it goes.
  ghost predicate IsAdded(defs: seq<ItemDef>, db: seq<Champion>, r: RosterState, champion: ChampionIndex, star: int, u: UnitInstance, merges: seq<Merge>, t: RosterState)
    requires |r.cells| == CELLS
  {
    && u == UnitInstance((r.owner + 1) * 0x100_0000 + r.serial, champion, star, u.cell, [0, 0, 0]) && IsNewCell(r, db, u.cell)
    && MergesUp(defs, Joined(r, u), champion, merges, t)
  }

  lemma AddExact(r: RosterState, db: seq<Champion>, defs: seq<ItemDef>, champion: ChampionIndex, star: int)
    requires DatabaseOk(defs) && Layout(r)
    ensures |r.cells| == CELLS && Seated(r)
    ensures var (t, merges) := Add(r, db, defs, champion, star);
            if MayAdd(r, db, champion, star) then IsAdded(defs, db, r, champion, star, NewUnit(r, db, champion, star), merges, t) else t == r && merges == []
  {
    LaidOutCells(r);
    AddAllowedExactly(r, db, champion, star);
    NewCellExact(r, db);
    if CanAdd(r, db, champion, star) {
      var u := NewUnit(r, db, champion, star);
      NewUnitSeated(r, db, champion, star);
      assert Append(r, u) == Joined(r, u);
      LaidOutFirst(r, u);
      hide Layout, Seated, DatabaseOk, CanAdd, MergeAll, MergesUp, IsNewCell, NewCell, AtMostOneLoose;
      CascadeExact(Append(r, u), defs, champion);
    }
  }

  // A new unit finds its place or completes a merge -- and, while the board is locked, leaves everybody on
  // it as they are.
  ghost predicate MayTakeIn(r: RosterState, db: seq<Champion>, defs: seq<ItemDef>, champion: ChampionIndex, star: int, locked: bool)
    requires Seated(r)
  {
    MayAdd(r, db, champion, star) && (locked ==> BoardOf(Add(r, db, defs, champion, star).0.units) == BoardOf(r.units))
  }

  lemma MayTakeInIs(r: RosterState, db: seq<Champion>, defs: seq<ItemDef>, champion: ChampionIndex, star: int, locked: bool)
    requires Layout(r)
    ensures Seated(r)
    ensures MayTakeIn(r, db, defs, champion, star, locked)
            <==> CanAdd(r, db, champion, star) && (locked ==> BenchOnly(r, db, defs, champion, star))
    ensures BenchOnly(r, db, defs, champion, star) ==> BoardOf(Add(r, db, defs, champion, star).0.units) == BoardOf(r.units)
  {
    AddAllowedExactly(r, db, champion, star);
    IsSeated(r);
    BenchOnlyIsExact(r, db, defs, champion, star);
    hide Layout, Seated, CanAdd, MayAdd, BenchOnly, Add, BoardOf;
  }

  lemma IsSeated(r: RosterState)
    requires Layout(r)
    ensures Seated(r)
  {
  }

  lemma LaidOutFirst(r: RosterState, u: UnitInstance)
    requires Layout(r)
    ensures AtMostOneLoose(r.units + [u])
  {
  }
}
