// A player's bench and board (server/src/UnitRoster.cpp): the class, each method proved against its
// specification on values.
module UnitRosters {
  import opened Wrappers
  import opened Actions
  import opened Items
  import opened ChampionPool
  import opened Roster
  import opened RosterMerge
  import opened RosterLaws
  import opened Arithmetic

  // ---- Moving --------------------------------------------------------------------------------------

  // A move to (location, x, y): onto an empty cell, or a swap.
  function Moved(r: RosterState, db: seq<Champion>, id: UnitId, location: Location, x: int, y: int): (RosterState, ActionResult)
    requires |r.cells| == CELLS
  {
    var to, k := CellAt(location, x, y), IndexOf(r.units, id);
    if to < 0 then (r, InvalidSlot)
    else if k == |r.units| then (r, InvalidUnit)
    else if r.units[k].cell == to then (r, Ok)
    else if IsPlant(db, r.units[k].champion) && location != Board then (r, InvalidSlot)
    else if r.cells[to] == 0 then
      if location == Board && !OnBoard(r.units[k]) && BoardCount(db, r.units) + Slots(db, r.units[k].champion) > r.capacity then (r, BoardFull)
      else (Reseat(r, k, to), Ok)
    else
      var m := IndexOf(r.units, r.cells[to]);
      if m == |r.units| || r.units[k].cell < 0 || r.units[k].cell >= CELLS || r.units[m].cell < 0 || r.units[m].cell >= CELLS then (r, InvalidUnit)
      else if IsPlant(db, r.units[m].champion) && !OnBoard(r.units[k]) then (r, InvalidSlot)
      else if SwapDelta(r, db, k, m) > 0 && BoardCount(db, r.units) + SwapDelta(r, db, k, m) > r.capacity then (r, BoardFull)
      else (Swap(r, k, m), Ok)
  }

  // How many more board slots are in use after k and m trade places.
  function SwapDelta(r: RosterState, db: seq<Champion>, k: nat, m: nat): int
    requires k < |r.units| && m < |r.units|
  {
    var u, v := r.units[k], r.units[m];
    if OnBoard(u) == OnBoard(v) then 0
    else if OnBoard(v) then Slots(db, u.champion) - Slots(db, v.champion)
    else Slots(db, v.champion) - Slots(db, u.champion)
  }

  // The same units, except for where they are.
  ghost predicate SameButCells(us: seq<UnitInstance>, vs: seq<UnitInstance>) {
    |us| == |vs| && forall i | 0 <= i < |us| :: vs[i] == us[i].(cell := vs[i].cell)
  }

  lemma {:induction false} SameButCellsTotals(defs: seq<ItemDef>, us: seq<UnitInstance>, vs: seq<UnitInstance>, c: ChampionIndex, s: int, x: ItemId)
    requires SameButCells(us, vs)
    ensures CountOf(us, c, s) == CountOf(vs, c, s) && Weight(us, c) == Weight(vs, c) && UnitParts(defs, us, x) == UnitParts(defs, vs, x)
  {
    if us != [] {
      hide PartsOf, Copies;
      var n := |us| - 1;
      assert vs[n] == us[n].(cell := vs[n].cell);
      SameButCellsTotals(defs, us[..n], vs[..n], c, s, x);
    }
  }

  function BoardSlots(db: seq<Champion>, u: UnitInstance): int {
    if OnBoard(u) then Slots(db, u.champion) else 0
  }

  lemma {:induction false} BoardCountUpdate(db: seq<Champion>, units: seq<UnitInstance>, k: nat, u: UnitInstance)
    requires k < |units|
    ensures BoardCount(db, units[k := u]) == BoardCount(db, units) - BoardSlots(db, units[k]) + BoardSlots(db, u)
  {
    var init := units[..|units| - 1];
    if k == |units| - 1 {
      assert units[k := u][..|units| - 1] == init;
    } else {
      BoardCountUpdate(db, init, k, u);
      assert units[k := u][..|units| - 1] == init[k := u];
    }
  }

  // A move keeps the layout, every unit's identity, and never pushes the board over its capacity.
  lemma MovedKeeps(r: RosterState, db: seq<Champion>, id: UnitId, location: Location, x: int, y: int)
    requires ChampionsOk(db) && Layout(r) && Settled(db, r.units)
    ensures var (t, result) := Moved(r, db, id, location, x, y);
            && Layout(t) && Settled(db, t.units) && SameButCells(r.units, t.units) && t == r.(units := t.units, cells := t.cells)
            && (result != Ok ==> t == r)
            && (BoardCount(db, t.units) <= r.capacity || BoardCount(db, t.units) <= BoardCount(db, r.units))
  {
    hide Layout, Seated, Settled, IsPlant, ChampionsOk, BoardCount, SwapDelta, Reseat, Swap, SameButCells;
    LayoutSeated(r);
    SeatedCells(r);
    SameButCellsRefl(r.units);
    var to, k := CellAt(location, x, y), IndexOf(r.units, id);
    if to >= 0 && k < |r.units| && r.units[k].cell != to && (IsPlant(db, r.units[k].champion) ==> location == Board) {
      assert LocationOf(to) == location;
      if r.cells[to] == 0 {
        ReseatKeeps(r, db, k, to);
      } else {
        OccupantThere(r, to);
        var m := IndexOf(r.units, r.cells[to]);
        InstanceAt(r, k);
        InstanceAt(r, m);
        if IsPlant(db, r.units[m].champion) ==> OnBoard(r.units[k]) {
          SwapKeeps(r, db, k, m);
        }
      }
    }
  }

  lemma SameButCellsRefl(us: seq<UnitInstance>)
    ensures SameButCells(us, us)
  {
  }

  lemma ReseatKeeps(r: RosterState, db: seq<Champion>, k: nat, to: int)
    requires ChampionsOk(db) && Layout(r) && Settled(db, r.units) && k < |r.units| && 0 <= to < CELLS && r.cells[to] == 0
    requires IsPlant(db, r.units[k].champion) ==> LocationOf(to) == Board
    ensures var t := Reseat(r, k, to);
            && Layout(t) && SameButCells(r.units, t.units) && Settled(db, t.units) && t == r.(units := t.units, cells := t.cells)
            && BoardCount(db, t.units) <= BoardCount(db, r.units) + if LocationOf(to) == Board && !OnBoard(r.units[k]) then Slots(db, r.units[k].champion) else 0
  {
    hide CountOf, BoardCount;
    ReseatSeated(r, k, to);
    BoardCountUpdate(db, r.units, k, r.units[k].(cell := to));
    MovedSettled(r, db, Reseat(r, k, to));
  }

  lemma OccupantThere(r: RosterState, to: int)
    requires Layout(r) && 0 <= to < CELLS && r.cells[to] != 0
    ensures var m := IndexOf(r.units, r.cells[to]); m < |r.units| && r.units[m].cell == to
  {
    assert Sits(r.units, to, r.cells[to]);
    var i :| 0 <= i < |r.units| && r.units[i].cell == to && r.units[i].id == r.cells[to];
    IndexOfUnit(r.units, i);
  }

  lemma SwapKeeps(r: RosterState, db: seq<Champion>, k: nat, m: nat)
    requires Layout(r) && Settled(db, r.units) && k < |r.units| && m < |r.units| && k != m
    requires IsPlant(db, r.units[k].champion) ==> OnBoard(r.units[m])
    requires IsPlant(db, r.units[m].champion) ==> OnBoard(r.units[k])
    ensures var t := Swap(r, k, m); Layout(t) && SameButCells(r.units, t.units) && Settled(db, t.units) && t == r.(units := t.units, cells := t.cells)
    ensures BoardCount(db, Swap(r, k, m).units) == BoardCount(db, r.units) + SwapDelta(r, db, k, m)
  {
    SwapSeated(r, k, m);
    var u, v := r.units[k], r.units[m];
    hide CountOf, Seated, AllPlaced, BoardCount;
    MovedSettled(r, db, Swap(r, k, m));
    hide Layout, Settled;
    SwapCount(r, db, k, m);
  }

  // Unit k comes to cell `to`. If somebody is there, the two trade places.
  ghost predicate MovesTo(r: RosterState, k: nat, to: int, t: RosterState)
    requires k < |r.units| && 0 <= to < |r.cells| && 0 <= r.units[k].cell < |r.cells|
  {
    var u := r.units[k];
    if u.cell == to then t == r
    else if r.cells[to] == 0 then t == r.(units := r.units[k := u.(cell := to)], cells := r.cells[u.cell := 0][to := u.id])
    else
      exists m: nat :: m < |r.units| && r.units[m].id == r.cells[to] && r.units[m].cell == to
        && t == r.(units := r.units[k := u.(cell := to)][m := r.units[m].(cell := u.cell)], cells := r.cells[u.cell := r.cells[to]][to := u.id])
  }

  // No plant leaves the board, and who joins it finds room there: coming to an empty cell, the unit's slots
  // fit besides those in use; in a swap, no more slots are in use than before, or no more than fit.
  ghost predicate MayMoveTo(r: RosterState, db: seq<Champion>, k: nat, to: int, t: RosterState)
    requires |r.cells| == |t.cells| == CELLS && k < |r.units| && 0 <= to < CELLS
  {
    var u := r.units[k];
    || u.cell == to
    || (&& (forall m | 0 <= m < |r.units| && m < |t.units| && IsPlant(db, r.units[m].champion) && t.units[m] != r.units[m] :: OnBoard(t.units[m]))
        && if r.cells[to] == 0 then OnBoard(u.(cell := to)) && !OnBoard(u) ==> SlotsInUseOnBoard(r, db) + Slots(db, u.champion) <= r.capacity
           else SlotsInUseOnBoard(t, db) <= SlotsInUseOnBoard(r, db) || SlotsInUseOnBoard(t, db) <= r.capacity)
  }

  // A move to a place that exists, of a unit that is there, is accepted exactly if nothing of this speaks
  // against it; else nothing changes.
  lemma MoveExact(r: RosterState, db: seq<Champion>, id: UnitId, location: Location, x: int, y: int) returns (w: RosterState)
    requires Layout(r)
    ensures |r.cells| == |w.cells| == CELLS
    ensures var k, to := IndexOf(r.units, id), CellAt(location, x, y);
            var (t, result) := Moved(r, db, id, location, x, y);
            && (k < |r.units| && to >= 0 ==> 0 <= r.units[k].cell < CELLS && MovesTo(r, k, to, w))
            && (result == Ok <==> k < |r.units| && to >= 0 && MayMoveTo(r, db, k, to, w))
            && t == if result == Ok then w else r
  {
    hide *;
    LaidOutCells(r);
    NamedCells();
    var to, k := CellAt(location, x, y), IndexOf(r.units, id);
    w := r;
    if to >= 0 && k < |r.units| {
      if r.units[k].cell == to {
        MovedNowhere(r, db, id, location, x, y);
      } else if r.cells[to] == 0 {
        w := Reseat(r, k, to);
        MovedOnto(r, db, id, location, x, y);
        MoveOnto(r, db, k, to);
      } else {
        OccupantThere(r, to);
        var m := IndexOf(r.units, r.cells[to]);
        w := Swap(r, k, m);
        MovedAcross(r, db, id, location, x, y);
        TradePlaces(r, db, k, m);
      }
    } else {
      MovedNowhere(r, db, id, location, x, y);
    }
  }

  // The roster after a move that the rules allow; MayMove: there is one.
  ghost predicate IsMove(r: RosterState, db: seq<Champion>, id: UnitId, location: Location, x: int, y: int, t: RosterState) {
    var k, to := IndexOf(r.units, id), CellAt(location, x, y);
    && k < |r.units| && to >= 0 && |r.cells| == |t.cells| == CELLS && 0 <= r.units[k].cell < CELLS
    && MovesTo(r, k, to, t) && MayMoveTo(r, db, k, to, t)
  }

  ghost predicate MayMove(r: RosterState, db: seq<Champion>, id: UnitId, location: Location, x: int, y: int) {
    exists t :: IsMove(r, db, id, location, x, y, t)
  }

  lemma MoveIs(r: RosterState, db: seq<Champion>, id: UnitId, location: Location, x: int, y: int)
    requires Layout(r)
    ensures |r.cells| == CELLS
    ensures var (t, result) := Moved(r, db, id, location, x, y);
            && (result == Ok <==> MayMove(r, db, id, location, x, y))
            && if result == Ok then IsMove(r, db, id, location, x, y, t) else t == r
  {
    var w := MoveExact(r, db, id, location, x, y);
    hide Moved, Layout, MovesTo, MayMoveTo, IndexOf, CellAt;
    if t :| IsMove(r, db, id, location, x, y, t) {
      OneMove(r, IndexOf(r.units, id), CellAt(location, x, y), t, w);
      assert MayMoveTo(r, db, IndexOf(r.units, id), CellAt(location, x, y), w);
      assert Moved(r, db, id, location, x, y).1 == Ok;
    }
    if Moved(r, db, id, location, x, y).1 == Ok {
      assert IsMove(r, db, id, location, x, y, w);
    }
  }

  lemma OneMove(r: RosterState, k: nat, to: int, t: RosterState, w: RosterState)
    requires Layout(r) && k < |r.units| && 0 <= to < |r.cells| && 0 <= r.units[k].cell < |r.cells| && MovesTo(r, k, to, t) && MovesTo(r, k, to, w)
    ensures t == w
  {
    LaidOutCells(r);
  }

  lemma NamedCells()
    ensures CELLS == 37
  {
  }

  predicate MayEnter(r: RosterState, db: seq<Champion>, k: nat, to: int)
    requires k < |r.units|
  {
    && (IsPlant(db, r.units[k].champion) ==> LocationOf(to) == Board)
    && (LocationOf(to) == Board && !OnBoard(r.units[k]) ==> BoardCount(db, r.units) + Slots(db, r.units[k].champion) <= r.capacity)
  }

  predicate MayTrade(r: RosterState, db: seq<Champion>, k: nat, m: nat)
    requires k < |r.units| && m < |r.units|
  {
    && (IsPlant(db, r.units[k].champion) ==> OnBoard(r.units[m])) && (IsPlant(db, r.units[m].champion) ==> OnBoard(r.units[k]))
    && (SwapDelta(r, db, k, m) <= 0 || BoardCount(db, r.units) + SwapDelta(r, db, k, m) <= r.capacity)
  }

  lemma MovedNowhere(r: RosterState, db: seq<Champion>, id: UnitId, location: Location, x: int, y: int)
    requires |r.cells| == CELLS
    ensures var k, to := IndexOf(r.units, id), CellAt(location, x, y);
            && (to < 0 || k == |r.units| ==> Moved(r, db, id, location, x, y).0 == r && Moved(r, db, id, location, x, y).1 != Ok)
            && (to >= 0 && k < |r.units| && r.units[k].cell == to ==>
                  0 <= to < CELLS && Moved(r, db, id, location, x, y) == (r, Ok) && MayMoveTo(r, db, k, to, r) && MovesTo(r, k, to, r))
  {
    hide IndexOf, SlotsInUseOnBoard;
  }

  lemma MovedOnto(r: RosterState, db: seq<Champion>, id: UnitId, location: Location, x: int, y: int)
    requires |r.cells| == CELLS
    requires var k, to := IndexOf(r.units, id), CellAt(location, x, y); k < |r.units| && 0 <= to < CELLS && r.units[k].cell != to && r.cells[to] == 0
    ensures var k, to := IndexOf(r.units, id), CellAt(location, x, y);
            var (t, result) := Moved(r, db, id, location, x, y);
            (result == Ok <==> MayEnter(r, db, k, to)) && t == if result == Ok then Reseat(r, k, to) else r
  {
    hide IndexOf, Slots, BoardCount, IsPlant, Reseat;
  }

  lemma MovedAcross(r: RosterState, db: seq<Champion>, id: UnitId, location: Location, x: int, y: int)
    requires Layout(r) && |r.cells| == CELLS
    requires var k, to := IndexOf(r.units, id), CellAt(location, x, y); k < |r.units| && 0 <= to < CELLS && r.units[k].cell != to && r.cells[to] != 0
    ensures var k, to := IndexOf(r.units, id), CellAt(location, x, y);
            var m := IndexOf(r.units, r.cells[to]);
            var (t, result) := Moved(r, db, id, location, x, y);
            && m < |r.units| && r.units[m].cell == to && 0 <= r.units[k].cell < CELLS && r.cells[to] == r.units[m].id
            && (result == Ok <==> MayTrade(r, db, k, m)) && t == if result == Ok then Swap(r, k, m) else r
  {
    LaidOutCells(r);
    hide Layout, IndexOf, SwapDelta, BoardCount, IsPlant;
    OccupantThere(r, CellAt(location, x, y));
  }

  lemma MoveOnto(r: RosterState, db: seq<Champion>, k: nat, to: int)
    requires Layout(r) && |r.cells| == CELLS && k < |r.units| && 0 <= to < CELLS && r.cells[to] == 0 && r.units[k].cell != to
    ensures var w := Reseat(r, k, to);
            0 <= r.units[k].cell < CELLS && MovesTo(r, k, to, w) && |w.cells| == CELLS && (MayMoveTo(r, db, k, to, w) <==> MayEnter(r, db, k, to))
  {
    LaidOutCells(r);
    CountsAreCells(r, db);
    hide Layout, SlotsInUseOnBoard, IsPlant, Slots, BoardCount;
    var w := Reseat(r, k, to);
    assert w.units[k] != r.units[k];
    assert forall m | 0 <= m < |r.units| && m != k :: w.units[m] == r.units[m];
  }

  lemma TradePlaces(r: RosterState, db: seq<Champion>, k: nat, m: nat)
    requires Layout(r) && |r.cells| == CELLS && k < |r.units| && m < |r.units|
    requires 0 <= r.units[k].cell < CELLS && 0 <= r.units[m].cell < CELLS && r.units[k].cell != r.units[m].cell
    requires r.cells[r.units[m].cell] == r.units[m].id != 0
    ensures var w, to := Swap(r, k, m), r.units[m].cell;
            MovesTo(r, k, to, w) && |w.cells| == CELLS && (MayMoveTo(r, db, k, to, w) <==> MayTrade(r, db, k, m))
  {
    var w, to := Swap(r, k, m), r.units[m].cell;
    hide *;
    SwapSeated(r, k, m);
    CountsAreCells(r, db);
    CountsAreCells(w, db);
    SwapCount(r, db, k, m);
    TradedPlaces(r, k, m);
    TradeAllowed(r, db, k, m, w);
  }

  lemma TradeAllowed(r: RosterState, db: seq<Champion>, k: nat, m: nat, w: RosterState)
    requires |r.cells| == |w.cells| == CELLS && k < |r.units| && m < |r.units| == |w.units| && 0 <= r.units[m].cell < CELLS
    requires r.units[k].cell != r.units[m].cell && r.cells[r.units[m].cell] != 0
    requires w.units[k] == r.units[k].(cell := r.units[m].cell) && w.units[m] == r.units[m].(cell := r.units[k].cell)
    requires forall i | 0 <= i < |r.units| && i != k && i != m :: w.units[i] == r.units[i]
    requires SlotsInUseOnBoard(r, db) == BoardCount(db, r.units) && SlotsInUseOnBoard(w, db) == BoardCount(db, r.units) + SwapDelta(r, db, k, m)
    ensures MayMoveTo(r, db, k, r.units[m].cell, w) <==> MayTrade(r, db, k, m)
  {
    hide SlotsInUseOnBoard, BoardCount, SwapDelta, IsPlant;
  }

  lemma TradedPlaces(r: RosterState, k: nat, m: nat)
    requires |r.cells| == CELLS && k < |r.units| && m < |r.units|
    requires 0 <= r.units[k].cell < CELLS && 0 <= r.units[m].cell < CELLS && r.units[k].cell != r.units[m].cell
    requires r.cells[r.units[m].cell] == r.units[m].id != 0
    ensures var w := Swap(r, k, m);
            && MovesTo(r, k, r.units[m].cell, w) && |w.cells| == CELLS && |w.units| == |r.units|
            && w.units[k] == r.units[k].(cell := r.units[m].cell) && w.units[m] == r.units[m].(cell := r.units[k].cell)
            && forall i | 0 <= i < |r.units| && i != k && i != m :: w.units[i] == r.units[i]
  {
    var w := Swap(r, k, m);
    assert w.cells == r.cells[r.units[k].cell := r.units[m].id][r.units[m].cell := r.units[k].id];
  }

  lemma SwapCount(r: RosterState, db: seq<Champion>, k: nat, m: nat)
    requires k < |r.units| && m < |r.units| && k != m && 0 <= r.units[k].cell < |r.cells| && 0 <= r.units[m].cell < |r.cells|
    ensures BoardCount(db, Swap(r, k, m).units) == BoardCount(db, r.units) + SwapDelta(r, db, k, m)
  {
    var u, v := r.units[k], r.units[m];
    hide BoardCount;
    BoardCountUpdate(db, r.units, k, u.(cell := v.cell));
    BoardCountUpdate(db, r.units[k := u.(cell := v.cell)], m, v.(cell := u.cell));
  }

  // "Swaps … are always allowed" (server/include/w2f/UnitRoster.h:66-67) holds exactly as long as no
  // plant would come to sit on the bench and the slots the swap adds, if any, fit the capacity.
  lemma SwapAllowedExactly(r: RosterState, db: seq<Champion>, id: UnitId, location: Location, x: int, y: int)
    requires Layout(r)
    requires var k, to := IndexOf(r.units, id), CellAt(location, x, y);
             k < |r.units| && to >= 0 && r.cells[to] != 0 && r.units[k].cell != to
    ensures var k, to := IndexOf(r.units, id), CellAt(location, x, y);
            var m := IndexOf(r.units, r.cells[to]);
            var (t, result) := Moved(r, db, id, location, x, y);
            && m < |r.units| && r.units[m].cell == to
            && (result == Ok <==> !PlantToBench(r, db, k, m, location)
                                  && (SwapDelta(r, db, k, m) <= 0 || BoardCount(db, r.units) + SwapDelta(r, db, k, m) <= r.capacity))
            && (result == InvalidSlot <==> PlantToBench(r, db, k, m, location))
            && (result == Ok ==> t.units == r.units[k := r.units[k].(cell := to)][m := r.units[m].(cell := r.units[k].cell)])
            && (result != Ok ==> t == r && result in {InvalidSlot, BoardFull})
  {
    hide Seated, BoardCount, SwapDelta, IsPlant;
    LayoutSeated(r);
    SeatedCells(r);
    var k, to := IndexOf(r.units, id), CellAt(location, x, y);
    OccupantThere(r, to);
    InstanceAt(r, k);
  }

  // The swap of k and m would put a plant on the bench.
  predicate PlantToBench(r: RosterState, db: seq<Champion>, k: nat, m: nat, location: Location)
    requires k < |r.units| && m < |r.units|
  {
    (IsPlant(db, r.units[k].champion) && location != Board) || (IsPlant(db, r.units[m].champion) && !OnBoard(r.units[k]))
  }

  // Champions that are no plants and take as many slots as each other do always trade places.
  lemma EqualsAlwaysSwap(r: RosterState, db: seq<Champion>, id: UnitId, location: Location, x: int, y: int)
    requires Layout(r)
    requires var k, to := IndexOf(r.units, id), CellAt(location, x, y);
             k < |r.units| && to >= 0 && r.cells[to] != 0 && r.units[k].cell != to
    requires forall i, j | 0 <= i < |r.units| && 0 <= j < |r.units| ::
               !IsPlant(db, r.units[i].champion) && Slots(db, r.units[i].champion) == Slots(db, r.units[j].champion)
    ensures Moved(r, db, id, location, x, y).1 == Ok
  {
    hide Layout, Moved, BoardCount;
    SwapAllowedExactly(r, db, id, location, x, y);
  }

  // The roster of seat 0 with one unit on bench slot 0 and one on the first cell of the board.
  function OneAndOne(bench: ChampionIndex, board: ChampionIndex, capacity: int): RosterState {
    RosterState(0, 3, capacity, [UnitInstance(SERIALS + 1, bench, 1, 0, [0, 0, 0]), UnitInstance(SERIALS + 2, board, 1, BENCH_SLOTS, [0, 0, 0])],
                seq(CELLS, c => if c == 0 then SERIALS + 1 else if c == BENCH_SLOTS then SERIALS + 2 else 0))
  }

  lemma OneAndOneFits(db: seq<Champion>, bench: ChampionIndex, board: ChampionIndex, capacity: int)
    requires bench < |db| && board < |db| && !db[bench].plant
    ensures var r := OneAndOne(bench, board, capacity);
            && Layout(r) && Settled(db, r.units) && BoardCount(db, r.units) == Slots(db, board)
            && IndexOf(r.units, SERIALS + 1) == 0 && IndexOf(r.units, SERIALS + 2) == 1
            && SwapDelta(r, db, 0, 1) == SwapDelta(r, db, 1, 0) == Slots(db, bench) - Slots(db, board)
  {
    var r := OneAndOne(bench, board, capacity);
    OneAndOneSeated(bench, board, capacity);
    hide Layout;
    BoardCountPair(db, r.units[0], r.units[1]);
    assert r.units == [r.units[0], r.units[1]] && r.units[1..] == [r.units[1]];
    hide BoardCount;
    forall c, s
      ensures CountOf(r.units, c, s) <= 2
    {
      CountAtMost(r.units, c, s);
    }
  }

  lemma OneAndOneSeated(bench: ChampionIndex, board: ChampionIndex, capacity: int)
    ensures Layout(OneAndOne(bench, board, capacity))
  {
    var r := OneAndOne(bench, board, capacity);
    assert r.units[0].cell == 0 && r.units[1].cell == BENCH_SLOTS;
  }

  lemma BoardCountPair(db: seq<Champion>, u: UnitInstance, v: UnitInstance)
    ensures BoardCount(db, [u, v]) == BoardSlots(db, u) + BoardSlots(db, v)
  {
    assert [u, v][..1] == [u] && [u][..0] == [];
    assert BoardCount(db, [u]) == BoardSlots(db, u);
  }

  lemma {:induction false} CountAtMost(units: seq<UnitInstance>, c: ChampionIndex, s: int)
    ensures CountOf(units, c, s) <= |units|
  {
    if units != [] {
      CountAtMost(units[..|units| - 1], c, s);
    }
  }

  const PLAIN := Champion(1, true, false, false, 1, 0)
  const TWO_SLOTS := Champion(1, false, false, false, 2, 0)
  const A_PLANT := Champion(1, false, true, false, 0, 0)

  // A champion of two slots may not trade places with one of one slot on a full board.
  lemma TwoSlotSwapRefused()
    ensures var r, db := OneAndOne(1, 0, 1), [PLAIN, TWO_SLOTS];
            && ChampionsOk(db) && Layout(r) && Settled(db, r.units) && BoardCount(db, r.units) <= r.capacity
            && r.cells[CellAt(Board, 0, 0)] != 0 && Moved(r, db, SERIALS + 1, Board, 0, 0) == (r, BoardFull)
  {
    hide Layout, Settled, BoardCount, SwapDelta, IndexOf;
    OneAndOneFits([PLAIN, TWO_SLOTS], 1, 0, 1);
  }

  // However much room the board has, nobody trades places with a plant across the bench.
  lemma PlantSwapRefused()
    ensures var r, db := OneAndOne(0, 1, 9), [PLAIN, A_PLANT];
            && ChampionsOk(db) && Layout(r) && Settled(db, r.units) && BoardCount(db, r.units) == 0
            && r.cells[CellAt(Board, 0, 0)] != 0 && Moved(r, db, SERIALS + 1, Board, 0, 0) == (r, InvalidSlot)
            && r.cells[CellAt(Bench, 0, 0)] != 0 && Moved(r, db, SERIALS + 2, Bench, 0, 0) == (r, InvalidSlot)
  {
    hide Layout, Settled, BoardCount, SwapDelta, IndexOf;
    OneAndOneFits([PLAIN, A_PLANT], 0, 1, 9);
  }

  lemma MovedSettled(r: RosterState, db: seq<Champion>, t: RosterState)
    requires Settled(db, r.units) && SameButCells(r.units, t.units)
    requires AllKnown(db, t.units)
    ensures Settled(db, t.units)
  {
    hide CountOf;
    forall c: nat, s | s < MAX_STAR_LEVEL && !IsPlant(db, c)
      ensures CountOf(t.units, c, s) <= 2
    {
      SameButCellsTotals([], r.units, t.units, c, s, 0);
    }
  }

  // ---- Items ---------------------------------------------------------------------------------------

  function Equipped(r: RosterState, defs: seq<ItemDef>, id: UnitId, item: ItemId): (RosterState, ActionResult) {
    var k := IndexOf(r.units, id);
    if k == |r.units| then (r, InvalidUnit)
    else if item == 0 then (r, InvalidItem)
    else
      var placed := PlaceItem(defs, r.units[k].items, item);
      if placed.None? then (r, ItemsFull) else (Improve(r, k, r.units[k].star, placed.value), Ok)
  }

  // An item goes onto a unit: combined with its first partner, else in the first empty slot, else not at all.
  ghost predicate EquipsOnto(r: RosterState, defs: seq<ItemDef>, id: UnitId, item: ItemId, t: RosterState, result: ActionResult) {
    var k := IndexOf(r.units, id);
    if k == |r.units| then t == r && result == InvalidUnit
    else if item == 0 then t == r && result == InvalidItem
    else exists placed :: IsPlaced(defs, r.units[k].items, item, placed) && EquipsAs(r, k, placed, t, result)
  }

  ghost predicate EquipsAs(r: RosterState, k: nat, placed: Option<seq<ItemId>>, t: RosterState, result: ActionResult)
    requires k < |r.units|
  {
    match placed
    case Some(items) => result == Ok && t == r.(units := r.units[k := r.units[k].(items := items)])
    case None => result == ItemsFull && t == r
  }

  lemma EquippedExact(r: RosterState, defs: seq<ItemDef>, id: UnitId, item: ItemId)
    requires DatabaseOk(defs)
    ensures var (t, result) := Equipped(r, defs, id, item); EquipsOnto(r, defs, id, item, t, result)
  {
    hide PlaceItem, IsPlaced, DatabaseOk, IndexOf;
    var k := IndexOf(r.units, id);
    if k < |r.units| && item != 0 {
      PlaceItemExact(defs, r.units[k].items, item);
      var (t, result) := Equipped(r, defs, id, item);
      assert EquipsAs(r, k, PlaceItem(defs, r.units[k].items, item), t, result);
    }
  }

  function Unequipped(r: RosterState, id: UnitId, slot: int): (RosterState, ActionResult, ItemId) {
    var k := IndexOf(r.units, id);
    if k == |r.units| then (r, InvalidUnit, 0)
    else if slot < 0 || slot >= MAX_ITEMS_PER_UNIT || slot >= |r.units[k].items| || r.units[k].items[slot] == 0 then (r, InvalidSlot, 0)
    else (Improve(r, k, r.units[k].star, r.units[k].items[slot := 0]), Ok, r.units[k].items[slot])
  }

  // Who stands where on the board, whatever they carry.
  function Formation(units: seq<UnitInstance>): seq<UnitInstance> {
    Strip(BoardOf(units))
  }

  function Strip(units: seq<UnitInstance>): (r: seq<UnitInstance>)
    ensures |r| == |units| && forall i | 0 <= i < |units| :: r[i] == units[i].(items := [])
  {
    seq(|units|, i requires 0 <= i < |units| => units[i].(items := []))
  }

  // An item more or less changes no formation.
  lemma {:induction false} ItemsKeepFormation(units: seq<UnitInstance>, k: nat, items: seq<ItemId>)
    requires k < |units|
    ensures Formation(units[k := units[k].(items := items)]) == Formation(units)
  {
    var n := |units| - 1;
    var next := units[k := units[k].(items := items)];
    if k == n {
      assert next[..n] == units[..n];
    } else {
      ItemsKeepFormation(units[..n], k, items);
      assert next[..n] == units[..n][k := units[k].(items := items)];
    }
    assert next[n].(items := []) == units[n].(items := []) && OnBoard(next[n]) == OnBoard(units[n]);
    StripAppend(BoardOf(next[..n]), if OnBoard(next[n]) then [next[n]] else []);
    StripAppend(BoardOf(units[..n]), if OnBoard(units[n]) then [units[n]] else []);
    assert Strip(if OnBoard(next[n]) then [next[n]] else []) == Strip(if OnBoard(units[n]) then [units[n]] else []);
  }

  lemma StripAppend(a: seq<UnitInstance>, b: seq<UnitInstance>)
    ensures Strip(a + b) == Strip(a) + Strip(b)
  {
  }

  lemma EquippingKeepsFormation(r: RosterState, defs: seq<ItemDef>, id: UnitId, item: ItemId)
    ensures Formation(Equipped(r, defs, id, item).0.units) == Formation(r.units)
  {
    hide Formation, PlaceItem;
    var k := IndexOf(r.units, id);
    if k < |r.units| && item != 0 {
      var placed := PlaceItem(defs, r.units[k].items, item);
      if placed.Some? {
        ItemsKeepFormation(r.units, k, placed.value);
      }
    }
  }

  lemma UnequippingKeepsFormation(r: RosterState, id: UnitId, slot: int)
    ensures Formation(Unequipped(r, id, slot).0.units) == Formation(r.units)
  {
    hide Formation;
    var k := IndexOf(r.units, id);
    if k < |r.units| && 0 <= slot < |r.units[k].items| {
      ItemsKeepFormation(r.units, k, r.units[k].items[slot := 0]);
    }
  }

  // Whoever leaves the bench leaves the board as it is.
  lemma BenchLeaves(r: RosterState, k: nat)
    requires k < |r.units| && !OnBoard(r.units[k])
    ensures BoardOf(Remove(r, k).units) == BoardOf(r.units)
  {
    BoardErase(r.units, k);
  }

  // A bench move leaves the board as it is.
  lemma BenchMoves(r: RosterState, db: seq<Champion>, id: UnitId, location: Location, x: int, y: int)
    requires Layout(r) && location != Board
    requires var k := IndexOf(r.units, id); k < |r.units| ==> !OnBoard(r.units[k])
    ensures BoardOf(Moved(r, db, id, location, x, y).0.units) == BoardOf(r.units)
  {
    hide Layout, Seated, IsPlant, BoardCount, SwapDelta, IndexOf, BoardOf;
    LayoutSeated(r);
    SeatedCells(r);
    var to, k := CellAt(location, x, y), IndexOf(r.units, id);
    if to >= 0 && k < |r.units| && r.units[k].cell != to {
      BenchStays(r.units, k, to);
      if r.cells[to] != 0 {
        OccupantThere(r, to);
        var m := IndexOf(r.units, r.cells[to]);
        var us := r.units[k := r.units[k].(cell := to)];
        assert us[m] == r.units[m];
        BenchStays(us, m, r.units[k].cell);
      }
    }
  }

  lemma {:induction false} BenchStays(units: seq<UnitInstance>, k: nat, cell: int)
    requires k < |units| && !OnBoard(units[k]) && LocationOf(cell) != Board
    ensures BoardOf(units[k := units[k].(cell := cell)]) == BoardOf(units)
  {
    var n := |units| - 1;
    var next := units[k := units[k].(cell := cell)];
    if k == n {
      assert next[..n] == units[..n];
    } else {
      BenchStays(units[..n], k, cell);
      assert next[..n] == units[..n][k := units[k].(cell := cell)];
    }
  }

  // Changing what a unit carries keeps everything else.
  lemma ItemsKeep(r: RosterState, db: seq<Champion>, k: nat, items: seq<ItemId>)
    requires Layout(r) && Settled(db, r.units) && k < |r.units| && |items| == MAX_ITEMS_PER_UNIT
    ensures var t := Improve(r, k, r.units[k].star, items); Layout(t) && Settled(db, t.units)
  {
    var t := Improve(r, k, r.units[k].star, items);
    InstanceAt(r, k);
    ImproveSeated(r, k, r.units[k].star, items);
    hide CountOf;
    forall c: nat, s | s < MAX_STAR_LEVEL && !IsPlant(db, c)
      ensures CountOf(t.units, c, s) <= 2
    {
      UpdateTotals([], r.units, k, t.units[k], c, s, 0);
    }
  }

  lemma EquippedKeeps(r: RosterState, db: seq<Champion>, defs: seq<ItemDef>, id: UnitId, item: ItemId, c: ChampionIndex, x: ItemId)
    requires DatabaseOk(defs) && Layout(r) && Settled(db, r.units)
    ensures var (t, result) := Equipped(r, defs, id, item);
            && Layout(t) && Settled(db, t.units) && Weight(t.units, c) == Weight(r.units, c)
            && UnitParts(defs, t.units, x) == UnitParts(defs, r.units, x) + if result == Ok then Parts(defs, item, x) else 0
  {
    var k := IndexOf(r.units, id);
    if k < |r.units| && item != 0 {
      var placed := PlaceItem(defs, r.units[k].items, item);
      if placed.Some? {
        InstanceAt(r, k);
        hide Layout, Settled, UnitParts, Parts, PartsOf, Weight, CountOf, PlaceItem, DatabaseOk;
        PlaceItemKeepsParts(defs, r.units[k].items, item, x);
        ItemsKeep(r, db, k, placed.value);
        UpdateTotals(defs, r.units, k, r.units[k].(items := placed.value), c, 0, x);
      }
    }
  }

  lemma UnequippedKeeps(r: RosterState, db: seq<Champion>, defs: seq<ItemDef>, id: UnitId, slot: int, c: ChampionIndex, x: ItemId)
    requires Layout(r) && Settled(db, r.units)
    ensures var (t, result, item) := Unequipped(r, id, slot);
            && Layout(t) && Settled(db, t.units) && Weight(t.units, c) == Weight(r.units, c)
            && UnitParts(defs, t.units, x) + Parts(defs, item, x) == UnitParts(defs, r.units, x)
            && (result == Ok <==> item != 0) && (result != Ok ==> t == r)
  {
    var k := IndexOf(r.units, id);
    if k < |r.units| {
      InstanceAt(r, k);
      var items := r.units[k].items;
      if 0 <= slot < MAX_ITEMS_PER_UNIT && items[slot] != 0 {
        hide Layout, Settled, UnitParts, PartsOf, Weight, CountOf;
        PartsUpdate(defs, items, slot, 0, x);
        ItemsKeep(r, db, k, items[slot := 0]);
        UpdateTotals(defs, r.units, k, r.units[k].(items := items[slot := 0]), c, 0, x);
      }
    }
  }

  // ---- Removing and placing ------------------------------------------------------------------------

  lemma RemovedKeeps(r: RosterState, db: seq<Champion>, k: nat)
    requires Layout(r) && Settled(db, r.units) && k < |r.units|
    ensures Layout(Remove(r, k)) && Settled(db, Remove(r, k).units)
  {
    RemoveSeated(r, k);
    var t := Remove(r, k);
    hide CountOf;
    forall c: nat, s | s < MAX_STAR_LEVEL && !IsPlant(db, c)
      ensures CountOf(t.units, c, s) <= 2
    {
      EraseTotals([], r.units, k, c, s, 0);
    }
    forall i | 0 <= i < |t.units|
      ensures UnitKnown(db, t.units[i])
    {
      assert t.units[i] == r.units[if i < k then i else i + 1];
    }
  }

  // A plant straight onto a board cell; it never merges.
  function PlantedAt(r: RosterState, champion: ChampionIndex, star: int, cell: int): UnitInstance {
    UnitInstance((r.owner + 1) * SERIALS + r.serial, champion, star, cell, [0, 0, 0])
  }

  lemma PlantedKeeps(r: RosterState, db: seq<Champion>, champion: ChampionIndex, star: int, cell: int)
    requires Layout(r) && Settled(db, r.units) && IsPlant(db, champion) && 1 <= star <= MAX_STAR_LEVEL
    requires BENCH_SLOTS <= cell < CELLS && r.cells[cell] == 0
    ensures var t := Append(r, PlantedAt(r, champion, star, cell)); Layout(t) && Settled(db, t.units)
  {
    var u := PlantedAt(r, champion, star, cell);
    AppendSeated(r, u);
    hide CountOf;
    forall c: nat, s | s < MAX_STAR_LEVEL && !IsPlant(db, c)
      ensures CountOf(Append(r, u).units, c, s) <= 2
    {
      AppendTotals([], r.units, u, c, s, 0);
    }
  }

  // ---- Checking and restoring ------------------------------------------------------------------------

  // What the server's check accepts.
  ghost predicate Sound(r: RosterState, db: seq<Champion>) {
    Layout(r.(serial := SERIALS)) && Settled(db, r.units) && BoardCount(db, r.units) <= BOARD_CELLS
  }

  predicate PlacedOk(r: RosterState, i: nat)
    requires i < |r.units| && |r.cells| == CELLS
  {
    var u := r.units[i];
    && 1 <= u.star <= MAX_STAR_LEVEL && 0 <= u.cell < CELLS && r.cells[u.cell] == u.id
    && (r.owner + 1) * SERIALS <= u.id < (r.owner + 1) * SERIALS + SERIALS && |u.items| == MAX_ITEMS_PER_UNIT
  }

  ghost predicate EachPlaced(r: RosterState) {
    && |r.cells| == CELLS
    && (forall i | 0 <= i < |r.units| :: PlacedOk(r, i))
    && (forall i, j | 0 <= i < j < |r.units| :: r.units[i].id != r.units[j].id)
  }

  lemma OwnerPart(id: UnitId, owner: nat)
    ensures id / SERIALS == owner + 1 <==> (owner + 1) * SERIALS <= id < (owner + 1) * SERIALS + SERIALS
  {
    DivBounds(id, SERIALS);
    if (owner + 1) * SERIALS <= id < (owner + 1) * SERIALS + SERIALS {
      DivUnique(id, SERIALS, owner + 1);
    }
  }

  function Occupied(cells: seq<UnitId>): nat {
    if cells == [] then 0 else Occupied(cells[..|cells| - 1]) + if cells[|cells| - 1] != 0 then 1 else 0
  }

  ghost function OccupiedSet(cells: seq<UnitId>): (s: set<int>)
    ensures |s| == Occupied(cells) && forall c :: c in s <==> 0 <= c < |cells| && cells[c] != 0
  {
    if cells == [] then {}
    else
      var rest := OccupiedSet(cells[..|cells| - 1]);
      if cells[|cells| - 1] != 0 then rest + {|cells| - 1} else rest
  }

  ghost predicate HasSeat(units: seq<UnitInstance>, c: int) {
    exists i | 0 <= i < |units| :: units[i].cell == c
  }

  ghost function SeatSet(units: seq<UnitInstance>): (s: set<int>)
    requires forall i, j | 0 <= i < j < |units| :: units[i].cell != units[j].cell
    ensures |s| == |units| && forall c :: c in s <==> HasSeat(units, c)
  {
    if units == [] then {}
    else
      var rest := SeatSet(units[..|units| - 1]);
      SeatSetStep(units);
      rest + {units[|units| - 1].cell}
  }

  lemma SeatSetStep(units: seq<UnitInstance>)
    requires units != [] && forall i, j | 0 <= i < j < |units| :: units[i].cell != units[j].cell
    ensures !HasSeat(units[..|units| - 1], units[|units| - 1].cell)
    ensures forall c :: HasSeat(units, c) <==> HasSeat(units[..|units| - 1], c) || c == units[|units| - 1].cell
  {
    var n := |units| - 1;
    forall c
      ensures HasSeat(units, c) <==> HasSeat(units[..n], c) || c == units[n].cell
    {
      if HasSeat(units[..n], c) {
        var i :| 0 <= i < n && units[..n][i].cell == c;
        assert units[i].cell == c;
      }
      if HasSeat(units, c) {
        var i :| 0 <= i < |units| && units[i].cell == c;
        assert i < n ==> units[..n][i].cell == c;
      }
    }
  }

  lemma SubsetOfSameSize(a: set<int>, b: set<int>)
    requires a <= b && |a| == |b|
    ensures a == b
  {
    assert |b - a| == |b| - |a|;
    assert b == a + (b - a);
  }

  // Counting suffices: as many occupied cells as units means that every occupied cell is a unit's.
  lemma OccupiedExact(r: RosterState)
    requires EachPlaced(r)
    ensures Occupied(r.cells) == |r.units| <==> Layout(r.(serial := SERIALS))
  {
    hide PlacedOk, Sits, HasSeat, InstanceOk;
    DistinctSeats(r);
    var occupied, seats := OccupiedSet(r.cells), SeatSet(r.units);
    forall c | c in seats
      ensures c in occupied
    {
      SeatIsOccupied(r, c);
    }
    if |occupied| == |seats| {
      SubsetOfSameSize(seats, occupied);
      forall c | 0 <= c < CELLS && r.cells[c] != 0
        ensures Sits(r.units, c, r.cells[c])
      {
        assert c in seats;
        SeatSits(r, c);
      }
      PlacedInstances(r);
    }
    if Layout(r.(serial := SERIALS)) {
      forall c | c in occupied
        ensures c in seats
      {
        SitsHasSeat(r.units, c, r.cells[c]);
      }
      assert occupied == seats;
    }
  }

  lemma DistinctSeats(r: RosterState)
    requires EachPlaced(r)
    ensures forall i, j | 0 <= i < j < |r.units| :: r.units[i].cell != r.units[j].cell
  {
    forall i, j | 0 <= i < j < |r.units|
      ensures r.units[i].cell != r.units[j].cell
    {
      assert PlacedOk(r, i) && PlacedOk(r, j);
    }
  }

  lemma SeatIsOccupied(r: RosterState, c: int)
    requires EachPlaced(r) && HasSeat(r.units, c)
    ensures 0 <= c < CELLS && r.cells[c] != 0
  {
    var i :| 0 <= i < |r.units| && r.units[i].cell == c;
    assert PlacedOk(r, i);
  }

  lemma SeatSits(r: RosterState, c: int)
    requires EachPlaced(r) && HasSeat(r.units, c)
    ensures 0 <= c < CELLS && Sits(r.units, c, r.cells[c])
  {
    var i :| 0 <= i < |r.units| && r.units[i].cell == c;
    assert PlacedOk(r, i);
  }

  lemma SitsHasSeat(units: seq<UnitInstance>, c: int, id: UnitId)
    requires Sits(units, c, id)
    ensures HasSeat(units, c)
  {
  }

  lemma PlacedInstances(r: RosterState)
    requires EachPlaced(r)
    ensures forall i | 0 <= i < |r.units| :: InstanceOk(r.units[i], r.owner, SERIALS) && r.units[i].cell >= 0 && r.cells[r.units[i].cell] == r.units[i].id
  {
    forall i | 0 <= i < |r.units|
      ensures InstanceOk(r.units[i], r.owner, SERIALS) && r.units[i].cell >= 0 && r.cells[r.units[i].cell] == r.units[i].id
    {
      assert PlacedOk(r, i);
    }
  }

  lemma SoundUnits(r: RosterState, db: seq<Champion>)
    ensures Sound(r, db) && |r.cells| == CELLS ==> EachPlaced(r)
  {
    hide Settled, BoardCount;
    if Sound(r, db) {
      forall i | 0 <= i < |r.units|
        ensures PlacedOk(r, i)
      {
        assert InstanceOk(r.units[i], r.owner, SERIALS);
      }
    }
  }

  predicate SettledAt(db: seq<Champion>, units: seq<UnitInstance>, m: nat)
    requires m < |units|
  {
    var u := units[m];
    && (u.star < MAX_STAR_LEVEL && !IsPlant(db, u.champion) ==> CountOf(units, u.champion, u.star) <= 2)
    && UnitKnown(db, u)
  }

  lemma {:induction false} CountedIsThere(units: seq<UnitInstance>, c: ChampionIndex, s: int)
    requires CountOf(units, c, s) > 0
    ensures exists m :: 0 <= m < |units| && Is(units[m], c, s)
  {
    var n := |units| - 1;
    if Is(units[n], c, s) {
    } else {
      CountedIsThere(units[..n], c, s);
      var m :| 0 <= m < n && Is(units[..n][m], c, s);
      assert Is(units[m], c, s);
    }
  }

  lemma SettledEverywhere(r: RosterState, db: seq<Champion>)
    requires forall m | 0 <= m < |r.units| :: SettledAt(db, r.units, m)
    ensures Settled(db, r.units)
  {
    hide CountOf;
    forall c: nat, s | s < MAX_STAR_LEVEL && !IsPlant(db, c)
      ensures CountOf(r.units, c, s) <= 2
    {
      if CountOf(r.units, c, s) > 0 {
        CountedIsThere(r.units, c, s);
        var m :| 0 <= m < |r.units| && Is(r.units[m], c, s);
        assert SettledAt(db, r.units, m);
      }
    }
    forall m | 0 <= m < |r.units|
      ensures UnitKnown(db, r.units[m])
    {
      assert SettledAt(db, r.units, m);
    }
  }

  predicate IdOk(id: UnitId, owner: nat, serial: nat) {
    id / SERIALS == owner + 1 && id % SERIALS < serial
  }

  // The occupancy table that a list of units fills.
  function CellsOf(units: seq<UnitInstance>): (cells: seq<UnitId>)
    ensures |cells| == CELLS
  {
    if units == [] then seq(CELLS, _ => 0)
    else
      var rest, u := CellsOf(units[..|units| - 1]), units[|units| - 1];
      if 0 <= u.cell < CELLS then rest[u.cell := u.id] else rest
  }

  predicate CellFree(stored: seq<UnitInstance>, i: nat)
    requires i < |stored|
  {
    0 <= stored[i].cell < CELLS && CellsOf(stored[..i])[stored[i].cell] == 0
  }

  predicate Placeable(stored: seq<UnitInstance>, owner: nat, serial: nat, i: nat)
    requires i < |stored|
  {
    IdOk(stored[i].id, owner, serial) && CellFree(stored, i)
  }

  lemma PlaceableNow(stored: seq<UnitInstance>, owner: nat, serial: nat, i: nat)
    requires i < |stored|
    ensures Placeable(stored, owner, serial, i) <==> IdOk(stored[i].id, owner, serial) && CellFree(stored, i)
  {
  }

  function Stored(stored: seq<UnitInstance>, owner: nat, serial: nat, capacity: int): RosterState {
    RosterState(owner, serial, capacity, stored, CellsOf(stored))
  }

  ghost predicate Restorable(stored: seq<UnitInstance>, owner: nat, serial: nat, capacity: int, db: seq<Champion>) {
    && 1 <= serial <= SERIALS && (forall i | 0 <= i < |stored| :: Placeable(stored, owner, serial, i))
    && Sound(Stored(stored, owner, serial, capacity), db)
  }

  // How many units a failed restore leaves in the roster, from unit i on. A unit without a free cell
  // empties the roster; a unit whose id is not the owner's does not.
  function LeftFrom(stored: seq<UnitInstance>, owner: nat, serial: nat, i: nat): nat
    requires i <= |stored|
    decreases |stored| - i
  {
    if i == |stored| then 0
    else if !IdOk(stored[i].id, owner, serial) then i
    else if !CellFree(stored, i) then 0
    else LeftFrom(stored, owner, serial, i + 1)
  }

  function RestoreLeaves(stored: seq<UnitInstance>, owner: nat, serial: nat): (left: nat)
    ensures left <= |stored|
  {
    LeftBound(stored, owner, serial, 0);
    if serial < 1 || serial > SERIALS then 0 else LeftFrom(stored, owner, serial, 0)
  }

  // The serial counter after a restore: the stored one as soon as every unit has found its place, even
  // if the final check then refuses the roster.
  function RestoreSerial(stored: seq<UnitInstance>, owner: nat, serial: nat): nat {
    if 1 <= serial <= SERIALS && forall i | 0 <= i < |stored| :: Placeable(stored, owner, serial, i) then serial else 1
  }

  lemma {:induction false} LeftBound(stored: seq<UnitInstance>, owner: nat, serial: nat, i: nat)
    requires i <= |stored|
    ensures LeftFrom(stored, owner, serial, i) <= |stored|
    decreases |stored| - i
  {
    if i < |stored| {
      LeftBound(stored, owner, serial, i + 1);
    }
  }

  // Unit k is not the first, its id is not this owner's, and every unit before it finds its place.
  predicate LateBadId(stored: seq<UnitInstance>, owner: nat, serial: nat, k: nat) {
    0 < k < |stored| && !IdOk(stored[k].id, owner, serial) && forall m | 0 <= m < k :: Placeable(stored, owner, serial, m)
  }

  // "On failure the roster is left empty" (server/include/w2f/UnitRoster.h:51) holds exactly unless
  // the first thing to be refused is the id of a unit that is not the first.
  lemma RestoreLeavesNothing(stored: seq<UnitInstance>, owner: nat, serial: nat)
    requires 1 <= serial <= SERIALS
    ensures RestoreLeaves(stored, owner, serial) != 0 <==> exists k :: LateBadId(stored, owner, serial, k)
  {
    LeftExact(stored, owner, serial, 0);
  }

  lemma {:induction false} LeftExact(stored: seq<UnitInstance>, owner: nat, serial: nat, i: nat)
    requires i <= |stored| && forall m | 0 <= m < i :: Placeable(stored, owner, serial, m)
    ensures LeftFrom(stored, owner, serial, i) != 0 <==> exists k :: LateBadId(stored, owner, serial, k)
    decreases |stored| - i
  {
    hide IdOk, CellFree;
    if i < |stored| && Placeable(stored, owner, serial, i) {
      LeftExact(stored, owner, serial, i + 1);
    } else {
      forall k: nat
        ensures LateBadId(stored, owner, serial, k) ==> k == i
      {
        assert k < i ==> Placeable(stored, owner, serial, k);
      }
      assert i < |stored| && i > 0 && !IdOk(stored[i].id, owner, serial) ==> LateBadId(stored, owner, serial, i);
    }
  }

  // Two stored units, the second without an id: the first one stays behind.
  lemma RestoreCanLeaveAUnit()
    ensures var stored := [UnitInstance(SERIALS + 1, 0, 1, 0, [0, 0, 0]), UnitInstance(0, 0, 1, 1, [0, 0, 0])];
            RestoreLeaves(stored, 0, 2) == 1
  {
    var stored := [UnitInstance(SERIALS + 1, 0, 1, 0, [0, 0, 0]), UnitInstance(0, 0, 1, 1, [0, 0, 0])];
    assert stored[..0] == [];
    assert IdOk(stored[0].id, 0, 2) && CellFree(stored, 0);
    assert LeftFrom(stored, 0, 2, 1) == 1;
  }

  // One unit of star level 0, well placed: only the final check refuses it, and the counter stays at 2.
  lemma RestoreCanKeepTheSerial(owner: nat, capacity: int, db: seq<Champion>)
    ensures var stored := [UnitInstance((owner + 1) * SERIALS + 1, 0, 0, 0, [0, 0, 0])];
            !Restorable(stored, owner, 2, capacity, db) && RestoreLeaves(stored, owner, 2) == 0 && RestoreSerial(stored, owner, 2) == 2
  {
    var stored := [UnitInstance((owner + 1) * SERIALS + 1, 0, 0, 0, [0, 0, 0])];
    assert stored[..0] == [];
    OwnerPart(stored[0].id, owner);
    DivBounds(stored[0].id, SERIALS);
    assert Placeable(stored, owner, 2, 0);
    assert LeftFrom(stored, owner, 2, 1) == 0;
    assert !InstanceOk(Stored(stored, owner, 2, capacity).(serial := SERIALS).units[0], owner, SERIALS);
  }

  lemma SoundSerials(r: RosterState, db: seq<Champion>, serial: nat)
    requires Sound(r, db) && r.serial == serial && forall i | 0 <= i < |r.units| :: IdOk(r.units[i].id, r.owner, serial)
    ensures Layout(r) && Settled(db, r.units)
  {
    hide Settled, BoardCount;
    forall i | 0 <= i < |r.units|
      ensures InstanceOk(r.units[i], r.owner, serial)
    {
      assert InstanceOk(r.units[i], r.owner, SERIALS);
      assert IdOk(r.units[i].id, r.owner, serial);
      DivBounds(r.units[i].id, SERIALS);
    }
  }

  // ---- The class -----------------------------------------------------------------------------------

  class UnitRoster {
    const owner: nat
    const db: seq<Champion>
    const defs: seq<ItemDef>   // the recipes; empty without an item database
    var nextSerial: nat
    var boardCapacity: int
    var units: seq<UnitInstance>
    var cells: seq<UnitId>

    ghost function State(): RosterState
      reads this
    {
      RosterState(owner, nextSerial, boardCapacity, units, cells)
    }

    ghost predicate Valid()
      reads this
    {
      ChampionsOk(db) && DatabaseOk(defs) && Layout(State()) && Settled(db, units)
    }

    constructor (owner: nat, db: seq<Champion>, defs: seq<ItemDef>)
      requires ChampionsOk(db) && DatabaseOk(defs)
      ensures Valid() && units == [] && this.owner == owner && this.db == db && this.defs == defs && nextSerial == 1
    {
      this.owner, this.db, this.defs := owner, db, defs;
      nextSerial, boardCapacity := 1, BOARD_CELLS;
      units, cells := [], seq(CELLS, _ => 0);
    }

    // A roster like another one: the copy a purchase is tried out on.
    constructor Copy(other: UnitRoster)
      requires other.Valid()
      ensures Valid() && State() == old(other.State()) && db == other.db && defs == other.defs && owner == other.owner
    {
      owner, db, defs := other.owner, other.db, other.defs;
      nextSerial, boardCapacity, units, cells := other.nextSerial, other.boardCapacity, other.units, other.cells;
    }

    // ---- Queries -----------------------------------------------------------------------------------

    method CountBench() returns (n: nat)
      ensures n == BenchCount(units)
    {
      n := 0;
      for i := 0 to |units|
        invariant n == BenchCount(units[..i])
      {
        assert units[..i + 1][..i] == units[..i];
        n := n + if LocationOf(units[i].cell) == Bench then 1 else 0;
      }
      assert units[..|units|] == units;
    }

    method CountBoard() returns (n: int)
      ensures n == BoardCount(db, units)
    {
      n := 0;
      for i := 0 to |units|
        invariant n == BoardCount(db, units[..i])
      {
        assert units[..i + 1][..i] == units[..i];
        n := n + if LocationOf(units[i].cell) == Board then Slots(db, units[i].champion) else 0;
      }
      assert units[..|units|] == units;
    }

    method Find(id: UnitId) returns (k: nat)
      ensures k == IndexOf(units, id)
    {
      k := 0;
      while k < |units| && units[k].id != id
        invariant 0 <= k <= |units| && IndexOf(units, id) == k + IndexOf(units[k..], id)
      {
        assert units[k..][1..] == units[k + 1..];
        k := k + 1;
      }
    }

    method Count(champion: ChampionIndex, star: int) returns (n: nat)
      ensures n == CountOf(units, champion, star)
    {
      n := 0;
      for i := 0 to |units|
        invariant n == CountOf(units[..i], champion, star)
      {
        assert units[..i + 1][..i] == units[..i];
        n := n + if units[i].champion == champion && units[i].star == star then 1 else 0;
      }
      assert units[..|units|] == units;
    }

    method FindFree(from: nat, end: nat) returns (c: nat)
      requires from <= end <= |cells|
      ensures c == FirstFree(cells, from, end)
    {
      c := from;
      while c < end && cells[c] != 0
        invariant from <= c <= end && FirstFree(cells, from, end) == FirstFree(cells, c, end)
      {
        c := c + 1;
      }
    }

    method HasRoom() returns (room: bool)
      requires |cells| == CELLS
      ensures room == HasFreeSlot(State(), db)
      ensures Layout(State()) ==>
                (room <==> (exists x :: BenchSlotFree(State(), x))
                           || (SlotsInUseOnBoard(State(), db) < boardCapacity && SlotsInUseOnBoard(State(), db) < 28
                               && exists x, y :: BoardCellFree(State(), x, y)))
    {
      RoomIsExact(State(), db);
      hide BenchCount, BoardCount;
      var bench := CountBench();
      if bench < BENCH_SLOTS {
        return true;
      }
      var board := CountBoard();
      if board >= Least(boardCapacity, BOARD_CELLS) {
        return false;
      }
      var free := FindFree(BENCH_SLOTS, CELLS);
      return free < CELLS;
    }

    // Would Add succeed: is there a free spot, or does the unit complete a merge?
    method Accepts(champion: ChampionIndex, star: int) returns (ok: bool)
      requires |cells| == CELLS
      ensures ok == CanAdd(State(), db, champion, star)
      ensures Layout(State()) ==> ok == MayAdd(State(), db, champion, star)
    {
      AddAllowed(State(), db, champion, star);
      hide HasFreeSlot, CountOf, MayAdd, Layout;
      if champion >= |db| || star < 1 || star > MAX_STAR_LEVEL {
        return false;
      }
      ok := HasRoom();
      if !ok && star < MAX_STAR_LEVEL {
        var n := Count(champion, star);
        ok := n >= 2;
      }
    }

    // ---- Adding ------------------------------------------------------------------------------------

    // First free bench slot, else the first free board cell below the capacity.
    method FindPlace() returns (cell: int)
      requires |cells| == CELLS
      ensures cell == NewCell(State(), db)
    {
      hide BoardCount;
      var bench := FindFree(0, BENCH_SLOTS);
      if bench < BENCH_SLOTS {
        return bench;
      }
      var board := CountBoard();
      if board >= boardCapacity {
        return -1;
      }
      var free := FindFree(BENCH_SLOTS, CELLS);
      return if free < CELLS then free else -1;
    }

    // Places a new unit and merges as far as it goes. (Plants are never added this way.)
    method AddUnit(champion: ChampionIndex, star: int) returns (added: bool, unit: UnitInstance, merges: seq<Merge>)
      requires Valid() && !IsPlant(db, champion)
      modifies this
      ensures Valid() && boardCapacity == old(boardCapacity)
      ensures added == CanAdd(old(State()), db, champion, star)
      ensures (State(), merges) == Add(old(State()), db, defs, champion, star)
      ensures added ==> unit == NewUnit(old(State()), db, champion, star)
      ensures added <==> old(|cells| == CELLS && MayAdd(State(), db, champion, star))
      ensures added ==> old(|cells|) == CELLS && IsAdded(defs, db, old(State()), champion, star, unit, merges, State())
    {
      AddIsAdded(State(), db, defs, champion, star);
      hide Layout, Seated, Settled, DatabaseOk, ChampionsOk, CanAdd, MergeAll, NewCell, MayAdd, IsAdded;
      ghost var r := State();
      LayoutSeated(r);
      AddParts(r, db, champion, star);
      AddKeepsEverything(r, db, defs, champion, star);
      merges, unit := [], UnitInstance(0, champion, star, -1, [0, 0, 0]);
      added := Accepts(champion, star);
      if !added {
        return;
      }
      unit := Join(champion, star);
      merges := MergeEverything(champion);
    }

    // The unit itself, before it merges with anything.
    method Join(champion: ChampionIndex, star: int) returns (unit: UnitInstance)
      requires |cells| == CELLS
      modifies `nextSerial, `units, `cells
      ensures unit == NewUnit(old(State()), db, champion, star) && State() == Append(old(State()), unit)
    {
      hide NewCell;
      var cell := FindPlace();
      unit := UnitInstance((owner + 1) * SERIALS + nextSerial, champion, star, cell, [0, 0, 0]);
      nextSerial := nextSerial + 1;
      if cell >= 0 {
        cells := cells[cell := unit.id];
      }
      units := units + [unit];
    }

    method MergeEverything(champion: ChampionIndex) returns (merges: seq<Merge>)
      requires Seated(State())
      modifies `units, `cells
      ensures Seated(State()) && (State(), merges) == MergeAll(old(State()), defs, champion)
    {
      hide Seated, MergeOnce;
      merges := [];
      assert [] + MergeAll(State(), defs, champion).1 == MergeAll(State(), defs, champion).1;
      while true
        invariant Seated(State())
        invariant MergeAll(old(State()), defs, champion) ==
                  (MergeAll(State(), defs, champion).0, merges + MergeAll(State(), defs, champion).1)
        decreases |units|
      {
        var merged, merge := MergeOne(champion);
        if !merged {
          assert merges + [] == merges;
          return;
        }
        assert merges + ([merge] + MergeAll(State(), defs, champion).1) == (merges + [merge]) + MergeAll(State(), defs, champion).1;
        merges := merges + [merge];
      }
    }

    // One merge, at the lowest star level that has three equal units.
    method MergeOne(champion: ChampionIndex) returns (merged: bool, merge: Merge)
      requires Seated(State())
      modifies `units, `cells
      ensures Seated(State())
      ensures merged ==> MergeOnce(old(State()), defs, champion) == Some((State(), merge)) && |units| == |old(units)| - 2
      ensures !merged ==> MergeOnce(old(State()), defs, champion) == None && State() == old(State())
    {
      hide Seated, MergeAt, Three;
      OnceSeated(State(), defs, champion);
      merge := Merge(UnitInstance(0, 0, 0, -1, []), [], 0, []);
      for star := 1 to MAX_STAR_LEVEL
        invariant State() == old(State())
        invariant MergeOnce(State(), defs, champion) == MergeFrom(State(), defs, champion, star)
      {
        var ranked := Rank3(champion, star);
        if |ranked| >= 3 {
          merge := MergeThese(champion, star, ranked);
          return true, merge;
        }
      }
      return false, merge;
    }

    // The champion's units of one star level, by rank.
    method Rank3(champion: ChampionIndex, star: int) returns (ranked: seq<nat>)
      ensures ranked == Three(units, champion, star)
    {
      var found: seq<nat> := [];
      for i := 0 to |units|
        invariant found == Candidates(units[..i], champion, star)
      {
        assert units[..i + 1][..i] == units[..i];
        if units[i].champion == champion && units[i].star == star {
          found := found + [i];
        }
      }
      assert units[..|units|] == units;
      CandidatesExact(units, champion, star);
      ranked := SortByRank(units, found);
    }

    method MergeThese(champion: ChampionIndex, star: int, ks: seq<nat>) returns (merge: Merge)
      requires Seated(State()) && ks == Three(units, champion, star) && |ks| >= 3
      modifies `units, `cells
      ensures (State(), merge) == MergeAt(old(State()), defs, champion, star)
    {
      hide Seated, Three, RemoveId, IndexOf, Carry, Carried;
      var survivor, first, second := units[ks[0]], units[ks[1]], units[ks[2]];
      var carried := Collect(first.items);
      var more := Collect(second.items);
      var _, _ := RemoveUnit(first.id);
      var _, _ := RemoveUnit(second.id);
      var items, overflow := PlaceAll(defs, survivor.items, carried + more);
      var k := Find(survivor.id);
      if k < |units| {
        units := units[k := units[k].(star := star + 1, items := items)];
      }
      merge := Merge(survivor.(star := star + 1, items := items), [first.id, second.id], star, overflow);
    }

    method RemoveUnit(id: UnitId) returns (found: bool, removed: UnitInstance)
      modifies `units, `cells
      ensures State() == RemoveId(old(State()), id)
      ensures found == (IndexOf(old(units), id) < |old(units)|)
      ensures found ==> removed == old(units)[IndexOf(old(units), id)]
    {
      var k := Find(id);
      removed := UnitInstance(0, 0, 0, -1, []);
      if k == |units| {
        return false, removed;
      }
      removed := units[k];
      if 0 <= removed.cell < |cells| {
        cells := cells[removed.cell := 0];
      }
      units := units[..k] + units[k + 1..];
      found := true;
    }

    // ---- Moving, equipping, placing ----------------------------------------------------------------

    method Move(id: UnitId, location: Location, x: int, y: int) returns (result: ActionResult)
      requires Valid()
      modifies `units, `cells
      ensures Valid() && (State(), result) == Moved(old(State()), db, id, location, x, y)
    {
      hide Layout, Settled, DatabaseOk, ChampionsOk, BoardCount, IsPlant;
      LayoutSeated(State());
      SeatedCells(State());
      MovedKeeps(State(), db, id, location, x, y);
      var to := CellAt(location, x, y);
      if to < 0 {
        return InvalidSlot;
      }
      var k := Find(id);
      if k == |units| {
        return InvalidUnit;
      }
      if units[k].cell == to {
        return Ok;
      }
      if IsPlant(db, units[k].champion) && location != Board {
        return InvalidSlot;
      }
      var occupant := cells[to];
      var used := CountBoard();
      if occupant == 0 {
        if location == Board && !OnBoard(units[k]) && used + Slots(db, units[k].champion) > boardCapacity {
          return BoardFull;
        }
        var from := units[k].cell;
        if 0 <= from < |cells| {
          cells := cells[from := 0];
        }
        cells := cells[to := units[k].id];
        units := units[k := units[k].(cell := to)];
        return Ok;
      }
      result := Exchange(k, to, used);
    }

    // Swaps change how many slots are in use only between bench and board.
    method Exchange(k: nat, to: int, used: int) returns (result: ActionResult)
      requires Layout(State()) && k < |units| && 0 <= to < CELLS && |cells| == CELLS && cells[to] != 0 && units[k].cell != to
      requires used == BoardCount(db, units)
      modifies `units, `cells
      ensures var r := old(State());
              var m := IndexOf(r.units, r.cells[to]);
              (State(), result) ==
              if m == |r.units| || r.units[k].cell < 0 || r.units[k].cell >= CELLS || r.units[m].cell < 0 || r.units[m].cell >= CELLS then (r, InvalidUnit)
              else if IsPlant(db, r.units[m].champion) && !OnBoard(r.units[k]) then (r, InvalidSlot)
              else if SwapDelta(r, db, k, m) > 0 && BoardCount(db, r.units) + SwapDelta(r, db, k, m) > r.capacity then (r, BoardFull)
              else (Swap(r, k, m), Ok)
    {
      hide Layout, Seated, BoardCount, IsPlant;
      var m := Find(cells[to]);
      LayoutSeated(State());
      OccupantThere(State(), to);
      InstanceAt(State(), k);
      var a, b := units[k], units[m];
      if a.cell < 0 {
        return InvalidUnit;
      }
      if IsPlant(db, b.champion) && !OnBoard(a) {
        return InvalidSlot;
      }
      if OnBoard(a) != OnBoard(b) {
        var delta := if OnBoard(b) then Slots(db, a.champion) - Slots(db, b.champion) else Slots(db, b.champion) - Slots(db, a.champion);
        if delta > 0 && used + delta > boardCapacity {
          return BoardFull;
        }
      }
      cells := cells[b.cell := a.id][a.cell := b.id];
      units := units[k := a.(cell := b.cell)][m := b.(cell := a.cell)];
      return Ok;
    }

    method EquipItem(id: UnitId, item: ItemId) returns (result: ActionResult)
      requires Valid()
      modifies `units
      ensures Valid() && (State(), result) == Equipped(old(State()), defs, id, item)
      ensures EquipsOnto(old(State()), defs, id, item, State(), result)
    {
      EquippedExact(State(), defs, id, item);
      hide Layout, Settled, DatabaseOk, ChampionsOk, PlaceItem;
      EquippedKeeps(State(), db, defs, id, item, 0, 0);
      var k := Find(id);
      if k == |units| {
        return InvalidUnit;
      }
      if item == 0 {
        return InvalidItem;
      }
      var placed := PlaceOne(defs, units[k].items, item);
      if placed.None? {
        return ItemsFull;
      }
      units := units[k := units[k].(items := placed.value)];
      return Ok;
    }

    method UnequipItem(id: UnitId, slot: int) returns (result: ActionResult, item: ItemId)
      requires Valid()
      modifies `units
      ensures Valid() && (State(), result, item) == Unequipped(old(State()), id, slot)
    {
      hide Layout, Settled, DatabaseOk, ChampionsOk;
      UnequippedKeeps(State(), db, defs, id, slot, 0, 0);
      var k := Find(id);
      if k == |units| {
        return InvalidUnit, 0;
      }
      if slot < 0 || slot >= MAX_ITEMS_PER_UNIT || slot >= |units[k].items| || units[k].items[slot] == 0 {
        return InvalidSlot, 0;
      }
      item := units[k].items[slot];
      units := units[k := units[k].(items := units[k].items[slot := 0])];
      return Ok, item;
    }

    // A plant straight onto a free board cell; id 0: the cell was not free.
    method AddPlaced(champion: ChampionIndex, star: int, x: int, y: int) returns (unit: UnitInstance)
      requires Valid() && IsPlant(db, champion)
      modifies `units, `cells, `nextSerial
      ensures Valid()
      ensures var cell := CellAt(Board, x, y);
              if 1 <= star <= MAX_STAR_LEVEL && cell >= 0 && |old(cells)| == CELLS && old(cells)[cell] == 0
              then unit == PlantedAt(old(State()), champion, star, cell) && State() == Append(old(State()), unit)
              else unit.id == 0 && State() == old(State())
    {
      hide Layout, Settled, DatabaseOk, ChampionsOk, IsPlant;
      LayoutSeated(State());
      SeatedCells(State());
      unit := UnitInstance(0, champion, star, -1, [0, 0, 0]);
      var cell := CellAt(Board, x, y);
      if star < 1 || star > MAX_STAR_LEVEL || cell < 0 || cells[cell] != 0 {
        return;
      }
      PlantedKeeps(State(), db, champion, star, cell);
      unit := UnitInstance((owner + 1) * SERIALS + nextSerial, champion, star, cell, [0, 0, 0]);
      nextSerial := nextSerial + 1;
      cells := cells[cell := unit.id];
      units := units + [unit];
    }

    method Clear()
      modifies `units, `cells
      ensures units == [] && cells == seq(CELLS, _ => 0)
    {
      units, cells := [], seq(CELLS, _ => 0);
    }

    // ---- Diagnostics and snapshots -----------------------------------------------------------------

    // The server's own check of a roster: true exactly if the layout is right (ids of this owner,
    // whatever their serial), nothing is left to merge, and the board is not overfull.
    method CheckInvariants() returns (ok: bool)
      requires |cells| == CELLS && forall i | 0 <= i < |units| :: |units[i].items| == MAX_ITEMS_PER_UNIT
      ensures ok <==> Sound(State(), db)
    {
      hide BoardCount, CountOf, Layout, Settled, InstanceOk;
      ok := CheckUnits();
      if !ok {
        SoundUnits(State(), db);
        return;
      }
      var occupied := 0;
      for c := 0 to CELLS
        invariant occupied == Occupied(cells[..c])
      {
        assert cells[..c + 1][..c] == cells[..c];
        occupied := occupied + if cells[c] != 0 then 1 else 0;
      }
      assert cells[..CELLS] == cells;
      OccupiedExact(State());
      if occupied != |units| {
        return false;
      }
      var board := CountBoard();
      if board > BOARD_CELLS {
        return false;
      }
      ok := CheckSettled();
    }

    method CheckUnits() returns (ok: bool)
      requires |cells| == CELLS && forall i | 0 <= i < |units| :: |units[i].items| == MAX_ITEMS_PER_UNIT
      ensures ok <==> EachPlaced(State())
    {
      var seen: set<UnitId> := {};
      for i := 0 to |units|
        invariant forall m | 0 <= m < i :: PlacedOk(State(), m)
        invariant forall m, n | 0 <= m < n < i :: units[m].id != units[n].id
        invariant forall id :: id in seen <==> exists m :: 0 <= m < i && units[m].id == id
      {
        var u := units[i];
        OwnerPart(u.id, owner);
        if u.star < 1 || u.star > MAX_STAR_LEVEL || u.cell < 0 || u.cell >= CELLS || cells[u.cell] != u.id || u.id / SERIALS != owner + 1 {
          assert !PlacedOk(State(), i);
          return false;
        }
        if u.id in seen {
          return false;
        }
        seen := seen + {u.id};
      }
      return true;
    }

    method CheckSettled() returns (ok: bool)
      requires EachPlaced(State())
      ensures ok <==> Settled(db, units)
    {
      hide CountOf;
      for i := 0 to |units|
        invariant forall m | 0 <= m < i :: SettledAt(db, units, m)
      {
        var u := units[i];
        var n := Count(u.champion, u.star);
        if (u.star < MAX_STAR_LEVEL && n > 2 && !IsPlant(db, u.champion)) || !UnitKnown(db, u) {
          return false;
        }
      }
      SettledEverywhere(State(), db);
      return true;
    }

    // Replaces the roster by a stored one; see RestoreLeaves and RestoreSerial for what a failure leaves
    // behind.
    method Restore(stored: seq<UnitInstance>, serial: nat) returns (ok: bool)
      requires ChampionsOk(db) && DatabaseOk(defs) && forall i | 0 <= i < |stored| :: |stored[i].items| == MAX_ITEMS_PER_UNIT
      modifies this
      ensures boardCapacity == old(boardCapacity)
      ensures ok <==> Restorable(stored, owner, serial, boardCapacity, db)
      ensures ok ==> Valid() && State() == Stored(stored, owner, serial, boardCapacity)
      ensures !ok ==> RestoreLeaves(stored, owner, serial) <= |stored| && units == stored[..RestoreLeaves(stored, owner, serial)]
      ensures nextSerial == RestoreSerial(stored, owner, serial)
    {
      hide Layout, Settled, DatabaseOk, ChampionsOk, BoardCount, Placeable;
      Clear();
      nextSerial := 1;
      if serial < 1 || serial > SERIALS {
        return false;
      }
      for i := 0 to |stored|
        invariant |cells| == CELLS && units == stored[..i] && nextSerial == 1 && boardCapacity == old(boardCapacity)
        invariant cells == CellsOf(stored[..i])
        invariant forall m | 0 <= m < i :: Placeable(stored, owner, serial, m)
        invariant RestoreLeaves(stored, owner, serial) == LeftFrom(stored, owner, serial, i)
      {
        var u := stored[i];
        assert stored[..i + 1][..i] == stored[..i];
        PlaceableNow(stored, owner, serial, i);
        if u.id / SERIALS != owner + 1 || u.id % SERIALS >= serial {
          assert !Placeable(stored, owner, serial, i);
          return false;
        }
        if u.cell < 0 || u.cell >= CELLS || cells[u.cell] != 0 {
          Clear();
          assert !Placeable(stored, owner, serial, i);
          return false;
        }
        cells := cells[u.cell := u.id];
        units := units + [u];
      }
      assert stored[..|stored|] == stored;
      nextSerial := serial;
      assert State() == Stored(stored, owner, serial, boardCapacity);
      ok := CheckInvariants();
      if !ok {
        Clear();
      } else {
        forall i | 0 <= i < |stored|
          ensures IdOk(stored[i].id, owner, serial)
        {
          PlaceableNow(stored, owner, serial, i);
        }
        SoundSerials(State(), db, serial);
      }
    }
  }

  lemma RoomIsExact(r: RosterState, db: seq<Champion>)
    requires |r.cells| == CELLS
    ensures Layout(r) ==>
              (HasFreeSlot(r, db) <==> (exists x :: BenchSlotFree(r, x))
                                       || (SlotsInUseOnBoard(r, db) < r.capacity && SlotsInUseOnBoard(r, db) < 28 && exists x, y :: BoardCellFree(r, x, y)))
  {
    if Layout(r) {
      CountsAreCells(r, db);
      BenchHasRoom(r);
      BoardHasRoom(r);
      hide Layout, BenchCount, BoardCount, SlotsUpTo, FilledUpTo, BenchSlotFree, BoardCellFree;
    }
  }

  lemma AddAllowed(r: RosterState, db: seq<Champion>, champion: ChampionIndex, star: int)
    requires |r.cells| == CELLS
    ensures Layout(r) ==> (CanAdd(r, db, champion, star) <==> MayAdd(r, db, champion, star))
  {
    hide CanAdd, MayAdd;
    if Layout(r) {
      AddAllowedExactly(r, db, champion, star);
    }
  }

  lemma AddIsAdded(r: RosterState, db: seq<Champion>, defs: seq<ItemDef>, champion: ChampionIndex, star: int)
    requires DatabaseOk(defs) && Layout(r)
    ensures |r.cells| == CELLS && Seated(r) && (CanAdd(r, db, champion, star) <==> MayAdd(r, db, champion, star))
    ensures CanAdd(r, db, champion, star) ==>
              IsAdded(defs, db, r, champion, star, NewUnit(r, db, champion, star), Add(r, db, defs, champion, star).1, Add(r, db, defs, champion, star).0)
  {
    AddAllowedExactly(r, db, champion, star);
    AddExact(r, db, defs, champion, star);
    hide CanAdd, MayAdd, IsAdded, Layout;
  }

  lemma LayoutSeated(r: RosterState)
    requires Layout(r)
    ensures Seated(r)
  {
  }

  lemma SeatedCells(r: RosterState)
    requires Seated(r)
    ensures |r.cells| == CELLS
  {
  }

  // ---- The loops ------------------------------------------------------------------------------------

  method Collect(items: seq<ItemId>) returns (carried: seq<ItemId>)
    ensures carried == Carried(items)
  {
    carried := [];
    for i := 0 to |items|
      invariant carried == Carried(items[..i])
    {
      assert items[..i + 1][..i] == items[..i];
      if items[i] != 0 {
        carried := carried + [items[i]];
      }
    }
    assert items[..|items|] == items;
  }

  method PlaceOne(defs: seq<ItemDef>, items: seq<ItemId>, item: ItemId) returns (placed: Option<seq<ItemId>>)
    ensures placed == PlaceItem(defs, items, item)
  {
    var i := 0;
    while i < |items|
      invariant 0 <= i <= |items| && Partner(defs, items, item, 0) == Partner(defs, items, item, i)
    {
      if items[i] != 0 {
        var made := FindCombination(defs, items[i], item);
        if made != 0 {
          return Some(items[i := made]);
        }
      }
      i := i + 1;
    }
    i := 0;
    while i < |items|
      invariant 0 <= i <= |items| && FreeSlot(items, 0) == FreeSlot(items, i)
    {
      if items[i] == 0 {
        return Some(items[i := item]);
      }
      i := i + 1;
    }
    return None;
  }

  method PlaceAll(defs: seq<ItemDef>, items: seq<ItemId>, carried: seq<ItemId>) returns (after: seq<ItemId>, overflow: seq<ItemId>)
    ensures (after, overflow) == Carry(defs, items, carried)
  {
    hide PlaceItem;
    after, overflow := items, [];
    assert carried[0..] == carried && [] + Carry(defs, items, carried).1 == Carry(defs, items, carried).1;
    for i := 0 to |carried|
      invariant Carry(defs, items, carried) ==
                (Carry(defs, after, carried[i..]).0, overflow + Carry(defs, after, carried[i..]).1)
    {
      assert carried[i..][1..] == carried[i + 1..];
      var placed := PlaceOne(defs, after, carried[i]);
      if placed.Some? {
        after := placed.value;
      } else {
        assert overflow + ([carried[i]] + Carry(defs, after, carried[i + 1..]).1) == (overflow + [carried[i]]) + Carry(defs, after, carried[i + 1..]).1;
        overflow := overflow + [carried[i]];
      }
    }
    assert overflow + [] == overflow;
  }

  method SortByRank(units: seq<UnitInstance>, ks: seq<nat>) returns (ranked: seq<nat>)
    requires forall a | 0 <= a < |ks| :: ks[a] < |units|
    ensures ranked == SortRanked(units, ks)
  {
    hide InsertRanked, Rank;
    ranked := [];
    for i := 0 to |ks|
      invariant ranked == SortRanked(units, ks[..i])
    {
      assert ks[..i + 1][..i] == ks[..i];
      ranked := InsertByRank(units, ranked, ks[i]);
    }
    assert ks[..|ks|] == ks;
  }

  method InsertByRank(units: seq<UnitInstance>, ks: seq<nat>, k: nat) returns (ranked: seq<nat>)
    requires k < |units| && forall a | 0 <= a < |ks| :: ks[a] < |units|
    ensures ranked == InsertRanked(units, ks, k)
  {
    hide Rank, InsertRanked;
    var front: seq<nat>, back: seq<nat> := [], ks;
    assert front + InsertRanked(units, back, k) == InsertRanked(units, ks, k);
    while back != [] && Rank(units[k].cell) >= Rank(units[back[0]].cell)
      invariant forall a | 0 <= a < |back| :: back[a] < |units|
      invariant InsertRanked(units, ks, k) == front + InsertRanked(units, back, k)
    {
      InsertBehind(units, back, k);
      Assoc3(front, [back[0]], InsertRanked(units, back[1..], k));
      front, back := front + [back[0]], back[1..];
    }
    InsertHere(units, back, k);
    Assoc3(front, [k], back);
    ranked := front + [k] + back;
  }

  lemma Assoc3(a: seq<nat>, b: seq<nat>, c: seq<nat>)
    ensures (a + b) + c == a + (b + c)
  {
  }

  lemma InsertHere(units: seq<UnitInstance>, ks: seq<nat>, k: nat)
    requires k < |units| && forall a | 0 <= a < |ks| :: ks[a] < |units|
    requires ks == [] || Rank(units[k].cell) < Rank(units[ks[0]].cell)
    ensures InsertRanked(units, ks, k) == [k] + ks
  {
  }

  lemma InsertBehind(units: seq<UnitInstance>, ks: seq<nat>, k: nat)
    requires k < |units| && forall a | 0 <= a < |ks| :: ks[a] < |units|
    requires ks != [] && Rank(units[k].cell) >= Rank(units[ks[0]].cell)
    ensures InsertRanked(units, ks, k) == [ks[0]] + InsertRanked(units, ks[1..], k)
  {
  }
}
