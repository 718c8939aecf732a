// Adding a unit and the merges it sets off (server/src/UnitRoster.cpp:160-226), on values.
module RosterMerge {
  import opened Wrappers
  import opened Items
  import opened ChampionPool
  import opened Roster

  function RemoveId(r: RosterState, id: UnitId): RosterState {
    var k := IndexOf(r.units, id);
    if k < |r.units| then Remove(r, k) else r
  }

  // The three units that merge: the survivor first.
  function Three(units: seq<UnitInstance>, champion: ChampionIndex, star: int): (r: seq<nat>)
    ensures forall a | 0 <= a < |r| :: r[a] < |units|
  {
    CandidatesExact(units, champion, star);
    SortRanked(units, Candidates(units, champion, star))
  }

  // What the survivor carries afterwards, and what does not fit.
  function Handover(defs: seq<ItemDef>, units: seq<UnitInstance>, ks: seq<nat>): (r: (seq<ItemId>, seq<ItemId>))
    requires |ks| >= 3 && forall a | 0 <= a < |ks| :: ks[a] < |units|
    ensures |r.0| == |units[ks[0]].items|
  {
    Carry(defs, units[ks[0]].items, Carried(units[ks[1]].items) + Carried(units[ks[2]].items))
  }

  // The survivor goes up one star and takes over what the other two carried.
  function MergeAt(r: RosterState, defs: seq<ItemDef>, champion: ChampionIndex, star: int): (RosterState, Merge)
    requires |Three(r.units, champion, star)| >= 3
  {
    var ks := Three(r.units, champion, star);
    var s, a, b := r.units[ks[0]], r.units[ks[1]], r.units[ks[2]];
    var (items, overflow) := Handover(defs, r.units, ks);
    var rest := RemoveId(RemoveId(r, a.id), b.id);
    var k := IndexOf(rest.units, s.id);
    (if k < |rest.units| then Improve(rest, k, star + 1, items) else rest,
     Merge(s.(star := star + 1, items := items), [a.id, b.id], star, overflow))
  }

  // Lowest star first.
  function MergeFrom(r: RosterState, defs: seq<ItemDef>, champion: ChampionIndex, star: int): Option<(RosterState, Merge)>
    decreases MAX_STAR_LEVEL - star
  {
    if star >= MAX_STAR_LEVEL then None
    else if |Three(r.units, champion, star)| >= 3 then Some(MergeAt(r, defs, champion, star))
    else MergeFrom(r, defs, champion, star + 1)
  }

  function MergeOnce(r: RosterState, defs: seq<ItemDef>, champion: ChampionIndex): Option<(RosterState, Merge)> {
    MergeFrom(r, defs, champion, 1)
  }

  // ---- What one merge does ------------------------------------------------------------------------

  lemma IndexOfUnit(units: seq<UnitInstance>, k: nat)
    requires k < |units| && forall i, j | 0 <= i < j < |units| :: units[i].id != units[j].id
    ensures IndexOf(units, units[k].id) == k
  {
    assert !(IndexOf(units, units[k].id) < k);
  }

  // Three different units, all of the star level, the survivor ranking no higher than the others.
  lemma ThreeExact(units: seq<UnitInstance>, champion: ChampionIndex, star: int)
    ensures var ks := Three(units, champion, star);
            && |ks| == CountOf(units, champion, star) && AllAre(units, ks, champion, star) && Ranked(units, ks)
            && (forall a, b | 0 <= a < b < |ks| :: ks[a] != ks[b])
    ensures forall i: nat | i < |units| && Is(units[i], champion, star) :: i in Three(units, champion, star)
  {
    var cs, ks := Candidates(units, champion, star), Three(units, champion, star);
    CandidatesExact(units, champion, star);
    SortIsRanked(units, cs);
    hide SortRanked, Candidates, Ranked;
    assert multiset(ks) == multiset(cs);
    forall a | 0 <= a < |ks|
      ensures ks[a] < |units| && Is(units[ks[a]], champion, star)
    {
      assert ks[a] in multiset(ks);
      assert ks[a] in cs;
    }
    NoRepeats(cs, ks);
    forall i: nat | i < |units| && Is(units[i], champion, star)
      ensures i in ks
    {
      CandidatesComplete(units, champion, star, i);
      assert i in multiset(cs);
    }
  }

  lemma NoRepeats(cs: seq<nat>, ks: seq<nat>)
    requires Increasing(cs) && multiset(ks) == multiset(cs)
    ensures forall a, b | 0 <= a < b < |ks| :: ks[a] != ks[b]
  {
    forall a, b | 0 <= a < b < |ks|
      ensures ks[a] != ks[b]
    {
      if ks[a] == ks[b] {
        assert ks == ks[..a] + [ks[a]] + ks[a + 1..b] + [ks[b]] + ks[b + 1..];
        assert multiset(ks)[ks[a]] >= 2;
        OnceEach(cs, ks[a]);
      }
    }
  }

  lemma {:induction false} OnceEach(cs: seq<nat>, x: nat)
    requires Increasing(cs)
    ensures multiset(cs)[x] <= 1
  {
    if cs != [] {
      var init, last := cs[..|cs| - 1], cs[|cs| - 1];
      assert cs == init + [last];
      OnceEach(init, x);
      if x == last {
        assert x !in init;
      }
    }
  }

  lemma CopiesTriple(star: int)
    requires star >= 1
    ensures Copies(star + 1) == 3 * Copies(star)
  {
  }

  // Removing by id, when the unit is there.
  lemma RemoveIdFacts(r: RosterState, k: nat)
    requires Seated(r) && k < |r.units|
    ensures RemoveId(r, r.units[k].id) == Remove(r, k) && Seated(Remove(r, k))
  {
    IndexOfUnit(r.units, k);
    RemoveSeated(r, k);
    hide Seated;
  }

  // Where unit i ends up when unit k goes.
  function Shift(k: nat, i: nat): int {
    if i < k then i else i - 1
  }

  lemma WithoutAt(units: seq<UnitInstance>, k: nat, i: nat)
    requires k < |units| && i < |units| && i != k
    ensures 0 <= Shift(k, i) < |Without(units, k)| == |units| - 1 && Without(units, k)[Shift(k, i)] == units[i]
  {
  }

  // Two of the three go, the third changes; by index.
  lemma MergeShape(r: RosterState, defs: seq<ItemDef>, champion: ChampionIndex, star: int) returns (ks: seq<nat>, b: nat, k: nat)
    requires Seated(r) && CountOf(r.units, champion, star) >= 3
    ensures ks == Three(r.units, champion, star) && |ks| >= 3 && b < |r.units| - 1 && k < |r.units| - 2
    ensures Without(r.units, ks[1])[b] == r.units[ks[2]] && Without(Without(r.units, ks[1]), b)[k] == r.units[ks[0]]
    ensures b == Shift(ks[1], ks[2]) && ks[1] != ks[2] && k == Shift(b, Shift(ks[1], ks[0]))
    ensures var (t, merge) := MergeAt(r, defs, champion, star);
            && t == Improve(Remove(Remove(r, ks[1]), b), k, star + 1, merge.upgraded.items)
            && merge.upgraded == r.units[ks[0]].(star := star + 1, items := merge.upgraded.items)
            && (merge.upgraded.items, merge.overflow) == Handover(defs, r.units, ks)
            && |merge.upgraded.items| == |r.units[ks[0]].items|
    ensures Seated(Remove(Remove(r, ks[1]), b))
  {
    ks := Three(r.units, champion, star);
    ThreeExact(r.units, champion, star);
    hide Three, CountOf, Seated, AllAre, Ranked, Is, Handover, Without, Shift, IndexOf, Remove;
    assert ks[0] != ks[1] && ks[0] != ks[2] && ks[1] != ks[2];
    b, k := MergeIndices(r, ks[1], ks[2], ks[0]);
  }

  lemma MergeIndices(r: RosterState, a: nat, b0: nat, k0: nat) returns (b: nat, k: nat)
    requires Seated(r) && a < |r.units| && b0 < |r.units| && k0 < |r.units| && a != b0 && a != k0 && b0 != k0
    ensures b < |r.units| - 1 && k < |r.units| - 2 && b == Shift(a, b0) && k == Shift(b, Shift(a, k0))
    ensures Without(r.units, a)[b] == r.units[b0] && Without(Without(r.units, a), b)[k] == r.units[k0]
    ensures var rest := RemoveId(RemoveId(r, r.units[a].id), r.units[b0].id);
            && rest == Remove(Remove(r, a), b) && Seated(rest) && |rest.units| == |r.units| - 2
            && IndexOf(rest.units, r.units[k0].id) == k
  {
    WithoutAt(r.units, a, b0);
    WithoutAt(r.units, a, k0);
    b := Shift(a, b0);
    var k1 := Shift(a, k0);
    assert b != k1;
    WithoutAt(Without(r.units, a), b, k1);
    k := Shift(b, k1);
    hide Seated, Without, Shift, IndexOf;
    RemoveIdFacts(r, a);
    RemoveIdFacts(Remove(r, a), b);
    SeatedDistinct(Remove(Remove(r, a), b));
    IndexOfUnit(Remove(Remove(r, a), b).units, k);
  }

  lemma SeatedDistinct(r: RosterState)
    requires Seated(r)
    ensures forall i, j | 0 <= i < j < |r.units| :: r.units[i].id != r.units[j].id
  {
  }

  lemma InstanceAt(r: RosterState, k: nat)
    requires Seated(r) && k < |r.units|
    ensures InstanceOk(r.units[k], r.owner, r.serial)
  {
  }

  lemma MergeSeated(r: RosterState, defs: seq<ItemDef>, champion: ChampionIndex, star: int)
    requires Seated(r) && 1 <= star < MAX_STAR_LEVEL && CountOf(r.units, champion, star) >= 3
    ensures |Three(r.units, champion, star)| >= 3
    ensures var t := MergeAt(r, defs, champion, star).0;
            Seated(t) && |t.units| == |r.units| - 2 && t.serial == r.serial && t.owner == r.owner && t.capacity == r.capacity
  {
    hide Seated, CountOf, Three, IndexOf, RemoveId, MergeAt, Handover;
    var ks, b, k := MergeShape(r, defs, champion, star);
    InstanceAt(r, ks[0]);
    ImproveSeated(Remove(Remove(r, ks[1]), b), k, star + 1, MergeAt(r, defs, champion, star).1.upgraded.items);
  }

  // Three go, one of the next star level comes; the copies they stand for stay the same, and so do
  // the components of everything carried (counting what overflows).
  lemma MergeTotals(r: RosterState, defs: seq<ItemDef>, champion: ChampionIndex, star: int, c: ChampionIndex, t: int, x: ItemId)
    requires DatabaseOk(defs) && Seated(r) && 1 <= star < MAX_STAR_LEVEL && CountOf(r.units, champion, star) >= 3
    ensures |Three(r.units, champion, star)| >= 3
    ensures var (r', merge) := MergeAt(r, defs, champion, star);
            && CountOf(r'.units, c, t) == CountOf(r.units, c, t) - (if c == champion && t == star then 3 else 0) + (if c == champion && t == star + 1 then 1 else 0)
            && Weight(r'.units, c) == Weight(r.units, c)
            && UnitParts(defs, r'.units, x) + PartsOf(defs, merge.overflow, x) == UnitParts(defs, r.units, x)
  {
    hide Seated, Three, DatabaseOk, Ranked, AllAre, IndexOf, RemoveId, MergeAt, Carry, Carried, CountOf, UnitParts, Weight, PartsOf;
    var ks, b, k := MergeShape(r, defs, champion, star);
    ThreeAre(r.units, champion, star);
    var s, ua, ub := r.units[ks[0]], r.units[ks[1]], r.units[ks[2]];
    CarriedTotals(defs, s.items, ua.items, ub.items, x);
    LeaveAndGrow(defs, r.units, ks[1], b, k, star, MergeAt(r, defs, champion, star).1.upgraded.items, c, t, x);
  }

  lemma ThreeAre(units: seq<UnitInstance>, champion: ChampionIndex, star: int)
    requires CountOf(units, champion, star) >= 3
    ensures var ks := Three(units, champion, star);
            |ks| >= 3 && Is(units[ks[0]], champion, star) && Is(units[ks[1]], champion, star) && Is(units[ks[2]], champion, star)
            && Rank(units[ks[0]].cell) <= Rank(units[ks[1]].cell) <= Rank(units[ks[2]].cell)
  {
    ThreeExact(units, champion, star);
    hide Three, CountOf;
  }

  lemma CarriedTotals(defs: seq<ItemDef>, s: seq<ItemId>, a: seq<ItemId>, b: seq<ItemId>, x: ItemId)
    requires DatabaseOk(defs)
    ensures var (items, overflow) := Carry(defs, s, Carried(a) + Carried(b));
            PartsOf(defs, items, x) + PartsOf(defs, overflow, x) == PartsOf(defs, s, x) + PartsOf(defs, a, x) + PartsOf(defs, b, x)
  {
    hide PartsOf, DatabaseOk, Carry;
    CarriedParts(defs, a, x);
    CarriedParts(defs, b, x);
    PartsAppend(defs, Carried(a), Carried(b), x);
    CarryKeepsParts(defs, s, Carried(a) + Carried(b), x);
  }

  lemma LeaveAndGrow(defs: seq<ItemDef>, units: seq<UnitInstance>, a: nat, b: nat, k: nat, star: int, items: seq<ItemId>, c: ChampionIndex, t: int, x: ItemId)
    requires star >= 1 && a < |units| && b < |units| - 1 && k < |units| - 2
    requires var (s, ua, ub) := (Without(Without(units, a), b)[k], units[a], Without(units, a)[b]);
             s.champion == ua.champion == ub.champion && s.star == ua.star == ub.star == star
    ensures var (s, ub) := (Without(Without(units, a), b)[k], Without(units, a)[b]);
            var after := Without(Without(units, a), b)[k := s.(star := star + 1, items := items)];
            && CountOf(after, c, t) == CountOf(units, c, t) - (if c == s.champion && t == star then 3 else 0) + (if c == s.champion && t == star + 1 then 1 else 0)
            && Weight(after, c) == Weight(units, c)
            && UnitParts(defs, after, x) ==
               UnitParts(defs, units, x) - PartsOf(defs, units[a].items, x) - PartsOf(defs, ub.items, x) - PartsOf(defs, s.items, x) + PartsOf(defs, items, x)
  {
    hide CountOf, Weight, UnitParts, PartsOf, Copies;
    var s := Without(Without(units, a), b)[k];
    EraseTotals(defs, units, a, c, t, x);
    EraseTotals(defs, Without(units, a), b, c, t, x);
    UpdateTotals(defs, Without(Without(units, a), b), k, s.(star := star + 1, items := items), c, t, x);
    CopiesTriple(star);
  }

  // ---- The unplaced unit, the board ---------------------------------------------------------------

  // At most the units of (champion, star) may be nowhere, and only if they are just three and only
  // one of them is.
  ghost predicate OnlyLoose(units: seq<UnitInstance>, champion: ChampionIndex, star: int) {
    forall i | 0 <= i < |units| && units[i].cell < 0 ::
      && Is(units[i], champion, star) && star < MAX_STAR_LEVEL && CountOf(units, champion, star) == 3
      && forall j | 0 <= j < |units| && j != i :: units[j].cell >= 0
  }

  // The unplaced unit ranks last, so it is used up.
  lemma LooseIsConsumed(units: seq<UnitInstance>, champion: ChampionIndex, star: int, i: nat)
    requires OnlyLoose(units, champion, star) && i < |units| && units[i].cell < 0
    requires forall j | 0 <= j < |units| :: units[j].cell < CELLS
    ensures |Three(units, champion, star)| == 3 && Three(units, champion, star)[2] == i
  {
    ThreeExact(units, champion, star);
    var ks := Three(units, champion, star);
    hide Three, CountOf;
    assert i in ks;
    var m :| 0 <= m < |ks| && ks[m] == i;
    assert m <= 2;
  }

  lemma MergePlaced(r: RosterState, defs: seq<ItemDef>, champion: ChampionIndex, star: int)
    requires Seated(r) && 1 <= star < MAX_STAR_LEVEL && CountOf(r.units, champion, star) >= 3 && OnlyLoose(r.units, champion, star)
    ensures |Three(r.units, champion, star)| >= 3 && AllPlaced(MergeAt(r, defs, champion, star).0.units)
  {
    hide Seated, CountOf, Three, OnlyLoose, IndexOf, RemoveId, MergeAt, Handover, Without;
    var ks, b, k := MergeShape(r, defs, champion, star);
    LooseCells(r);
    forall i | 0 <= i < |r.units| && r.units[i].cell < 0
      ensures i == ks[2]
    {
      LooseIsConsumed(r.units, champion, star, i);
    }
    OthersPlaced(r.units, ks[1], ks[2], b);
  }

  lemma OthersPlaced(units: seq<UnitInstance>, a: nat, b0: nat, b: nat)
    requires a < |units| && b < |units| - 1 && b == Shift(a, b0) && a != b0
    requires forall i | 0 <= i < |units| && units[i].cell < 0 :: i == b0
    ensures AllPlaced(Without(Without(units, a), b))
  {
    var rest := Without(Without(units, a), b);
    forall i | 0 <= i < |rest|
      ensures rest[i].cell >= 0
    {
      var i1 := if i < b then i else i + 1;
      var j := if i1 < a then i1 else i1 + 1;
      assert rest[i] == Without(units, a)[i1] == units[j];
      assert j != b0;
    }
  }

  lemma LooseCells(r: RosterState)
    requires Seated(r)
    ensures forall j | 0 <= j < |r.units| :: r.units[j].cell < CELLS
  {
    forall j | 0 <= j < |r.units|
      ensures r.units[j].cell < CELLS
    {
      assert InstanceOk(r.units[j], r.owner, r.serial);
    }
  }

  predicate OnBoard(u: UnitInstance) {
    LocationOf(u.cell) == Board
  }

  // The units on the board, as they are.
  function BoardOf(units: seq<UnitInstance>): seq<UnitInstance> {
    if units == [] then [] else BoardOf(units[..|units| - 1]) + if OnBoard(units[|units| - 1]) then [units[|units| - 1]] else []
  }

  function BoardWeight(units: seq<UnitInstance>): nat {
    if units == [] then 0 else BoardWeight(units[..|units| - 1]) + BoardShare(units[|units| - 1])
  }

  function BoardShare(u: UnitInstance): nat {
    if OnBoard(u) then Copies(u.star) else 0
  }

  function OneIf(b: bool): nat {
    if b then 1 else 0
  }

  lemma {:induction false} BoardErase(units: seq<UnitInstance>, k: nat)
    requires k < |units|
    ensures |BoardOf(Without(units, k))| == |BoardOf(units)| - OneIf(OnBoard(units[k]))
    ensures BoardWeight(Without(units, k)) == BoardWeight(units) - BoardShare(units[k])
    ensures !OnBoard(units[k]) ==> BoardOf(Without(units, k)) == BoardOf(units)
  {
    hide OnBoard, BoardShare;
    var init, last := units[..|units| - 1], units[|units| - 1];
    if k == |units| - 1 {
      assert Without(units, k) == init;
      hide Without;
      assert BoardShare(last) == BoardShare(units[k]);
    } else {
      BoardErase(init, k);
      var w := Without(units, k);
      assert w[..|w| - 1] == Without(init, k) && w[|w| - 1] == last;
    }
  }

  lemma {:induction false} BoardUpdate(units: seq<UnitInstance>, k: nat, u: UnitInstance)
    requires k < |units| && u.cell == units[k].cell
    ensures |BoardOf(units[k := u])| == |BoardOf(units)|
    ensures BoardWeight(units[k := u]) == BoardWeight(units) - BoardShare(units[k]) + BoardShare(u)
    ensures !OnBoard(units[k]) ==> BoardOf(units[k := u]) == BoardOf(units)
  {
    var init, last := units[..|units| - 1], units[|units| - 1];
    if k == |units| - 1 {
      assert units[k := u][..|units| - 1] == init;
    } else {
      BoardUpdate(init, k, u);
      assert units[k := u][..|units| - 1] == init[k := u];
    }
  }

  // How far the board is ahead of what it was: more weight on it, or as much in fewer units.
  ghost predicate Ahead(us: seq<UnitInstance>, vs: seq<UnitInstance>) {
    BoardWeight(vs) > BoardWeight(us) || (BoardWeight(vs) == BoardWeight(us) && |BoardOf(vs)| < |BoardOf(us)|)
  }

  // A merge whose survivor is on the bench leaves the board as it is -- whoever it uses up ranks
  // behind the survivor. One whose survivor is on the board changes the board for good.
  lemma MergeOnBoard(r: RosterState, defs: seq<ItemDef>, champion: ChampionIndex, star: int)
    requires Seated(r) && 1 <= star < MAX_STAR_LEVEL && CountOf(r.units, champion, star) >= 3
    ensures |Three(r.units, champion, star)| >= 3
    ensures var (t, merge) := MergeAt(r, defs, champion, star);
            if OnBoard(merge.upgraded) then Ahead(r.units, t.units) else BoardOf(t.units) == BoardOf(r.units)
  {
    hide Seated, CountOf, Three, IndexOf, RemoveId, MergeAt, Handover, BoardOf, BoardWeight, Without;
    var ks, b, k := MergeShape(r, defs, champion, star);
    ThreeAre(r.units, champion, star);
    LooseCells(r);
    var units, merge := r.units, MergeAt(r, defs, champion, star).1;
    var s := units[ks[0]];
    assert !OnBoard(s) ==> !OnBoard(units[ks[1]]) && !OnBoard(units[ks[2]]);
    BoardErase(units, ks[1]);
    BoardErase(Without(units, ks[1]), b);
    BoardUpdate(Without(Without(units, ks[1]), b), k, merge.upgraded);
    CopiesTriple(star);
  }

  // ---- Adding a unit ------------------------------------------------------------------------------

  // All merges of a champion, one after the other.
  function MergeAll(r: RosterState, defs: seq<ItemDef>, champion: ChampionIndex): (RosterState, seq<Merge>)
    requires Seated(r)
    decreases |r.units|
  {
    var once := MergeOnce(r, defs, champion);
    if once.None? then (r, [])
    else
      OnceSeated(r, defs, champion);
      var (t, merges) := MergeAll(once.value.0, defs, champion);
      (t, [once.value.1] + merges)
  }

  // The star level at which the next merge happens; MAX_STAR_LEVEL if there is none.
  function MergeStar(units: seq<UnitInstance>, champion: ChampionIndex, star: int): (s: int)
    ensures star <= MAX_STAR_LEVEL ==> star <= s <= MAX_STAR_LEVEL
    ensures s < MAX_STAR_LEVEL ==> CountOf(units, champion, s) >= 3
    ensures forall t | star <= t < s :: CountOf(units, champion, t) < 3
    decreases MAX_STAR_LEVEL - star
  {
    if star >= MAX_STAR_LEVEL || CountOf(units, champion, star) >= 3 then (if star >= MAX_STAR_LEVEL then MAX_STAR_LEVEL else star)
    else MergeStar(units, champion, star + 1)
  }

  lemma {:induction false} MergeFromStar(r: RosterState, defs: seq<ItemDef>, champion: ChampionIndex, star: int)
    ensures var s := MergeStar(r.units, champion, star);
            if s == MAX_STAR_LEVEL then MergeFrom(r, defs, champion, star) == None
            else |Three(r.units, champion, s)| >= 3 && MergeFrom(r, defs, champion, star) == Some(MergeAt(r, defs, champion, s))
    decreases MAX_STAR_LEVEL - star
  {
    hide Three, CountOf, MergeAt;
    if star < MAX_STAR_LEVEL {
      ThreeCount(r.units, champion, star);
      if CountOf(r.units, champion, star) < 3 {
        MergeFromStar(r, defs, champion, star + 1);
      }
    }
  }

  lemma ThreeCount(units: seq<UnitInstance>, champion: ChampionIndex, star: int)
    ensures |Three(units, champion, star)| == CountOf(units, champion, star)
  {
    ThreeExact(units, champion, star);
    hide Three, CountOf;
  }

  lemma OnceSeated(r: RosterState, defs: seq<ItemDef>, champion: ChampionIndex)
    requires Seated(r)
    ensures var once := MergeOnce(r, defs, champion); once.Some? ==> Seated(once.value.0) && |once.value.0.units| == |r.units| - 2
  {
    var s := MergeStar(r.units, champion, 1);
    MergeFromStar(r, defs, champion, 1);
    hide Seated, MergeAt, Three, MergeFrom;
    if s < MAX_STAR_LEVEL {
      MergeSeated(r, defs, champion, s);
    }
  }

  predicate HasFreeSlot(r: RosterState, db: seq<Champion>)
    requires |r.cells| == CELLS
  {
    BenchCount(r.units) < BENCH_SLOTS
    || (BoardCount(db, r.units) < Least(r.capacity, BOARD_CELLS) && FirstFree(r.cells, BENCH_SLOTS, CELLS) < CELLS)
  }

  function Least(a: int, b: int): int {
    if a < b then a else b
  }

  // The first empty cell from k on; `end` if there is none.
  function FirstFree(cells: seq<UnitId>, k: nat, end: nat): (c: nat)
    requires k <= end <= |cells|
    ensures k <= c <= end && (c < end ==> cells[c] == 0)
    ensures forall m | k <= m < c :: cells[m] != 0
    decreases end - k
  {
    if k == end || cells[k] == 0 then k else FirstFree(cells, k + 1, end)
  }

  // Where a new unit goes: the first free bench slot, else (below the capacity) the first free board
  // cell; -1 if neither.
  function NewCell(r: RosterState, db: seq<Champion>): (c: int)
    requires |r.cells| == CELLS
    ensures -1 <= c < CELLS && (c >= 0 ==> r.cells[c] == 0)
  {
    var bench := FirstFree(r.cells, 0, BENCH_SLOTS);
    if bench < BENCH_SLOTS then bench
    else if BoardCount(db, r.units) >= r.capacity then -1
    else
      var board := FirstFree(r.cells, BENCH_SLOTS, CELLS);
      if board < CELLS then board else -1
  }

  predicate CanAdd(r: RosterState, db: seq<Champion>, champion: ChampionIndex, star: int)
    requires |r.cells| == CELLS
  {
    && champion < |db| && 1 <= star <= MAX_STAR_LEVEL
    && (HasFreeSlot(r, db) || (star < MAX_STAR_LEVEL && CountOf(r.units, champion, star) >= 2))
  }

  function NewUnit(r: RosterState, db: seq<Champion>, champion: ChampionIndex, star: int): UnitInstance
    requires |r.cells| == CELLS
  {
    UnitInstance((r.owner + 1) * SERIALS + r.serial, champion, star, NewCell(r, db), [0, 0, 0])
  }

  lemma NewUnitSeated(r: RosterState, db: seq<Champion>, champion: ChampionIndex, star: int)
    requires Seated(r) && 1 <= star <= MAX_STAR_LEVEL
    ensures Seated(Append(r, NewUnit(r, db, champion, star)))
  {
    AppendSeated(r, NewUnit(r, db, champion, star));
  }

  // The roster after Add, with the merges that happened.
  function Add(r: RosterState, db: seq<Champion>, defs: seq<ItemDef>, champion: ChampionIndex, star: int): (RosterState, seq<Merge>)
    requires Seated(r)
  {
    if !CanAdd(r, db, champion, star) then (r, [])
    else
      NewUnitSeated(r, db, champion, star);
      MergeAll(Append(r, NewUnit(r, db, champion, star)), defs, champion)
  }

  // What overflowed in a run of merges.
  function Overflow(merges: seq<Merge>): seq<ItemId> {
    if merges == [] then [] else merges[0].overflow + Overflow(merges[1..])
  }

  // ---- The theorem about Add ----------------------------------------------------------------------

  // Settled, except that (champion, star) may have three.
  ghost predicate AlmostSettled(db: seq<Champion>, units: seq<UnitInstance>, champion: ChampionIndex, star: int) {
    && (forall c: nat, t | t < MAX_STAR_LEVEL && !IsPlant(db, c) ::
          CountOf(units, c, t) <= if c == champion && t == star then 3 else 2)
    && AllKnown(db, units)
  }

  lemma MergeKeepsKnown(r: RosterState, db: seq<Champion>, defs: seq<ItemDef>, champion: ChampionIndex, star: int)
    requires Seated(r) && 1 <= star < MAX_STAR_LEVEL && CountOf(r.units, champion, star) >= 3 && AllKnown(db, r.units)
    ensures |Three(r.units, champion, star)| >= 3 && AllKnown(db, MergeAt(r, defs, champion, star).0.units)
  {
    hide Seated, CountOf, Three, IndexOf, RemoveId, MergeAt, Handover, Without, IsPlant;
    var ks, b, k := MergeShape(r, defs, champion, star);
    KnownStay(db, r.units, ks[1], b);
    assert UnitKnown(db, r.units[ks[0]]);
    hide AllKnown;
    KnownKept(db, Without(Without(r.units, ks[1]), b), k, MergeAt(r, defs, champion, star).1.upgraded);
  }

  lemma KnownStay(db: seq<Champion>, units: seq<UnitInstance>, a: nat, b: nat)
    requires a < |units| && b < |units| - 1 && AllKnown(db, units)
    ensures AllKnown(db, Without(Without(units, a), b))
  {
    hide UnitKnown;
    var rest := Without(Without(units, a), b);
    forall i | 0 <= i < |rest|
      ensures UnitKnown(db, rest[i])
    {
      var i1 := if i < b then i else i + 1;
      var j := if i1 < a then i1 else i1 + 1;
      assert rest[i] == Without(units, a)[i1] == units[j];
    }
  }

  lemma KnownKept(db: seq<Champion>, units: seq<UnitInstance>, k: nat, u: UnitInstance)
    requires k < |units| && AllKnown(db, units) && UnitKnown(db, u)
    ensures AllKnown(db, units[k := u])
  {
  }

  lemma MergeUnsettles(r: RosterState, db: seq<Champion>, defs: seq<ItemDef>, champion: ChampionIndex, star: int)
    requires DatabaseOk(defs) && Seated(r) && 1 <= star < MAX_STAR_LEVEL && CountOf(r.units, champion, star) >= 3
    requires AlmostSettled(db, r.units, champion, star) && !IsPlant(db, champion)
    ensures |Three(r.units, champion, star)| >= 3 && AlmostSettled(db, MergeAt(r, defs, champion, star).0.units, champion, star + 1)
  {
    MergeKeepsKnown(r, db, defs, champion, star);
    var t := MergeAt(r, defs, champion, star).0;
    hide Seated, CountOf, Three, MergeAt, AllKnown, IsPlant, DatabaseOk;
    forall c: nat, s | s < MAX_STAR_LEVEL && !IsPlant(db, c)
      ensures CountOf(t.units, c, s) <= if c == champion && s == star + 1 then 3 else 2
    {
      MergeTotals(r, defs, champion, star, c, s, 0);
    }
  }

  // The cascade: however far it goes, it ends with everyone placed and nothing left to merge. The
  // copies stay the same, and so do the components carried, counting what overflows.
  ghost predicate CascadeOk(db: seq<Champion>, r: RosterState, t: RosterState) {
    Layout(t) && Settled(db, t.units) && t.owner == r.owner && t.serial == r.serial && t.capacity == r.capacity
  }

  lemma {:induction false} CascadeSettles(r: RosterState, db: seq<Champion>, defs: seq<ItemDef>, champion: ChampionIndex, star: int)
    requires DatabaseOk(defs) && Seated(r) && 1 <= star <= MAX_STAR_LEVEL && !IsPlant(db, champion)
    requires AlmostSettled(db, r.units, champion, star) && OnlyLoose(r.units, champion, star)
    ensures CascadeOk(db, r, MergeAll(r, defs, champion).0)
    decreases MAX_STAR_LEVEL - star
  {
    hide Seated, CountOf, Three, MergeAt, DatabaseOk, OnlyLoose, IsPlant, AllKnown, Settled, Layout;
    var s := MergeStar(r.units, champion, 1);
    MergeFromStar(r, defs, champion, 1);
    if s == MAX_STAR_LEVEL {
      hide AlmostSettled;
      NothingToMerge(r, db, champion, star);
    } else {
      assert s == star;
      hide AlmostSettled;
      var t := MergeAt(r, defs, champion, s).0;
      MergeSeated(r, defs, champion, s);
      MergePlaced(r, defs, champion, s);
      MergeUnsettles(r, db, defs, champion, s);
      NobodyLoose(t.units, champion, s + 1);
      CascadeSettles(t, db, defs, champion, s + 1);
    }
  }

  lemma NobodyLoose(units: seq<UnitInstance>, champion: ChampionIndex, star: int)
    requires AllPlaced(units)
    ensures OnlyLoose(units, champion, star)
  {
  }

  lemma NothingToMerge(r: RosterState, db: seq<Champion>, champion: ChampionIndex, star: int)
    requires Seated(r) && 1 <= star && AlmostSettled(db, r.units, champion, star) && OnlyLoose(r.units, champion, star)
    requires MergeStar(r.units, champion, 1) == MAX_STAR_LEVEL
    ensures Layout(r) && Settled(db, r.units)
  {
    hide CountOf;
    forall c: nat, t | t < MAX_STAR_LEVEL && !IsPlant(db, c)
      ensures CountOf(r.units, c, t) <= 2
    {
    }
    forall i | 0 <= i < |r.units|
      ensures r.units[i].cell >= 0
    {
    }
  }

  lemma {:induction false} CascadeTotals(r: RosterState, defs: seq<ItemDef>, champion: ChampionIndex, c: ChampionIndex, x: ItemId)
    requires DatabaseOk(defs) && Seated(r)
    ensures var (t, merges) := MergeAll(r, defs, champion);
            Weight(t.units, c) == Weight(r.units, c) && UnitParts(defs, t.units, x) + PartsOf(defs, Overflow(merges), x) == UnitParts(defs, r.units, x)
    decreases |r.units|
  {
    hide Seated, CountOf, Three, MergeAt, DatabaseOk, Weight, UnitParts, PartsOf;
    var s := MergeStar(r.units, champion, 1);
    MergeFromStar(r, defs, champion, 1);
    if s == MAX_STAR_LEVEL {
      NoParts(defs, x);
    } else {
      OnceSeated(r, defs, champion);
      MergeTotals(r, defs, champion, s, c, 0, x);
      var (t, merge) := MergeAt(r, defs, champion, s);
      CascadeTotals(t, defs, champion, c, x);
      PartsAppend(defs, merge.overflow, Overflow(MergeAll(t, defs, champion).1), x);
      OverflowCons(merge, MergeAll(t, defs, champion).1);
    }
  }

  lemma NoParts(defs: seq<ItemDef>, x: ItemId)
    ensures PartsOf(defs, Overflow([]), x) == 0
  {
  }

  lemma OverflowCons(merge: Merge, merges: seq<Merge>)
    ensures Overflow([merge] + merges) == merge.overflow + Overflow(merges)
  {
    assert ([merge] + merges)[1..] == merges;
  }

  // ---- Room for one more --------------------------------------------------------------------------

  // Each of these bench cells is some unit's.
  ghost predicate SlotsInUse(units: seq<UnitInstance>, slots: set<int>) {
    forall c | c in slots :: 0 <= c < BENCH_SLOTS && exists i :: 0 <= i < |units| && units[i].cell == c
  }

  lemma {:induction false} BenchHolds(units: seq<UnitInstance>, slots: set<int>)
    requires SlotsInUse(units, slots)
    ensures |slots| <= BenchCount(units)
  {
    if units == [] {
      forall c
        ensures c !in slots
      {
      }
      assert slots == {};
    } else {
      var init, last := units[..|units| - 1], units[|units| - 1];
      var rest := slots - {last.cell};
      forall c | c in rest
        ensures exists i :: 0 <= i < |init| && init[i].cell == c
      {
        var i :| 0 <= i < |units| && units[i].cell == c;
        assert init[i].cell == c;
      }
      BenchHolds(init, rest);
      if last.cell in slots {
        assert slots == rest + {last.cell};
      } else {
        assert slots == rest;
      }
    }
  }

  // The count says there is room exactly if there is an empty slot.
  lemma RoomIsFound(r: RosterState, db: seq<Champion>)
    requires Seated(r)
    ensures HasFreeSlot(r, db) ==> NewCell(r, db) >= 0
  {
    if FirstFree(r.cells, 0, BENCH_SLOTS) == BENCH_SLOTS {
      FullBench(r);
    }
    hide BenchCount, BoardCount, Seated;
  }

  lemma FullBench(r: RosterState)
    requires Seated(r) && forall c | 0 <= c < BENCH_SLOTS :: r.cells[c] != 0
    ensures BenchCount(r.units) >= BENCH_SLOTS
  {
    hide BenchCount;
    var slots := FirstSlots(BENCH_SLOTS);
    forall c | c in slots
      ensures exists i :: 0 <= i < |r.units| && r.units[i].cell == c
    {
      assert Sits(r.units, c, r.cells[c]);
    }
    hide Seated, Sits;
    BenchHolds(r.units, slots);
  }

  ghost function FirstSlots(n: nat): (s: set<int>)
    ensures |s| == n && forall c :: c in s <==> 0 <= c < n
  {
    if n == 0 then {} else FirstSlots(n - 1) + {n - 1}
  }

  lemma AddParts(r: RosterState, db: seq<Champion>, champion: ChampionIndex, star: int)
    requires Seated(r)
    ensures |r.cells| == CELLS
    ensures CanAdd(r, db, champion, star) ==>
              Seated(Append(r, NewUnit(r, db, champion, star))) && star >= 1
              && NewUnit(r, db, champion, star).star == star && NewUnit(r, db, champion, star).cell < CELLS
  {
    hide HasFreeSlot, CountOf;
    if CanAdd(r, db, champion, star) {
      NewUnitSeated(r, db, champion, star);
    }
  }

  // ---- The theorem about Add ----------------------------------------------------------------------

  lemma AppendAlmostSettled(r: RosterState, db: seq<Champion>, champion: ChampionIndex, star: int)
    requires Layout(r) && Settled(db, r.units) && CanAdd(r, db, champion, star) && !IsPlant(db, champion)
    ensures var t := Append(r, NewUnit(r, db, champion, star));
            AlmostSettled(db, t.units, champion, star) && OnlyLoose(t.units, champion, star)
  {
    var u := NewUnit(r, db, champion, star);
    var t := Append(r, u);
    RoomIsFound(r, db);
    AppendTotals([], r.units, u, champion, star, 0);
    hide CountOf, HasFreeSlot;
    forall c: nat, s | s < MAX_STAR_LEVEL && !IsPlant(db, c)
      ensures CountOf(t.units, c, s) <= if c == champion && s == star then 3 else 2
    {
      AppendTotals([], r.units, u, c, s, 0);
    }
  }

  // Whenever Add accepts a unit, the whole layout holds afterwards -- nobody is left without a cell,
  // even on a full roster -- and nothing is left to merge; the champion's copies have grown by
  // exactly what the unit stands for; no item component is lost. Whenever it refuses, nothing
  // changes.
  lemma AddKeepsEverything(r: RosterState, db: seq<Champion>, defs: seq<ItemDef>, champion: ChampionIndex, star: int)
    requires DatabaseOk(defs) && Layout(r) && Settled(db, r.units) && !IsPlant(db, champion)
    ensures var t := Add(r, db, defs, champion, star).0;
            if CanAdd(r, db, champion, star) then Layout(t) && Settled(db, t.units) && t.owner == r.owner && t.capacity == r.capacity && t.serial == r.serial + 1
            else t == r
  {
    if CanAdd(r, db, champion, star) {
      AppendAlmostSettled(r, db, champion, star);
      NewUnitSeated(r, db, champion, star);
      hide CanAdd, Layout, Settled, Seated, AlmostSettled, OnlyLoose, DatabaseOk, IsPlant, NewUnit;
      CascadeSettles(Append(r, NewUnit(r, db, champion, star)), db, defs, champion, star);
    }
  }

  lemma AddTotals(r: RosterState, db: seq<Champion>, defs: seq<ItemDef>, champion: ChampionIndex, star: int, c: ChampionIndex, x: ItemId)
    requires DatabaseOk(defs) && Seated(r) && CanAdd(r, db, champion, star)
    ensures var (t, merges) := Add(r, db, defs, champion, star);
            && Weight(t.units, c) == Weight(r.units, c) + (if c == champion then Copies(star) else 0)
            && UnitParts(defs, t.units, x) + PartsOf(defs, Overflow(merges), x) == UnitParts(defs, r.units, x)
  {
    hide CanAdd, Seated, DatabaseOk, Weight, UnitParts;
    AddParts(r, db, champion, star);
    var u := NewUnit(r, db, champion, star);
    AppendTotals(defs, r.units, u, c, star, x);
    NothingCarried(defs, x);
    hide PartsOf;
    CascadeTotals(Append(r, u), defs, champion, c, x);
  }

  lemma NothingCarried(defs: seq<ItemDef>, x: ItemId)
    ensures PartsOf(defs, [0, 0, 0], x) == 0
  {
    PartsOfOne(defs, 0, x);
    PartsAppend(defs, [0], [0], x);
    PartsAppend(defs, [0] + [0], [0], x);
    assert [0] + [0] + [0] == [0, 0, 0];
  }

  // ---- Plants carry nothing -----------------------------------------------------------------------

  predicate BareIfPlant(db: seq<Champion>, u: UnitInstance) {
    IsPlant(db, u.champion) ==> u.items == [0, 0, 0]
  }

  ghost predicate PlantsBare(db: seq<Champion>, units: seq<UnitInstance>) {
    forall i | 0 <= i < |units| :: BareIfPlant(db, units[i])
  }

  // No merge puts anything on a plant.
  lemma AddKeepsBare(r: RosterState, db: seq<Champion>, defs: seq<ItemDef>, champion: ChampionIndex, star: int)
    requires Seated(r) && PlantsBare(db, r.units) && !IsPlant(db, champion)
    ensures PlantsBare(db, Add(r, db, defs, champion, star).0.units)
  {
    hide Seated, CanAdd, IsPlant;
    AddParts(r, db, champion, star);
    if CanAdd(r, db, champion, star) {
      CascadeKeepsBare(Append(r, NewUnit(r, db, champion, star)), db, defs, champion);
    }
  }

  lemma {:induction false} CascadeKeepsBare(r: RosterState, db: seq<Champion>, defs: seq<ItemDef>, champion: ChampionIndex)
    requires Seated(r) && PlantsBare(db, r.units) && !IsPlant(db, champion)
    ensures PlantsBare(db, MergeAll(r, defs, champion).0.units)
    decreases |r.units|
  {
    hide Seated, CountOf, Three, MergeAt, PlantsBare, IsPlant;
    var s := MergeStar(r.units, champion, 1);
    MergeFromStar(r, defs, champion, 1);
    if s != MAX_STAR_LEVEL {
      OnceSeated(r, defs, champion);
      MergeKeepsBare(r, db, defs, champion, s);
      CascadeKeepsBare(MergeAt(r, defs, champion, s).0, db, defs, champion);
    }
  }

  lemma MergeKeepsBare(r: RosterState, db: seq<Champion>, defs: seq<ItemDef>, champion: ChampionIndex, star: int)
    requires Seated(r) && 1 <= star < MAX_STAR_LEVEL && CountOf(r.units, champion, star) >= 3
    requires PlantsBare(db, r.units) && !IsPlant(db, champion)
    ensures |Three(r.units, champion, star)| >= 3
    ensures PlantsBare(db, MergeAt(r, defs, champion, star).0.units)
  {
    hide Seated, CountOf, Three, IndexOf, RemoveId, MergeAt, Handover, PlantsBare, Without;
    var ks, b, k := MergeShape(r, defs, champion, star);
    ThreeAre(r.units, champion, star);
    BareShrink(db, r.units, ks[1], b, k, MergeAt(r, defs, champion, star).1.upgraded);
  }

  lemma BareShrink(db: seq<Champion>, units: seq<UnitInstance>, a: nat, b: nat, k: nat, u: UnitInstance)
    requires a < |units| && b < |units| - 1 && k < |units| - 2 && PlantsBare(db, units) && BareIfPlant(db, u)
    ensures PlantsBare(db, Without(Without(units, a), b)[k := u])
  {
    hide BareIfPlant;
    var rest := Without(Without(units, a), b);
    forall i | 0 <= i < |rest|
      ensures BareIfPlant(db, rest[i])
    {
      var i1 := if i < b then i else i + 1;
      var j := if i1 < a then i1 else i1 + 1;
      assert rest[i] == Without(units, a)[i1] == units[j];
    }
  }

  // ---- Buying while the board is locked -----------------------------------------------------------

  ghost predicate SomeOnBoard(merges: seq<Merge>) {
    exists m | 0 <= m < |merges| :: OnBoard(merges[m].upgraded)
  }

  lemma {:induction false} BoardWeightOf(units: seq<UnitInstance>)
    ensures BoardWeight(BoardOf(units)) == BoardWeight(units)
  {
    if units != [] {
      var init, last := units[..|units| - 1], units[|units| - 1];
      BoardWeightOf(init);
      if OnBoard(last) {
        assert BoardOf(units)[..|BoardOf(units)| - 1] == BoardOf(init);
      } else {
        assert BoardOf(units) == BoardOf(init);
      }
    }
  }

  lemma AheadDiffers(us: seq<UnitInstance>, vs: seq<UnitInstance>, ws: seq<UnitInstance>)
    requires Ahead(us, vs)
    ensures BoardOf(us) != BoardOf(vs)
    ensures Ahead(vs, ws) || BoardOf(ws) == BoardOf(vs) ==> Ahead(us, ws)
  {
    hide BoardOf;
    BoardWeightOf(us);
    BoardWeightOf(vs);
    BoardWeightOf(ws);
  }

  lemma SameBoardAhead(us: seq<UnitInstance>, vs: seq<UnitInstance>, ws: seq<UnitInstance>)
    requires BoardOf(us) == BoardOf(vs)
    ensures Ahead(vs, ws) ==> Ahead(us, ws)
  {
    hide BoardOf;
    BoardWeightOf(us);
    BoardWeightOf(vs);
  }

  // A run of merges leaves the board as it is exactly if no survivor stands on it.
  lemma {:induction false} CascadeOnBoard(r: RosterState, defs: seq<ItemDef>, champion: ChampionIndex)
    requires Seated(r)
    ensures var (t, merges) := MergeAll(r, defs, champion);
            if SomeOnBoard(merges) then Ahead(r.units, t.units) else BoardOf(t.units) == BoardOf(r.units)
    decreases |r.units|
  {
    hide Seated, CountOf, Three, MergeAt, BoardOf, Ahead, OnBoard;
    var s := MergeStar(r.units, champion, 1);
    MergeFromStar(r, defs, champion, 1);
    if s < MAX_STAR_LEVEL {
      OnceSeated(r, defs, champion);
      MergeOnBoard(r, defs, champion, s);
      var (t, merge) := MergeAt(r, defs, champion, s);
      CascadeOnBoard(t, defs, champion);
      var (w, merges) := MergeAll(t, defs, champion);
      SomeOnBoardCons(merge, merges);
      if OnBoard(merge.upgraded) {
        AheadDiffers(r.units, t.units, w.units);
      } else {
        SameBoardAhead(r.units, t.units, w.units);
      }
    }
  }

  lemma SomeOnBoardCons(merge: Merge, merges: seq<Merge>)
    ensures SomeOnBoard([merge] + merges) <==> OnBoard(merge.upgraded) || SomeOnBoard(merges)
  {
    hide OnBoard;
    var all := [merge] + merges;
    if OnBoard(merge.upgraded) {
      assert OnBoard(all[0].upgraded);
    }
    if SomeOnBoard(merges) {
      var m :| 0 <= m < |merges| && OnBoard(merges[m].upgraded);
      assert OnBoard(all[m + 1].upgraded);
    }
  }

  // The test a locked board puts to a purchase: the new unit lands on the bench, and so does every
  // survivor.
  ghost predicate BenchOnly(r: RosterState, db: seq<Champion>, defs: seq<ItemDef>, champion: ChampionIndex, star: int)
    requires Seated(r)
  {
    && CanAdd(r, db, champion, star)
    && !OnBoard(NewUnit(r, db, champion, star)) && !SomeOnBoard(Add(r, db, defs, champion, star).1)
  }

  // It accepts exactly the purchases that leave every fighter as it is: identity, champion, star,
  // items, cell, order -- and nobody new among them.
  lemma BenchOnlyIsExact(r: RosterState, db: seq<Champion>, defs: seq<ItemDef>, champion: ChampionIndex, star: int)
    requires Seated(r)
    ensures BenchOnly(r, db, defs, champion, star)
            <==> CanAdd(r, db, champion, star) && BoardOf(Add(r, db, defs, champion, star).0.units) == BoardOf(r.units)
  {
    hide Seated, CanAdd, NewUnit, SomeOnBoard;
    AddParts(r, db, champion, star);
    if CanAdd(r, db, champion, star) {
      var u := NewUnit(r, db, champion, star);
      var placed := Append(r, u);
      CascadeOnBoard(placed, defs, champion);
      assert placed.units[..|r.units|] == r.units;
      var t := MergeAll(placed, defs, champion).0;
      if OnBoard(u) {
        assert Ahead(r.units, placed.units);
        AheadDiffers(r.units, placed.units, t.units);
        AheadNow(r.units, t.units);
      } else {
        assert BoardOf(placed.units) == BoardOf(r.units);
        if SomeOnBoard(MergeAll(placed, defs, champion).1) {
          AheadNow(placed.units, t.units);
        }
      }
    }
  }

  lemma AheadNow(us: seq<UnitInstance>, vs: seq<UnitInstance>)
    requires Ahead(us, vs)
    ensures BoardOf(us) != BoardOf(vs)
  {
    AheadDiffers(us, vs, vs);
  }

  // ---- The server also looks at the units a merge uses up -----------------------------------------

  ghost predicate SamePlaces(us: seq<UnitInstance>, vs: seq<UnitInstance>) {
    forall i | 0 <= i < |vs| :: StoodAt(us, vs[i].id, vs[i].cell)
  }

  ghost predicate StoodAt(us: seq<UnitInstance>, id: UnitId, cell: int) {
    exists j | 0 <= j < |us| :: us[j].id == id && us[j].cell == cell
  }

  // Everyone used up by one of these merges stood on the bench (or nowhere) in the beginning.
  ghost predicate ConsumedOffBoard(us: seq<UnitInstance>, merges: seq<Merge>) {
    forall m, i | 0 <= m < |merges| && 0 <= i < |merges[m].consumed| :: OffBoard(us, merges[m].consumed[i])
  }

  ghost predicate OffBoard(us: seq<UnitInstance>, id: UnitId) {
    exists j | 0 <= j < |us| :: us[j].id == id && !OnBoard(us[j])
  }

  // That second look never changes the answer.
  lemma {:induction false} ConsumedFollowSurvivor(us: seq<UnitInstance>, r: RosterState, defs: seq<ItemDef>, champion: ChampionIndex)
    requires Seated(r) && SamePlaces(us, r.units) && !SomeOnBoard(MergeAll(r, defs, champion).1)
    ensures ConsumedOffBoard(us, MergeAll(r, defs, champion).1)
    decreases |r.units|
  {
    hide Seated, CountOf, Three, MergeAt, OnBoard, SomeOnBoard, SamePlaces, ConsumedOffBoard;
    var s := MergeStar(r.units, champion, 1);
    MergeFromStar(r, defs, champion, 1);
    if s == MAX_STAR_LEVEL {
      NoneConsumed(us);
    } else {
      OnceSeated(r, defs, champion);
      var (t, merge) := MergeAt(r, defs, champion, s);
      SomeOnBoardCons(merge, MergeAll(t, defs, champion).1);
      MergeConsumed(us, r, defs, champion, s);
      ConsumedFollowSurvivor(us, t, defs, champion);
      ConsumedCons(us, merge, MergeAll(t, defs, champion).1);
    }
  }

  lemma NoneConsumed(us: seq<UnitInstance>)
    ensures ConsumedOffBoard(us, [])
  {
  }

  lemma ConsumedCons(us: seq<UnitInstance>, merge: Merge, merges: seq<Merge>)
    requires ConsumedOffBoard(us, merges) && forall i | 0 <= i < |merge.consumed| :: OffBoard(us, merge.consumed[i])
    ensures ConsumedOffBoard(us, [merge] + merges)
  {
    hide OffBoard;
  }

  lemma MergeConsumed(us: seq<UnitInstance>, r: RosterState, defs: seq<ItemDef>, champion: ChampionIndex, star: int)
    requires Seated(r) && 1 <= star < MAX_STAR_LEVEL && CountOf(r.units, champion, star) >= 3 && SamePlaces(us, r.units)
    ensures |Three(r.units, champion, star)| >= 3
    ensures var (t, merge) := MergeAt(r, defs, champion, star);
            && SamePlaces(us, t.units)
            && (!OnBoard(merge.upgraded) ==> forall i | 0 <= i < |merge.consumed| :: OffBoard(us, merge.consumed[i]))
  {
    hide Seated, CountOf, Three, IndexOf, RemoveId, Handover;
    var ks, b, k := MergeShape(r, defs, champion, star);
    ThreeAre(r.units, champion, star);
    LooseCells(r);
    var merge := MergeAt(r, defs, champion, star).1;
    assert merge.consumed == [r.units[ks[1]].id, r.units[ks[2]].id];
    hide MergeAt;
    assert StoodAt(us, r.units[ks[1]].id, r.units[ks[1]].cell) && StoodAt(us, r.units[ks[2]].id, r.units[ks[2]].cell);
    SamePlacesShrink(us, r.units, ks[1], b, k, merge.upgraded);
  }

  lemma SamePlacesShrink(us: seq<UnitInstance>, units: seq<UnitInstance>, a: nat, b: nat, k: nat, u: UnitInstance)
    requires a < |units| && b < |units| - 1 && k < |units| - 2 && SamePlaces(us, units)
    requires u.id == Without(Without(units, a), b)[k].id && u.cell == Without(Without(units, a), b)[k].cell
    ensures SamePlaces(us, Without(Without(units, a), b)[k := u])
  {
    hide StoodAt;
    var rest := Without(Without(units, a), b);
    forall i | 0 <= i < |rest|
      ensures StoodAt(us, rest[i].id, rest[i].cell)
    {
      var i1 := if i < b then i else i + 1;
      var j := if i1 < a then i1 else i1 + 1;
      assert rest[i] == Without(units, a)[i1] == units[j];
    }
  }
}
