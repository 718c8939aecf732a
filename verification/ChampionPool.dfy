// The finite pool of champion copies (server/src/SharedChampionPool.cpp). A champion is its index
// in the database, which is sorted by id and never changes.
module ChampionPool {
  import opened Wrappers

  const MAX_COST_TIER := 5
  const MAX_STAR_LEVEL := 3

  datatype Champion = Champion(cost: int, pooled: bool, plant: bool, gated: bool, teamSlots: int, price: int)

  type ChampionIndex = nat

  predicate ChampionsOk(db: seq<Champion>) {
    forall i | 0 <= i < |db| :: 1 <= db[i].cost <= MAX_COST_TIER && db[i].teamSlots >= 0 && !(db[i].pooled && db[i].plant)
  }

  function Price(c: Champion): int {
    if c.price > 0 then c.price else c.cost
  }

  // Copies a unit of this star level stands for.
  function Copies(star: int): (r: nat)
    ensures r >= 1
    ensures star < 1 ==> r == 1
  {
    if star <= 1 then 1 else 3 * Copies(star - 1)
  }

  // A champion's copies that are drawable under some owner's rules.
  function Stock(remaining: seq<int>, allowed: ChampionIndex -> bool, i: ChampionIndex): int
  {
    if i < |remaining| && allowed(i) then remaining[i] else 0
  }

  // All drawable copies of a list of champions.
  function Drawable(remaining: seq<int>, allowed: ChampionIndex -> bool, members: seq<ChampionIndex>): int
  {
    if members == [] then 0
    else Drawable(remaining, allowed, members[..|members| - 1]) + Stock(remaining, allowed, members[|members| - 1])
  }

  lemma {:induction false} DrawableNonNegative(remaining: seq<int>, allowed: ChampionIndex -> bool, members: seq<ChampionIndex>, k: nat)
    requires forall m | 0 <= m < |remaining| :: remaining[m] >= 0
    requires k <= |members|
    ensures 0 <= Drawable(remaining, allowed, members[..k]) <= Drawable(remaining, allowed, members)
  {
    if |members| == 0 || k == |members| {
      assert members[..k] == members;
      if members != [] {
        DrawableNonNegative(remaining, allowed, members[..|members| - 1], |members| - 1);
        assert members[..|members| - 1][..|members| - 1] == members[..|members| - 1];
      }
    } else {
      DrawableNonNegative(remaining, allowed, members[..|members| - 1], k);
      assert members[..|members| - 1][..k] == members[..k];
    }
  }

  lemma DrawableNext(remaining: seq<int>, allowed: ChampionIndex -> bool, members: seq<ChampionIndex>, k: nat)
    requires k < |members|
    ensures Drawable(remaining, allowed, members[..k + 1]) == Drawable(remaining, allowed, members[..k]) + Stock(remaining, allowed, members[k])
  {
    assert members[..k + 1][..k] == members[..k];
  }

  // One champion's count changes: the total of a list moves by as much if the champion is on it
  // (once) and may be drawn, and not at all otherwise.
  lemma {:induction false} DrawableChanged(remaining: seq<int>, allowed: ChampionIndex -> bool, members: seq<ChampionIndex>, i: ChampionIndex, v: int)
    requires forall a, b | 0 <= a < b < |members| :: members[a] != members[b]
    requires i < |remaining|
    ensures Drawable(remaining[i := v], allowed, members) ==
            Drawable(remaining, allowed, members) + if i in members && allowed(i) then v - remaining[i] else 0
  {
    if members != [] {
      var init, last := members[..|members| - 1], members[|members| - 1];
      DrawableChanged(remaining, allowed, init, i, v);
      if last == i {
        forall m | 0 <= m < |init|
          ensures init[m] != i
        {
        }
      }
      assert members == init + [last];
    }
  }

  // Which champion a roll below the drawable total picks: the list is laid out copy by copy.
  function Pick(remaining: seq<int>, allowed: ChampionIndex -> bool, members: seq<ChampionIndex>, roll: int): Option<ChampionIndex>
  {
    if members == [] then None
    else if roll < Stock(remaining, allowed, members[0]) then Some(members[0])
    else Pick(remaining, allowed, members[1..], roll - Stock(remaining, allowed, members[0]))
  }

  lemma {:induction false} DrawableCons(remaining: seq<int>, allowed: ChampionIndex -> bool, first: ChampionIndex, rest: seq<ChampionIndex>)
    ensures Drawable(remaining, allowed, [first] + rest) == Stock(remaining, allowed, first) + Drawable(remaining, allowed, rest)
  {
    var all := [first] + rest;
    if rest == [] {
      assert all[..0] == [];
    } else {
      DrawableCons(remaining, allowed, first, rest[..|rest| - 1]);
      assert all[..|all| - 1] == [first] + rest[..|rest| - 1];
    }
  }

  // Copies are equally likely: member k is picked by exactly the rolls in one interval, as long as
  // its stock.
  lemma {:induction false} PickIsWeighted(remaining: seq<int>, allowed: ChampionIndex -> bool, members: seq<ChampionIndex>, roll: int, k: nat)
    requires forall m | 0 <= m < |remaining| :: remaining[m] >= 0
    requires forall a, b | 0 <= a < b < |members| :: members[a] != members[b]
    requires 0 <= roll && k < |members|
    ensures var before := Drawable(remaining, allowed, members[..k]);
            Pick(remaining, allowed, members, roll) == Some(members[k])
            <==> before <= roll < before + Stock(remaining, allowed, members[k])
  {
    var first, rest := members[0], members[1..];
    assert members[..0] == [];
    forall a, b | 0 <= a < b < |rest|
      ensures rest[a] != rest[b]
    {
      assert rest[a] == members[a + 1] && rest[b] == members[b + 1];
    }
    if k == 0 {
      PickMember(remaining, allowed, rest, roll - Stock(remaining, allowed, first));
      FirstIsAlone(members);
    } else {
      assert members[..k] == [first] + rest[..k - 1];
      DrawableCons(remaining, allowed, first, rest[..k - 1]);
      DrawableNonNegative(remaining, allowed, rest[..k - 1], 0);
      assert members[0] != members[k];
      if roll >= Stock(remaining, allowed, first) {
        PickIsWeighted(remaining, allowed, rest, roll - Stock(remaining, allowed, first), k - 1);
      }
    }
  }

  lemma FirstIsAlone(members: seq<ChampionIndex>)
    requires members != [] && forall a, b | 0 <= a < b < |members| :: members[a] != members[b]
    ensures members[0] !in members[1..]
  {
    forall k | 0 <= k < |members[1..]|
      ensures members[1..][k] != members[0]
    {
      assert members[1..][k] == members[k + 1];
    }
  }

  lemma {:induction false} PickMember(remaining: seq<int>, allowed: ChampionIndex -> bool, members: seq<ChampionIndex>, roll: int)
    ensures var p := Pick(remaining, allowed, members, roll); p.Some? ==> p.value in members
  {
    if members != [] && roll >= Stock(remaining, allowed, members[0]) {
      PickMember(remaining, allowed, members[1..], roll - Stock(remaining, allowed, members[0]));
    }
  }

  // Every roll below the total picks somebody who has a copy left.
  lemma {:induction false} PickFinds(remaining: seq<int>, allowed: ChampionIndex -> bool, members: seq<ChampionIndex>, roll: int)
    requires forall m | 0 <= m < |remaining| :: remaining[m] >= 0
    requires 0 <= roll < Drawable(remaining, allowed, members)
    ensures var p := Pick(remaining, allowed, members, roll);
            p.Some? && p.value in members && Stock(remaining, allowed, p.value) > 0
  {
    if members != [] {
      var first, rest := members[0], members[1..];
      assert members == [first] + rest;
      DrawableCons(remaining, allowed, first, rest);
      if roll >= Stock(remaining, allowed, first) {
        PickFinds(remaining, allowed, rest, roll - Stock(remaining, allowed, first));
      }
    }
  }

  // The rolls below the total that pick champion c.
  ghost function RollsFor(remaining: seq<int>, allowed: ChampionIndex -> bool, members: seq<ChampionIndex>, c: ChampionIndex): set<int>
  {
    set roll | 0 <= roll < Drawable(remaining, allowed, members) && Pick(remaining, allowed, members, roll) == Some(c)
  }

  ghost function Interval(from: int, size: nat): (r: set<int>)
    ensures |r| == size && forall x :: x in r <==> from <= x < from + size
  {
    if size == 0 then {} else Interval(from, size - 1) + {from + size - 1}
  }

  // There are exactly as many of them as the champion has copies left.
  lemma RollsPerChampion(remaining: seq<int>, allowed: ChampionIndex -> bool, members: seq<ChampionIndex>, k: nat)
    requires forall m | 0 <= m < |remaining| :: remaining[m] >= 0
    requires forall a, b | 0 <= a < b < |members| :: members[a] != members[b]
    requires k < |members|
    ensures |RollsFor(remaining, allowed, members, members[k])| == Stock(remaining, allowed, members[k])
  {
    var total, before := Drawable(remaining, allowed, members), Drawable(remaining, allowed, members[..k]);
    DrawableNonNegative(remaining, allowed, members, k);
    DrawableNonNegative(remaining, allowed, members, k + 1);
    DrawableNext(remaining, allowed, members, k);
    var rolls, interval := RollsFor(remaining, allowed, members, members[k]), Interval(before, Stock(remaining, allowed, members[k]));
    hide Drawable, Pick;
    forall roll
      ensures roll in rolls <==> roll in interval
    {
      if 0 <= roll < total {
        PickIsWeighted(remaining, allowed, members, roll, k);
      }
    }
    assert rolls == interval;
  }

  // A draw below a bound: any value.
  method NextBelow(bound: int) returns (r: int)
    requires bound > 0
    ensures 0 <= r < bound
  {
    r := *;
    if r < 0 || r >= bound {
      r := 0;
    }
  }

  // The champions of a tier, ascending.
  function Members(db: seq<Champion>, tier: int): seq<ChampionIndex> {
    if db == [] then []
    else Members(db[..|db| - 1], tier) + if db[|db| - 1].pooled && db[|db| - 1].cost == tier then [|db| - 1] else []
  }

  lemma {:induction false} MembersExact(db: seq<Champion>, tier: int)
    ensures var ms := Members(db, tier);
            && (forall i: nat :: i in ms <==> i < |db| && db[i].pooled && db[i].cost == tier)
            && (forall a, b | 0 <= a < b < |ms| :: ms[a] < ms[b])
            && (forall k | 0 <= k < |ms| :: ms[k] < |db|)
  {
    if db != [] {
      var n := |db| - 1;
      var init := db[..n];
      var ms, all := Members(init, tier), Members(db, tier);
      MembersExact(init, tier);
      assert all == if db[n].pooled && db[n].cost == tier then ms + [n] else ms;
      hide Members;
      forall i: nat
        ensures i in all <==> i < |db| && db[i].pooled && db[i].cost == tier
      {
        assert i in all <==> i in ms || (i == n && db[n].pooled && db[n].cost == tier);
        assert i < n ==> init[i] == db[i];
      }
      assert forall k | 0 <= k < |ms| :: ms[k] < n;
    }
  }

  // Everyone anybody may draw without having unlocked anything.
  function Ungated(db: seq<Champion>): ChampionIndex -> bool {
    (i: ChampionIndex) => i < |db| && !db[i].gated
  }

  function Anybody(): ChampionIndex -> bool {
    (i: ChampionIndex) => true
  }

  class SharedChampionPool {
    const db: seq<Champion>
    const initial: seq<nat>
    const tierMembers: seq<seq<ChampionIndex>>
    var remaining: seq<int>
    var tierRemaining: seq<int>

    // Counts stay within the supply, and every tier's total is the sum of its members'.
    ghost predicate Valid()
      reads this
    {
      && ChampionsOk(db) && |initial| == |db| && |tierMembers| == MAX_COST_TIER
      && (forall i | 0 <= i < |db| && !db[i].pooled :: initial[i] == 0)
      && (forall t | 0 <= t < MAX_COST_TIER :: tierMembers[t] == Members(db, t + 1))
      && CountsOk() && TotalsOk()
    }

    ghost predicate CountsOk()
      reads this
    {
      |remaining| == |db| == |initial| && forall i | 0 <= i < |remaining| :: 0 <= remaining[i] <= initial[i]
    }

    ghost predicate TotalsOk()
      reads this
    {
      && |tierRemaining| == MAX_COST_TIER && |remaining| == |db|
      && forall t | 0 <= t < MAX_COST_TIER :: tierRemaining[t] == TierTotal(db, remaining, t + 1)
    }

    constructor (db: seq<Champion>, copiesPerTier: seq<nat>)
      requires ChampionsOk(db) && |copiesPerTier| == MAX_COST_TIER
      ensures Valid() && this.db == db && forall i | 0 <= i < |db| :: remaining[i] == initial[i]
      ensures forall i | 0 <= i < |db| :: initial[i] == if db[i].pooled then copiesPerTier[db[i].cost - 1] else 0
    {
      this.db := db;
      var supply: seq<nat>, members: seq<seq<ChampionIndex>>, totals: seq<int> := [], [[], [], [], [], []], [0, 0, 0, 0, 0];
      for i := 0 to |db|
        invariant |supply| == i && |members| == |totals| == MAX_COST_TIER
        invariant forall k | 0 <= k < i :: supply[k] == if db[k].pooled then copiesPerTier[db[k].cost - 1] else 0
        invariant forall t | 0 <= t < MAX_COST_TIER :: members[t] == Members(db[..i], t + 1)
        invariant forall t | 0 <= t < MAX_COST_TIER :: totals[t] == TierTotal(db[..i], supply, t + 1)
      {
        assert db[..i + 1][..i] == db[..i];
        ghost var supply0 := supply;
        var c := db[i];
        if c.pooled {
          var copies := copiesPerTier[c.cost - 1];
          supply := supply + [copies];
          members := members[c.cost - 1 := members[c.cost - 1] + [i]];
          totals := totals[c.cost - 1 := totals[c.cost - 1] + copies];
        } else {
          supply := supply + [0];
        }
        forall t | 0 <= t < MAX_COST_TIER
          ensures totals[t] == TierTotal(db[..i + 1], supply, t + 1)
        {
          TierTotalGrown(db[..i], supply0, c, supply[i], t + 1);
          assert db[..i + 1] == db[..i] + [c];
        }
      }
      assert db[..|db|] == db;
      initial, remaining, tierMembers, tierRemaining := supply, supply, members, totals;
    }

    // Copies of a tier its owner's rules allow to be drawn.
    method DrawableInTier(tier: int, allowed: ChampionIndex -> bool) returns (total: int)
      requires Valid()
      ensures total == if 1 <= tier <= MAX_COST_TIER then DrawableOf(db, remaining, allowed, tier) else 0
      ensures total >= 0
    {
      if tier < 1 || tier > MAX_COST_TIER {
        return 0;
      }
      var members := tierMembers[tier - 1];
      MembersExact(db, tier);
      total := 0;
      for k := 0 to |members|
        invariant total == Drawable(remaining, allowed, members[..k])
      {
        DrawableNext(remaining, allowed, members, k);
        if allowed(members[k]) {
          total := total + remaining[members[k]];
        }
      }
      assert members[..|members|] == members;
      DrawableNonNegative(remaining, allowed, members, 0);
    }

    // Every copy of a tier, drawable or not.
    method RemainingInTier(tier: int) returns (total: int)
      requires Valid()
      ensures total == if 1 <= tier <= MAX_COST_TIER then TierTotal(db, remaining, tier) else 0
    {
      return if 1 <= tier <= MAX_COST_TIER then tierRemaining[tier - 1] else 0;
    }

    // One random copy leaves the pool; none only if the tier has no drawable copy.
    method DrawFromTier(tier: int, allowed: ChampionIndex -> bool) returns (drawn: Option<ChampionIndex>, ghost roll: int)
      requires Valid()
      modifies this
      ensures Valid()
      ensures 1 <= tier <= MAX_COST_TIER && DrawableOf(db, old(remaining), allowed, tier) > 0 ==>
                0 <= roll < DrawableOf(db, old(remaining), allowed, tier)
                && drawn.Some? && drawn == PickOf(db, old(remaining), allowed, tier, roll)
      ensures drawn.None? <==> !(1 <= tier <= MAX_COST_TIER && DrawableOf(db, old(remaining), allowed, tier) > 0)
      ensures drawn.None? ==> remaining == old(remaining)
      ensures drawn.Some? ==> Taken(db, old(remaining), remaining, drawn.value, 1) && allowed(drawn.value) && db[drawn.value].pooled
                              && db[drawn.value].cost == tier
    {
      var drawable := DrawableInTier(tier, allowed);
      roll := 0;
      if drawable <= 0 {
        return None, 0;
      }
      var members := tierMembers[tier - 1];
      MembersExact(db, tier);
      var value := NextBelow(drawable);
      var index := PickMemberAt(members, allowed, value);
      Change(index, -1);
      return Some(index), value;
    }

    method PickMemberAt(members: seq<ChampionIndex>, allowed: ChampionIndex -> bool, roll: int) returns (index: ChampionIndex)
      requires CountsOk() && forall k | 0 <= k < |members| :: members[k] < |remaining|
      requires 0 <= roll < Drawable(remaining, allowed, members)
      ensures Pick(remaining, allowed, members, roll) == Some(index) && index in members
      ensures index < |remaining| && allowed(index) && remaining[index] > 0
    {
      hide Drawable;
      var left := roll;
      PickFinds(remaining, allowed, members, roll);
      for k := 0 to |members|
        invariant 0 <= left
        invariant Pick(remaining, allowed, members, roll) == Pick(remaining, allowed, members[k..], left)
      {
        index := members[k];
        assert members[k..][1..] == members[k + 1..];
        if allowed(index) {
          if left < remaining[index] {
            return;
          }
          left := left - remaining[index];
        }
      }
      assert false;
    }

    // The bookkeeping of every change: the champion's count and its tier's total move together.
    method Change(index: ChampionIndex, by_: int)
      requires Valid() && index < |db| && db[index].pooled && 0 <= remaining[index] + by_ <= initial[index]
      modifies this
      ensures Valid() && Taken(db, old(remaining), remaining, index, -by_)
    {
      var tier := db[index].cost;
      forall t | 0 <= t < MAX_COST_TIER
        ensures TierTotal(db, remaining[index := remaining[index] + by_], t + 1)
             == tierRemaining[t] + if t == tier - 1 then by_ else 0
      {
        TierTotalChanged(db, remaining, index, remaining[index] + by_, t + 1);
      }
      remaining := remaining[index := remaining[index] + by_];
      tierRemaining := tierRemaining[tier - 1 := tierRemaining[tier - 1] + by_];
    }

    // Puts copies back; refused (and nothing changes) beyond the original supply.
    method Return(champion: ChampionIndex, copies: int) returns (ok: bool)
      requires Valid() && champion < |db|
      modifies this
      ensures Valid()
      ensures ok <==> copies > 0 && old(remaining)[champion] + copies <= initial[champion]
      ensures if ok then Taken(db, old(remaining), remaining, champion, -copies) else remaining == old(remaining)
    {
      if copies <= 0 || remaining[champion] + copies > initial[champion] {
        return false;
      }
      Change(champion, copies);
      return true;
    }

    // Checks copies of one champion out.
    method Take(champion: ChampionIndex, copies: int) returns (ok: bool)
      requires Valid() && champion < |db|
      modifies this
      ensures Valid()
      ensures ok <==> 0 < copies <= old(remaining)[champion]
      ensures if ok then Taken(db, old(remaining), remaining, champion, copies) else remaining == old(remaining)
    {
      if copies <= 0 || remaining[champion] < copies {
        return false;
      }
      Change(champion, -copies);
      return true;
    }

    // Replaces all counts, or refuses without changing anything.
    method RestoreRemaining(counts: seq<int>) returns (ok: bool)
      requires Valid()
      modifies this
      ensures Valid()
      ensures ok <==> |counts| == |db| && forall i | 0 <= i < |counts| :: 0 <= counts[i] <= initial[i]
      ensures remaining == if ok then counts else old(remaining)
    {
      if |counts| != |remaining| {
        return false;
      }
      for i := 0 to |counts|
        invariant forall k | 0 <= k < i :: 0 <= counts[k] <= initial[k]
      {
        if counts[i] < 0 || counts[i] > initial[i] {
          return false;
        }
      }
      var totals := [0, 0, 0, 0, 0];
      for i := 0 to |db|
        invariant |totals| == MAX_COST_TIER
        invariant forall t | 0 <= t < MAX_COST_TIER :: totals[t] == TierTotal(db[..i], counts, t + 1)
      {
        assert db[..i + 1][..i] == db[..i];
        totals := totals[db[i].cost - 1 := totals[db[i].cost - 1] + counts[i]];
      }
      assert db[..|db|] == db;
      remaining, tierRemaining := counts, totals;
      return true;
    }
  }

  // Every copy left in a tier. (Champions outside the pool have none.)
  function TierTotal(db: seq<Champion>, remaining: seq<int>, tier: int): int
    requires |db| <= |remaining|
  {
    if db == [] then 0
    else TierTotal(db[..|db| - 1], remaining, tier) + if db[|db| - 1].cost == tier then remaining[|db| - 1] else 0
  }

  lemma {:induction false} TierTotalGrown(db: seq<Champion>, remaining: seq<int>, c: Champion, copies: int, tier: int)
    requires |db| == |remaining|
    ensures TierTotal(db + [c], remaining + [copies], tier) == TierTotal(db, remaining, tier) + if c.cost == tier then copies else 0
  {
    assert (db + [c])[..|db|] == db;
    TierTotalPrefix(db, remaining, remaining + [copies], tier);
  }

  lemma {:induction false} TierTotalPrefix(db: seq<Champion>, a: seq<int>, b: seq<int>, tier: int)
    requires |db| <= |a| && |db| <= |b| && forall i | 0 <= i < |db| :: a[i] == b[i]
    ensures TierTotal(db, a, tier) == TierTotal(db, b, tier)
  {
    if db != [] {
      TierTotalPrefix(db[..|db| - 1], a, b, tier);
    }
  }

  lemma {:induction false} TierTotalChanged(db: seq<Champion>, remaining: seq<int>, i: ChampionIndex, v: int, tier: int)
    requires |db| <= |remaining| && i < |remaining|
    ensures TierTotal(db, remaining[i := v], tier) ==
            TierTotal(db, remaining, tier) + if i < |db| && db[i].cost == tier then v - remaining[i] else 0
  {
    if db != [] {
      TierTotalChanged(db[..|db| - 1], remaining, i, v, tier);
    }
  }

  // The total a tier keeps is what its members hold.
  lemma {:induction false} TierTotalIsDrawable(db: seq<Champion>, remaining: seq<int>, tier: int)
    requires |db| <= |remaining| && forall i | 0 <= i < |db| && !db[i].pooled :: remaining[i] == 0
    ensures TierTotal(db, remaining, tier) == Drawable(remaining, Anybody(), Members(db, tier))
  {
    if db != [] {
      var init := db[..|db| - 1];
      TierTotalIsDrawable(init, remaining, tier);
      var ms := Members(db, tier);
      if db[|db| - 1].pooled && db[|db| - 1].cost == tier {
        assert ms[..|ms| - 1] == Members(init, tier);
      } else {
        assert ms == Members(init, tier);
      }
    }
  }

  function DrawableOf(db: seq<Champion>, remaining: seq<int>, allowed: ChampionIndex -> bool, tier: int): int
  {
    Drawable(remaining, allowed, Members(db, tier))
  }

  function PickOf(db: seq<Champion>, remaining: seq<int>, allowed: ChampionIndex -> bool, tier: int, roll: int): Option<ChampionIndex>
  {
    Pick(remaining, allowed, Members(db, tier), roll)
  }

  // Only champion i's count has changed: `copies` of it are gone.
  ghost predicate Taken(db: seq<Champion>, before: seq<int>, after: seq<int>, i: ChampionIndex, copies: int) {
    i < |db| && |before| == |db| && after == before[i := before[i] - copies]
  }
}
