// Final placements (server/src/MatchManager.cpp:289-306), on values.
module Placements {
  function AliveCount(eliminated: seq<bool>): nat {
    if eliminated == [] then 0
    else AliveCount(eliminated[..|eliminated| - 1]) + if eliminated[|eliminated| - 1] then 0 else 1
  }

  lemma {:induction false} AliveBound(eliminated: seq<bool>)
    ensures AliveCount(eliminated) <= |eliminated|
  {
    if eliminated != [] {
      AliveBound(eliminated[..|eliminated| - 1]);
    }
  }

  lemma {:induction false} AliveFewer(eliminated: seq<bool>, i: nat)
    requires i < |eliminated| && !eliminated[i]
    ensures AliveCount(eliminated[i := true]) == AliveCount(eliminated) - 1
  {
    var n := |eliminated| - 1;
    if i == n {
      assert eliminated[i := true][..n] == eliminated[..n];
    } else {
      AliveFewer(eliminated[..n], i);
      assert eliminated[i := true][..n] == eliminated[..n][i := true];
    }
  }

  lemma {:induction false} NobodyOut(eliminated: seq<bool>)
    requires forall i | 0 <= i < |eliminated| :: !eliminated[i]
    ensures AliveCount(eliminated) == |eliminated|
  {
    if eliminated != [] {
      NobodyOut(eliminated[..|eliminated| - 1]);
    }
  }

  lemma {:induction false} SomebodyAlive(eliminated: seq<bool>)
    requires AliveCount(eliminated) > 0
    ensures exists i :: 0 <= i < |eliminated| && !eliminated[i]
  {
    var n := |eliminated| - 1;
    if eliminated[n] {
      SomebodyAlive(eliminated[..n]);
      var i :| 0 <= i < n && !eliminated[..n][i];
      assert !eliminated[i];
    }
  }

  lemma {:induction false} NobodyElse(eliminated: seq<bool>, i: nat, j: nat)
    requires i < j < |eliminated| && !eliminated[i] && !eliminated[j]
    ensures AliveCount(eliminated) >= 2
  {
    AliveFewer(eliminated, i);
    AliveFewer(eliminated[i := true], j);
  }

  // Somebody who is out holds placement k.
  ghost predicate Holds(eliminated: seq<bool>, place: seq<int>, k: int)
    requires |eliminated| == |place|
  {
    exists i | 0 <= i < |place| :: eliminated[i] && place[i] == k
  }

  // Those who are out hold exactly the placements behind the living, each once.
  ghost predicate PlacesOk(eliminated: seq<bool>, place: seq<int>) {
    && |eliminated| == |place|
    && (forall i | 0 <= i < |place| :: if eliminated[i] then AliveCount(eliminated) < place[i] <= |place| else place[i] == 0)
    && (forall i, j | 0 <= i < j < |place| && eliminated[i] && eliminated[j] :: place[i] != place[j])
    && (forall k | AliveCount(eliminated) < k <= |place| :: Holds(eliminated, place, k))
  }

  lemma StartPlaces(eliminated: seq<bool>, place: seq<int>)
    requires |eliminated| == |place| && forall i | 0 <= i < |place| :: !eliminated[i] && place[i] == 0
    ensures PlacesOk(eliminated, place)
  {
    NobodyOut(eliminated);
  }

  // The next one out takes the worst placement that is left.
  lemma PlaceNext(eliminated: seq<bool>, place: seq<int>, i: nat)
    requires PlacesOk(eliminated, place) && i < |place| && !eliminated[i]
    ensures PlacesOk(eliminated[i := true], place[i := AliveCount(eliminated)])
  {
    AliveFewer(eliminated, i);
    AliveBound(eliminated);
    var e, p := eliminated[i := true], place[i := AliveCount(eliminated)];
    forall k | AliveCount(e) < k <= |p|
      ensures Holds(e, p, k)
    {
      if k == AliveCount(eliminated) {
        assert e[i] && p[i] == k;
      } else {
        assert Holds(eliminated, place, k);
        var j :| 0 <= j < |place| && eliminated[j] && place[j] == k;
        assert e[j] && p[j] == k;
      }
    }
  }

  // All placements 1..n, each exactly once.
  ghost predicate Permutation(place: seq<int>) {
    && (forall i | 0 <= i < |place| :: 1 <= place[i] <= |place|)
    && (forall i, j | 0 <= i < j < |place| :: place[i] != place[j])
    && (forall k | 1 <= k <= |place| :: k in place)
  }

  // One survivor: it takes placement 1 and the placements are complete.
  lemma SurvivorCompletes(eliminated: seq<bool>, place: seq<int>, i: nat)
    requires PlacesOk(eliminated, place) && i < |place| && !eliminated[i] && AliveCount(eliminated) == 1
    ensures Permutation(place[i := 1])
  {
    forall j | 0 <= j < |place| && j != i
      ensures eliminated[j]
    {
      if !eliminated[j] {
        NobodyElse(eliminated, if i < j then i else j, if i < j then j else i);
      }
    }
    var p := place[i := 1];
    forall k | 1 <= k <= |p|
      ensures k in p
    {
      if k == 1 {
        assert p[i] == k;
      } else {
        assert Holds(eliminated, place, k);
        var j :| 0 <= j < |place| && eliminated[j] && place[j] == k;
        assert p[j] == k;
      }
    }
  }

  // Everyone fell: the placements are complete as they are.
  lemma AllFallen(eliminated: seq<bool>, place: seq<int>)
    requires PlacesOk(eliminated, place) && AliveCount(eliminated) == 0
    ensures Permutation(place)
  {
    forall i | 0 <= i < |place|
      ensures eliminated[i]
    {
      if !eliminated[i] {
        AliveFewer(eliminated, i);
      }
    }
    forall k | 1 <= k <= |place|
      ensures k in place
    {
      assert Holds(eliminated, place, k);
    }
  }

  // ---- Who falls first -----------------------------------------------------------------------------

  // Lowest health places worst; at equal health the higher seat does.
  predicate Worse(health: seq<int>, a: nat, b: nat)
    requires a < |health| && b < |health|
  {
    health[a] < health[b] || (health[a] == health[b] && a > b)
  }

  predicate Seats(health: seq<int>, ids: seq<nat>) {
    forall i | 0 <= i < |ids| :: ids[i] < |health|
  }

  predicate WorstFirst(health: seq<int>, ids: seq<nat>)
    requires Seats(health, ids)
  {
    forall i, j | 0 <= i < j < |ids| :: Worse(health, ids[i], ids[j])
  }

  function InsertWorst(health: seq<int>, ids: seq<nat>, a: nat): (r: seq<nat>)
    requires a < |health| && Seats(health, ids)
    ensures Seats(health, r)
  {
    if ids == [] || Worse(health, a, ids[0]) then [a] + ids else [ids[0]] + InsertWorst(health, ids[1..], a)
  }

  function SortWorst(health: seq<int>, ids: seq<nat>): (r: seq<nat>)
    requires Seats(health, ids)
    ensures Seats(health, r)
  {
    if ids == [] then [] else InsertWorst(health, SortWorst(health, ids[1..]), ids[0])
  }

  lemma {:induction false} InsertWorstExact(health: seq<int>, ids: seq<nat>, a: nat)
    requires a < |health| && Seats(health, ids) && WorstFirst(health, ids) && a !in ids
    ensures var r := InsertWorst(health, ids, a);
            WorstFirst(health, r) && |r| == |ids| + 1 && forall x: nat :: x in r <==> x == a || x in ids
  {
    if ids != [] && !Worse(health, a, ids[0]) {
      var first, rest := ids[0], ids[1..];
      forall i, j | 0 <= i < j < |rest|
        ensures Worse(health, rest[i], rest[j])
      {
        assert rest[i] == ids[i + 1] && rest[j] == ids[j + 1];
      }
      InsertWorstExact(health, rest, a);
      var r := InsertWorst(health, rest, a);
      forall j | 0 <= j < |r|
        ensures Worse(health, first, r[j])
      {
        assert r[j] in r;
        if r[j] != a {
          var m :| 0 <= m < |rest| && rest[m] == r[j];
          assert ids[m + 1] == rest[m];
        }
      }
    } else if ids != [] {
      forall j | 0 <= j < |ids|
        ensures Worse(health, a, ids[j])
      {
        assert j > 0 ==> Worse(health, ids[0], ids[j]);
      }
    }
  }

  lemma {:induction false} SortWorstExact(health: seq<int>, ids: seq<nat>)
    requires Seats(health, ids) && forall i, j | 0 <= i < j < |ids| :: ids[i] != ids[j]
    ensures var r := SortWorst(health, ids); WorstFirst(health, r) && |r| == |ids| && forall x: nat :: x in r <==> x in ids
  {
    if ids != [] {
      var rest := ids[1..];
      forall i, j | 0 <= i < j < |rest|
        ensures rest[i] != rest[j]
      {
        assert rest[i] == ids[i + 1] && rest[j] == ids[j + 1];
      }
      SortWorstExact(health, rest);
      forall i | 0 <= i < |rest|
        ensures rest[i] != ids[0]
      {
        assert rest[i] == ids[i + 1];
      }
      InsertWorstExact(health, SortWorst(health, rest), ids[0]);
    }
  }
}
