// Hex-grid geometry, "odd-r" offset layout: x is the column, y the row, odd rows are shifted right.
// Modelled from server/include/w2f/Hex.h.
module Hex {
  const BOARD_COLUMNS := 7
  const BOARD_ROWS := 4
  const ARENA_COLUMNS := BOARD_COLUMNS
  const ARENA_ROWS := BOARD_ROWS * 2
  const DIRECTIONS := 6

  datatype HexCoord = HexCoord(x: int, y: int)

  datatype Axial = Axial(q: int, r: int)

  function Abs(v: int): nat {
    if v < 0 then -v else v
  }

  function ToAxial(c: HexCoord): Axial {
    Axial(c.x - (c.y - c.y % 2) / 2, c.y)
  }

  function FromAxial(a: Axial): HexCoord {
    HexCoord(a.q + (a.r - a.r % 2) / 2, a.r)
  }

  function Distance(a: HexCoord, b: HexCoord): nat {
    var pa, pb := ToAxial(a), ToAxial(b);
    var dq, dr := pa.q - pb.q, pa.r - pb.r;
    (Abs(dq) + Abs(dr) + Abs(dq + dr)) / 2
  }

  // Directions in the source's fixed order: E, NE, NW, W, SW, SE (north = smaller y).
  function Neighbor(c: HexCoord, direction: nat): HexCoord
    requires direction < DIRECTIONS
  {
    var odd := c.y % 2;
    match direction
    case 0 => HexCoord(c.x + 1, c.y)
    case 1 => HexCoord(c.x + odd, c.y - 1)
    case 2 => HexCoord(c.x + odd - 1, c.y - 1)
    case 3 => HexCoord(c.x - 1, c.y)
    case 4 => HexCoord(c.x + odd - 1, c.y + 1)
    case _ => HexCoord(c.x + odd, c.y + 1)
  }

  predicate InBounds(c: HexCoord, width: int, height: int) {
    0 <= c.x < width && 0 <= c.y < height
  }

  predicate Adjacent(a: HexCoord, b: HexCoord) {
    exists d: nat | d < DIRECTIONS :: Neighbor(a, d) == b
  }

  // The in-bounds neighbours of `c` from direction `d` on, in direction order.
  function NeighborsFrom(c: HexCoord, width: int, height: int, d: nat): seq<HexCoord>
    requires d <= DIRECTIONS
    decreases DIRECTIONS - d
  {
    if d == DIRECTIONS then []
    else
      var rest := NeighborsFrom(c, width, height, d + 1);
      if InBounds(Neighbor(c, d), width, height) then [Neighbor(c, d)] + rest else rest
  }

  function Neighbors(c: HexCoord, width: int, height: int): seq<HexCoord> {
    NeighborsFrom(c, width, height, 0)
  }

  lemma {:induction false} NeighborsFromExact(c: HexCoord, width: int, height: int, d: nat, n: HexCoord)
    requires d <= DIRECTIONS
    ensures n in NeighborsFrom(c, width, height, d) <==>
            InBounds(n, width, height) && exists k: nat | d <= k < DIRECTIONS :: Neighbor(c, k) == n
    decreases DIRECTIONS - d
  {
    if d < DIRECTIONS {
      NeighborsFromExact(c, width, height, d + 1, n);
    }
  }

  // Neighbors lists exactly the in-bounds hexes one step away.
  lemma NeighborsExact(c: HexCoord, width: int, height: int, n: HexCoord)
    ensures n in Neighbors(c, width, height) <==> InBounds(n, width, height) && Adjacent(c, n)
  {
    NeighborsFromExact(c, width, height, 0, n);
  }

  // ---- What the distance formula means -------------------------------------------------------

  // The hex norm of an axial difference: the largest of its three absolute components.
  function Norm(dq: int, dr: int): nat {
    if (0 <= dq && 0 <= dr) || (dq <= 0 && dr <= 0) then Abs(dq + dr)
    else if Abs(dq) >= Abs(dr) then Abs(dq)
    else Abs(dr)
  }

  function AxialNorm(pa: Axial, pb: Axial): nat {
    Norm(pa.q - pb.q, pa.r - pb.r)
  }

  lemma DistanceIsNorm(a: HexCoord, b: HexCoord)
    ensures Distance(a, b) == AxialNorm(ToAxial(a), ToAxial(b))
  {
  }

  lemma NormTriangle(pa: Axial, pb: Axial, pc: Axial)
    ensures AxialNorm(pa, pc) <= AxialNorm(pa, pb) + AxialNorm(pb, pc)
    ensures AxialNorm(pa, pb) == AxialNorm(pb, pa)
    ensures AxialNorm(pa, pb) == 0 <==> pa == pb
  {
  }

  lemma AxialRoundTrip(c: HexCoord)
    ensures FromAxial(ToAxial(c)) == c
  {
  }

  lemma DistanceTriangle(a: HexCoord, b: HexCoord, c: HexCoord)
    ensures Distance(a, c) <= Distance(a, b) + Distance(b, c)
    ensures Distance(a, b) == Distance(b, a)
    ensures Distance(a, b) == 0 <==> a == b
  {
    NormTriangle(ToAxial(a), ToAxial(b), ToAxial(c));
    DistanceIsNorm(a, b);
    DistanceIsNorm(b, a);
    DistanceIsNorm(b, c);
    DistanceIsNorm(a, c);
    AxialRoundTrip(a);
    AxialRoundTrip(b);
  }

  // The axial step of each direction: the same on even and odd rows.
  function AxialStep(direction: nat): (int, int)
    requires direction < DIRECTIONS
  {
    match direction
    case 0 => (1, 0)
    case 1 => (1, -1)
    case 2 => (0, -1)
    case 3 => (-1, 0)
    case 4 => (-1, 1)
    case _ => (0, 1)
  }

  // Stepping repeatedly in one direction walks a straight line: row parity cancels out.
  lemma NeighborIsAxialStep(c: HexCoord, direction: nat)
    requires direction < DIRECTIONS
    ensures ToAxial(Neighbor(c, direction)) ==
            Axial(ToAxial(c).q + AxialStep(direction).0, ToAxial(c).r + AxialStep(direction).1)
  {
  }

  // Distance 1 is exactly adjacency.
  lemma AdjacentIsDistanceOne(a: HexCoord, b: HexCoord)
    ensures Adjacent(a, b) <==> Distance(a, b) == 1
  {
    var pa, pb := ToAxial(a), ToAxial(b);
    DistanceIsNorm(a, b);
    AxialRoundTrip(b);
    forall d: nat | d < DIRECTIONS
      ensures ToAxial(Neighbor(a, d)) == Axial(pa.q + AxialStep(d).0, pa.r + AxialStep(d).1)
      ensures FromAxial(ToAxial(Neighbor(a, d))) == Neighbor(a, d)
    {
      NeighborIsAxialStep(a, d);
      AxialRoundTrip(Neighbor(a, d));
    }
    if Distance(a, b) == 1 {
      var d := StepTo(pb.q - pa.q, pb.r - pa.r);
      assert Neighbor(a, d) == b;
    }
  }

  // The direction of an axial step of norm 1.
  function StepTo(dq: int, dr: int): (d: nat)
    requires Norm(dq, dr) == 1
    ensures d < DIRECTIONS && AxialStep(d) == (dq, dr)
  {
    if dr == 0 then (if dq == 1 then 0 else 3)
    else if dr == -1 then (if dq == 1 then 1 else 2)
    else (if dq == -1 then 4 else 5)
  }

  // The lowest index with the least score, scanning from `d`.
  function BestFrom(scores: seq<int>, best: nat, d: nat): (r: nat)
    requires best < |scores| && d <= |scores|
    ensures r < |scores| && scores[r] <= scores[best]
    ensures forall k | d <= k < |scores| :: scores[r] <= scores[k]
    decreases |scores| - d
  {
    if d == |scores| then best
    else if scores[d] < scores[best] then BestFrom(scores, d, d + 1)
    else BestFrom(scores, best, d + 1)
  }

  // The direction whose neighbour ends up closest to `to`; ties go to the lowest direction.
  function DirectionToward(from: HexCoord, to: HexCoord): (r: nat)
    ensures r < DIRECTIONS
  {
    BestFrom(seq(DIRECTIONS, k requires 0 <= k < DIRECTIONS => Distance(Neighbor(from, k), to) as int), 0, 1)
  }

  // An axial direction along which the norm drops by one.
  function Closer(dq: int, dr: int): (d: nat)
    requires (dq, dr) != (0, 0)
    ensures d < DIRECTIONS && Norm(dq - AxialStep(d).0, dr - AxialStep(d).1) == Norm(dq, dr) - 1
  {
    if dr == 0 then (if dq > 0 then 0 else 3)
    else if dr < 0 then (if dq > 0 then 1 else 2)
    else (if dq < 0 then 4 else 5)
  }

  lemma SomeDirectionApproaches(from: HexCoord, to: HexCoord) returns (back: nat)
    requires from != to
    ensures back < DIRECTIONS && Distance(Neighbor(from, back), to) == Distance(from, to) - 1
  {
    var pa, pb := ToAxial(from), ToAxial(to);
    AxialRoundTrip(from);
    AxialRoundTrip(to);
    hide ToAxial, FromAxial, Distance, Neighbor;
    var d := Closer(pa.q - pb.q, pa.r - pb.r);
    back := if d < 3 then d + 3 else d - 3;
    NeighborIsAxialStep(from, back);
    DistanceIsNorm(from, to);
    DistanceIsNorm(Neighbor(from, back), to);
  }

  // From any other hex, DirectionToward really gets one step closer.
  lemma DirectionTowardApproaches(from: HexCoord, to: HexCoord)
    requires from != to
    ensures Distance(Neighbor(from, DirectionToward(from, to)), to) == Distance(from, to) - 1
  {
    var back := SomeDirectionApproaches(from, to);
    var scores := seq(DIRECTIONS, k requires 0 <= k < DIRECTIONS => Distance(Neighbor(from, k), to) as int);
    var best := BestFrom(scores, 0, 1);
    assert scores[best] <= scores[back];
    StepIsDistanceOne(from, best);
    DistanceTriangle(from, Neighbor(from, best), to);
  }

  lemma StepIsDistanceOne(c: HexCoord, direction: nat)
    requires direction < DIRECTIONS
    ensures Distance(c, Neighbor(c, direction)) == 1
  {
    assert Adjacent(c, Neighbor(c, direction));
    AdjacentIsDistanceOne(c, Neighbor(c, direction));
  }

  // A walk on the unbounded plane: each step goes to an adjacent hex.
  ghost predicate Walk(path: seq<HexCoord>) {
    forall k | 0 <= k < |path| - 1 :: Distance(path[k], path[k + 1]) == 1
  }

  // "Minimum number of steps between two hexes": no walk is shorter ...
  lemma {:induction false} WalkNotShorter(path: seq<HexCoord>)
    requires |path| >= 1 && Walk(path)
    ensures Distance(path[0], path[|path| - 1]) <= |path| - 1
  {
    if |path| == 1 {
      DistanceTriangle(path[0], path[0], path[0]);
    } else {
      var init := path[..|path| - 1];
      WalkNotShorter(init);
      DistanceTriangle(path[0], init[|init| - 1], path[|path| - 1]);
      assert Distance(path[|path| - 2], path[|path| - 2 + 1]) == 1;
    }
  }

  // ... and one of exactly that length exists.
  lemma {:induction false} WalkOfDistance(a: HexCoord, b: HexCoord) returns (path: seq<HexCoord>)
    ensures |path| == Distance(a, b) + 1 && path[0] == a && path[|path| - 1] == b && Walk(path)
    decreases Distance(a, b)
  {
    DistanceTriangle(a, b, a);
    if a == b {
      path := [a];
    } else {
      DirectionTowardApproaches(a, b);
      var next := Neighbor(a, DirectionToward(a, b));
      var rest := WalkOfDistance(next, b);
      StepIsDistanceOne(a, DirectionToward(a, b));
      path := [a] + rest;
      forall k | 0 <= k < |path| - 1
        ensures Distance(path[k], path[k + 1]) == 1
      {
        if k > 0 {
          assert Distance(rest[k - 1], rest[k - 1 + 1]) == 1;
        }
      }
    }
  }

  // ---- Board to arena ------------------------------------------------------------------------

  datatype ArenaSide = Home | Away

  function BoardToArena(x: int, y: int, side: ArenaSide): HexCoord {
    match side
    case Home => HexCoord(x, y)
    case Away => HexCoord(ARENA_COLUMNS - 1 - x, ARENA_ROWS - 1 - y)
  }

  // The away side's half turn keeps every distance, so a formation looks the same to both players.
  lemma BoardToArenaIsometry(a: HexCoord, b: HexCoord, side: ArenaSide)
    ensures Distance(BoardToArena(a.x, a.y, side), BoardToArena(b.x, b.y, side)) == Distance(a, b)
  {
    var ta, tb := BoardToArena(a.x, a.y, side), BoardToArena(b.x, b.y, side);
    if side == Away {
      DistanceIsNorm(a, b);
      DistanceIsNorm(ta, tb);
      TurnedAround(a, b);
      hide Distance, ToAxial;
      NormTurned(ToAxial(a).q - ToAxial(b).q, ToAxial(a).r - ToAxial(b).r);
    }
  }

  lemma TurnedAround(a: HexCoord, b: HexCoord)
    ensures var ta, tb := BoardToArena(a.x, a.y, Away), BoardToArena(b.x, b.y, Away);
            ToAxial(ta).q - ToAxial(tb).q == -(ToAxial(a).q - ToAxial(b).q) && ToAxial(ta).r - ToAxial(tb).r == -(ToAxial(a).r - ToAxial(b).r)
  {
  }

  lemma NormTurned(dq: int, dr: int)
    ensures Norm(-dq, -dr) == Norm(dq, dr)
  {
  }
}
