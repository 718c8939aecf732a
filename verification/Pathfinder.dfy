// Occupancy grid and shortest paths, modelled from server/src/Hex.cpp.
module Pathfinder {
  import opened Wrappers
  import opened Hex
  import opened GraphSearch
  import opened Arithmetic

  // The value of a HexGrid: row-major occupancy flags.
  datatype Grid = Grid(width: nat, height: nat, blocked: seq<bool>) {
    predicate Valid() {
      |blocked| == width * height
    }

    predicate IsBlocked(c: HexCoord)
      requires Valid()
    {
      !InBounds(c, width, height) || (IndexInRange(c, width, height); blocked[Index(c, width)])
    }
  }

  function Index(c: HexCoord, width: nat): int {
    c.y * width + c.x
  }

  function CoordOf(index: nat, width: nat): HexCoord
    requires width > 0
  {
    HexCoord(index % width, index / width)
  }

  lemma IndexInRange(c: HexCoord, width: nat, height: nat)
    requires InBounds(c, width, height)
    ensures 0 <= Index(c, width) < width * height
  {
    MulMono(0, c.y, width);
    MulMono(c.y + 1, height, width);
    MulNext(c.y, width);
  }

  // Cell indices and in-bounds coordinates name each other.
  lemma CoordOfIndex(c: HexCoord, width: nat, height: nat)
    requires InBounds(c, width, height)
    ensures 0 <= Index(c, width) < width * height && CoordOf(Index(c, width), width) == c
  {
    IndexInRange(c, width, height);
    DivUnique(Index(c, width), width, c.y);
  }

  ghost function Cells(g: Grid): set<HexCoord> {
    set x, y | 0 <= x < g.width && 0 <= y < g.height :: HexCoord(x, y)
  }

  // The neighbours a search may enter, in direction order.
  function FreeOf(g: Grid, ns: seq<HexCoord>): seq<HexCoord>
    requires g.Valid()
  {
    if ns == [] then []
    else if g.IsBlocked(ns[0]) then FreeOf(g, ns[1..])
    else [ns[0]] + FreeOf(g, ns[1..])
  }

  lemma {:induction false} FreeOfExact(g: Grid, ns: seq<HexCoord>, c: HexCoord)
    requires g.Valid()
    ensures c in FreeOf(g, ns) <==> c in ns && !g.IsBlocked(c)
  {
    if ns != [] {
      FreeOfExact(g, ns[1..], c);
    }
  }

  function Steps(g: Grid): HexCoord -> seq<HexCoord>
    requires g.Valid()
  {
    c => FreeOf(g, Neighbors(c, g.width, g.height))
  }

  // A legal step: onto a free adjacent hex.
  predicate StepOk(g: Grid, a: HexCoord, b: HexCoord)
    requires g.Valid()
  {
    !g.IsBlocked(b) && Adjacent(a, b)
  }

  lemma StepsExact(g: Grid, a: HexCoord, b: HexCoord)
    requires g.Valid()
    ensures b in Steps(g)(a) <==> StepOk(g, a, b)
  {
    NeighborsExact(a, g.width, g.height, b);
    FreeOfExact(g, Neighbors(a, g.width, g.height), b);
  }

  lemma StepsClosed(g: Grid)
    requires g.Valid()
    ensures Closed(Cells(g), Steps(g))
  {
    forall v, n | n in Steps(g)(v)
      ensures n in Cells(g)
    {
      StepsExact(g, v, n);
      assert HexCoord(n.x, n.y) == n;
    }
  }

  // A route from `start`: legal steps only (the start itself may be occupied).
  predicate IsPath(g: Grid, start: HexCoord, path: seq<HexCoord>)
    requires g.Valid()
  {
    forall k | 0 <= k < |path| :: StepOk(g, At(start, path, k), path[k])
  }

  lemma PathIsRoute(g: Grid, start: HexCoord, path: seq<HexCoord>)
    requires g.Valid()
    ensures IsPath(g, start, path) <==> IsRoute(Steps(g), start, path)
  {
    forall k | 0 <= k < |path|
      ensures StepOk(g, At(start, path, k), path[k]) <==> path[k] in Steps(g)(At(start, path, k))
    {
      StepsExact(g, At(start, path, k), path[k]);
    }
  }

  // The whole search, from a clean table.
  function SearchRoute(g: Grid, start: HexCoord, isGoal: HexCoord -> bool): Option<seq<HexCoord>>
    requires g.Valid()
  {
    StepsClosed(g);
    if !InBounds(start, g.width, g.height) then None else Bfs(Cells(g), Steps(g), isGoal, [start], [0], 0)
  }

  // Sound, shortest and complete: whatever path is returned is a legal one to a goal, no legal path
  // to any goal is shorter, and "not found" means that no legal path exists.
  lemma SearchIsShortest(g: Grid, start: HexCoord, isGoal: HexCoord -> bool, path: seq<HexCoord>)
    requires g.Valid() && InBounds(start, g.width, g.height)
    ensures var r := SearchRoute(g, start, isGoal);
            && (r.Some? ==> IsPath(g, start, r.value) && isGoal(EndOf(start, r.value)))
            && (IsPath(g, start, path) && isGoal(EndOf(start, path)) ==> r.Some? && |r.value| <= |path|)
  {
    SearchRouteIsShortest(g, start, isGoal);
    PathIsRoute(g, start, path);
    var r := SearchRoute(g, start, isGoal);
    if r.Some? {
      PathIsRoute(g, start, r.value);
    }
  }

  lemma SearchRouteIsShortest(g: Grid, start: HexCoord, isGoal: HexCoord -> bool)
    requires g.Valid() && InBounds(start, g.width, g.height)
    ensures Shortest(Steps(g), isGoal, start, SearchRoute(g, start, isGoal))
  {
    StepsClosed(g);
    BfsFromStart(Cells(g), Steps(g), isGoal, start);
  }

  lemma ExpandSkip(g: Grid, ns: seq<HexCoord>, q: seq<HexCoord>, from: seq<nat>, head: nat)
    requires g.Valid() && ns != [] && |q| == |from|
    ensures Expand(FreeOf(g, ns), q, from, head) ==
            if ns[0] in q || g.IsBlocked(ns[0]) then Expand(FreeOf(g, ns[1..]), q, from, head)
            else Expand(FreeOf(g, ns[1..]), q + [ns[0]], from + [head], head)
  {
    ExpandCons(ns[0], FreeOf(g, ns[1..]), q, from, head);
  }

  // ---- The grid object -----------------------------------------------------------------------

  class HexGrid {
    const width: nat
    const height: nat
    const blocked: array<bool>

    ghost predicate Valid() {
      blocked.Length == width * height
    }

    ghost function Model(): (g: Grid)
      reads blocked
      requires Valid()
      ensures g.Valid() && g.width == width && g.height == height
    {
      Grid(width, height, blocked[..])
    }

    constructor (width: nat, height: nat)
      ensures Valid() && this.width == width && this.height == height && fresh(blocked)
      ensures forall c | InBounds(c, width, height) :: !Model().IsBlocked(c)
    {
      this.width, this.height := width, height;
      blocked := new bool[width * height](_ => false);
      new;
      forall c | InBounds(c, width, height)
        ensures !Model().IsBlocked(c)
      {
        IndexInRange(c, width, height);
      }
    }

    method IsBlocked(c: HexCoord) returns (b: bool)
      requires Valid()
      ensures b == Model().IsBlocked(c)
    {
      if !InBounds(c, width, height) {
        return true;
      }
      IndexInRange(c, width, height);
      return blocked[Index(c, width)];
    }

    // Out of bounds nothing happens; otherwise exactly the cell `c` changes.
    method SetBlocked(c: HexCoord, b: bool)
      requires Valid()
      modifies blocked
      ensures forall h | InBounds(h, width, height) ::
                Model().IsBlocked(h) == if h == c then b else old(Model()).IsBlocked(h)
    {
      if InBounds(c, width, height) {
        IndexInRange(c, width, height);
        blocked[Index(c, width)] := b;
        forall h | InBounds(h, width, height)
          ensures Model().IsBlocked(h) == if h == c then b else old(Model()).IsBlocked(h)
        {
          CoordOfIndex(h, width, height);
          CoordOfIndex(c, width, height);
        }
      }
    }
  }

  // ---- The pathfinder object -----------------------------------------------------------------

  const STAMP_LIMIT: nat := 0x1_0000_0000

  // The tables of a pathfinder describe the value search (q, from): `queue` lists q's cells, a cell
  // carries the current stamp iff it is queued, and `parent` holds the cell that discovered it.
  ghost predicate TablesMatch(width: nat, height: nat, stamp: nat, stamps: seq<nat>, parents: seq<int>,
                              queue: seq<nat>, q: seq<HexCoord>, from: seq<nat>)
  {
    && |stamps| == |parents| == width * height
    && |queue| == |q| == |from|
    && (forall k | 0 <= k < |q| :: InBounds(q[k], width, height) && queue[k] < |parents| && queue[k] == Index(q[k], width))
    && (forall k | 0 < k < |q| :: from[k] < k && parents[queue[k]] == queue[from[k]])
    && (forall j, k | 0 <= j < k < |q| :: q[j] != q[k])
    && (forall c | InBounds(c, width, height) :: Stamped(width, stamp, stamps, c) <==> c in q)
  }

  predicate Stamped(width: nat, stamp: nat, stamps: seq<nat>, c: HexCoord) {
    0 <= Index(c, width) < |stamps| && stamps[Index(c, width)] == stamp
  }

  lemma TablesMatchStart(width: nat, height: nat, stamp: nat, stamps: seq<nat>, parents: seq<int>, start: HexCoord)
    requires InBounds(start, width, height) && |stamps| == |parents| == width * height
    requires forall i | 0 <= i < |stamps| :: stamps[i] != stamp
    ensures 0 <= Index(start, width) < width * height
    ensures var i := Index(start, width);
            TablesMatch(width, height, stamp, stamps[i := stamp], parents[i := -1], [i], [start], [0])
  {
    CoordOfIndex(start, width, height);
    var i := Index(start, width);
    forall c | InBounds(c, width, height)
      ensures Stamped(width, stamp, stamps[i := stamp], c) <==> c in [start]
    {
      CoordOfIndex(c, width, height);
    }
  }

  lemma TablesCoord(width: nat, height: nat, stamp: nat, stamps: seq<nat>, parents: seq<int>,
                    queue: seq<nat>, q: seq<HexCoord>, from: seq<nat>, k: nat)
    requires width > 0 && TablesMatch(width, height, stamp, stamps, parents, queue, q, from) && k < |q|
    ensures CoordOf(queue[k], width) == q[k] && (queue[k] == queue[0] <==> k == 0)
    ensures queue[k] < |parents| && (k > 0 ==> from[k] < k && parents[queue[k]] == queue[from[k]])
  {
    CoordOfIndex(q[k], width, height);
    CoordOfIndex(q[0], width, height);
  }

  lemma TablesMatchPush(width: nat, height: nat, stamp: nat, stamps: seq<nat>, parents: seq<int>,
                        queue: seq<nat>, q: seq<HexCoord>, from: seq<nat>, next: HexCoord, head: nat)
    requires TablesMatch(width, height, stamp, stamps, parents, queue, q, from)
    requires InBounds(next, width, height) && head < |q|
    requires !Stamped(width, stamp, stamps, next)
    ensures 0 <= Index(next, width) < width * height
    ensures var i := Index(next, width);
            TablesMatch(width, height, stamp, stamps[i := stamp], parents[i := queue[head]], queue + [i], q + [next], from + [head])
  {
    CoordOfIndex(next, width, height);
    var i := Index(next, width);
    forall c | InBounds(c, width, height)
      ensures Stamped(width, stamp, stamps[i := stamp], c) <==> c in q + [next]
    {
      CoordOfIndex(c, width, height);
    }
    forall k | 0 <= k < |q|
      ensures queue[k] != i
    {
      assert q[k] in q;
    }
  }

  class HexPathfinder {
    const width: nat
    const height: nat
    var stamp: nat
    const visitedStamp: array<nat>
    const parent: array<int>
    var queue: seq<nat>

    ghost predicate Valid()
      reads this, visitedStamp
    {
      && width > 0
      && visitedStamp.Length == parent.Length == width * height
      && stamp < STAMP_LIMIT
      && visitedStamp as object != parent
      && forall i | 0 <= i < visitedStamp.Length :: visitedStamp[i] <= stamp
    }

    constructor (width: nat, height: nat)
      requires width > 0
      ensures Valid() && this.width == width && this.height == height
      ensures fresh(visitedStamp) && fresh(parent)
    {
      this.width, this.height := width, height;
      stamp := 0;
      queue := [];
      visitedStamp := new nat[width * height](_ => 0);
      parent := new int[width * height](_ => -1);
    }

    // The 32-bit generation counter moves on; when it wraps to 0 the table is cleared once. Either
    // way no cell carries the new stamp.
    method NextStamp()
      requires Valid()
      modifies `stamp, visitedStamp
      ensures Valid() && stamp > 0
      ensures forall i | 0 <= i < visitedStamp.Length :: visitedStamp[i] < stamp
    {
      stamp := (stamp + 1) % STAMP_LIMIT;
      if stamp == 0 {
        forall i | 0 <= i < visitedStamp.Length {
          visitedStamp[i] := 0;
        }
        stamp := 1;
      }
    }

    // The object's tables represent the value search (q, from).
    ghost predicate Represents(q: seq<HexCoord>, from: seq<nat>)
      reads this, visitedStamp, parent
    {
      TablesMatch(width, height, stamp, visitedStamp[..], parent[..], queue, q, from)
    }

    // Whatever earlier searches left in the tables, the result is the value search's.
    method Search(grid: HexGrid, start: HexCoord, isGoal: HexCoord -> bool) returns (found: bool, path: seq<HexCoord>)
      requires Valid() && grid.Valid() && grid.width == width && grid.height == height
      modifies this, visitedStamp, parent
      ensures Valid()
      ensures SearchRoute(grid.Model(), start, isGoal) == if found then Some(path) else None
      ensures !found ==> path == []
    {
      if !InBounds(start, width, height) {
        return false, [];
      }
      ghost var g := grid.Model();
      StepsClosed(g);
      NextStamp();
      var startIndex := Index(start, width);
      IndexInRange(start, width, height);
      TablesMatchStart(width, height, stamp, visitedStamp[..], parent[..], start);
      visitedStamp[startIndex] := stamp;
      parent[startIndex] := -1;
      queue := [startIndex];
      ghost var q, from := [start], [0];

      var head := 0;
      while head < |queue|
        invariant Valid() && g == grid.Model()
        invariant Represents(q, from) && 0 <= head <= |queue| && |queue| > 0 && queue[0] == startIndex
        invariant Bfs(Cells(g), Steps(g), isGoal, q, from, head) == SearchRoute(g, start, isGoal)
        decreases Cells(g) - (set c | c in q), |queue| - head
      {
        var current := queue[head];
        CoordOfIndex(q[head], width, height);
        var here := CoordOf(current, width);
        if isGoal(here) {
          path := WalkBack(current, startIndex, head, q, from);
          return true, path;
        }
        ExpandProgress(Cells(g), Steps(g)(here), q, from, head);
        q, from := ExpandHead(grid, here, current, head, q, from);
        head := head + 1;
      }
      return false, [];
    }

    // The loop over the neighbours of the current cell.
    method ExpandHead(grid: HexGrid, here: HexCoord, current: nat, head: nat, ghost q0: seq<HexCoord>, ghost from0: seq<nat>)
      returns (ghost q: seq<HexCoord>, ghost from: seq<nat>)
      requires Valid() && grid.Valid() && grid.width == width && grid.height == height
      requires Represents(q0, from0) && head < |q0| && here == q0[head] && current == queue[head]
      modifies `queue, visitedStamp, parent
      ensures Valid() && (q, from) == Expand(Steps(grid.Model())(here), q0, from0, head)
      ensures Represents(q, from) && old(queue) <= queue
    {
      var ns := Neighbors(here, width, height);
      ghost var g := grid.Model();
      q, from := q0, from0;
      var i := 0;
      while i < |ns|
        invariant 0 <= i <= |ns| && Valid() && g == grid.Model()
        invariant Represents(q, from) && old(queue) <= queue && head < |q| && queue[head] == current
        invariant Expand(FreeOf(g, ns[i..]), q, from, head) == Expand(FreeOf(g, ns), q0, from0, head)
      {
        var next := ns[i];
        NeighborsExact(here, width, height, next);
        IndexInRange(next, width, height);
        var blocked := grid.IsBlocked(next);
        assert ns[i..][1..] == ns[i + 1..];
        ExpandSkip(g, ns[i..], q, from, head);
        if visitedStamp[Index(next, width)] != stamp && !blocked {
          q, from := Visit(next, current, head, q, from);
        }
        i := i + 1;
      }
    }

    method Visit(next: HexCoord, current: nat, ghost head: nat, ghost q0: seq<HexCoord>, ghost from0: seq<nat>)
      returns (ghost q: seq<HexCoord>, ghost from: seq<nat>)
      requires Valid() && Represents(q0, from0) && head < |q0| && current == queue[head]
      requires InBounds(next, width, height) && !Stamped(width, stamp, visitedStamp[..], next)
      modifies `queue, visitedStamp, parent
      ensures Valid() && Represents(q, from) && old(queue) <= queue
      ensures q == q0 + [next] && from == from0 + [head]
    {
      IndexInRange(next, width, height);
      var nextIndex := Index(next, width);
      TablesMatchPush(width, height, stamp, visitedStamp[..], parent[..], queue, q0, from0, next, head);
      visitedStamp[nextIndex] := stamp;
      parent[nextIndex] := current;
      queue := queue + [nextIndex];
      q, from := q0 + [next], from0 + [head];
    }

    // Walk parents back to (but excluding) the start, then flip.
    method WalkBack(current: nat, startIndex: nat, ghost head: nat, ghost q: seq<HexCoord>, ghost from: seq<nat>)
      returns (path: seq<HexCoord>)
      requires Valid() && Represents(q, from) && head < |q|
      requires current == queue[head] && startIndex == queue[0]
      ensures path == RouteTo(q, from, head)
    {
      var out: seq<HexCoord> := [];
      var at := current;
      ghost var k := head;
      TablesCoord(width, height, stamp, visitedStamp[..], parent[..], queue, q, from, k);
      assert RouteTo(q, from, head) + Reverse(out) == RouteTo(q, from, head);
      hide RouteTo, Reverse, CoordOf;
      while at != startIndex
        invariant 0 <= k < |q| && at == queue[k] && at < parent.Length && CoordOf(at, width) == q[k]
        invariant if at == startIndex then k == 0 else 0 < k && from[k] < k && parent[at] == queue[from[k]]
        invariant RouteTo(q, from, head) == RouteTo(q, from, k) + Reverse(out)
        decreases k
      {
        RouteStep(q, from, k, out);
        out := out + [CoordOf(at, width)];
        at := parent[at];
        k := from[k];
        TablesCoord(width, height, stamp, visitedStamp[..], parent[..], queue, q, from, k);
      }
      path := Reverse(out);
      StartOfRoute(q, from, path);
    }

    // A blocked goal is unreachable, except start == goal.
    method FindPath(grid: HexGrid, start: HexCoord, goal: HexCoord) returns (found: bool, path: seq<HexCoord>)
      requires Valid() && grid.Valid() && grid.width == width && grid.height == height
      modifies this, visitedStamp, parent
      ensures Valid()
      ensures found ==> IsPath(grid.Model(), start, path) && EndOf(start, path) == goal
      ensures forall other | InBounds(start, width, height) && InBounds(goal, width, height)
                             && IsPath(grid.Model(), start, other) && EndOf(start, other) == goal ::
                found && |path| <= |other|
      ensures !found ==> path == []
    {
      if !InBounds(goal, width, height) {
        return false, [];
      }
      var isGoal := (c: HexCoord) => c == goal;
      found, path := Search(grid, start, isGoal);
      if InBounds(start, width, height) {
        forall other
          ensures IsPath(grid.Model(), start, other) && isGoal(EndOf(start, other)) ==> found && |path| <= |other|
        {
          SearchIsShortest(grid.Model(), start, isGoal, other);
        }
        SearchIsShortest(grid.Model(), start, isGoal, path);
      }
    }

    // The shortest way to the nearest free hex within `range` of the target.
    method FindPathToRange(grid: HexGrid, start: HexCoord, target: HexCoord, range: int) returns (found: bool, path: seq<HexCoord>)
      requires Valid() && grid.Valid() && grid.width == width && grid.height == height
      modifies this, visitedStamp, parent
      ensures Valid()
      ensures found ==> IsPath(grid.Model(), start, path) && Distance(EndOf(start, path), target) <= range
      ensures forall other | InBounds(start, width, height) && IsPath(grid.Model(), start, other)
                             && Distance(EndOf(start, other), target) <= range ::
                found && |path| <= |other|
      ensures !found ==> path == []
    {
      var isGoal := (c: HexCoord) => Distance(c, target) <= range;
      found, path := Search(grid, start, isGoal);
      if InBounds(start, width, height) {
        forall other
          ensures IsPath(grid.Model(), start, other) && isGoal(EndOf(start, other)) ==> found && |path| <= |other|
        {
          SearchIsShortest(grid.Model(), start, isGoal, other);
        }
        SearchIsShortest(grid.Model(), start, isGoal, path);
      }
    }
  }

  function Reverse<T>(s: seq<T>): seq<T> {
    if s == [] then [] else Reverse(s[1..]) + [s[0]]
  }

  lemma RouteStep<T>(q: seq<T>, from: seq<nat>, k: nat, out: seq<T>)
    requires |q| == |from| && 0 < k < |q| && from[k] < k
    ensures RouteTo(q, from, k) + Reverse(out) == RouteTo(q, from, from[k]) + Reverse(out + [q[k]])
  {
    ReverseAppend(out, q[k]);
  }

  lemma StartOfRoute<T>(q: seq<T>, from: seq<nat>, path: seq<T>)
    requires |q| == |from| > 0
    ensures RouteTo(q, from, 0) + path == path
  {
  }

  lemma ReverseAppend<T>(s: seq<T>, x: T)
    ensures Reverse(s + [x]) == [x] + Reverse(s)
  {
    if s != [] {
      assert (s + [x])[1..] == s[1..] + [x];
    }
  }
}
