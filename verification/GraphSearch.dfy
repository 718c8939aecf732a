// Breadth-first search over any finite graph, on values: a queue of vertices and, for each queue
// entry, the position of the entry that discovered it.
module GraphSearch {
  import opened Wrappers

  // Appends the vertices nobody has queued yet, each discovered by queue entry `head`.
  function Expand<V(!new, ==)>(ns: seq<V>, queue: seq<V>, from: seq<nat>, head: nat): (r: (seq<V>, seq<nat>))
    requires |queue| == |from|
    ensures |r.0| == |r.1| && queue <= r.0 && from <= r.1
  {
    if ns == [] then (queue, from)
    else if ns[0] in queue then Expand(ns[1..], queue, from, head)
    else Expand(ns[1..], queue + [ns[0]], from + [head], head)
  }

  lemma {:induction false} ExpandExact<V(!new)>(ns: seq<V>, queue: seq<V>, from: seq<nat>, head: nat, c: V)
    requires |queue| == |from|
    ensures c in Expand(ns, queue, from, head).0 <==> c in queue || c in ns
  {
    if ns != [] {
      if ns[0] in queue {
        ExpandExact(ns[1..], queue, from, head, c);
      } else {
        ExpandExact(ns[1..], queue + [ns[0]], from + [head], head, c);
      }
    }
  }

  lemma ExpandCons<V(!new)>(n: V, ns: seq<V>, queue: seq<V>, from: seq<nat>, head: nat)
    requires |queue| == |from|
    ensures Expand([n] + ns, queue, from, head) ==
            if n in queue then Expand(ns, queue, from, head) else Expand(ns, queue + [n], from + [head], head)
  {
    assert ([n] + ns)[1..] == ns;
  }

  // The route to queue entry `k`: every vertex after the start.
  function RouteTo<V>(queue: seq<V>, from: seq<nat>, k: nat): seq<V>
    requires |queue| == |from| && k < |queue|
  {
    if k == 0 || from[k] >= k then [] else RouteTo(queue, from, from[k]) + [queue[k]]
  }

  ghost predicate Closed<V(!new)>(universe: set<V>, succ: V -> seq<V>) {
    forall v, n | n in succ(v) :: n in universe
  }

  // `universe` only bounds the search.
  function Bfs<V(!new, ==)>(ghost universe: set<V>, succ: V -> seq<V>, isGoal: V -> bool, queue: seq<V>, from: seq<nat>, head: nat): Option<seq<V>>
    requires Closed(universe, succ) && |queue| == |from| && head <= |queue|
    decreases universe - (set c | c in queue), |queue| - head
  {
    if head == |queue| then None
    else if isGoal(queue[head]) then Some(RouteTo(queue, from, head))
    else
      var next := Expand(succ(queue[head]), queue, from, head);
      ExpandProgress(universe, succ(queue[head]), queue, from, head);
      Bfs(universe, succ, isGoal, next.0, next.1, head + 1)
  }

  lemma ExpandProgress<V(!new)>(universe: set<V>, ns: seq<V>, queue: seq<V>, from: seq<nat>, head: nat)
    requires |queue| == |from| && forall n | n in ns :: n in universe
    ensures var q := Expand(ns, queue, from, head).0;
            q == queue || universe - (set c | c in q) < universe - (set c | c in queue)
  {
    var q := Expand(ns, queue, from, head).0;
    if c :| c in ns && c !in queue {
      forall d {
        ExpandExact(ns, queue, from, head, d);
      }
      assert c in universe - (set d | d in queue);
      assert c !in universe - (set d | d in q);
    } else {
      ExpandNothing(ns, queue, from, head);
    }
  }

  lemma {:induction false} ExpandNothing<V(!new)>(ns: seq<V>, queue: seq<V>, from: seq<nat>, head: nat)
    requires |queue| == |from| && forall n | n in ns :: n in queue
    ensures Expand(ns, queue, from, head) == (queue, from)
  {
    if ns != [] {
      ExpandNothing(ns[1..], queue, from, head);
    }
  }

  // ---- What the search promises --------------------------------------------------------------

  // Vertex i of a route (0 = the start).
  function At<V>(start: V, route: seq<V>, i: nat): V
    requires i <= |route|
  {
    if i == 0 then start else route[i - 1]
  }

  function EndOf<V>(start: V, route: seq<V>): V {
    At(start, route, |route|)
  }

  ghost predicate IsRoute<V(!new)>(succ: V -> seq<V>, start: V, route: seq<V>) {
    forall k | 0 <= k < |route| :: route[k] in succ(At(start, route, k))
  }

  // The search state: `depth` is the (ghost) distance of each queue entry from the start.
  ghost predicate BfsInv<V(!new)>(succ: V -> seq<V>, queue: seq<V>, from: seq<nat>, head: nat, depth: seq<nat>) {
    && |queue| == |from| == |depth| && 0 <= head <= |queue| && |queue| > 0
    && depth[0] == 0
    && (forall k | 0 < k < |queue| ::
          from[k] < k && from[k] < |queue| && depth[k] == depth[from[k]] + 1 && queue[k] in succ(queue[from[k]]))
    && (forall j, k | 0 <= j <= k < |queue| :: depth[j] <= depth[k])
    && (head < |queue| ==> forall k | 0 <= k < |queue| :: depth[k] <= depth[head] + 1)
    && (forall j | 0 <= j < head :: Explored(succ, queue, depth, j))
  }

  // Every successor of entry `j` is queued, at most one step deeper.
  ghost predicate Explored<V(!new)>(succ: V -> seq<V>, queue: seq<V>, depth: seq<nat>, j: nat)
    requires |queue| == |depth| && j < |queue|
  {
    forall c | c in succ(queue[j]) :: QueuedWithin(queue, depth, c, depth[j] + 1)
  }

  ghost predicate QueuedWithin<V(!new)>(queue: seq<V>, depth: seq<nat>, c: V, d: nat)
    requires |queue| == |depth|
  {
    exists k | 0 <= k < |queue| :: queue[k] == c && depth[k] <= d
  }

  lemma {:induction false} RouteToIsRoute<V(!new)>(succ: V -> seq<V>, queue: seq<V>, from: seq<nat>, head: nat, depth: seq<nat>, k: nat)
    requires BfsInv(succ, queue, from, head, depth) && k < |queue|
    ensures var r := RouteTo(queue, from, k);
            IsRoute(succ, queue[0], r) && |r| == depth[k] && EndOf(queue[0], r) == queue[k]
  {
    if k > 0 {
      RouteToIsRoute(succ, queue, from, head, depth, from[k]);
      var init, r := RouteTo(queue, from, from[k]), RouteTo(queue, from, k);
      assert r == init + [queue[k]];
      forall i | 0 <= i < |r|
        ensures r[i] in succ(At(queue[0], r, i))
      {
        if i < |init| {
          assert init[i] in succ(At(queue[0], init, i));
        }
      }
    }
  }

  // Expanding the head keeps the invariant and explores the head.
  lemma {:induction false} ExpandKeeps<V(!new)>(succ: V -> seq<V>, ns: seq<V>, queue: seq<V>, from: seq<nat>, head: nat, depth: seq<nat>)
    returns (depth': seq<nat>)
    requires BfsInv(succ, queue, from, head, depth) && head < |queue|
    requires forall c | c in ns :: c in succ(queue[head])
    ensures var r := Expand(ns, queue, from, head);
            && BfsInv(succ, r.0, r.1, head, depth') && depth <= depth'
            && forall c | c in ns :: QueuedWithin(r.0, depth', c, depth[head] + 1)
  {
    if ns == [] {
      depth' := depth;
    } else {
      var r := Expand(ns, queue, from, head);
      if ns[0] in queue {
        depth' := ExpandKeeps(succ, ns[1..], queue, from, head, depth);
        var k :| 0 <= k < |queue| && queue[k] == ns[0];
        assert r.0[k] == ns[0] && depth'[k] <= depth[head] + 1;
      } else {
        var q, f, d := queue + [ns[0]], from + [head], depth + [depth[head] + 1];
        forall j | 0 <= j < head
          ensures Explored(succ, q, d, j)
        {
          ExploredStays(succ, queue, depth, q, d, j);
        }
        depth' := ExpandKeeps(succ, ns[1..], q, f, head, d);
        assert r.0[|queue|] == ns[0] && depth'[|queue|] == depth[head] + 1;
      }
      assert QueuedWithin(r.0, depth', ns[0], depth[head] + 1);
      forall c | c in ns
        ensures QueuedWithin(r.0, depth', c, depth[head] + 1)
      {
        assert c == ns[0] || c in ns[1..];
      }
    }
  }

  lemma ExploredStays<V(!new)>(succ: V -> seq<V>, queue: seq<V>, depth: seq<nat>, q: seq<V>, d: seq<nat>, j: nat)
    requires |queue| == |depth| && |q| == |d| && queue <= q && depth <= d && j < |queue|
    requires Explored(succ, queue, depth, j)
    ensures Explored(succ, q, d, j)
  {
    forall c | c in succ(q[j])
      ensures QueuedWithin(q, d, c, d[j] + 1)
    {
      assert QueuedWithin(queue, depth, c, depth[j] + 1);
      var k :| 0 <= k < |queue| && queue[k] == c && depth[k] <= depth[j] + 1;
      assert q[k] == c && d[k] <= d[j] + 1;
    }
  }

  // As long as everything up to depth `limit` is explored, the first `limit` vertices of ANY route
  // are queued, no deeper than their position on it.
  lemma {:induction false} RouteIsQueued<V(!new)>(succ: V -> seq<V>, queue: seq<V>, from: seq<nat>, head: nat, depth: seq<nat>,
                                            route: seq<V>, i: nat)
    requires BfsInv(succ, queue, from, head, depth) && IsRoute(succ, queue[0], route) && i <= |route|
    requires head < |queue| ==> i <= depth[head]
    ensures QueuedWithin(queue, depth, At(queue[0], route, i), i)
  {
    if i == 0 {
      assert queue[0] == At(queue[0], route, 0);
    } else {
      RouteIsQueued(succ, queue, from, head, depth, route, i - 1);
      var k :| 0 <= k < |queue| && queue[k] == At(queue[0], route, i - 1) && depth[k] <= i - 1;
      assert k < head;
      assert Explored(succ, queue, depth, k);
      assert route[i - 1] in succ(At(queue[0], route, i - 1));
    }
  }

  // When the search stops, no route to a goal is shorter than the depth it stopped at.
  lemma NoShorterRoute<V(!new)>(succ: V -> seq<V>, isGoal: V -> bool, queue: seq<V>, from: seq<nat>, head: nat, depth: seq<nat>, route: seq<V>)
    requires BfsInv(succ, queue, from, head, depth)
    requires forall k | 0 <= k < head :: !isGoal(queue[k])
    requires IsRoute(succ, queue[0], route) && isGoal(EndOf(queue[0], route))
    ensures head < |queue| && depth[head] <= |route|
  {
    if head == |queue| || |route| < depth[head] {
      RouteIsQueued(succ, queue, from, head, depth, route, |route|);
      assert false;
    }
  }

  ghost predicate Shortest<V(!new)>(succ: V -> seq<V>, isGoal: V -> bool, start: V, r: Option<seq<V>>) {
    && (r.Some? ==> IsRoute(succ, start, r.value) && isGoal(EndOf(start, r.value)))
    && (forall route | IsRoute(succ, start, route) && isGoal(EndOf(start, route)) :: r.Some? && |r.value| <= |route|)
  }

  // Sound, shortest and complete, from any state the search can be in.
  lemma {:induction false} BfsCorrect<V(!new)>(universe: set<V>, succ: V -> seq<V>, isGoal: V -> bool,
                                               queue: seq<V>, from: seq<nat>, head: nat, depth: seq<nat>)
    requires Closed(universe, succ) && BfsInv(succ, queue, from, head, depth)
    requires forall k | 0 <= k < head :: !isGoal(queue[k])
    ensures Shortest(succ, isGoal, queue[0], Bfs(universe, succ, isGoal, queue, from, head))
    decreases universe - (set c | c in queue), |queue| - head
  {
    hide *;
    InvBounds(succ, queue, from, head, depth);
    if head == |queue| || isGoal(queue[head]) {
      BfsEnds(universe, succ, isGoal, queue, from, head, depth);
    } else {
      var r, depth' := BfsStep(succ, queue, from, head, depth);
      BfsGoesOn(universe, succ, isGoal, queue, from, head);
      StepDecreases(universe, succ, queue, from, head);
      BfsCorrect(universe, succ, isGoal, r.0, r.1, head + 1, depth');
    }
  }

  lemma InvBounds<V(!new)>(succ: V -> seq<V>, queue: seq<V>, from: seq<nat>, head: nat, depth: seq<nat>)
    requires BfsInv(succ, queue, from, head, depth)
    ensures |queue| == |from| == |depth| && head <= |queue| && |queue| > 0
  {
  }

  lemma BfsGoesOn<V(!new)>(universe: set<V>, succ: V -> seq<V>, isGoal: V -> bool, queue: seq<V>, from: seq<nat>, head: nat)
    requires Closed(universe, succ) && |queue| == |from| && head < |queue| && !isGoal(queue[head])
    ensures var r := Expand(succ(queue[head]), queue, from, head);
            Bfs(universe, succ, isGoal, queue, from, head) == Bfs(universe, succ, isGoal, r.0, r.1, head + 1)
  {
    hide Expand, Closed;
  }

  // The measure of the search: either something new is queued, or one entry less is waiting.
  lemma StepDecreases<V(!new)>(universe: set<V>, succ: V -> seq<V>, queue: seq<V>, from: seq<nat>, head: nat)
    requires Closed(universe, succ) && |queue| == |from| && head < |queue|
    ensures var q := Expand(succ(queue[head]), queue, from, head).0;
            q == queue || universe - (set c | c in q) < universe - (set c | c in queue)
  {
    hide Expand;
    ExpandProgress(universe, succ(queue[head]), queue, from, head);
  }

  // A search that stops is right.
  lemma BfsEnds<V(!new)>(universe: set<V>, succ: V -> seq<V>, isGoal: V -> bool, queue: seq<V>, from: seq<nat>, head: nat, depth: seq<nat>)
    requires Closed(universe, succ) && BfsInv(succ, queue, from, head, depth)
    requires forall k | 0 <= k < head :: !isGoal(queue[k])
    requires head == |queue| || isGoal(queue[head])
    ensures Shortest(succ, isGoal, queue[0], Bfs(universe, succ, isGoal, queue, from, head))
  {
    hide BfsInv, Expand, Closed, RouteTo, IsRoute;
    InvBounds(succ, queue, from, head, depth);
    if head < |queue| {
      RouteToIsRoute(succ, queue, from, head, depth, head);
    }
    forall route | IsRoute(succ, queue[0], route) && isGoal(EndOf(queue[0], route))
      ensures head < |queue| && depth[head] <= |route|
    {
      NoShorterRoute(succ, isGoal, queue, from, head, depth, route);
    }
  }

  lemma BfsStep<V(!new)>(succ: V -> seq<V>, queue: seq<V>, from: seq<nat>, head: nat, depth: seq<nat>)
    returns (r: (seq<V>, seq<nat>), depth': seq<nat>)
    requires BfsInv(succ, queue, from, head, depth) && head < |queue|
    ensures r == Expand(succ(queue[head]), queue, from, head) && queue <= r.0
    ensures BfsInv(succ, r.0, r.1, head + 1, depth')
  {
    r := Expand(succ(queue[head]), queue, from, head);
    depth' := ExpandKeeps(succ, succ(queue[head]), queue, from, head, depth);
    assert Explored(succ, r.0, depth', head);
  }

  lemma InitialInv<V(!new)>(succ: V -> seq<V>, start: V)
    ensures BfsInv(succ, [start], [0], 0, [0])
  {
    hide Explored;
  }

  lemma BfsFromStart<V(!new)>(universe: set<V>, succ: V -> seq<V>, isGoal: V -> bool, start: V)
    requires Closed(universe, succ)
    ensures Shortest(succ, isGoal, start, Bfs(universe, succ, isGoal, [start], [0], 0))
  {
    var queue, from, depth := [start], [0], [0];
    InitialInv(succ, start);
    BfsCorrect(universe, succ, isGoal, queue, from, 0, depth);
  }
}
