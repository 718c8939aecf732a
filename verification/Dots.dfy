// Damage over time (server/src/CombatSimulator.cpp:673-684, 1439-1477, 1502-1525): when each hit
// lands and how much it deals.
module Dots {
  import opened CombatLog
  import opened Arithmetic

  datatype Dot = Dot(source: int, key: int, start: int, duration: int, hitsTotal: int, nextTick: int,
                     hitsLeft: int, remainingRaw: int, visible: bool, visual: StatusType, healPercent: int)

  // The tick of hit k.
  function Landing(d: Dot, k: int): int
    requires d.hitsTotal >= 1
  {
    d.start + d.duration * k / d.hitsTotal
  }

  predicate DotOk(d: Dot) {
    && 1 <= d.hitsLeft <= d.hitsTotal <= d.duration
    && d.remainingRaw >= 0
    && d.nextTick == Landing(d, d.hitsTotal - d.hitsLeft + 1) >= 0
  }

  function HitCount(duration: int, interval: int): int
    requires interval >= 1
  {
    Max(1, duration / interval)
  }

  // A new DoT of `duration` ticks. One that takes over from a running one keeps that one's next
  // tick: its own clock is set back by one step.
  function NewDot(source: int, key: int, tick: int, duration: int, interval: int, inheritedNext: int, total: int,
                  visible: bool, visual: StatusType, healPercent: int): (d: Dot)
    requires interval >= 1 && duration >= 1 && total >= 0 && tick >= 0
    ensures DotOk(d) && d.remainingRaw == total && d.hitsLeft == d.hitsTotal
    ensures d.nextTick == if inheritedNext >= 0 then inheritedNext else tick + duration / d.hitsTotal
    ensures inheritedNext < 0 ==> Landing(d, d.hitsTotal) == tick + duration
  {
    var hits := HitCount(duration, interval);
    HitsFit(duration, interval);
    LandingOne(duration, hits);
    var next := if inheritedNext >= 0 then inheritedNext else tick + duration / hits;
    Dot(source, key, next - duration / hits, duration, hits, next, hits, total, visible, visual, healPercent)
  }

  lemma HitsFit(duration: int, interval: int)
    requires interval >= 1 && duration >= 1
    ensures 1 <= HitCount(duration, interval) <= duration
  {
    MulMono(1, interval, duration);
    DivAtMost(duration, interval, duration);
  }

  lemma LandingOne(duration: int, hits: int)
    requires 1 <= hits
    ensures duration * 1 / hits == duration / hits && duration * hits / hits == duration
  {
    DivUnique(duration * hits, hits, duration);
  }

  // One look at a DoT at `tick`: the DoT afterwards (hitsLeft 0 = used up) and the raw damage dealt.
  function DotStep(d: Dot, tick: int): (Dot, int)
    requires d.hitsTotal >= 1
  {
    if tick < d.nextTick || d.hitsLeft <= 0 then (d, 0)
    else
      var raw := d.remainingRaw / d.hitsLeft;
      var left := d.hitsLeft - 1;
      var next := if left > 0 then d.start + d.duration * (d.hitsTotal - left + 1) / d.hitsTotal else d.nextTick;
      (d.(remainingRaw := d.remainingRaw - raw, hitsLeft := left, nextTick := next), raw)
  }

  lemma DotStepKeeps(d: Dot, tick: int)
    requires DotOk(d)
    ensures var (d', raw) := DotStep(d, tick);
            raw >= 0 && d'.remainingRaw == d.remainingRaw - raw >= 0 && (d'.hitsLeft == 0 || DotOk(d'))
  {
    MulMono(1, d.hitsLeft, d.remainingRaw);
    DivAtLeast(d.remainingRaw, d.hitsLeft, 0);
    DivAtMost(d.remainingRaw, d.hitsLeft, d.remainingRaw);
    LandingsIncrease(d, d.hitsTotal - d.hitsLeft + 1);
  }

  // The next share is the floor of an even split, between c and c + 1 if the even split is, and then
  // so are the shares of what remains.
  lemma ShareFits(total: int, hits: int, c: int)
    requires hits >= 1 && c * hits <= total <= (c + 1) * hits
    ensures c <= total / hits <= c + 1
    ensures hits == 1 ==> total / hits == total
    ensures hits > 1 ==> c * (hits - 1) <= total - total / hits <= (c + 1) * (hits - 1)
  {
    var q := total / hits;
    DivBounds(total, hits);
    MulNext(c, hits);
    DivAtLeast(total, hits, c);
    if total == (c + 1) * hits {
      DivUnique(total, hits, c + 1);
    } else {
      DivUnique(total, hits, c);
    }
    assert c * (hits - 1) == c * hits - c && (c + 1) * (hits - 1) == (c + 1) * hits - (c + 1);
    if q == c {
      SplitAbove(total, hits, c);
    }
  }

  // total < (c + 1) * hits leaves room for the hits - 1 other shares of at most c + 1.
  lemma SplitAbove(total: int, hits: int, c: int)
    requires hits >= 1 && total / hits == c
    ensures total - c <= (c + 1) * (hits - 1)
  {
    DivBounds(total, hits);
    assert (c + 1) * (hits - 1) == c * hits + hits - c - 1;
  }

  // Consecutive hits land on different ticks, in order.
  lemma LandingsIncrease(d: Dot, k: int)
    requires 1 <= d.hitsTotal <= d.duration
    ensures Landing(d, k) < Landing(d, k + 1)
  {
    var h, v := d.hitsTotal, d.duration * k;
    assert d.duration * (k + 1) == v + d.duration;
    DivBounds(v, h);
    MulNext(v / h, h);
    DivAtLeast(v + d.duration, h, v / h + 1);
  }

  // Everything a DoT deals while the clock runs from `tick` up to (not including) `until`.
  function Deliver(d: Dot, tick: int, until: int): seq<(int, int)>
    requires d.hitsTotal >= 1
    decreases until - tick
  {
    if tick >= until then []
    else
      var (d', raw) := DotStep(d, tick);
      (if d'.hitsLeft != d.hitsLeft then [(tick, raw)] else []) + Deliver(d', tick + 1, until)
  }

  function Total(hits: seq<(int, int)>): int {
    if hits == [] then 0 else hits[0].1 + Total(hits[1..])
  }

  lemma {:induction false} NothingLeft(d: Dot, tick: int, until: int)
    requires d.hitsTotal >= 1 && d.hitsLeft == 0
    ensures Deliver(d, tick, until) == []
    decreases until - tick
  {
    if tick < until {
      NothingLeft(d, tick + 1, until);
    }
  }

  predicate EvenSplit(total: int, hits: int, c: int) {
    c * hits <= total <= (c + 1) * hits
  }

  // One hit: its size, and what it leaves.
  lemma DotHit(d: Dot, c: int)
    requires DotOk(d) && EvenSplit(d.remainingRaw, d.hitsLeft, c)
    ensures var (d', raw) := DotStep(d, d.nextTick);
            && c <= raw <= c + 1 && d'.remainingRaw == d.remainingRaw - raw && d'.hitsLeft == d.hitsLeft - 1
            && d' == d.(remainingRaw := d'.remainingRaw, hitsLeft := d'.hitsLeft, nextTick := d'.nextTick)
            && if d'.hitsLeft == 0 then d'.remainingRaw == 0
               else DotOk(d') && d.nextTick < d'.nextTick && EvenSplit(d'.remainingRaw, d'.hitsLeft, c)
  {
    ShareFits(d.remainingRaw, d.hitsLeft, c);
    DotStepKeeps(d, d.nextTick);
    LandingsIncrease(d, d.hitsTotal - d.hitsLeft + 1);
  }

  // A DoT watched from its next tick (or earlier) to past its end deals exactly what was left of
  // its total, in exactly the hits that were left; the j-th of them lands at start + duration * k /
  // hitsTotal with k = hits already made + j + 1, and each is one of two neighbouring sizes c, c + 1.
  ghost predicate ExactDelivery(d: Dot, hits: seq<(int, int)>, c: int)
    requires d.hitsTotal >= 1
  {
    && |hits| == d.hitsLeft && Total(hits) == d.remainingRaw
    && forall j | 0 <= j < |hits| :: hits[j].0 == Landing(d, d.hitsTotal - d.hitsLeft + 1 + j) && c <= hits[j].1 <= c + 1
  }

  lemma {:induction false} DotIsExact(d: Dot, tick: int, until: int, c: int)
    requires DotOk(d) && tick <= d.nextTick && Landing(d, d.hitsTotal) < until && EvenSplit(d.remainingRaw, d.hitsLeft, c)
    ensures ExactDelivery(d, Deliver(d, tick, until), c)
    decreases until - tick
  {
    LandingsOrdered(d, d.hitsTotal - d.hitsLeft + 1, d.hitsTotal);
    if tick < d.nextTick {
      DotIsExact(d, tick + 1, until, c);
      DeliverWait(d, tick, until);
    } else {
      hide EvenSplit, Landing, Deliver, ExactDelivery;
      DotHit(d, c);
      DeliverHit(d, until);
      var (d', raw) := DotStep(d, tick);
      var rest := Deliver(d', tick + 1, until);
      if d'.hitsLeft == 0 {
        NothingLeft(d', tick + 1, until);
      } else {
        SameLandings(d, d', d.hitsTotal);
        DotIsExact(d', tick + 1, until, c);
      }
      DeliveryCons(d, d', tick, raw, rest, c);
    }
  }

  lemma DeliverWait(d: Dot, tick: int, until: int)
    requires d.hitsTotal >= 1 && tick < d.nextTick && tick < until
    ensures Deliver(d, tick, until) == Deliver(d, tick + 1, until)
  {
  }

  lemma DeliverHit(d: Dot, until: int)
    requires d.hitsTotal >= 1 && d.hitsLeft >= 1 && d.nextTick < until
    ensures var (d', raw) := DotStep(d, d.nextTick);
            Deliver(d, d.nextTick, until) == [(d.nextTick, raw)] + Deliver(d', d.nextTick + 1, until)
  {
  }

  lemma SameLandings(d: Dot, d': Dot, k: int)
    requires d.hitsTotal == d'.hitsTotal >= 1 && d.start == d'.start && d.duration == d'.duration
    ensures Landing(d, k) == Landing(d', k)
  {
  }

  lemma DeliveryCons(d: Dot, d': Dot, tick: int, raw: int, rest: seq<(int, int)>, c: int)
    requires d.hitsTotal == d'.hitsTotal >= 1 && d.start == d'.start && d.duration == d'.duration
    requires d'.hitsLeft == d.hitsLeft - 1 && d'.remainingRaw == d.remainingRaw - raw && c <= raw <= c + 1
    requires tick == Landing(d, d.hitsTotal - d.hitsLeft + 1)
    requires if d'.hitsLeft == 0 then rest == [] && d'.remainingRaw == 0 else ExactDelivery(d', rest, c)
    ensures ExactDelivery(d, [(tick, raw)] + rest, c)
  {
    var hits := [(tick, raw)] + rest;
    assert hits[1..] == rest;
    forall j | 0 <= j < |hits|
      ensures hits[j].0 == Landing(d, d.hitsTotal - d.hitsLeft + 1 + j) && c <= hits[j].1 <= c + 1
    {
      if j > 0 {
        assert hits[j] == rest[j - 1];
        SameLandings(d, d', d'.hitsTotal - d'.hitsLeft + 1 + (j - 1));
        assert d'.hitsTotal - d'.hitsLeft + 1 + (j - 1) == d.hitsTotal - d.hitsLeft + 1 + j;
      }
    }
  }

  lemma {:induction false} LandingsOrdered(d: Dot, j: int, k: int)
    requires 1 <= d.hitsTotal <= d.duration && j <= k
    ensures Landing(d, j) <= Landing(d, k)
    decreases k - j
  {
    if j < k {
      LandingsOrdered(d, j, k - 1);
      LandingsIncrease(d, k - 1);
    }
  }

  // A fresh DoT nobody refreshes: all of `total`, split as evenly as integers allow, the last hit
  // exactly when the duration is over.
  lemma FreshDotDealsItsTotal(source: int, key: int, tick: int, duration: int, interval: int, total: int,
                              visible: bool, visual: StatusType, healPercent: int, until: int)
    requires interval >= 1 && duration >= 1 && total >= 0 && 0 <= tick && tick + duration < until
    ensures var d := NewDot(source, key, tick, duration, interval, -1, total, visible, visual, healPercent);
            var hits := Deliver(d, tick, until);
            var share := total / d.hitsTotal;
            && |hits| == HitCount(duration, interval) == d.hitsTotal
            && Total(hits) == total
            && hits[|hits| - 1].0 == tick + duration
            && (forall j | 0 <= j < |hits| :: hits[j].0 == tick + duration * (j + 1) / |hits| && share <= hits[j].1 <= share + 1)
  {
    var d := NewDot(source, key, tick, duration, interval, -1, total, visible, visual, healPercent);
    var share := total / d.hitsTotal;
    DivBounds(total, d.hitsTotal);
    MulNext(share, d.hitsTotal);
    LandingsOrdered(d, 0, 1);
    DotIsExact(d, tick, until, share);
    var hits := Deliver(d, tick, until);
    forall j | 0 <= j < |hits|
      ensures hits[j].0 == tick + duration * (j + 1) / |hits| && share <= hits[j].1 <= share + 1
    {
      assert hits[j].0 == Landing(d, d.hitsTotal - d.hitsLeft + 1 + j);
    }
  }
}
