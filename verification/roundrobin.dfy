/** Assignment of metric types to metric positions by smooth weighted round-robin: at every
    position each type earns its weight, the richest one is chosen and pays the total. */
module RoundRobin {
  import opened Streams
  import Sweeps

  /** The types in the order they compete in. */
  const TYPES: seq<MetricType> := [Gauge, Sum, Histogram, ExpHistogram, Summary]

  /** One weight per type; validation keeps them non-negative. */
  type Weights = w: seq<nat> | |w| == 5 witness [1, 1, 1, 1, 1]

  function Total(w: Weights): nat {
    w[0] + w[1] + w[2] + w[3] + w[4]
  }

  function Count(cycle: seq<MetricType>, t: MetricType): nat {
    if cycle == [] then 0
    else Count(cycle[..|cycle| - 1], t) + if cycle[|cycle| - 1] == t then 1 else 0
  }

  /** What type e holds after a prefix of the cycle. */
  function Credit(w: Weights, cycle: seq<MetricType>, e: nat): int
    requires e < 5
  {
    if cycle == [] then 0
    else Credit(w, cycle[..|cycle| - 1], e) + w[e] - if cycle[|cycle| - 1] == TYPES[e] then Total(w) else 0
  }

  /** b is the first of the types that have a weight and, having earned it, hold the most. */
  ghost predicate IsChoice(w: Weights, cycle: seq<MetricType>, b: nat) {
    b < 5 && w[b] > 0 &&
    forall e: nat :: e < 5 && w[e] > 0 ==>
      && Credit(w, cycle, e) + w[e] <= Credit(w, cycle, b) + w[b]
      && (e < b ==> Credit(w, cycle, e) + w[e] < Credit(w, cycle, b) + w[b])
  }

  ghost predicate ChosenAt(w: Weights, cycle: seq<MetricType>, n: nat)
    requires n < |cycle|
  {
    exists b: nat :: IsChoice(w, cycle[..n], b) && cycle[n] == TYPES[b]
  }

  /** Every position of the cycle holds the choice made after the positions before it. */
  ghost predicate Greedy(w: Weights, cycle: seq<MetricType>) {
    forall n :: 0 <= n < |cycle| ==> ChosenAt(w, cycle, n)
  }

  /** Every type earns its weight; the richest of those that have one is returned, the
      first of them on a tie. */
  method Earn(w: Weights, cur: array<int>) returns (best: int)
    requires cur.Length == 5
    modifies cur
    ensures forall e: nat :: e < 5 ==> cur[e] == old(cur[e]) + w[e]
    ensures best == -1 ==> forall e: nat :: e < 5 ==> w[e] == 0
    ensures best == -1 || (0 <= best < 5 && w[best] > 0)
    ensures best != -1 ==>
      forall e: nat :: e < 5 && w[e] > 0 ==> cur[e] <= cur[best] && (e < best ==> cur[e] < cur[best])
  {
    best := -1;
    for e := 0 to 5
      invariant forall d: nat :: d < 5 ==> cur[d] == old(cur[d]) + if d < e then w[d] else 0
      invariant if best == -1 then forall d: nat :: d < e ==> w[d] == 0
                else 0 <= best < e && w[best] > 0 &&
                     forall d: nat :: d < e && w[d] > 0 ==> cur[d] <= cur[best] && (d < best ==> cur[d] < cur[best])
    {
      if w[e] == 0 {
        continue;
      }
      cur[e] := cur[e] + w[e];
      if best == -1 || cur[e] > cur[best] {
        best := e;
      }
    }
  }

  /** One step of the scheduler: the richest type is chosen and pays the total. */
  method Choose(w: Weights, cur: array<int>, ghost before: seq<MetricType>) returns (best: nat)
    requires cur.Length == 5 && Total(w) > 0
    requires forall e: nat :: e < 5 ==> cur[e] == Credit(w, before, e)
    modifies cur
    ensures IsChoice(w, before, best)
    ensures forall e: nat :: e < 5 ==> cur[e] == Credit(w, before + [TYPES[best]], e)
  {
    best := Earn(w, cur);
    cur[best] := cur[best] - Total(w);
    forall e: nat | e < 5
      ensures cur[e] == Credit(w, before + [TYPES[best]], e)
    {
      CreditStep(w, before, TYPES[best], e);
    }
  }

  /** One full cycle of type assignments. */
  method TypeCycle(w: Weights) returns (cycle: array<MetricType>)
    ensures fresh(cycle) && cycle.Length == Total(w)
    ensures Greedy(w, cycle[..])
  {
    var cur := new int[5](_ => 0);
    cycle := new MetricType[Total(w)](_ => Gauge);
    for i := 0 to cycle.Length
      invariant forall e: nat :: e < 5 ==> cur[e] == Credit(w, cycle[..i], e)
      invariant Greedy(w, cycle[..i])
    {
      var best := Choose(w, cur, cycle[..i]);
      GreedyExtends(w, cycle[..i], best);
      cycle[i] := TYPES[best];
      assert cycle[..i + 1] == cycle[..i] + [TYPES[best]];
    }
    assert cycle[..cycle.Length] == cycle[..];
  }

  lemma {:induction false} CreditStep(w: Weights, cycle: seq<MetricType>, t: MetricType, e: nat)
    requires e < 5
    ensures Credit(w, cycle + [t], e) == Credit(w, cycle, e) + w[e] - if t == TYPES[e] then Total(w) else 0
  {
    assert (cycle + [t])[..|cycle|] == cycle;
  }

  lemma {:induction false} GreedyExtends(w: Weights, cycle: seq<MetricType>, b: nat)
    requires Greedy(w, cycle) && IsChoice(w, cycle, b)
    ensures Greedy(w, cycle + [TYPES[b]])
  {
    var longer := cycle + [TYPES[b]];
    forall n | 0 <= n < |longer|
      ensures ChosenAt(w, longer, n)
    {
      SamePrefix(w, cycle, longer, n);
      if n == |cycle| {
        assert longer[..n] == cycle;
      }
    }
  }

  lemma {:induction false} SamePrefix(w: Weights, a: seq<MetricType>, b: seq<MetricType>, n: nat)
    requires a <= b
    ensures n < |a| ==> ChosenAt(w, a, n) == ChosenAt(w, b, n)
  {
    if n < |a| {
      assert a[..n] == b[..n];
    }
  }

  function CreditSum(w: Weights, cycle: seq<MetricType>): int {
    Credit(w, cycle, 0) + Credit(w, cycle, 1) + Credit(w, cycle, 2) + Credit(w, cycle, 3) + Credit(w, cycle, 4)
  }

  lemma {:induction false} CreditsCancel(w: Weights, cycle: seq<MetricType>)
    ensures CreditSum(w, cycle) == 0
  {
    if cycle != [] {
      CreditsCancel(w, cycle[..|cycle| - 1]);
    }
  }

  /** The credits always cancel out, none ever falls a whole total into debt, so none grows
      to four totals, and a type without weight holds nothing. */
  lemma {:induction false} CreditBounds(w: Weights, cycle: seq<MetricType>)
    requires Total(w) > 0 && Greedy(w, cycle)
    ensures CreditSum(w, cycle) == 0
    ensures forall e: nat :: e < 5 ==> 0 < Credit(w, cycle, e) + Total(w) < 5 * Total(w)
    ensures forall e: nat :: e < 5 && w[e] == 0 ==> Credit(w, cycle, e) == 0
  {
    CreditsCancel(w, cycle);
    NoDebt(w, cycle);
  }

  lemma {:induction false} NoDebt(w: Weights, cycle: seq<MetricType>)
    requires Total(w) > 0 && Greedy(w, cycle)
    ensures forall e: nat :: e < 5 ==> 0 < Credit(w, cycle, e) + Total(w)
    ensures forall e: nat :: e < 5 && w[e] == 0 ==> Credit(w, cycle, e) == 0
  {
    if cycle != [] {
      var n := |cycle| - 1;
      var before := cycle[..n];
      GreedyPrefix(w, cycle, n);
      NoDebt(w, before);
      assert ChosenAt(w, cycle, n);
      var b: nat :| IsChoice(w, before, b) && cycle[n] == TYPES[b];
      RichestIsRich(w, before, b);
      assert cycle == before + [TYPES[b]];
      NoDebtStep(w, before, b);
    }
  }

  lemma {:induction false} NoDebtStep(w: Weights, before: seq<MetricType>, b: nat)
    requires Total(w) > 0 && IsChoice(w, before, b) && Credit(w, before, b) + w[b] > 0
    requires forall e: nat :: e < 5 ==> 0 < Credit(w, before, e) + Total(w)
    requires forall e: nat :: e < 5 && w[e] == 0 ==> Credit(w, before, e) == 0
    ensures forall e: nat :: e < 5 ==> 0 < Credit(w, before + [TYPES[b]], e) + Total(w)
    ensures forall e: nat :: e < 5 && w[e] == 0 ==> Credit(w, before + [TYPES[b]], e) == 0
  {
    forall e: nat | e < 5
      ensures 0 < Credit(w, before + [TYPES[b]], e) + Total(w)
      ensures w[e] == 0 ==> Credit(w, before + [TYPES[b]], e) == 0
    {
      CreditStep(w, before, TYPES[b], e);
    }
  }

  // The credits add up to the total once earned, so the richest holds something.
  lemma {:induction false} RichestIsRich(w: Weights, cycle: seq<MetricType>, b: nat)
    requires Total(w) > 0 && IsChoice(w, cycle, b)
    requires forall e: nat :: e < 5 && w[e] == 0 ==> Credit(w, cycle, e) == 0
    ensures Credit(w, cycle, b) + w[b] > 0
  {
    CreditsCancel(w, cycle);
    assert forall e: nat :: e < 5 ==>
      Credit(w, cycle, e) + w[e] <= Credit(w, cycle, b) + w[b] || Credit(w, cycle, e) + w[e] == 0;
  }

  lemma {:induction false} GreedyPrefix(w: Weights, cycle: seq<MetricType>, n: nat)
    requires Greedy(w, cycle) && n <= |cycle|
    ensures Greedy(w, cycle[..n])
  {
    forall m | 0 <= m < n
      ensures ChosenAt(w, cycle[..n], m)
    {
      SamePrefix(w, cycle[..n], cycle, m);
    }
  }

  /** The greedy rule leaves no freedom: two cycles that follow it agree as far as both go. */
  lemma {:induction false} GreedyDetermined(w: Weights, a: seq<MetricType>, b: seq<MetricType>)
    requires Greedy(w, a) && Greedy(w, b) && |a| <= |b|
    ensures a == b[..|a|]
  {
    if a != [] {
      var n := |a| - 1;
      GreedyPrefix(w, a, n);
      GreedyDetermined(w, a[..n], b);
      assert ChosenAt(w, a, n) && ChosenAt(w, b, n);
      var x: nat :| IsChoice(w, a[..n], x) && a[n] == TYPES[x];
      var y: nat :| IsChoice(w, b[..n], y) && b[n] == TYPES[y];
      OneChoice(w, a[..n], x, y);
    }
  }

  lemma {:induction false} OneChoice(w: Weights, cycle: seq<MetricType>, x: nat, y: nat)
    requires IsChoice(w, cycle, x) && IsChoice(w, cycle, y)
    ensures x == y
  {
  }

  /** What a type holds is what it earned minus what its appearances cost. */
  lemma {:induction false} CreditIs(w: Weights, cycle: seq<MetricType>, e: nat)
    requires e < 5
    ensures Credit(w, cycle, e) == |cycle| * w[e] - Total(w) * Count(cycle, TYPES[e])
  {
    if cycle != [] {
      var n := |cycle| - 1;
      CreditIs(w, cycle[..n], e);
      var c := Count(cycle[..n], TYPES[e]);
      assert (n + 1) * w[e] == n * w[e] + w[e];
      assert Total(w) * (c + 1) == Total(w) * c + Total(w);
    }
  }

  /** No type ever runs ahead of its share by as much as one position, nor falls behind by
      four: after every prefix, the count is within those margins of n * weight / total. */
  lemma {:induction false} NeverRunsAhead(w: Weights, cycle: seq<MetricType>, n: nat, e: nat)
    requires Total(w) > 0 && Greedy(w, cycle) && n <= |cycle| && e < 5
    ensures Total(w) * Count(cycle[..n], TYPES[e]) < n * w[e] + Total(w)
    ensures n * w[e] < Total(w) * Count(cycle[..n], TYPES[e]) + 4 * Total(w)
  {
    GreedyPrefix(w, cycle, n);
    CreditBounds(w, cycle[..n]);
    CreditIs(w, cycle[..n], e);
  }

  lemma {:induction false} CountsAddUp(cycle: seq<MetricType>)
    ensures Count(cycle, Gauge) + Count(cycle, Sum) + Count(cycle, Histogram) + Count(cycle, ExpHistogram)
          + Count(cycle, Summary) == |cycle|
  {
    if cycle != [] {
      CountsAddUp(cycle[..|cycle| - 1]);
    }
  }

  /** Over a full cycle every type appears exactly as often as its weight says, and the
      scheduler is back where it started. */
  lemma {:induction false} CycleIsExact(w: Weights, cycle: seq<MetricType>)
    requires Total(w) > 0 && Greedy(w, cycle) && |cycle| == Total(w)
    ensures forall e: nat :: e < 5 ==> Count(cycle, TYPES[e]) == w[e] && Credit(w, cycle, e) == 0
  {
    forall e: nat | e < 5
      ensures Count(cycle, TYPES[e]) <= w[e]
    {
      NeverRunsAhead(w, cycle, |cycle|, e);
      assert cycle[..|cycle|] == cycle;
      AtMost(Total(w), Count(cycle, TYPES[e]), w[e]);
    }
    CountsAddUp(cycle);
    forall e: nat | e < 5
      ensures Count(cycle, TYPES[e]) == w[e] && Credit(w, cycle, e) == 0
    {
      assert Count(cycle, TYPES[0]) <= w[0] && Count(cycle, TYPES[1]) <= w[1] && Count(cycle, TYPES[2]) <= w[2]
          && Count(cycle, TYPES[3]) <= w[3] && Count(cycle, TYPES[4]) <= w[4];
      CreditIs(w, cycle, e);
    }
  }

  lemma {:induction false} AtMost(m: nat, c: nat, n: nat)
    requires m > 0 && m * c < m * n + m
    ensures c <= n
  {
    if c > n {
      Sweeps.MulMono(n + 1, c, m);
    }
  }
}
