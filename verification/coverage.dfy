/** Which points a fleet of striped workers generates, and how many: the iteration order of a
    worker, and the proof that together the workers cover every series at every sweep once. */
module Coverage {
  import opened Sweeps
  import opened Streams

  /** One call to add the point of series j of metric m at sweep k. */
  datatype Call = Call(m: nat, j: nat, k: nat)

  // What one worker does.  cards holds the cardinality of each metric.

  /** The metric at position i of sweep k: each sweep starts one metric further on. */
  function MetricAt(n: nat, i: nat, k: nat): (m: nat)
    requires n > 0
    ensures m < n
  {
    (i + k % n) % n
  }

  /** The series of metric m from j on that fall to one worker, a stride of threads apart. */
  function Stripe(m: nat, j: nat, card: nat, threads: nat, k: nat): seq<Call>
    requires threads > 0
    decreases card - j
  {
    if j >= card then [] else [Call(m, j, k)] + Stripe(m, j + threads, card, threads, k)
  }

  /** Sweep k from its i-th metric on. */
  function SweepCalls(cards: seq<nat>, id: nat, threads: nat, k: nat, i: nat): seq<Call>
    requires threads > 0 && cards != []
    decreases |cards| - i
  {
    if i >= |cards| then []
    else
      var m := MetricAt(|cards|, i, k);
      Stripe(m, id, cards[m], threads, k) + SweepCalls(cards, id, threads, k, i + 1)
  }

  /** The run of worker id from sweep k on. */
  function RunCalls(cards: seq<nat>, id: nat, threads: nat, k: nat, sweeps: nat): seq<Call>
    requires threads > 0 && cards != []
    decreases sweeps - k
  {
    if k >= sweeps then []
    else SweepCalls(cards, id, threads, k, 0) + RunCalls(cards, id, threads, k + 1, sweeps)
  }

  /** What the first so many workers of a fleet do together. */
  function FleetCalls(cards: seq<nat>, workers: nat, threads: nat, sweeps: nat): seq<Call>
    requires threads > 0 && cards != []
  {
    if workers == 0 then []
    else FleetCalls(cards, workers - 1, threads, sweeps) + RunCalls(cards, workers - 1, threads, 0, sweeps)
  }

  lemma {:induction false} StripeAdvance(m: nat, j: nat, card: nat, threads: nat, k: nat, after: seq<Call>)
    requires threads > 0 && j < card
    ensures Stripe(m, j, card, threads, k) + after ==
      [Call(m, j, k)] + (Stripe(m, j + threads, card, threads, k) + after)
  {
  }

  lemma {:induction false} SweepAdvance(cards: seq<nat>, id: nat, threads: nat, k: nat, i: nat, after: seq<Call>)
    requires threads > 0 && i < |cards|
    ensures var m := MetricAt(|cards|, i, k);
      SweepCalls(cards, id, threads, k, i) + after ==
      Stripe(m, id, cards[m], threads, k) + (SweepCalls(cards, id, threads, k, i + 1) + after)
  {
  }

  lemma {:induction false} RunAdvance(cards: seq<nat>, id: nat, threads: nat, k: nat, sweeps: nat)
    requires threads > 0 && cards != [] && k < sweeps
    ensures RunCalls(cards, id, threads, k, sweeps) ==
      SweepCalls(cards, id, threads, k, 0) + RunCalls(cards, id, threads, k + 1, sweeps)
  {
  }

  // Coverage

  predicate InRun(cards: seq<nat>, sweeps: nat, c: Call) {
    c.m < |cards| && c.j < cards[c.m] && c.k < sweeps
  }

  /** How often a call is made. */
  function Occurs(calls: seq<Call>, c: Call): nat {
    OccursBefore(calls, |calls|, c)
  }

  function OccursBefore(calls: seq<Call>, n: nat, c: Call): nat
    requires n <= |calls|
  {
    if n == 0 then 0 else OccursBefore(calls, n - 1, c) + Bit(calls[n - 1] == c)
  }

  function Bit(b: bool): nat {
    if b then 1 else 0
  }

  lemma {:induction false} OccursPrefix(a: seq<Call>, b: seq<Call>, n: nat, c: Call)
    requires n <= |a| && a <= b
    ensures OccursBefore(a, n, c) == OccursBefore(b, n, c)
  {
    if n > 0 {
      OccursPrefix(a, b, n - 1, c);
    }
  }

  lemma {:induction false} OccursBeyond(a: seq<Call>, b: seq<Call>, n: nat, c: Call)
    requires n <= |b|
    ensures OccursBefore(a + b, |a| + n, c) == Occurs(a, c) + OccursBefore(b, n, c)
  {
    if n == 0 {
      OccursPrefix(a, a + b, |a|, c);
    } else {
      OccursBeyond(a, b, n - 1, c);
    }
  }

  lemma {:induction false} OccursSplit(a: seq<Call>, b: seq<Call>, c: Call)
    ensures Occurs(a + b, c) == Occurs(a, c) + Occurs(b, c)
  {
    OccursBeyond(a, b, |b|, c);
  }

  lemma {:induction false} OccursOnce(x: Call, c: Call)
    ensures Occurs([x], c) == Bit(x == c)
  {
    assert OccursBefore([x], 0, c) == 0;
  }

  lemma {:induction false} StripeCount(m: nat, j: nat, card: nat, threads: nat, k: nat, c: Call)
    requires threads > 0
    ensures Occurs(Stripe(m, j, card, threads, k), c) ==
      Bit(c.m == m && c.k == k && c.j < card && OnStripe(c.j, j, threads))
    decreases card - j
  {
    if j < card {
      StripeCount(m, j + threads, card, threads, k, c);
      OccursSplit([Call(m, j, k)], Stripe(m, j + threads, card, threads, k), c);
      OccursOnce(Call(m, j, k), c);
    }
  }

  /** x lies on the stripe that starts at j. */
  predicate OnStripe(x: nat, j: nat, threads: nat)
    requires threads > 0
    decreases x - j
  {
    x == j || (j < x && OnStripe(x, j + threads, threads))
  }

  /** The worker a series falls to. */
  function WorkerOf(x: nat, threads: nat): (id: nat)
    requires threads > 0
    ensures id < threads
  {
    if x < threads then x else WorkerOf(x - threads, threads)
  }

  /** Series are dealt out by their index modulo the number of workers. */
  lemma {:induction false} WorkerOfIs(x: nat, threads: nat)
    requires threads > 0
    ensures WorkerOf(x, threads) == x % threads
  {
    if x < threads {
      QuotientIs(x, threads, 0, x);
    } else {
      WorkerOfIs(x - threads, threads);
      QuotientIs(x, threads, (x - threads) / threads + 1, (x - threads) % threads);
    }
  }

  lemma {:induction false} StripeShift(x: nat, j: nat, threads: nat)
    requires threads > 0
    ensures OnStripe(x + threads, j + threads, threads) <==> OnStripe(x, j, threads)
    decreases x - j
  {
    if j < x {
      StripeShift(x, j + threads, threads);
    }
  }

  lemma {:induction false} StripeOf(x: nat, id: nat, threads: nat)
    requires id < threads
    ensures OnStripe(x, id, threads) <==> WorkerOf(x, threads) == id
  {
    if x >= threads {
      StripeOf(x - threads, id, threads);
      StripeShift(x - threads, id, threads);
    }
  }

  /** The position at which metric m comes up in sweep k. */
  function PositionOf(n: nat, m: nat, k: nat): (i: nat)
    requires m < n
    ensures i < n
  {
    (m + n - k % n) % n
  }

  lemma {:induction false} RotationIsBijective(n: nat, i: nat, m: nat, k: nat)
    requires i < n && m < n
    ensures MetricAt(n, i, k) == m <==> i == PositionOf(n, m, k)
  {
    var o := k % n;
    Reduce(i + o, n);
    Reduce(m + n - o, n);
  }

  lemma {:induction false} Reduce(x: nat, n: nat)
    requires n > 0 && x < 2 * n
    ensures x % n == if x < n then x else x - n
  {
    if x < n {
      QuotientIs(x, n, 0, x);
    } else {
      QuotientIs(x, n, 1, x - n);
    }
  }

  lemma {:induction false} MetricAtIs(n: nat, i: nat, k: nat)
    requires i < n
    ensures MetricAt(n, i, k) == (i + k) % n
  {
    var o := k % n;
    Reduce(i + o, n);
    var q := k / n + if i + o < n then 0 else 1;
    assert i + k == q * n + MetricAt(n, i, k) by {
      assert (k / n + 1) * n == k / n * n + n;
    }
    QuotientIs(i + k, n, q, MetricAt(n, i, k));
  }

  lemma {:induction false} RemainderIs(x: nat, n: nat, m: nat)
    requires m < n
    ensures (x + (n - m)) % n == 0 <==> x % n == m
  {
    var y := x % n + (n - m);
    var q := x / n + if y < n then 0 else 1;
    assert (x / n + 1) * n == x / n * n + n;
    QuotientIs(x + (n - m), n, q, if y < n then y else y - n);
  }

  /** The rotation is fair: in as many consecutive sweeps as there are metrics, every metric takes
      every place in the sweep exactly once. */
  lemma {:induction false} RotationIsFair(n: nat, i: nat, m: nat, from: nat) returns (k: nat)
    requires i < n && m < n
    ensures from <= k < from + n
    ensures forall l :: from <= l < from + n ==> (MetricAt(n, i, l) == m <==> l == k)
  {
    var x := i + from + (n - m);
    k := from + ToMultiple(x, n);
    forall l | from <= l < from + n
      ensures MetricAt(n, i, l) == m <==> l == k
    {
      MetricAtIs(n, i, l);
      RemainderIs(i + l, n, m);
      OneMultiple(x, n, l - from);
    }
  }

  lemma {:induction false} SweepCount(cards: seq<nat>, id: nat, threads: nat, k: nat, i: nat, c: Call)
    requires id < threads && cards != [] && i <= |cards|
    ensures Occurs(SweepCalls(cards, id, threads, k, i), c) ==
      Bit(c.k == k && Ahead(cards, k, i, c) && OnStripe(c.j, id, threads))
    decreases |cards| - i
  {
    if i < |cards| {
      var m := MetricAt(|cards|, i, k);
      var stripe := Stripe(m, id, cards[m], threads, k);
      SweepCount(cards, id, threads, k, i + 1, c);
      StripeCount(m, id, cards[m], threads, k, c);
      OccursSplit(stripe, SweepCalls(cards, id, threads, k, i + 1), c);
      if c.m < |cards| {
        RotationIsBijective(|cards|, i, c.m, k);
      }
    }
  }

  /** The series of the call exists and its metric is not among the first i of sweep k. */
  predicate Ahead(cards: seq<nat>, k: nat, i: nat, c: Call) {
    c.m < |cards| && c.j < cards[c.m] && PositionOf(|cards|, c.m, k) >= i
  }

  lemma {:induction false} RunCount(cards: seq<nat>, id: nat, threads: nat, k: nat, sweeps: nat, c: Call)
    requires id < threads && cards != []
    ensures Occurs(RunCalls(cards, id, threads, k, sweeps), c) ==
      Bit(InRun(cards, sweeps, c) && c.k >= k && OnStripe(c.j, id, threads))
    decreases sweeps - k
  {
    if k < sweeps {
      RunCount(cards, id, threads, k + 1, sweeps, c);
      SweepCount(cards, id, threads, k, 0, c);
      OccursSplit(SweepCalls(cards, id, threads, k, 0), RunCalls(cards, id, threads, k + 1, sweeps), c);
    }
  }

  /** Whole-run coverage: whatever the number of workers, together they add the point of every
      series at every sweep exactly once, and nothing else. */
  lemma {:induction false} FleetCoversOnce(cards: seq<nat>, threads: nat, sweeps: nat, c: Call)
    requires threads > 0 && cards != []
    ensures Occurs(FleetCalls(cards, threads, threads, sweeps), c) == if InRun(cards, sweeps, c) then 1 else 0
  {
    FleetCount(cards, threads, threads, sweeps, c);
  }

  lemma {:induction false} FleetCount(cards: seq<nat>, workers: nat, threads: nat, sweeps: nat, c: Call)
    requires threads > 0 && workers <= threads && cards != []
    ensures Occurs(FleetCalls(cards, workers, threads, sweeps), c) ==
      Bit(InRun(cards, sweeps, c) && WorkerOf(c.j, threads) < workers)
  {
    if workers > 0 {
      var id := workers - 1;
      FleetCount(cards, id, threads, sweeps, c);
      RunCount(cards, id, threads, 0, sweeps, c);
      var before, run := FleetCalls(cards, id, threads, sweeps), RunCalls(cards, id, threads, 0, sweeps);
      OccursSplit(before, run, c);
      assert FleetCalls(cards, workers, threads, sweeps) == before + run;
      StripeOf(c.j, id, threads);
    }
  }

  // The order of the calls of one series.

  /** The calls for one series, in the order they are made. */
  function CallsFor(calls: seq<Call>, m: nat, j: nat): seq<Call> {
    CallsForBefore(calls, |calls|, m, j)
  }

  function CallsForBefore(calls: seq<Call>, n: nat, m: nat, j: nat): seq<Call>
    requires n <= |calls|
  {
    if n == 0 then [] else CallsForBefore(calls, n - 1, m, j) + OfOne(calls[n - 1], m, j)
  }

  function OfOne(c: Call, m: nat, j: nat): seq<Call> {
    OnlyIf(c.m == m && c.j == j, c)
  }

  function OnlyIf(b: bool, c: Call): seq<Call> {
    if b then [c] else []
  }

  lemma {:induction false} CallsForPrefix(a: seq<Call>, b: seq<Call>, n: nat, m: nat, j: nat)
    requires n <= |a| && a <= b
    ensures CallsForBefore(a, n, m, j) == CallsForBefore(b, n, m, j)
  {
    if n > 0 {
      CallsForPrefix(a, b, n - 1, m, j);
    }
  }

  lemma {:induction false} CallsForBeyond(a: seq<Call>, b: seq<Call>, n: nat, m: nat, j: nat)
    requires n <= |b|
    ensures CallsForBefore(a + b, |a| + n, m, j) == CallsFor(a, m, j) + CallsForBefore(b, n, m, j)
  {
    if n == 0 {
      CallsForPrefix(a, a + b, |a|, m, j);
    } else {
      CallsForBeyond(a, b, n - 1, m, j);
    }
  }

  lemma {:induction false} CallsForSplit(a: seq<Call>, b: seq<Call>, m: nat, j: nat)
    ensures CallsFor(a + b, m, j) == CallsFor(a, m, j) + CallsFor(b, m, j)
  {
    CallsForBeyond(a, b, |b|, m, j);
  }

  lemma {:induction false} CallsForOne(c: Call, m: nat, j: nat)
    ensures CallsFor([c], m, j) == OfOne(c, m, j)
  {
    assert CallsForBefore([c], 0, m, j) == [];
  }

  lemma {:induction false} StripeOrder(m: nat, first: nat, card: nat, threads: nat, k: nat, m': nat, j: nat)
    requires threads > 0
    ensures CallsFor(Stripe(m, first, card, threads, k), m', j) ==
      OnlyIf(m' == m && j < card && OnStripe(j, first, threads), Call(m', j, k))
    decreases card - first
  {
    if first < card {
      var rest := Stripe(m, first + threads, card, threads, k);
      StripeOrder(m, first + threads, card, threads, k, m', j);
      CallsForSplit([Call(m, first, k)], rest, m', j);
      CallsForOne(Call(m, first, k), m', j);
    }
  }

  lemma {:induction false} SweepOrder(cards: seq<nat>, id: nat, threads: nat, k: nat, i: nat, m: nat, j: nat)
    requires id < threads && cards != [] && i <= |cards|
    ensures CallsFor(SweepCalls(cards, id, threads, k, i), m, j) ==
      OnlyIf(Ahead(cards, k, i, Call(m, j, k)) && OnStripe(j, id, threads), Call(m, j, k))
    decreases |cards| - i
  {
    if i < |cards| {
      var n := MetricAt(|cards|, i, k);
      var stripe := Stripe(n, id, cards[n], threads, k);
      SweepOrder(cards, id, threads, k, i + 1, m, j);
      StripeOrder(n, id, cards[n], threads, k, m, j);
      CallsForSplit(stripe, SweepCalls(cards, id, threads, k, i + 1), m, j);
      AheadStep(cards, k, i, Call(m, j, k));
    }
  }

  lemma {:induction false} AheadStep(cards: seq<nat>, k: nat, i: nat, c: Call)
    requires i < |cards|
    ensures Ahead(cards, k, i, c) <==>
      Ahead(cards, k, i + 1, c) || (c.m == MetricAt(|cards|, i, k) && c.j < cards[c.m])
    ensures Ahead(cards, k, i + 1, c) ==> c.m != MetricAt(|cards|, i, k)
  {
    if c.m < |cards| {
      RotationIsBijective(|cards|, i, c.m, k);
    }
  }

  /** The calls of one series from sweep k on, sweep by sweep. */
  function SeriesFrom(m: nat, j: nat, k: nat, sweeps: nat): (calls: seq<Call>)
    ensures |calls| == if k < sweeps then sweeps - k else 0
    ensures forall i :: 0 <= i < |calls| ==> calls[i] == Call(m, j, k + i)
    decreases sweeps - k
  {
    if k >= sweeps then [] else [Call(m, j, k)] + SeriesFrom(m, j, k + 1, sweeps)
  }

  /** A worker calls for a series of its stripe once per sweep, in ascending order of sweeps, and
      for no other series at all. */
  lemma {:induction false} RunOrder(cards: seq<nat>, id: nat, threads: nat, k: nat, sweeps: nat, m: nat, j: nat)
    requires id < threads && cards != []
    ensures CallsFor(RunCalls(cards, id, threads, k, sweeps), m, j) ==
      if m < |cards| && j < cards[m] && WorkerOf(j, threads) == id then SeriesFrom(m, j, k, sweeps) else []
    decreases sweeps - k
  {
    StripeOf(j, id, threads);
    if k < sweeps {
      RunOrder(cards, id, threads, k + 1, sweeps, m, j);
      SweepOrder(cards, id, threads, k, 0, m, j);
      CallsForSplit(SweepCalls(cards, id, threads, k, 0), RunCalls(cards, id, threads, k + 1, sweeps), m, j);
    }
  }

  lemma {:induction false} CallsForBegins(calls: seq<Call>, n: nat, m: nat, j: nat)
    requires n <= |calls|
    ensures CallsForBefore(calls, n, m, j) <= CallsFor(calls, m, j)
    decreases |calls| - n
  {
    if n < |calls| {
      CallsForBegins(calls, n + 1, m, j);
    }
  }

  // Totals: the same calls, series by series.

  function SeriesLife(m: nat, j: nat, sweeps: nat): seq<Call> {
    if sweeps == 0 then [] else SeriesLife(m, j, sweeps - 1) + [Call(m, j, sweeps - 1)]
  }

  function MetricLife(m: nat, card: nat, sweeps: nat): seq<Call> {
    if card == 0 then [] else MetricLife(m, card - 1, sweeps) + SeriesLife(m, card - 1, sweeps)
  }

  function AllLives(cards: seq<nat>, sweeps: nat): seq<Call> {
    if cards == [] then []
    else
      var m := |cards| - 1;
      AllLives(cards[..m], sweeps) + MetricLife(m, cards[m], sweeps)
  }

  lemma {:induction false} SeriesLifeCount(m: nat, j: nat, sweeps: nat, c: Call)
    ensures Occurs(SeriesLife(m, j, sweeps), c) == Bit(c.m == m && c.j == j && c.k < sweeps)
  {
    if sweeps > 0 {
      SeriesLifeCount(m, j, sweeps - 1, c);
      OccursSplit(SeriesLife(m, j, sweeps - 1), [Call(m, j, sweeps - 1)], c);
      OccursOnce(Call(m, j, sweeps - 1), c);
    }
  }

  lemma {:induction false} MetricLifeCount(m: nat, card: nat, sweeps: nat, c: Call)
    ensures Occurs(MetricLife(m, card, sweeps), c) == Bit(c.m == m && c.j < card && c.k < sweeps)
  {
    if card > 0 {
      MetricLifeCount(m, card - 1, sweeps, c);
      SeriesLifeCount(m, card - 1, sweeps, c);
      OccursSplit(MetricLife(m, card - 1, sweeps), SeriesLife(m, card - 1, sweeps), c);
    }
  }

  lemma {:induction false} AllLivesCount(cards: seq<nat>, sweeps: nat, c: Call)
    ensures Occurs(AllLives(cards, sweeps), c) == Bit(InRun(cards, sweeps, c))
  {
    if cards != [] {
      var m := |cards| - 1;
      AllLivesCount(cards[..m], sweeps, c);
      MetricLifeCount(m, cards[m], sweeps, c);
      OccursSplit(AllLives(cards[..m], sweeps), MetricLife(m, cards[m], sweeps), c);
    }
  }

  /** The points a sequence of calls emits, given what each call emits. */
  function Emitted(calls: seq<Call>, emits: Call -> nat): nat {
    EmittedBefore(calls, |calls|, emits)
  }

  function EmittedBefore(calls: seq<Call>, n: nat, emits: Call -> nat): nat
    requires n <= |calls|
  {
    if n == 0 then 0 else EmittedBefore(calls, n - 1, emits) + emits(calls[n - 1])
  }

  lemma {:induction false} EmittedPrefix(a: seq<Call>, b: seq<Call>, n: nat, emits: Call -> nat)
    requires n <= |a| && a <= b
    ensures EmittedBefore(a, n, emits) == EmittedBefore(b, n, emits)
  {
    if n > 0 {
      EmittedPrefix(a, b, n - 1, emits);
    }
  }

  lemma {:induction false} EmittedBeyond(a: seq<Call>, b: seq<Call>, n: nat, emits: Call -> nat)
    requires n <= |b|
    ensures EmittedBefore(a + b, |a| + n, emits) == Emitted(a, emits) + EmittedBefore(b, n, emits)
  {
    if n == 0 {
      EmittedPrefix(a, a + b, |a|, emits);
    } else {
      EmittedBeyond(a, b, n - 1, emits);
    }
  }

  lemma {:induction false} EmittedSplit(a: seq<Call>, b: seq<Call>, emits: Call -> nat)
    ensures Emitted(a + b, emits) == Emitted(a, emits) + Emitted(b, emits)
  {
    EmittedBeyond(a, b, |b|, emits);
  }

  lemma {:induction false} EmittedOnce(x: Call, emits: Call -> nat)
    ensures Emitted([x], emits) == emits(x)
  {
    assert EmittedBefore([x], 0, emits) == 0;
  }

  /** Taking one call out takes out its occurrence and what it emits. */
  lemma {:induction false} TakeOut(a: seq<Call>, x: Call, b: seq<Call>, emits: Call -> nat)
    ensures forall c :: Occurs(a + [x] + b, c) == Occurs(a + b, c) + Bit(x == c)
    ensures Emitted(a + [x] + b, emits) == Emitted(a + b, emits) + emits(x)
  {
    forall c: Call
      ensures Occurs(a + [x] + b, c) == Occurs(a + b, c) + Bit(x == c)
    {
      OccursSplit(a + [x], b, c);
      OccursSplit(a, [x], c);
      OccursOnce(x, c);
      OccursSplit(a, b, c);
    }
    EmittedSplit(a + [x], b, emits);
    EmittedSplit(a, [x], emits);
    EmittedOnce(x, emits);
    EmittedSplit(a, b, emits);
  }

  lemma {:induction false} FindCall(s: seq<Call>, n: nat, c: Call) returns (i: nat)
    requires n <= |s| && OccursBefore(s, n, c) > 0
    ensures i < n && s[i] == c
  {
    if s[n - 1] == c {
      i := n - 1;
    } else {
      i := FindCall(s, n - 1, c);
    }
  }

  lemma {:induction false} LastOccurs(s: seq<Call>)
    requires s != []
    ensures Occurs(s, s[|s| - 1]) > 0
  {
  }

  /** Neither the number of calls nor what they emit depends on their order. */
  lemma {:induction false} EmittedOrderless(a: seq<Call>, b: seq<Call>, emits: Call -> nat)
    requires forall c :: Occurs(a, c) == Occurs(b, c)
    ensures Emitted(a, emits) == Emitted(b, emits) && |a| == |b|
  {
    if b != [] {
      LastOccurs(b);
    }
    if a != [] {
      var l := |a| - 1;
      var x := a[l];
      LastOccurs(a);
      assert Occurs(b, x) == Occurs(a, x);
      var i := FindCall(b, |b|, x);
      var rest := b[..i] + b[i + 1..];
      assert a == a[..l] + [x] + [] && a[..l] == a[..l] + [];
      assert b == b[..i] + [x] + b[i + 1..];
      TakeOut(a[..l], x, [], emits);
      TakeOut(b[..i], x, b[i + 1..], emits);
      forall c: Call
        ensures Occurs(a[..l], c) == Occurs(rest, c)
      {
        assert Occurs(a, c) == Occurs(b, c);
      }
      EmittedOrderless(a[..l], rest, emits);
    }
  }

  function CardSum(cards: seq<nat>): nat {
    if cards == [] then 0 else CardSum(cards[..|cards| - 1]) + cards[|cards| - 1]
  }

  /** Adds up a quantity over the series of one metric, and over all metrics. */
  function SeriesSum(of: (nat, nat) -> int, m: nat, card: nat): int {
    if card == 0 then 0 else SeriesSum(of, m, card - 1) + of(m, card - 1)
  }

  function FleetSum(of: (nat, nat) -> int, cards: seq<nat>): int {
    if cards == [] then 0
    else
      var m := |cards| - 1;
      FleetSum(of, cards[..m]) + SeriesSum(of, m, cards[m])
  }

  /** What one call emits, given which resource owns each series. */
  function EmitsOf(p: Plan, owner: (nat, nat) -> nat, markers: bool): Call -> nat {
    (c: Call) => |Emit(p, owner(c.m, c.j), markers, c.k)|
  }

  lemma {:induction false} Distribute(t: nat, a: nat, b: nat, m: nat)
    requires t == a + b
    ensures t * m == a * m + b * m
  {
  }

  lemma {:induction false} LivesLength(cards: seq<nat>, sweeps: nat)
    ensures |AllLives(cards, sweeps)| == CardSum(cards) * sweeps
  {
    if cards != [] {
      var m := |cards| - 1;
      LivesLength(cards[..m], sweeps);
      MetricLifeLength(m, cards[m], sweeps);
      Distribute(CardSum(cards), CardSum(cards[..m]), cards[m], sweeps);
    }
  }

  lemma {:induction false} MetricLifeLength(m: nat, card: nat, sweeps: nat)
    ensures |MetricLife(m, card, sweeps)| == card * sweeps
  {
    if card > 0 {
      MetricLifeLength(m, card - 1, sweeps);
      SeriesLifeLength(m, card - 1, sweeps);
      Distribute(card, card - 1, 1, sweeps);
    }
  }

  lemma {:induction false} SeriesLifeLength(m: nat, j: nat, sweeps: nat)
    ensures |SeriesLife(m, j, sweeps)| == sweeps
  {
    if sweeps > 0 {
      SeriesLifeLength(m, j, sweeps - 1);
    }
  }

  /** What a whole series emits. */
  function LifeOf(emits: Call -> nat, sweeps: nat): (nat, nat) -> int {
    (m: nat, j: nat) => Emitted(SeriesLife(m, j, sweeps), emits)
  }

  lemma {:induction false} MetricLifeEmits(emits: Call -> nat, sweeps: nat, m: nat, card: nat)
    ensures Emitted(MetricLife(m, card, sweeps), emits) == SeriesSum(LifeOf(emits, sweeps), m, card)
  {
    if card > 0 {
      MetricLifeEmits(emits, sweeps, m, card - 1);
      var before, life := MetricLife(m, card - 1, sweeps), SeriesLife(m, card - 1, sweeps);
      EmittedSplit(before, life, emits);
      assert MetricLife(m, card, sweeps) == before + life;
    }
  }

  lemma {:induction false} AllLivesEmit(emits: Call -> nat, sweeps: nat, cards: seq<nat>)
    ensures Emitted(AllLives(cards, sweeps), emits) == FleetSum(LifeOf(emits, sweeps), cards)
  {
    if cards != [] {
      var m := |cards| - 1;
      AllLivesEmit(emits, sweeps, cards[..m]);
      MetricLifeEmits(emits, sweeps, m, cards[m]);
      EmittedSplit(AllLives(cards[..m], sweeps), MetricLife(m, cards[m], sweeps), emits);
    }
  }

  /** The life of a series emits exactly the stream of the resource that owns it. */
  lemma {:induction false} SeriesLifeEmits(
    p: Plan, owner: (nat, nat) -> nat, markers: bool, sweeps: nat, m: nat, j: nat)
    ensures Emitted(SeriesLife(m, j, sweeps), EmitsOf(p, owner, markers)) == |Stream(p, owner(m, j), markers, sweeps)|
  {
    if sweeps > 0 {
      SeriesLifeEmits(p, owner, markers, sweeps - 1, m, j);
      EmittedSplit(SeriesLife(m, j, sweeps - 1), [Call(m, j, sweeps - 1)], EmitsOf(p, owner, markers));
      EmittedOnce(Call(m, j, sweeps - 1), EmitsOf(p, owner, markers));
    }
  }

  /** Calls and points of a run: the fleet makes total series times sweeps calls, and emits
      the lives of all series, for any number of workers and whatever a call emits. */
  lemma {:induction false} FleetTotals(emits: Call -> nat, cards: seq<nat>, threads: nat, sweeps: nat)
    requires threads > 0 && cards != []
    ensures |FleetCalls(cards, threads, threads, sweeps)| == CardSum(cards) * sweeps
    ensures Emitted(FleetCalls(cards, threads, threads, sweeps), emits) == FleetSum(LifeOf(emits, sweeps), cards)
  {
    var fleet, lives := FleetCalls(cards, threads, threads, sweeps), AllLives(cards, sweeps);
    forall c: Call
      ensures Occurs(fleet, c) == Occurs(lives, c)
    {
      FleetCoversOnce(cards, threads, sweeps, c);
      AllLivesCount(cards, sweeps, c);
    }
    EmittedOrderless(fleet, lives, emits);
    LivesLength(cards, sweeps);
    AllLivesEmit(emits, sweeps, cards);
  }

  /** The generation changes a series goes through from the first sweep to the last. */
  function ChurnOf(p: Plan, owner: (nat, nat) -> nat, sweeps: nat): (nat, nat) -> int
    requires sweeps > 0
  {
    (m: nat, j: nat) => Generation(p, owner(m, j), sweeps - 1) - Generation(p, owner(m, j), 0)
  }

  lemma {:induction false} SumOfSums(f: (nat, nat) -> int, g: (nat, nat) -> int, a: nat, m: nat, card: nat)
    requires forall m: nat, j: nat :: f(m, j) == a + g(m, j)
    ensures SeriesSum(f, m, card) == card * a + SeriesSum(g, m, card)
  {
    if card > 0 {
      SumOfSums(f, g, a, m, card - 1);
      Distribute(card, card - 1, 1, a);
    }
  }

  lemma {:induction false} FleetSumOfSums(f: (nat, nat) -> int, g: (nat, nat) -> int, a: nat, cards: seq<nat>)
    requires forall m: nat, j: nat :: f(m, j) == a + g(m, j)
    ensures FleetSum(f, cards) == CardSum(cards) * a + FleetSum(g, cards)
  {
    if cards != [] {
      var m := |cards| - 1;
      FleetSumOfSums(f, g, a, cards[..m]);
      SumOfSums(f, g, a, m, cards[m]);
      Distribute(CardSum(cards), CardSum(cards[..m]), cards[m], a);
    }
  }

  /** Whole-run totals: with markers on, the fleet emits total series times sweeps real points
      and one marker for every generation change of every series. */
  lemma {:induction false} FleetPoints(p: Plan, owner: (nat, nat) -> nat, cards: seq<nat>, threads: nat, sweeps: nat)
    requires threads > 0 && cards != [] && sweeps > 0
    ensures Emitted(FleetCalls(cards, threads, threads, sweeps), EmitsOf(p, owner, true))
         == CardSum(cards) * sweeps + FleetSum(ChurnOf(p, owner, sweeps), cards)
  {
    var emits := EmitsOf(p, owner, true);
    FleetTotals(emits, cards, threads, sweeps);
    forall m: nat, j: nat
      ensures LifeOf(emits, sweeps)(m, j) == sweeps + ChurnOf(p, owner, sweeps)(m, j)
    {
      SeriesLifeEmits(p, owner, true, sweeps, m, j);
      StreamLength(p, owner(m, j), true, sweeps);
    }
    FleetSumOfSums(LifeOf(emits, sweeps), ChurnOf(p, owner, sweeps), sweeps, cards);
  }
}
