/** What the workers of a fleet send, series by series and in all. */
module Fleets {
  import opened Sweeps
  import opened Streams
  import opened Coverage
  import opened Builders
  import opened Workers

  // The wire, series by series

  /** Metrics know their own position in the plan. */
  predicate Numbered(metrics: seq<MetricDef>) {
    forall m :: 0 <= m < |metrics| ==> metrics[m].index == m
  }

  /** What the calls for one series generate. */
  ghost function GeneratedFor(
    c: Config, metrics: seq<MetricDef>, script: seq<Call>, n: nat, m: nat, j: nat): seq<PointEntry>
    requires c.Valid() && m < |metrics| && n <= |script|
  {
    if n == 0 then [] else GeneratedFor(c, metrics, script, n - 1, m, j) + IfFor(c, metrics[m], m, j, script[n - 1])
  }

  function IfFor(c: Config, def: MetricDef, m: nat, j: nat, call: Call): seq<PointEntry>
    requires c.Valid()
  {
    if call.m == m && call.j == j then Placements(c, def, j, call.k) else []
  }

  lemma {:induction false} GeneratedByFor(c: Config, metrics: seq<MetricDef>, call: Call, m: nat, j: nat)
    requires c.Valid() && Numbered(metrics) && m < |metrics|
    ensures PointsFor(GeneratedBy(c, metrics, call), m, j) == IfFor(c, metrics[m], m, j, call)
  {
    if call.m < |metrics| {
      PlacementsOfSeries(c, metrics[call.m], call.j, call.k, m, j);
    }
  }

  lemma {:induction false} GeneratedStep(
    c: Config, metrics: seq<MetricDef>, script: seq<Call>, n: nat, m: nat, j: nat)
    requires c.Valid() && Numbered(metrics) && m < |metrics| && 0 < n <= |script|
    ensures PointsFor(Generated(c, metrics, script, n), m, j) ==
      PointsFor(Generated(c, metrics, script, n - 1), m, j) + IfFor(c, metrics[m], m, j, script[n - 1])
  {
    GeneratedByFor(c, metrics, script[n - 1], m, j);
    PointsForSplit(Generated(c, metrics, script, n - 1), GeneratedBy(c, metrics, script[n - 1]), m, j);
  }

  /** With the same beginning for all calls but the last, what belongs to one series and what the
      calls for it generate go on to be the same. */
  lemma {:induction false} GeneratedNext(
    c: Config, metrics: seq<MetricDef>, script: seq<Call>, n: nat, m: nat, j: nat)
    requires c.Valid() && Numbered(metrics) && m < |metrics| && 0 < n <= |script|
    requires PointsFor(Generated(c, metrics, script, n - 1), m, j) == GeneratedFor(c, metrics, script, n - 1, m, j)
    ensures PointsFor(Generated(c, metrics, script, n), m, j) == GeneratedFor(c, metrics, script, n, m, j)
  {
    GeneratedStep(c, metrics, script, n, m, j);
  }

  /** Of all that calls generate, what belongs to one series is what the calls for it do. */
  lemma {:induction false} GeneratedForIs(
    c: Config, metrics: seq<MetricDef>, script: seq<Call>, n: nat, m: nat, j: nat)
    requires c.Valid() && Numbered(metrics) && m < |metrics| && n <= |script|
    ensures PointsFor(Generated(c, metrics, script, n), m, j) == GeneratedFor(c, metrics, script, n, m, j)
  {
    if n == 0 {
      GeneratedNone(c, metrics, script, m, j);
    } else {
      GeneratedForIs(c, metrics, script, n - 1, m, j);
      GeneratedNext(c, metrics, script, n, m, j);
    }
  }

  lemma {:induction false} GeneratedNone(c: Config, metrics: seq<MetricDef>, script: seq<Call>, m: nat, j: nat)
    requires c.Valid() && m < |metrics|
    ensures PointsFor(Generated(c, metrics, script, 0), m, j) == GeneratedFor(c, metrics, script, 0, m, j)
  {
  }

  /** If these calls are the sweeps of the series in order, it is what its sweeps append. */
  lemma {:induction false} GeneratedForSeries(
    c: Config, metrics: seq<MetricDef>, script: seq<Call>, n: nat, m: nat, j: nat, sweeps: nat)
    requires c.Valid() && m < |metrics| && n <= |script|
    requires CallsForBefore(script, n, m, j) == SeriesFrom(m, j, 0, sweeps)
    ensures GeneratedFor(c, metrics, script, n, m, j) == Wire(c, metrics[m], j, sweeps)
  {
    if n == 0 {
      assert |SeriesFrom(m, j, 0, sweeps)| == 0;
    } else if script[n - 1].m == m && script[n - 1].j == j {
      LastOfSeries(script, n - 1, m, j, sweeps);
      GeneratedForSeries(c, metrics, script, n - 1, m, j, sweeps - 1);
    } else {
      GeneratedForSeries(c, metrics, script, n - 1, m, j, sweeps);
    }
  }

  lemma {:induction false} LastOfSeries(script: seq<Call>, n: nat, m: nat, j: nat, sweeps: nat)
    requires n < |script| && script[n].m == m && script[n].j == j
    requires CallsForBefore(script, n + 1, m, j) == SeriesFrom(m, j, 0, sweeps)
    ensures sweeps > 0 && script[n].k == sweeps - 1
    ensures CallsForBefore(script, n, m, j) == SeriesFrom(m, j, 0, sweeps - 1)
  {
    var s := SeriesFrom(m, j, 0, sweeps);
    var before := CallsForBefore(script, n, m, j);
    assert s == before + [script[n]];
    assert s[|before|] == script[n] && |s| == |before| + 1;
    assert before == s[..|before|];
  }

  /** How far a worker that has made the first so many calls of its run has come with a series. */
  lemma {:induction false} SweepsDone(
    cards: seq<nat>, id: nat, threads: nat, sweeps: nat, made: nat, m: nat, j: nat) returns (done: nat)
    requires id < threads && m < |cards| && made <= |RunCalls(cards, id, threads, 0, sweeps)|
    ensures CallsForBefore(RunCalls(cards, id, threads, 0, sweeps), made, m, j) == SeriesFrom(m, j, 0, done)
    ensures done <= sweeps
    ensures var own := j < cards[m] && WorkerOf(j, threads) == id;
      (!own ==> done == 0) && (own && made == |RunCalls(cards, id, threads, 0, sweeps)| ==> done == sweeps)
  {
    var script := RunCalls(cards, id, threads, 0, sweeps);
    var before, all := CallsForBefore(script, made, m, j), CallsFor(script, m, j);
    RunOrder(cards, id, threads, 0, sweeps, m, j);
    CallsForBegins(script, made, m, j);
    done := |before|;
    assert before == SeriesFrom(m, j, 0, done);
  }

  lemma {:induction false} ScriptInRange(cards: seq<nat>, id: nat, threads: nat, sweeps: nat, i: nat)
    requires id < threads && cards != [] && i < |RunCalls(cards, id, threads, 0, sweeps)|
    ensures RunCalls(cards, id, threads, 0, sweeps)[i].m < |cards|
  {
    var script := RunCalls(cards, id, threads, 0, sweeps);
    CallOccurs(script, i);
    RunCount(cards, id, threads, 0, sweeps, script[i]);
  }

  lemma {:induction false} CallOccurs(calls: seq<Call>, i: nat)
    requires i < |calls|
    ensures Occurs(calls, calls[i]) > 0
  {
    assert calls == calls[..i] + [calls[i]] + calls[i + 1..];
    TakeOut(calls[..i], calls[i], calls[i + 1..], _ => 0);
  }

  /** What a worker has sent, or still holds, of a series at any time between two points of its
      run: the stream of that series up to some sweep, in order, with its markers in place; all
      of it once the run is complete.  Of series outside its stripe there is nothing. */
  lemma {:induction false} WorkerSendsStreams(w: Worker, sweeps: nat, m: nat, j: nat) returns (done: nat)
    requires w.Accounted() && Numbered(w.metrics) && m < |w.metrics|
    requires w.script == RunCalls(CardsOf(w.metrics), w.id, w.threads, 0, sweeps)
    ensures PointsFor(PointsIn(w.batches) + w.b.log, m, j) == Wire(w.b.c, w.metrics[m], j, done)
    ensures done <= sweeps
    ensures var own := j < w.metrics[m].cardinality && WorkerOf(j, w.threads) == w.id;
      (!own ==> done == 0) && (own && w.made == |w.script| ==> done == sweeps)
  {
    done := SweepsDone(CardsOf(w.metrics), w.id, w.threads, sweeps, w.made, m, j);
    WorkerConserves(w);
    GeneratedForIs(w.b.c, w.metrics, w.script, w.made, m, j);
    GeneratedForSeries(w.b.c, w.metrics, w.script, w.made, m, j, done);
  }

  // Totals

  /** What all calls of a fleet generate adds up to one real point per series and sweep and,
      with markers on, one marker per generation change of a series. */
  lemma {:induction false} FleetGenerates(c: Config, metrics: seq<MetricDef>, threads: nat, sweeps: nat)
    requires c.Valid() && c.markers && metrics != [] && threads > 0 && sweeps > 0
    ensures var calls := FleetCalls(CardsOf(metrics), threads, threads, sweeps);
      |Generated(c, metrics, calls, |calls|)|
         == CardSum(CardsOf(metrics)) * sweeps + FleetSum(ChurnOf(c.p, OwnerOf(c, metrics), sweeps), CardsOf(metrics))
  {
    var cards := CardsOf(metrics);
    var calls := FleetCalls(cards, threads, threads, sweeps);
    forall i | 0 <= i < |calls|
      ensures calls[i].m < |metrics|
    {
      CallOccurs(calls, i);
      FleetCoversOnce(cards, threads, sweeps, calls[i]);
    }
    GeneratedCount(c, metrics, calls, |calls|);
    FleetPoints(c.p, OwnerOf(c, metrics), cards, threads, sweeps);
  }

  /** Points a worker has delivered or dropped. */
  ghost function PointsOut(w: Worker): nat
    reads w
  {
    w.totalPoints + CountPoints(w.batches, false)
  }

  ghost function AllPointsOut(workers: seq<Worker>): nat
    reads workers
  {
    if workers == [] then 0
    else AllPointsOut(workers[..|workers| - 1]) + PointsOut(workers[|workers| - 1])
  }

  /** A worker that completed its part of a run of the fleet. */
  ghost predicate Completed(w: Worker, id: nat, threads: nat, c: Config, metrics: seq<MetricDef>, sweeps: nat)
    reads w, w.b
  {
    && w.Accounted() && w.id == id && w.threads == threads && w.b.c == c && w.metrics == metrics
    && w.script == RunCalls(CardsOf(metrics), id, threads, 0, sweeps)
    && w.made == |w.script| && w.b.log == []
  }

  lemma {:induction false} CompletedOut(
    w: Worker, id: nat, threads: nat, c: Config, metrics: seq<MetricDef>, sweeps: nat)
    requires Completed(w, id, threads, c, metrics, sweeps)
    ensures PointsOut(w) == |Generated(c, metrics, w.script, |w.script|)|
  {
    WorkerConserves(w);
  }

  lemma {:induction false} ScriptEmits(c: Config, metrics: seq<MetricDef>, id: nat, threads: nat, sweeps: nat)
    requires c.Valid() && metrics != [] && id < threads
    ensures var script := RunCalls(CardsOf(metrics), id, threads, 0, sweeps);
      |Generated(c, metrics, script, |script|)| == Emitted(script, EmitsOf(c.p, OwnerOf(c, metrics), c.markers))
  {
    var cards := CardsOf(metrics);
    var script := RunCalls(cards, id, threads, 0, sweeps);
    forall i | 0 <= i < |script|
      ensures script[i].m < |metrics|
    {
      ScriptInRange(cards, id, threads, sweeps, i);
    }
    GeneratedCount(c, metrics, script, |script|);
  }

  lemma {:induction false} OutAddsUp(
    workers: seq<Worker>, cards: seq<nat>, threads: nat, sweeps: nat, emits: Call -> nat)
    requires threads > 0 && cards != []
    requires forall i :: 0 <= i < |workers| ==>
      PointsOut(workers[i]) == Emitted(RunCalls(cards, i, threads, 0, sweeps), emits)
    ensures AllPointsOut(workers) == Emitted(FleetCalls(cards, |workers|, threads, sweeps), emits)
  {
    if workers != [] {
      var id := |workers| - 1;
      assert forall i :: 0 <= i < id ==> workers[..id][i] == workers[i];
      OutAddsUp(workers[..id], cards, threads, sweeps, emits);
      EmittedSplit(FleetCalls(cards, id, threads, sweeps), RunCalls(cards, id, threads, 0, sweeps), emits);
    }
  }

  /** Conservation over a whole run with markers: once all workers of a fleet are done, the points
      delivered and dropped are one per series and sweep and one per generation change of a
      series, whatever the endpoint answered and however many workers there were. */
  lemma {:induction false} FleetConserves(workers: seq<Worker>, c: Config, metrics: seq<MetricDef>, sweeps: nat)
    requires c.Valid() && c.markers && metrics != [] && |workers| > 0 && sweeps > 0
    requires forall i :: 0 <= i < |workers| ==> Completed(workers[i], i, |workers|, c, metrics, sweeps)
    ensures AllPointsOut(workers)
         == CardSum(CardsOf(metrics)) * sweeps + FleetSum(ChurnOf(c.p, OwnerOf(c, metrics), sweeps), CardsOf(metrics))
  {
    var cards, emits := CardsOf(metrics), EmitsOf(c.p, OwnerOf(c, metrics), c.markers);
    forall i | 0 <= i < |workers|
      ensures PointsOut(workers[i]) == Emitted(RunCalls(cards, i, |workers|, 0, sweeps), emits)
    {
      CompletedOut(workers[i], i, |workers|, c, metrics, sweeps);
      ScriptEmits(c, metrics, i, |workers|, sweeps);
    }
    OutAddsUp(workers, cards, |workers|, sweeps, emits);
    FleetPoints(c.p, OwnerOf(c, metrics), cards, |workers|, sweeps);
  }
}
