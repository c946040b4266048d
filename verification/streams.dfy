/** What one series puts on the wire over a whole run: its real points, the staleness
    markers that close its generations, and the window each of them reports. */
module Streams {
  import opened Sweeps

  datatype MetricType = Gauge | Sum | Histogram | ExpHistogram | Summary

  datatype Temporality = Unspecified | Delta | Cumulative

  // Windows

  /** Gauges report no window; a cumulative metric or a summary reports since when it has
      been accumulating; a delta metric reports since its previous sweep. */
  datatype Window = NoWindow | Since(sweep: int)

  function PointWindow(p: Plan, s: Series, typ: MetricType, temporality: Temporality, k: nat): Window {
    match typ
    case Gauge => NoWindow
    case Sum => Since(if temporality == Cumulative then EpochStart(p, s, k) else k - 1)
    case Histogram => WindowStart(p, s, temporality, k)
    case ExpHistogram => WindowStart(p, s, temporality, k)
    case Summary => Since(EpochStart(p, s, k))
  }

  function WindowStart(p: Plan, s: Series, temporality: Temporality, k: nat): Window {
    Since(if temporality == Cumulative then EpochStart(p, s, k) else k - 1)
  }

  /** The window of the marker sent at sweep k for the generation that ended there. */
  function MarkerWindow(p: Plan, s: Series, typ: MetricType, temporality: Temporality, k: nat): Window
    requires k > 0
  {
    if typ == Gauge then NoWindow
    else if temporality == Cumulative || typ == Summary then Since(EpochStart(p, s, k - 1))
    else Since(k - 1)
  }

  predicate Accumulates(typ: MetricType, temporality: Temporality) {
    typ == Summary || (typ != Gauge && temporality == Cumulative)
  }

  /** Delta windows tile time: every instant from the sweep before the run up to the last
      point lies in the window of exactly one sweep. */
  lemma {:induction false} DeltaWindowsTile(p: Plan, s: Series, sweeps: nat, t: int) returns (k: nat)
    requires p.Valid()
    requires PointTimeMs(p, s, -1) <= t < PointTimeMs(p, s, sweeps - 1)
    ensures k < sweeps && InDeltaWindow(p, s, k, t)
    ensures forall j: nat :: InDeltaWindow(p, s, j, t) ==> j == k
  {
    if sweeps == 0 {
      assert false;
    } else if t < PointTimeMs(p, s, sweeps - 2) {
      k := DeltaWindowsTile(p, s, sweeps - 1, t);
    } else {
      k := sweeps - 1;
      forall j: nat | InDeltaWindow(p, s, j, t)
        ensures j == k
      {
        PointTimesIncrease(p, s, j - 1, k);
        PointTimesIncrease(p, s, k - 1, j);
      }
    }
  }

  predicate InDeltaWindow(p: Plan, s: Series, k: nat, t: int)
    requires p.Valid()
  {
    PointTimeMs(p, s, PointWindow(p, s, Sum, Delta, k).sweep) <= t < PointTimeMs(p, s, k)
  }

  /** A window never starts after the point that reports it.  A cumulative window is empty
      exactly at an epoch boundary, and between boundaries its start does not move. */
  lemma {:induction false} WindowOrder(p: Plan, s: Series, typ: MetricType, temporality: Temporality, k: nat)
    requires p.Valid() && typ != Gauge
    ensures var w := PointWindow(p, s, typ, temporality, k).sweep;
      && PointTimeMs(p, s, w) <= PointTimeMs(p, s, k)
      && (PointTimeMs(p, s, w) == PointTimeMs(p, s, k) <==> Accumulates(typ, temporality) && EpochBoundary(p, s, k))
    ensures Accumulates(typ, temporality) && !EpochBoundary(p, s, k) ==>
      k > 0 && PointWindow(p, s, typ, temporality, k) == PointWindow(p, s, typ, temporality, k - 1)
  {
    EpochStartIsLatestBoundary(p, s, k);
    EpochStructure(p, s, k, k);
    PointTimesIncrease(p, s, PointWindow(p, s, typ, temporality, k).sweep, k);
    PointTimesIncrease(p, s, k, PointWindow(p, s, typ, temporality, k).sweep);
  }

  /** A marker carries the window start of the last real point when that point was
      accumulating, and picks up where that point's window ended when it was a delta; the
      marker itself is later than that point. */
  lemma {:induction false} MarkerContinuesWindow(
    p: Plan, s: Series, typ: MetricType, temporality: Temporality, k: nat)
    requires p.Valid() && k > 0
    ensures typ == Gauge ==> MarkerWindow(p, s, typ, temporality, k) == NoWindow
    ensures Accumulates(typ, temporality) ==>
      MarkerWindow(p, s, typ, temporality, k) == PointWindow(p, s, typ, temporality, k - 1)
    ensures typ != Gauge && !Accumulates(typ, temporality) ==>
      MarkerWindow(p, s, typ, temporality, k) == Since(k - 1) == PointWindow(p, s, typ, temporality, k)
    ensures PointTimeMs(p, s, k - 1) < PointTimeMs(p, s, k)
    ensures typ != Gauge ==>
      PointTimeMs(p, s, MarkerWindow(p, s, typ, temporality, k).sweep) < PointTimeMs(p, s, k)
  {
    PointTimesIncrease(p, s, k - 1, k);
    if typ != Gauge {
      EpochStartIsLatestBoundary(p, s, k - 1);
      PointTimesIncrease(p, s, MarkerWindow(p, s, typ, temporality, k).sweep, k);
    }
  }

  /** A marker has the start of the last real point exactly when that point was not a delta;
      for deltas the instants reported as start differ as well. */
  lemma {:induction false} MarkerRepeatsStartIff(
    p: Plan, s: Series, typ: MetricType, temporality: Temporality, k: nat)
    requires p.Valid() && k > 0
    ensures var marker, last := MarkerWindow(p, s, typ, temporality, k), PointWindow(p, s, typ, temporality, k - 1);
      && (marker == last <==> typ == Gauge || Accumulates(typ, temporality))
      && (typ != Gauge ==>
            (PointTimeMs(p, s, marker.sweep) == PointTimeMs(p, s, last.sweep) <==> Accumulates(typ, temporality)))
  {
    if typ != Gauge && !Accumulates(typ, temporality) {
      PointTimesIncrease(p, s, k - 2, k - 1);
    }
  }

  // Streams

  /** One emission: a real point, or the staleness marker of an ended generation. */
  datatype Event = Real(gen: nat, sweep: nat) | Marker(gen: nat, sweep: nat)

  /** What adding the point of sweep k emits for the series of one resource. */
  function Emit(p: Plan, r: nat, markers: bool, k: nat): (events: seq<Event>)
    ensures forall i :: 0 <= i < |events| && events[i].Marker? ==> events[i].sweep > 0
  {
    var gen := Generation(p, r, k);
    (if markers && GenerationChanged(p, r, k) then
       assert gen > 0 by { GenerationChangedIff(p, r, k); }
       [Marker(gen - 1, k)]
     else []) + [Real(gen, k)]
  }

  function Stream(p: Plan, r: nat, markers: bool, sweeps: nat): (events: seq<Event>)
    ensures forall i :: 0 <= i < |events| && events[i].Marker? ==> events[i].sweep > 0
  {
    if sweeps == 0 then [] else Stream(p, r, markers, sweeps - 1) + Emit(p, r, markers, sweeps - 1)
  }

  /** The events of a stream that carry the identity of generation g. */
  function OfGeneration(events: seq<Event>, g: nat): seq<Event> {
    if events == [] then []
    else
      var rest := OfGeneration(events[..|events| - 1], g);
      if events[|events| - 1].gen == g then rest + [events[|events| - 1]] else rest
  }

  /** The real points of generation g from sweep lo up to but not including sweep hi. */
  function RealRun(g: nat, lo: int, hi: int): seq<Event>
    requires 0 <= lo
    decreases hi
  {
    if hi <= lo then [] else RealRun(g, lo, hi - 1) + [Real(g, hi - 1)]
  }

  /** Generation g lives from its Birth sweep up to but not including its Death sweep. */
  function Birth(p: Plan, r: nat, g: nat): nat
    requires p.lifetime > 0
  {
    if g == 0 then 0 else MulMono(1, g, p.lifetime); g * p.lifetime - ChurnPhase(p, r)
  }

  function Death(p: Plan, r: nat, g: nat): nat
    requires p.lifetime > 0
  {
    Birth(p, r, g + 1)
  }

  lemma {:induction false} LifeSpan(p: Plan, r: nat, g: nat, k: nat)
    requires p.lifetime > 0
    ensures Generation(p, r, k) == g <==> Birth(p, r, g) <= k < Death(p, r, g)
    ensures GenerationChanged(p, r, k) && Generation(p, r, k) == g + 1 <==> k == Death(p, r, g)
    ensures Birth(p, r, g) < Death(p, r, g)
  {
    var x, l := k + ChurnPhase(p, r), p.lifetime;
    if Birth(p, r, g) <= k < Death(p, r, g) {
      QuotientIs(x, l, g, x - g * l);
    } else if k == Death(p, r, g) {
      QuotientIs(x, l, g + 1, 0);
    }
  }

  lemma {:induction false} OfGenerationAppend(events: seq<Event>, e: Event, g: nat)
    ensures OfGeneration(events + [e], g) ==
      if e.gen == g then OfGeneration(events, g) + [e] else OfGeneration(events, g)
  {
    assert (events + [e])[..|events|] == events;
  }

  lemma {:induction false} OfGenerationEmit(p: Plan, r: nat, events: seq<Event>, k: nat, g: nat)
    ensures OfGeneration(events + Emit(p, r, true, k), g) ==
      if GenerationChanged(p, r, k) && Generation(p, r, k) == g + 1 then OfGeneration(events, g) + [Marker(g, k)]
      else if Generation(p, r, k) == g then OfGeneration(events, g) + [Real(g, k)]
      else OfGeneration(events, g)
  {
    var gen := Generation(p, r, k);
    GenerationChangedIff(p, r, k);
    OfGenerationAppend(events, Real(gen, k), g);
    if GenerationChanged(p, r, k) {
      OfGenerationAppend(events, Marker(gen - 1, k), g);
      OfGenerationAppend(events + [Marker(gen - 1, k)], Real(gen, k), g);
      assert events + Emit(p, r, true, k) == events + [Marker(gen - 1, k)] + [Real(gen, k)];
    }
  }

  /** The whole life of a generation on the wire: its real points sweep by sweep, then, if
      it ended during the run, exactly one marker at the sweep that replaced it, and then
      nothing. */
  lemma {:induction false} GenerationOnTheWire(p: Plan, r: nat, g: nat, sweeps: nat)
    requires p.lifetime > 0
    ensures OfGeneration(Stream(p, r, true, sweeps), g) ==
      if Death(p, r, g) < sweeps then RealRun(g, Birth(p, r, g), Death(p, r, g)) + [Marker(g, Death(p, r, g))]
      else RealRun(g, Birth(p, r, g), sweeps)
  {
    if sweeps > 0 {
      var k := sweeps - 1;
      GenerationOnTheWire(p, r, g, k);
      OfGenerationEmit(p, r, Stream(p, r, true, k), k, g);
      LifeSpan(p, r, g, k);
    }
  }

  /** In the stream of a series a marker stands right after the last real point of the
      generation it closes and right before the first real point of the next one. */
  lemma {:induction false} MarkersInPlace(p: Plan, r: nat, sweeps: nat, i: nat)
    requires i < |Stream(p, r, true, sweeps)|
    ensures var events := Stream(p, r, true, sweeps);
      events[i].Marker? ==>
        && 0 < i < |events| - 1
        && events[i].sweep > 0
        && events[i - 1] == Real(events[i].gen, events[i].sweep - 1)
        && events[i + 1] == Real(events[i].gen + 1, events[i].sweep)
  {
    var k := sweeps - 1;
    var before := Stream(p, r, true, k);
    if i < |before| {
      MarkersInPlace(p, r, k, i);
    } else {
      GenerationChangedIff(p, r, k);
      if k > 0 {
        EndsWithReal(p, r, true, k);
      }
    }
  }

  /** An event carries the generation of its sweep, a marker the one before. */
  lemma {:induction false} EventsCarryGeneration(p: Plan, r: nat, markers: bool, sweeps: nat, i: nat)
    requires i < |Stream(p, r, markers, sweeps)|
    ensures var e := Stream(p, r, markers, sweeps)[i];
      e.gen == Generation(p, r, e.sweep) - if e.Marker? then 1 else 0
  {
    if i < |Stream(p, r, markers, sweeps - 1)| {
      EventsCarryGeneration(p, r, markers, sweeps - 1, i);
    }
  }

  /** Before a real point comes its sweep's marker or the real point of the sweep before. */
  lemma {:induction false} RealsInOrder(p: Plan, r: nat, markers: bool, sweeps: nat, i: nat)
    requires 0 < i < |Stream(p, r, markers, sweeps)| && Stream(p, r, markers, sweeps)[i].Real?
    ensures var events := Stream(p, r, markers, sweeps);
      && events[i].sweep > 0
      && if events[i - 1].Marker? then events[i - 1].sweep == events[i].sweep
         else events[i - 1].sweep == events[i].sweep - 1
  {
    var k := sweeps - 1;
    var before := Stream(p, r, markers, k);
    if i < |before| {
      RealsInOrder(p, r, markers, k, i);
    } else if k > 0 {
      EndsWithReal(p, r, markers, k);
    }
  }

  lemma {:induction false} EndsWithReal(p: Plan, r: nat, markers: bool, sweeps: nat)
    requires sweeps > 0
    ensures var events := Stream(p, r, markers, sweeps);
      |events| > 0 && events[|events| - 1] == Real(Generation(p, r, sweeps - 1), sweeps - 1)
  {
  }

  /** A run emits one real point per sweep and, with markers on, one marker per generation
      the resource went through. */
  lemma {:induction false} StreamLength(p: Plan, r: nat, markers: bool, sweeps: nat)
    requires sweeps > 0
    ensures |Stream(p, r, markers, sweeps)| ==
      sweeps + if markers then Generation(p, r, sweeps - 1) - Generation(p, r, 0) else 0
  {
    GenerationChangedIff(p, r, sweeps - 1);
    if sweeps > 1 {
      StreamLength(p, r, markers, sweeps - 1);
    } else {
      assert Stream(p, r, markers, 0) == [];
    }
  }

  /** Without churn or without markers a stream is its real points alone. */
  lemma {:induction false} StreamWithoutMarkers(p: Plan, r: nat, markers: bool, sweeps: nat, i: nat)
    requires p.lifetime == 0 || !markers
    ensures |Stream(p, r, markers, sweeps)| == sweeps
    ensures i < sweeps ==> Stream(p, r, markers, sweeps)[i] == Real(Generation(p, r, i), i)
  {
    if sweeps > 0 {
      StreamWithoutMarkers(p, r, markers, sweeps - 1, i);
    }
  }
}
