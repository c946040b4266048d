/** What the points of one series look like on the wire, entry by entry and next to each other. */
module Wires {
  import opened Words
  import opened Sweeps
  import opened Streams
  import opened Builders
  import opened Options

  /** The events of a series over a run. */
  function EventsOf(c: Config, def: MetricDef, j: nat, sweeps: nat): (events: seq<Event>)
    requires c.Valid()
    ensures forall i :: 0 <= i < |events| && events[i].Marker? ==> events[i].sweep > 0
  {
    Stream(c.p, MakeSeries(c, def, j).resource, c.markers, sweeps)
  }

  // One entry

  /** Every entry of the wire is addressed to the resource, the generation and the scope it belongs
      to and to its metric there; it names its series, is dated at the instant of its sweep, and
      carries a value exactly if it is a reading. */
  lemma {:induction false} WireEntry(c: Config, def: MetricDef, j: nat, sweeps: nat, i: nat)
    requires c.Valid() && i < |EventsOf(c, def, j, sweeps)|
    ensures |Wire(c, def, j, sweeps)| == |EventsOf(c, def, j, sweeps)|
    ensures var e, event, s := Wire(c, def, j, sweeps)[i], EventsOf(c, def, j, sweeps)[i], MakeSeries(c, def, j);
      && event.gen == Generation(c.p, s.resource, event.sweep) - (if event.Marker? then 1 else 0)
      && e.header.resource == s.resource && e.header.gen == event.gen && e.header.scope == def.scope
      && e.key == c.p.mixers.mix3(ToWord(s.resource), ToWord(event.gen), ToWord(def.scope))
      && e.row.key == def.index && e.row.header == def
      && e.row.row.j == j && e.row.row.attrs == c.attrs(def, j) && e.row.row.levels == def.levels
      && e.row.row.timeNano == MsToNano(PointTimeMs(c.p, s, event.sweep))
      && e.row.row.recorded == if event.Real? then Some(c.record(def, s, event.sweep)) else None
  {
    WireIsStream(c, def, j, sweeps);
    EventsCarryGeneration(c.p, MakeSeries(c, def, j).resource, c.markers, sweeps, i);
  }

  /** Its window starts nowhere for a gauge, at the instant of the epoch's first sweep for what
      accumulates, and at the instant of the sweep before for a delta; a marker has the epoch of
      the last reading. */
  lemma {:induction false} WireStart(c: Config, def: MetricDef, j: nat, sweeps: nat, i: nat)
    requires c.Valid() && i < |EventsOf(c, def, j, sweeps)|
    ensures |Wire(c, def, j, sweeps)| == |EventsOf(c, def, j, sweeps)|
    ensures var start, event := Wire(c, def, j, sweeps)[i].row.row.startNano, EventsOf(c, def, j, sweeps)[i];
      var s, k := MakeSeries(c, def, j), event.sweep;
      && (def.typ == Gauge ==> start == 0)
      && (def.typ != Gauge && !Accumulates(def.typ, def.temporality) ==>
            start == MsToNano(PointTimeMs(c.p, s, k - 1)))
      && (Accumulates(def.typ, def.temporality) ==>
            start == MsToNano(PointTimeMs(c.p, s, EpochStart(c.p, s, if event.Real? then k else k - 1))))
  {
    WireIsStream(c, def, j, sweeps);
  }

  // Neighbours

  lemma {:induction false} MarkersOnly(c: Config, def: MetricDef, j: nat, sweeps: nat, i: nat)
    requires c.Valid() && i < |EventsOf(c, def, j, sweeps)|
    ensures var events := EventsOf(c, def, j, sweeps);
      events[i].Marker? ==>
        && 0 < i < |events| - 1 && events[i].sweep > 0
        && events[i - 1] == Real(events[i].gen, events[i].sweep - 1)
        && events[i + 1] == Real(events[i].gen + 1, events[i].sweep)
  {
    var r := MakeSeries(c, def, j).resource;
    if c.markers {
      MarkersInPlace(c.p, r, sweeps, i);
    } else {
      StreamWithoutMarkers(c.p, r, false, sweeps, i);
    }
  }

  /** A marker comes right after the last reading of its series, under the same identity and in the
      same group; it has that reading's start, unless that was a delta, whose timestamp it then
      starts from; and it has the timestamp of the reading that follows. */
  lemma {:induction false} MarkerOnTheWire(c: Config, def: MetricDef, j: nat, sweeps: nat, i: nat)
    requires c.Valid() && i < |Wire(c, def, j, sweeps)|
    ensures var w := Wire(c, def, j, sweeps);
      w[i].row.row.recorded.None? ==>
        && 0 < i < |w| - 1
        && var last, marker, next := w[i - 1], w[i], w[i + 1];
        && last.row.row.recorded.Some? && next.row.row.recorded.Some?
        && marker.header == last.header && marker.key == last.key
        && marker.row.row.timeNano == next.row.row.timeNano
        && marker.row.row.startNano ==
             if def.typ == Gauge || Accumulates(def.typ, def.temporality) then last.row.row.startNano
             else last.row.row.timeNano
  {
    WireIsStream(c, def, j, sweeps);
    WireEntry(c, def, j, sweeps, i);
    if EventsOf(c, def, j, sweeps)[i].Marker? {
      MarkersOnly(c, def, j, sweeps, i);
      WireEntry(c, def, j, sweeps, i - 1);
      WireEntry(c, def, j, sweeps, i + 1);
      WireStart(c, def, j, sweeps, i - 1);
      WireStart(c, def, j, sweeps, i);
    }
  }

  /** The reading after a marker belongs to the next generation of the resource, and with mixers
      that separate, as those in use do, it goes to another group. */
  lemma {:induction false} MarkerKeptApart(c: Config, def: MetricDef, j: nat, sweeps: nat, i: nat)
    requires c.Valid() && i < |Wire(c, def, j, sweeps)| && Wire(c, def, j, sweeps)[i].row.row.recorded.None?
    ensures i + 1 < |Wire(c, def, j, sweeps)|
    ensures var marker, next := Wire(c, def, j, sweeps)[i], Wire(c, def, j, sweeps)[i + 1];
      && next.header == marker.header.(gen := marker.header.gen + 1)
      && (Separating(c.p.mixers) ==> next.key != marker.key)
  {
    MarkerOnTheWire(c, def, j, sweeps, i);
    MarkerThenNext(c, def, j, sweeps, i);
    KeyOfEntry(c, def, j, sweeps, i);
    KeyOfEntry(c, def, j, sweeps, i + 1);
    if Separating(c.p.mixers) {
      NextGenerationKeptApart(c.p.mixers, Wire(c, def, j, sweeps)[i].header);
    }
  }

  lemma {:induction false} MarkerThenNext(c: Config, def: MetricDef, j: nat, sweeps: nat, i: nat)
    requires c.Valid() && i + 1 < |Wire(c, def, j, sweeps)| && Wire(c, def, j, sweeps)[i].row.row.recorded.None?
    ensures var marker, next := Wire(c, def, j, sweeps)[i], Wire(c, def, j, sweeps)[i + 1];
      next.header == marker.header.(gen := marker.header.gen + 1)
  {
    WireIsStream(c, def, j, sweeps);
    WireEntry(c, def, j, sweeps, i);
    MarkersOnly(c, def, j, sweeps, i);
    WireEntry(c, def, j, sweeps, i + 1);
  }

  lemma {:induction false} KeyOfEntry(c: Config, def: MetricDef, j: nat, sweeps: nat, i: nat)
    requires c.Valid() && i < |Wire(c, def, j, sweeps)|
    ensures Wire(c, def, j, sweeps)[i].key == GroupKey(c.p.mixers, Wire(c, def, j, sweeps)[i].header)
  {
    WireIsStream(c, def, j, sweeps);
  }

  lemma {:induction false} NextGenerationKeptApart(mixers: Mixers, id: GroupId)
    requires Separating(mixers)
    ensures GroupKey(mixers, id) != GroupKey(mixers, id.(gen := id.gen + 1))
  {
    NextWordDiffers(id.gen);
  }

  lemma {:induction false} NextWordDiffers(g: nat)
    ensures ToWord(g) != ToWord(g + 1)
  {
  }

  /** The reading before event i of a stream, past a marker if there is one between. */
  predicate PrecedesAt(events: seq<Event>, h: nat, i: nat) {
    && h < i < |events| && events[h].Real?
    && (h == i - 1 || (h == i - 2 && events[i - 1].Marker?))
  }

  lemma {:induction false} EventBefore(c: Config, def: MetricDef, j: nat, sweeps: nat, i: nat) returns (h: nat)
    requires c.Valid() && 0 < i < |EventsOf(c, def, j, sweeps)| && EventsOf(c, def, j, sweeps)[i].Real?
    ensures PrecedesAt(EventsOf(c, def, j, sweeps), h, i)
    ensures EventsOf(c, def, j, sweeps)[h].sweep == EventsOf(c, def, j, sweeps)[i].sweep - 1
  {
    RealsInOrder(c.p, MakeSeries(c, def, j).resource, c.markers, sweeps, i);
    MarkersOnly(c, def, j, sweeps, i - 1);
    h := if EventsOf(c, def, j, sweeps)[i - 1].Marker? then i - 2 else i - 1;
  }

  /** The same on the wire. */
  ghost predicate ReadingBefore(w: seq<PointEntry>, h: nat, i: nat) {
    && h < i < |w| && w[h].row.row.recorded.Some?
    && (h == i - 1 || (h == i - 2 && w[i - 1].row.row.recorded.None?))
  }

  lemma {:induction false} BeforeOnTheWire(c: Config, def: MetricDef, j: nat, sweeps: nat, h: nat, i: nat)
    requires c.Valid() && PrecedesAt(EventsOf(c, def, j, sweeps), h, i)
    ensures ReadingBefore(Wire(c, def, j, sweeps), h, i)
  {
    WireEntry(c, def, j, sweeps, h);
    WireEntry(c, def, j, sweeps, i - 1);
  }

  /** How a reading starts, given the reading before it: for a delta at the timestamp of that one,
      so that windows join up on the wire; what accumulates keeps that one's start and group,
      unless a boundary moved the start to its own timestamp. */
  ghost predicate JoinsUp(def: MetricDef, last: PointEntry, e: PointEntry, boundary: bool) {
    if def.typ == Gauge then e.row.row.startNano == 0
    else if !Accumulates(def.typ, def.temporality) then e.row.row.startNano == last.row.row.timeNano
    else if boundary then e.row.row.startNano == e.row.row.timeNano
    else e.row.row.startNano == last.row.row.startNano && e.header == last.header
  }

  /** From one reading of a series to the next, whether or not a marker comes between. */
  lemma {:induction false} ReadingsJoinUp(c: Config, def: MetricDef, j: nat, sweeps: nat, i: nat) returns (h: nat)
    requires c.Valid() && 0 < i < |EventsOf(c, def, j, sweeps)| && EventsOf(c, def, j, sweeps)[i].Real?
    ensures ReadingBefore(Wire(c, def, j, sweeps), h, i)
    ensures JoinsUp(def, Wire(c, def, j, sweeps)[h], Wire(c, def, j, sweeps)[i],
                    EpochBoundary(c.p, MakeSeries(c, def, j), EventsOf(c, def, j, sweeps)[i].sweep))
  {
    h := EventBefore(c, def, j, sweeps, i);
    BeforeOnTheWire(c, def, j, sweeps, h, i);
    EpochGoesOn(c.p, MakeSeries(c, def, j), EventsOf(c, def, j, sweeps)[i].sweep);
    WireEntry(c, def, j, sweeps, h);
    WireEntry(c, def, j, sweeps, i);
    WireStart(c, def, j, sweeps, h);
    WireStart(c, def, j, sweeps, i);
  }

  lemma {:induction false} EpochGoesOn(p: Plan, s: Series, k: nat)
    requires k > 0
    ensures if EpochBoundary(p, s, k) then EpochStart(p, s, k) == k
      else
        && EpochStart(p, s, k) == EpochStart(p, s, k - 1)
        && Generation(p, s.resource, k) == Generation(p, s.resource, k - 1)
  {
    EpochStructure(p, s, k, k);
    GenerationChangedIff(p, s.resource, k);
  }
}
