/** The builder of metric export requests: points grouped by resource, generation and scope,
    and within a group by metric. */
module Builders {
  import opened Words
  import opened Sweeps
  import opened Streams
  import opened Grouping
  import opened Options
  import Mixing

  /** Part of a metric's identity are its levels: bucket bounds, the scale, or quantile levels. */
  datatype MetricDef = MetricDef(index: nat, typ: MetricType, temporality: Temporality, scope: nat, levels: seq<real>,
                                 cardinality: nat, structSeed: Word, valueSeed: Word)

  /** What a data point records: its values, and exemplars if it draws any. */
  datatype Recorded = Recorded(values: seq<real>, exemplars: seq<real>)

  /** Attributes and what is recorded are whatever the metric, the series and the sweep make them. */
  datatype Config = Config(p: Plan, resources: nat, markers: bool,
                           attrs: (MetricDef, nat) -> seq<nat>, record: (MetricDef, Series, nat) -> Recorded)
  {
    predicate Valid() {
      p.Valid() && resources > 0
    }
  }

  /** Who a group of points belongs to. */
  datatype GroupId = GroupId(resource: nat, gen: nat, scope: nat)

  /** One data point: which series, by index and by attributes and levels, the window and the
      instant it reports, and what a reading records.  A staleness marker records nothing. */
  datatype DataPoint = DataPoint(j: nat, attrs: seq<nat>, levels: seq<real>, startNano: Word, timeNano: Word,
                                 recorded: Option<Recorded>)

  type MetricEntry = Entry<nat, MetricDef, DataPoint>
  type PointEntry = Entry<Word, GroupId, MetricEntry>

  function MakeSeries(c: Config, def: MetricDef, j: nat): (s: Series)
    requires c.Valid()
    ensures s.resource < c.resources
  {
    Series(c.p.mixers.mix2(def.structSeed, ToWord(j)) % c.resources, c.p.mixers.mix2(def.valueSeed, ToWord(j)))
  }

  /** Who owns a series does not depend on what its values are drawn from, nor the other way round:
      metrics that agree in one of the two seeds agree in what comes of it, and any resource may own
      any series. */
  lemma {:induction false} OwnersAndValuesApart(c: Config, a: MetricDef, b: MetricDef, j: nat, r: nat, w: Word)
    returns (chosen: Mixers)
    requires c.Valid() && r < c.resources < LIMIT && a.structSeed != a.valueSeed
    ensures a.structSeed == b.structSeed ==> MakeSeries(c, a, j).resource == MakeSeries(c, b, j).resource
    ensures a.valueSeed == b.valueSeed ==> MakeSeries(c, a, j).seed == MakeSeries(c, b, j).seed
    ensures MakeSeries(c.(p := c.p.(mixers := chosen)), a, j) == Series(r, w)
  {
    chosen := Mixers((seed, x) => if seed == a.structSeed then r else w, (x, y, z) => 0);
    QuotientIs(r, c.resources, 0, r);
  }

  /** With the mixers in use the series of a metric all have seeds of their own. */
  lemma {:induction false} SeriesHaveOwnSeeds(c: Config, def: MetricDef, i: nat, j: nat)
    requires c.Valid() && c.p.mixers == SplitMixers() && i < LIMIT && j < LIMIT
    ensures MakeSeries(c, def, i).seed == MakeSeries(c, def, j).seed <==> i == j
  {
    Mixing.SplitmixInjective();
    Mixing.Mix2Injective(Mixing.Splitmix64, def.valueSeed, i, def.valueSeed, j);
  }

  function GroupKey(mixers: Mixers, id: GroupId): Word {
    mixers.mix3(ToWord(id.resource), ToWord(id.gen), ToWord(id.scope))
  }

  /** Gauges leave the start of their window unset. */
  function StartNano(p: Plan, s: Series, w: Window): Word
    requires p.Valid()
  {
    match w
    case NoWindow => 0
    case Since(sweep) => MsToNano(PointTimeMs(p, s, sweep))
  }

  function TimeNano(p: Plan, s: Series, k: nat): Word
    requires p.Valid()
  {
    MsToNano(PointTimeMs(p, s, k))
  }

  /** The data point an event of a series' stream stands for. */
  function PointOf(c: Config, def: MetricDef, s: Series, j: nat, e: Event): DataPoint
    requires c.Valid() && (e.Marker? ==> e.sweep > 0)
  {
    var k := e.sweep;
    match e
    case Real(_, _) =>
      DataPoint(j, c.attrs(def, j), def.levels, StartNano(c.p, s, PointWindow(c.p, s, def.typ, def.temporality, k)),
                TimeNano(c.p, s, k), Some(c.record(def, s, k)))
    case Marker(_, _) =>
      DataPoint(j, c.attrs(def, j), def.levels, StartNano(c.p, s, MarkerWindow(c.p, s, def.typ, def.temporality, k)),
                TimeNano(c.p, s, k), None)
  }

  /** Where an event of a series goes: the group of its generation, and the metric within. */
  function Placed(c: Config, def: MetricDef, j: nat, e: Event): PointEntry
    requires c.Valid() && (e.Marker? ==> e.sweep > 0)
  {
    var s := MakeSeries(c, def, j);
    var id := GroupId(s.resource, e.gen, def.scope);
    Entry(GroupKey(c.p.mixers, id), id, Entry(def.index, def, PointOf(c, def, s, j, e)))
  }

  /** What adding the point of series j at sweep k must append. */
  function Placements(c: Config, def: MetricDef, j: nat, k: nat): (entries: seq<PointEntry>)
    requires c.Valid()
    ensures |entries| == |Emit(c.p, MakeSeries(c, def, j).resource, c.markers, k)|
  {
    var events := Emit(c.p, MakeSeries(c, def, j).resource, c.markers, k);
    seq(|events|, i requires 0 <= i < |events| => Placed(c, def, j, events[i]))
  }

  lemma {:induction false} PlacementsAre(c: Config, def: MetricDef, j: nat, k: nat)
    requires c.Valid()
    ensures var r := MakeSeries(c, def, j).resource;
      var reading := Placed(c, def, j, Real(Generation(c.p, r, k), k));
      if c.markers && GenerationChanged(c.p, r, k) then
        && k > 0 && Generation(c.p, r, k) > 0
        && Placements(c, def, j, k) == [Placed(c, def, j, Marker(Generation(c.p, r, k) - 1, k))] + [reading]
      else Placements(c, def, j, k) == [reading]
  {
    GenerationChangedIff(c.p, MakeSeries(c, def, j).resource, k);
  }

  // What a series puts on the wire

  /** What the sweeps of one series append, in order. */
  function Wire(c: Config, def: MetricDef, j: nat, sweeps: nat): seq<PointEntry>
    requires c.Valid()
  {
    if sweeps == 0 then [] else Wire(c, def, j, sweeps - 1) + Placements(c, def, j, sweeps - 1)
  }

  /** It is the stream of the series, event by event. */
  lemma {:induction false} WireIsStream(c: Config, def: MetricDef, j: nat, sweeps: nat)
    requires c.Valid()
    ensures var events := Stream(c.p, MakeSeries(c, def, j).resource, c.markers, sweeps);
      |Wire(c, def, j, sweeps)| == |events| &&
      forall i :: 0 <= i < |events| ==> Wire(c, def, j, sweeps)[i] == Placed(c, def, j, events[i])
  {
    if sweeps > 0 {
      WireIsStream(c, def, j, sweeps - 1);
    }
  }

  /** The entries of a log that belong to one series of one metric. */
  function PointsFor(log: seq<PointEntry>, index: nat, j: nat): seq<PointEntry> {
    PointsForBefore(log, |log|, index, j)
  }

  function PointsForBefore(log: seq<PointEntry>, n: nat, index: nat, j: nat): seq<PointEntry>
    requires n <= |log|
  {
    if n == 0 then [] else PointsForBefore(log, n - 1, index, j) + Ours(log[n - 1], index, j)
  }

  function Ours(e: PointEntry, index: nat, j: nat): seq<PointEntry> {
    if e.row.key == index && e.row.row.j == j then [e] else []
  }

  lemma {:induction false} PointsForPrefix(a: seq<PointEntry>, b: seq<PointEntry>, n: nat, index: nat, j: nat)
    requires n <= |a| && a <= b
    ensures PointsForBefore(a, n, index, j) == PointsForBefore(b, n, index, j)
  {
    if n > 0 {
      PointsForPrefix(a, b, n - 1, index, j);
    }
  }

  lemma {:induction false} PointsForBeyond(a: seq<PointEntry>, b: seq<PointEntry>, n: nat, index: nat, j: nat)
    requires n <= |b|
    ensures PointsForBefore(a + b, |a| + n, index, j) == PointsFor(a, index, j) + PointsForBefore(b, n, index, j)
  {
    if n == 0 {
      PointsForPrefix(a, a + b, |a|, index, j);
    } else {
      PointsForBeyond(a, b, n - 1, index, j);
    }
  }

  lemma {:induction false} PointsForSplit(a: seq<PointEntry>, b: seq<PointEntry>, index: nat, j: nat)
    ensures PointsFor(a + b, index, j) == PointsFor(a, index, j) + PointsFor(b, index, j)
  {
    PointsForBeyond(a, b, |b|, index, j);
  }

  /** What a call appends belongs to its series, all of it. */
  lemma {:induction false} PlacementsOfSeries(c: Config, def: MetricDef, j: nat, k: nat, index: nat, i: nat)
    requires c.Valid()
    ensures PointsFor(Placements(c, def, j, k), index, i) ==
      if def.index == index && j == i then Placements(c, def, j, k) else []
  {
    var log, all := Placements(c, def, j, k), def.index == index && j == i;
    AllOrNone(log, |log|, index, i, all);
    assert log[..|log|] == log;
  }

  lemma {:induction false} AllOrNone(log: seq<PointEntry>, n: nat, index: nat, i: nat, all: bool)
    requires n <= |log|
    requires forall e: nat :: e < n ==> (log[e].row.key == index && log[e].row.row.j == i <==> all)
    ensures PointsForBefore(log, n, index, i) == if all then log[..n] else []
  {
    if n > 0 {
      AllOrNone(log, n - 1, index, i, all);
      assert log[..n] == log[..n - 1] + [log[n - 1]];
    }
  }

  // Groups

  /** A group under construction: its metrics in first-seen order and an index into them. */
  datatype MetricGroup = MetricGroup(key: Word, id: GroupId, index: map<nat, nat>,
                                     metrics: seq<Group<nat, MetricDef, DataPoint>>)

  type GroupView = Group<Word, GroupId, MetricEntry>

  /** Appends a point to its metric in a group, adding the metric if it is new there. */
  function AddToGroup(m: MetricGroup, e: MetricEntry): MetricGroup
    requires e.key in m.index ==> m.index[e.key] < |m.metrics|
  {
    if e.key !in m.index then
      m.(index := m.index[e.key := |m.metrics|], metrics := Opened(m.metrics, e))
    else
      m.(metrics := Grown(m.metrics, m.index[e.key], e.row))
  }

  /** A group opened by its first point. */
  function NewGroup(key: Word, id: GroupId, e: MetricEntry): MetricGroup {
    AddToGroup(MetricGroup(key, id, map[], []), e)
  }

  /** The group under construction that holds the points of a group of the log. */
  ghost function Inner(g: GroupView): MetricGroup {
    var metrics := GroupedOf(g.rows);
    MetricGroup(g.key, g.header, metrics.index, metrics.order)
  }

  /** What an export request should be: the points grouped twice. */
  ghost function RequestOf(log: seq<PointEntry>): (order: seq<MetricGroup>)
    ensures |order| == |GroupedOf(log).order|
    ensures forall i :: 0 <= i < |order| ==> order[i] == Inner(GroupedOf(log).order[i])
  {
    var g := GroupedOf(log);
    seq(|g.order|, i requires 0 <= i < |g.order| => Inner(g.order[i]))
  }

  lemma {:induction false} InnerGrows(g: GroupView, e: MetricEntry)
    ensures e.key in Inner(g).index ==> Inner(g).index[e.key] < |Inner(g).metrics|
    ensures Inner(g.(rows := g.rows + [e])) == AddToGroup(Inner(g), e)
  {
    GroupedStep(g.rows, e);
  }

  lemma {:induction false} InnerOpens(key: Word, id: GroupId, e: MetricEntry)
    ensures Inner(Group(key, id, [e])) == NewGroup(key, id, e)
  {
    var none: GroupView := Group(key, id, []);
    InnerGrows(none, e);
    assert none.rows + [e] == [e];
  }

  /** One more point in the log is one more point in the request. */
  lemma {:induction false} RequestStep(log: seq<PointEntry>, e: PointEntry)
    ensures var groups, order := GroupedOf(log).index, RequestOf(log);
      if e.key in groups then
        && groups[e.key] < |order|
        && (e.row.key in order[groups[e.key]].index ==>
          order[groups[e.key]].index[e.row.key] < |order[groups[e.key]].metrics|)
        && RequestOf(log + [e]) == order[groups[e.key] := AddToGroup(order[groups[e.key]], e.row)]
        && GroupedOf(log + [e]).index == groups
      else
        && RequestOf(log + [e]) == order + [NewGroup(e.key, e.header, e.row)]
        && GroupedOf(log + [e]).index == groups[e.key := |order|]
  {
    GroupedStep(log, e);
    var g := GroupedOf(log);
    if e.key in g.index {
      InnerGrows(g.order[g.index[e.key]], e.row);
    } else {
      InnerOpens(e.key, e.header, e.row);
    }
  }

  class Builder {
    const c: Config
    var groups: map<Word, nat>
    var order: seq<MetricGroup>
    var points: nat
    ghost var log: seq<PointEntry>

    /** The fields hold the two-level grouping of everything appended since the last reset. */
    ghost predicate Valid()
      reads this
    {
      c.Valid() && groups == GroupedOf(log).index && order == RequestOf(log) && points == |log|
    }

    constructor (c: Config)
      requires c.Valid()
      ensures Valid() && this.c == c && log == []
    {
      this.c := c;
      groups, order, points, log := map[], [], 0, [];
    }

    /** Appends a point to the group of its key, opening the group if there is none. */
    method Append(key: Word, id: GroupId, e: MetricEntry)
      requires Valid()
      modifies this
      ensures Valid() && log == old(log) + [Entry(key, id, e)]
    {
      RequestStep(log, Entry(key, id, e));
      if key !in groups {
        groups := groups[key := |order|];
        order := order + [NewGroup(key, id, e)];
      } else {
        var i := groups[key];
        order := order[i := AddToGroup(order[i], e)];
      }
      points := points + 1;
      log := log + [Entry(key, id, e)];
    }

    /** Adds the point of series j at sweep k, preceded by the marker of the generation that
        the sweep replaced, if it replaced one. */
    method AddPoint(def: MetricDef, j: nat, k: nat)
      requires Valid()
      modifies this
      ensures Valid()
      ensures log == old(log) + Placements(c, def, j, k)
    {
      PlacementsAre(c, def, j, k);
      var s := MakeSeries(c, def, j);
      var gen := Generation(c.p, s.resource, k);
      if c.markers && GenerationChanged(c.p, s.resource, k) {
        AddStalenessMarker(def, s, j, k, gen - 1);
      }
      var id := GroupId(s.resource, gen, def.scope);
      var start := StartNano(c.p, s, PointWindow(c.p, s, def.typ, def.temporality, k));
      var point := DataPoint(j, c.attrs(def, j), def.levels, start, TimeNano(c.p, s, k), Some(c.record(def, s, k)));
      Append(GroupKey(c.p.mixers, id), id, Entry(def.index, def, point));
    }

    /** Closes the outgoing generation of a series under the resource identity it had. */
    method AddStalenessMarker(def: MetricDef, s: Series, j: nat, k: nat, oldGen: nat)
      requires Valid() && k > 0 && s == MakeSeries(c, def, j)
      modifies this
      ensures Valid() && log == old(log) + [Placed(c, def, j, Marker(oldGen, k))]
    {
      var id := GroupId(s.resource, oldGen, def.scope);
      var start := StartNano(c.p, s, MarkerWindow(c.p, s, def.typ, def.temporality, k));
      var point := DataPoint(j, c.attrs(def, j), def.levels, start, TimeNano(c.p, s, k), None);
      Append(GroupKey(c.p.mixers, id), id, Entry(def.index, def, point));
    }

    method Build() returns (request: seq<MetricGroup>)
      requires Valid()
      ensures request == RequestOf(log)
    {
      request := order;
    }

    method Reset()
      requires c.Valid()
      modifies this
      ensures Valid() && log == []
    {
      groups, order, points, log := map[], [], 0, [];
    }
  }

  // What a request holds

  function PointTotal(order: seq<MetricGroup>): nat {
    if order == [] then 0 else PointTotal(order[..|order| - 1]) + RowTotal(order[|order| - 1].metrics)
  }

  /** A request carries every point that was added, once: its groups are the grouping of the
      points by key, with the key and the identity of the first, each group's metrics the grouping
      of its points by metric, and the totals agree. */
  lemma {:induction false} RequestIsComplete(log: seq<PointEntry>)
    ensures IsGrouping(GroupedOf(log).order, log)
    ensures forall i :: 0 <= i < |RequestOf(log)| ==>
      && IsGrouping(RequestOf(log)[i].metrics, GroupedOf(log).order[i].rows)
      && RequestOf(log)[i].key == GroupedOf(log).order[i].key && RequestOf(log)[i].id == GroupedOf(log).order[i].header
    ensures PointTotal(RequestOf(log)) == |log|
  {
    var view := GroupedOf(log).order;
    GroupedIsGrouping(log);
    forall i | 0 <= i < |view|
      ensures IsGrouping(RequestOf(log)[i].metrics, view[i].rows)
    {
      GroupedIsGrouping(view[i].rows);
    }
    TotalsAgree(RequestOf(log), view);
  }

  lemma {:induction false} TotalsAgree(order: seq<MetricGroup>, view: seq<GroupView>)
    requires |order| == |view| && forall i :: 0 <= i < |view| ==> order[i] == Inner(view[i])
    ensures PointTotal(order) == RowTotal(view)
  {
    if order != [] {
      var l := |order| - 1;
      TotalsAgree(order[..l], view[..l]);
      GroupedIsGrouping(view[l].rows);
    }
  }

  /** As long as no other identity in the request collides with it, a group holds exactly the
      points of its own resource, generation and scope, in the order they were added. */
  lemma {:induction false} GroupIsIdentity(log: seq<PointEntry>, key: Word, id: GroupId)
    requires forall i :: 0 <= i < |log| ==> (log[i].key == key <==> log[i].header == id)
    ensures RowsOf(log, key) == RowsWithHeader(log, id)
  {
    if log != [] {
      GroupIsIdentity(log[..|log| - 1], key, id);
    }
  }

  ghost function RowsWithHeader(log: seq<PointEntry>, id: GroupId): seq<MetricEntry> {
    if log == [] then []
    else
      var before := RowsWithHeader(log[..|log| - 1], id);
      var e := log[|log| - 1];
      if e.header == id then before + [e.row] else before
  }

  /** The mixers in use. */
  function SplitMixers(): Mixers {
    Mixers((a, b) => Mixing.Mix2(Mixing.Splitmix64, a, b), (a, b, c) => Mixing.Mix3(Mixing.Splitmix64, a, b, c))
  }

  /** Mixing three words loses none of them while the other two are fixed. */
  ghost predicate Separating(mixers: Mixers) {
    forall a: Word, b: Word, c: Word, a': Word, b': Word, c': Word ::
      mixers.mix3(a, b, c) == mixers.mix3(a', b', c') ==>
        && (a == a' && c == c' ==> b == b') && (a == a' && b == b' ==> c == c') && (b == b' && c == c' ==> a == a')
  }

  lemma {:induction false} SplitMixersSeparate()
    ensures Separating(SplitMixers())
  {
    Mixing.SplitmixInjective();
    forall a: Word, b: Word, c: Word, a': Word, b': Word, c': Word |
      Mixing.Mix3(Mixing.Splitmix64, a, b, c) == Mixing.Mix3(Mixing.Splitmix64, a', b', c')
      ensures (a == a' && c == c' ==> b == b') && (a == a' && b == b' ==> c == c') && (b == b' && c == c' ==> a == a')
    {
      Mixing.Mix3Injective(Mixing.Splitmix64, a, b, c, a', b', c');
    }
  }

  /** Two groups that agree in two of resource, generation and scope have one key exactly if they
      agree in the third.  So a marker and the point that follows it never land in one group. */
  lemma {:induction false} GroupsKeptApart(a: GroupId, b: GroupId)
    ensures var same := GroupKey(SplitMixers(), a) == GroupKey(SplitMixers(), b);
      && (a.resource == b.resource && a.scope == b.scope ==> (same <==> ToWord(a.gen) == ToWord(b.gen)))
      && (a.resource == b.resource && a.gen == b.gen ==> (same <==> ToWord(a.scope) == ToWord(b.scope)))
      && (a.gen == b.gen && a.scope == b.scope ==> (same <==> ToWord(a.resource) == ToWord(b.resource)))
  {
    Mixing.SplitmixInjective();
    Mixing.Mix3Injective(Mixing.Splitmix64, ToWord(a.resource), ToWord(a.gen), ToWord(a.scope),
                         ToWord(b.resource), ToWord(b.gen), ToWord(b.scope));
  }
}
