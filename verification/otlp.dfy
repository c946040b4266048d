/** Grouping of log records and spans into OTLP resources by fingerprint. */
module Otlp {
  import opened Words
  import opened Fingerprints
  import opened Grouping

  // Resources

  const SERVICE_NAME: Text := [115, 101, 114, 118, 105, 99, 101, 46, 110, 97, 109, 101]

  predicate HasKey(attrs: seq<KV>, key: Text) {
    exists i :: 0 <= i < |attrs| && attrs[i].key == key
  }

  /** The attributes a resource has: those of the row, and the service it names unless they name
      one already. */
  function ResourceOf(serviceName: Text, attrs: seq<KV>): seq<KV> {
    if HasKey(attrs, SERVICE_NAME) || serviceName == [] then attrs else attrs + [KV(SERVICE_NAME, serviceName)]
  }

  method BuildResource(serviceName: Text, attrs: seq<KV>) returns (resource: seq<KV>)
    ensures resource == ResourceOf(serviceName, attrs)
  {
    resource := [];
    var hasService := false;
    for i := 0 to |attrs|
      invariant resource == attrs[..i]
      invariant hasService <==> HasKey(attrs[..i], SERVICE_NAME)
    {
      if attrs[i].key == SERVICE_NAME {
        hasService := true;
        assert attrs[..i + 1][i].key == SERVICE_NAME;
      }
      assert forall l :: 0 <= l < i ==> attrs[..i][l] == attrs[..i + 1][l];
      resource := resource + [attrs[i]];
    }
    assert attrs[..|attrs|] == attrs;
    if !hasService && serviceName != [] {
      resource := resource + [KV(SERVICE_NAME, serviceName)];
    }
  }

  lemma {:induction false} HasKeyOrderless(a: seq<KV>, b: seq<KV>, key: Text)
    requires multiset(a) == multiset(b)
    ensures HasKey(a, key) ==> HasKey(b, key)
  {
    if HasKey(a, key) {
      var i :| 0 <= i < |a| && a[i].key == key;
      assert a[i] in multiset(b);
      assert a[i] in b;
    }
  }

  /** A resource names a service exactly if its row does, in either way; its own attributes
      stand first; and it does not depend on their order but for that of its own. */
  lemma {:induction false} ResourceNamesService(serviceName: Text, a: seq<KV>, b: seq<KV>)
    ensures HasKey(ResourceOf(serviceName, a), SERVICE_NAME) <==> HasKey(a, SERVICE_NAME) || serviceName != []
    ensures a <= ResourceOf(serviceName, a)
    ensures multiset(a) == multiset(b) ==>
      multiset(ResourceOf(serviceName, a)) == multiset(ResourceOf(serviceName, b))
  {
    var r := ResourceOf(serviceName, a);
    if !HasKey(a, SERVICE_NAME) && serviceName != [] {
      assert r[|a|].key == SERVICE_NAME;
    }
    if multiset(a) == multiset(b) {
      HasKeyOrderless(a, b, SERVICE_NAME);
      HasKeyOrderless(b, a, SERVICE_NAME);
    }
  }

  // Builders

  /** The export builders: rows are grouped by a key computed from the identity they carry. */
  class ExportBuilder<K(==), H, R> {
    const keyOf: H -> K
    var groups: map<K, nat>
    var order: seq<Group<K, H, R>>
    var count: nat
    ghost var log: seq<Entry<K, H, R>>

    /** The groups are the grouping of everything added since the last reset. */
    ghost predicate Valid()
      reads this
    {
      Grouped(groups, order) == GroupedOf(log) && count == |log|
    }

    constructor (keyOf: H -> K)
      ensures Valid() && log == [] && order == [] && this.keyOf == keyOf
    {
      this.keyOf := keyOf;
      groups, order, count, log := map[], [], 0, [];
    }

    method Add(header: H, row: R)
      requires Valid()
      modifies this
      ensures Valid()
      ensures log == old(log) + [Entry(keyOf(header), header, row)]
      ensures count == old(count) + 1
    {
      var key := keyOf(header);
      GroupedStep(log, Entry(key, header, row));
      if key !in groups {
        groups := groups[key := |order|];
        order := order + [Group(key, header, [row])];
      } else {
        var i := groups[key];
        order := order[i := order[i].(rows := order[i].rows + [row])];
      }
      count := count + 1;
      log := log + [Entry(key, header, row)];
    }

    method Build() returns (request: seq<Group<K, H, R>>)
      requires Valid()
      ensures request == order && IsGrouping(request, log) && RowTotal(request) == count
    {
      GroupedIsGrouping(log);
      request := order;
    }

    method Reset()
      modifies this
      ensures Valid() && log == [] && order == [] && count == 0
    {
      groups, order, count, log := map[], [], 0, [];
    }
  }

  // Keys of logs and traces

  /** What a log row says about the resource and the scope it comes from. */
  datatype LogIdentity = LogIdentity(service: Text, resourceSchema: Text, resourceAttrs: seq<KV>,
                                     scopeName: Text, scopeVersion: Text, scopeSchema: Text, scopeAttrs: seq<KV>)

  datatype LogsKey = LogsKey(scalar: Word, res: SetHash, scope: SetHash)

  function LogsKeyOf(r: LogIdentity): LogsKey {
    var scalar := Fnv(FNV_OFFSET, r.service);
    var scalar := Fnv(Delimit(scalar, 0x01), r.resourceSchema);
    var scalar := Fnv(Delimit(scalar, 0x02), r.scopeName);
    var scalar := Fnv(Delimit(scalar, 0x03), r.scopeVersion);
    var scalar := Fnv(Delimit(scalar, 0x04), r.scopeSchema);
    LogsKey(scalar, KVSetHash(r.resourceAttrs), KVSetHash(r.scopeAttrs))
  }

  /** Same identity: equal names, and the same attributes in whatever order. */
  predicate SameLogIdentity(a: LogIdentity, b: LogIdentity) {
    && a.(resourceAttrs := [], scopeAttrs := []) == b.(resourceAttrs := [], scopeAttrs := [])
    && multiset(a.resourceAttrs) == multiset(b.resourceAttrs)
    && multiset(a.scopeAttrs) == multiset(b.scopeAttrs)
  }

  datatype TraceIdentity = TraceIdentity(service: Text, resourceAttrs: seq<KV>, scopeName: Text, scopeVersion: Text)

  datatype TracesKey = TracesKey(scalar: Word, res: SetHash)

  function TracesKeyOf(r: TraceIdentity): TracesKey {
    var scalar := Fnv(FNV_OFFSET, r.service);
    var scalar := Fnv(Delimit(scalar, 0x01), r.scopeName);
    var scalar := Fnv(Delimit(scalar, 0x03), r.scopeVersion);
    TracesKey(scalar, KVSetHash(r.resourceAttrs))
  }

  predicate SameTraceIdentity(a: TraceIdentity, b: TraceIdentity) {
    && a.(resourceAttrs := []) == b.(resourceAttrs := [])
    && multiset(a.resourceAttrs) == multiset(b.resourceAttrs)
  }

  /** Rows of one identity never split over two groups. */
  lemma {:induction false} SameLogKey(a: LogIdentity, b: LogIdentity)
    ensures SameLogIdentity(a, b) ==> LogsKeyOf(a) == LogsKeyOf(b)
  {
    if SameLogIdentity(a, b) {
      var a', b' := a.(resourceAttrs := [], scopeAttrs := []), b.(resourceAttrs := [], scopeAttrs := []);
      assert a' == b';
      assert a.service == a'.service == b.service && a.resourceSchema == a'.resourceSchema == b.resourceSchema;
      assert a.scopeName == a'.scopeName == b.scopeName && a.scopeVersion == a'.scopeVersion == b.scopeVersion;
      assert a.scopeSchema == a'.scopeSchema == b.scopeSchema;
      SetHashOrderless(a.resourceAttrs, b.resourceAttrs);
      SetHashOrderless(a.scopeAttrs, b.scopeAttrs);
    }
  }

  lemma {:induction false} SameTraceKey(a: TraceIdentity, b: TraceIdentity)
    ensures SameTraceIdentity(a, b) ==> TracesKeyOf(a) == TracesKeyOf(b)
  {
    if SameTraceIdentity(a, b) {
      var a', b' := a.(resourceAttrs := []), b.(resourceAttrs := []);
      assert a' == b';
      assert a.service == a'.service == b.service;
      assert a.scopeName == a'.scopeName == b.scopeName && a.scopeVersion == a'.scopeVersion == b.scopeVersion;
      SetHashOrderless(a.resourceAttrs, b.resourceAttrs);
    }
  }

  // What the keys tell apart

  const LOG_MARKS: seq<Byte> := [0x01, 0x02, 0x03, 0x04]

  /** The names of a log row, in the order they are hashed in. */
  function LogNames(r: LogIdentity): seq<Text> {
    [r.service, r.resourceSchema, r.scopeName, r.scopeVersion, r.scopeSchema]
  }

  const TRACE_MARKS: seq<Byte> := [0x01, 0x03]

  function TraceNames(r: TraceIdentity): seq<Text> {
    [r.service, r.scopeName, r.scopeVersion]
  }

  /** Every attribute counts: rows that differ in one pair of their resource or of their scope share
      a key exactly if the two pairs have one digest; and a row with one more pair never shares
      that of a row without it. */
  lemma {:induction false} EveryLogAttributeCounts(r: LogIdentity, i: nat, kv: KV)
    ensures i < |r.resourceAttrs| ==>
      (LogsKeyOf(r.(resourceAttrs := r.resourceAttrs[i := kv])) == LogsKeyOf(r) <==>
         FnvKVPair(kv) == FnvKVPair(r.resourceAttrs[i]))
    ensures i < |r.scopeAttrs| ==>
      (LogsKeyOf(r.(scopeAttrs := r.scopeAttrs[i := kv])) == LogsKeyOf(r) <==>
         FnvKVPair(kv) == FnvKVPair(r.scopeAttrs[i]))
    ensures LogsKeyOf(r.(resourceAttrs := r.resourceAttrs + [kv])) != LogsKeyOf(r)
    ensures LogsKeyOf(r.(scopeAttrs := r.scopeAttrs + [kv])) != LogsKeyOf(r)
  {
    if i < |r.resourceAttrs| {
      EveryPairCounts(r.resourceAttrs, i, kv);
    }
    if i < |r.scopeAttrs| {
      EveryPairCounts(r.scopeAttrs, i, kv);
    }
    SizeCounts(r.resourceAttrs, r.resourceAttrs + [kv]);
    SizeCounts(r.scopeAttrs, r.scopeAttrs + [kv]);
  }

  lemma {:induction false} EveryTraceAttributeCounts(r: TraceIdentity, i: nat, kv: KV)
    ensures i < |r.resourceAttrs| ==>
      (TracesKeyOf(r.(resourceAttrs := r.resourceAttrs[i := kv])) == TracesKeyOf(r) <==>
         FnvKVPair(kv) == FnvKVPair(r.resourceAttrs[i]))
    ensures TracesKeyOf(r.(resourceAttrs := r.resourceAttrs + [kv])) != TracesKeyOf(r)
  {
    if i < |r.resourceAttrs| {
      EveryPairCounts(r.resourceAttrs, i, kv);
    }
    SizeCounts(r.resourceAttrs, r.resourceAttrs + [kv]);
  }

  /** The scalar of a key is the digest of the names joined by the marks. */
  lemma {:induction false} LogScalarIs(r: LogIdentity)
    ensures LogsKeyOf(r).scalar == Fnv(FNV_OFFSET, Join(LogNames(r), LOG_MARKS))
  {
    var n, m := LogNames(r), LOG_MARKS;
    FoldMarkedIs(FNV_OFFSET, n, m);
    assert n[1..] == [n[1], n[2], n[3], n[4]] && m[1..] == [m[1], m[2], m[3]];
    assert n[1..][1..] == [n[2], n[3], n[4]] && m[1..][1..] == [m[2], m[3]];
    assert n[1..][1..][1..] == [n[3], n[4]] && m[1..][1..][1..] == [m[3]];
    assert n[1..][1..][1..][1..] == [n[4]] && m[1..][1..][1..][1..] == [];
  }

  lemma {:induction false} TraceScalarIs(r: TraceIdentity)
    ensures TracesKeyOf(r).scalar == Fnv(FNV_OFFSET, Join(TraceNames(r), TRACE_MARKS))
  {
    var n, m := TraceNames(r), TRACE_MARKS;
    FoldMarkedIs(FNV_OFFSET, n, m);
    assert n[1..] == [n[1], n[2]] && m[1..] == [m[1]];
    assert n[1..][1..] == [n[2]] && m[1..][1..] == [];
  }

  /** A mark occurs in one of the two names beside it. */
  predicate LogStrays(r: LogIdentity) {
    || 0x01 in r.service || 0x01 in r.resourceSchema
    || 0x02 in r.resourceSchema || 0x02 in r.scopeName
    || 0x03 in r.scopeName || 0x03 in r.scopeVersion
    || 0x04 in r.scopeVersion || 0x04 in r.scopeSchema
  }

  predicate TraceStrays(r: TraceIdentity) {
    0x01 in r.service || 0x01 in r.scopeName || 0x03 in r.scopeName || 0x03 in r.scopeVersion
  }

  lemma {:induction false} LogStraysIs(r: LogIdentity)
    ensures Ambiguous(LogNames(r), LOG_MARKS) <==> LogStrays(r)
  {
    var n, m := LogNames(r), LOG_MARKS;
    assert Strays(n, m, 0) || Strays(n, m, 1) || Strays(n, m, 2) || Strays(n, m, 3) <==> LogStrays(r);
  }

  lemma {:induction false} TraceStraysIs(r: TraceIdentity)
    ensures Ambiguous(TraceNames(r), TRACE_MARKS) <==> TraceStrays(r)
  {
    var n, m := TraceNames(r), TRACE_MARKS;
    assert Strays(n, m, 0) || Strays(n, m, 1) <==> TraceStrays(r);
  }

  lemma {:induction false} LogNamesTell(a: LogIdentity, b: LogIdentity)
    ensures LogNames(a) == LogNames(b) <==>
      a.(resourceAttrs := [], scopeAttrs := []) == b.(resourceAttrs := [], scopeAttrs := [])
  {
    var m, n := LogNames(a), LogNames(b);
    assert m == n ==> m[0] == n[0] && m[1] == n[1] && m[2] == n[2] && m[3] == n[3] && m[4] == n[4];
  }

  lemma {:induction false} TraceNamesTell(a: TraceIdentity, b: TraceIdentity)
    ensures TraceNames(a) == TraceNames(b) <==> a.(resourceAttrs := []) == b.(resourceAttrs := [])
  {
    var m, n := TraceNames(a), TraceNames(b);
    assert m == n ==> m[0] == n[0] && m[1] == n[1] && m[2] == n[2];
  }

  /** As long as no mark strays in one of them, two rows are hashed as the same text exactly when
      all their names are equal. */
  lemma {:induction false} NamesTold(a: LogIdentity, b: LogIdentity)
    requires !LogStrays(a)
    ensures Join(LogNames(a), LOG_MARKS) == Join(LogNames(b), LOG_MARKS) <==>
      a.(resourceAttrs := [], scopeAttrs := []) == b.(resourceAttrs := [], scopeAttrs := [])
  {
    LogStraysIs(a);
    OneReading(LogNames(a), LOG_MARKS, LogNames(b));
    LogNamesTell(a, b);
  }

  lemma {:induction false} TraceNamesTold(a: TraceIdentity, b: TraceIdentity)
    requires !TraceStrays(a)
    ensures Join(TraceNames(a), TRACE_MARKS) == Join(TraceNames(b), TRACE_MARKS) <==>
      a.(resourceAttrs := []) == b.(resourceAttrs := [])
  {
    TraceStraysIs(a);
    OneReading(TraceNames(a), TRACE_MARKS, TraceNames(b));
    TraceNamesTell(a, b);
  }

  /** Exactly when: another row with other names is hashed as the same text as a given one if
      and only if a mark strays in the given one.  It then also gets the same group. */
  lemma {:induction false} LogNamesMixIff(r: LogIdentity)
    ensures (exists other: LogIdentity ::
        LogNames(other) != LogNames(r) && Join(LogNames(other), LOG_MARKS) == Join(LogNames(r), LOG_MARKS))
      <==> LogStrays(r)
    ensures LogStrays(r) ==> exists other: LogIdentity ::
      LogNames(other) != LogNames(r) && LogsKeyOf(other) == LogsKeyOf(r)
  {
    LogStraysIs(r);
    if LogStrays(r) {
      var n := OtherReading(LogNames(r), LOG_MARKS);
      var other := LogIdentity(n[0], n[1], r.resourceAttrs, n[2], n[3], n[4], r.scopeAttrs);
      assert LogNames(other) == n;
      LogScalarIs(r);
      LogScalarIs(other);
      assert LogNames(other) != LogNames(r) && LogsKeyOf(other) == LogsKeyOf(r);
    } else {
      forall other: LogIdentity | Join(LogNames(other), LOG_MARKS) == Join(LogNames(r), LOG_MARKS)
        ensures LogNames(other) == LogNames(r)
      {
        OneReading(LogNames(r), LOG_MARKS, LogNames(other));
      }
    }
  }

  lemma {:induction false} TraceNamesMixIff(r: TraceIdentity)
    ensures (exists other: TraceIdentity ::
        TraceNames(other) != TraceNames(r) &&
          Join(TraceNames(other), TRACE_MARKS) == Join(TraceNames(r), TRACE_MARKS))
      <==> TraceStrays(r)
    ensures TraceStrays(r) ==> exists other: TraceIdentity ::
      TraceNames(other) != TraceNames(r) && TracesKeyOf(other) == TracesKeyOf(r)
  {
    TraceStraysIs(r);
    if TraceStrays(r) {
      var n := OtherReading(TraceNames(r), TRACE_MARKS);
      var other := TraceIdentity(n[0], r.resourceAttrs, n[1], n[2]);
      assert TraceNames(other) == n;
      TraceScalarIs(r);
      TraceScalarIs(other);
      assert TraceNames(other) != TraceNames(r) && TracesKeyOf(other) == TracesKeyOf(r);
    } else {
      forall other: TraceIdentity | Join(TraceNames(other), TRACE_MARKS) == Join(TraceNames(r), TRACE_MARKS)
        ensures TraceNames(other) == TraceNames(r)
      {
        OneReading(TraceNames(r), TRACE_MARKS, TraceNames(other));
      }
    }
  }

  /** Two rows of different services that share a group: a mark at the end of one name against
      the same mark at the beginning of the next. */
  lemma {:induction false} MarkMovesOver()
    ensures var a := LogIdentity([97, 0x01], [98], [], [], [], [], []);
      var b := LogIdentity([97], [0x01, 98], [], [], [], [], []);
      LogNames(a) != LogNames(b) && LogsKeyOf(a) == LogsKeyOf(b)
    ensures var c, d := TraceIdentity([97, 0x01], [], [98], []), TraceIdentity([97], [], [0x01, 98], []);
      TraceNames(c) != TraceNames(d) && TracesKeyOf(c) == TracesKeyOf(d)
  {
    var a, b := LogIdentity([97, 0x01], [98], [], [], [], [], []), LogIdentity([97], [0x01, 98], [], [], [], [], []);
    var c, d := TraceIdentity([97, 0x01], [], [98], []), TraceIdentity([97], [], [0x01, 98], []);
    RecutFirst(LogNames(b), LOG_MARKS, [97, 0x01], [98]);
    RecutFirst(TraceNames(d), TRACE_MARKS, [97, 0x01], [98]);
    assert LogNames(a) == LogNames(b)[0 := [97, 0x01]][1 := [98]] && LogNames(a)[0] != LogNames(b)[0];
    assert TraceNames(c) == TraceNames(d)[0 := [97, 0x01]][1 := [98]] && TraceNames(c)[0] != TraceNames(d)[0];
    LogScalarIs(a);
    LogScalarIs(b);
    TraceScalarIs(c);
    TraceScalarIs(d);
  }

  /** Every byte of every name counts: rows whose names differ in exactly one byte never share a
      group. */
  lemma {:induction false} EveryNameCounts(
    a: LogIdentity, b: LogIdentity, c: TraceIdentity, d: TraceIdentity, i: nat, x: Byte)
    ensures var (s, t) := (Join(LogNames(a), LOG_MARKS), Join(LogNames(b), LOG_MARKS));
      i < |s| && x != s[i] && t == s[i := x] ==> LogsKeyOf(a) != LogsKeyOf(b)
    ensures var (s, t) := (Join(TraceNames(c), TRACE_MARKS), Join(TraceNames(d), TRACE_MARKS));
      i < |s| && x != s[i] && t == s[i := x] ==> TracesKeyOf(c) != TracesKeyOf(d)
  {
    LogScalarIs(a);
    LogScalarIs(b);
    TraceScalarIs(c);
    TraceScalarIs(d);
    var s, t := Join(LogNames(a), LOG_MARKS), Join(TraceNames(c), TRACE_MARKS);
    if i < |s| {
      EveryByteCounts(FNV_OFFSET, s, i, x);
    }
    if i < |t| {
      EveryByteCounts(FNV_OFFSET, t, i, x);
    }
  }

  // The groups of logs and traces

  /** What grouping comes to, for any way of telling identities and any key that respects it: as
      long as no other identity in play shares its key, the rows of an identity are one group,
      in the order they came. */
  lemma {:induction false} IdentityIsGroup<I, K, R>(keyOf: I -> K, same: (I, I) -> bool, rows: seq<(I, R)>, x: I)
    returns (i: nat)
    requires exists n :: 0 <= n < |rows| && same(rows[n].0, x)
    requires forall n :: 0 <= n < |rows| ==> (keyOf(rows[n].0) == keyOf(x) <==> same(rows[n].0, x))
    ensures var order := GroupedOf(Keyed(keyOf, rows)).order;
      && i < |order| && order[i].key == keyOf(x)
      && order[i].rows == RowsLike(same, rows, x)
      && same(order[i].header, x)
      && forall j :: 0 <= j < |order| && j != i ==> order[j].key != keyOf(x)
  {
    var log := Keyed(keyOf, rows);
    GroupedIsGrouping(log);
    GroupHoldsIdentity(keyOf, same, rows, x);
    var n :| 0 <= n < |rows| && same(rows[n].0, x);
    assert log[n].key == keyOf(x);
    KeysSeen(log, keyOf(x));
    KeysDistinct(log);
    i :| 0 <= i < |FirstKeys(log)| && FirstKeys(log)[i] == keyOf(x);
    HeaderSeen(log, keyOf(x), GroupedOf(log).order[i].header);
  }

  /** The group of a log identity: its rows in order, under its resource and its scope up to the
      order of attributes, and no other group has its key. */
  ghost predicate IsLogGroup<R>(
    order: seq<Group<LogsKey, LogIdentity, R>>, i: nat, rows: seq<(LogIdentity, R)>, x: LogIdentity)
  {
    && i < |order| && order[i].rows == RowsLike(SameLogIdentity, rows, x) && SameLogIdentity(order[i].header, x)
    && multiset(ResourceOf(order[i].header.service, order[i].header.resourceAttrs))
       == multiset(ResourceOf(x.service, x.resourceAttrs))
    && forall j :: 0 <= j < |order| && j != i ==> order[j].key != LogsKeyOf(x)
  }

  /** A log identity has such a group as long as no other identity among the rows has its key. */
  lemma {:induction false} LogGroup<R>(rows: seq<(LogIdentity, R)>, x: LogIdentity) returns (i: nat)
    ensures
      && (exists n :: 0 <= n < |rows| && SameLogIdentity(rows[n].0, x))
      && (forall n :: 0 <= n < |rows| && LogsKeyOf(rows[n].0) == LogsKeyOf(x) ==> SameLogIdentity(rows[n].0, x))
      ==> IsLogGroup(GroupedOf(Keyed(LogsKeyOf, rows)).order, i, rows, x)
  {
    i := 0;
    if (exists n :: 0 <= n < |rows| && SameLogIdentity(rows[n].0, x))
      && (forall n :: 0 <= n < |rows| && LogsKeyOf(rows[n].0) == LogsKeyOf(x) ==> SameLogIdentity(rows[n].0, x))
    {
      forall n | 0 <= n < |rows|
        ensures LogsKeyOf(rows[n].0) == LogsKeyOf(x) <==> SameLogIdentity(rows[n].0, x)
      {
        SameLogKey(rows[n].0, x);
      }
      i := IdentityIsGroup(LogsKeyOf, SameLogIdentity, rows, x);
      var h := GroupedOf(Keyed(LogsKeyOf, rows)).order[i].header;
      assert h.service == h.(resourceAttrs := [], scopeAttrs := []).service == x.service;
      ResourceNamesService(x.service, h.resourceAttrs, x.resourceAttrs);
    }
  }

  /** The group of a span identity. */
  ghost predicate IsTraceGroup<R>(
    order: seq<Group<TracesKey, TraceIdentity, R>>, i: nat, rows: seq<(TraceIdentity, R)>, x: TraceIdentity)
  {
    && i < |order| && order[i].rows == RowsLike(SameTraceIdentity, rows, x) && SameTraceIdentity(order[i].header, x)
    && multiset(ResourceOf(order[i].header.service, order[i].header.resourceAttrs))
       == multiset(ResourceOf(x.service, x.resourceAttrs))
    && forall j :: 0 <= j < |order| && j != i ==> order[j].key != TracesKeyOf(x)
  }

  /** And so has a span identity. */
  lemma {:induction false} TraceGroup<R>(rows: seq<(TraceIdentity, R)>, x: TraceIdentity) returns (i: nat)
    ensures
      && (exists n :: 0 <= n < |rows| && SameTraceIdentity(rows[n].0, x))
      && (forall n :: 0 <= n < |rows| && TracesKeyOf(rows[n].0) == TracesKeyOf(x) ==> SameTraceIdentity(rows[n].0, x))
      ==> IsTraceGroup(GroupedOf(Keyed(TracesKeyOf, rows)).order, i, rows, x)
  {
    i := 0;
    if (exists n :: 0 <= n < |rows| && SameTraceIdentity(rows[n].0, x))
      && (forall n :: 0 <= n < |rows| && TracesKeyOf(rows[n].0) == TracesKeyOf(x) ==> SameTraceIdentity(rows[n].0, x))
    {
      forall n | 0 <= n < |rows|
        ensures TracesKeyOf(rows[n].0) == TracesKeyOf(x) <==> SameTraceIdentity(rows[n].0, x)
      {
        SameTraceKey(rows[n].0, x);
      }
      i := IdentityIsGroup(TracesKeyOf, SameTraceIdentity, rows, x);
      var h := GroupedOf(Keyed(TracesKeyOf, rows)).order[i].header;
      assert h.service == h.(resourceAttrs := []).service == x.service;
      ResourceNamesService(x.service, h.resourceAttrs, x.resourceAttrs);
    }
  }
}
