/** Grouping rows by key, as the export builders do: a list of groups in first-seen order and
    an index from key to group.  What a list of groups should be is defined here from the log
    of everything added, independently of how the list is maintained. */
module Grouping {

  datatype Entry<K, H, R> = Entry(key: K, header: H, row: R)

  datatype Group<K, H, R> = Group(key: K, header: H, rows: seq<R>)

  /** The distinct keys of a log in first-seen order. */
  ghost function FirstKeys<K, H, R>(log: seq<Entry<K, H, R>>): seq<K> {
    if log == [] then []
    else
      var keys := FirstKeys(log[..|log| - 1]);
      var k := log[|log| - 1].key;
      if k in keys then keys else keys + [k]
  }

  /** The rows logged under a key, in log order. */
  ghost function RowsOf<K, H, R>(log: seq<Entry<K, H, R>>, k: K): seq<R> {
    if log == [] then []
    else
      var rows := RowsOf(log[..|log| - 1], k);
      var e := log[|log| - 1];
      if e.key == k then rows + [e.row] else rows
  }

  /** Whether h is the header the first entry of key k carried. */
  ghost predicate FirstHeader<K, H, R>(log: seq<Entry<K, H, R>>, k: K, h: H) {
    log != [] &&
    var before := log[..|log| - 1];
    if k in FirstKeys(before) then FirstHeader(before, k, h)
    else log[|log| - 1].key == k && log[|log| - 1].header == h
  }

  /** order is the grouping of log: one group per distinct key, first seen first, each with
      the header of its first entry and all rows of its key in order. */
  ghost predicate IsGrouping<K, H, R>(order: seq<Group<K, H, R>>, log: seq<Entry<K, H, R>>) {
    var keys := FirstKeys(log);
    |order| == |keys| && forall i :: 0 <= i < |keys| ==> IsGroupOf(order[i], log, keys[i])
  }

  ghost predicate IsGroupOf<K, H, R>(g: Group<K, H, R>, log: seq<Entry<K, H, R>>, k: K) {
    g.key == k && g.rows == RowsOf(log, k) && FirstHeader(log, k, g.header)
  }

  /** The index finds exactly the groups there are. */
  ghost predicate Indexed<K, H, R>(index: map<K, nat>, order: seq<Group<K, H, R>>) {
    && (forall k :: k in index ==> index[k] < |order| && order[index[k]].key == k)
    && (forall i :: 0 <= i < |order| ==> order[i].key in index && index[order[i].key] == i)
  }

  function RowTotal<K, H, R>(order: seq<Group<K, H, R>>): nat {
    if order == [] then 0 else RowTotal(order[..|order| - 1]) + |order[|order| - 1].rows|
  }

  // What a log's keys are like.

  lemma {:induction false} KeysSeen<K, H, R>(log: seq<Entry<K, H, R>>, k: K)
    ensures k in FirstKeys(log) <==> exists i :: 0 <= i < |log| && log[i].key == k
  {
    if log != [] {
      var l := |log| - 1;
      KeysSeen(log[..l], k);
      if exists i :: 0 <= i < |log| && log[i].key == k {
        var i :| 0 <= i < |log| && log[i].key == k;
        assert i < l ==> log[..l][i].key == k;
      }
    }
  }

  lemma {:induction false} KeysDistinct<K, H, R>(log: seq<Entry<K, H, R>>)
    ensures forall i, j :: 0 <= i < j < |FirstKeys(log)| ==> FirstKeys(log)[i] != FirstKeys(log)[j]
  {
    if log != [] {
      KeysDistinct(log[..|log| - 1]);
    }
  }

  lemma {:induction false} Extended<K, H, R>(log: seq<Entry<K, H, R>>, e: Entry<K, H, R>, k: K)
    ensures FirstKeys(log + [e]) == if e.key in FirstKeys(log) then FirstKeys(log) else FirstKeys(log) + [e.key]
    ensures RowsOf(log + [e], k) == if e.key == k then RowsOf(log, k) + [e.row] else RowsOf(log, k)
    ensures forall h :: k in FirstKeys(log) ==> FirstHeader(log + [e], k, h) == FirstHeader(log, k, h)
    ensures k !in FirstKeys(log) && e.key == k ==> FirstHeader(log + [e], k, e.header)
  {
    assert (log + [e])[..|log|] == log;
  }

  lemma {:induction false} NoRows<K, H, R>(log: seq<Entry<K, H, R>>, k: K)
    requires k !in FirstKeys(log)
    ensures RowsOf(log, k) == []
  {
    if log != [] {
      NoRows(log[..|log| - 1], k);
    }
  }

  /** An entry of a known key goes to the end of its group and touches no other. */
  lemma {:induction false} GroupGrows<K, H, R>(
    order: seq<Group<K, H, R>>, log: seq<Entry<K, H, R>>, e: Entry<K, H, R>, i: nat)
    requires IsGrouping(order, log) && i < |order| && order[i].key == e.key
    ensures IsGrouping(Grown(order, i, e.row), log + [e])
  {
    var keys := FirstKeys(log);
    KeysDistinct(log);
    Extended(log, e, e.key);
    forall j | 0 <= j < |keys|
      ensures IsGroupOf(Grown(order, i, e.row)[j], log + [e], keys[j])
    {
      Extended(log, e, keys[j]);
      assert IsGroupOf(order[j], log, keys[j]);
    }
  }

  /** An entry of a new key opens a group of its own at the end. */
  lemma {:induction false} GroupOpens<K, H, R>(
    order: seq<Group<K, H, R>>, log: seq<Entry<K, H, R>>, e: Entry<K, H, R>)
    requires IsGrouping(order, log) && forall i :: 0 <= i < |order| ==> order[i].key != e.key
    ensures IsGrouping(Opened(order, e), log + [e])
  {
    var keys := FirstKeys(log);
    assert forall j :: 0 <= j < |keys| ==> IsGroupOf(order[j], log, keys[j]);
    assert e.key !in keys;
    NoRows(log, e.key);
    Extended(log, e, e.key);
    forall j | 0 <= j < |keys| + 1
      ensures IsGroupOf(Opened(order, e)[j], log + [e], FirstKeys(log + [e])[j])
    {
      if j < |keys| {
        Extended(log, e, keys[j]);
        assert IsGroupOf(order[j], log, keys[j]);
      }
    }
  }

  /** A log has one grouping. */
  lemma {:induction false} GroupingDetermined<K, H, R>(
    a: seq<Group<K, H, R>>, b: seq<Group<K, H, R>>, log: seq<Entry<K, H, R>>)
    requires IsGrouping(a, log) && IsGrouping(b, log)
    ensures a == b
  {
    var keys := FirstKeys(log);
    forall i | 0 <= i < |keys|
      ensures a[i] == b[i]
    {
      assert IsGroupOf(a[i], log, keys[i]) && IsGroupOf(b[i], log, keys[i]);
      HeaderDetermined(log, keys[i], a[i].header, b[i].header);
    }
  }

  lemma {:induction false} HeaderDetermined<K, H, R>(log: seq<Entry<K, H, R>>, k: K, h: H, h': H)
    requires FirstHeader(log, k, h) && FirstHeader(log, k, h')
    ensures h == h'
  {
    if k in FirstKeys(log[..|log| - 1]) {
      HeaderDetermined(log[..|log| - 1], k, h, h');
    }
  }

  lemma {:induction false} RowTotalGrows<K, H, R>(order: seq<Group<K, H, R>>, i: nat, row: R)
    requires i < |order|
    ensures RowTotal(Grown(order, i, row)) == RowTotal(order) + 1
  {
    var l := |order| - 1;
    if i < l {
      RowTotalGrows(order[..l], i, row);
      assert Grown(order, i, row)[..l] == Grown(order[..l], i, row);
    } else {
      assert Grown(order, i, row)[..l] == order[..l];
    }
  }

  lemma {:induction false} RowTotalOpens<K, H, R>(order: seq<Group<K, H, R>>, e: Entry<K, H, R>)
    ensures RowTotal(Opened(order, e)) == RowTotal(order) + 1
  {
    assert Opened(order, e)[..|order|] == order;
  }

  lemma {:induction false} IndexGrows<K, H, R>(index: map<K, nat>, order: seq<Group<K, H, R>>, i: nat, row: R)
    requires Indexed(index, order) && i < |order|
    ensures Indexed(index, Grown(order, i, row))
  {
  }

  lemma {:induction false} IndexOpens<K, H, R>(index: map<K, nat>, order: seq<Group<K, H, R>>, e: Entry<K, H, R>)
    requires Indexed(index, order) && e.key !in index
    ensures Indexed(index[e.key := |order|], Opened(order, e))
    ensures forall i :: 0 <= i < |order| ==> order[i].key != e.key
  {
  }

  // Maintaining the list.

  /** A list of groups with an index into it. */
  datatype Grouped<K, H, R> = Grouped(index: map<K, nat>, order: seq<Group<K, H, R>>)

  function Opened<K, H, R>(order: seq<Group<K, H, R>>, e: Entry<K, H, R>): seq<Group<K, H, R>> {
    order + [Group(e.key, e.header, [e.row])]
  }

  function Grown<K, H, R>(order: seq<Group<K, H, R>>, i: nat, row: R): seq<Group<K, H, R>>
    requires i < |order|
  {
    order[i := order[i].(rows := order[i].rows + [row])]
  }

  /** Taking one more entry in. */
  function Taken<K, H, R>(g: Grouped<K, H, R>, e: Entry<K, H, R>): Grouped<K, H, R>
    requires e.key in g.index ==> g.index[e.key] < |g.order|
  {
    if e.key in g.index then g.(order := Grown(g.order, g.index[e.key], e.row))
    else Grouped(g.index[e.key := |g.order|], Opened(g.order, e))
  }

  /** What maintaining the list entry by entry arrives at. */
  ghost function GroupedOf<K, H, R>(log: seq<Entry<K, H, R>>): (g: Grouped<K, H, R>)
    ensures forall k :: k in g.index ==> g.index[k] < |g.order|
  {
    if log == [] then Grouped(map[], []) else Taken(GroupedOf(log[..|log| - 1]), log[|log| - 1])
  }

  lemma {:induction false} GroupedStep<K, H, R>(log: seq<Entry<K, H, R>>, e: Entry<K, H, R>)
    ensures GroupedOf(log + [e]) == Taken(GroupedOf(log), e)
  {
    assert (log + [e])[..|log|] == log;
  }

  /** A maintained list is the grouping of a log: every entry is in exactly one group, the one
      of its key, and no group lost or gained a row. */
  ghost predicate Groups<K, H, R>(g: Grouped<K, H, R>, log: seq<Entry<K, H, R>>) {
    IsGrouping(g.order, log) && Indexed(g.index, g.order) && RowTotal(g.order) == |log|
  }

  lemma {:induction false} GroupedIsGrouping<K, H, R>(log: seq<Entry<K, H, R>>)
    ensures Groups(GroupedOf(log), log)
    decreases |log|, 0
  {
    if log != [] {
      GroupedStepIsGrouping(log[..|log| - 1], log[|log| - 1]);
      assert log[..|log| - 1] + [log[|log| - 1]] == log;
    }
  }

  lemma {:induction false} GroupedStepIsGrouping<K, H, R>(log: seq<Entry<K, H, R>>, e: Entry<K, H, R>)
    ensures Groups(GroupedOf(log + [e]), log + [e])
    decreases |log|, 1
  {
    GroupedIsGrouping(log);
    StepKeepsGrouping(GroupedOf(log), log, e);
    GroupedStep(log, e);
  }

  lemma {:induction false} StepKeepsGrouping<K, H, R>(
    g: Grouped<K, H, R>, log: seq<Entry<K, H, R>>, e: Entry<K, H, R>)
    requires Groups(g, log)
    ensures Groups(Taken(g, e), log + [e])
  {
    if e.key in g.index {
      var i := g.index[e.key];
      GroupGrows(g.order, log, e, i);
      IndexGrows(g.index, g.order, i, e.row);
      RowTotalGrows(g.order, i, e.row);
    } else {
      IndexOpens(g.index, g.order, e);
      GroupOpens(g.order, log, e);
      RowTotalOpens(g.order, e);
    }
  }

  // What a group holds, in terms of identities.

  function Keyed<I, K, R>(keyOf: I -> K, rows: seq<(I, R)>): (log: seq<Entry<K, I, R>>)
    ensures |log| == |rows|
    ensures forall i :: 0 <= i < |rows| ==> log[i] == Entry(keyOf(rows[i].0), rows[i].0, rows[i].1)
  {
    seq(|rows|, i requires 0 <= i < |rows| => Entry(keyOf(rows[i].0), rows[i].0, rows[i].1))
  }

  /** The rows whose identity is the same as x, in order. */
  ghost function RowsLike<I, R>(same: (I, I) -> bool, rows: seq<(I, R)>, x: I): seq<R> {
    if rows == [] then []
    else
      var before := RowsLike(same, rows[..|rows| - 1], x);
      if same(rows[|rows| - 1].0, x) then before + [rows[|rows| - 1].1] else before
  }

  /** A first header comes from an entry of its key. */
  lemma {:induction false} HeaderSeen<K, H, R>(log: seq<Entry<K, H, R>>, k: K, h: H)
    requires FirstHeader(log, k, h)
    ensures exists i :: 0 <= i < |log| && log[i].key == k && log[i].header == h
  {
    var l := |log| - 1;
    if k in FirstKeys(log[..l]) {
      HeaderSeen(log[..l], k, h);
      var i :| 0 <= i < l && log[..l][i].key == k && log[..l][i].header == h;
      assert log[i] == log[..l][i];
    }
  }

  /** As long as no two identities in play collide on a key, the group of an identity holds
      exactly the rows of that identity. */
  lemma {:induction false} GroupHoldsIdentity<I, K, R>(keyOf: I -> K, same: (I, I) -> bool, rows: seq<(I, R)>, x: I)
    requires forall i :: 0 <= i < |rows| ==> (keyOf(rows[i].0) == keyOf(x) <==> same(rows[i].0, x))
    ensures RowsOf(Keyed(keyOf, rows), keyOf(x)) == RowsLike(same, rows, x)
  {
    if rows != [] {
      var l := |rows| - 1;
      GroupHoldsIdentity(keyOf, same, rows[..l], x);
      assert Keyed(keyOf, rows)[..l] == Keyed(keyOf, rows[..l]);
    }
  }
}
