/** The lock-free cache of resources, shared by all workers: every slot keeps the two
    generations published last.  A get is three atomic steps - load the slot, compute, compare
    and swap - and the steps of different workers interleave freely. */
module Resources {
  import opened Options

  datatype Generation<+R> = Generation(gen: nat, res: R)

  /** What a slot points to.  It is never changed once it is allocated. */
  datatype Slot<+R> = Slot(gen: nat, res: R, prev: Option<Generation<R>>)

  /** Where a worker stands in a get. */
  datatype Worker<+R> =
    | Idle
    | Loaded(idx: nat, gen: nat, slot: Option<nat>)
    | Missed(idx: nat, gen: nat, slot: Option<nat>, res: R)
    | Returned(idx: nat, gen: nat, res: R)

  /** Slots hold addresses into an append-only heap; compare-and-swap compares addresses. */
  datatype State<+R> = State(heap: seq<Slot<R>>, slots: seq<Option<nat>>, workers: seq<Worker<R>>)

  datatype Action =
    | Load(t: nat, idx: nat, gen: nat)
    | Compute(t: nat)
    | CompareAndSwap(t: nat)

  /** Everything a resource is derived from is its index and its generation. */
  type Build<!R> = (nat, nat) -> R

  // The steps of get

  /** A hit on the current or the previous generation of a loaded slot. */
  function Lookup<R>(heap: seq<Slot<R>>, slot: Option<nat>, gen: nat): Option<R>
    requires slot.Some? ==> slot.value < |heap|
  {
    if slot.None? then None
    else
      var s := heap[slot.value];
      if s.gen == gen then Some(s.res)
      else if s.prev.Some? && s.prev.value.gen == gen then Some(s.prev.value.res)
      else None
  }

  function StepLoad<R>(s: State<R>, t: nat, idx: nat, gen: nat): State<R> {
    if t < |s.workers| && idx < |s.slots| && (s.workers[t].Idle? || s.workers[t].Returned?) then
      s.(workers := s.workers[t := Loaded(idx, gen, s.slots[idx])])
    else s
  }

  function StepCompute<R>(build: Build<R>, s: State<R>, t: nat): State<R> {
    if t < |s.workers| && s.workers[t].Loaded? && ValidSlot(s.heap, s.workers[t].slot) then
      var w := s.workers[t];
      var hit := Lookup(s.heap, w.slot, w.gen);
      s.(workers := s.workers[t :=
        if hit.Some? then Returned(w.idx, w.gen, hit.value)
        else Missed(w.idx, w.gen, w.slot, build(w.idx, w.gen))])
    else s
  }

  /** Publishes only forwards: a worker that asked for an older generation just returns what it
      built, and so does one whose slot has been swapped under it. */
  function StepCas<R>(s: State<R>, t: nat): State<R> {
    if t < |s.workers| && s.workers[t].Missed? && s.workers[t].idx < |s.slots| &&
      ValidSlot(s.heap, s.workers[t].slot) then
      var w := s.workers[t];
      var done := s.(workers := s.workers[t := Returned(w.idx, w.gen, w.res)]);
      if (w.slot.None? || s.heap[w.slot.value].gen < w.gen) && s.slots[w.idx] == w.slot then
        var prev := if w.slot.None? then None
                    else Some(Generation(s.heap[w.slot.value].gen, s.heap[w.slot.value].res));
        done.(heap := s.heap + [Slot(w.gen, w.res, prev)], slots := s.slots[w.idx := Some(|s.heap|)])
      else done
    else s
  }

  predicate ValidSlot<R>(heap: seq<Slot<R>>, slot: Option<nat>) {
    slot.Some? ==> slot.value < |heap|
  }

  function Step<R>(build: Build<R>, s: State<R>, a: Action): State<R> {
    match a
    case Load(t, idx, gen) => StepLoad(s, t, idx, gen)
    case Compute(t) => StepCompute(build, s, t)
    case CompareAndSwap(t) => StepCas(s, t)
  }

  function Initial<R>(resources: nat, workers: nat): State<R> {
    State([], seq(resources, _ => None), seq(workers, _ => Idle))
  }

  /** The state after an interleaving. */
  function Run<R>(build: Build<R>, s: State<R>, actions: seq<Action>): State<R>
    decreases |actions|
  {
    if actions == [] then s
    else Step(build, Run(build, s, actions[..|actions| - 1]), actions[|actions| - 1])
  }

  // What every interleaving keeps

  /** A slot of idx holds the resource of its generation, and an older one behind it. */
  ghost predicate Genuine<R>(build: Build<R>, idx: nat, s: Slot<R>) {
    && s.res == build(idx, s.gen)
    && (s.prev.Some? ==> s.prev.value.gen < s.gen && s.prev.value.res == build(idx, s.prev.value.gen))
  }

  ghost predicate GenuineAt<R>(build: Build<R>, heap: seq<Slot<R>>, idx: nat, slot: Option<nat>) {
    slot.Some? ==> slot.value < |heap| && Genuine(build, idx, heap[slot.value])
  }

  ghost predicate WorkerInv<R>(build: Build<R>, s: State<R>, w: Worker<R>) {
    match w
    case Idle => true
    case Loaded(idx, gen, slot) => idx < |s.slots| && GenuineAt(build, s.heap, idx, slot)
    case Missed(idx, gen, slot, res) =>
      idx < |s.slots| && GenuineAt(build, s.heap, idx, slot) && res == build(idx, gen)
    case Returned(idx, gen, res) => res == build(idx, gen)
  }

  ghost predicate Inv<R>(build: Build<R>, s: State<R>) {
    && (forall idx :: 0 <= idx < |s.slots| ==> GenuineAt(build, s.heap, idx, s.slots[idx]))
    && (forall t :: 0 <= t < |s.workers| ==> WorkerInv(build, s, s.workers[t]))
  }

  lemma {:induction false} StepKeepsInv<R>(build: Build<R>, s: State<R>, a: Action)
    requires Inv(build, s)
    ensures Inv(build, Step(build, s, a))
    ensures var s' := Step(build, s, a); s.heap <= s'.heap && |s'.slots| == |s.slots| && |s'.workers| == |s.workers|
  {
    var s' := Step(build, s, a);
    assert s.heap <= s'.heap;
    forall t | 0 <= t < |s.workers|
      ensures WorkerInv(build, s', s'.workers[t])
    {
      assert WorkerInv(build, s, s.workers[t]);
    }
  }

  lemma {:induction false} RunKeepsInv<R>(build: Build<R>, resources: nat, workers: nat, actions: seq<Action>)
    ensures var s := Run(build, Initial(resources, workers), actions);
      Inv(build, s) && |s.slots| == resources && |s.workers| == workers
  {
    if actions != [] {
      var before := actions[..|actions| - 1];
      RunKeepsInv(build, resources, workers, before);
      StepKeepsInv(build, Run(build, Initial(resources, workers), before), actions[|actions| - 1]);
    }
  }

  /** Under every interleaving of any number of workers, a get returns exactly the resource of
      the index and generation it was asked for, hit or miss, published or not. */
  lemma {:induction false} GetIsBuild<R>(build: Build<R>, resources: nat, workers: nat, actions: seq<Action>, t: nat)
    requires t < workers
    ensures var s := Run(build, Initial(resources, workers), actions);
      t < |s.workers| && (s.workers[t].Returned? ==> s.workers[t].res == build(s.workers[t].idx, s.workers[t].gen))
  {
    RunKeepsInv(build, resources, workers, actions);
    var s := Run(build, Initial(resources, workers), actions);
    assert WorkerInv(build, s, s.workers[t]);
  }

  /** What a slot has published: nothing yet, or a generation with the one before it. */
  function Published<R>(s: State<R>, idx: nat): Option<Slot<R>> {
    if idx < |s.slots| && s.slots[idx].Some? && s.slots[idx].value < |s.heap| then Some(s.heap[s.slots[idx].value])
    else None
  }

  /** A step leaves a slot alone or advances it: to a strictly newer generation, with the
      generation published until then kept as its previous one. */
  lemma {:induction false} StepAdvances<R>(build: Build<R>, s: State<R>, a: Action, idx: nat)
    requires Inv(build, s)
    ensures var before, after := Published(s, idx), Published(Step(build, s, a), idx);
      || after == before
      || (before.None? && after.Some? && after.value.prev == None)
      || (before.Some? && after.Some? && before.value.gen < after.value.gen
          && after.value.prev == Some(Generation(before.value.gen, before.value.res)))
  {
    StepKeepsInv(build, s, a);
    if idx < |s.slots| {
      assert GenuineAt(build, s.heap, idx, s.slots[idx]);
    }
    if a.CompareAndSwap? && a.t < |s.workers| {
      assert WorkerInv(build, s, s.workers[a.t]);
    }
  }

  /** The generations a slot publishes over an interleaving, oldest first. */
  ghost function History<R>(build: Build<R>, s: State<R>, actions: seq<Action>, idx: nat): seq<Generation<R>> {
    if actions == [] then []
    else
      var before := actions[..|actions| - 1];
      var was, now := Published(Run(build, s, before), idx), Published(Run(build, s, actions), idx);
      var h := History(build, s, before, idx);
      if now == was || now.None? then h else h + [Generation(now.value.gen, now.value.res)]
  }

  /** Over any interleaving a slot's generations only move forward, and the slot always holds
      the last two it published. */
  lemma {:induction false} SlotHoldsLastTwo<R>(
    build: Build<R>, resources: nat, workers: nat, actions: seq<Action>, idx: nat)
    ensures var h := History(build, Initial(resources, workers), actions, idx);
      var p := Published(Run(build, Initial(resources, workers), actions), idx);
      && (forall i, j :: 0 <= i < j < |h| ==> h[i].gen < h[j].gen)
      && (p.None? <==> h == [])
      && (p.Some? ==>
            && h[|h| - 1] == Generation(p.value.gen, p.value.res)
            && p.value.prev == if |h| == 1 then None else Some(h[|h| - 2]))
  {
    var s0 := Initial<R>(resources, workers);
    if actions != [] {
      var before, a := actions[..|actions| - 1], actions[|actions| - 1];
      SlotHoldsLastTwo(build, resources, workers, before, idx);
      RunKeepsInv(build, resources, workers, before);
      StepAdvances(build, Run(build, s0, before), a, idx);
    }
  }

  // A get on its own

  /** The three steps of a get, with no other worker in between. */
  function Get<R>(build: Build<R>, s: State<R>, t: nat, idx: nat, gen: nat): State<R> {
    Step(build, Step(build, Step(build, s, Load(t, idx, gen)), Compute(t)), CompareAndSwap(t))
  }

  /** A get that nobody interferes with publishes what it built if it is newer than what the slot
      has, which it keeps as the previous generation; and it changes nothing but its own return
      otherwise.  In particular a second get of one generation finds what the first published. */
  lemma {:induction false} GetAlone<R>(build: Build<R>, s: State<R>, t: nat, idx: nat, gen: nat)
    requires Inv(build, s) && t < |s.workers| && idx < |s.slots|
    requires s.workers[t].Idle? || s.workers[t].Returned?
    ensures var s', was := Get(build, s, t, idx, gen), Published(s, idx);
      && s'.workers == s.workers[t := Returned(idx, gen, build(idx, gen))]
      && (if was.Some? && was.value.gen >= gen then s'.heap == s.heap && s'.slots == s.slots
          else
            && Published(s', idx) == Some(Slot(gen, build(idx, gen),
                 if was.None? then None else Some(Generation(was.value.gen, was.value.res))))
            && forall i :: i != idx ==> Published(s', i) == Published(s, i))
  {
    assert GenuineAt(build, s.heap, idx, s.slots[idx]);
    forall i: nat | i < |s.slots|
      ensures ValidSlot(s.heap, s.slots[i])
    {
      assert GenuineAt(build, s.heap, i, s.slots[i]);
    }
    var loaded := Step(build, s, Load(t, idx, gen));
    var computed := Step(build, loaded, Compute(t));
    assert computed.heap == s.heap && computed.slots == s.slots;
  }

  /** A get builds nothing exactly if the slot has the generation asked for, as its current or as its
      previous one. */
  lemma {:induction false} HitBuildsNothing<R>(build: Build<R>, s: State<R>, t: nat, idx: nat, gen: nat)
    requires Inv(build, s) && t < |s.workers| && idx < |s.slots|
    requires s.workers[t].Idle? || s.workers[t].Returned?
    ensures var w, was := Step(build, Step(build, s, Load(t, idx, gen)), Compute(t)).workers[t], Published(s, idx);
      if was.Some? && (was.value.gen == gen || (was.value.prev.Some? && was.value.prev.value.gen == gen))
      then w == Returned(idx, gen, build(idx, gen)) else w == Missed(idx, gen, s.slots[idx], build(idx, gen))
  {
    assert GenuineAt(build, s.heap, idx, s.slots[idx]);
  }
}
