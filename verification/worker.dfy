/** A generator worker: the sweep loop over its stripe of the series, and the flush that
    exports what has accumulated. */
module Workers {
  import opened Sweeps
  import opened Coverage
  import opened Builders

  /** What an export attempt can come back with.  Which one is up to the endpoint, the network
      and whoever cancels the run. */
  datatype Outcome =
    | Accepted(rejected: nat)
    | TooLarge
    | Failed(cancelled: bool, cancelledWaiting: bool)

  const MAX_ATTEMPTS := 5
  const BASE_BACKOFF_MS := 250
  const MAX_BACKOFF_MS := 5000

  /** Attempt i is the first that is accepted, and nothing before it ended the trying. */
  ghost predicate Succeeds(outcome: nat -> Outcome, i: nat) {
    outcome(i).Accepted? && forall j: nat :: j < i ==> outcome(j) == Failed(false, false)
  }

  /** What the world answers each time it is asked: at every checkpoint, for every request, and at
      every attempt to send one. */
  datatype World = World(
    cancelled: nat -> bool,           // whether the run is cancelled by a checkpoint
    overdue: nat -> bool,             // whether the request at hand is overdue by then
    limiterFails: nat -> bool,        // whether the rate limiter fails there
    marshals: nat -> bool,            // whether a request can be marshalled
    outcome: nat -> (nat -> Outcome)  // what the attempts to send it come back with
  )

  /** A request is delivered if it can be marshalled and one of five attempts succeeds. */
  ghost predicate Delivers(world: World, request: nat) {
    world.marshals(request) && exists i: nat :: i < MAX_ATTEMPTS && Succeeds(world.outcome(request), i)
  }

  /** A run goes on after a checkpoint that is neither cancelled nor failed by the limiter. */
  predicate Goes(world: World, checkpoint: nat) {
    !world.cancelled(checkpoint) && !world.limiterFails(checkpoint)
  }

  /** ... and has gone on after all of the first so many. */
  ghost predicate Went(world: World, checkpoints: nat) {
    forall n: nat :: n < checkpoints ==> Goes(world, n)
  }

  // Conservation

  /** What the first n calls of a script generate, in order. */
  ghost function Generated(c: Config, metrics: seq<MetricDef>, script: seq<Call>, n: nat): seq<PointEntry>
    requires c.Valid() && n <= |script|
  {
    if n == 0 then [] else Generated(c, metrics, script, n - 1) + GeneratedBy(c, metrics, script[n - 1])
  }

  /** appended[i] is what the first i calls of a script generate. */
  ghost predicate Follows(c: Config, metrics: seq<MetricDef>, script: seq<Call>, appended: seq<seq<PointEntry>>)
    requires c.Valid() && 1 <= |appended| <= |script| + 1
  {
    appended[0] == [] && forall i :: 0 <= i < |appended| - 1 ==> FollowsAt(c, metrics, script, appended, i)
  }

  ghost predicate FollowsAt(
    c: Config, metrics: seq<MetricDef>, script: seq<Call>, appended: seq<seq<PointEntry>>, i: nat)
    requires c.Valid() && i < |script| && i + 1 < |appended|
  {
    appended[i + 1] == appended[i] + GeneratedBy(c, metrics, script[i])
  }

  lemma {:induction false} FollowsOn(
    c: Config, metrics: seq<MetricDef>, script: seq<Call>, appended: seq<seq<PointEntry>>, more: seq<PointEntry>)
    requires c.Valid() && 1 <= |appended| <= |script| && Follows(c, metrics, script, appended)
    requires more == appended[|appended| - 1] + GeneratedBy(c, metrics, script[|appended| - 1])
    ensures Follows(c, metrics, script, appended + [more])
  {
    var longer := appended + [more];
    forall i | 0 <= i < |longer| - 1
      ensures FollowsAt(c, metrics, script, longer, i)
    {
      assert i < |appended| - 1 ==> FollowsAt(c, metrics, script, appended, i);
    }
  }

  lemma {:induction false} FollowsGenerated(
    c: Config, metrics: seq<MetricDef>, script: seq<Call>, appended: seq<seq<PointEntry>>, n: nat)
    requires c.Valid() && n < |appended| <= |script| + 1 && Follows(c, metrics, script, appended)
    ensures appended[n] == Generated(c, metrics, script, n)
  {
    if n > 0 {
      FollowsGenerated(c, metrics, script, appended, n - 1);
      assert FollowsAt(c, metrics, script, appended, n - 1);
    }
  }

  lemma {:induction false} Associate<T>(a: seq<T>, b: seq<T>, c: seq<T>)
    ensures a + b + c == a + (b + c)
  {
  }

  function GeneratedBy(c: Config, metrics: seq<MetricDef>, call: Call): seq<PointEntry>
    requires c.Valid()
  {
    if call.m < |metrics| then Placements(c, metrics[call.m], call.j, call.k) else []
  }

  lemma {:induction false} NextCall(script: seq<Call>, made: nat, call: Call, after: seq<Call>)
    requires made <= |script| && script[made..] == [call] + after
    ensures made < |script| && script[made] == call && script[made + 1..] == after
  {
    assert script[made..][0] == call && script[made..][1..] == script[made + 1..];
  }

  /** Why a request is flushed: it is full, a checkpoint found it overdue, or the run is done. */
  datatype Due = Full | Stale(checkpoint: nat) | Last

  /** One flushed request, with the points it was made of. */
  datatype Batch = Batch(points: seq<PointEntry>, request: seq<MetricGroup>, due: Due, delivered: bool)

  /** Was it time to flush a request of so many points? */
  ghost predicate IsDue(due: Due, points: nat, pointsPerRequest: nat, world: World) {
    match due
    case Full => points >= pointsPerRequest
    case Stale(n) => world.overdue(n)
    case Last => true
  }

  /** No batch was the last so far. */
  ghost predicate Unfinished(batches: seq<Batch>) {
    forall i :: 0 <= i < |batches| ==> batches[i].due != Last
  }

  /** All points of some batches, in order. */
  ghost function PointsIn(batches: seq<Batch>): seq<PointEntry> {
    if batches == [] then [] else PointsIn(batches[..|batches| - 1]) + batches[|batches| - 1].points
  }

  /** How many of them were delivered, or were not. */
  ghost function CountPoints(batches: seq<Batch>, delivered: bool): nat {
    if batches == [] then 0
    else
      var b := batches[|batches| - 1];
      CountPoints(batches[..|batches| - 1], delivered) + if b.delivered == delivered then |b.points| else 0
  }

  ghost function CountBatches(batches: seq<Batch>, delivered: bool): nat {
    if batches == [] then 0
    else
      CountBatches(batches[..|batches| - 1], delivered)
      + if batches[|batches| - 1].delivered == delivered then 1 else 0
  }

  /** ... or only the last one was. */
  ghost predicate OneLast(batches: seq<Batch>) {
    forall i :: 0 <= i < |batches| - 1 ==> batches[i].due != Last
  }

  /** Every batch has 1 to pointsPerRequest + 1 points and was due, its request groups exactly these
      points, and it is delivered exactly if the world says so. */
  ghost predicate Complete(batches: seq<Batch>, pointsPerRequest: nat, world: World) {
    forall i :: 0 <= i < |batches| ==> IsComplete(batches, i, pointsPerRequest, world)
  }

  ghost predicate IsComplete(batches: seq<Batch>, i: nat, pointsPerRequest: nat, world: World)
    requires i < |batches|
  {
    && 1 <= |batches[i].points| <= pointsPerRequest + 1 && batches[i].request == RequestOf(batches[i].points)
    && IsDue(batches[i].due, |batches[i].points|, pointsPerRequest, world)
    && (batches[i].delivered <==> Delivers(world, i))
  }

  /** The points of the batches the world takes. */
  ghost function PointsTaken(batches: seq<Batch>, world: World): nat {
    if batches == [] then 0
    else
      PointsTaken(batches[..|batches| - 1], world)
      + if Delivers(world, |batches| - 1) then |batches[|batches| - 1].points| else 0
  }

  lemma {:induction false} TakenAreDelivered(batches: seq<Batch>, pointsPerRequest: nat, world: World)
    requires Complete(batches, pointsPerRequest, world)
    ensures CountPoints(batches, true) == PointsTaken(batches, world)
  {
    if batches != [] {
      var before := batches[..|batches| - 1];
      assert IsComplete(batches, |before|, pointsPerRequest, world);
      forall i | 0 <= i < |before|
        ensures IsComplete(before, i, pointsPerRequest, world)
      {
        assert IsComplete(batches, i, pointsPerRequest, world);
      }
      TakenAreDelivered(before, pointsPerRequest, world);
    }
  }

  lemma {:induction false} OneMoreBatch(batches: seq<Batch>, b: Batch)
    ensures PointsIn(batches + [b]) == PointsIn(batches) + b.points
    ensures CountPoints(batches + [b], true) == CountPoints(batches, true) + if b.delivered then |b.points| else 0
    ensures CountBatches(batches + [b], true) == CountBatches(batches, true) + if b.delivered then 1 else 0
  {
    assert (batches + [b])[..|batches|] == batches;
  }

  lemma {:induction false} StaysComplete(batches: seq<Batch>, b: Batch, pointsPerRequest: nat, world: World)
    requires Complete(batches, pointsPerRequest, world)
    requires IsComplete(batches + [b], |batches|, pointsPerRequest, world)
    ensures Complete(batches + [b], pointsPerRequest, world)
  {
    forall i | 0 <= i < |batches + [b]|
      ensures IsComplete(batches + [b], i, pointsPerRequest, world)
    {
      assert i < |batches| ==> IsComplete(batches, i, pointsPerRequest, world);
    }
  }

  /** Every point of a batch was either delivered or not. */
  lemma {:induction false} DeliveredOrNot(batches: seq<Batch>)
    ensures |PointsIn(batches)| == CountPoints(batches, true) + CountPoints(batches, false)
  {
    if batches != [] {
      DeliveredOrNot(batches[..|batches| - 1]);
    }
  }

  /** Calls generate as many points as the streams of their series account for. */
  lemma {:induction false} GeneratedCount(c: Config, metrics: seq<MetricDef>, script: seq<Call>, n: nat)
    requires c.Valid() && n <= |script| && forall i :: 0 <= i < |script| ==> script[i].m < |metrics|
    ensures |Generated(c, metrics, script, n)| ==
      EmittedBefore(script, n, EmitsOf(c.p, OwnerOf(c, metrics), c.markers))
  {
    if n > 0 {
      GeneratedCount(c, metrics, script, n - 1);
      CallCount(c, metrics, script[n - 1]);
    }
  }

  lemma {:induction false} CallCount(c: Config, metrics: seq<MetricDef>, call: Call)
    requires c.Valid() && call.m < |metrics|
    ensures |GeneratedBy(c, metrics, call)| == EmitsOf(c.p, OwnerOf(c, metrics), c.markers)(call)
  {
  }

  /** The resource that owns a series. */
  function OwnerOf(c: Config, metrics: seq<MetricDef>): (nat, nat) -> nat
    requires c.Valid()
  {
    (m: nat, j: nat) => if m < |metrics| then MakeSeries(c, metrics[m], j).resource else 0
  }

  function CardsOf(metrics: seq<MetricDef>): (cards: seq<nat>)
    ensures |cards| == |metrics| && forall m :: 0 <= m < |cards| ==> cards[m] == metrics[m].cardinality
  {
    seq(|metrics|, m requires 0 <= m < |metrics| => metrics[m].cardinality)
  }

  // The worker

  class Worker {
    const id: nat
    const threads: nat
    const metrics: seq<MetricDef>
    const pointsPerRequest: nat
    const chunk: nat
    const b: Builder
    const world: World

    var totalPoints: nat
    var totalRequests: nat
    var allowance: nat
    var checkpoints: nat  // how often the world was asked at checkpoints
    var flushes: nat      // and for how many requests

    ghost var script: seq<Call>    // the calls of the whole run, in order
    ghost var made: nat            // how many of them have been made
    ghost var appended: seq<seq<PointEntry>>  // what the builder had been given before each
    ghost var batches: seq<Batch>  // the requests flushed, in order
    ghost var granted: nat         // the points permission was given for

    /** Between two points of a run. */
    ghost predicate Valid()
      reads this, b
    {
      Accounted() && b.points < pointsPerRequest && Unfinished(batches)
    }

    /** What the calls so far generated is what was flushed and then what is in the builder; the
        totals are those of the delivered batches; every batch is complete; and no call is made
        without permission. */
    ghost predicate Accounted()
      reads this, b
    {
      && id < threads && metrics != [] && pointsPerRequest >= 1 && chunk >= 1
      && b.Valid() && b.points <= pointsPerRequest + 1
      && made <= |script| && |appended| == made + 1 && Follows(b.c, metrics, script, appended)
      && appended[made] == PointsIn(batches) + b.log
      && totalPoints == CountPoints(batches, true) && totalRequests == CountBatches(batches, true)
      && Complete(batches, pointsPerRequest, world) && flushes == |batches|
      && made + allowance == granted
    }

    constructor (id: nat, threads: nat, metrics: seq<MetricDef>, pointsPerRequest: nat, chunk: nat, c: Config,
                 world: World)
      requires c.Valid() && id < threads && metrics != [] && pointsPerRequest >= 1 && chunk >= 1
      ensures Valid() && fresh(b) && b.c == c && made == 0
      ensures this.id == id && this.threads == threads
      ensures this.metrics == metrics && this.pointsPerRequest == pointsPerRequest
      ensures this.chunk == chunk && this.world == world && checkpoints == 0 && batches == []
    {
      this.world := world;
      this.id, this.threads, this.metrics, this.pointsPerRequest, this.chunk := id, threads, metrics,
        pointsPerRequest, chunk;
      b := new Builder(c);
      totalPoints, totalRequests, allowance, checkpoints, flushes := 0, 0, 0, 0, 0;
      script, made, appended, batches, granted := [], 0, [[]], [], 0;
    }

    /** Exports the accumulated request.  The builder is empty afterwards, and its points are booked
        as one batch: delivered as a whole exactly if the world takes the request, and dropped as
        a whole otherwise; there are at most five attempts, with less than four seconds of
        waiting between them. */
    method Flush(ghost due: Due) returns (attempts: nat, waitedMs: nat)
      requires Accounted() && IsDue(due, b.points, pointsPerRequest, world)
      modifies this`totalPoints, this`totalRequests, this`flushes, this`batches, b
      ensures Accounted() && b.log == []
      ensures old(b.points) == 0 ==>
        attempts == 0 && batches == old(batches)
        && totalPoints == old(totalPoints) && totalRequests == old(totalRequests)
      ensures old(b.points) > 0 ==>
        var taken := Delivers(world, old(flushes));
        && batches == old(batches) + [Batch(old(b.log), RequestOf(old(b.log)), due, taken)]
        && totalPoints == old(totalPoints) + (if taken then old(b.points) else 0)
        && totalRequests == old(totalRequests) + (if taken then 1 else 0)
      ensures attempts <= MAX_ATTEMPTS && waitedMs <= 3750
      ensures flushes == old(flushes) + if old(b.points) > 0 then 1 else 0
    {
      attempts, waitedMs := 0, 0;
      if b.points == 0 {
        return;
      }
      var request := b.Build();
      var delivered: bool;
      attempts, waitedMs, delivered := Deliver(request, world.marshals(flushes), world.outcome(flushes));
      Settle(request, due, delivered);
    }

    /** Empties the builder and books what was in it. */
    method Settle(ghost request: seq<MetricGroup>, ghost due: Due, delivered: bool)
      requires Accounted() && b.points > 0 && request == RequestOf(b.log)
      requires IsDue(due, b.points, pointsPerRequest, world)
      requires delivered <==> Delivers(world, flushes)
      modifies this`totalPoints, this`totalRequests, this`flushes, this`batches, b
      ensures Accounted() && b.log == []
      ensures batches == old(batches) + [Batch(old(b.log), request, due, delivered)]
      ensures totalPoints == old(totalPoints) + (if delivered then old(b.points) else 0)
      ensures totalRequests == old(totalRequests) + (if delivered then 1 else 0)
      ensures flushes == old(flushes) + 1
    {
      ghost var batch := Batch(b.log, request, due, delivered);
      OneMoreBatch(batches, batch);
      StaysComplete(batches, batch, pointsPerRequest, world);
      if delivered {
        totalPoints := totalPoints + b.points;
        totalRequests := totalRequests + 1;
      }
      b.Reset();
      flushes := flushes + 1;
      batches := batches + [batch];
    }

    /** Tries to have a request accepted.  It is delivered exactly if it can be marshalled and
        one of the first five attempts is accepted after failures that allow another try; the
        waits between attempts double from a quarter of a second. */
    method Deliver(request: seq<MetricGroup>, marshalled: bool, outcome: nat -> Outcome)
      returns (attempts: nat, waitedMs: nat, delivered: bool)
      ensures delivered <==> marshalled && exists i: nat :: i < MAX_ATTEMPTS && Succeeds(outcome, i)
      ensures attempts <= MAX_ATTEMPTS && (attempts == 0 <==> !marshalled)
      ensures waitedMs == [0, 0, 250, 750, 1750, 3750][attempts]
    {
      attempts, waitedMs := 0, 0;
      if !marshalled {
        return attempts, waitedMs, false;
      }
      var backoff := BASE_BACKOFF_MS;
      while true
        invariant attempts < MAX_ATTEMPTS
        invariant forall i: nat :: i < attempts ==> outcome(i) == Failed(false, false)
        invariant backoff == [250, 500, 1000, 2000, 4000][attempts] && waitedMs + BASE_BACKOFF_MS == backoff
        decreases MAX_ATTEMPTS - attempts
      {
        attempts := attempts + 1;
        match outcome(attempts - 1)
        case TooLarge =>
          return attempts, waitedMs, false;
        case Accepted(_) =>
          assert Succeeds(outcome, attempts - 1);
          return attempts, waitedMs, true;
        case Failed(cancelled, cancelledWaiting) =>
          if cancelled || attempts >= MAX_ATTEMPTS || cancelledWaiting {
            return attempts, waitedMs, false;
          }
          waitedMs := waitedMs + backoff;
          backoff := if backoff * 2 < MAX_BACKOFF_MS then backoff * 2 else MAX_BACKOFF_MS;
      }
    }

    /** Generates a run: sweep after sweep, every metric, every series of the stripe.  Between
        chunks of points the run may be cancelled, wait for the rate limiter, or flush a stale
        request.  A run of 0 sweeps goes on until it is cancelled, at the latest at some horizon.
        The calls made are the worker's part of the run from its beginning: all of it, with every
        point out of the builder, exactly if no checkpoint ended the run. */
    method Run(sweeps: nat, horizon: nat) returns (completed: bool)
      requires Valid() && made == 0 && allowance == 0 && checkpoints == 0
      modifies this`script
      modifies this`totalPoints, this`totalRequests, this`allowance, this`checkpoints, this`flushes
      modifies this`made, this`appended, this`batches, this`granted, b
      ensures Accounted()
      ensures script == RunCalls(CardsOf(metrics), id, threads, 0, if sweeps == 0 then horizon else sweeps)
      ensures completed <==> sweeps > 0 && Went(world, checkpoints)
      ensures Went(world, checkpoints) ==> made == |script|
      ensures if completed then b.log == [] && OneLast(batches) else Unfinished(batches)
    {
      ghost var cards := CardsOf(metrics);
      ghost var end := if sweeps == 0 then horizon else sweeps;
      Begin(RunCalls(cards, id, threads, 0, end));
      var k := 0;
      while sweeps == 0 || k < sweeps
        invariant k <= end && Went(world, checkpoints)
        invariant Valid() && script[made..] == RunCalls(cards, id, threads, k, end)
        invariant script == RunCalls(cards, id, threads, 0, end)
        decreases end - k
      {
        if sweeps == 0 && k == horizon {
          return false;
        }
        RunAdvance(cards, id, threads, k, end);
        completed := RunSweep(k, RunCalls(cards, id, threads, k + 1, end));
        if !completed {
          return;
        }
        k := k + 1;
      }
      Finish();
      completed := true;
    }

    /** Sets out what a run is to do. */
    ghost method Begin(script: seq<Call>)
      requires Valid() && made == 0
      modifies this`script
      ensures Valid() && this.script == script == this.script[made..]
    {
      this.script := script;
    }

    /** Sends what is left when a run is done. */
    method Finish()
      requires Valid()
      modifies this`totalPoints, this`totalRequests, this`flushes, this`batches, b
      ensures Accounted() && b.log == [] && OneLast(batches)
    {
      var _, _ := Flush(Last);
    }

    /** One sweep over all metrics, starting with the one whose turn it is. */
    method RunSweep(k: nat, ghost after: seq<Call>) returns (finished: bool)
      requires Valid() && script[made..] == SweepCalls(CardsOf(metrics), id, threads, k, 0) + after
      requires Went(world, checkpoints)
      modifies this`totalPoints, this`totalRequests, this`allowance, this`checkpoints, this`flushes
      modifies this`made, this`appended, this`batches, this`granted, b
      ensures Valid() && (finished ==> script[made..] == after)
      ensures finished <==> Went(world, checkpoints)
    {
      ghost var cards := CardsOf(metrics);
      for i := 0 to |metrics|
        invariant Valid() && script[made..] == SweepCalls(cards, id, threads, k, i) + after
        invariant Went(world, checkpoints)
      {
        finished := RunTurn(k, i, after);
        if !finished {
          return;
        }
      }
      finished := true;
    }

    /** The turn of one metric in a sweep. */
    method RunTurn(k: nat, i: nat, ghost after: seq<Call>) returns (finished: bool)
      requires Valid() && i < |metrics|
      requires script[made..] == SweepCalls(CardsOf(metrics), id, threads, k, i) + after
      requires Went(world, checkpoints)
      modifies this`totalPoints, this`totalRequests, this`allowance, this`checkpoints, this`flushes
      modifies this`made, this`appended, this`batches, this`granted, b
      ensures Valid()
      ensures finished ==> script[made..] == SweepCalls(CardsOf(metrics), id, threads, k, i + 1) + after
      ensures finished <==> Went(world, checkpoints)
    {
      ghost var cards := CardsOf(metrics);
      SweepAdvance(cards, id, threads, k, i, after);
      finished := RunStripe(MetricAt(|metrics|, i, k), k, SweepCalls(cards, id, threads, k, i + 1) + after);
    }

    /** The stripe of one metric in one sweep. */
    method RunStripe(m: nat, k: nat, ghost after: seq<Call>) returns (finished: bool)
      requires Valid() && m < |metrics|
      requires script[made..] == Stripe(m, id, metrics[m].cardinality, threads, k) + after
      requires Went(world, checkpoints)
      modifies this`totalPoints, this`totalRequests, this`allowance, this`checkpoints, this`flushes
      modifies this`made, this`appended, this`batches, this`granted, b
      ensures Valid() && (finished ==> script[made..] == after)
      ensures finished <==> Went(world, checkpoints)
    {
      var def := metrics[m];
      var j := id;
      while j < def.cardinality
        invariant Valid() && script[made..] == Stripe(m, j, def.cardinality, threads, k) + after
        invariant Went(world, checkpoints)
        decreases def.cardinality - j
      {
        StripeAdvance(m, j, def.cardinality, threads, k, after);
        finished := Step(m, j, k, Stripe(m, j + threads, def.cardinality, threads, k) + after);
        if !finished {
          return;
        }
        j := j + threads;
      }
      finished := true;
    }

    /** Adds the next point, unless the checkpoint due before it ends the run. */
    method Step(m: nat, j: nat, k: nat, ghost after: seq<Call>) returns (added: bool)
      requires Valid() && m < |metrics| && script[made..] == [Call(m, j, k)] + after
      requires Went(world, checkpoints)
      modifies this`totalPoints, this`totalRequests, this`allowance, this`checkpoints, this`flushes
      modifies this`made, this`appended, this`batches, this`granted, b
      ensures Valid() && (added ==> script[made..] == after)
      ensures added <==> Went(world, checkpoints)
      ensures checkpoints == old(checkpoints) + if old(allowance) == 0 then 1 else 0
    {
      NextCall(script, made, Call(m, j, k), after);
      added := Permit();
      if added {
        AddPoint(m, j, k);
      }
    }

    /** Passes the checkpoint that is due once the allowance is used up. */
    method Permit() returns (granted: bool)
      requires Valid() && Went(world, checkpoints)
      modifies this`totalPoints, this`totalRequests, this`allowance, this`checkpoints, this`flushes
      modifies this`batches, this`granted, b
      ensures Valid() && (granted <==> Went(world, checkpoints)) && (granted ==> allowance > 0)
      ensures checkpoints == old(checkpoints) + if old(allowance) == 0 then 1 else 0
    {
      granted := true;
      if allowance == 0 {
        granted := Checkpoint();
      }
    }

    /** Adds one point, and flushes exactly when the request is full. */
    method AddPoint(m: nat, j: nat, k: nat)
      requires Valid() && m < |metrics| && allowance > 0
      requires made < |script| && script[made] == Call(m, j, k)
      modifies this`totalPoints, this`totalRequests, this`allowance, this`flushes
      modifies this`made, this`appended, this`batches, b
      ensures Valid() && made == old(made) + 1
      ensures var log := old(b.log) + GeneratedBy(b.c, metrics, Call(m, j, k));
        if |log| < pointsPerRequest then b.log == log && flushes == old(flushes)
        else b.log == [] && flushes == old(flushes) + 1
    {
      Generate(m, j, k);
      if b.points >= pointsPerRequest {
        var _, _ := Flush(Full);
      }
    }

    /** Uses up one permission to add one point to the builder. */
    method Generate(m: nat, j: nat, k: nat)
      requires Valid() && m < |metrics| && allowance > 0
      requires made < |script| && script[made] == Call(m, j, k)
      modifies this`allowance, this`made, this`appended, b
      ensures Accounted() && made == old(made) + 1
      ensures b.log == old(b.log) + GeneratedBy(b.c, metrics, Call(m, j, k))
    {
      ghost var entries := GeneratedBy(b.c, metrics, script[made]);
      FollowsOn(b.c, metrics, script, appended, appended[made] + entries);
      Associate(PointsIn(batches), b.log, entries);
      allowance := allowance - 1;
      b.AddPoint(metrics[m], j, k);
      made, appended := made + 1, appended + [appended[made] + entries];
    }

    /** Runs between chunks of points: ends the run if it is cancelled or the limiter fails, sends
        a request that is overdue, and grants the next chunk. */
    method Checkpoint() returns (proceed: bool)
      requires Valid() && allowance == 0
      modifies this`totalPoints, this`totalRequests, this`allowance, this`checkpoints, this`flushes
      modifies this`batches, this`granted, b
      ensures Valid() && granted == old(granted) + allowance && checkpoints == old(checkpoints) + 1
      ensures proceed <==> Goes(world, old(checkpoints))
      ensures allowance == if proceed then chunk else 0
      ensures if old(b.points) > 0 && !world.cancelled(old(checkpoints)) && world.overdue(old(checkpoints))
        then b.log == [] && flushes == old(flushes) + 1 else b.log == old(b.log) && flushes == old(flushes)
    {
      var n := checkpoints;
      if world.cancelled(n) {
        checkpoints := n + 1;
        return false;
      }
      FlushOverdue();
      if world.limiterFails(n) {
        return false;
      }
      allowance := chunk;
      granted := granted + chunk;
      return true;
    }

    /** Sends the request at hand if this checkpoint finds it overdue. */
    method FlushOverdue()
      requires Valid()
      modifies this`totalPoints, this`totalRequests, this`checkpoints, this`flushes, this`batches, b
      ensures Valid() && checkpoints == old(checkpoints) + 1
      ensures if old(b.points) > 0 && world.overdue(old(checkpoints))
        then b.log == [] && flushes == old(flushes) + 1 else b.log == old(b.log) && flushes == old(flushes)
    {
      if b.points > 0 && world.overdue(checkpoints) {
        var _, _ := Flush(Stale(checkpoints));
      }
      checkpoints := checkpoints + 1;
    }
  }

  /** At any time between two points of a run and at its end, what the calls so far generate is, in
      order, what was flushed followed by what is in the builder; so points generated are points
      delivered, dropped, or still in the builder, and those delivered are the points of the
      requests the world took. */
  lemma {:induction false} WorkerConserves(w: Worker)
    requires w.Accounted()
    ensures Generated(w.b.c, w.metrics, w.script, w.made) == PointsIn(w.batches) + w.b.log
    ensures |Generated(w.b.c, w.metrics, w.script, w.made)| ==
      w.totalPoints + CountPoints(w.batches, false) + w.b.points
    ensures w.totalPoints == PointsTaken(w.batches, w.world)
  {
    FollowsGenerated(w.b.c, w.metrics, w.script, w.appended, w.made);
    DeliveredOrNot(w.batches);
    TakenAreDelivered(w.batches, w.pointsPerRequest, w.world);
  }
}
