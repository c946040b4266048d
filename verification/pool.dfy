/** The fixed-size pool of reusable blocks, with retirement of blocks after so many uses.

    Acquire and Release are used by many goroutines at once.  A release is several atomic
    steps - count the use under the lock, bump the retirement total, register a replacement
    under the lock, send to the channel - and steps of different releases interleave. */
module BlockPools {

  /** Blocks are told apart by identity; a new one is one never seen before. */
  type Block = nat

  /** The pool, and the releases under way.  All that a release remembers between its steps is
      which block it is about to return, so releases are told apart by nothing else. */
  datatype State = State(
    size: nat,
    retireAfter: nat,      // 0 = blocks are never retired
    pool: seq<Block>,      // the channel, oldest first
    held: set<Block>,      // acquired and not yet released
    evicted: nat,          // releases whose block was struck off but is not in the total yet
    replacing: nat,        // releases that are in the total but have no replacement registered yet
    returning: set<Block>, // blocks about to be sent to the channel
    uses: map<Block, nat>,
    retired: nat,
    next: Block,           // no block from here on has been created
    counted: nat           // uses counted so far
  )

  datatype Action = Acquire | Release(block: Block) | Count | Register | Send(block: Block)

  function Initial(size: nat, retireAfter: nat): State {
    State(size, retireAfter, Created(size), {}, 0, 0, {}, map b: Block | b in Created(size) :: 0, 0, size, 0)
  }

  function Created(size: nat): (blocks: seq<Block>)
    ensures |blocks| == size && forall i :: 0 <= i < size ==> blocks[i] == i
  {
    seq(size, i requires i >= 0 => i)
  }

  /** Counting one use of a block: it is struck off when it has served often enough. */
  function CountUse(s: State, b: Block): State {
    var n := (if b in s.uses then s.uses[b] else 0) + 1;
    if n >= s.retireAfter then
      s.(uses := s.uses - {b}, evicted := s.evicted + 1, counted := s.counted + 1)
    else
      s.(uses := s.uses[b := n], returning := s.returning + {b}, counted := s.counted + 1)
  }

  predicate Enabled(s: State, a: Action) {
    match a
    case Acquire => s.pool != []
    case Release(b) => b in s.held
    case Count => s.evicted > 0
    case Register => s.replacing > 0
    case Send(b) => b in s.returning && |s.pool| < s.size
  }

  function Step(s: State, a: Action): State
    requires Enabled(s, a)
  {
    match a
    case Acquire => s.(pool := s.pool[1..], held := s.held + {s.pool[0]})
    case Release(b) =>
      var s := s.(held := s.held - {b});
      if s.retireAfter > 0 then CountUse(s, b) else s.(returning := s.returning + {b})
    case Count => s.(evicted := s.evicted - 1, retired := s.retired + 1, replacing := s.replacing + 1)
    case Register =>
      s.(replacing := s.replacing - 1, uses := s.uses[s.next := 0], returning := s.returning + {s.next},
        next := s.next + 1)
    case Send(b) => s.(returning := s.returning - {b}, pool := s.pool + [b])
  }

  /** The state after an interleaving; steps that are not enabled wait. */
  function Run(s: State, actions: seq<Action>): State
    decreases |actions|
  {
    if actions == [] then s
    else
      var before := Run(s, actions[..|actions| - 1]);
      var a := actions[|actions| - 1];
      if Enabled(before, a) then Step(before, a) else before
  }

  // Counting

  ghost function UseSum(uses: map<Block, nat>): nat {
    if uses == map[] then 0
    else
      var b :| b in uses;
      uses[b] + UseSum(uses - {b})
  }

  lemma {:induction false} UseSumTake(uses: map<Block, nat>, b: Block)
    requires b in uses
    ensures UseSum(uses) == uses[b] + UseSum(uses - {b})
    decreases |uses|
  {
    var c :| c in uses && UseSum(uses) == uses[c] + UseSum(uses - {c});
    if b != c {
      UseSumTake(uses - {c}, b);
      UseSumTake(uses - {b}, c);
      assert uses - {c} - {b} == uses - {b} - {c};
    }
  }

  lemma {:induction false} UseSumPut(uses: map<Block, nat>, b: Block, n: nat)
    ensures UseSum(uses[b := n]) == n + UseSum(uses - {b})
  {
    UseSumTake(uses[b := n], b);
    assert uses[b := n] - {b} == uses - {b};
  }

  lemma {:induction false} UseSumZero(uses: map<Block, nat>)
    requires forall b :: b in uses ==> uses[b] == 0
    ensures UseSum(uses) == 0
    decreases |uses|
  {
    if uses != map[] {
      var b :| b in uses;
      UseSumTake(uses, b);
      UseSumZero(uses - {b});
    }
  }

  // What every interleaving keeps

  ghost predicate Live(s: State, b: Block) {
    b in s.pool || b in s.held || b in s.returning
  }

  /** No block is in two places, and none is there that was not created. */
  ghost predicate Distinct(s: State) {
    && (forall i, j :: 0 <= i < j < |s.pool| ==> s.pool[i] != s.pool[j])
    && (forall b :: b in s.pool ==> b !in s.held && b !in s.returning)
    && s.held !! s.returning
    && (forall b: Block :: Live(s, b) ==> b < s.next)
  }

  /** Every block is in the pool, held by a client, or in a release under way. */
  ghost predicate Conserved(s: State) {
    |s.pool| + |s.held| + |s.returning| + s.evicted + s.replacing == s.size
  }

  /** With retirement on, uses are on record for exactly the blocks there are, each below the
      limit, and every use ever counted is either on record or went into a retirement. */
  ghost predicate Accounted(s: State) {
    s.retireAfter > 0 ==>
      && (forall b: Block :: b in s.uses <==> Live(s, b))
      && (forall b :: b in s.uses ==> s.uses[b] < s.retireAfter)
      && s.counted == s.retireAfter * (s.retired + s.evicted) + UseSum(s.uses)
  }

  ghost predicate Inv(s: State) {
    Distinct(s) && Conserved(s) && Accounted(s)
  }

  lemma {:induction false} OneMoreOrLess(blocks: set<Block>, b: Block)
    ensures b !in blocks ==> |blocks + {b}| == |blocks| + 1
    ensures b in blocks ==> |blocks - {b}| == |blocks| - 1
  {
  }

  lemma {:induction false} StepKeepsConserved(s: State, a: Action)
    requires Inv(s) && Enabled(s, a)
    ensures Conserved(Step(s, a))
  {
    match a
    case Acquire =>
      assert s.pool[0] in s.pool;
      AcquireKeepsConserved(s);
    case Release(b) => ReleaseKeepsConserved(s, b);
    case Count =>
    case Register =>
      assert !Live(s, s.next);
      OneMoreOrLess(s.returning, s.next);
    case Send(b) => OneMoreOrLess(s.returning, b);
  }

  lemma {:induction false} AcquireKeepsConserved(s: State)
    requires Conserved(s) && s.pool != [] && s.pool[0] !in s.held
    ensures Conserved(Step(s, Acquire))
  {
    OneMoreOrLess(s.held, s.pool[0]);
  }

  lemma {:induction false} ReleaseKeepsConserved(s: State, b: Block)
    requires Conserved(s) && b in s.held && b !in s.returning
    ensures Conserved(Step(s, Release(b)))
  {
    OneMoreOrLess(s.held, b);
    OneMoreOrLess(s.returning, b);
  }

  lemma {:induction false} StepKeepsDistinct(s: State, a: Action)
    requires Inv(s) && Enabled(s, a)
    ensures Distinct(Step(s, a))
  {
    match a
    case Acquire => AcquireKeepsDistinct(s);
    case Release(b) => ReleaseKeepsLive(s, b);
    case Count =>
      var s' := Step(s, a);
      assert forall b: Block :: Live(s', b) ==> Live(s, b);
    case Register => RegisterKeepsDistinct(s);
    case Send(b) => SendKeepsDistinct(s, b);
  }

  lemma {:induction false} AcquireKeepsDistinct(s: State)
    requires Inv(s) && Enabled(s, Acquire)
    ensures Distinct(Step(s, Acquire))
  {
    var s', b := Step(s, Acquire), s.pool[0];
    assert s.pool == [b] + s'.pool;
    assert b in s.pool && b !in s'.pool;
    assert forall c: Block :: Live(s', c) ==> Live(s, c);
  }

  lemma {:induction false} RegisterKeepsDistinct(s: State)
    requires Inv(s) && Enabled(s, Register)
    ensures Distinct(Step(s, Register))
  {
    var s' := Step(s, Register);
    assert !Live(s, s.next);
    assert forall b: Block :: Live(s', b) ==> Live(s, b) || b == s.next;
  }

  lemma {:induction false} SendKeepsDistinct(s: State, b: Block)
    requires Inv(s) && Enabled(s, Send(b))
    ensures Distinct(Step(s, Send(b)))
  {
    var s' := Step(s, Send(b));
    assert forall c: Block :: Live(s', c) ==> Live(s, c);
  }

  lemma {:induction false} ReleaseKeepsLive(s: State, b: Block)
    requires Enabled(s, Release(b))
    ensures var s' := Step(s, Release(b));
      && s'.pool == s.pool && s'.next == s.next && s'.held == s.held - {b}
      && (s'.returning == s.returning || s'.returning == s.returning + {b})
      && forall c: Block :: Live(s', c) ==> Live(s, c)
  {
  }

  lemma {:induction false} CountUseAccounted(s: State, b: Block)
    requires Inv(s) && s.retireAfter > 0 && b in s.held
    ensures Accounted(CountUse(s.(held := s.held - {b}), b))
  {
    assert Live(s, b);
    var before := s.(held := s.held - {b});
    var s' := CountUse(before, b);
    LiveAfterUse(s, b);
    UsesAfterUse(s, b);
    assert forall c: Block :: c in s'.uses <==> Live(s', c);
  }

  /** Counting a use strikes off the block that is gone, and no other. */
  lemma {:induction false} LiveAfterUse(s: State, b: Block)
    requires Distinct(s) && b in s.held && b in s.uses
    ensures var s' := CountUse(s.(held := s.held - {b}), b);
      forall c: Block :: Live(s', c) <==> Live(s, c) && (c == b ==> s.uses[b] + 1 < s.retireAfter)
  {
  }

  lemma {:induction false} UsesAfterUse(s: State, b: Block)
    requires Accounted(s) && s.retireAfter > 0 && b in s.uses
    ensures var s' := CountUse(s.(held := s.held - {b}), b);
      && (forall c: Block :: c in s'.uses <==> c in s.uses && (c == b ==> s.uses[b] + 1 < s.retireAfter))
      && (forall c :: c in s'.uses ==> s'.uses[c] < s.retireAfter)
      && s'.counted == s.retireAfter * (s'.retired + s'.evicted) + UseSum(s'.uses)
  {
    UseSumTake(s.uses, b);
    UseSumPut(s.uses, b, s.uses[b] + 1);
    Retirement(s.retireAfter, s.retired + s.evicted);
  }

  lemma {:induction false} Retirement(retireAfter: nat, n: nat)
    ensures retireAfter * (n + 1) == retireAfter * n + retireAfter
  {
  }

  lemma {:induction false} StepKeepsAccounted(s: State, a: Action)
    requires Inv(s) && Enabled(s, a)
    ensures Accounted(Step(s, a))
  {
    if s.retireAfter > 0 {
      match a
      case Acquire => SameBlocks(s, Step(s, a));
      case Release(b) => CountUseAccounted(s, b);
      case Count =>
      case Register => RegisterAccounted(s);
      case Send(b) => SameBlocks(s, Step(s, a));
    }
  }

  /** Moving blocks about changes nothing. */
  lemma {:induction false} SameBlocks(s: State, s': State)
    requires Accounted(s)
    requires s'.uses == s.uses && s'.counted == s.counted && s'.retired == s.retired && s'.evicted == s.evicted
    requires s'.retireAfter == s.retireAfter && forall b: Block :: Live(s', b) <==> Live(s, b)
    ensures Accounted(s')
  {
  }

  lemma {:induction false} RegisterAccounted(s: State)
    requires Distinct(s) && Accounted(s) && s.retireAfter > 0 && s.replacing > 0
    ensures Accounted(Step(s, Register))
  {
    assert !Live(s, s.next);
    UseSumPut(s.uses, s.next, 0);
    assert s.uses - {s.next} == s.uses;
    var s' := Step(s, Register);
    assert forall b: Block :: Live(s', b) <==> Live(s, b) || b == s.next;
  }

  lemma {:induction false} InitialInv(size: nat, retireAfter: nat)
    ensures Inv(Initial(size, retireAfter))
  {
    UseSumZero(Initial(size, retireAfter).uses);
  }

  /** Under every interleaving of acquires and releases: blocks in the pool, held, and in
      releases under way always number the pool size and are all different, and the use
      counts add up. */
  lemma {:induction false} PoolIsConserved(size: nat, retireAfter: nat, actions: seq<Action>)
    ensures var s := Run(Initial(size, retireAfter), actions);
      Inv(s) && s.size == size && s.retireAfter == retireAfter
  {
    if actions == [] {
      InitialInv(size, retireAfter);
    } else {
      var before := actions[..|actions| - 1];
      PoolIsConserved(size, retireAfter, before);
      var s, a := Run(Initial(size, retireAfter), before), actions[|actions| - 1];
      StepKeepsInv(s, a);
    }
  }

  /** A release never waits on the channel: whenever one has a block to send, there is room. */
  lemma {:induction false} SendNeverBlocks(size: nat, retireAfter: nat, actions: seq<Action>, b: Block)
    ensures var s := Run(Initial(size, retireAfter), actions);
      b in s.returning ==> Enabled(s, Send(b))
  {
    PoolIsConserved(size, retireAfter, actions);
    var s := Run(Initial(size, retireAfter), actions);
    assert b in s.returning ==> |s.returning| > 0;
  }

  /** When no release is under way, the uses counted are exactly the retirements times the
      limit plus the uses on record, and every block is in the pool or held. */
  lemma {:induction false} QuietAccounting(size: nat, retireAfter: nat, actions: seq<Action>)
    ensures var s := Run(Initial(size, retireAfter), actions);
      s.evicted == s.replacing == 0 && s.returning == {} ==>
        && |s.pool| + |s.held| == size
        && (retireAfter > 0 ==> s.counted == retireAfter * s.retired + UseSum(s.uses))
  {
    PoolIsConserved(size, retireAfter, actions);
    var s := Run(Initial(size, retireAfter), actions);
    assert s.evicted == 0 ==> s.retired + s.evicted == s.retired;
  }

  // What becomes of one block

  /** A released block goes back to the pool itself, unless it has served often enough; then it is
      struck off. */
  lemma {:induction false} ReleaseFate(s: State, b: Block)
    requires Inv(s) && b in s.held
    ensures var s' := Step(s, Release(b));
      if s.retireAfter == 0 || (b in s.uses && s.uses[b] + 1 < s.retireAfter) then
        && s'.returning == s.returning + {b} && s'.evicted == s.evicted
        && (s.retireAfter > 0 ==> s'.uses == s.uses[b := s.uses[b] + 1])
      else !Live(s', b) && s'.returning == s.returning && s'.evicted == s.evicted + 1 && s'.uses == s.uses - {b}
  {
    assert Live(s, b);
  }

  /** ... and never comes back: no run has a block again that was struck off. */
  lemma {:induction false} GoneForGood(s: State, actions: seq<Action>, b: Block)
    requires Inv(s) && b < s.next && !Live(s, b)
    ensures var s' := Run(s, actions); Inv(s') && s'.next >= s.next && !Live(s', b)
  {
    if actions != [] {
      var before, a := actions[..|actions| - 1], actions[|actions| - 1];
      GoneForGood(s, before, b);
      StepKeepsInv(Run(s, before), a);
      if Enabled(Run(s, before), a) {
        StaysGone(Run(s, before), a, b);
      }
    }
  }

  lemma {:induction false} StepKeepsInv(s: State, a: Action)
    requires Inv(s)
    ensures Enabled(s, a) ==> Inv(Step(s, a))
  {
    if Enabled(s, a) {
      StepKeepsConserved(s, a);
      StepKeepsDistinct(s, a);
      StepKeepsAccounted(s, a);
    }
  }

  lemma {:induction false} StaysGone(s: State, a: Action, b: Block)
    requires Inv(s) && Enabled(s, a) && b < s.next && !Live(s, b)
    ensures Step(s, a).next >= s.next && !Live(Step(s, a), b)
  {
    match a
    case Acquire => assert s.pool[0] in s.pool;
    case Release(c) => ReleaseKeepsLive(s, c);
    case _ =>
  }

  /** How often a block is released over an interleaving. */
  ghost function Releases(s: State, actions: seq<Action>, b: Block): nat {
    if actions == [] then 0
    else
      var before, a := actions[..|actions| - 1], actions[|actions| - 1];
      Releases(s, before, b) + if a == Release(b) && Enabled(Run(s, before), a) then 1 else 0
  }

  /** A block's uses are those on record until it is struck off, and retireAfter from then on. */
  ghost function UsesOf(s: State, b: Block): nat {
    if b >= s.next then 0 else if b in s.uses then s.uses[b] else s.retireAfter
  }

  /** Every block serves exactly retireAfter times: under every interleaving its releases are the
      uses on record while there is such a block, and retireAfter once it is retired. */
  lemma {:induction false} ServesExactly(size: nat, retireAfter: nat, actions: seq<Action>, b: Block)
    requires retireAfter > 0
    ensures var s := Run(Initial(size, retireAfter), actions);
      && Releases(Initial(size, retireAfter), actions, b) == UsesOf(s, b)
      && (Live(s, b) ==> UsesOf(s, b) < retireAfter)
  {
    PoolIsConserved(size, retireAfter, actions);
    if actions == [] {
      assert b < size ==> Created(size)[b] == b;
    } else {
      var before, a := actions[..|actions| - 1], actions[|actions| - 1];
      ServesExactly(size, retireAfter, before, b);
      PoolIsConserved(size, retireAfter, before);
      var s := Run(Initial(size, retireAfter), before);
      if Enabled(s, a) {
        UsesOfStep(s, a, b);
      }
    }
  }

  lemma {:induction false} UsesOfStep(s: State, a: Action, b: Block)
    requires Inv(s) && s.retireAfter > 0 && Enabled(s, a)
    ensures UsesOf(Step(s, a), b) == UsesOf(s, b) + if a == Release(b) then 1 else 0
  {
    match a
    case Release(c) => assert Live(s, c);
    case Register => assert !Live(s, s.next);
    case _ =>
  }

  /** With retirement off the blocks are always those of the beginning, and none is ever retired. */
  lemma {:induction false} NeverRetires(size: nat, actions: seq<Action>)
    ensures var s := Run(Initial(size, 0), actions);
      && s.retired == s.evicted == s.replacing == 0 && s.next == size
      && forall b: Block :: Live(s, b) <==> b < size
  {
    if actions == [] {
      forall b: Block
        ensures b in Created(size) <==> b < size
      {
        assert b < size ==> Created(size)[b] == b;
      }
    } else {
      var before, a := actions[..|actions| - 1], actions[|actions| - 1];
      NeverRetires(size, before);
      PoolIsConserved(size, 0, before);
      var s := Run(Initial(size, 0), before);
      if Enabled(s, a) {
        SameLive(s, a);
      }
    }
  }

  lemma {:induction false} SameLive(s: State, a: Action)
    requires s.retireAfter == 0 && s.evicted == s.replacing == 0 && Enabled(s, a)
    ensures forall b: Block :: Live(Step(s, a), b) <==> Live(s, b)
  {
    if a.Acquire? {
      assert s.pool == [s.pool[0]] + s.pool[1..];
    }
  }

  // The order blocks come in

  /** The block a step sends to the channel, and the one it takes from it. */
  function SentBy(s: State, a: Action): seq<Block> {
    if a.Send? && Enabled(s, a) then [a.block] else []
  }

  function TakenBy(s: State, a: Action): seq<Block> {
    if a.Acquire? && Enabled(s, a) then [s.pool[0]] else []
  }

  ghost function Sent(s: State, actions: seq<Action>): seq<Block> {
    if actions == [] then []
    else
      var before := actions[..|actions| - 1];
      Sent(s, before) + SentBy(Run(s, before), actions[|actions| - 1])
  }

  ghost function Taken(s: State, actions: seq<Action>): seq<Block> {
    if actions == [] then []
    else
      var before := actions[..|actions| - 1];
      Taken(s, before) + TakenBy(Run(s, before), actions[|actions| - 1])
  }

  /** First in, first out: what has been taken and what is in the pool is, in order, what was in it
      at first and what has been sent since. */
  lemma {:induction false} FirstInFirstOut(s: State, actions: seq<Action>)
    ensures Taken(s, actions) + Run(s, actions).pool == s.pool + Sent(s, actions)
  {
    if actions == [] {
      assert [] + s.pool == s.pool + [];
    } else {
      var before, a := actions[..|actions| - 1], actions[|actions| - 1];
      var now := Run(s, before);
      FirstInFirstOut(s, before);
      StepInOut(now, a);
      Chain(Taken(s, before), now.pool, s.pool, Sent(s, before), TakenBy(now, a), Run(s, actions).pool, SentBy(now, a));
    }
  }

  lemma {:induction false} StepInOut(s: State, a: Action)
    ensures TakenBy(s, a) + (if Enabled(s, a) then Step(s, a).pool else s.pool) == s.pool + SentBy(s, a)
  {
  }

  lemma {:induction false} Chain<T>(a: seq<T>, b: seq<T>, p: seq<T>, q: seq<T>, t: seq<T>, b': seq<T>, u: seq<T>)
    requires a + b == p + q && t + b' == b + u
    ensures (a + t) + b' == p + (q + u)
  {
    assert (a + t) + b' == a + (t + b') == (a + b) + u;
  }
}
