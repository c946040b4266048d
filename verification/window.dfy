/** The sliding window behind the read-rate limiter: a ring buffer of recent reads with a
    running byte total, against the plain log of everything ever added. */
module SlidingWindows {
  import Sweeps

  /** One read; times are points on a monotonic clock. */
  datatype Read = Read(time: int, bytes: nat)

  function Bytes(s: seq<Read>): nat {
    BytesBefore(s, |s|)
  }

  function BytesBefore(s: seq<Read>, n: nat): nat
    requires n <= |s|
  {
    if n == 0 then 0 else BytesBefore(s, n - 1) + s[n - 1].bytes
  }

  /** Times never go back. */
  ghost predicate InOrder(log: seq<Read>) {
    InOrderUpTo(log, |log|)
  }

  ghost predicate InOrderUpTo(log: seq<Read>, n: nat)
    requires n <= |log|
  {
    n < 2 || (InOrderUpTo(log, n - 1) && log[n - 2].time <= log[n - 1].time)
  }

  lemma {:induction false} Ordered(log: seq<Read>, n: nat, i: nat, j: nat)
    requires n <= |log| && InOrderUpTo(log, n) && i <= j < n
    ensures log[i].time <= log[j].time
  {
    if j < n - 1 {
      Ordered(log, n - 1, i, j);
    } else if i < j {
      Ordered(log, n - 1, i, j - 1);
    }
  }

  lemma {:induction false} OrderPrefix(a: seq<Read>, b: seq<Read>, n: nat)
    requires n <= |a| && a <= b
    ensures InOrderUpTo(a, n) == InOrderUpTo(b, n)
  {
    if n >= 2 {
      OrderPrefix(a, b, n - 1);
    }
  }

  /** How many of the first n reads are recent: counted from the newest, at most capacity of them
      and none older than the cutoff. */
  function RecentCount(log: seq<Read>, n: nat, capacity: nat, cutoff: int): (count: nat)
    requires n <= |log|
    ensures count <= n && count <= capacity
  {
    if n == 0 || capacity == 0 || log[n - 1].time < cutoff then 0
    else RecentCount(log, n - 1, capacity - 1, cutoff) + 1
  }

  /** The newest reads of a log: at most capacity of them, none older than the cutoff. */
  function Recent(log: seq<Read>, capacity: nat, cutoff: int): seq<Read> {
    RecentOf(log, |log|, capacity, cutoff)
  }

  /** The newest of its first n reads. */
  function RecentOf(log: seq<Read>, n: nat, capacity: nat, cutoff: int): seq<Read>
    requires n <= |log|
  {
    if n == 0 || capacity == 0 || log[n - 1].time < cutoff then []
    else RecentOf(log, n - 1, capacity - 1, cutoff) + [log[n - 1]]
  }

  // Facts about Recent

  lemma {:induction false} RecentOfIs(log: seq<Read>, n: nat, capacity: nat, cutoff: int)
    requires n <= |log|
    ensures var r := RecentOf(log, n, capacity, cutoff);
      |r| == RecentCount(log, n, capacity, cutoff) && forall i :: 0 <= i < |r| ==> r[i] == log[n - |r| + i]
  {
    if n > 0 && capacity > 0 && log[n - 1].time >= cutoff {
      RecentOfIs(log, n - 1, capacity - 1, cutoff);
    }
  }

  lemma {:induction false} CountedAreRecent(log: seq<Read>, n: nat, capacity: nat, cutoff: int)
    requires n <= |log|
    ensures forall i :: n - RecentCount(log, n, capacity, cutoff) <= i < n ==> log[i].time >= cutoff
  {
    if n > 0 && capacity > 0 && log[n - 1].time >= cutoff {
      CountedAreRecent(log, n - 1, capacity - 1, cutoff);
    }
  }

  /** The recent reads are the end of the log, and none of them is too old. */
  lemma {:induction false} RecentIsSuffix(log: seq<Read>, capacity: nat, cutoff: int)
    ensures var r := Recent(log, capacity, cutoff);
      |r| <= |log| && |r| <= capacity && r == log[|log| - |r|..] && forall i :: 0 <= i < |r| ==> r[i].time >= cutoff
  {
    CountedAreRecent(log, |log|, capacity, cutoff);
    RecentOfIs(log, |log|, capacity, cutoff);
  }

  /** Nothing was left out: every read before the recent ones is too old or one too many. */
  lemma {:induction false} RecentIsMaximal(log: seq<Read>, capacity: nat, cutoff: int)
    requires InOrder(log)
    ensures var n := |Recent(log, capacity, cutoff)|;
      n < |log| && n < capacity ==> forall i :: 0 <= i < |log| - n ==> log[i].time < cutoff
  {
    RecentOfIs(log, |log|, capacity, cutoff);
    CountIsMaximal(log, |log|, capacity, cutoff);
  }

  lemma {:induction false} CountIsMaximal(log: seq<Read>, n: nat, capacity: nat, cutoff: int)
    requires n <= |log| && InOrderUpTo(log, n)
    ensures var c := RecentCount(log, n, capacity, cutoff);
      c < n && c < capacity ==> forall i :: 0 <= i < n - c ==> log[i].time < cutoff
  {
    if n > 0 && capacity > 0 && log[n - 1].time >= cutoff {
      CountIsMaximal(log, n - 1, capacity - 1, cutoff);
    } else if n > 0 && capacity > 0 {
      forall i | 0 <= i < n
        ensures log[i].time < cutoff
      {
        Ordered(log, n, i, n - 1);
      }
    }
  }

  lemma {:induction false} CountDrops(log: seq<Read>, n: nat, capacity: nat, cutoff: int, later: int, d: nat)
    requires n <= |log| && InOrderUpTo(log, n) && cutoff <= later && d <= RecentCount(log, n, capacity, cutoff)
    requires var oldest := n - RecentCount(log, n, capacity, cutoff);
      (forall i :: oldest <= i < oldest + d ==> log[i].time < later) &&
      (oldest + d < n ==> log[oldest + d].time >= later)
    ensures RecentCount(log, n, capacity, later) == RecentCount(log, n, capacity, cutoff) - d
  {
    var c := RecentCount(log, n, capacity, cutoff);
    if d < c {
      Ordered(log, n, n - c + d, n - 1);
      CountDrops(log, n - 1, capacity - 1, cutoff, later, d);
    } else if c > 0 {
      assert log[n - 1].time < later;
    }
  }

  /** What the reads of r before a limit are: the first d. */
  ghost predicate DropsFirst(r: seq<Read>, limit: int, d: nat) {
    d <= |r| && (forall i :: 0 <= i < d ==> r[i].time < limit) && (d < |r| ==> r[d].time >= limit)
  }

  /** Dropping the reads before any limit gives the recent ones of the later of the two. */
  lemma {:induction false} RecentDrops(log: seq<Read>, capacity: nat, cutoff: int, limit: int, d: nat)
    requires InOrder(log) && DropsFirst(Recent(log, capacity, cutoff), limit, d)
    ensures Recent(log, capacity, Later(cutoff, limit)) == Recent(log, capacity, cutoff)[d..]
  {
    if cutoff < limit {
      LaterDrops(log, capacity, cutoff, limit, d);
    } else {
      var r := Recent(log, capacity, cutoff);
      RecentIsSuffix(log, capacity, cutoff);
      assert |r| > 0 ==> r[0].time >= limit;
      assert d == 0 && r[0..] == r;
    }
  }

  lemma {:induction false} LaterDrops(log: seq<Read>, capacity: nat, cutoff: int, limit: int, d: nat)
    requires InOrder(log) && cutoff < limit && DropsFirst(Recent(log, capacity, cutoff), limit, d)
    ensures Recent(log, capacity, limit) == Recent(log, capacity, cutoff)[d..]
  {
    var r, r' := Recent(log, capacity, cutoff), Recent(log, capacity, limit);
    RecentIsTail(log, capacity, cutoff);
    RecentIsTail(log, capacity, limit);
    CountAfterDrop(log, r, capacity, cutoff, limit, d);
    TailOfTail(log, r, r', d);
  }

  lemma {:induction false} CountAfterDrop(
    log: seq<Read>, r: seq<Read>, capacity: nat, cutoff: int, limit: int, d: nat)
    requires InOrder(log) && cutoff < limit && IsTail(log, r) && DropsFirst(r, limit, d)
    requires |r| == RecentCount(log, |log|, capacity, cutoff)
    ensures RecentCount(log, |log|, capacity, limit) == |r| - d
  {
    TimesAt(log, r, limit, d);
    CountDrops(log, |log|, capacity, cutoff, limit, d);
  }

  lemma {:induction false} RecentIsTail(log: seq<Read>, capacity: nat, cutoff: int)
    ensures var r := Recent(log, capacity, cutoff);
      IsTail(log, r) && |r| == RecentCount(log, |log|, capacity, cutoff)
  {
    RecentOfIs(log, |log|, capacity, cutoff);
  }

  ghost predicate IsTail(log: seq<Read>, r: seq<Read>) {
    |r| <= |log| && forall i :: 0 <= i < |r| ==> r[i] == log[|log| - |r| + i]
  }

  lemma {:induction false} TailOfTail(log: seq<Read>, r: seq<Read>, r': seq<Read>, d: nat)
    requires IsTail(log, r) && IsTail(log, r') && |r'| + d == |r|
    ensures r' == r[d..]
  {
  }

  lemma {:induction false} TimesAt(log: seq<Read>, r: seq<Read>, limit: int, d: nat)
    requires IsTail(log, r) && DropsFirst(r, limit, d)
    ensures var oldest := |log| - |r|;
      (forall i :: oldest <= i < oldest + d ==> log[i].time < limit) &&
      (oldest + d < |log| ==> log[oldest + d].time >= limit)
  {
    var oldest := |log| - |r|;
    forall i | oldest <= i < oldest + d
      ensures log[i].time < limit
    {
      assert r[i - oldest] == log[oldest + (i - oldest)];
    }
  }

  /** Of reads that are all before the cutoff none is recent. */
  lemma {:induction false} AllGone(log: seq<Read>, capacity: nat, cutoff: int)
    requires log != [] ==> log[|log| - 1].time < cutoff
    ensures Recent(log, capacity, cutoff) == []
  {
  }

  lemma {:induction false} OnlyOne(read: Read, capacity: nat, cutoff: int)
    requires capacity > 0 && read.time >= cutoff
    ensures Recent([read], capacity, cutoff) == [read]
  {
    assert RecentOf([read], 0, capacity - 1, cutoff) == [];
  }

  function Later(a: int, b: int): int {
    if a >= b then a else b
  }

  lemma {:induction false} RecentPrefix(a: seq<Read>, b: seq<Read>, n: nat, capacity: nat, cutoff: int)
    requires n <= |a| && a <= b
    ensures RecentOf(a, n, capacity, cutoff) == RecentOf(b, n, capacity, cutoff)
  {
    if n > 0 && capacity > 0 {
      RecentPrefix(a, b, n - 1, capacity - 1, cutoff);
    }
  }

  lemma {:induction false} OneLess(log: seq<Read>, n: nat, capacity: nat, cutoff: int)
    requires capacity > 0 && n <= |log|
    ensures var r := RecentOf(log, n, capacity, cutoff);
      |r| <= capacity && RecentOf(log, n, capacity - 1, cutoff) == if |r| == capacity then r[1..] else r
  {
    RecentOfIs(log, n, capacity, cutoff);
    if n > 0 && log[n - 1].time >= cutoff && capacity > 1 {
      OneLess(log, n - 1, capacity - 1, cutoff);
    }
  }

  /** A new read joins the recent ones, pushing out the oldest when they are full. */
  lemma {:induction false} RecentAdds(log: seq<Read>, capacity: nat, cutoff: int, read: Read)
    requires capacity > 0 && read.time >= cutoff
    ensures var r := Recent(log, capacity, cutoff);
      Recent(log + [read], capacity, cutoff) == (if |r| == capacity then r[1..] else r) + [read]
  {
    RecentPrefix(log, log + [read], |log|, capacity - 1, cutoff);
    OneLess(log, |log|, capacity, cutoff);
  }

  lemma {:induction false} OrderExtends(log: seq<Read>, read: Read)
    requires InOrder(log) && (log != [] ==> log[|log| - 1].time <= read.time)
    ensures InOrder(log + [read])
  {
    OrderPrefix(log, log + [read], |log|);
  }

  lemma {:induction false} BytesFrontBefore(s: seq<Read>, n: nat)
    requires 0 < n <= |s|
    ensures BytesBefore(s, n) == s[0].bytes + BytesBefore(s[1..], n - 1)
  {
    if n > 1 {
      BytesFrontBefore(s, n - 1);
    }
  }

  lemma {:induction false} BytesFront(s: seq<Read>)
    requires s != []
    ensures Bytes(s) == s[0].bytes + Bytes(s[1..])
  {
    BytesFrontBefore(s, |s|);
  }

  lemma {:induction false} BytesPrefix(a: seq<Read>, b: seq<Read>, n: nat)
    requires n <= |a| && a <= b
    ensures BytesBefore(a, n) == BytesBefore(b, n)
  {
    if n > 0 {
      BytesPrefix(a, b, n - 1);
    }
  }

  lemma {:induction false} BytesBack(s: seq<Read>, read: Read)
    ensures Bytes(s + [read]) == Bytes(s) + read.bytes
  {
    BytesPrefix(s, s + [read], |s|);
  }

  // The ring

  /** Positions past the end of a ring continue at its start. */
  function Wrap(x: nat, size: nat): nat {
    if x < size then x else x - size
  }

  /** The remainder the code takes is a single wrap, because no position passes the end twice. */
  lemma {:induction false} WrapIsRemainder(x: nat, size: nat)
    requires size > 0 && x < 2 * size
    ensures Wrap(x, size) == x % size < size
  {
    Sweeps.QuotientIs(x, size, if x < size then 0 else 1, Wrap(x, size));
  }

  /** count entries of a ring from head on. */
  function Ring<T>(s: seq<T>, head: nat, count: nat): (ring: seq<T>)
    requires head < |s| && count <= |s|
    ensures |ring| == count
    ensures forall i :: 0 <= i < count ==> ring[i] == s[Wrap(head + i, |s|)]
  {
    seq(count, i requires 0 <= i < count => s[Wrap(head + i, |s|)])
  }

  lemma {:induction false} RingDrop<T>(s: seq<T>, head: nat, count: nat)
    requires head < |s| && 0 < count <= |s|
    ensures Wrap(head + 1, |s|) < |s|
    ensures Ring(s, Wrap(head + 1, |s|), count - 1) == Ring(s, head, count)[1..]
    ensures Wrap(Wrap(head + 1, |s|) + (count - 1), |s|) == Wrap(head + count, |s|)
  {
  }

  lemma {:induction false} RingInsert<T>(s: seq<T>, head: nat, count: nat, x: T)
    requires head < |s| && count < |s|
    ensures Wrap(head + count, |s|) < |s|
    ensures Ring(s[Wrap(head + count, |s|) := x], head, count + 1) == Ring(s, head, count) + [x]
    ensures Wrap(Wrap(head + count, |s|) + 1, |s|) == Wrap(head + (count + 1), |s|)
  {
  }

  /** The ring buffer. */
  class SlidingWindow {
    const entries: array<Read>
    const maxAge: nat
    var head: nat
    var tail: nat
    var count: nat
    var totalBytes: int
    ghost var contents: seq<Read>  // the entries in the buffer, oldest first
    ghost var past: seq<Read>      // what had all gone when a read last came late
    ghost var log: seq<Read>       // everything added since
    ghost var cutoff: int          // how far back the window reaches

    /** The bookkeeping of the ring. */
    ghost predicate Sound()
      reads this, entries
    {
      && head < entries.Length && count <= entries.Length
      && tail == Wrap(head + count, entries.Length)
      && contents == Ring(entries[..], head, count)
      && totalBytes == Bytes(contents)
    }

    /** The buffer holds exactly the recent reads of the log. */
    ghost predicate Valid()
      reads this, entries
    {
      Sound() && InOrder(log) && contents == Recent(log, entries.Length, cutoff)
    }

    /** An empty window, for times from some instant on. */
    constructor (capacity: nat, maxAge: nat, ghost since: int)
      requires capacity > 0
      ensures Valid() && fresh(entries) && entries.Length == capacity && this.maxAge == maxAge
      ensures past == log == [] && cutoff == since - maxAge
    {
      entries := new Read[capacity](_ => Read(0, 0));
      this.maxAge := maxAge;
      head, tail, count, totalBytes, contents := 0, 0, 0, 0, [];
      past, log, cutoff := [], [], since - maxAge;
    }

    /** Takes the oldest entry out of the buffer. */
    method DropOldest()
      requires Sound() && count > 0
      modifies this`head, this`count, this`totalBytes, this`contents
      ensures Sound() && contents == old(contents)[1..] && count == old(count) - 1
    {
      RingDrop(entries[..], head, count);
      BytesFront(contents);
      WrapIsRemainder(head + 1, entries.Length);
      totalBytes := totalBytes - entries[head].bytes;
      head := (head + 1) % entries.Length;
      count := count - 1;
      contents := contents[1..];
    }

    /** Puts a read behind the newest entry of a buffer with room. */
    method Insert(read: Read)
      requires Sound() && count < entries.Length
      modifies this`tail, this`count, this`totalBytes, this`contents, entries
      ensures Sound() && contents == old(contents) + [read]
    {
      RingInsert(entries[..], head, count, read);
      BytesBack(contents, read);
      WrapIsRemainder(tail + 1, entries.Length);
      ghost var before := entries[..];
      entries[tail] := read;
      assert entries[..] == before[tail := read];
      tail := (tail + 1) % entries.Length;
      count := count + 1;
      totalBytes := totalBytes + read.bytes;
      contents := contents + [read];
    }

    /** Drops entries from the front while they are before a limit. */
    method DropBefore(limit: int) returns (ghost d: nat)
      requires Sound()
      modifies this`head, this`count, this`totalBytes, this`contents
      ensures Sound() && DropsFirst(old(contents), limit, d) && contents == old(contents)[d..]
    {
      d := 0;
      while count > 0 && entries[head].time < limit
        invariant Sound() && d <= |old(contents)| && contents == old(contents)[d..]
        invariant forall i :: 0 <= i < d ==> old(contents)[i].time < limit
        decreases count
      {
        assert contents[0] == entries[head];
        DropOldest();
        d := d + 1;
      }
      assert count > 0 ==> contents[0] == entries[head];
    }

    /** Drops every entry older than maxAge.  A clock read before the last cleaning drops nothing
        more. */
    method CleanOldEntries(now: int)
      requires Valid()
      modifies this`head, this`count, this`totalBytes, this`contents, this`cutoff
      ensures Valid() && cutoff == Later(old(cutoff), now - maxAge)
    {
      ghost var d := DropBefore(now - maxAge);
      RecentDrops(log, entries.Length, cutoff, now - maxAge, d);
      cutoff := Later(cutoff, now - maxAge);
    }

    /** Records a read.  Its time may have been taken before another goroutine cleaned up; if even
        the window had moved past it by then, everything before it is gone, and it is all the
        window holds until the next cleaning. */
    method Add(bytes: nat, timestamp: int)
      requires Valid() && (log != [] ==> log[|log| - 1].time <= timestamp)
      modifies this, entries
      ensures Valid() && past + log == old(past + log) + [Read(timestamp, bytes)]
      ensures old(cutoff) <= timestamp ==> past == old(past) && cutoff == Later(old(cutoff), timestamp - maxAge)
      ensures timestamp < old(cutoff) ==>
        old(contents) == [] && contents == log == [Read(timestamp, bytes)] && cutoff == timestamp
    {
      ghost var before := past + log;
      CleanOldEntries(timestamp);
      if timestamp < cutoff {
        AllGone(log, entries.Length, cutoff);
        OnlyOne(Read(timestamp, bytes), entries.Length, timestamp);
        past, log, cutoff := past + log, [], timestamp;
      }
      AddRecent(Read(timestamp, bytes));
      assert past + log == before + [Read(timestamp, bytes)];
    }

    method AddRecent(read: Read)
      requires Valid() && cutoff <= read.time && (log != [] ==> log[|log| - 1].time <= read.time)
      modifies this`head, this`tail, this`count, this`totalBytes, this`contents, this`log, entries
      ensures Valid() && log == old(log) + [read]
    {
      RecentAdds(log, entries.Length, cutoff, read);
      OrderExtends(log, read);
      Push(read);
      log := log + [read];
    }

    /** Makes room if there is none, and puts a read behind the newest entry. */
    method Push(read: Read)
      requires Sound() && entries.Length > 0
      modifies this`head, this`tail, this`count, this`totalBytes, this`contents, entries
      ensures Sound()
      ensures var before := old(contents);
        contents == (if |before| == entries.Length then before[1..] else before) + [read]
    {
      if count == entries.Length {
        DropOldest();
      }
      Insert(read);
    }

    /** The average rate over the recent reads: their bytes by the time since the oldest. */
    method GetRate(now: int) returns (rate: real)
      requires Valid()
      modifies this`head, this`count, this`totalBytes, this`contents, this`cutoff
      ensures Valid() && cutoff == Later(old(cutoff), now - maxAge)
      ensures rate == RateOf(Recent(log, entries.Length, cutoff), now)
    {
      CleanOldEntries(now);
      rate := CurrentRate(now);
    }

    method CurrentRate(now: int) returns (rate: real)
      requires Sound()
      ensures rate == RateOf(contents, now)
    {
      if count == 0 {
        return 0.0;
      }
      var oldest := entries[head].time;
      assert contents[0].time == oldest;
      if now - oldest <= 0 {
        return 0.0;
      }
      rate := totalBytes as real / (now - oldest) as real;
    }
  }

  function RateOf(recent: seq<Read>, now: int): real {
    if recent == [] || now <= recent[0].time then 0.0 else Bytes(recent) as real / (now - recent[0].time) as real
  }
}
