// The voice plumbing of duplex/cascade.go: the bounded ring of samples, and the writer that
// speaks a reply as it is written, up to a silence marker.

/** A bounded queue in an array, with generations. */
module Ring {

  /** The last n elements of s, or all of them. */
  function Last<T>(s: seq<T>, n: nat): (r: seq<T>)
    ensures |r| == if |s| <= n then |s| else n
  {
    if |s| <= n then s else s[|s| - n..]
  }

  lemma LastEnds<T>(s: seq<T>, n: nat)
    ensures s[|s| - |Last(s, n)|..] == Last(s, n)
  {
  }

  /** Position i of a queue that starts at head. */
  function Slot(head: nat, i: nat, capacity: nat): (s: nat)
    requires head < capacity && i <= capacity
    ensures s < capacity && s == (head + i) % capacity
  {
    Wrapped(head + i, capacity);
    if head + i < capacity then head + i else head + i - capacity
  }

  lemma Wrapped(x: nat, capacity: nat)
    requires x < 2 * capacity
    ensures x % capacity == if x < capacity then x else x - capacity
  {
    if x >= capacity {
      assert x == capacity * 1 + (x - capacity);
    }
  }

  /** What a queue that starts at head holds. */
  function Queue<T>(buf: seq<T>, head: nat, n: nat): (q: seq<T>)
    requires head < |buf| && n <= |buf|
    ensures |q| == n && forall i :: 0 <= i < n ==> q[i] == buf[Slot(head, i, |buf|)]
  {
    seq(n, i requires 0 <= i < n => buf[Slot(head, i, |buf|)])
  }

  /** Dropping the oldest of a full queue before more arrives changes nothing that stays. */
  lemma LastDrops<T>(s: seq<T>, v: seq<T>, n: nat)
    requires 0 < |s| == n && v != []
    ensures Last(s + v, n) == Last(s[1..] + v, n)
  {
    assert (s + v)[1..] == s[1..] + v;
    var k := |s[1..] + v| - n;
    assert (s + v)[1..][k..] == (s + v)[1 + k..];
  }

  lemma QueueDrops<T>(buf: seq<T>, head: nat, n: nat, k: nat)
    requires head < |buf| && k <= n <= |buf|
    ensures Queue(buf, Slot(head, k, |buf|), n - k) == Queue(buf, head, n)[k..]
  {
    forall i | 0 <= i < n - k
      ensures Slot(Slot(head, k, |buf|), i, |buf|) == Slot(head, k + i, |buf|)
    {
    }
  }

  /** The elements before the end of the array lie in a row. */
  lemma FrontOf<T>(buf: seq<T>, head: nat, n: nat, k: nat)
    requires head < |buf| && k <= n <= |buf| && head + k <= |buf|
    ensures buf[head..head + k] == Queue(buf, head, n)[..k]
  {
    forall i | 0 <= i < k ensures buf[head..head + k][i] == Queue(buf, head, n)[..k][i] {
      assert head + i < |buf| ==> Slot(head, i, |buf|) == head + i;
    }
  }

  /** copy into an array from at on. */
  method CopyTo<T>(dst: array<T>, at: nat, src: seq<T>)
    requires at + |src| <= dst.Length
    modifies dst
    ensures dst[..at + |src|] == old(dst[..at]) + src && dst[at + |src|..] == old(dst[at + |src|..])
  {
    for i := 0 to |src|
      invariant dst[..at + i] == old(dst[..at]) + src[..i] && dst[at + i..] == old(dst[at + i..])
    {
      dst[at + i] := src[i];
    }
  }

  /** A copy of k elements to free, contiguous room adds them. */
  lemma QueueGrows<T>(was: seq<T>, now: seq<T>, head: nat, n: nat, v: seq<T>)
    requires |now| == |was| && head < |was| && n + |v| <= |was| && n < |was|
    requires Slot(head, n, |was|) + |v| <= |was|
    requires forall i :: 0 <= i < |was| ==>
      now[i] == if Slot(head, n, |was|) <= i < Slot(head, n, |was|) + |v| then v[i - Slot(head, n, |was|)] else was[i]
    ensures Queue(now, head, n + |v|) == Queue(was, head, n) + v
  {
    var tail := Slot(head, n, |was|);
    forall i | 0 <= i < n + |v|
      ensures Queue(now, head, n + |v|)[i] == (Queue(was, head, n) + v)[i]
    {
      var at := Slot(head, i, |was|);
      if i < n {
        assert !(tail <= at < tail + |v|);
      } else {
        assert at == tail + (i - n);
      }
    }
  }

  const GENERATIONS := 0x1_0000_0000

  // Generations.

  /** The queue with the reset count each element was written under. */
  datatype Log<T> = Log(held: seq<(nat, T)>, resets: nat)

  datatype Event<T> = Put(since: nat, v: seq<T>) | Got(count: nat) | Cleared

  function Tagged<T>(since: nat, v: seq<T>): seq<(nat, T)> {
    seq(|v|, i requires 0 <= i < |v| => (since, v[i]))
  }

  /** since is the count of resets when the writer read the generation. */
  function Step<T>(s: Log<T>, e: Event<T>, capacity: nat): Log<T> {
    match e
    case Put(since, v) =>
      if since % GENERATIONS == s.resets % GENERATIONS then s.(held := Last(s.held + Tagged(since, v), capacity)) else s
    case Got(count) => s.(held := if count <= |s.held| then s.held[count..] else [])
    case Cleared => Log([], s.resets + 1)
  }

  function After<T>(events: seq<Event<T>>, capacity: nat): Log<T> {
    if events == [] then Log([], 0) else Step(After(events[..|events| - 1], capacity), events[|events| - 1], capacity)
  }

  function Values<T>(held: seq<(nat, T)>): (r: seq<T>)
    ensures |r| == |held| && forall i :: 0 <= i < |held| ==> r[i] == held[i].1
  {
    seq(|held|, i requires 0 <= i < |held| => held[i].1)
  }

  lemma AfterOne<T>(events: seq<Event<T>>, e: Event<T>, capacity: nat)
    ensures After(events + [e], capacity) == Step(After(events, capacity), e, capacity)
  {
    assert (events + [e])[..|events|] == events;
  }

  lemma LogWrites<T>(events: seq<Event<T>>, since: nat, v: seq<T>, capacity: nat)
    ensures var was, now := After(events, capacity), After(events + [Put(since, v)], capacity);
      now.resets == was.resets && Values(now.held) ==
        if since % GENERATIONS == was.resets % GENERATIONS then Last(Values(was.held) + v, capacity)
          else Values(was.held)
  {
    AfterOne(events, Put(since, v), capacity);
    var held := After(events, capacity).held;
    hide After, Last;
    ValuesJoin(held, since, v);
    ValuesLast(held + Tagged(since, v), capacity);
  }

  lemma ValuesJoin<T>(held: seq<(nat, T)>, since: nat, v: seq<T>)
    ensures Values(held + Tagged(since, v)) == Values(held) + v
  {
  }

  lemma ValuesLast<T>(held: seq<(nat, T)>, n: nat)
    ensures Values(Last(held, n)) == Last(Values(held), n)
  {
  }

  lemma LogReads<T>(events: seq<Event<T>>, count: nat, capacity: nat)
    requires count <= |After(events, capacity).held|
    ensures var was, now := After(events, capacity), After(events + [Got(count)], capacity);
      now.resets == was.resets && Values(now.held) == Values(was.held)[count..]
  {
    AfterOne(events, Got(count), capacity);
  }

  lemma LogClears<T>(events: seq<Event<T>>, capacity: nat)
    ensures var was, now := After(events, capacity), After(events + [Cleared], capacity);
      now.resets == was.resets + 1 && Values(now.held) == []
      && now.resets % GENERATIONS == (was.resets % GENERATIONS + 1) % GENERATIONS
  {
    AfterOne(events, Cleared, capacity);
    hide After;
    assert Values<T>([]) == [];
  }

  lemma LateIffNotRound(since: nat, resets: nat)
    requires since <= resets
    ensures since % GENERATIONS == resets % GENERATIONS <==> (resets - since) % GENERATIONS == 0
  {
  }

  /** No write comes so late that the counter has come round. */
  ghost predicate NeverRound<T>(events: seq<Event<T>>, capacity: nat) {
    forall t :: 0 <= t < |events| && events[t].Put? ==>
      events[t].since <= After(events[..t], capacity).resets < events[t].since + GENERATIONS
  }

  /** Then nothing held, and so nothing read, was written under an older generation. */
  lemma {:induction false} NothingStale<T>(events: seq<Event<T>>, capacity: nat)
    requires NeverRound(events, capacity)
    ensures forall i :: 0 <= i < |After(events, capacity).held| ==>
      After(events, capacity).held[i].0 == After(events, capacity).resets
    decreases |events|
  {
    if events != [] {
      var m := |events| - 1;
      assert forall t :: 0 <= t < m ==> events[..m][t] == events[t] && events[..m][..t] == events[..t];
      NothingStale(events[..m], capacity);
      if events[m].Put? {
        LateIffNotRound(events[m].since, After(events[..m], capacity).resets);
      }
    }
  }

  /** A writer that comes after a reset leaves something stale in the ring exactly when the counter
      has come round since it read the generation. */
  lemma StaleIffRound<T>(events: seq<Event<T>>, since: nat, v: seq<T>, capacity: nat)
    requires NeverRound(events, capacity) && since < After(events, capacity).resets && v != [] && capacity > 0
    ensures var log := After(events + [Put(since, v)], capacity);
      (exists i :: 0 <= i < |log.held| && log.held[i].0 != log.resets) <==>
        (After(events, capacity).resets - since) % GENERATIONS == 0
  {
    var was, log := After(events, capacity), After(events + [Put(since, v)], capacity);
    AfterOne(events, Put(since, v), capacity);
    NothingStale(events, capacity);
    LateIffNotRound(since, was.resets);
    hide After;
    if (was.resets - since) % GENERATIONS == 0 {
      var all := was.held + Tagged(since, v);
      assert log.held == Last(all, capacity) && all[|all| - 1].0 == since;
      assert log.held[|log.held| - 1] == all[|all| - 1];
    }
  }

  function Clears<T>(n: nat): (r: seq<Event<T>>)
    ensures |r| == n && forall i :: 0 <= i < n ==> r[i] == Cleared
  {
    seq<Event<T>>(n, _ => Cleared)
  }

  lemma {:induction false} AfterClears<T>(n: nat, capacity: nat)
    ensures After(Clears<T>(n), capacity) == Log([], n)
  {
    if n > 0 {
      assert Clears<T>(n)[..n - 1] == Clears<T>(n - 1);
      AfterClears<T>(n - 1, capacity);
    }
  }

  /** Once the counter has come round, what a writer of the first generation brings is held. */
  lemma StaleOnceRound<T>(x: T, capacity: nat)
    requires capacity > 0
    ensures var events := Clears<T>(GENERATIONS) + [Put(0, [x])];
      !NeverRound(events, capacity) && After(events, capacity) == Log([(0, x)], GENERATIONS)
  {
    var cleared := Clears<T>(GENERATIONS);
    var events := cleared + [Put(0, [x])];
    AfterClears<T>(GENERATIONS, capacity);
    AfterOne(cleared, Put(0, [x]), capacity);
    assert Last([] + Tagged(0, [x]), capacity) == [(0, x)];
    assert events[..GENERATIONS] == cleared && events[GENERATIONS] == Put(0, [x]);
  }

  class Ring<T> {
    const buf: array<T>
    var head: nat
    var n: nat
    /** The resets so far, modulo the counter's width. */
    var gen: nat

    /** All that was done since the ring was new. */
    ghost var events: seq<Event<T>>

    ghost predicate Shape()
      reads this
    {
      head < buf.Length && n <= buf.Length && gen < GENERATIONS
    }

    /** The ring holds what its log holds, and counts its resets. */
    ghost predicate Valid()
      reads this, buf
    {
      && Shape()
      && Contents() == Values(After(events, buf.Length).held)
      && gen == After(events, buf.Length).resets % GENERATIONS
    }

    ghost function Contents(): (q: seq<T>)
      requires Shape()
      reads this, buf
    {
      Queue(buf[..], head, n)
    }

    constructor (capacity: nat, zero: T)
      requires capacity > 0
      ensures Valid() && fresh(buf) && buf.Length == capacity && Contents() == [] && gen == 0 && events == []
    {
      buf := new T[capacity](_ => zero);
      head, n, gen, events := 0, 0, 0, [];
    }

    /** Adds v, dropping the oldest when full. */
    method Write(v: seq<T>)
      requires Valid()
      modifies this`head, this`n, this`events, buf
      ensures Valid() && Contents() == Last(old(Contents()) + v, buf.Length)
      ensures events == old(events) + [Put(After(old(events), buf.Length).resets, v)]
    {
      hide Queue, Last;
      LogWrites(events, After(events, buf.Length).resets, v, buf.Length);
      Append(v);
      events := events + [Put(After(events, buf.Length).resets, v)];
    }

    /** Any number of elements: the last capacity of the old contents and v are held. */
    method Append(v: seq<T>)
      requires Shape()
      modifies this`head, this`n, buf
      ensures Shape() && Contents() == Last(old(Contents()) + v, buf.Length)
    {
      hide *;
      ghost var all, c := Contents() + v, Contents();
      var rest := v;
      ValidBounds();
      while rest != []
        invariant Shape() && c == Contents() && |c| == n <= buf.Length && buf.Length > 0
        invariant Last(c + rest, buf.Length) == Last(all, buf.Length)
        decreases |rest|
      {
        if n == buf.Length {
          LastDrops(c, rest, buf.Length);
          Drop();
          c := c[1..];
        }
        var k := Copy(rest);
        Moved(c, rest, k);
        c := c + rest[..k];
        rest := rest[k..];
      }
      assert c + [] == c;
      LastOfShort(c, buf.Length);
    }

    lemma ValidBounds()
      requires Shape()
      ensures |Contents()| == n <= buf.Length && buf.Length > 0
    {
    }

    lemma Moved(c: seq<T>, rest: seq<T>, k: nat)
      requires k <= |rest|
      ensures (c + rest[..k]) + rest[k..] == c + rest
    {
    }

    /** The oldest goes. */
    method Drop()
      requires Shape() && n > 0
      modifies this`head, this`n
      ensures Shape() && Contents() == old(Contents())[1..] && n == old(n) - 1
    {
      hide Queue, Slot;
      QueueDrops(buf[..], head, n, 1);
      DropSome(head, 1, buf.Length);
      head := (head + 1) % buf.Length;
      n := n - 1;
    }

    lemma LastOfShort(s: seq<T>, k: nat)
      requires |s| <= k
      ensures Last(s, k) == s
    {
    }

    lemma DropSome(head: nat, k: nat, capacity: nat)
      requires head < capacity && k <= capacity
      ensures (head + k) % capacity == Slot(head, k, capacity)
    {
    }

    /** As many elements as fit behind the last without wrapping. */
    method Copy(v: seq<T>) returns (k: nat)
      requires Shape() && n < buf.Length && v != []
      modifies this`n, buf
      ensures Shape() && 0 < k <= |v| && n == old(n) + k <= buf.Length
      ensures Contents() == old(Contents()) + v[..k]
    {
      hide Queue;
      ghost var was := buf[..];
      var tail := (head + n) % buf.Length;
      var room := if tail + buf.Length - n < buf.Length then buf.Length - n else buf.Length - tail;
      k := if |v| < room then |v| else room;
      assert tail == Slot(head, n, buf.Length);
      for i := 0 to k
        invariant forall j :: 0 <= j < buf.Length ==> buf[j] == if tail <= j < tail + i then v[j - tail] else was[j]
        modifies buf
      {
        buf[tail + i] := v[i];
      }
      QueueGrows(was, buf[..], head, n, v[..k]);
      n := n + k;
    }

    /** The generation, for a writer that starts now: the resets so far, as far as the counter goes. */
    method Generation() returns (since: nat)
      requires Valid()
      ensures since == gen && since == After(events, buf.Length).resets % GENERATIONS
    {
      since := gen;
    }

    /** Adds v exactly when since, the generation after count resets, is still the ring's. */
    method WriteAt(since: nat, v: seq<T>, ghost count: nat)
      requires Valid() && since == count % GENERATIONS
      modifies this`head, this`n, this`events, buf
      ensures Valid() && events == old(events) + [Put(count, v)]
      ensures Contents() == if since == gen then Last(old(Contents()) + v, buf.Length) else old(Contents())
    {
      hide Queue, Last;
      LogWrites(events, count, v, buf.Length);
      if gen == since {
        Append(v);
      }
      events := events + [Put(count, v)];
    }

    /** The front of the queue, in order, in at most two pieces. */
    method Read(dst: array<T>) returns (count: nat)
      requires Valid() && dst != buf
      modifies this`head, this`n, this`events, dst
      ensures Valid() && count == if dst.Length < |old(Contents())| then dst.Length else |old(Contents())|
      ensures dst[..count] == old(Contents())[..count] && dst[count..] == old(dst[count..])
      ensures Contents() == old(Contents())[count..] && events == old(events) + [Got(count)]
    {
      hide Queue, Last, Slot, After, Values;
      count := Pull(dst);
      LogReads(events, count, buf.Length);
      events := events + [Got(count)];
    }

    method Pull(dst: array<T>) returns (count: nat)
      requires Shape() && dst != buf
      modifies this`head, this`n, dst
      ensures Shape() && count == if dst.Length < |old(Contents())| then dst.Length else |old(Contents())|
      ensures dst[..count] == old(Contents())[..count] && dst[count..] == old(dst[count..])
      ensures Contents() == old(Contents())[count..]
    {
      hide Queue, Slot;
      ghost var all := Contents();
      ghost var was := dst[..];
      count := 0;
      while count < dst.Length && n > 0
        invariant Shape() && count <= dst.Length && count <= |all| && n == |all| - count
        invariant Contents() == all[count..]
        invariant dst[..count] == all[..count] && dst[count..] == was[count..]
        decreases n
      {
        var k := Take(dst, count);
        assert all[count..][..k] == all[count..count + k];
        assert all[..count + k] == all[..count] + all[count..count + k];
        assert all[count..][k..] == all[count + k..];
        assert was[count..][k..] == was[count + k..];
        count := count + k;
      }
    }

    /** One piece: what lies before the end of the array. */
    method Take(dst: array<T>, at: nat) returns (k: nat)
      requires Shape() && n > 0 && at < dst.Length && dst != buf
      modifies this`head, this`n, dst
      ensures Shape() && 0 < k <= old(n) && at + k <= dst.Length && n == old(n) - k
      ensures Contents() == old(Contents())[k..]
      ensures dst[..at + k] == old(dst[..at]) + old(Contents())[..k]
      ensures dst[at + k..] == old(dst[at..])[k..]
    {
      hide Queue, Slot;
      ghost var was := dst[at..];
      var stop := if buf.Length < head + n then buf.Length else head + n;
      k := if dst.Length - at < stop - head then dst.Length - at else stop - head;
      FrontOf(buf[..], head, n, k);
      QueueDrops(buf[..], head, n, k);
      ghost var all := buf[..];
      var front := buf[head..head + k];
      assert front == all[head..head + k];
      CopyTo(dst, at, front);
      assert old(dst[at + k..]) == was[k..];
      assert buf[..] == all;
      DropSome(head, k, buf.Length);
      head := (head + k) % buf.Length;
      n := n - k;
    }

    /** Empty, in a new generation. */
    method Reset()
      requires Valid()
      modifies this`head, this`n, this`gen, this`events
      ensures Valid() && Contents() == [] && gen == (old(gen) + 1) % GENERATIONS
      ensures events == old(events) + [Cleared]
    {
      LogClears(events, buf.Length);
      head, n := 0, 0;
      gen := (gen + 1) % GENERATIONS;
      events := events + [Cleared];
    }

    /** As long as no writer came so late that the counter had come round, nothing the ring holds
        was written under an older generation. */
    lemma HeldIsCurrent(i: nat)
      requires Valid() && NeverRound(events, buf.Length) && i < |Contents()|
      ensures var log := After(events, buf.Length);
        i < |log.held| && log.held[i] == (log.resets, Contents()[i])
    {
      hide Queue, After;
      NothingStale(events, buf.Length);
    }
  }
}
