// The embedding cache of qwen3/cache.go. Its arrays, an index probed in a circle and entries
// replaced by the CLOCK rule, are proved to be a bounded map.

/** The index's arithmetic: slots on a circle, and what a well-formed probe table is. */
module ProbeTable {

  /** The identity of an input. The first hash also places it in the index. */
  datatype Key = Key(h0: nat, h1: nat, n: nat)

  /** The first slot probed for k. */
  function Home(k: Key, size: nat): (s: nat)
    requires size > 0
    ensures s < size
  {
    k.h0 % size
  }

  /** Steps forward around the circle that lead from one slot to another. */
  function Dist(from: nat, to: nat, size: nat): nat
    requires from < size && to < size
  {
    if from <= to then to - from else to - from + size
  }

  /** The slot after s. */
  function Next(s: nat, size: nat): (t: nat)
    requires s < size
    ensures t < size
  {
    if s + 1 == size then 0 else s + 1
  }

  predicate PowerOfTwo(n: nat) {
    n == 1 || (n > 0 && n % 2 == 0 && PowerOfTwo(n / 2))
  }

  /** a & b, bit by bit. */
  function And(a: nat, b: nat): nat {
    if a == 0 || b == 0 then 0 else 2 * And(a / 2, b / 2) + if a % 2 == 1 && b % 2 == 1 then 1 else 0
  }

  lemma HalfOfRemainder(x: nat, half: nat)
    requires half > 0
    ensures x % (2 * half) == 2 * (x / 2 % half) + x % 2
  {
    var q, r, b := x / 2 / half, x / 2 % half, x % 2;
    assert x == 2 * (half * q + r) + b == 2 * half * q + (2 * r + b);
    Remainder(x, q, 2 * r + b, 2 * half);
  }

  lemma Remainder(x: nat, q: nat, r: nat, n: nat)
    requires n > 0 && r < n && x == n * q + r
    ensures x % n == r
  {
    var d := x / n - q;
    assert n * d == r - x % n;
    assert n * d == n + n * (d - 1) == n * (d + 1) - n;
  }

  /** In a table of a power of two of slots, masking is taking the remainder. */
  lemma {:induction false} MaskIsRemainder(x: nat, size: nat)
    requires PowerOfTwo(size)
    ensures And(x, size - 1) == x % size
    decreases size
  {
    if size > 1 {
      var half := size / 2;
      assert (size - 1) / 2 == half - 1 && (size - 1) % 2 == 1;
      MaskIsRemainder(x / 2, half);
      HalfOfRemainder(x, half);
      if x == 0 {
        assert 0 % size == 0;
      }
    }
  }

  /** The mask of the table gives the first slot of a key, and the slot after a slot. */
  lemma NextIsMasked(k: Key, s: nat, size: nat)
    requires PowerOfTwo(size) && s < size
    ensures Home(k, size) == And(k.h0, size - 1)
    ensures Next(s, size) == And(s + 1, size - 1)
  {
    hide And, PowerOfTwo;
    MaskIsRemainder(k.h0, size);
    MaskIsRemainder(s + 1, size);
    if s + 1 == size {
      Remainder(s + 1, 1, 0, size);
    } else {
      Remainder(s + 1, 0, s + 1, size);
    }
  }

  /** Live entries and used slots name each other: each live entry sits in exactly one slot. */
  ghost predicate Placed(slots: seq<nat>, keys: seq<Key>, at: map<nat, nat>) {
    && (forall e :: e in at ==> e < |keys| && at[e] < |slots| && slots[at[e]] == e + 1)
    && (forall s :: 0 <= s < |slots| && slots[s] != 0 ==> slots[s] - 1 in at && at[slots[s] - 1] == s)
  }

  /** The slot x lies on the probe path of the entry in slot p, before p. */
  ghost predicate OnPath(slots: seq<nat>, keys: seq<Key>, p: nat, x: nat)
    requires p < |slots| && x < |slots|
    requires 0 < slots[p] <= |keys|
  {
    var home := Home(keys[slots[p] - 1], |slots|);
    Dist(home, x, |slots|) < Dist(home, p, |slots|)
  }

  /** No empty slot, other than the hole, lies between an entry's home and its slot. */
  ghost predicate Chained(slots: seq<nat>, keys: seq<Key>, hole: int) {
    forall p, x {:trigger slots[p], slots[x]} ::
      0 <= p < |slots| && 0 <= x < |slots| && 0 < slots[p] <= |keys| && OnPath(slots, keys, p, x)
      ==> x == hole || slots[x] != 0
  }

  /** Every slot after s and before next is used by an entry whose path avoids s. */
  ghost predicate Unmoved(slots: seq<nat>, keys: seq<Key>, s: nat, next: nat)
    requires s < |slots| && next < |slots|
  {
    forall p {:trigger slots[p]} :: 0 <= p < |slots| && 0 < Dist(s, p, |slots|) < Dist(s, next, |slots|)
      ==> 0 < slots[p] <= |keys| && !OnPath(slots, keys, p, s)
  }

  /** A probe for k that has reached s passed only entries of other keys. */
  ghost predicate Probed(slots: seq<nat>, keys: seq<Key>, k: Key, s: nat)
    requires s < |slots|
  {
    var home := Home(k, |slots|);
    forall x :: 0 <= x < |slots| && Dist(home, x, |slots|) < Dist(home, s, |slots|) ==>
      0 < slots[x] <= |keys| && keys[slots[x] - 1] != k
  }

  /** The comparison that decides a move, as it is written, with its case for a hole past the end. */
  predicate Shifts(home: nat, s: nat, next: nat) {
    (next > s && (home <= s || home > next)) || (next < s && home <= s && home > next)
  }

  lemma ShiftsIsOnPath(home: nat, s: nat, next: nat, size: nat)
    requires home < size && s < size && next < size && s != next
    ensures Shifts(home, s, next) <==> Dist(home, s, size) < Dist(home, next, size)
  {
  }

  /** An index that holds fewer entries than slots has an empty slot. */
  lemma EmptySlot(slots: seq<nat>, keys: seq<Key>, at: map<nat, nat>) returns (z: nat)
    requires Placed(slots, keys, at) && |keys| < |slots|
    ensures z < |slots| && slots[z] == 0
  {
    if forall s :: 0 <= s < |slots| ==> slots[s] != 0 {
      var entries := seq(|slots|, s requires 0 <= s < |slots| => slots[s] - 1);
      forall i, j | 0 <= i < j < |entries| ensures entries[i] != entries[j] {
        assert at[slots[i] - 1] == i && at[slots[j] - 1] == j;
      }
      Pigeonhole(entries, |keys|);
      assert false;
    }
    z :| z < |slots| && slots[z] == 0;
  }

  lemma {:induction false} Pigeonhole(f: seq<int>, n: nat)
    requires forall i :: 0 <= i < |f| ==> 0 <= f[i] < n
    requires forall i, j :: 0 <= i < j < |f| ==> f[i] != f[j]
    ensures |f| <= n
    decreases n
  {
    if f != [] {
      var last := f[|f| - 1];
      var g := seq(|f| - 1, i requires 0 <= i < |f| - 1 => if f[i] == n - 1 then last else f[i]);
      Pigeonhole(g, n - 1);
    }
  }

  /** No entry in the index has key k. */
  ghost predicate Absent(keys: seq<Key>, at: map<nat, nat>, k: Key) {
    forall e :: e in at && e < |keys| ==> keys[e] != k
  }

  ghost predicate OnePerKey(keys: seq<Key>, at: map<nat, nat>) {
    forall e, f :: e in at && f in at && e < |keys| && f < |keys| && e != f ==> keys[e] != keys[f]
  }

  ghost function Without(keys: seq<Key>, at: map<nat, nat>, k: Key): set<nat> {
    set e | e in at && !(e < |keys| && keys[e] == k)
  }

  lemma AbsentIsWithout(keys: seq<Key>, at: map<nat, nat>, k: Key)
    requires Absent(keys, at, k)
    ensures at.Keys == Without(keys, at, k)
  {
  }

  /** Without the entry of k, the index has no entry of k. */
  lemma RemovedIsAbsent(keys: seq<Key>, at: map<nat, nat>, e: nat)
    requires OnePerKey(keys, at) && e in at && e < |keys|
    ensures (at - {e}).Keys == Without(keys, at, keys[e])
    ensures forall t: map<nat, nat> :: t.Keys == (at - {e}).Keys ==> OnePerKey(keys, t) && Absent(keys, t, keys[e])
  {
  }

  /** A table of empty slots is a well-formed index of nothing. */
  lemma EmptyTable(slots: seq<nat>, keys: seq<Key>)
    requires forall s :: 0 <= s < |slots| ==> slots[s] == 0
    ensures Placed(slots, keys, map[]) && Chained(slots, keys, -1) && OnePerKey(keys, map[])
  {
  }

  lemma ProbeBegins(slots: seq<nat>, keys: seq<Key>, k: Key)
    requires |slots| > 0
    ensures Probed(slots, keys, k, Home(k, |slots|))
  {
  }

  lemma SlotHolds(slots: seq<nat>, keys: seq<Key>, at: map<nat, nat>, s: nat)
    requires Placed(slots, keys, at) && s < |slots|
    ensures slots[s] != 0 ==> slots[s] <= |keys| && slots[s] - 1 in at && at[slots[s] - 1] == s
  {
  }

  /** Passing an entry of another key takes the probe one slot further. */
  lemma ProbeAdvances(slots: seq<nat>, keys: seq<Key>, k: Key, s: nat, z: nat)
    requires s < |slots| && z < |slots| && slots[z] == 0 && Probed(slots, keys, k, s)
    requires Dist(Home(k, |slots|), s, |slots|) <= Dist(Home(k, |slots|), z, |slots|)
    requires 0 < slots[s] <= |keys| && keys[slots[s] - 1] != k
    ensures Probed(slots, keys, k, Next(s, |slots|))
    ensures Dist(Home(k, |slots|), s, |slots|) < Dist(Home(k, |slots|), Next(s, |slots|), |slots|)
    ensures Dist(Home(k, |slots|), Next(s, |slots|), |slots|) <= Dist(Home(k, |slots|), z, |slots|)
  {
  }

  /** Emptying a slot leaves a table whose only gap in a probe path is that slot. */
  lemma Emptied(slots: seq<nat>, keys: seq<Key>, at: map<nat, nat>, e: nat)
    requires Placed(slots, keys, at) && Chained(slots, keys, -1) && e in at
    ensures Placed(slots[at[e] := 0], keys, at - {e}) && Chained(slots[at[e] := 0], keys, at[e])
  {
    var s := at[e];
    var t := slots[s := 0];
    forall p, x | 0 <= p < |t| && 0 <= x < |t| && 0 < t[p] <= |keys| && OnPath(t, keys, p, x)
      ensures x == s || t[x] != 0
    {
      assert OnPath(slots, keys, p, x);
    }
  }

  /** Moving the entry at next into the hole s moves the hole to next. */
  lemma ShiftedBack(slots: seq<nat>, keys: seq<Key>, at: map<nat, nat>, s: nat, next: nat)
    requires Placed(slots, keys, at) && s < |slots| && next < |slots| && s != next
    requires slots[s] == 0 && slots[next] != 0 && Chained(slots, keys, s)
    requires OnPath(slots, keys, next, s)
    ensures var t := slots[s := slots[next]][next := 0];
      Placed(t, keys, at[slots[next] - 1 := s]) && Chained(t, keys, next)
  {
    var t := slots[s := slots[next]][next := 0];
    forall p, x | 0 <= p < |t| && 0 <= x < |t| && 0 < t[p] <= |keys| && OnPath(t, keys, p, x)
      ensures x == next || t[x] != 0
    {
      if p == s {
        assert OnPath(slots, keys, next, x);
      } else {
        assert OnPath(slots, keys, p, x);
      }
    }
  }

  /** The comparison of `remove` says whether the hole lies on the entry's probe path. */
  lemma CrossesHole(slots: seq<nat>, keys: seq<Key>, s: nat, next: nat)
    requires s < |slots| && next < |slots| && s != next && 0 < slots[next] <= |keys|
    ensures Shifts(Home(keys[slots[next] - 1], |slots|), s, next) <==> OnPath(slots, keys, next, s)
  {
    ShiftsIsOnPath(Home(keys[slots[next] - 1], |slots|), s, next, |slots|);
  }

  lemma ScanBegins(slots: seq<nat>, keys: seq<Key>, s: nat)
    requires s < |slots|
    ensures Unmoved(slots, keys, s, Next(s, |slots|))
  {
  }

  lemma ScanPasses(slots: seq<nat>, keys: seq<Key>, s: nat, next: nat)
    requires s < |slots| && next < |slots| && s != next && 0 < slots[next] <= |keys|
    requires Unmoved(slots, keys, s, next) && !Shifts(Home(keys[slots[next] - 1], |slots|), s, next)
    ensures Unmoved(slots, keys, s, Next(next, |slots|))
  {
    CrossesHole(slots, keys, s, next);
  }

  /** A hole that no later entry's path crosses before the next gap breaks no path. */
  lemma HoleHarmless(slots: seq<nat>, keys: seq<Key>, s: nat, next: nat)
    requires s < |slots| && next < |slots| && s != next && slots[s] == 0 && slots[next] == 0
    requires Chained(slots, keys, s) && Unmoved(slots, keys, s, next)
    ensures Chained(slots, keys, -1)
  {
    forall p, x | 0 <= p < |slots| && 0 <= x < |slots| && 0 < slots[p] <= |keys| && OnPath(slots, keys, p, x)
      ensures slots[x] != 0
    {
      if x == s {
        assert false;
      }
    }
  }

  /** A probe that reaches an empty slot has passed every slot the key could be in. */
  lemma ProbeMisses(slots: seq<nat>, keys: seq<Key>, at: map<nat, nat>, k: Key, s: nat)
    requires Placed(slots, keys, at) && Chained(slots, keys, -1) && s < |slots| && slots[s] == 0
    requires Probed(slots, keys, k, s)
    ensures Absent(keys, at, k)
  {
    forall e | e in at ensures keys[e] != k {
      if keys[e] == k {
        assert false;
      }
    }
  }

  /** Filling the empty slot a probe for k stopped at keeps every path whole. */
  lemma Filled(slots: seq<nat>, keys: seq<Key>, at: map<nat, nat>, k: Key, s: nat, e: nat)
    requires Placed(slots, keys, at) && Chained(slots, keys, -1) && s < |slots| && slots[s] == 0
    requires e < |keys| && e !in at
    requires Probed(slots, keys, k, s)
    ensures Placed(slots[s := e + 1], keys[e := k], at[e := s]) && Chained(slots[s := e + 1], keys[e := k], -1)
  {
    var t, ks := slots[s := e + 1], keys[e := k];
    forall p, x | 0 <= p < |t| && 0 <= x < |t| && 0 < t[p] <= |ks| && OnPath(t, ks, p, x)
      ensures t[x] != 0
    {
      if p != s {
        assert slots[p] - 1 in at;
        assert OnPath(slots, keys, p, x);
      }
    }
  }
}

/** What the cache does, on values: a bounded map whose entries a CLOCK hand recycles. */
module ClockMap {
  import opened ProbeTable

  type Float = real
  type Row = seq<Float>

  /** keys holds the entries in use; rows and refs have one element per entry, used or not. */
  datatype Clock = Clock(keys: seq<Key>, rows: seq<Row>, refs: seq<bool>, hand: nat) {
    ghost predicate Valid() {
      && |keys| <= |refs| == |rows|
      && hand < |refs|
      && Distinct(keys)
    }

    /** The plain map the cache stands for. */
    ghost function Contents(): map<Key, Row>
      requires Valid()
    {
      map k | k in keys :: rows[IndexOf(keys, k)]
    }
  }

  ghost predicate Distinct(keys: seq<Key>) {
    forall i, j :: 0 <= i < j < |keys| ==> keys[i] != keys[j]
  }

  function IndexOf(keys: seq<Key>, k: Key): (e: int)
    ensures e < |keys|
    ensures e >= 0 ==> keys[e] == k
    ensures e < 0 ==> k !in keys
  {
    if keys == [] then -1
    else if keys[|keys| - 1] == k then |keys| - 1
    else IndexOf(keys[..|keys| - 1], k)
  }

  /** d steps forward from hand around n entries. */
  function Ahead(hand: nat, d: nat, n: nat): (e: nat)
    requires hand < n && d <= n
    ensures e < n
  {
    if hand + d < n then hand + d else hand + d - n
  }

  /** Steps from the hand to the first clear bit, or a full turn when every bit is set. */
  function FirstClear(refs: seq<bool>, hand: nat, d: nat := 0): (r: nat)
    requires hand < |refs| && d <= |refs|
    ensures d <= r <= |refs|
    ensures forall j :: d <= j < r ==> refs[Ahead(hand, j, |refs|)]
    ensures r < |refs| ==> !refs[Ahead(hand, r, |refs|)]
    decreases |refs| - d
  {
    if d == |refs| || !refs[Ahead(hand, d, |refs|)] then d else FirstClear(refs, hand, d + 1)
  }

  /** The bits the hand passes in d steps, cleared. */
  function Cleared(refs: seq<bool>, hand: nat, d: nat): (r: seq<bool>)
    requires hand < |refs| && d <= |refs|
    ensures |r| == |refs|
  {
    seq(|refs|, i requires 0 <= i < |refs| => refs[i] && Dist(hand, i, |refs|) >= d)
  }

  /** A copy of v over the start of row, as far as it goes. */
  function Overwrite(row: Row, v: Row): (r: Row)
    ensures |r| == |row|
  {
    if |v| >= |row| then v[..|row|] else v + row[|v|..]
  }

  function Get(c: Clock, k: Key): Clock
    requires c.Valid()
  {
    var e := IndexOf(c.keys, k);
    if e < 0 then c else c.(refs := c.refs[e := true])
  }

  function Victim(c: Clock): (e: nat)
    requires c.Valid()
    ensures e < |c.refs|
  {
    Ahead(c.hand, FirstClear(c.refs, c.hand), |c.refs|)
  }

  function Put(c: Clock, k: Key, v: Row): Clock
    requires c.Valid()
  {
    if k in c.keys then
      c
    else if |c.keys| < |c.refs| then
      var e := |c.keys|;
      c.(keys := c.keys + [k], rows := c.rows[e := Overwrite(c.rows[e], v)], refs := c.refs[e := false])
    else
      var e := Victim(c);
      Clock(c.keys[e := k], c.rows[e := Overwrite(c.rows[e], v)],
            Cleared(c.refs, c.hand, FirstClear(c.refs, c.hand))[e := false], Next(e, |c.refs|))
  }

  /** A lookup changes no content. */
  lemma GetRefinesMap(c: Clock, k: Key)
    requires c.Valid()
    ensures Get(c, k).Valid() && Get(c, k).Contents() == c.Contents()
    ensures IndexOf(c.keys, k) >= 0 <==> k in c.Contents()
    ensures k in c.Contents() ==> c.rows[IndexOf(c.keys, k)] == c.Contents()[k]
  {
    var e := IndexOf(c.keys, k);
    if e >= 0 {
      assert c.keys[e] in c.Contents();
    }
  }

  /** An insert adds k's vector; a full cache forgets exactly the victim's and keeps every other. */
  lemma PutRefinesMap(c: Clock, k: Key, v: Row)
    requires c.Valid()
    ensures Put(c, k, v).Valid()
    ensures k in c.Contents() ==> Put(c, k, v) == c
    ensures k !in c.Contents() && |c.keys| < |c.refs| ==>
      Put(c, k, v).Contents() == c.Contents()[k := Overwrite(c.rows[|c.keys|], v)]
    ensures k !in c.Contents() && |c.keys| == |c.refs| ==>
      var e := Victim(c);
      && Put(c, k, v).Contents() == (c.Contents() - {c.keys[e]})[k := Overwrite(c.rows[e], v)]
      && (forall j :: 0 <= j < FirstClear(c.refs, c.hand) ==> c.refs[Ahead(c.hand, j, |c.refs|)])
      && (if !c.refs[e] then e == Ahead(c.hand, FirstClear(c.refs, c.hand), |c.refs|)
          else e == c.hand && forall i :: 0 <= i < |c.refs| ==> c.refs[i])
  {
    if k in c.keys {
      var e :| 0 <= e < |c.keys| && c.keys[e] == k;
      assert c.keys[e] in c.Contents();
    } else if |c.keys| < |c.refs| {
      PutFree(c, k, v);
    } else {
      PutEvicts(c, k, v);
      VictimReferenced(c);
    }
  }

  lemma IndexUnique(keys: seq<Key>, e: nat)
    requires Distinct(keys) && e < |keys|
    ensures IndexOf(keys, keys[e]) == e
  {
  }

  lemma PutFree(c: Clock, k: Key, v: Row)
    requires c.Valid() && k !in c.keys && |c.keys| < |c.refs|
    ensures Put(c, k, v).Valid()
    ensures Put(c, k, v).Contents() == c.Contents()[k := Overwrite(c.rows[|c.keys|], v)]
  {
    var t := Put(c, k, v);
    assert t.keys[..|c.keys|] == c.keys;
    assert IndexOf(t.keys, k) == |c.keys|;
  }

  lemma PutEvicts(c: Clock, k: Key, v: Row)
    requires c.Valid() && k !in c.keys && |c.keys| == |c.refs|
    ensures Put(c, k, v).Valid()
    ensures Put(c, k, v).Contents() == (c.Contents() - {c.keys[Victim(c)]})[k := Overwrite(c.rows[Victim(c)], v)]
  {
    hide Cleared, FirstClear, Overwrite, Ahead, IndexOf;
    var t, e := Put(c, k, v), Victim(c);
    assert t.keys == c.keys[e := k];
    IndexUnique(t.keys, e);
    forall x | x in c.keys && x != c.keys[e] ensures x in t.keys && IndexOf(t.keys, x) == IndexOf(c.keys, x) {
      var i := IndexOf(c.keys, x);
      assert t.keys[i] == x;
      IndexUnique(t.keys, i);
    }
    forall x | x in t.keys && x != k ensures x in c.keys && x != c.keys[e] {
      var i := IndexOf(t.keys, x);
      assert c.keys[i] == x;
    }
  }

  lemma VictimReferenced(c: Clock)
    requires c.Valid()
    ensures c.refs[Victim(c)] ==> Victim(c) == c.hand && forall i :: 0 <= i < |c.refs| ==> c.refs[i]
  {
    if c.refs[Victim(c)] {
      forall i | 0 <= i < |c.refs| ensures c.refs[i] {
        assert Ahead(c.hand, Dist(c.hand, i, |c.refs|), |c.refs|) == i;
      }
    }
  }

  datatype Op = Lookup(k: Key) | Insert(k: Key, v: Row)

  function Do(c: Clock, op: Op): Clock
    requires c.Valid()
  {
    match op
    case Lookup(k) => Get(c, k)
    case Insert(k, v) => Put(c, k, v)
  }

  lemma DoValid(c: Clock, op: Op)
    requires c.Valid()
    ensures Do(c, op).Valid() && |Do(c, op).refs| == |c.refs|
  {
    match op
    case Lookup(k) => GetRefinesMap(c, k);
    case Insert(k, v) => PutRefinesMap(c, k, v);
  }

  function Run(c: Clock, ops: seq<Op>): (r: Clock)
    requires c.Valid()
    ensures r.Valid() && |r.refs| == |c.refs|
    decreases |ops|
  {
    if ops == [] then c else
      DoValid(c, ops[0]);
      Run(Do(c, ops[0]), ops[1..])
  }

  // What a reference bit means, told by the lookups and inserts alone.

  /** Before x the hand, on its way, comes to an entry whose key is not among keys. */
  ghost predicate Beyond(c: Clock, keys: set<Key>, x: Key)
    requires c.Valid()
  {
    exists u :: u in c.keys && u !in keys && Steps(c, u) < Steps(c, x)
  }

  /** Steps from the hand to a key's entry. */
  function Steps(c: Clock, x: Key): nat
    requires c.Valid()
  {
    var e := IndexOf(c.keys, x);
    if e < 0 then |c.refs| else Dist(c.hand, e, |c.refs|)
  }

  /** The keys looked up since their insert and since the hand last passed them: a lookup adds the
      key it finds; an insert into a full cache moves the hand, which passes every key up to the
      first that is not among them. */
  ghost function Touched(c: Clock, touched: set<Key>, op: Op): set<Key>
    requires c.Valid()
  {
    match op
    case Lookup(k) => if k in c.keys then touched + {k} else touched
    case Insert(k, _) =>
      if k in c.keys || |c.keys| < |c.refs| then touched else set x | x in touched && Beyond(c, touched, x)
  }

  ghost function TouchedBy(c: Clock, touched: set<Key>, ops: seq<Op>): set<Key>
    requires c.Valid()
    decreases |ops|
  {
    if ops == [] then touched else
      DoValid(c, ops[0]);
      TouchedBy(Do(c, ops[0]), Touched(c, touched, ops[0]), ops[1..])
  }

  /** An entry's bit is set exactly when its key is touched. */
  ghost predicate BitsTell(c: Clock, touched: set<Key>)
    requires c.Valid()
  {
    && (forall e :: 0 <= e < |c.keys| ==> (c.refs[e] <==> c.keys[e] in touched))
    && forall x :: x in touched ==> x in c.keys
  }

  lemma StepTells(c: Clock, touched: set<Key>, op: Op)
    requires c.Valid() && BitsTell(c, touched)
    ensures Do(c, op).Valid() && BitsTell(Do(c, op), Touched(c, touched, op))
  {
    DoValid(c, op);
    match op
    case Lookup(k) => LookupTells(c, touched, k);
    case Insert(k, v) =>
      if k !in c.keys && |c.keys| == |c.refs| {
        EvictTells(c, touched, k, v);
      }
  }

  lemma LookupTells(c: Clock, touched: set<Key>, k: Key)
    requires c.Valid() && BitsTell(c, touched)
    ensures Get(c, k).Valid() && BitsTell(Get(c, k), Touched(c, touched, Lookup(k)))
  {
  }

  /** The hand stops at the first entry that is not touched, or where it began. */
  lemma StopsAt(c: Clock, touched: set<Key>, e: nat)
    requires c.Valid() && BitsTell(c, touched) && |c.keys| == |c.refs| && e < |c.keys|
    ensures var d := FirstClear(c.refs, c.hand);
      Dist(c.hand, e, |c.refs|) < d ==> c.keys[e] in touched && !Beyond(c, touched, c.keys[e])
    ensures var d := FirstClear(c.refs, c.hand);
      Dist(c.hand, e, |c.refs|) > d ==> Beyond(c, touched, c.keys[e])
  {
    var n, d := |c.refs|, FirstClear(c.refs, c.hand);
    hide FirstClear, Ahead, Dist, Beyond, BitsTell;
    IndexUnique(c.keys, e);
    if Dist(c.hand, e, n) < d {
      PassedTouched(c, touched, e);
      NoneBefore(c, touched, e);
    } else if Dist(c.hand, e, n) > d {
      SomeBefore(c, touched, e);
    }
  }

  /** What the hand passes was touched. */
  lemma PassedTouched(c: Clock, touched: set<Key>, e: nat)
    requires c.Valid() && BitsTell(c, touched) && |c.keys| == |c.refs| && e < |c.keys|
    requires Dist(c.hand, e, |c.refs|) < FirstClear(c.refs, c.hand)
    ensures c.keys[e] in touched
  {
    assert c.refs[Ahead(c.hand, Dist(c.hand, e, |c.refs|), |c.refs|)];
  }

  lemma NoneBefore(c: Clock, touched: set<Key>, e: nat)
    requires c.Valid() && BitsTell(c, touched) && |c.keys| == |c.refs| && e < |c.keys|
    requires Steps(c, c.keys[e]) == Dist(c.hand, e, |c.refs|) < FirstClear(c.refs, c.hand)
    ensures !Beyond(c, touched, c.keys[e])
  {
    hide FirstClear, Dist, BitsTell;
    forall u | u in c.keys && Steps(c, u) < Steps(c, c.keys[e]) ensures u in touched {
      PassedTouched(c, touched, IndexOf(c.keys, u));
    }
  }

  lemma SomeBefore(c: Clock, touched: set<Key>, e: nat)
    requires c.Valid() && BitsTell(c, touched) && |c.keys| == |c.refs| && e < |c.keys|
    requires Steps(c, c.keys[e]) == Dist(c.hand, e, |c.refs|) > FirstClear(c.refs, c.hand)
    ensures Beyond(c, touched, c.keys[e])
  {
    var n, d := |c.refs|, FirstClear(c.refs, c.hand);
    var i := Ahead(c.hand, d, n);
    IndexUnique(c.keys, i);
    assert Steps(c, c.keys[i]) == d;
  }

  lemma EvictTells(c: Clock, touched: set<Key>, k: Key, v: Row)
    requires c.Valid() && BitsTell(c, touched) && k !in c.keys && |c.keys| == |c.refs|
    ensures Put(c, k, v).Valid() && BitsTell(Put(c, k, v), Touched(c, touched, Insert(k, v)))
  {
    PutEvicts(c, k, v);
    var t, n, e := Put(c, k, v), |c.refs|, Victim(c);
    var now := Touched(c, touched, Insert(k, v));
    VictimUntouched(c, touched);
    hide Beyond;
    forall i | 0 <= i < n ensures t.refs[i] <==> t.keys[i] in now {
      StopsAt(c, touched, i);
    }
    forall x | x in now ensures x in t.keys {
      assert t.keys[IndexOf(c.keys, x)] == x;
    }
  }

  lemma VictimUntouched(c: Clock, touched: set<Key>)
    requires c.Valid() && BitsTell(c, touched) && |c.keys| == |c.refs|
    ensures var x := c.keys[Victim(c)];
      !(x in touched && Beyond(c, touched, x)) &&
      if x in touched then Steps(c, x) == 0 && forall u :: u in c.keys ==> u in touched
      else forall u :: u in c.keys && u !in touched ==> Steps(c, x) <= Steps(c, u)
  {
    var n, e := |c.refs|, Victim(c);
    IndexUnique(c.keys, e);
    VictimReferenced(c);
    forall u | u in c.keys && u !in touched ensures Steps(c, c.keys[e]) <= Steps(c, u) {
      StopsAt(c, touched, IndexOf(c.keys, u));
    }
  }

  lemma {:induction false} RunTells(c: Clock, touched: set<Key>, ops: seq<Op>)
    requires c.Valid() && BitsTell(c, touched)
    ensures BitsTell(Run(c, ops), TouchedBy(c, touched, ops))
    decreases |ops|
  {
    hide Do, Touched, BitsTell;
    if ops != [] {
      StepTells(c, touched, ops[0]);
      RunTells(Do(c, ops[0]), Touched(c, touched, ops[0]), ops[1..]);
    }
  }

  /** A cache before its first insert. */
  ghost predicate Empty(c: Clock) {
    c.Valid() && c.keys == []
  }

  /** Over every run from an empty cache, a bit is set exactly when its key was looked up since its
      insert and since the hand last passed it. */
  lemma BitsAreHistory(c: Clock, ops: seq<Op>, e: nat)
    requires Empty(c) && e < |Run(c, ops).keys|
    ensures Run(c, ops).refs[e] <==> Run(c, ops).keys[e] in TouchedBy(c, {}, ops)
  {
    hide Run, TouchedBy;
    RunTells(c, {}, ops);
  }

  /** The hand moves only when a key makes room, and then to the entry after it. */
  lemma HandMoves(c: Clock, op: Op)
    requires c.Valid()
    ensures Do(c, op).Valid() && |Do(c, op).refs| == |c.refs|
    ensures op.Lookup? ==> Do(c, op).keys == c.keys
    ensures op.Lookup? || op.k in c.keys || |c.keys| < |c.refs| ==> Do(c, op).hand == c.hand && c.keys <= Do(c, op).keys
    ensures op.Insert? && op.k !in c.keys && |c.keys| == |c.refs| ==>
      var e := IndexOf(Do(c, op).keys, op.k);
      e >= 0 && Dist(Do(c, op).hand, e, |c.refs|) == |c.refs| - 1 && Do(c, op).keys == c.keys[e := op.k]
  {
    DoValid(c, op);
    hide Dist;
    if op.Insert? && op.k !in c.keys && |c.keys| == |c.refs| {
      var t := Do(c, op);
      assert t.keys[Victim(c)] == op.k;
      IndexUnique(t.keys, Victim(c));
      Behind(Victim(c), |c.refs|);
    }
  }

  lemma Behind(e: nat, n: nat)
    requires e < n
    ensures Dist(Next(e, n), e, n) == n - 1
  {
  }

  /** The key that makes room, over every run: the first from the hand that was not looked up since
      the hand passed it; the hand's own when all were. */
  lemma EvictedByHistory(c: Clock, ops: seq<Op>, k: Key, v: Row, x: Key)
    requires Empty(c)
    requires x in Run(c, ops).keys && Put(Run(c, ops), k, v).Valid() && x !in Put(Run(c, ops), k, v).keys
    ensures var now, touched := Run(c, ops), TouchedBy(c, {}, ops);
      if forall u :: u in now.keys ==> u in touched then Steps(now, x) == 0
      else x !in touched && forall u :: u in now.keys && u !in touched ==> Steps(now, x) <= Steps(now, u)
  {
    hide Run, TouchedBy, Steps;
    var now := Run(c, ops);
    RunTells(c, {}, ops);
    OnlyVictimGoes(now, k, v, x);
    VictimUntouched(now, TouchedBy(c, {}, ops));
  }

  lemma OnlyVictimGoes(c: Clock, k: Key, v: Row, x: Key)
    requires c.Valid() && x in c.keys && x !in Put(c, k, v).keys
    ensures |c.keys| == |c.refs| && x == c.keys[Victim(c)]
  {
    var e := IndexOf(c.keys, x);
    assert Put(c, k, v).keys[e] in Put(c, k, v).keys;
  }

  /** A second chance: a key looked up since the hand passed it survives an insert as long as some
      key held was not. */
  lemma SecondChance(c: Clock, ops: seq<Op>, k: Key, u: Key, k': Key, v: Row)
    requires Empty(c)
    requires k in TouchedBy(c, {}, ops) && u in Run(c, ops).keys && u !in TouchedBy(c, {}, ops)
    ensures Put(Run(c, ops), k', v).Valid() && k in Run(c, ops).Contents() && k in Put(Run(c, ops), k', v).Contents()
    ensures Put(Run(c, ops), k', v).Contents()[k] == Run(c, ops).Contents()[k]
  {
    hide Run, TouchedBy, Steps;
    var now := Run(c, ops);
    RunTells(c, {}, ops);
    PutRefinesMap(now, k', v);
    if k' !in now.keys && |now.keys| == |now.refs| {
      VictimUntouched(now, TouchedBy(c, {}, ops));
    }
  }

  /** The keys looked up since their own insert. */
  ghost function Seen(c: Clock, seen: set<Key>, op: Op): set<Key>
    requires c.Valid()
  {
    match op
    case Lookup(k) => if k in c.keys then seen + {k} else seen
    case Insert(k, v) => set x | x in seen && x in Put(c, k, v).keys
  }

  ghost function SeenBy(c: Clock, seen: set<Key>, ops: seq<Op>): set<Key>
    requires c.Valid()
    decreases |ops|
  {
    if ops == [] then seen else
      DoValid(c, ops[0]);
      SeenBy(Do(c, ops[0]), Seen(c, seen, ops[0]), ops[1..])
  }

  /** A key not looked up since its own insert is such a key. */
  lemma {:induction false} TouchedWasSeen(c: Clock, touched: set<Key>, seen: set<Key>, ops: seq<Op>)
    requires c.Valid() && BitsTell(c, touched) && touched <= seen
    ensures TouchedBy(c, touched, ops) <= SeenBy(c, seen, ops)
    decreases |ops|
  {
    if ops != [] {
      StepTells(c, touched, ops[0]);
      assert Touched(c, touched, ops[0]) <= Seen(c, seen, ops[0]) by {
        hide Beyond, Put, Get;
      }
      TouchedWasSeen(Do(c, ops[0]), Touched(c, touched, ops[0]), Seen(c, seen, ops[0]), ops[1..]);
    }
  }

  /** Every vector the cache holds is the one recomputation would give. */
  ghost predicate Faithful(c: Clock, vector: Key -> Row, width: nat)
    requires c.Valid()
  {
    && (forall e :: 0 <= e < |c.rows| ==> |c.rows[e]| == width)
    && forall k :: k in c.Contents() ==> c.Contents()[k] == vector(k)
  }

  lemma DoFaithful(c: Clock, op: Op, vector: Key -> Row, width: nat)
    requires c.Valid() && Faithful(c, vector, width)
    requires forall k :: |vector(k)| == width
    requires op.Insert? ==> op.v == vector(op.k)
    ensures Do(c, op).Valid() && Faithful(Do(c, op), vector, width)
  {
    hide Cleared, FirstClear, Ahead, Distinct;
    match op
    case Lookup(k) => GetRefinesMap(c, k);
    case Insert(k, v) => PutRefinesMap(c, k, v);
  }

  /** Over every run, the row held under a key is the vector that its input has. */
  lemma {:induction false} RunFaithful(c: Clock, ops: seq<Op>, vector: Key -> Row, width: nat)
    requires c.Valid() && Faithful(c, vector, width)
    requires forall k :: |vector(k)| == width
    requires forall i :: 0 <= i < |ops| && ops[i].Insert? ==> ops[i].v == vector(ops[i].k)
    ensures Faithful(Run(c, ops), vector, width)
    decreases |ops|
  {
    hide Do, Faithful, Distinct;
    if ops != [] {
      DoFaithful(c, ops[0], vector, width);
      DoValid(c, ops[0]);
      RunFaithful(Do(c, ops[0]), ops[1..], vector, width);
    }
  }
}

/** The cache's storage and loops. */
module EmbeddingCache {
  import opened ProbeTable
  import opened ClockMap

  lemma Scaled(a: nat, b: nat, w: nat)
    requires a <= b
    ensures a * w <= b * w
  {
    assert b * w == a * w + (b - a) * w;
  }

  lemma RowBounds(e: nat, n: nat, width: nat)
    requires e < n
    ensures 0 <= e * width <= (e + 1) * width <= n * width
    ensures (e + 1) * width == e * width + width
  {
    Scaled(e + 1, n, width);
  }

  lemma RowsApart(e: nat, i: nat, width: nat)
    requires e != i
    ensures (e + 1) * width <= i * width || (i + 1) * width <= e * width
  {
    if e < i {
      Scaled(e + 1, i, width);
    } else {
      Scaled(i + 1, e, width);
    }
  }

  /** Entry e's row of the flat storage of n rows. */
  function RowAt(v: seq<Float>, width: nat, n: nat, e: nat): (r: Row)
    requires |v| == n * width && e < n
    ensures |r| == width
  {
    RowBounds(e, n, width);
    v[e * width..(e + 1) * width]
  }

  function RowsOf(v: seq<Float>, width: nat, n: nat): (r: seq<Row>)
    requires |v| == n * width
    ensures |r| == n && forall e :: 0 <= e < n ==> r[e] == RowAt(v, width, n, e)
  {
    seq(n, e requires 0 <= e < n => RowAt(v, width, n, e))
  }

  /** Copying vec into row e's storage overwrites row e and no other. */
  lemma RowWritten(v: seq<Float>, u: seq<Float>, width: nat, n: nat, e: nat, vec: Row)
    requires |v| == |u| == n * width && e < n
    requires var m := if |vec| < width then |vec| else width;
      && (forall i {:trigger u[i]} :: 0 <= i < |u| && !(e * width <= i < e * width + m) ==> u[i] == v[i])
      && (forall i :: 0 <= i < m && e * width + i < |u| ==> u[e * width + i] == vec[i])
    ensures RowsOf(u, width, n) == RowsOf(v, width, n)[e := Overwrite(RowAt(v, width, n, e), vec)]
  {
    RowBounds(e, n, width);
    forall i | 0 <= i < n && i != e ensures RowAt(u, width, n, i) == RowAt(v, width, n, i) {
      RowBounds(i, n, width);
      RowsApart(e, i, width);
    }
    assert RowAt(u, width, n, e) == Overwrite(RowAt(v, width, n, e), vec);
  }

  lemma PowerOfTwoOne()
    ensures PowerOfTwo(1)
  {
  }

  lemma PowerOfTwoDoubles(n: nat)
    requires PowerOfTwo(n)
    ensures PowerOfTwo(n * 2)
  {
    assert n * 2 / 2 == n;
  }

  class Cache {
    const width: nat
    const keys: array<Key>
    const vectors: array<Float>
    const refs: array<bool>
    const slots: array<nat> // 0 for no entry, else one more than it
    var hand: nat
    var used: nat
    var hits: nat
    var all: nat
    ghost var at: map<nat, nat> // the slot of each entry in use

    ghost predicate Shape()
      reads this, keys, vectors, refs, slots
    {
      && keys.Length == refs.Length > 0
      && vectors.Length == refs.Length * width
      && slots.Length >= 2 * keys.Length && PowerOfTwo(slots.Length)
      && hand < refs.Length && used <= keys.Length
    }

    /** The index names the entries that have a slot, under distinct keys. */
    ghost predicate Indexed()
      reads this, keys, slots
    {
      && slots.Length > keys.Length
      && Placed(slots[..], keys[..], at)
      && OnePerKey(keys[..], at)
    }

    ghost predicate Valid()
      reads this, keys, vectors, refs, slots
    {
      && Shape()
      && Indexed() && (forall e :: e in at <==> 0 <= e < used)
      && Chained(slots[..], keys[..], -1)
    }

    ghost function State(): Clock
      reads this, keys, vectors, refs, slots
      requires Shape()
    {
      Clock(keys[..used], RowsOf(vectors[..], width, refs.Length), refs[..], hand)
    }

    /** A cache of a positive number of entries; the source returns nil for none. */
    constructor (entries: nat, width: nat)
      requires entries > 0
      ensures Valid() && this.width == width && refs.Length == entries
      ensures State().Valid() && State().keys == [] && State().hand == 0
      ensures fresh(keys) && fresh(vectors) && fresh(refs) && fresh(slots)
    {
      hide Placed, Chained, OnePerKey, RowAt, RowsOf, PowerOfTwo;
      var size := 1;
      PowerOfTwoOne();
      while size < 2 * entries
        invariant PowerOfTwo(size) && size < 4 * entries
        decreases 2 * entries - size
      {
        PowerOfTwoDoubles(size);
        size := size * 2;
      }
      this.width := width;
      keys := new Key[entries](_ => Key(0, 0, 0));
      vectors := new Float[entries * width](_ => 0.0);
      refs := new bool[entries](_ => false);
      slots := new nat[size](_ => 0);
      hand, used, hits, all := 0, 0, 0, 0;
      at := map[];
      new;
      EmptyTable(slots[..], keys[..]);
    }

    /** Where a probe for k stops: at k's own entry, or at a gap, and then k is Absent. */
    method Find(k: Key) returns (slot: nat, entry: int)
      requires Indexed() && Chained(slots[..], keys[..], -1)
      ensures slot < slots.Length && Probed(slots[..], keys[..], k, slot)
      ensures entry + 1 == slots[slot]
      ensures entry >= 0 ==> entry in at && at[entry] == slot && entry < keys.Length && keys[entry] == k
      ensures entry < 0 ==> Absent(keys[..], at, k)
    {
      hide Chained, Probed, Placed, Absent;
      ghost var z := EmptySlot(slots[..], keys[..], at);
      var s: nat := Home(k, slots.Length);
      ProbeBegins(slots[..], keys[..], k);
      while true
        invariant s < slots.Length && Probed(slots[..], keys[..], k, s)
        invariant Dist(Home(k, slots.Length), s, slots.Length) <= Dist(Home(k, slots.Length), z, slots.Length)
        decreases Dist(Home(k, slots.Length), z, slots.Length) - Dist(Home(k, slots.Length), s, slots.Length)
      {
        SlotHolds(slots[..], keys[..], at, s);
        var e := slots[s] as int - 1;
        if e < 0 || keys[e] == k {
          if e < 0 {
            ProbeMisses(slots[..], keys[..], at, k, s);
          }
          return s, e;
        }
        ProbeAdvances(slots[..], keys[..], k, s, z);
        s := Next(s, slots.Length);
      }
    }

    /** Deletes k's slot, moving later entries of its chain back so that no tombstone is needed. */
    method Remove(k: Key)
      requires Indexed() && Chained(slots[..], keys[..], -1)
      modifies slots, this`at
      ensures Indexed() && Chained(slots[..], keys[..], -1) && Absent(keys[..], at, k)
      ensures at.Keys == Without(keys[..], old(at), k)
    {
      hide Chained, Placed, Unmoved, OnPath, Absent, OnePerKey, Probed, Without, Shifts, Home;
      ghost var z := EmptySlot(slots[..], keys[..], at);
      var s: nat, e: int := Find(k);
      if e < 0 {
        AbsentIsWithout(keys[..], at, k);
        return;
      }
      Emptied(slots[..], keys[..], at, e);
      RemovedIsAbsent(keys[..], at, e);
      at := at - {e};
      ghost var live := at.Keys;
      while true
        invariant s < slots.Length && s != z && slots[z] == 0 && at.Keys == live
        invariant Placed(slots[..][s := 0], keys[..], at) && Chained(slots[..][s := 0], keys[..], s)
        decreases Dist(s, z, slots.Length)
      {
        slots[s] := 0;
        ghost var held, placed := slots[..], at;
        assert held == held[s := 0];
        var next: nat := s;
        ScanBegins(held, keys[..], s);
        while true
          invariant next < slots.Length && slots[..] == held && at == placed
          invariant Dist(s, next, slots.Length) < Dist(s, z, slots.Length)
          invariant Unmoved(held, keys[..], s, Next(next, slots.Length))
          decreases Dist(s, z, slots.Length) - Dist(s, next, slots.Length)
        {
          next := Next(next, slots.Length);
          SlotHolds(held, keys[..], at, next);
          var ne := slots[next] as int - 1;
          if ne < 0 {
            HoleHarmless(held, keys[..], s, next);
            return;
          }
          var home := Home(keys[ne], slots.Length);
          // The hole is on this entry's path: fill it.
          if Shifts(home, s, next) {
            CrossesHole(held, keys[..], s, next);
            ShiftedBack(held, keys[..], at, s, next);
            slots[s] := slots[next];
            assert slots[..] == held[s := held[next]];
            at := at[ne := s];
            s := next;
            break;
          }
          ScanPasses(held, keys[..], s, next);
        }
      }
    }

    /** Copies the vector held for k into dst and reports whether there was one. */
    method Get(k: Key, dst: array<Float>) returns (hit: bool)
      requires Valid() && dst != vectors
      modifies this`hits, this`all, refs, dst
      ensures Valid() && State() == ClockMap.Get(old(State()), k)
      ensures hit <==> k in old(State()).Contents()
      ensures dst[..] == if hit then Overwrite(old(dst[..]), old(State()).Contents()[k]) else old(dst[..])
      ensures all == old(all) + 1 && hits == old(hits) + if hit then 1 else 0
    {
      hide Chained, Placed, OnePerKey, Absent, Probed, Distinct, Overwrite;
      InUse(keys[..], at, used);
      all := all + 1;
      var _, e := Find(k);
      if e < 0 {
        AbsentFromUse(keys[..], at, used, k);
        return false;
      }
      IndexUnique(keys[..used], e);
      hits := hits + 1;
      refs[e] := true;
      RowBounds(e, refs.Length, width);
      forall i | 0 <= i < dst.Length && i < width {
        dst[i] := vectors[e * width + i];
      }
      OverwrittenBy(old(dst[..]), RowAt(vectors[..], width, refs.Length, e), dst[..]);
      return true;
    }

    /** The entry the CLOCK hand stops at: bits it passes are cleared. */
    method Sweep() returns (e: nat)
      requires hand < refs.Length
      modifies refs, this`hand
      ensures e == Ahead(old(hand), FirstClear(old(refs[..]), old(hand)), refs.Length)
      ensures refs[..] == Cleared(old(refs[..]), old(hand), FirstClear(old(refs[..]), old(hand)))
      ensures hand == Next(e, refs.Length)
    {
      hide Cleared, FirstClear;
      ghost var bits, start, d: nat := refs[..], hand, 0;
      ClearedNone(bits, start);
      while refs[hand]
        invariant d <= refs.Length && hand == Ahead(start, d, refs.Length)
        invariant refs[..] == Cleared(bits, start, d)
        invariant FirstClear(bits, start) == FirstClear(bits, start, d)
        decreases refs.Length - d
      {
        ClearedNext(bits, start, d);
        refs[hand] := false;
        hand := Next(hand, refs.Length);
        d := d + 1;
      }
      ClearedStops(bits, start, d);
      e := hand;
      hand := Next(hand, refs.Length);
    }

    /** The state becomes the map's insert of vec under k. */
    method Put(k: Key, vec: array<Float>)
      requires Valid() && vec != vectors
      modifies this`hand, this`used, this`at, keys, vectors, refs, slots
      ensures Valid() && State() == ClockMap.Put(old(State()), k, vec[..])
    {
      hide Chained, Placed, OnePerKey, Absent, Probed, Distinct, Overwrite, Cleared, FirstClear, Without, RowAt,
        RowsOf, PowerOfTwo, Ahead, IndexOf;
      InUse(keys[..], at, used);
      var slot: nat, e: int := Find(k);
      if e >= 0 {
        assert keys[..used][e] == k;
        return;
      }
      AbsentFromUse(keys[..], at, used, k);
      if used < keys.Length {
        e := used;
        used := used + 1;
      } else {
        e := Sweep();
        RemovedIsAbsent(keys[..], at, e);
        Remove(keys[e]);
        // Other entries may have moved: the gap for k is found anew.
        var s, _ := Find(k);
        slot := s;
      }
      Fill(slot, e, k, vec);
    }

    /** Writes the free entry e and points the empty slot a probe for k found at it. */
    method Fill(slot: nat, e: nat, k: Key, vec: array<Float>)
      requires Shape() && Indexed() && Chained(slots[..], keys[..], -1) && vec != vectors
      requires slot < slots.Length && slots[slot] == 0 && Probed(slots[..], keys[..], k, slot)
      requires e < keys.Length && e !in at && Absent(keys[..], at, k)
      modifies this`at, keys, vectors, refs, slots
      ensures Indexed() && Chained(slots[..], keys[..], -1) && at == old(at)[e := slot]
      ensures keys[..] == old(keys[..])[e := k] && refs[..] == old(refs[..])[e := false]
      ensures var rows := RowsOf(old(vectors[..]), width, refs.Length);
        RowsOf(vectors[..], width, refs.Length) == rows[e := Overwrite(rows[e], vec[..])]
    {
      hide Chained, Placed, OnePerKey, Absent, Probed, Overwrite, RowAt, RowsOf;
      Filled(slots[..], keys[..], at, k, slot, e);
      KeyAdded(keys[..], at, k, slot, e);
      keys[e], refs[e] := k, false;
      slots[slot] := e + 1;
      at := at[e := slot];
      RowBounds(e, refs.Length, width);
      forall i | 0 <= i < width && i < vec.Length {
        vectors[e * width + i] := vec[i];
      }
      assert slots[..] == old(slots[..])[slot := e + 1] && keys[..] == old(keys[..])[e := k];
      RowWritten(old(vectors[..]), vectors[..], width, refs.Length, e, vec[..]);
    }
  }

  /** A key that was absent joins the index under a free entry. */
  lemma KeyAdded(keys: seq<Key>, at: map<nat, nat>, k: Key, slot: nat, e: nat)
    requires OnePerKey(keys, at) && Absent(keys, at, k) && e < |keys| && e !in at
    ensures OnePerKey(keys[e := k], at[e := slot])
  {
  }

  lemma ClearedStops(refs: seq<bool>, hand: nat, d: nat)
    requires hand < |refs| && d <= |refs| && !Cleared(refs, hand, d)[Ahead(hand, d, |refs|)]
    ensures FirstClear(refs, hand, d) == d
  {
  }

  lemma ClearedNone(refs: seq<bool>, hand: nat)
    requires hand < |refs|
    ensures Cleared(refs, hand, 0) == refs
  {
  }

  lemma ClearedNext(refs: seq<bool>, hand: nat, d: nat)
    requires hand < |refs| && d <= |refs| && Cleared(refs, hand, d)[Ahead(hand, d, |refs|)]
    ensures d < |refs|
    ensures Cleared(refs, hand, d + 1) == Cleared(refs, hand, d)[Ahead(hand, d, |refs|) := false]
    ensures FirstClear(refs, hand, d) == FirstClear(refs, hand, d + 1)
  {
  }

  /** The entries in use have distinct keys. */
  lemma InUse(keys: seq<Key>, at: map<nat, nat>, used: nat)
    requires OnePerKey(keys, at) && used <= |keys| && forall e :: e in at <==> 0 <= e < used
    ensures Distinct(keys[..used])
  {
  }

  lemma AbsentFromUse(keys: seq<Key>, at: map<nat, nat>, used: nat, k: Key)
    requires Absent(keys, at, k) && used <= |keys| && forall e :: e in at <==> 0 <= e < used
    ensures k !in keys[..used]
  {
  }

  lemma OverwrittenBy(before: Row, v: Row, after: Row)
    requires |after| == |before|
    requires forall i :: 0 <= i < |before| ==> after[i] == if i < |v| then v[i] else before[i]
    ensures after == Overwrite(before, v)
  {
  }
}
