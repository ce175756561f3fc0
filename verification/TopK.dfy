// The candidate selection of the sampler in qwen3/chat.go: a heap, in two parallel arrays, of
// which the least candidate is the root, and its sort.

module TopK {

  type Logits = seq<real>

  function Parent(i: nat): (p: nat)
    requires i > 0
    ensures p < i
  {
    (i - 1) / 2
  }

  /** prob holds the logits at idx, and no index twice. */
  ghost predicate Tracks(logits: Logits, idx: seq<nat>, prob: seq<real>) {
    && |idx| == |prob|
    && (forall i :: 0 <= i < |idx| ==> idx[i] < |logits| && prob[i] == logits[idx[i]])
    && (forall i, j :: 0 <= i < j < |idx| ==> idx[i] != idx[j])
  }

  ghost function Members(idx: seq<nat>): set<nat> {
    set x | x in idx
  }

  /** Every parent is at most its children. */
  ghost predicate Heap(prob: seq<real>) {
    forall i :: 1 <= i < |prob| ==> prob[Parent(i)] <= prob[i]
  }

  /** A heap but for j, which may be too large for its place. */
  ghost predicate HeapAbove(prob: seq<real>, j: nat) {
    && (forall i :: 1 <= i < |prob| && Parent(i) != j ==> prob[Parent(i)] <= prob[i])
    && (forall i :: 1 <= i < |prob| && Parent(i) == j > 0 ==> prob[Parent(j)] <= prob[i])
  }

  /** A heap but for j, which may be too small for its place. */
  ghost predicate HeapBelow(prob: seq<real>, j: nat) {
    && (forall i :: 1 <= i < |prob| && i != j ==> prob[Parent(i)] <= prob[i])
    && (forall i :: 1 <= i < |prob| && Parent(i) == j > 0 ==> prob[Parent(j)] <= prob[i])
  }

  lemma {:induction false} RootIsLeast(prob: seq<real>, i: nat)
    requires Heap(prob) && i < |prob|
    ensures prob[0] <= prob[i]
    decreases i
  {
    if i > 0 {
      RootIsLeast(prob, Parent(i));
    }
  }

  function Exchanged<T>(s: seq<T>, a: nat, b: nat): (r: seq<T>)
    requires a < |s| && b < |s|
    ensures |r| == |s|
  {
    s[a := s[b]][b := s[a]]
  }

  lemma ExchangeTracks(logits: Logits, idx: seq<nat>, prob: seq<real>, a: nat, b: nat)
    requires Tracks(logits, idx, prob) && a < |idx| && b < |idx|
    ensures Tracks(logits, Exchanged(idx, a, b), Exchanged(prob, a, b))
    ensures Members(Exchanged(idx, a, b)) == Members(idx)
  {
    var r := Exchanged(idx, a, b);
    forall x | x in idx ensures x in r {
      var i :| 0 <= i < |idx| && idx[i] == x;
      assert r[if i == a then b else if i == b then a else i] == x;
    }
  }

  /** Moving a small entry up past its parent. */
  lemma RisesOnce(prob: seq<real>, j: nat)
    requires 0 < j < |prob| && HeapBelow(prob, j) && prob[Parent(j)] > prob[j]
    ensures HeapBelow(Exchanged(prob, j, Parent(j)), Parent(j))
  {
    var p, r := Parent(j), Exchanged(prob, j, Parent(j));
    forall i | 1 <= i < |r| && i != p ensures r[Parent(i)] <= r[i] {
      assert i != j ==> prob[Parent(i)] <= prob[i];
    }
  }

  /** Moving a large entry down past its smaller child. */
  lemma SinksOnce(prob: seq<real>, j: nat, m: nat)
    requires j < m < |prob| && Parent(m) == j && HeapAbove(prob, j) && prob[j] > prob[m]
    requires forall i :: 1 <= i < |prob| && Parent(i) == j ==> prob[m] <= prob[i]
    ensures HeapAbove(Exchanged(prob, j, m), m)
  {
    var r := Exchanged(prob, j, m);
    forall i | 1 <= i < |r| && Parent(i) != m ensures r[Parent(i)] <= r[i] {
      assert Parent(i) != j ==> prob[Parent(i)] <= prob[i];
    }
  }

  /** The k best seen of the first n logits: what is left out is no larger than the root. */
  ghost predicate BestOf(logits: Logits, idx: seq<nat>, prob: seq<real>, n: nat) {
    && n <= |logits| && 0 < |prob|
    && Tracks(logits, idx, prob) && Heap(prob)
    && (forall x :: x in idx ==> x < n)
    && (forall x :: 0 <= x < n && x !in idx ==> logits[x] <= prob[0])
  }

  /** What topK promises. */
  ghost predicate Chosen(logits: Logits, idx: seq<nat>, prob: seq<real>) {
    && Tracks(logits, idx, prob)
    && (forall i, j :: 0 <= i < j < |prob| ==> prob[i] >= prob[j])
    && (forall x, i :: 0 <= x < |logits| && x !in idx && 0 <= i < |prob| ==> logits[x] <= prob[i])
  }

  class Sampler {
    var idx: array<nat>
    var prob: array<real>

    constructor ()
      ensures idx.Length == prob.Length == 0
    {
      idx, prob := new nat[0], new real[0];
    }

    method Swap(a: nat, b: nat)
      requires idx.Length == prob.Length && a < idx.Length && b < idx.Length
      modifies idx, prob
      ensures idx[..] == Exchanged(old(idx[..]), a, b) && prob[..] == Exchanged(old(prob[..]), a, b)
    {
      idx[a], idx[b] := idx[b], idx[a];
      prob[a], prob[b] := prob[b], prob[a];
    }

    /** Moves entry j up until its parent is no larger. */
    method Up(j0: nat, ghost logits: Logits)
      requires idx.Length == prob.Length && j0 < idx.Length
      requires Tracks(logits, idx[..j0 + 1], prob[..j0 + 1]) && HeapBelow(prob[..j0 + 1], j0)
      modifies idx, prob
      ensures Tracks(logits, idx[..j0 + 1], prob[..j0 + 1]) && Heap(prob[..j0 + 1])
      ensures Members(idx[..j0 + 1]) == old(Members(idx[..j0 + 1]))
    {
      hide Tracks, Members, HeapBelow, Heap;
      var j: nat, n := j0, j0 + 1;
      while j > 0
        invariant j < n && Tracks(logits, idx[..n], prob[..n]) && HeapBelow(prob[..n], j)
        invariant Members(idx[..n]) == old(Members(idx[..n]))
        decreases j
      {
        var parent := Parent(j);
        if prob[parent] <= prob[j] {
          break;
        }
        ghost var i, p := idx[..n], prob[..n];
        ExchangeTracks(logits, i, p, j, parent);
        RisesOnce(p, j);
        Swap(j, parent);
        assert idx[..n] == Exchanged(i, j, parent) && prob[..n] == Exchanged(p, j, parent);
        j := parent;
      }
      Risen(prob[..n], j);
    }

    /** Moves entry 0 of the first n down until its children are no smaller. */
    method Down(n: nat, ghost logits: Logits)
      requires idx.Length == prob.Length && 0 < n <= idx.Length
      requires Tracks(logits, idx[..n], prob[..n]) && HeapAbove(prob[..n], 0)
      modifies idx, prob
      ensures Tracks(logits, idx[..n], prob[..n]) && Heap(prob[..n])
      ensures Members(idx[..n]) == old(Members(idx[..n]))
      ensures idx[n..] == old(idx[n..]) && prob[n..] == old(prob[n..])
    {
      hide Tracks, Members, HeapAbove, Heap;
      var j := 0;
      while true
        invariant j < n && Tracks(logits, idx[..n], prob[..n]) && HeapAbove(prob[..n], j)
        invariant Members(idx[..n]) == old(Members(idx[..n]))
        invariant idx[n..] == old(idx[n..]) && prob[n..] == old(prob[n..])
        decreases n - j
      {
        var l := 2 * j + 1;
        if l >= n {
          Sunk(prob[..n], j, j);
          return;
        }
        var m := l;
        if l + 1 < n && prob[l + 1] < prob[l] {
          m := l + 1;
        }
        if prob[j] <= prob[m] {
          Sunk(prob[..n], j, m);
          return;
        }
        ghost var i, p := idx[..n], prob[..n];
        ExchangeTracks(logits, i, p, j, m);
        SinksOnce(p, j, m);
        Swap(j, m);
        assert idx[..n] == Exchanged(i, j, m) && prob[..n] == Exchanged(p, j, m);
        j := m;
      }
    }

    /** The first k places of the arrays become Chosen: sorted, tracked, and bettered by nothing
        left out. */
    method TopK(logits: array<real>, k: nat)
      requires idx.Length == prob.Length && 1 <= k <= logits.Length && logits != prob
      modifies this, idx, prob
      ensures k <= idx.Length == prob.Length && Chosen(logits[..], idx[..k], prob[..k])
      ensures logits[..] == old(logits[..])
    {
      hide Tracks, Members, HeapAbove, HeapBelow, Heap, BestOf, Chosen;
      if idx.Length < k {
        idx, prob := new nat[k], new real[k];
      }
      ghost var l := logits[..];
      // BestOf holds of the logits before i.
      Build(logits, k);
      for i: nat := k to logits.Length
        invariant idx.Length == prob.Length >= k && logits[..] == l && logits != prob
        invariant idx == old(idx) || fresh(idx)
        invariant prob == old(prob) || fresh(prob)
        invariant BestOf(l, idx[..k], prob[..k], i)
      {
        if logits[i] <= prob[0] {
          OneMorePassed(l, idx[..k], prob[..k], i);
          continue;
        }
        ghost var x, p := idx[..k], prob[..k];
        RootReplaced(l, x, p, i);
        idx[0], prob[0] := i, logits[i];
        assert idx[..k] == x[0 := i] && prob[..k] == p[0 := l[i]];
        Down(k, l);
        OneMoreTaken(l, x, p, idx[..k], prob[..k], i);
      }
      Sort(k, l);
    }

    /** Puts the first k logits in the heap. */
    method Build(logits: array<real>, k: nat)
      requires idx.Length == prob.Length >= k && 1 <= k <= logits.Length && logits != prob
      modifies idx, prob
      ensures BestOf(logits[..], idx[..k], prob[..k], k) && logits[..] == old(logits[..])
    {
      hide Tracks, Members, HeapBelow, Heap, BestOf;
      ghost var l := logits[..];
      NothingYet(l, idx[..0], prob[..0]);
      for i: nat := 0 to k
        invariant logits[..] == l
        invariant Tracks(l, idx[..i], prob[..i]) && Heap(prob[..i]) && Members(idx[..i]) == FirstN(i)
      {
        ghost var x, p := idx[..i], prob[..i];
        Appended(l, x, p, i);
        idx[i], prob[i] := i, logits[i];
        assert idx[..i + 1] == x + [i] && prob[..i + 1] == p + [l[i]];
        Up(i, l);
      }
      AllTaken(l, idx[..k], prob[..k]);
    }

    /** Heap sort into descending order. */
    method Sort(k: nat, ghost logits: Logits)
      requires idx.Length == prob.Length >= k >= 1 && BestOf(logits, idx[..k], prob[..k], |logits|)
      modifies idx, prob
      ensures Chosen(logits, idx[..k], prob[..k])
    {
      hide Tracks, Members, HeapAbove, Heap, BestOf, Chosen, Sorting;
      ghost var members, root := Members(idx[..k]), prob[0];
      var n := k;
      SortBegins(logits, idx[..k], prob[..k]);
      while n > 1
        invariant 1 <= n <= k && Sorting(logits, idx[..k], prob[..k], n, root)
        invariant Members(idx[..k]) == members
      {
        var end := n - 1;
        ghost var x, p := idx[..k], prob[..k];
        ExchangeTracksAll(logits, x, p, n, root);
        Swap(0, end);
        assert idx[..k] == Exchanged(x, 0, end) && prob[..k] == Exchanged(p, 0, end);
        assert idx[..end] == idx[..k][..end] && prob[..end] == prob[..k][..end];
        Down(end, logits);
        assert idx[..end] == idx[..k][..end] && prob[..end] == prob[..k][..end];
        assert idx[..k][end..] == Exchanged(x, 0, end)[end..] && prob[..k][end..] == Exchanged(p, 0, end)[end..];
        SortedOnce(logits, x, p, idx[..k], prob[..k], n, root);
        n := end;
      }
      SortEnds(logits, idx[..k], prob[..k], root, members);
    }
  }

  ghost function FirstN(n: nat): (s: set<nat>)
    ensures forall x :: x in s <==> 0 <= x < n
  {
    if n == 0 then {} else FirstN(n - 1) + {n - 1}
  }

  lemma NothingYet(logits: Logits, idx: seq<nat>, prob: seq<real>)
    requires idx == [] && prob == []
    ensures Tracks(logits, idx, prob) && Heap(prob) && Members(idx) == FirstN(0)
  {
  }

  lemma Appended(logits: Logits, idx: seq<nat>, prob: seq<real>, i: nat)
    requires Tracks(logits, idx, prob) && Heap(prob) && Members(idx) == FirstN(i) && |idx| == i < |logits|
    ensures Tracks(logits, idx + [i], prob + [logits[i]]) && HeapBelow(prob + [logits[i]], i)
    ensures Members(idx + [i]) == FirstN(i + 1)
  {
    forall j | 0 <= j < |idx| ensures idx[j] < i {
      assert idx[j] in Members(idx);
    }
    assert Members(idx + [i]) == Members(idx) + {i};
    assert FirstN(i + 1) == FirstN(i) + {i};
  }

  lemma AllTaken(logits: Logits, idx: seq<nat>, prob: seq<real>)
    requires Tracks(logits, idx, prob) && Heap(prob) && 0 < |idx| <= |logits| && Members(idx) == FirstN(|idx|)
    ensures BestOf(logits, idx, prob, |idx|)
  {
    forall x | 0 <= x < |idx| ensures x in idx {
      assert x in FirstN(|idx|);
    }
    forall x | x in idx ensures x < |idx| {
      assert x in Members(idx);
    }
  }

  lemma OneMorePassed(logits: Logits, idx: seq<nat>, prob: seq<real>, i: nat)
    requires BestOf(logits, idx, prob, i) && i < |logits| && logits[i] <= prob[0]
    ensures BestOf(logits, idx, prob, i + 1)
  {
  }

  lemma RootReplaced(logits: Logits, idx: seq<nat>, prob: seq<real>, i: nat)
    requires BestOf(logits, idx, prob, i) && i < |logits|
    ensures Tracks(logits, idx[0 := i], prob[0 := logits[i]]) && HeapAbove(prob[0 := logits[i]], 0)
  {
    forall j | 0 <= j < |idx| ensures idx[j] < i {
      assert idx[j] in idx;
    }
  }

  /** A logit above the root takes its place: what is left out stays below the new root. */
  lemma OneMoreTaken(logits: Logits, idx: seq<nat>, prob: seq<real>, idx': seq<nat>, prob': seq<real>, i: nat)
    requires BestOf(logits, idx, prob, i) && i < |logits| && logits[i] > prob[0]
    requires Tracks(logits, idx', prob') && Heap(prob') && |idx'| == |idx| && Members(idx') == Members(idx[0 := i])
    ensures BestOf(logits, idx', prob', i + 1)
  {
    forall x | x in idx' ensures x < i + 1 && logits[x] >= prob[0] {
      assert x in Members(idx[0 := i]);
      var j :| 0 <= j < |idx| && idx[0 := i][j] == x;
      RootIsLeast(prob, j);
      assert idx[j] in idx;
    }
    assert idx'[0] in idx';
    assert idx[0 := i][0] == i && i in Members(idx');
    forall j | 0 < j < |idx| ensures idx[j] in idx' {
      assert idx[0 := i][j] == idx[j] && idx[j] in Members(idx');
    }
    forall x | 0 <= x < i + 1 && x !in idx' ensures logits[x] <= prob'[0] {
      if x in idx {
        assert x == idx[0];
      }
    }
  }

  /** Midway through the sort: the first n entries are a heap of the rest above what is
      sorted, and every entry is at least least. */
  ghost predicate Sorting(logits: Logits, idx: seq<nat>, prob: seq<real>, n: nat, least: real) {
    && 0 < n <= |prob|
    && Tracks(logits, idx, prob) && Heap(prob[..n])
    && (forall i, j :: n <= i < j < |prob| ==> prob[i] >= prob[j])
    && (forall i, j :: 0 <= i < n <= j < |prob| ==> prob[i] >= prob[j])
    && (forall i :: 0 <= i < |prob| ==> prob[i] >= least)
  }

  lemma SortBegins(logits: Logits, idx: seq<nat>, prob: seq<real>)
    requires BestOf(logits, idx, prob, |logits|)
    ensures Sorting(logits, idx, prob, |prob|, prob[0])
    ensures forall x :: 0 <= x < |logits| && x !in Members(idx) ==> logits[x] <= prob[0]
  {
    assert prob[..|prob|] == prob;
    forall i | 0 <= i < |prob| ensures prob[i] >= prob[0] {
      RootIsLeast(prob, i);
    }
  }

  lemma ExchangeTracksAll(logits: Logits, idx: seq<nat>, prob: seq<real>, n: nat, least: real)
    requires Sorting(logits, idx, prob, n, least) && n > 1
    ensures var e := n - 1;
      && Tracks(logits, Exchanged(idx, 0, e)[..e], Exchanged(prob, 0, e)[..e])
      && HeapAbove(Exchanged(prob, 0, e)[..e], 0)
  {
    ExchangeTracks(logits, idx, prob, 0, n - 1);
  }

  /** The least of the heap joins the sorted part. */
  lemma SortedOnce(logits: Logits, idx: seq<nat>, prob: seq<real>, idx': seq<nat>, prob': seq<real>, n: nat,
      least: real)
    requires Sorting(logits, idx, prob, n, least) && n > 1 && |idx'| == |idx| && |prob'| == |prob|
    requires var e := n - 1;
      && Tracks(logits, idx'[..e], prob'[..e]) && Heap(prob'[..e])
      && Members(idx'[..e]) == Members(Exchanged(idx, 0, e)[..e])
      && idx'[e..] == Exchanged(idx, 0, e)[e..] && prob'[e..] == Exchanged(prob, 0, e)[e..]
    ensures Sorting(logits, idx', prob', n - 1, least) && Members(idx') == Members(idx)
  {
    var e := n - 1;
    var x, p := Exchanged(idx, 0, e), Exchanged(prob, 0, e);
    ExchangeTracks(logits, idx, prob, 0, e);
    assert x == x[..e] + x[e..] && idx' == idx'[..e] + x[e..] && prob' == prob'[..e] + p[e..];
    SamePrefix(logits, x, p, idx', prob', e);
    forall i | 0 <= i < e ensures AboveSorted(prob, n, prob'[i]) && prob'[i] >= least {
      assert idx'[..e][i] in Members(idx'[..e]);
      var k :| 0 <= k < e && x[..e][k] == idx'[i];
      assert p[k] == prob'[i];
      HeapAboveSorted(logits, idx, prob, n, least, if k == 0 then e else k);
    }
    HeapAboveSorted(logits, idx, prob, n, least, 0);
    SortedExtends(prob, prob', n);
  }

  /** v is no smaller than the root of the heap and than what is sorted. */
  ghost predicate AboveSorted(prob: seq<real>, n: nat, v: real) {
    && (prob != [] ==> v >= prob[0])
    && forall j :: n <= j < |prob| ==> v >= prob[j]
  }

  lemma HeapAboveSorted(logits: Logits, idx: seq<nat>, prob: seq<real>, n: nat, least: real, i: nat)
    requires Sorting(logits, idx, prob, n, least) && i < n
    ensures AboveSorted(prob, n, prob[i])
  {
    RootIsLeast(prob[..n], i);
  }

  lemma SortedExtends(prob: seq<real>, prob': seq<real>, n: nat)
    requires 1 < n <= |prob| == |prob'| && prob'[n - 1..] == Exchanged(prob, 0, n - 1)[n - 1..]
    requires forall i, j :: n <= i < j < |prob| ==> prob[i] >= prob[j]
    requires AboveSorted(prob, n, prob[0]) && forall i :: 0 <= i < n - 1 ==> AboveSorted(prob, n, prob'[i])
    ensures forall i, j :: n - 1 <= i < j < |prob| ==> prob'[i] >= prob'[j]
    ensures forall i, j :: 0 <= i < n - 1 <= j < |prob| ==> prob'[i] >= prob'[j]
  {
    forall j | n - 1 <= j < |prob| ensures prob'[j] == if j == n - 1 then prob[0] else prob[j] {
      assert prob'[j] == prob'[n - 1..][j - (n - 1)];
    }
  }

  /** Two lists that agree from e on and have the same members before it are alike. */
  lemma SamePrefix(logits: Logits, x: seq<nat>, p: seq<real>, x': seq<nat>, p': seq<real>, e: nat)
    requires Tracks(logits, x, p) && |x'| == |x| == |p'| && e <= |x|
    requires Tracks(logits, x'[..e], p'[..e]) && Members(x'[..e]) == Members(x[..e])
    requires x'[e..] == x[e..] && p'[e..] == p[e..]
    ensures Tracks(logits, x', p') && Members(x') == Members(x)
  {
    forall i | e <= i < |x| ensures x'[i] == x[i] && p'[i] == p[i] && x'[i] !in x'[..e] {
      assert x'[e..][i - e] == x[e..][i - e] && p'[e..][i - e] == p[e..][i - e];
      assert x[i] !in x[..e];
      assert x[i] !in Members(x'[..e]);
    }
    forall i | 0 <= i < e ensures x'[i] == x'[..e][i] && x'[i] in x'[..e] && p'[i] == p'[..e][i] {
    }
    assert x' == x'[..e] + x'[e..] && x == x[..e] + x[e..];
    assert Members(x') == Members(x'[..e]) + Members(x'[e..]);
    assert Members(x) == Members(x[..e]) + Members(x[e..]);
  }

  lemma SortEnds(logits: Logits, idx: seq<nat>, prob: seq<real>, least: real, members: set<nat>)
    requires Sorting(logits, idx, prob, 1, least) && Members(idx) == members
    requires forall x :: 0 <= x < |logits| && x !in members ==> logits[x] <= least
    ensures Chosen(logits, idx, prob)
  {
  }

  lemma Risen(prob: seq<real>, j: nat)
    requires j < |prob| && HeapBelow(prob, j) && (j > 0 ==> prob[Parent(j)] <= prob[j])
    ensures Heap(prob)
  {
  }

  /** m is j without children, or the smaller child of j and no smaller than j. */
  lemma Sunk(prob: seq<real>, j: nat, m: nat)
    requires j < |prob| && m < |prob| && HeapAbove(prob, j) && prob[j] <= prob[m]
    requires if m == j then 2 * j + 1 >= |prob| else
      m > 0 && Parent(m) == j && (2 * j + 1 < |prob| ==> prob[m] <= prob[2 * j + 1]) &&
        (2 * j + 2 < |prob| ==> prob[m] <= prob[2 * j + 2])
    ensures Heap(prob)
  {
    forall i | 1 <= i < |prob| && Parent(i) == j ensures prob[j] <= prob[i] {
      assert i == 2 * j + 1 || i == 2 * j + 2;
    }
  }
}
