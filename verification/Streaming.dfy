// The streaming codec decoder of qwen3tts/decoder.go: layers that keep their left context
// and work frame by frame, proved to give what the whole sequence gives at once.

/** Causal layers over a whole sequence. */
module CausalLayers {
  import A = AttentionWindow

  type Row = seq<real>

  /** Output t is apply of k input rows, dilation apart, the last of them row t. */
  datatype Conv = Conv(k: nat, dilation: nat, apply: seq<Row> -> Row) {
    function History(): nat {
      if k == 0 then 0 else (k - 1) * dilation
    }

    ghost predicate Valid() {
      k > 0 && dilation > 0
    }
  }

  /** A layer: rows are activated, convolved, and finished with the row they came from. A
      residual unit finishes with src + conv2(act2(y)), a plain convolution with its bias. */
  datatype Layer = Layer(act: Row -> Row, conv: Conv, finish: (Row, Row) -> Row, zero: Row) {
    ghost predicate Valid() {
      conv.Valid() && act(zero) == zero
    }
  }

  /** The row at i of x preceded by zeros. */
  function At(x: seq<Row>, i: int, zero: Row): Row {
    if 0 <= i < |x| then x[i] else zero
  }

  /** The dilated rows that output t reads. */
  function Window(c: Conv, x: seq<Row>, t: int, zero: Row): (w: seq<Row>)
    ensures |w| == c.k
  {
    seq(c.k, j requires 0 <= j < c.k => At(x, t - c.History() + j * c.dilation, zero))
  }

  function Map(act: Row -> Row, x: seq<Row>): (r: seq<Row>)
    ensures |r| == |x| && forall i :: 0 <= i < |x| ==> r[i] == act(x[i])
  {
    seq(|x|, i requires 0 <= i < |x| => act(x[i]))
  }

  /** Output t of the layer over the zero-padded input x. */
  function Output(l: Layer, x: seq<Row>, t: nat): Row
    requires t < |x|
  {
    l.finish(x[t], l.conv.apply(Map(l.act, Window(l.conv, x, t, l.zero))))
  }

  /** The layer over a whole sequence. */
  function Whole(l: Layer, x: seq<Row>): (r: seq<Row>)
    ensures |r| == |x| && forall t :: 0 <= t < |x| ==> r[t] == Output(l, x, t)
  {
    seq(|x|, t requires 0 <= t < |x| => Output(l, x, t))
  }

  /** A tap's offset stays inside the window. */
  lemma TapInside(c: Conv, j: nat)
    requires c.Valid() && j < c.k
    ensures 0 <= j * c.dilation <= c.History()
  {
    Scaled(j, c.k - 1, c.dilation);
  }

  lemma Scaled(a: nat, b: nat, d: nat)
    requires a <= b
    ensures a * d <= b * d
  {
    assert b * d == a * d + (b - a) * d;
  }

  /** The rows that output t reads: row t and, dilation apart, those before it, zero before the first. */
  lemma WindowReads(c: Conv, x: seq<Row>, t: nat, zero: Row, j: nat)
    requires c.Valid() && j < c.k
    ensures Window(c, x, t, zero)[c.k - 1 - j] ==
      if 0 <= t - j * c.dilation < |x| then x[t - j * c.dilation] else zero
  {
    Apart(c.k - 1, j, c.dilation);
  }

  lemma Apart(n: nat, j: nat, d: nat)
    requires j <= n
    ensures n * d - (n - j) * d == j * d
  {
  }

  /** An output depends on nothing else. */
  lemma OutputReads(l: Layer, x: seq<Row>, y: seq<Row>, t: nat)
    requires l.Valid() && t < |x| && t < |y|
    requires forall j :: 0 <= j < l.conv.k && j * l.conv.dilation <= t ==>
      x[t - j * l.conv.dilation] == y[t - j * l.conv.dilation]
    ensures Output(l, x, t) == Output(l, y, t)
  {
    var c := l.conv;
    forall i | 0 <= i < c.k ensures Window(c, x, t, l.zero)[i] == Window(c, y, t, l.zero)[i] {
      WindowReads(c, x, t, l.zero, c.k - 1 - i);
      WindowReads(c, y, t, l.zero, c.k - 1 - i);
      Scaled(0, c.k - 1 - i, c.dilation);
    }
    Scaled(0, 0, c.dilation);
    assert x[t - 0 * c.dilation] == y[t - 0 * c.dilation];
    assert Window(c, x, t, l.zero) == Window(c, y, t, l.zero);
  }

  /** Causality: what comes later changes no output. */
  lemma Causal(l: Layer, x: seq<Row>, y: seq<Row>)
    requires l.Valid()
    ensures Whole(l, x + y)[..|x|] == Whole(l, x)
  {
    forall t | 0 <= t < |x| ensures Output(l, x + y, t) == Output(l, x, t) {
      forall j | 0 <= j < l.conv.k ensures Window(l.conv, x + y, t, l.zero)[j] == Window(l.conv, x, t, l.zero)[j] {
        TapInside(l.conv, j);
      }
      assert Window(l.conv, x + y, t, l.zero) == Window(l.conv, x, t, l.zero);
    }
  }

  /** The outputs that y adds after x. */
  function Added(l: Layer, x: seq<Row>, y: seq<Row>): (r: seq<Row>)
    ensures |r| == |y|
  {
    Whole(l, x + y)[|x|..]
  }

  // Attention to the last frames.

  /** A layer of the transformer: entry makes what is kept of a frame, its key and value at its
      position; mix finishes a frame from what it attends to, newest first. */
  datatype Attention = Attention(entry: (Row, nat) -> Row, mix: (Row, nat, seq<Row>) -> Row)

  /** What frame t attends to: itself and the frames before it, as far as the window goes. */
  function Attended(a: Attention, x: seq<Row>, t: nat): (w: seq<Row>)
    requires t < |x|
    ensures |w| == if t + 1 < A.WINDOW then t + 1 else A.WINDOW
    ensures forall j :: 0 <= j < |w| ==> w[j] == a.entry(x[t - j], t - j)
  {
    seq(if t + 1 < A.WINDOW then t + 1 else A.WINDOW, j requires 0 <= j <= t => a.entry(x[t - j], t - j))
  }

  function Mixed(a: Attention, x: seq<Row>, t: nat): Row
    requires t < |x|
  {
    a.mix(x[t], t, Attended(a, x, t))
  }

  function WholeMix(a: Attention, x: seq<Row>): (r: seq<Row>)
    ensures |r| == |x| && forall t :: 0 <= t < |x| ==> r[t] == Mixed(a, x, t)
  {
    seq(|x|, t requires 0 <= t < |x| => Mixed(a, x, t))
  }

  /** Frames that come later change no output of attention either. */
  lemma MixCausal(a: Attention, x: seq<Row>, y: seq<Row>)
    ensures WholeMix(a, x + y)[..|x|] == WholeMix(a, x)
  {
    forall t | 0 <= t < |x| ensures Mixed(a, x + y, t) == Mixed(a, x, t) {
      assert Attended(a, x + y, t) == Attended(a, x, t);
    }
  }

  // A chain of layers, each of whose output rows may hold several rows of the next.

  datatype Step = Convolves(layer: Layer) | Attends(attention: Attention) {
    ghost predicate Valid() {
      Convolves? ==> layer.Valid()
    }
  }

  /** A step over a whole sequence. */
  function WholeOf(s: Step, x: seq<Row>): (r: seq<Row>)
    ensures |r| == |x|
  {
    match s
    case Convolves(layer) => Whole(layer, x)
    case Attends(attention) => WholeMix(attention, x)
  }

  /** The outputs that y adds after x. */
  function AddedOf(s: Step, x: seq<Row>, y: seq<Row>): (r: seq<Row>)
    ensures |r| == |y|
  {
    WholeOf(s, x + y)[|x|..]
  }

  lemma AddedOfCompletes(s: Step, x: seq<Row>, y: seq<Row>)
    requires s.Valid()
    ensures WholeOf(s, x) + AddedOf(s, x, y) == WholeOf(s, x + y)
  {
    if s.Convolves? {
      Causal(s.layer, x, y);
    } else {
      MixCausal(s.attention, x, y);
    }
  }

  datatype Link = Link(step: Step, split: Row -> seq<Row>)

  function Split(f: Row -> seq<Row>, x: seq<Row>): seq<Row> {
    if x == [] then [] else Split(f, x[..|x| - 1]) + f(x[|x| - 1])
  }

  lemma {:induction false} SplitJoins(f: Row -> seq<Row>, x: seq<Row>, y: seq<Row>)
    ensures Split(f, x + y) == Split(f, x) + Split(f, y)
    decreases |y|
  {
    if y == [] {
      assert x + y == x;
    } else {
      var init, last := y[..|y| - 1], y[|y| - 1];
      SplitJoins(f, x, init);
      assert (x + y)[..|x + y| - 1] == x + init && (x + y)[|x + y| - 1] == last;
      assert Split(f, x + y) == Split(f, x + init) + f(last);
      Regroup(Split(f, x), Split(f, init), f(last));
    }
  }

  lemma Regroup(a: seq<Row>, b: seq<Row>, c: seq<Row>)
    ensures (a + b) + c == a + (b + c)
  {
  }

  /** One row is split by itself. */
  lemma SplitOne(f: Row -> seq<Row>, r: Row)
    ensures Split(f, [r]) == f(r)
  {
    assert [r][..0] == [] && [] + f(r) == f(r);
  }

  /** The chain over a whole sequence. */
  function WholeChain(links: seq<Link>, x: seq<Row>): seq<Row> {
    if links == [] then x else WholeChain(links[1..], Split(links[0].split, WholeOf(links[0].step, x)))
  }

  /** A chain is its links one after another: each runs over what the one before it passes on. */
  lemma {:induction false} ChainJoins(a: seq<Link>, b: seq<Link>, x: seq<Row>)
    ensures WholeChain(a + b, x) == WholeChain(b, WholeChain(a, x))
    ensures forall l :: WholeChain([l], x) == Split(l.split, WholeOf(l.step, x))
    decreases |a|
  {
    forall l ensures WholeChain([l], x) == Split(l.split, WholeOf(l.step, x)) {
      assert [l][1..] == [];
    }
    if a == [] {
      assert a + b == b;
    } else {
      assert (a + b)[1..] == a[1..] + b;
      ChainJoins(a[1..], b, Split(a[0].split, WholeOf(a[0].step, x)));
    }
  }

  /** One frame through the chain: each layer adds to what it has seen, and passes on. */
  function Frame(links: seq<Link>, past: seq<seq<Row>>, y: seq<Row>): (r: (seq<Row>, seq<seq<Row>>))
    requires |past| == |links|
    ensures |r.1| == |links|
    decreases |links|
  {
    if links == [] then (y, []) else
      var out := Split(links[0].split, AddedOf(links[0].step, past[0], y));
      var (z, rest) := Frame(links[1..], past[1..], out);
      (z, [past[0] + y] + rest)
  }

  /** What every layer has seen when the chain has seen x. */
  function Seen(links: seq<Link>, x: seq<Row>): (r: seq<seq<Row>>)
    ensures |r| == |links|
  {
    if links == [] then [] else [x] + Seen(links[1..], Split(links[0].split, WholeOf(links[0].step, x)))
  }

  /** A frame's output is what the frame adds to the whole chain's. */
  lemma {:induction false} FrameAdds(links: seq<Link>, x: seq<Row>, y: seq<Row>)
    requires forall k :: 0 <= k < |links| ==> links[k].step.Valid()
    ensures var (z, seen) := Frame(links, Seen(links, x), y);
      WholeChain(links, x) + z == WholeChain(links, x + y) && seen == Seen(links, x + y)
    decreases |links|
  {
    if links != [] {
      var l := links[0];
      var out := Split(l.split, AddedOf(l.step, x, y));
      AddedOfCompletes(l.step, x, y);
      SplitJoins(l.split, WholeOf(l.step, x), AddedOf(l.step, x, y));
      assert Seen(links, x)[1..] == Seen(links[1..], Split(l.split, WholeOf(l.step, x)));
      FrameAdds(links[1..], Split(l.split, WholeOf(l.step, x)), out);
    }
  }

  /** Frames one after another. */
  function Frames(links: seq<Link>, past: seq<seq<Row>>, ys: seq<seq<Row>>): seq<Row>
    requires |past| == |links|
    decreases |ys|
  {
    if ys == [] then [] else
      var (z, seen) := Frame(links, past, ys[0]);
      z + Frames(links, seen, ys[1..])
  }

  function Joined(ys: seq<seq<Row>>): seq<Row> {
    if ys == [] then [] else ys[0] + Joined(ys[1..])
  }

  /** For any number of frames after a reset, the outputs are those of the whole sequence. */
  lemma {:induction false} StreamingIsWhole(links: seq<Link>, x: seq<Row>, ys: seq<seq<Row>>)
    requires forall k :: 0 <= k < |links| ==> links[k].step.Valid()
    ensures WholeChain(links, x) + Frames(links, Seen(links, x), ys) == WholeChain(links, x + Joined(ys))
    decreases |ys|
  {
    hide WholeChain, Frame, Seen;
    if ys == [] {
      assert x + Joined(ys) == x;
    } else {
      var (z, seen) := Frame(links, Seen(links, x), ys[0]);
      FrameAdds(links, x, ys[0]);
      StreamingIsWhole(links, x + ys[0], ys[1..]);
      assert x + Joined(ys) == x + ys[0] + Joined(ys[1..]);
      Regroup(WholeChain(links, x), z, Frames(links, seen, ys[1..]));
    }
  }
}

/** One layer's kept history, on both paths of the decoder. */
module ConvStream {
  import opened CausalLayers

  const BLOCK_ROWS := 32

  function Min(a: nat, b: nat): nat {
    if a < b then a else b
  }

  /** The rows of a are the activated rows of the zero-padded x, from first on. */
  ghost predicate Holds(l: Layer, x: seq<Row>, first: int, a: seq<Row>) {
    forall i :: 0 <= i < |a| ==> a[i] == l.act(At(x, first + i, l.zero))
  }

  lemma HoldsMore(l: Layer, past: seq<Row>, src: seq<Row>, first: int, a: seq<Row>)
    requires Holds(l, past, first, a) && first + |a| == |past|
    ensures Holds(l, past + src, first, a + Map(l.act, src))
  {
    forall i | 0 <= i < |a| + |src|
      ensures (a + Map(l.act, src))[i] == l.act(At(past + src, first + i, l.zero))
    {
    }
  }

  lemma HoldsSlice(l: Layer, x: seq<Row>, first: int, a: seq<Row>, lo: nat, hi: nat)
    requires Holds(l, x, first, a) && lo <= hi <= |a|
    ensures Holds(l, x, first + lo, a[lo..hi])
  {
    forall i | 0 <= i < hi - lo ensures a[lo..hi][i] == l.act(At(x, first + lo + i, l.zero)) {
      assert a[lo..hi][i] == a[lo + i];
    }
  }

  /** The activated rows r0-h to r1 of a block: those before the frame from the history. */
  lemma HoldsBlock(l: Layer, past: seq<Row>, src: seq<Row>, hist: seq<Row>, r0: nat, r1: nat, from: nat)
    requires Holds(l, past, |past| - |hist|, hist) && r0 < r1 <= |src|
    requires from == if |hist| > r0 then |hist| - r0 else 0
    ensures Holds(l, past + src, |past| + r0 - |hist|,
      (if from > 0 then hist[r0..] else []) + Map(l.act, src[r0 - |hist| + from..r1]))
  {
    var a := (if from > 0 then hist[r0..] else []) + Map(l.act, src[r0 - |hist| + from..r1]);
    forall i | 0 <= i < |a| ensures a[i] == l.act(At(past + src, |past| + r0 - |hist| + i, l.zero)) {
      if i < from {
        assert a[i] == hist[r0 + i];
      } else {
        assert a[i] == l.act(src[r0 - |hist| + from..r1][i - from]) == l.act(src[r0 - |hist| + i]);
      }
    }
  }

  /** The k rows of a that output t is computed from, where a begins History() rows early. */
  function Taps(c: Conv, a: seq<Row>, t: nat): (w: seq<Row>)
    requires c.Valid() && t + c.History() < |a|
    ensures |w| == c.k
  {
    seq(c.k, j requires 0 <= j < c.k => TapInside(c, j); a[t + j * c.dilation])
  }

  /** With dilation one the rows overlap in memory. */
  lemma TapsOverlap(c: Conv, a: seq<Row>, t: nat)
    requires c.Valid() && t + c.History() < |a| && c.dilation == 1
    ensures t + c.k <= |a| && Taps(c, a, t) == a[t..t + c.k]
  {
    assert c.History() == c.k - 1;
  }

  /** Output t of a block that starts at r0, from the block's activated rows. */
  function FromBlock(l: Layer, src: seq<Row>, r0: nat, a: seq<Row>, t: nat): Row
    requires l.Valid() && t + l.conv.History() < |a| && r0 + t < |src|
  {
    l.finish(src[r0 + t], l.conv.apply(Taps(l.conv, a, t)))
  }

  /** It is that row of the whole sequence's outputs. */
  lemma BlockIsWhole(l: Layer, past: seq<Row>, src: seq<Row>, r0: nat, a: seq<Row>, t: nat)
    requires l.Valid() && t + l.conv.History() < |a| && r0 + t < |src|
    requires Holds(l, past + src, |past| + r0 - l.conv.History(), a)
    ensures FromBlock(l, src, r0, a, t) == Added(l, past, src)[r0 + t]
  {
    var c := l.conv;
    var w := Map(l.act, Window(c, past + src, |past| + (r0 + t), l.zero));
    forall j | 0 <= j < c.k ensures Taps(c, a, t)[j] == w[j] {
      TapInside(c, j);
      assert Taps(c, a, t)[j] == a[t + j * c.dilation];
    }
    assert Taps(c, a, t) == w;
  }

  /** now is was, but for the rows lo to hi, which are those of want. */
  ghost predicate Written(was: seq<Row>, now: seq<Row>, want: seq<Row>, lo: nat, hi: nat) {
    && |was| == |now| && |want| <= |now| && hi <= |want|
    && (forall t :: lo <= t < hi ==> now[t] == want[t])
    && (forall t :: 0 <= t < |now| && !(lo <= t < hi) ==> now[t] == was[t])
  }

  lemma WrittenAll(was: seq<Row>, now: seq<Row>, want: seq<Row>)
    requires Written(was, now, want, 0, |want|)
    ensures now[..|want|] == want && now[|want|..] == was[|want|..]
  {
  }

  lemma WrittenNone(was: seq<Row>, want: seq<Row>, lo: nat)
    requires lo <= |want| <= |was|
    ensures Written(was, was, want, lo, lo)
  {
  }

  lemma WrittenNext(was: seq<Row>, now: seq<Row>, want: seq<Row>, lo: nat, t: nat)
    requires Written(was, now, want, lo, t) && lo <= t < |want|
    ensures Written(was, now[t := want[t]], want, lo, t + 1)
  {
  }

  /** Every row of the parts is that of want, and the rows past want are as they were. */
  ghost predicate Covered(was: seq<Row>, now: seq<Row>, want: seq<Row>, parts: seq<(nat, nat)>) {
    && |was| == |now| && |want| <= |now| && now[|want|..] == was[|want|..]
    && forall i, t :: 0 <= i < |parts| && parts[i].0 * BLOCK_ROWS <= t < Min(parts[i].1 * BLOCK_ROWS, |want|) ==>
         now[t] == want[t]
  }

  lemma CoveredNone(was: seq<Row>, want: seq<Row>, parts: seq<(nat, nat)>)
    requires |want| <= |was|
    ensures Covered(was, was, want, parts[..0])
  {
  }

  lemma CoveredNext(was: seq<Row>, mid: seq<Row>, now: seq<Row>, want: seq<Row>, parts: seq<(nat, nat)>, i: nat)
    requires i < |parts| && Covered(was, mid, want, parts[..i])
    requires Written(mid, now, want, parts[i].0 * BLOCK_ROWS, Min(parts[i].1 * BLOCK_ROWS, |want|))
    ensures Covered(was, now, want, parts[..i + 1])
  {
    forall j, t | 0 <= j < i + 1 && parts[j].0 * BLOCK_ROWS <= t < Min(parts[j].1 * BLOCK_ROWS, |want|)
      ensures now[t] == want[t]
    {
      if j < i {
        assert parts[..i][j] == parts[j];
      }
    }
    forall t | |want| <= t < |now| ensures now[t] == was[t] {
      assert mid[|want|..][t - |want|] == was[|want|..][t - |want|];
    }
  }

  predicate HasBlock(rows: nat, b: nat) {
    b * BLOCK_ROWS < rows
  }

  ghost predicate HasPart(parts: seq<(nat, nat)>, b: nat) {
    exists i :: 0 <= i < |parts| && parts[i].0 <= b < parts[i].1
  }

  /** The parts hold every block of rows, and no more. */
  ghost predicate Cover(parts: seq<(nat, nat)>, rows: nat) {
    && (forall i :: 0 <= i < |parts| ==> parts[i].0 < parts[i].1 && (parts[i].1 - 1) * BLOCK_ROWS < rows)
    && (forall b: nat | HasBlock(rows, b) :: HasPart(parts, b))
  }

  /** The part that holds row t. */
  lemma PartOf(parts: seq<(nat, nat)>, rows: nat, t: nat) returns (i: nat)
    requires Cover(parts, rows) && t < rows
    ensures i < |parts| && parts[i].0 * BLOCK_ROWS <= t < parts[i].1 * BLOCK_ROWS
  {
    var b: nat := t / BLOCK_ROWS;
    assert b * BLOCK_ROWS <= t < (b + 1) * BLOCK_ROWS;
    assert HasBlock(rows, b);
    i :| 0 <= i < |parts| && parts[i].0 <= b < parts[i].1;
  }

  lemma CoveredAll(was: seq<Row>, now: seq<Row>, want: seq<Row>, parts: seq<(nat, nat)>)
    requires Covered(was, now, want, parts) && Cover(parts, |want|)
    ensures now[..|want|] == want && now[|want|..] == was[|want|..]
  {
    hide Cover;
    forall t: nat | t < |want| ensures now[t] == want[t] {
      var i := PartOf(parts, |want|, t);
    }
  }

  class Stream {
    const layer: Layer
    /** h rows of history, then room for the activated rows of a short frame. */
    const hist: array<Row>
    ghost const room: nat
    /** The new history that the part which ended last leaves. */
    var stage: seq<Row>
    /** The rows taken so far. */
    ghost var past: seq<Row>

    ghost predicate Valid()
      reads this, hist
    {
      && layer.Valid()
      && hist.Length == layer.conv.History() + room
      && Holds(layer, past, |past| - layer.conv.History(), hist[..layer.conv.History()])
    }

    constructor (layer: Layer, room: nat)
      requires layer.Valid()
      ensures Valid() && fresh(hist) && past == [] && this.layer == layer && this.room == room
    {
      this.layer := layer;
      this.room := room;
      hist := new Row[layer.conv.History() + room](_ => layer.zero);
      stage, past := [], [];
    }

    /** The activated rows of a short frame go behind the history. */
    method Fill(src: array<Row>, rows: nat)
      requires Valid() && rows <= room && rows <= src.Length && src != hist
      modifies hist
      ensures hist[..layer.conv.History() + rows] ==
        old(hist[..layer.conv.History()]) + Map(layer.act, src[..rows])
    {
      hide Holds;
      var h := layer.conv.History();
      for i := 0 to rows
        invariant hist[..h] == old(hist[..h])
        invariant forall j :: h <= j < h + i ==> hist[j] == layer.act(src[j - h])
      {
        hist[h + i] := layer.act(src[i]);
      }
    }

    /** The last rows of a short frame become the history. */
    method Shift(rows: nat)
      requires hist.Length == layer.conv.History() + room && rows <= room
      modifies hist
      ensures hist[..layer.conv.History()] == old(hist[rows..rows + layer.conv.History()])
    {
      var h := layer.conv.History();
      for i := 0 to h
        invariant forall j :: i <= j < h + rows ==> hist[j] == old(hist[j])
        invariant forall j :: 0 <= j < i ==> hist[j] == old(hist[rows + j])
      {
        hist[i] := hist[rows + i];
      }
    }

    /** The k dilated rows of each output, side by side. */
    method Gather(a: seq<Row>, rows: nat) returns (col: array2<Row>)
      requires layer.Valid() && |a| == layer.conv.History() + rows
      ensures fresh(col) && col.Length0 == rows && col.Length1 == layer.conv.k
      ensures forall t, j :: 0 <= t < rows && 0 <= j < layer.conv.k ==> col[t, j] == Taps(layer.conv, a, t)[j]
    {
      var k, d := layer.conv.k, layer.conv.dilation;
      col := new Row[rows, k]((_, _) => layer.zero);
      for t := 0 to rows
        invariant forall u, j :: 0 <= u < t && 0 <= j < k ==> col[u, j] == Taps(layer.conv, a, u)[j]
      {
        for j := 0 to k
          invariant forall u, i :: 0 <= u < t && 0 <= i < k ==> col[u, i] == Taps(layer.conv, a, u)[i]
          invariant forall i :: 0 <= i < j ==> col[t, i] == Taps(layer.conv, a, t)[i]
        {
          TapInside(layer.conv, j);
          col[t, j] := a[t + j * d];
        }
      }
    }

    /** The products of a block of n rows from r0, each output from its taps in a. */
    method Products(src: array<Row>, dst: array<Row>, ghost rows: nat, a: seq<Row>, r0: nat, n: nat)
      requires layer.Valid() && r0 + n <= rows <= src.Length && rows <= dst.Length && src != dst
      requires |a| == n + layer.conv.History()
      requires Holds(layer, past + src[..rows], |past| + r0 - layer.conv.History(), a)
      modifies dst
      ensures Written(old(dst[..]), dst[..], Added(layer, past, src[..rows]), r0, r0 + n)
    {
      hide Written, Taps, Added, Holds;
      ghost var x, want := src[..rows], Added(layer, past, src[..rows]);
      var k := layer.conv.k;
      var col := new Row[0, 0];
      if layer.conv.dilation > 1 {
        col := Gather(a, n);
      }
      WrittenNone(dst[..], want, r0);
      for t := 0 to n
        invariant Written(old(dst[..]), dst[..], want, r0, r0 + t)
        modifies dst
      {
        var taps: seq<Row>;
        if layer.conv.dilation > 1 {
          taps := seq(k, j requires 0 <= j < k reads col => col[t, j]);
        } else {
          TapsOverlap(layer.conv, a, t);
          taps := a[t..t + k];
        }
        assert taps == Taps(layer.conv, a, t);
        BlockIsWhole(layer, past, x, r0, a, t);
        WrittenNext(old(dst[..]), dst[..], want, r0, r0 + t);
        ghost var was := dst[..];
        dst[r0 + t] := layer.finish(src[r0 + t], layer.conv.apply(taps));
        assert dst[..] == was[r0 + t := want[r0 + t]];
      }
    }

    /** A short frame: activate behind the history, convolve, and keep the last rows. */
    method Short(src: array<Row>, dst: array<Row>, rows: nat)
      requires Valid() && rows <= room && rows <= src.Length && rows <= dst.Length
      requires src != dst && hist != src && hist != dst
      modifies this`past, hist, dst
      ensures Valid() && past == old(past + src[..rows])
      ensures dst[..rows] == Added(layer, old(past), old(src[..rows]))
      ensures dst[rows..] == old(dst[rows..])
    {
      hide Holds, Added, Written, Map;
      ghost var x, was := src[..rows], dst[..];
      var h := layer.conv.History();
      ghost var before := hist[..h];
      HoldsMore(layer, past, x, |past| - h, before);
      Fill(src, rows);
      var a := hist[..h + rows];
      assert src[..rows] == x && a == before + Map(layer.act, x);
      Products(src, dst, rows, a, 0, rows);
      WrittenAll(was, dst[..], Added(layer, past, x));
      ghost var done := dst[..];
      HoldsSlice(layer, past + x, |past| - h, a, rows, rows + h);
      ghost var kept := hist[rows..rows + h];
      assert a[rows..rows + h] == kept;
      Shift(rows);
      past := past + x;
      assert hist[..h] == kept && dst[..] == done;
    }

    /** Parts [start, end) of a row-block dispatch, on one worker. */
    method Block(src: array<Row>, dst: array<Row>, rows: nat, start: nat, end: nat)
      requires Valid() && rows <= src.Length && rows <= dst.Length
      requires start < end && (end - 1) * BLOCK_ROWS < rows
      requires src != dst && hist != src && hist != dst
      modifies this`stage, dst
      ensures Written(old(dst[..]), dst[..], Added(layer, past, src[..rows]), start * BLOCK_ROWS,
        Min(end * BLOCK_ROWS, rows))
      ensures if end * BLOCK_ROWS < rows then stage == old(stage) else Staged(layer, past + src[..rows], stage)
    {
      hide Holds, Added, Written;
      ghost var x := src[..rows];
      var h := layer.conv.History();
      var r0, r1 := start * BLOCK_ROWS, Min(end * BLOCK_ROWS, rows);
      var n := r1 - r0;
      var from := if h > r0 then h - r0 else 0;
      HoldsBlock(layer, past, x, hist[..h], r0, r1, from);
      var a := (if from > 0 then hist[r0..h] else []) + Map(layer.act, src[r0 - h + from..r1]);
      assert a == (if from > 0 then hist[..h][r0..] else []) + Map(layer.act, x[r0 - h + from..r1]);
      if r1 == rows {
        HoldsSlice(layer, past + x, |past| + r0 - h, a, n, n + h);
        stage := a[n..n + h];
      }
      Products(src, dst, rows, a, r0, n);
    }

    /** A frame of many rows, in row blocks: any parts that cover the blocks, in any order. */
    method Blocks(src: array<Row>, dst: array<Row>, rows: nat, parts: seq<(nat, nat)>)
      requires Valid() && 0 < rows <= src.Length && rows <= dst.Length
      requires src != dst && hist != src && hist != dst
      requires Cover(parts, rows)
      modifies this`stage, this`past, hist, dst
      ensures Valid() && past == old(past + src[..rows])
      ensures dst[..rows] == Added(layer, old(past), old(src[..rows]))
      ensures dst[rows..] == old(dst[rows..])
    {
      hide Holds, Added, Written, Covered;
      ghost var x, want, was := src[..rows], Added(layer, past, src[..rows]), dst[..];
      ghost var last := PartOf(parts, rows, rows - 1);
      ghost var kept := hist[..layer.conv.History()];
      CoveredNone(was, want, parts);
      for i := 0 to |parts|
        invariant Covered(was, dst[..], want, parts[..i])
        invariant last < i ==> Staged(layer, past + x, stage)
        invariant hist[..layer.conv.History()] == kept
        modifies this`stage, dst
      {
        ghost var mid := dst[..];
        Block(src, dst, rows, parts[i].0, parts[i].1);
        CoveredNext(was, mid, dst[..], want, parts, i);
      }
      assert parts[..|parts|] == parts;
      CoveredAll(was, dst[..], want, parts);
      assert |stage| == layer.conv.History() && Holds(layer, past + x, |past + x| - layer.conv.History(), stage);
      for i := 0 to |stage|
        invariant hist[..i] == stage[..i]
        modifies hist
      {
        hist[i] := stage[i];
      }
      assert hist[..layer.conv.History()] == stage;
      past := past + x;
    }
  }

  /** The rows are the history after x. */
  ghost predicate Staged(l: Layer, x: seq<Row>, rows: seq<Row>) {
    |rows| == l.conv.History() && Holds(l, x, |x| - l.conv.History(), rows)
  }
}

/** A layer of the transformer, run frame by frame over its window. */
module AttentionStream {
  import opened CausalLayers
  import A = AttentionWindow

  class Stream {
    const attention: Attention
    const window: A.Window<Row>
    /** The rows taken so far. */
    ghost var past: seq<Row>

    ghost predicate Valid()
      reads this, window, window.slots
    {
      && window.Valid() && |window.frames| == |past|
      && forall t :: 0 <= t < |past| ==> window.frames[t] == attention.entry(past[t], t)
    }

    constructor (attention: Attention)
      ensures Valid() && fresh(window) && fresh(window.slots) && past == [] && this.attention == attention
    {
      this.attention := attention;
      window := new A.Window<Row>([]);
      past := [];
    }

    /** One frame: its entry goes to the window, and it is finished from what the window holds. */
    method Next(x: Row) returns (z: Row)
      requires Valid()
      modifies this`past, window, window.slots
      ensures Valid() && past == old(past) + [x] && z == Mixed(attention, past, |past| - 1)
    {
      var t := window.pos;
      var seen := window.Attend(attention.entry(x, t));
      past := past + [x];
      assert seen == Attended(attention, past, t);
      z := attention.mix(x, t, seen);
    }

    /** Frame after frame, the outputs are those that the frames add to the whole sequence's. */
    method Run(y: seq<Row>) returns (out: seq<Row>)
      requires Valid()
      modifies this`past, window, window.slots
      ensures Valid() && past == old(past) + y
      ensures out == AddedOf(Attends(attention), old(past), y)
    {
      out := [];
      for i := 0 to |y|
        invariant Valid() && past == old(past) + y[..i]
        invariant out == WholeMix(attention, past)[|old(past)|..]
      {
        var z := Next(y[i]);
        assert past == old(past) + y[..i] + [y[i]] && y[..i + 1] == y[..i] + [y[i]];
        MixCausal(attention, old(past) + y[..i], [y[i]]);
        out := out + [z];
      }
      assert y[..|y|] == y;
    }
  }
}

/** A chain of streams, each with its own state, run frame by frame. */
module StreamChain {
  import opened CausalLayers
  import opened ConvStream
  import AttentionStream

  /** How an executor with any number of workers divides the row blocks. */
  type Splitter = nat -> seq<(nat, nat)>

  ghost predicate Divides(split: Splitter) {
    forall rows: nat :: rows > 0 ==> Cover(split(rows), rows)
  }

  /** One worker takes all blocks. */
  function AllBlocks(rows: nat): seq<(nat, nat)> {
    [(0, (rows + BLOCK_ROWS - 1) / BLOCK_ROWS)]
  }

  lemma AllBlocksDivides()
    ensures Divides(AllBlocks)
  {
    forall rows: nat | rows > 0 ensures Cover(AllBlocks(rows), rows) {
      var parts := AllBlocks(rows);
      forall b: nat | HasBlock(rows, b) ensures HasPart(parts, b) {
        assert parts[0].0 <= b < parts[0].1;
      }
    }
  }

  datatype Runner = Conv(stream: Stream) | Attn(attn: AttentionStream.Stream)

  function Objects(r: Runner): set<object> {
    match r
    case Conv(s) => {s, s.hist}
    case Attn(s) => {s, s.window, s.window.slots}
  }

  function AllObjects(rs: seq<Runner>): set<object> {
    if rs == [] then {} else Objects(rs[0]) + AllObjects(rs[1..])
  }

  /** The runner is ready to run the step, from the rows it has taken so far. */
  ghost predicate Ready(r: Runner, s: Step)
    reads Objects(r)
  {
    match (r, s)
    case (Conv(c), Convolves(layer)) => c.Valid() && c.layer == layer && c.room >= 2 * BLOCK_ROWS
    case (Attn(a), Attends(attention)) => a.Valid() && a.attention == attention
    case _ => false
  }

  ghost function Past(r: Runner): seq<Row>
    reads Objects(r)
  {
    match r
    case Conv(s) => s.past
    case Attn(s) => s.past
  }

  /** Runners of their own, one for each link. */
  ghost predicate Chain(rs: seq<Runner>, links: seq<Link>)
    reads AllObjects(rs)
  {
    |rs| == |links| &&
    (rs == [] || (Ready(rs[0], links[0].step) && Objects(rs[0]) !! AllObjects(rs[1..]) && Chain(rs[1..], links[1..])))
  }

  ghost function Pasts(rs: seq<Runner>): (r: seq<seq<Row>>)
    reads AllObjects(rs)
    ensures |r| == |rs|
  {
    if rs == [] then [] else [Past(rs[0])] + Pasts(rs[1..])
  }

  /** A frame through one layer: few rows on one thread, more in row blocks. */
  method RunLayer(s: Stream, y: seq<Row>, split: Splitter) returns (out: seq<Row>)
    requires s.Valid() && s.room >= 2 * BLOCK_ROWS && Divides(split)
    modifies s, s.hist
    ensures s.Valid() && s.past == old(s.past) + y && out == Added(s.layer, old(s.past), y)
  {
    hide Added, Holds, Cover;
    var src := new Row[|y|](i requires 0 <= i < |y| => y[i]);
    var dst := new Row[|y|](_ => []);
    assert src[..|y|] == y;
    if |y| < 2 * BLOCK_ROWS {
      s.Short(src, dst, |y|);
    } else {
      s.Blocks(src, dst, |y|, split(|y|));
    }
    out := dst[..|y|];
  }

  /** A frame through one link. */
  method RunStep(r: Runner, s: Step, y: seq<Row>, split: Splitter) returns (out: seq<Row>)
    requires Ready(r, s) && Divides(split)
    modifies Objects(r)
    ensures Ready(r, s) && Past(r) == old(Past(r)) + y && out == AddedOf(s, old(Past(r)), y)
  {
    match r
    case Conv(c) => out := RunLayer(c, y, split);
    case Attn(a) => out := a.Run(y);
  }

  lemma ChainParts(rs: seq<Runner>, links: seq<Link>)
    requires |rs| == |links| > 0
    ensures AllObjects(rs) == Objects(rs[0]) + AllObjects(rs[1..])
    ensures Chain(rs, links) <==>
      Ready(rs[0], links[0].step) && Objects(rs[0]) !! AllObjects(rs[1..]) && Chain(rs[1..], links[1..])
    ensures Pasts(rs) == [Past(rs[0])] + Pasts(rs[1..])
  {
    hide Ready, Past, Objects;
  }

  lemma ChainLength(rs: seq<Runner>, links: seq<Link>)
    requires Chain(rs, links)
    ensures |Pasts(rs)| == |rs| == |links|
  {
  }

  lemma NoLinks(y: seq<Row>)
    ensures Pasts([]) == [] && (y, []) == Frame([], [], y)
  {
  }

  lemma {:induction false} AllAllocated(rs: seq<Runner>)
    ensures forall o :: o in AllObjects(rs) ==> allocated(o)
  {
    if rs != [] {
      AllAllocated(rs[1..]);
    }
  }

  /** A frame through the links, one after another. */
  method RunFrame(rs: seq<Runner>, links: seq<Link>, y: seq<Row>, split: Splitter) returns (z: seq<Row>)
    requires Chain(rs, links) && Divides(split)
    modifies AllObjects(rs)
    ensures Chain(rs, links) && (z, Pasts(rs)) == Frame(links, old(Pasts(rs)), y)
    decreases |links|, 0
  {
    ChainLength(rs, links);
    if links == [] {
      z := y;
      NoLinks(y);
    } else {
      hide Frame, AddedOf, Split, Divides, AllObjects, Objects, Ready, Past;
      var r, rest := rs[0], rs[1..];
      FrameStep(links, Pasts(rs), y);
      ChainParts(rs, links);
      var out := RunFirst(r, links[0].step, rest, links[1..], y, split);
      z := RunRest(r, links[0].step, rest, links[1..], Split(links[0].split, out), split);
      ChainParts(rs, links);
    }
  }

  /** The first link, while the other runners keep what they have. */
  method RunFirst(r: Runner, s: Step, rs: seq<Runner>, links: seq<Link>, y: seq<Row>, split: Splitter)
    returns (out: seq<Row>)
    requires Ready(r, s) && Divides(split) && Objects(r) !! AllObjects(rs) && Chain(rs, links)
    modifies Objects(r)
    ensures Ready(r, s) && Past(r) == old(Past(r)) + y && out == AddedOf(s, old(Past(r)), y)
    ensures Chain(rs, links) && Pasts(rs) == old(Pasts(rs))
  {
    hide Divides, AddedOf, Objects;
    AllAllocated(rs);
    out := RunStep(r, s, y, split);
  }

  /** The links after the first, whose runner r keeps what it has. */
  method RunRest(r: Runner, s: Step, rs: seq<Runner>, links: seq<Link>, y: seq<Row>, split: Splitter)
    returns (z: seq<Row>)
    requires Chain(rs, links) && Divides(split) && Ready(r, s) && Objects(r) !! AllObjects(rs)
    modifies AllObjects(rs)
    ensures Chain(rs, links) && (z, Pasts(rs)) == Frame(links, old(Pasts(rs)), y)
    ensures Ready(r, s) && Past(r) == old(Past(r))
    decreases |links|, 1
  {
    hide Frame, Divides, Chain, Pasts, AllObjects;
    z := RunFrame(rs, links, y, split);
  }

  lemma FrameStep(links: seq<Link>, pasts: seq<seq<Row>>, y: seq<Row>)
    requires |pasts| == |links| && links != []
    ensures var r := Frame(links[1..], pasts[1..], Split(links[0].split, AddedOf(links[0].step, pasts[0], y)));
      Frame(links, pasts, y) == (r.0, [pasts[0] + y] + r.1)
  {
    hide AddedOf, Split;
  }

  /** Frames as they come. */
  method RunFrames(rs: seq<Runner>, links: seq<Link>, ys: seq<seq<Row>>, split: Splitter) returns (z: seq<Row>)
    requires Chain(rs, links) && Divides(split)
    requires forall k :: 0 <= k < |rs| ==> Pasts(rs)[k] == []
    modifies AllObjects(rs)
    ensures Chain(rs, links) && z == WholeChain(links, Joined(ys))
  {
    hide Frame, Frames, WholeChain, Seen;
    ghost var start := Pasts(rs);
    NothingSeen(links, start);
    z := [];
    FramesAll(links, start, ys);
    for t := 0 to |ys|
      invariant Chain(rs, links)
      invariant z + Frames(links, Pasts(rs), ys[t..]) == Frames(links, start, ys)
    {
      ghost var pasts := Pasts(rs);
      ghost var was := z;
      var out := RunFrame(rs, links, ys[t], split);
      NextFrame(links, pasts, ys, t);
      z := z + out;
      Regroup(was, out, Frames(links, Pasts(rs), ys[t + 1..]));
    }
    NoFrames(links, Pasts(rs), ys);
    assert z + [] == z;
    ChainValid(rs, links);
    StreamingIsWhole(links, [], ys);
    assert [] + Joined(ys) == Joined(ys);
    assert [] + Frames(links, start, ys) == Frames(links, start, ys);
  }

  lemma {:induction false} ChainValid(rs: seq<Runner>, links: seq<Link>)
    requires Chain(rs, links)
    ensures forall k :: 0 <= k < |links| ==> links[k].step.Valid()
  {
    if links != [] {
      ChainValid(rs[1..], links[1..]);
      assert links == [links[0]] + links[1..];
    }
  }

  lemma FramesAll(links: seq<Link>, past: seq<seq<Row>>, ys: seq<seq<Row>>)
    requires |past| == |links|
    ensures [] + Frames(links, past, ys[0..]) == Frames(links, past, ys)
  {
    assert ys[0..] == ys;
  }

  lemma NextFrame(links: seq<Link>, past: seq<seq<Row>>, ys: seq<seq<Row>>, t: nat)
    requires |past| == |links| && t < |ys|
    ensures var (z, seen) := Frame(links, past, ys[t]);
      Frames(links, past, ys[t..]) == z + Frames(links, seen, ys[t + 1..])
  {
    hide Frame;
    assert ys[t..][1..] == ys[t + 1..];
  }

  lemma NoFrames(links: seq<Link>, past: seq<seq<Row>>, ys: seq<seq<Row>>)
    requires |past| == |links|
    ensures Frames(links, past, ys[|ys|..]) == []
  {
  }

  /** Before the first frame no layer has seen anything. */
  lemma {:induction false} NothingSeen(links: seq<Link>, start: seq<seq<Row>>)
    requires |start| == |links| && forall k :: 0 <= k < |start| ==> start[k] == []
    ensures Seen(links, []) == start && WholeChain(links, []) == []
    decreases |links|
  {
    if links != [] {
      assert WholeOf(links[0].step, []) == [];
      NothingSeen(links[1..], start[1..]);
      assert start == [[]] + start[1..];
    }
  }
}
