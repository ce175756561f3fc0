// The weight layouts of qwen3tts/codec.go, which turn convolutions into dense products over
// rows laid side by side. Weights are flat arrays, indexed as the source indexes them.

module CodecWeights {

  /** The flat index of (i, j) in rows of n. */
  function Flat(i: nat, j: nat, n: nat): nat {
    i * n + j
  }

  lemma FlatIsOne(i: nat, j: nat, i': nat, j': nat, n: nat)
    requires j < n && j' < n && Flat(i, j, n) == Flat(i', j', n)
    ensures i == i' && j == j'
  {
    if i < i' {
      Steps(i + 1, i', n);
    } else if i' < i {
      Steps(i' + 1, i, n);
    }
  }

  lemma Steps(a: nat, b: nat, n: nat)
    requires a <= b
    ensures a * n <= b * n
  {
    assert b * n == a * n + (b - a) * n;
  }

  lemma FlatFits(i: nat, j: nat, m: nat, n: nat)
    requires i < m && j < n
    ensures Flat(i, j, n) < m * n
  {
    Steps(i + 1, m, n);
  }

  /** Three indices: rows of rows. */
  function Flat3(i: nat, j: nat, k: nat, n: nat, p: nat): nat {
    Flat(Flat(i, j, n), k, p)
  }

  lemma Flat3IsOne(i: nat, j: nat, k: nat, i': nat, j': nat, k': nat, n: nat, p: nat)
    requires j < n && j' < n && k < p && k' < p && Flat3(i, j, k, n, p) == Flat3(i', j', k', n, p)
    ensures i == i' && j == j' && k == k'
  {
    FlatIsOne(Flat(i, j, n), k, Flat(i', j', n), k', p);
    FlatIsOne(i, j, i', j', n);
  }

  lemma Flat3Fits(i: nat, j: nat, k: nat, m: nat, n: nat, p: nat)
    requires i < m && j < n && k < p
    ensures Flat3(i, j, k, n, p) < m * n * p
  {
    FlatFits(i, j, m, n);
    FlatFits(Flat(i, j, n), k, m * n, p);
  }

  lemma Flat3IsFlat(i: nat, j: nat, k: nat, n: nat, p: nat)
    ensures Flat3(i, j, k, n, p) == Flat(i, Flat(j, k, p), n * p)
  {
    assert (i * n + j) * p + k == i * n * p + j * p + k;
    assert i * n * p == i * (n * p);
  }

  function Read(s: seq<real>, i: int): real {
    if 0 <= i < |s| then s[i] else 0.0
  }

  function Sum(n: nat, f: nat -> real): real {
    if n == 0 then 0.0 else Sum(n - 1, f) + f(n - 1)
  }

  lemma {:induction false} SumSame(n: nat, f: nat -> real, g: nat -> real)
    requires forall i: nat | i < n :: f(i) == g(i)
    ensures Sum(n, f) == Sum(n, g)
  {
    if n > 0 {
      SumSame(n - 1, f, g);
    }
  }

  lemma {:induction false} SumZero(n: nat, f: nat -> real)
    requires forall i: nat | i < n :: f(i) == 0.0
    ensures Sum(n, f) == 0.0
  {
    if n > 0 {
      SumZero(n - 1, f);
    }
  }

  lemma {:induction false} SumJoins(m: nat, n: nat, f: nat -> real)
    ensures Sum(m + n, f) == Sum(m, f) + Sum(n, (i: nat) => f(m + i))
    decreases n
  {
    var g := (i: nat) => f(m + i);
    if n > 0 {
      SumJoins(m, n - 1, f);
      SumSame(n - 1, g, (i: nat) => f(m + i));
      assert Sum(m + n, f) == Sum(m + n - 1, f) + f(m + n - 1);
      assert Sum(n, g) == Sum(n - 1, g) + g(n - 1);
    }
    SumSame(n, g, (i: nat) => f(m + i));
  }

  lemma SumSmall(f: nat -> real)
    ensures Sum(1, f) == f(0) && Sum(2, f) == f(0) + f(1)
  {
    assert Sum(0, f) == 0.0 && Sum(1, f) == Sum(0, f) + f(0);
  }

  /** A sum over the flat indices is the double sum. */
  lemma {:induction false} SumFlat(m: nat, n: nat, f: nat -> real, g: nat -> real)
    requires forall i: nat | i < m :: g(i) == Sum(n, (j: nat) => f(Flat(i, j, n)))
    ensures Sum(m * n, f) == Sum(m, g)
  {
    if m > 0 {
      SumFlat(m - 1, n, f, g);
      var last: nat := m - 1;
      var p: nat := last * n;
      assert m * n == p + n;
      SumJoins(p, n, f);
      forall j: nat | j < n ensures p + j == Flat(last, j, n) {
      }
      SumSame(n, (i: nat) => f(p + i), (j: nat) => f(Flat(last, j, n)));
    }
  }

  /** Only the terms at t and just before it count. */
  lemma {:induction false} SumOfTwo(n: nat, f: nat -> real, t: nat)
    requires t < n && forall i: nat | i < n && i != t && i + 1 != t :: f(i) == 0.0
    ensures Sum(n, f) == (if t > 0 then f(t - 1) else 0.0) + f(t)
  {
    if n - 1 > t {
      SumOfTwo(n - 1, f, t);
    } else if t > 0 {
      SumZero(t - 1, f);
      assert Sum(t, f) == Sum(t - 1, f) + f(t - 1);
    }
  }

  // Convolutions.

  /** (a, b, c) comes before (a', b', c') in the loops' order. */
  predicate Earlier(a: nat, b: nat, c: nat, a': nat, b': nat, c': nat) {
    a < a' || (a == a' && (b < b' || (b == b' && c < c')))
  }

  /** W[co][ci][j] of the checkpoint's [out][in][k]. */
  function Weight(w: seq<real>, d1: nat, d2: nat, a: nat, b: nat, c: nat): real {
    Read(w, Flat3(a, b, c, d1, d2))
  }

  /** Every weight before (co, ci, j) is at column j·in+ci of row co. */
  ghost predicate ConvPlaced(t: seq<real>, w: seq<real>, nin: nat, k: nat, co: nat, ci: nat, j: nat) {
    forall a: nat, b: nat, c: nat | b < nin && c < k && Earlier(a, b, c, co, ci, j) ::
      Read(t, Flat3(a, c, b, k, nin)) == Weight(w, nin, k, a, b, c)
  }

  lemma ConvPlacedNext(t: seq<real>, w: seq<real>, nin: nat, k: nat, co: nat, ci: nat, j: nat)
    requires ConvPlaced(t, w, nin, k, co, ci, j) && ci < nin && j < k && Flat3(co, j, ci, k, nin) < |t|
    ensures ConvPlaced(t[Flat3(co, j, ci, k, nin) := Weight(w, nin, k, co, ci, j)], w, nin, k, co, ci, j + 1)
  {
    hide Flat3, Weight;
    var at, v := Flat3(co, j, ci, k, nin), Weight(w, nin, k, co, ci, j);
    forall a: nat, b: nat, c: nat | b < nin && c < k && Earlier(a, b, c, co, ci, j + 1)
      ensures Read(t[at := v], Flat3(a, c, b, k, nin)) == Weight(w, nin, k, a, b, c)
    {
      if Flat3(a, c, b, k, nin) == at {
        Flat3IsOne(a, c, b, co, j, ci, k, nin);
      }
    }
  }

  /** The weights of a convolution as the rows of a dense layer over k input rows. */
  method LoadConv(w: seq<real>, nin: nat, nout: nat, k: nat) returns (t: array<real>)
    requires |w| == nout * nin * k
    ensures t.Length == nout * k * nin
    ensures ConvPlaced(t[..], w, nin, k, nout, 0, 0)
  {
    hide ConvPlaced, Flat3, Weight;
    t := new real[nout * k * nin](_ => 0.0);
    ConvPlacedNone(t[..], w, nin, k);
    for co: nat := 0 to nout
      invariant ConvPlaced(t[..], w, nin, k, co, 0, 0)
    {
      for ci: nat := 0 to nin
        invariant ConvPlaced(t[..], w, nin, k, co, ci, 0)
      {
        for j: nat := 0 to k
          invariant ConvPlaced(t[..], w, nin, k, co, ci, j)
        {
          Flat3Fits(co, j, ci, nout, k, nin);
          Flat3Fits(co, ci, j, nout, nin, k);
          WeightIs(w, nin, k, co, ci, j);
          ConvPlacedNext(t[..], w, nin, k, co, ci, j);
          ghost var was := t[..];
          t[Flat3(co, j, ci, k, nin)] := w[Flat3(co, ci, j, nin, k)];
          assert t[..] == was[Flat3(co, j, ci, k, nin) := Weight(w, nin, k, co, ci, j)];
        }
        ConvPlacedRow(t[..], w, nin, k, co, ci);
      }
      ConvPlacedChannel(t[..], w, nin, k, co);
    }
  }

  lemma WeightIs(w: seq<real>, d1: nat, d2: nat, a: nat, b: nat, c: nat)
    requires Flat3(a, b, c, d1, d2) < |w|
    ensures w[Flat3(a, b, c, d1, d2)] == Weight(w, d1, d2, a, b, c)
  {
  }

  lemma ConvPlacedNone(t: seq<real>, w: seq<real>, nin: nat, k: nat)
    ensures ConvPlaced(t, w, nin, k, 0, 0, 0)
  {
  }

  lemma ConvPlacedRow(t: seq<real>, w: seq<real>, nin: nat, k: nat, co: nat, ci: nat)
    requires ConvPlaced(t, w, nin, k, co, ci, k)
    ensures ConvPlaced(t, w, nin, k, co, ci + 1, 0)
  {
    hide Flat3, Weight;
  }

  lemma ConvPlacedChannel(t: seq<real>, w: seq<real>, nin: nat, k: nat, co: nat)
    requires ConvPlaced(t, w, nin, k, co, nin, 0)
    ensures ConvPlaced(t, w, nin, k, co + 1, 0, 0)
  {
    hide Flat3, Weight;
  }

  /** Row r of a dense layer with n inputs, over a. */
  function Dense(t: seq<real>, n: nat, r: nat, a: seq<real>): real {
    Sum(n, (c: nat) => Read(t, Flat(r, c, n)) * Read(a, c))
  }

  /** The convolution at one output: over taps j, over channels ci, W[co][ci][j] x[j][ci],
      where a holds the tap rows one after another. */
  function Convolved(w: seq<real>, nin: nat, k: nat, co: nat, a: seq<real>): real {
    Sum(k, (j: nat) => Sum(nin, (ci: nat) => Weight(w, nin, k, co, ci, j) * Read(a, Flat(j, ci, nin))))
  }

  /** The dense product with the loaded weights is the convolution. */
  lemma LoadedConvConvolves(t: seq<real>, w: seq<real>, nin: nat, nout: nat, k: nat, co: nat, a: seq<real>)
    requires ConvPlaced(t, w, nin, k, nout, 0, 0) && co < nout
    ensures Dense(t, k * nin, co, a) == Convolved(w, nin, k, co, a)
  {
    hide Flat, Weight, Sum;
    var f := (c: nat) => Read(t, Flat(co, c, k * nin)) * Read(a, c);
    var g := (j: nat) => Sum(nin, (ci: nat) => Weight(w, nin, k, co, ci, j) * Read(a, Flat(j, ci, nin)));
    forall j: nat | j < k ensures g(j) == Sum(nin, (ci: nat) => f(Flat(j, ci, nin))) {
      forall ci: nat | ci < nin
        ensures f(Flat(j, ci, nin)) == Weight(w, nin, k, co, ci, j) * Read(a, Flat(j, ci, nin))
      {
        Flat3IsFlat(co, j, ci, k, nin);
        assert Earlier(co, ci, j, nout, 0, 0);
        assert Read(t, Flat3(co, j, ci, k, nin)) == Weight(w, nin, k, co, ci, j);
      }
      SumSame(nin, (ci: nat) => Weight(w, nin, k, co, ci, j) * Read(a, Flat(j, ci, nin)),
              (ci: nat) => f(Flat(j, ci, nin)));
    }
    SumFlat(k, nin, f, g);
    assert Dense(t, k * nin, co, a) == Sum(k * nin, f);
    assert Convolved(w, nin, k, co, a) == Sum(k, g);
  }

  // Transposed convolutions, of kernel r or 2r and stride r.

  /** Where tap 0 or 1 of weight (ci, co, q) goes: row j·out+co, column tap·in+ci. */
  function TransAt(nin: nat, nout: nat, taps: nat, j: nat, co: nat, tap: nat, ci: nat): nat {
    Flat3(Flat(j, co, nout), tap, ci, taps, nin)
  }

  /** The kernel position that input row t-(taps-1)+tap meets at offset j of block t. */
  function Kernel(r: nat, taps: nat, j: nat, tap: nat): nat
    requires tap < taps <= 2
  {
    if tap == taps - 1 then j else r + j
  }

  /** Every weight before (ci, co, j) is placed. */
  ghost predicate TransPlaced(t: seq<real>, w: seq<real>, nin: nat, nout: nat, k: nat, r: nat, taps: nat,
                              ci: nat, co: nat, j: nat)
    requires taps <= 2
  {
    forall a: nat, b: nat, c: nat, tap: nat
      | b < nout && c < r && a < nin && tap < taps && Earlier(a, b, c, ci, co, j) ::
      Read(t, TransAt(nin, nout, taps, c, b, tap, a)) == Weight(w, nout, k, a, b, Kernel(r, taps, c, tap))
  }

  lemma TransAtIsOne(nin: nat, nout: nat, taps: nat, j: nat, co: nat, tap: nat, ci: nat,
                     j': nat, co': nat, tap': nat, ci': nat)
    requires co < nout && co' < nout && tap < taps && tap' < taps && ci < nin && ci' < nin
    requires TransAt(nin, nout, taps, j, co, tap, ci) == TransAt(nin, nout, taps, j', co', tap', ci')
    ensures j == j' && co == co' && tap == tap' && ci == ci'
  {
    Flat3IsOne(Flat(j, co, nout), tap, ci, Flat(j', co', nout), tap', ci', taps, nin);
    FlatIsOne(j, co, j', co', nout);
  }

  lemma TransAtFits(nin: nat, nout: nat, taps: nat, r: nat, j: nat, co: nat, tap: nat, ci: nat)
    requires j < r && co < nout && tap < taps && ci < nin
    ensures TransAt(nin, nout, taps, j, co, tap, ci) < r * nout * taps * nin
  {
    FlatFits(j, co, r, nout);
    Flat3Fits(Flat(j, co, nout), tap, ci, r * nout, taps, nin);
  }

  /** One pass of the innermost loop: the newer row's weight, then the older row's. */
  function TransWrite(t: seq<real>, w: seq<real>, nin: nat, nout: nat, k: nat, r: nat, taps: nat,
                      ci: nat, co: nat, j: nat): seq<real>
    requires 1 <= taps <= 2
    requires forall tap: nat | tap < taps :: TransAt(nin, nout, taps, j, co, tap, ci) < |t|
  {
    var u := t[TransAt(nin, nout, taps, j, co, taps - 1, ci) := Weight(w, nout, k, ci, co, j)];
    if taps == 2 then u[TransAt(nin, nout, taps, j, co, 0, ci) := Weight(w, nout, k, ci, co, r + j)] else u
  }

  lemma TransPlacedNext(t: seq<real>, w: seq<real>, nin: nat, nout: nat, k: nat, r: nat, taps: nat,
                        ci: nat, co: nat, j: nat)
    requires 1 <= taps <= 2 && ci < nin && co < nout && j < r
    requires forall tap: nat | tap < taps :: TransAt(nin, nout, taps, j, co, tap, ci) < |t|
    requires TransPlaced(t, w, nin, nout, k, r, taps, ci, co, j)
    ensures TransPlaced(TransWrite(t, w, nin, nout, k, r, taps, ci, co, j), w, nin, nout, k, r, taps, ci, co, j + 1)
  {
    hide TransAt, Weight;
    var u := TransWrite(t, w, nin, nout, k, r, taps, ci, co, j);
    forall a: nat, b: nat, c: nat, tap: nat |
        b < nout && c < r && a < nin && tap < taps && Earlier(a, b, c, ci, co, j + 1)
      ensures Read(u, TransAt(nin, nout, taps, c, b, tap, a)) == Weight(w, nout, k, a, b, Kernel(r, taps, c, tap))
    {
      var at := TransAt(nin, nout, taps, c, b, tap, a);
      if at == TransAt(nin, nout, taps, j, co, taps - 1, ci) {
        TransAtIsOne(nin, nout, taps, c, b, tap, a, j, co, taps - 1, ci);
      }
      if at == TransAt(nin, nout, taps, j, co, 0, ci) {
        TransAtIsOne(nin, nout, taps, c, b, tap, a, j, co, 0, ci);
      }
      if a == ci && b == co && c == j && tap < taps - 1 {
        assert tap == 0;
      }
      if taps == 2 && TransAt(nin, nout, taps, j, co, 0, ci) == TransAt(nin, nout, taps, j, co, 1, ci) {
        TransAtIsOne(nin, nout, taps, j, co, 0, ci, j, co, 1, ci);
      }
    }
  }

  /** Every weight of a transposed convolution, at the dense row of its output and the column of
      the input row that its kernel position meets. */
  method LoadTransposed(w: seq<real>, nin: nat, nout: nat, k: nat, r: nat) returns (t: array<real>)
    requires |w| == nin * nout * k && r > 0 && (k == r || k == 2 * r)
    ensures t.Length == r * nout * (k / r) * nin
    ensures TransPlaced(t[..], w, nin, nout, k, r, Taps(k, r), nin, 0, 0)
  {
    hide TransPlaced, TransAt, Weight, TransWrite;
    var taps: nat := Taps(k, r);
    t := new real[r * nout * taps * nin](_ => 0.0);
    TransPlacedNone(t[..], w, nin, nout, k, r, taps);
    for ci: nat := 0 to nin
      invariant TransPlaced(t[..], w, nin, nout, k, r, taps, ci, 0, 0)
    {
      for co: nat := 0 to nout
        invariant TransPlaced(t[..], w, nin, nout, k, r, taps, ci, co, 0)
      {
        for j: nat := 0 to r
          invariant TransPlaced(t[..], w, nin, nout, k, r, taps, ci, co, j)
        {
          forall tap: nat | tap < taps ensures TransAt(nin, nout, taps, j, co, tap, ci) < t.Length {
            TransAtFits(nin, nout, taps, r, j, co, tap, ci);
          }
          TransPlacedNext(t[..], w, nin, nout, k, r, taps, ci, co, j);
          ghost var was := t[..];
          Flat3Fits(ci, co, j, nin, nout, k);
          WeightIs(w, nout, k, ci, co, j);
          t[TransAt(nin, nout, taps, j, co, taps - 1, ci)] := w[Flat3(ci, co, j, nout, k)];
          if taps == 2 {
            Flat3Fits(ci, co, r + j, nin, nout, k);
            WeightIs(w, nout, k, ci, co, r + j);
            t[TransAt(nin, nout, taps, j, co, 0, ci)] := w[Flat3(ci, co, r + j, nout, k)];
          }
          TransWritten(was, t[..], w, nin, nout, k, r, taps, ci, co, j);
        }
        TransPlacedRow(t[..], w, nin, nout, k, r, taps, ci, co);
      }
      TransPlacedChannel(t[..], w, nin, nout, k, r, taps, ci);
    }
  }

  /** k / r. */
  function Taps(k: nat, r: nat): (taps: nat)
    requires r > 0 && (k == r || k == 2 * r)
    ensures taps == k / r && taps == (if k == r then 1 else 2)
  {
    k / r
  }

  lemma TransWritten(was: seq<real>, now: seq<real>, w: seq<real>, nin: nat, nout: nat, k: nat, r: nat, taps: nat,
                     ci: nat, co: nat, j: nat)
    requires 1 <= taps <= 2
    requires forall tap: nat | tap < taps :: TransAt(nin, nout, taps, j, co, tap, ci) < |was|
    requires var u := was[TransAt(nin, nout, taps, j, co, taps - 1, ci) := Weight(w, nout, k, ci, co, j)];
      now == if taps == 2 then u[TransAt(nin, nout, taps, j, co, 0, ci) := Weight(w, nout, k, ci, co, r + j)] else u
    ensures now == TransWrite(was, w, nin, nout, k, r, taps, ci, co, j)
  {
  }

  lemma TransPlacedNone(t: seq<real>, w: seq<real>, nin: nat, nout: nat, k: nat, r: nat, taps: nat)
    requires taps <= 2
    ensures TransPlaced(t, w, nin, nout, k, r, taps, 0, 0, 0)
  {
  }

  lemma TransPlacedRow(t: seq<real>, w: seq<real>, nin: nat, nout: nat, k: nat, r: nat, taps: nat, ci: nat, co: nat)
    requires taps <= 2 && TransPlaced(t, w, nin, nout, k, r, taps, ci, co, r)
    ensures TransPlaced(t, w, nin, nout, k, r, taps, ci, co + 1, 0)
  {
    hide TransAt, Weight, Kernel;
  }

  lemma TransPlacedChannel(t: seq<real>, w: seq<real>, nin: nat, nout: nat, k: nat, r: nat, taps: nat, ci: nat)
    requires taps <= 2 && TransPlaced(t, w, nin, nout, k, r, taps, ci, nout, 0)
    ensures TransPlaced(t, w, nin, nout, k, r, taps, ci + 1, 0, 0)
  {
    hide TransAt, Weight, Kernel;
  }

  /** Row i of the input, zeros before it. */
  function Input(x: seq<seq<real>>, i: int, ci: nat): real {
    if 0 <= i < |x| then Read(x[i], ci) else 0.0
  }

  /** What input row i gives kernel position q of channel co. */
  function Given(w: seq<real>, nin: nat, nout: nat, k: nat, x: seq<seq<real>>, i: int, co: nat, q: nat): real {
    Sum(nin, (ci: nat) => Weight(w, nout, k, ci, co, q) * Input(x, i, ci))
  }

  /** A transposed convolution as it is defined: input row i adds its k products to the
      outputs from i·r on. This is output p of channel co. */
  function Scattered(w: seq<real>, nin: nat, nout: nat, k: nat, r: nat, x: seq<seq<real>>, p: nat, co: nat): real {
    Sum(|x|, (i: nat) => if 0 <= p - i * r < k then Given(w, nin, nout, k, x, i, co, p - i * r) else 0.0)
  }

  /** a holds the input rows of block t one after another, the older first. */
  ghost predicate SideBySide(a: seq<real>, nin: nat, taps: nat, x: seq<seq<real>>, t: nat) {
    forall tap: nat, ci: nat | tap < taps && ci < nin ::
      Read(a, Flat(tap, ci, nin)) == Input(x, t - (taps - 1) + tap, ci)
  }

  /** Only rows t-1 and t reach block t, and t-1 only with kernel 2r. */
  lemma ReachesBlock(r: nat, k: nat, t: nat, j: nat, i: nat)
    requires r > 0 && j < r && (k == r || k == 2 * r)
    ensures 0 <= Flat(t, j, r) - i * r < k <==> i == t || (i + 1 == t && k == 2 * r)
    ensures i == t ==> Flat(t, j, r) - i * r == j
    ensures i + 1 == t ==> Flat(t, j, r) - i * r == r + j
  {
    if i > t {
      Steps(t + 1, i, r);
    } else if i + 1 < t {
      Steps(i + 2, t, r);
    }
  }

  /** The dense product with the loaded weights is block t of the transposed convolution. */
  lemma LoadedTransposedScatters(wt: seq<real>, w: seq<real>, nin: nat, nout: nat, k: nat, r: nat,
                                 x: seq<seq<real>>, t: nat, a: seq<real>, j: nat, co: nat)
    requires r > 0 && (k == r || k == 2 * r) && t < |x| && j < r && co < nout
    requires TransPlaced(wt, w, nin, nout, k, r, Taps(k, r), nin, 0, 0)
    requires SideBySide(a, nin, Taps(k, r), x, t)
    ensures Dense(wt, Taps(k, r) * nin, Flat(j, co, nout), a) ==
            Scattered(w, nin, nout, k, r, x, Flat(t, j, r), co)
  {
    hide Flat, Weight, Sum, Given;
    var taps := Taps(k, r);
    DenseOfTaps(wt, w, nin, nout, k, r, x, t, a, j, co);
    var f := (i: nat) =>
      if 0 <= Flat(t, j, r) - i * r < k then Given(w, nin, nout, k, x, i, co, Flat(t, j, r) - i * r) else 0.0;
    forall i: nat ensures f(i) == (if i == t then Given(w, nin, nout, k, x, i, co, j)
                                   else if i + 1 == t && k == 2 * r then Given(w, nin, nout, k, x, i, co, r + j)
                                     else 0.0)
    {
      ReachesBlock(r, k, t, j, i);
    }
    SumOfTwo(|x|, f, t);
    assert Scattered(w, nin, nout, k, r, x, Flat(t, j, r), co) == Sum(|x|, f);
    if k == 2 * r && t == 0 {
      GivenZero(w, nin, nout, k, x, co, r + j);
    }
  }

  lemma GivenZero(w: seq<real>, nin: nat, nout: nat, k: nat, x: seq<seq<real>>, co: nat, q: nat)
    ensures Given(w, nin, nout, k, x, -1, co, q) == 0.0
  {
    SumZero(nin, (ci: nat) => Weight(w, nout, k, ci, co, q) * Input(x, -1, ci));
  }

  /** The dense product, tap by tap. */
  lemma DenseOfTaps(wt: seq<real>, w: seq<real>, nin: nat, nout: nat, k: nat, r: nat,
                    x: seq<seq<real>>, t: nat, a: seq<real>, j: nat, co: nat)
    requires r > 0 && (k == r || k == 2 * r) && j < r && co < nout
    requires TransPlaced(wt, w, nin, nout, k, r, Taps(k, r), nin, 0, 0)
    requires SideBySide(a, nin, Taps(k, r), x, t)
    ensures Dense(wt, Taps(k, r) * nin, Flat(j, co, nout), a) ==
            (if k == r then 0.0 else Given(w, nin, nout, k, x, t - 1, co, r + j)) + Given(w, nin, nout, k, x, t, co, j)
  {
    hide Flat, Weight, Sum, Given, TransPlaced, SideBySide;
    var taps := Taps(k, r);
    var f := (c: nat) => Read(wt, Flat(Flat(j, co, nout), c, taps * nin)) * Read(a, c);
    var g := (tap: nat) =>
      if tap < taps then Given(w, nin, nout, k, x, t - (taps - 1) + tap, co, Kernel(r, taps, j, tap)) else 0.0;
    forall tap: nat | tap < taps ensures g(tap) == Sum(nin, (ci: nat) => f(Flat(tap, ci, nin))) {
      TapIsGiven(wt, w, nin, nout, k, r, x, t, a, j, co, tap);
      SumSame(nin,
        (ci: nat) => Read(wt, Flat(Flat(j, co, nout), Flat(tap, ci, nin), taps * nin)) * Read(a, Flat(tap, ci, nin)),
              (ci: nat) => f(Flat(tap, ci, nin)));
    }
    SumFlat(taps, nin, f, g);
    SumSmall(g);
  }

  lemma TapIsGiven(wt: seq<real>, w: seq<real>, nin: nat, nout: nat, k: nat, r: nat,
                   x: seq<seq<real>>, t: nat, a: seq<real>, j: nat, co: nat, tap: nat)
    requires r > 0 && (k == r || k == 2 * r) && j < r && co < nout && tap < Taps(k, r)
    requires TransPlaced(wt, w, nin, nout, k, r, Taps(k, r), nin, 0, 0)
    requires SideBySide(a, nin, Taps(k, r), x, t)
    ensures Sum(nin, (ci: nat) =>
        Read(wt, Flat(Flat(j, co, nout), Flat(tap, ci, nin), Taps(k, r) * nin)) * Read(a, Flat(tap, ci, nin))) ==
            Given(w, nin, nout, k, x, t - (Taps(k, r) - 1) + tap, co, Kernel(r, Taps(k, r), j, tap))
  {
    hide Flat, Weight, Sum;
    var taps := Taps(k, r);
    var f := (ci: nat) =>
      Read(wt, Flat(Flat(j, co, nout), Flat(tap, ci, nin), taps * nin)) * Read(a, Flat(tap, ci, nin));
    var g := (ci: nat) => Weight(w, nout, k, ci, co, Kernel(r, taps, j, tap)) * Input(x, t - (taps - 1) + tap, ci);
    forall ci: nat | ci < nin ensures f(ci) == g(ci) {
      Flat3IsFlat(Flat(j, co, nout), tap, ci, taps, nin);
      assert Earlier(ci, co, j, nin, 0, 0);
      assert Read(wt, TransAt(nin, nout, taps, j, co, tap, ci)) == Weight(w, nout, k, ci, co, Kernel(r, taps, j, tap));
    }
    SumSame(nin, f, g);
  }
}
