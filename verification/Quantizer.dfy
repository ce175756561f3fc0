// The 8-bit dynamic quantizer of tinymel/quant.go (ONNX DynamicQuantizeLinear), over the reals.

module Quantizer {
  import W = CodecWeights

  /** The nearest integer, the even one of two. */
  function RoundToEven(x: real): int {
    var f, d := x.Floor, x - x.Floor as real;
    if d < 0.5 || (d == 0.5 && f % 2 == 0) then f else f + 1
  }

  /** Nothing is further than half from its rounding. */
  lemma RoundIsNear(x: real)
    ensures -0.5 <= RoundToEven(x) as real - x <= 0.5
  {
  }

  lemma RoundKeepsOrder(x: real, y: real)
    requires x <= y
    ensures RoundToEven(x) <= RoundToEven(y)
  {
    assert x.Floor == y.Floor || x.Floor + 1 <= y.Floor;
  }

  lemma RoundOfWhole(n: int)
    ensures RoundToEven(n as real) == n
  {
  }

  function Clamp(q: int): (r: nat)
    ensures r <= 255
  {
    if q < 0 then 0 else if q > 255 then 255 else q
  }

  datatype Params = Params(scale: real, zero: nat)

  function Min(s: seq<real>): (m: real)
    ensures m <= 0.0 && forall i :: 0 <= i < |s| ==> m <= s[i]
    ensures m == 0.0 || m in s
  {
    if s == [] then 0.0 else
    var m := Min(s[..|s| - 1]);
    assert forall i :: 0 <= i < |s| - 1 ==> s[..|s| - 1][i] == s[i];
    if s[|s| - 1] < m then s[|s| - 1] else m
  }

  function Max(s: seq<real>): (m: real)
    ensures m >= 0.0 && forall i :: 0 <= i < |s| ==> m >= s[i]
    ensures m == 0.0 || m in s
  {
    if s == [] then 0.0 else
    var m := Max(s[..|s| - 1]);
    assert forall i :: 0 <= i < |s| - 1 ==> s[..|s| - 1][i] == s[i];
    if s[|s| - 1] > m then s[|s| - 1] else m
  }

  /** The scale and zero point of a range. */
  function ParamsOf(lo: real, hi: real): (p: Params)
    requires lo <= 0.0 <= hi
    ensures p.scale > 0.0 && p.zero <= 255
  {
    var scale := if hi == lo then 1.0 else (hi - lo) / 255.0;
    Params(scale, Clamp(RoundToEven(-lo / scale)))
  }

  /** One value. */
  function Quantized(p: Params, x: real): (q: nat)
    requires p.scale > 0.0
    ensures q <= 255
  {
    Clamp(RoundToEven(x / p.scale) + p.zero)
  }

  lemma DividesInOrder(x: real, y: real, s: real)
    requires s > 0.0 && x <= y
    ensures x / s <= y / s
  {
    assert y / s == x / s + (y - x) / s;
  }

  /** The range is exactly 255 steps, the zero point is never clamped, and the top of the range rounds
      to at most 255 above it. */
  lemma RangeFits(lo: real, hi: real)
    requires lo <= 0.0 <= hi
    ensures ParamsOf(lo, hi).scale * 255.0 == hi - lo || (hi == lo && ParamsOf(lo, hi).scale == 1.0)
    ensures var p := ParamsOf(lo, hi);
      0.0 <= -lo / p.scale && -lo / p.scale + hi / p.scale <= 255.0 && p.zero == RoundToEven(-lo / p.scale)
  {
    var p := ParamsOf(lo, hi);
    if hi == lo {
      RoundOfWhole(0);
      assert -lo / p.scale == 0.0;
    } else {
      DividesInOrder(0.0, -lo, p.scale);
      DividesInOrder(0.0, hi, p.scale);
      assert -lo / p.scale + hi / p.scale == (hi - lo) / p.scale == 255.0;
      RoundKeepsOrder(0.0, -lo / p.scale);
      RoundKeepsOrder(-lo / p.scale, 255.0);
      RoundOfWhole(0);
      RoundOfWhole(255);
    }
  }

  lemma Scaled(q: int, x: real, s: real)
    requires s > 0.0 && -0.5 <= q as real - x / s <= 0.5
    ensures -s / 2.0 <= s * q as real - x <= s / 2.0
  {
    var d := q as real - x / s;
    assert s * (x / s) == x;
    assert s * d == s * q as real - x;
    Times(s, -0.5, d);
    Times(s, d, 0.5);
  }

  lemma Times(s: real, a: real, b: real)
    requires s > 0.0 && a <= b
    ensures s * a <= s * b
  {
    assert s * b == s * a + s * (b - a);
  }

  /** Clamping does not move a value of the range further than half from its byte. */
  lemma ClampedIsNear(v: real, m: real, rv: int, rm: int)
    requires 0.0 <= m && -m <= v && v + m <= 255.0 && 0 <= rm <= 255
    requires -0.5 <= rv as real - v <= 0.5 && -0.5 <= rm as real - m <= 0.5
    ensures -0.5 <= (Clamp(rv + rm) - rm) as real - v <= 0.5
  {
    if rv + rm < 0 {
      assert rv as real + rm as real <= -1.0;
    } else if rv + rm > 255 {
      assert rv as real + rm as real >= 256.0;
      assert (255 - rm) as real == 255.0 - rm as real;
    }
  }

  /** x is within half a step of what byte q stands for. */
  predicate Near(p: Params, q: nat, x: real) {
    -p.scale / 2.0 <= p.scale * (q - p.zero) as real - x <= p.scale / 2.0
  }

  /** Every value of the range is within half a step of what its byte stands for, even where the
      byte was clamped. */
  lemma WithinHalfAStep(lo: real, hi: real, x: real)
    requires lo <= 0.0 <= hi && lo <= x <= hi
    ensures Near(ParamsOf(lo, hi), Quantized(ParamsOf(lo, hi), x), x)
  {
    var p := ParamsOf(lo, hi);
    WithinHalf(lo, hi, x);
    hide RoundToEven, ParamsOf, Quantized;
    Scaled(Quantized(p, x) - p.zero, x, p.scale);
  }

  lemma WithinHalf(lo: real, hi: real, x: real)
    requires lo <= 0.0 <= hi && lo <= x <= hi
    ensures var p := ParamsOf(lo, hi);
      -0.5 <= (Quantized(p, x) - p.zero) as real - x / p.scale <= 0.5
  {
    hide RoundToEven, ParamsOf, Quantized;
    var p := ParamsOf(lo, hi);
    var v, m, top := x / p.scale, -lo / p.scale, hi / p.scale;
    RangeFits(lo, hi);
    RoundIsNear(v);
    RoundIsNear(m);
    assert -m <= v <= top by {
      DividesInOrder(lo, x, p.scale);
      DividesInOrder(x, hi, p.scale);
      Negated(lo, p.scale);
    }
    QuantizedIs(p, x);
    ClampedIsNear(v, m, RoundToEven(v), p.zero);
  }

  lemma QuantizedIs(p: Params, x: real)
    requires p.scale > 0.0
    ensures Quantized(p, x) == Clamp(RoundToEven(x / p.scale) + p.zero)
  {
  }

  lemma Negated(x: real, s: real)
    requires s > 0.0
    ensures -x / s == -(x / s)
  {
  }

  /** Zero is exact. */
  lemma ZeroIsExact(lo: real, hi: real)
    requires lo <= 0.0 <= hi
    ensures Quantized(ParamsOf(lo, hi), 0.0) == ParamsOf(lo, hi).zero
  {
    var p := ParamsOf(lo, hi);
    assert 0.0 / p.scale == 0.0;
    RoundOfWhole(0);
  }

  lemma KeepsOrder(lo: real, hi: real, x: real, y: real)
    requires lo <= 0.0 <= hi && x <= y
    ensures Quantized(ParamsOf(lo, hi), x) <= Quantized(ParamsOf(lo, hi), y)
  {
    var p := ParamsOf(lo, hi);
    DividesInOrder(x, y, p.scale);
    RoundKeepsOrder(x / p.scale, y / p.scale);
  }

  method Range(input: array<real>) returns (lo: real, hi: real)
    ensures lo == Min(input[..]) && hi == Max(input[..])
  {
    lo, hi := 0.0, 0.0;
    for i := 0 to input.Length
      invariant lo == Min(input[..i]) && hi == Max(input[..i])
    {
      assert input[..i + 1][..i] == input[..i];
      if input[i] < lo {
        lo := input[i];
      }
      if input[i] > hi {
        hi := input[i];
      }
    }
    assert input[..input.Length] == input[..];
  }

  /** The range of the input gives the scale and the zero point; every value is within half a step
      of what its byte stands for, and order is kept. */
  method QuantizeScalar(input: array<real>, output: array<nat>) returns (p: Params)
    requires output.Length >= input.Length
    modifies output
    ensures var (lo, hi) := (Min(input[..]), Max(input[..])); p.scale * 255.0 == hi - lo || (hi == lo && p.scale == 1.0)
    ensures p == ParamsOf(Min(input[..]), Max(input[..]))
    ensures forall i :: 0 <= i < input.Length ==> output[i] == Quantized(p, input[i])
    ensures forall i :: 0 <= i < input.Length ==>
      Near(p, output[i], input[i])
    ensures forall i :: input.Length <= i < output.Length ==> output[i] == old(output[i])
  {
    hide RoundToEven, Min, Max, ParamsOf, Quantized, Near;
    var lo, hi := Range(input);
    p := ParamsOf(lo, hi);
    for i := 0 to input.Length
      invariant forall k :: 0 <= k < i ==> output[k] == Quantized(p, input[k])
      invariant forall k :: i <= k < output.Length ==> output[k] == old(output[k])
    {
      var q := RoundToEven(input[i] / p.scale) + p.zero;
      QuantizedIs(p, input[i]);
      if q < 0 {
        q := 0;
      } else if q > 255 {
        q := 255;
      }
      output[i] := q;
    }
    AllNear(input[..], p, output[..]);
    RangeFits(lo, hi);
  }

  lemma AllNear(input: seq<real>, p: Params, output: seq<nat>)
    requires |output| >= |input| && p == ParamsOf(Min(input), Max(input))
    requires forall i :: 0 <= i < |input| ==> output[i] == Quantized(p, input[i])
    ensures forall i :: 0 <= i < |input| ==>
      Near(p, output[i], input[i])
  {
    hide *;
    forall i | 0 <= i < |input|
      ensures Near(p, output[i], input[i])
    {
      WithinHalfAStep(Min(input), Max(input), input[i]);
    }
  }

  // The mel input: bands of frames in, frames of bands out.

  /** Frames before t, and the bands of t before c, are written. */
  ghost predicate Written(p: Params, mel: seq<real>, output: seq<nat>, frames: nat, bands: nat, t: nat, c: nat)
    requires p.scale > 0.0 && |mel| == frames * bands && |output| >= frames * bands
  {
    forall u: nat, b: nat | u < frames && b < bands && (u < t || (u == t && b < c)) ::
      W.FlatFits(u, b, frames, bands); W.FlatFits(b, u, bands, frames);
      output[W.Flat(u, b, bands)] == Quantized(p, mel[W.Flat(b, u, frames)])
  }

  method QuantizeMel(mel: array<real>, output: array<nat>, frames: nat, bands: nat) returns (p: Params)
    requires mel.Length == frames * bands && output.Length >= frames * bands
    modifies output
    ensures p == ParamsOf(Min(mel[..]), Max(mel[..]))
    ensures Written(p, mel[..], output[..], frames, bands, frames, 0)
  {
    hide RoundToEven, Min, Max, ParamsOf, W.Flat;
    var lo, hi := Range(mel);
    p := ParamsOf(lo, hi);
    for t: nat := 0 to frames
      invariant Written(p, mel[..], output[..], frames, bands, t, 0)
    {
      for c: nat := 0 to bands
        invariant Written(p, mel[..], output[..], frames, bands, t, c)
      {
        W.FlatFits(t, c, frames, bands);
        W.FlatFits(c, t, bands, frames);
        WrittenNext(p, mel[..], output[..], frames, bands, t, c);
        ghost var was := output[..];
        var q := RoundToEven(mel[W.Flat(c, t, frames)] / p.scale) + p.zero;
        if q < 0 {
          q := 0;
        } else if q > 255 {
          q := 255;
        }
        output[W.Flat(t, c, bands)] := q;
        assert output[..] == was[W.Flat(t, c, bands) := Quantized(p, mel[..][W.Flat(c, t, frames)])];
      }
    }
  }

  lemma WrittenNext(p: Params, mel: seq<real>, output: seq<nat>, frames: nat, bands: nat, t: nat, c: nat)
    requires p.scale > 0.0 && |mel| == frames * bands && |output| >= frames * bands && t < frames && c < bands
    requires Written(p, mel, output, frames, bands, t, c)
    ensures W.Flat(t, c, bands) < |output| && W.Flat(c, t, frames) < |mel|
    ensures
      Written(p, mel, output[W.Flat(t, c, bands) := Quantized(p, mel[W.Flat(c, t, frames)])], frames, bands, t, c + 1)
  {
    hide W.Flat, Quantized;
    W.FlatFits(t, c, frames, bands);
    W.FlatFits(c, t, bands, frames);
    var now := output[W.Flat(t, c, bands) := Quantized(p, mel[W.Flat(c, t, frames)])];
    forall u: nat, b: nat | u < frames && b < bands && (u < t || (u == t && b < c + 1))
      ensures W.Flat(u, b, bands) < |now| && W.Flat(b, u, frames) < |mel|
      ensures now[W.Flat(u, b, bands)] == Quantized(p, mel[W.Flat(b, u, frames)])
    {
      W.FlatFits(u, b, frames, bands);
      W.FlatFits(b, u, bands, frames);
      if W.Flat(u, b, bands) == W.Flat(t, c, bands) {
        W.FlatIsOne(u, b, t, c, bands);
      }
    }
  }
}
