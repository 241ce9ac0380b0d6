/**
 Padding in 3rdparty/onnx-tensorrt: the SAME pads and the rewrite of asymmetric to symmetric padding in
 onnx2trt_utils.cpp, the output size of onnx2trt_utils.hpp, and the way AveragePool handles one extra element of
 end padding (builtin_op_importers.cpp). Division truncates toward zero, as in C++.
 */
module Padding {

  function DivTrunc(a: int, b: int): int
    requires b >= 1
  {
    if a >= 0 then a / b else -((-a) / b)
  }

  function DivCeil(n: int, d: int): int
    requires d >= 1
  {
    DivTrunc(n - 1, d) + 1
  }

  /** The extent of a dilated kernel. */
  function Extent(k: int, d: int): int {
    (k - 1) * d + 1
  }

  /** get_conv_output_size. */
  function ConvOutputSize(i: int, k: int, s: int, d: int, padding: int): int
    requires s >= 1
  {
    DivCeil(i + padding - (Extent(k, d) - 1), s)
  }

  // ----- how many windows there are

  /** Window o of stride s and extent e lies within n elements. */
  predicate Fits(n: int, e: int, s: int, o: int) {
    o >= 0 && o * s + e <= n
  }

  /** c counts the windows that fit: they are those below c. */
  ghost predicate CountsWindows(n: int, e: int, s: int, c: int) {
    c >= 0 && forall o :: o >= 0 ==> (Fits(n, e, s, o) <==> o < c)
  }

  lemma MulLess(a: int, b: int, s: int)
    requires s >= 1
    ensures a < b <==> a * s < b * s
    ensures a < b ==> a * s + s <= b * s
  {
    if a < b {
      MulNonNegative(b - a - 1, s);
      assert (b - a - 1) * s == b * s - a * s - s;
    } else {
      MulNonNegative(a - b, s);
      assert (a - b) * s == a * s - b * s;
    }
  }

  lemma MulNonNegative(x: int, s: int)
    requires x >= 0 && s >= 0
    ensures x * s >= 0
  {
  }

  /** A floor quotient is where the multiples stop fitting. */
  lemma DivFits(t: int, s: int, o: int)
    requires t >= 0 && s >= 1
    ensures o * s <= t <==> o <= t / s
  {
    assert t == (t / s) * s + t % s;
    MulLess(t / s, o, s);
  }

  /** The output size is the number of windows, exactly when one fits or the padded input falls short of the kernel by
      at least one and less than two strides. Short by less than one stride, it claims a window that does not fit. */
  lemma OutputSizeIff(i: int, k: int, s: int, d: int, padding: int)
    requires s >= 1
    ensures
      var t := i + padding - Extent(k, d);
      CountsWindows(i + padding, Extent(k, d), s, ConvOutputSize(i, k, s, d, padding)) <==> t >= 0 || -2 * s < t <= -s
  {
    var n, e := i + padding, Extent(k, d);
    if n >= e {
      WindowsFit(n, e, s);
    } else {
      NoWindowFits(n, e, s, 1 - (e - n) / s);
      DivFits(e - n, s, 1);
      DivFits(e - n, s, 2);
    }
  }

  lemma WindowsFit(n: int, e: int, s: int)
    requires s >= 1 && n >= e
    ensures CountsWindows(n, e, s, (n - e) / s + 1)
  {
    forall o | o >= 0 ensures Fits(n, e, s, o) <==> o < (n - e) / s + 1 {
      DivFits(n - e, s, o);
    }
  }

  lemma NoWindowFits(n: int, e: int, s: int, c: int)
    requires s >= 1 && n < e
    ensures CountsWindows(n, e, s, c) <==> c == 0
  {
    forall o | o >= 0 ensures !Fits(n, e, s, o) {
      MulNonNegative(o, s);
    }
    if c > 0 { assert Fits(n, e, s, 0) <==> false; }
  }

  // ----- SAME padding

  /** The ceiling of i / s: the least number of strides that covers i. */
  ghost predicate IsCeiling(o: int, i: int, s: int) {
    (o - 1) * s < i <= o * s
  }

  datatype Pads = Pads(beg: int, end: int)

  datatype AutoPad = SameLower | SameUpper

  /** The pads of one dimension for o outputs; the shift by one bit rounds down also when there is less than nothing to
      pad. */
  function SamePads(mode: AutoPad, i: int, k: int, s: int, d: int, o: int): Pads {
    var extent := k + (k - 1) * (d - 1);
    var total := (o - 1) * s + extent - i;
    var minor := total / 2;
    var major := total - minor;
    match mode
    case SameLower => Pads(major, minor)
    case SameUpper => Pads(minor, major)
  }

  /** SAME padding gives the size it is meant to give: ceil(i / s), or any output size that was asked for. */
  lemma SamePadsGiveCeiling(mode: AutoPad, i: int, k: int, s: int, d: int)
    requires i >= 1 && s >= 1
    ensures
      var o := DivTrunc(i - 1, s) + 1;
      var p := SamePads(mode, i, k, s, d, o);
      && IsCeiling(o, i, s)
      && ConvOutputSize(i, k, s, d, p.beg + p.end) == o
      && (if mode.SameUpper? then p.beg <= p.end <= p.beg + 1 else p.end <= p.beg <= p.end + 1)
  {
    var o := DivTrunc(i - 1, s) + 1;
    SamePadsGiveOutput(mode, i, k, s, d, o);
    assert i - 1 == ((i - 1) / s) * s + (i - 1) % s;
    assert o * s == (o - 1) * s + s;
  }

  lemma SamePadsGiveOutput(mode: AutoPad, i: int, k: int, s: int, d: int, o: int)
    requires s >= 1 && o >= 1
    ensures
      var p := SamePads(mode, i, k, s, d, o);
      && p.beg + p.end == (o - 1) * s + Extent(k, d) - i
      && ConvOutputSize(i, k, s, d, p.beg + p.end) == o
      && CountsWindows(i + p.beg + p.end, Extent(k, d), s, o)
      && (if mode.SameUpper? then p.beg <= p.end <= p.beg + 1 else p.end <= p.beg <= p.end + 1)
  {
    var p := SamePads(mode, i, k, s, d, o);
    assert k + (k - 1) * (d - 1) == Extent(k, d);
    assert (o - 1) * s >= 0;
    ExactDivision(o - 1, s);
    OutputSizeIff(i, k, s, d, p.beg + p.end);
  }

  lemma ExactDivision(q: int, s: int)
    requires s >= 1 && q >= 0
    ensures (q * s) / s == q
  {
    DivFits(q * s, s, q);
    DivFits(q * s, s, q + 1);
    assert (q + 1) * s == q * s + s;
  }

  // ----- from asymmetric to symmetric

  /** One spatial dimension of a layer. */
  datatype Axis = Axis(i: int, k: int, s: int, d: int)

  predicate ValidAxis(a: Axis) {
    a.i >= 1 && a.k >= 1 && a.s >= 1 && a.d >= 1
  }

  function Outputs(a: Axis, p: Pads): int
    requires ValidAxis(a)
  {
    ConvOutputSize(a.i, a.k, a.s, a.d, p.beg + p.end)
  }

  /** The rewrite is wanted: padding the end like the beginning gives as many outputs. */
  predicate Convertible(a: Axis, p: Pads)
    requires ValidAxis(a)
  {
    p.beg != p.end && Outputs(a, Pads(p.beg, p.beg)) == Outputs(a, p)
  }

  /** What the loop leaves in the width entry. The assignment is indexed by the dilation instead of the dimension, so it
      reaches the width when a dilation is one, and nothing of interest otherwise. */
  function RewrittenWidth(h: Axis, w: Axis, ph: Pads, pw: Pads): Pads
    requires ValidAxis(h) && ValidAxis(w)
  {
    if (h.d == 1 && Convertible(h, ph)) || (w.d == 1 && Convertible(w, pw)) then Pads(pw.beg, pw.beg) else pw
  }

  /** A width of unit dilation needs no rewrite any more afterwards; its beginning stays, and its end becomes like the
      beginning if it changes. */
  lemma WidthIsSettled(h: Axis, w: Axis, ph: Pads, pw: Pads)
    requires ValidAxis(h) && ValidAxis(w)
    ensures
      var p := RewrittenWidth(h, w, ph, pw);
      p.beg == pw.beg && (p.end == pw.end || p.end == pw.beg) && (w.d == 1 ==> !Convertible(w, p))
  {
  }

  /** The entries of a Dims object. */
  const MAX_DIMS := 8

  predicate FarHeight(h: Axis, ph: Pads)
    requires ValidAxis(h)
  {
    h.d >= MAX_DIMS && Convertible(h, ph)
  }

  /** A width that the height has made symmetric is not looked at any more. */
  predicate FarWidth(h: Axis, w: Axis, ph: Pads, pw: Pads)
    requires ValidAxis(h) && ValidAxis(w)
  {
    w.d >= MAX_DIMS && Convertible(w, pw) && !(h.d == 1 && Convertible(h, ph))
  }

  /** The loop over the two dimensions. It stores inside the arrays exactly when no dimension that is convertible when
      the loop comes to it has a dilation of eight or more; otherwise the model stops at that store. */
  method SymmetrizePadding(h: Axis, w: Axis, beg: array<int>, end: array<int>) returns (inside: bool)
    requires ValidAxis(h) && ValidAxis(w)
    requires beg.Length == end.Length == MAX_DIMS && beg != end
    modifies end
    ensures end[0] == old(end[0])
    ensures
      var ph, pw := Pads(beg[0], old(end[0])), Pads(beg[1], old(end[1]));
      && (inside <==> !FarHeight(h, ph) && !FarWidth(h, w, ph, pw))
      && (inside ==> Pads(beg[1], end[1]) == RewrittenWidth(h, w, ph, pw))
  {
    inside := true;
    for dim := 0 to 2
      invariant inside && end[0] == old(end[0])
      invariant dim == 0 ==> end[1] == old(end[1])
      invariant dim >= 1 ==> !FarHeight(h, Pads(beg[0], end[0]))
      invariant dim == 1 ==> end[1] == if h.d == 1 && Convertible(h, Pads(beg[0], end[0])) then beg[1] else old(end[1])
      invariant dim == 2 ==>
        && Pads(beg[1], end[1]) == RewrittenWidth(h, w, Pads(beg[0], old(end[0])), Pads(beg[1], old(end[1])))
        && !FarWidth(h, w, Pads(beg[0], end[0]), Pads(beg[1], old(end[1])))
    {
      var begP, endP := beg[dim], end[dim];
      if begP == endP {
        continue;
      }
      var a := if dim == 0 then h else w;
      var asymmetric := ConvOutputSize(a.i, a.k, a.s, a.d, begP + endP);
      var symmetric := ConvOutputSize(a.i, a.k, a.s, a.d, begP + begP);
      if symmetric == asymmetric {
        if a.d >= MAX_DIMS {
          return false;
        }
        end[a.d] := beg[a.d];
      }
    }
  }

  // ----- which paddings are rewritten, without computing any output size

  /** What is left of the padded input when the kernel is laid at its beginning; negative when the kernel overshoots. */
  function Slack(a: Axis, padding: int): int {
    a.i + padding - Extent(a.k, a.d)
  }

  function Low(p: Pads): int { if p.beg <= p.end then p.beg else p.end }

  function High(p: Pads): int { if p.beg <= p.end then p.end else p.beg }

  /** Between x and x + e there is no step of a division by s that truncates toward zero. */
  predicate NoStep(x: int, e: int, s: int)
    requires s >= 1
  {
    if x >= 0 then x % s + e < s else if x + e <= 0 then (-(x + e)) % s + e < s else -s < x && x + e < s
  }

  /** The ends of the padding differ by less than the stride leaves over behind the last window. */
  predicate Leaves(a: Axis, p: Pads)
    requires ValidAxis(a)
  {
    NoStep(Slack(a, p.beg + Low(p)), High(p) - Low(p), a.s)
  }

  lemma NoStepIff(x: int, e: int, s: int)
    requires s >= 1 && e >= 1
    ensures DivTrunc(x + e, s) == DivTrunc(x, s) <==> NoStep(x, e, s)
    ensures DivTrunc(x, s) <= DivTrunc(x + e, s)
  {
    if x >= 0 {
      SameQuotient(x, e, s);
    } else if x + e <= 0 {
      SameQuotient(-(x + e), e, s);
    } else {
      AboveMinusOne(x, s);
      BelowOne(x + e, s);
    }
  }

  lemma SameQuotient(x: int, e: int, s: int)
    requires x >= 0 && e >= 1 && s >= 1
    ensures (x + e) / s == x / s <==> x % s + e < s
    ensures x / s <= (x + e) / s
  {
    var q := x / s;
    assert x == q * s + x % s;
    DivFits(x + e, s, q);
    DivFits(x + e, s, q + 1);
    assert (q + 1) * s == q * s + s;
  }

  lemma AboveMinusOne(x: int, s: int)
    requires s >= 1
    ensures DivTrunc(x, s) >= 0 <==> x > -s
    ensures x < 0 ==> DivTrunc(x, s) <= 0
  {
    if x < 0 {
      DivFits(-x, s, 1);
      DivFits(-x, s, 0);
    } else {
      DivFits(x, s, 0);
    }
  }

  lemma BelowOne(x: int, s: int)
    requires s >= 1 && x >= 0
    ensures 0 <= DivTrunc(x, s) && (DivTrunc(x, s) == 0 <==> x < s)
  {
    DivFits(x, s, 0);
    DivFits(x, s, 1);
  }

  /** The test of the loop, by a remainder alone. */
  lemma ConvertibleIff(a: Axis, p: Pads)
    requires ValidAxis(a)
    ensures Convertible(a, p) <==> p.beg != p.end && Leaves(a, p)
  {
    OutputsAre(a, p.beg + p.beg);
    OutputsAre(a, p.beg + p.end);
    if p.beg != p.end { NoStepIff(Slack(a, p.beg + Low(p)), High(p) - Low(p), a.s); }
  }

  lemma OutputsAre(a: Axis, padding: int)
    requires ValidAxis(a)
    ensures ConvOutputSize(a.i, a.k, a.s, a.d, padding) == DivTrunc(Slack(a, padding), a.s) + 1
  {
  }

  /** The height is convertible and of unit dilation, so that the store meant for it reaches the width, and the width
      is not convertible. */
  predicate Drags(h: Axis, w: Axis, ph: Pads, pw: Pads)
    requires ValidAxis(h) && ValidAxis(w)
  {
    h.d == 1 && ph.beg != ph.end && Leaves(h, ph) && pw.beg != pw.end && !Leaves(w, pw)
  }

  /** The rewrite keeps the number of outputs along the width, exactly unless the height drags it along. */
  lemma RewriteKeepsOutputsIff(h: Axis, w: Axis, ph: Pads, pw: Pads)
    requires ValidAxis(h) && ValidAxis(w)
    ensures Outputs(w, RewrittenWidth(h, w, ph, pw)) == Outputs(w, pw) <==> !Drags(h, w, ph, pw)
  {
    ConvertibleIff(h, ph);
    ConvertibleIff(w, pw);
  }

  /** A layer whose width is changed because its height could have been. */
  lemma RewriteBreaksWidth()
    ensures
      var h, w := Axis(5, 3, 2, 1), Axis(4, 2, 1, 1);
      Outputs(w, RewrittenWidth(h, w, Pads(0, 1), Pads(0, 1))) != Outputs(w, Pads(0, 1))
  {
    var h, w := Axis(5, 3, 2, 1), Axis(4, 2, 1, 1);
    assert Drags(h, w, Pads(0, 1), Pads(0, 1));
    RewriteKeepsOutputsIff(h, w, Pads(0, 1), Pads(0, 1));
  }

  // ----- what a convolution computes along one dimension

  function Padded(x: seq<real>, j: int): real {
    if 0 <= j < |x| then x[j] else 0.0
  }

  /** Kernel w with dilation d laid over the padded signal from position j. */
  function Window(x: seq<real>, w: seq<real>, d: int, j: int): real {
    if w == [] then 0.0 else w[0] * Padded(x, j) + Window(x, w[1..], d, j + d)
  }

  function Convolve(x: seq<real>, w: seq<real>, s: int, d: int, p: Pads): seq<real>
    requires s >= 1
  {
    var n := ConvOutputSize(|x|, |w|, s, d, p.beg + p.end);
    seq(if n < 0 then 0 else n, o requires o >= 0 => Window(x, w, d, o * s - p.beg))
  }

  /** The convolution along the width stays the same, output for output, exactly unless the height drags the width along
      and one of the two paddings leaves room for an output. */
  lemma RewriteKeepsConvolutionIff(x: seq<real>, k: seq<real>, s: int, d: int, h: Axis, ph: Pads, pw: Pads)
    requires s >= 1 && d >= 1 && |x| >= 1 && |k| >= 1 && ValidAxis(h)
    ensures
      var w := Axis(|x|, |k|, s, d);
      Convolve(x, k, s, d, RewrittenWidth(h, w, ph, pw)) == Convolve(x, k, s, d, pw) <==>
        !(Drags(h, w, ph, pw) && Slack(w, pw.beg + High(pw)) > -s)
  {
    var w := Axis(|x|, |k|, s, d);
    var was, now := Convolve(x, k, s, d, pw), Convolve(x, k, s, d, RewrittenWidth(h, w, ph, pw));
    RewriteKeepsOutputsIff(h, w, ph, pw);
    OutputsAre(w, pw.beg + pw.beg);
    OutputsAre(w, pw.beg + pw.end);
    if Drags(h, w, ph, pw) {
      ConvertibleIff(h, ph);
      NoStepIff(Slack(w, pw.beg + Low(pw)), High(pw) - Low(pw), s);
      AboveMinusOne(Slack(w, pw.beg + High(pw)), s);
      assert |was| == |now| <==> Slack(w, pw.beg + High(pw)) <= -s;
    }
    if |was| == |now| {
      assert forall o :: 0 <= o < |was| ==> was[o] == now[o];
    }
  }

  // ----- AveragePool

  /** The input elements pooling window o covers; padding is left out of the average. */
  function PoolWindow(i: int, k: int, s: int, beg: int, o: int): (int, int) {
    var start := o * s - beg;
    (if start < 0 then 0 else start, if start + k > i then i else start + k)
  }

  /** The pooling layer's outputs, as the windows they average. */
  function PoolOutputs(i: int, k: int, s: int, p: Pads): seq<(int, int)>
    requires s >= 1
  {
    var t := i + p.beg + p.end - k;
    seq(if t < 0 then 0 else t / s + 1, o requires o >= 0 => PoolWindow(i, k, s, p.beg, o))
  }

  /** AveragePool with one more element of padding at the end: pad both ends by a stride more than at the beginning and
      crop the first output. */
  function PoolWithCrop(i: int, k: int, s: int, beg: int): seq<(int, int)>
    requires s >= 1
  {
    Crop(PoolOutputs(i, k, s, Pads(beg + s, beg + s)), 1)
  }

  /** What a negative padding of n elements at the beginning leaves. */
  function Crop(out: seq<(int, int)>, n: nat): seq<(int, int)> {
    if |out| < n then [] else out[n..]
  }

  /** The window that ends last ends with the padding, or no window comes near fitting. */
  predicate EndsEven(t: int, s: int)
    requires s >= 1
  {
    if t >= 0 then t % s == 0 else t <= -s
  }

  /** That is the pooling that was asked for, exactly when the last window ends with the padding, or the kernel
      overshoots by a stride or more. Otherwise there is one output too many. */
  lemma PoolWithCropIff(i: int, k: int, s: int, beg: int)
    requires s >= 1
    ensures
      var even := EndsEven(i + beg + (beg + 1) - k, s);
      && (PoolWithCrop(i, k, s, beg) == PoolOutputs(i, k, s, Pads(beg, beg + 1)) <==> even)
      && |PoolWithCrop(i, k, s, beg)| == |PoolOutputs(i, k, s, Pads(beg, beg + 1))| + if even then 0 else 1
  {
    var t := i + beg + (beg + 1) - k;
    var full := PoolOutputs(i, k, s, Pads(beg + s, beg + s));
    if t >= 0 {
      TwoStridesMore(t, s);
    } else if t - 1 + 2 * s >= 0 {
      DivFits(t - 1 + 2 * s, s, 1);
      DivFits(t - 1 + 2 * s, s, 2);
    }
    forall o | 0 <= o < |full| - 1 ensures full[1..][o] == PoolWindow(i, k, s, beg, o) {
      assert (o + 1) * s == o * s + s;
    }
  }

  lemma TwoStridesMore(t: int, s: int)
    requires t >= 0 && s >= 1
    ensures (t - 1 + 2 * s) / s == t / s + 1 + if t % s == 0 then 0 else 1
  {
    var u := t - 1 + 2 * s;
    var q := t / s;
    assert t == q * s + t % s;
    assert (q + 1) * s == q * s + s && (q + 2) * s == q * s + 2 * s && (q + 3) * s == q * s + 3 * s;
    DivFits(u, s, q + 1);
    DivFits(u, s, q + 2);
    DivFits(u, s, q + 3);
  }

  /** A dimension whose layer, padded alike at both ends and cropped, pools what was asked for. */
  predicate PoolsAsAsked(a: Axis, asked: Pads, beg: int, crop: nat)
    requires ValidAxis(a)
  {
    Crop(PoolOutputs(a.i, a.k, a.s, Pads(beg, beg)), crop) == PoolOutputs(a.i, a.k, a.s, asked)
  }

  /** AveragePool's loop over the two dimensions: which paddings it supports, and which of them it pools right. */
  method PoolPadding(axes: seq<Axis>, beg: array<int>, end: array<int>) returns (ok: bool, preCrop: array<nat>)
    requires |axes| == 2 && beg.Length == end.Length == 2 && beg != end
    requires forall d :: 0 <= d < 2 ==> ValidAxis(axes[d])
    modifies beg
    ensures preCrop.Length == 2
    ensures ok <==> forall d :: 0 <= d < 2 ==> end[d] == old(beg[d]) || end[d] == old(beg[d]) + 1
    ensures ok ==> forall d :: 0 <= d < 2 ==>
      (PoolsAsAsked(axes[d], Pads(old(beg[d]), end[d]), beg[d], preCrop[d]) <==>
        end[d] == old(beg[d]) || EndsEven(axes[d].i + old(beg[d]) + end[d] - axes[d].k, axes[d].s))
  {
    preCrop := new nat[2](_ => 0);
    for d := 0 to 2
      invariant fresh(preCrop)
      invariant forall e :: d <= e < 2 ==> beg[e] == old(beg[e]) && preCrop[e] == 0
      invariant forall e :: 0 <= e < d ==> end[e] == old(beg[e]) || end[e] == old(beg[e]) + 1
      invariant forall e :: 0 <= e < d ==> end[e] == old(beg[e]) ==> beg[e] == end[e] && preCrop[e] == 0
      invariant forall e :: 0 <= e < d ==> end[e] == old(beg[e]) + 1 ==>
        beg[e] == old(beg[e]) + axes[e].s && preCrop[e] == 1
    {
      if end[d] == beg[d] {
      } else if end[d] == beg[d] + 1 {
        beg[d] := beg[d] + axes[d].s;
        preCrop[d] := 1;
      } else {
        return false, preCrop;
      }
    }
    forall d | 0 <= d < 2
      ensures PoolsAsAsked(axes[d], Pads(old(beg[d]), end[d]), beg[d], preCrop[d]) <==>
        end[d] == old(beg[d]) || EndsEven(axes[d].i + old(beg[d]) + end[d] - axes[d].k, axes[d].s)
    {
      PooledAxis(axes[d], Pads(old(beg[d]), end[d]), beg[d], preCrop[d]);
    }
    ok := true;
  }

  lemma PooledAxis(axis: Axis, pads: Pads, beg: int, preCrop: nat)
    requires ValidAxis(axis)
    requires || (pads.end == pads.beg && beg == pads.end && preCrop == 0)
             || (pads.end == pads.beg + 1 && beg == pads.beg + axis.s && preCrop == 1)
    ensures PoolsAsAsked(axis, pads, beg, preCrop) <==>
      pads.end == pads.beg || EndsEven(axis.i + pads.beg + pads.end - axis.k, axis.s)
  {
    if pads.end == pads.beg + 1 { PoolWithCropIff(axis.i, axis.k, axis.s, pads.beg); }
  }

  /** A width that still has one more element of end padding after the rewrite is pooled right, exactly unless the
      kernel overshoots by one less than a stride of at least two. */
  lemma PoolWidthIff(h: Axis, w: Axis, ph: Pads, pw: Pads)
    requires ValidAxis(h) && ValidAxis(w) && h.d == w.d == 1
    requires RewrittenWidth(h, w, ph, pw) == Pads(pw.beg, pw.beg + 1)
    ensures PoolWithCrop(w.i, w.k, w.s, pw.beg) == PoolOutputs(w.i, w.k, w.s, Pads(pw.beg, pw.beg + 1)) <==>
      !(w.s >= 2 && w.i + pw.beg + (pw.beg + 1) - w.k == 1 - w.s)
  {
    var t := w.i + pw.beg + (pw.beg + 1) - w.k;
    assert pw == Pads(pw.beg, pw.beg + 1);
    ConvertibleIff(w, pw);
    assert Slack(w, pw.beg + Low(pw)) == t - 1 && !NoStep(t - 1, 1, w.s);
    StepMeansEven(t, w.s);
    PoolWithCropIff(w.i, w.k, w.s, pw.beg);
  }

  lemma StepMeansEven(t: int, s: int)
    requires s >= 1 && !NoStep(t - 1, 1, s)
    ensures EndsEven(t, s) <==> !(s >= 2 && t == 1 - s)
  {
    if t >= 1 {
      StepDown(t, s);
    } else if t < 0 {
      Multiples(1 - t, s);
    }
  }

  /** With a step right below it, t is a multiple. */
  lemma StepDown(t: int, s: int)
    requires t >= 1 && s >= 1
    ensures (t - 1) % s + 1 >= s ==> t % s == 0
  {
    var q, r := (t - 1) / s, (t - 1) % s;
    if r + 1 >= s {
      assert t == q * s + s;
      assert t == (q + 1) * s;
      ExactRemainder(q + 1, s);
    }
  }

  lemma ExactRemainder(q: int, s: int)
    requires s >= 1 && q >= 0
    ensures (q * s) % s == 0
  {
    ExactDivision(q, s);
  }

  /** The least positive multiple is s itself, and the next is further away than s. */
  lemma Multiples(m: int, s: int)
    requires m >= 2 && s >= 1
    ensures (m - 1) % s + 1 >= s ==> m == s || m > s
  {
    if m < s { assert (m - 1) % s == m - 1; }
  }

  /** The height is never rewritten: here it is pooled into one row too many. */
  lemma PoolHeightCanBeWrong()
    ensures |PoolWithCrop(5, 3, 2, 0)| == 3 && |PoolOutputs(5, 3, 2, Pads(0, 1))| == 2
  {
    PoolWithCropIff(5, 3, 2, 0);
  }
}
