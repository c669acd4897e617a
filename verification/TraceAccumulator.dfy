/** Max-hold, min-hold and average traces over spectrum frames (TraceAccumulator in
    src/ui/charts/SpectrumHelper.hpp). */
module TraceAccumulator {
  import opened Shared

  /** A held extreme; Unset is the infinity that any value replaces. */
  datatype Hold = Unset | At(value: real)

  /** One enabled frame with its time constant. */
  datatype Frame = Frame(values: seq<real>, tau: real)

  function Alpha(tau: real): real {
    if tau > 0.0 then 1.0 / tau else 0.0
  }

  function Toward(from: real, to: real, alpha: real): real {
    from + (to - from) * alpha
  }

  function MaxStep(hold: Hold, v: real, tau: real): (r: Hold)
    ensures r.At?
  {
    if hold.Unset? || v > hold.value then At(v)
    else if tau > 0.0 then At(Toward(hold.value, v, Alpha(tau)))
    else hold
  }

  function MinStep(hold: Hold, v: real, tau: real): (r: Hold)
    ensures r.At?
  {
    if hold.Unset? || v < hold.value then At(v)
    else if tau > 0.0 then At(Toward(hold.value, v, Alpha(tau)))
    else hold
  }

  function AverageStep(average: real, frameCount: nat, v: real, tau: real): real {
    if frameCount == 0 then v
    else Toward(average, v, if tau > 0.0 then Alpha(tau) else 1.0 / (frameCount + 1) as real)
  }

  /** The traces of one bin. */
  datatype Traces = Traces(maxHold: Hold, minHold: Hold, average: real)

  ghost predicate FramesOf(frames: seq<Frame>, nBins: nat) {
    forall k :: 0 <= k < |frames| ==> nBins <= |frames[k].values|
  }

  /** The traces of bin i after some frames of one size. */
  ghost function After(frames: seq<Frame>, i: nat): Traces
    requires FramesOf(frames, i + 1)
  {
    if frames == [] then Traces(Unset, Unset, 0.0)
    else
      var n := |frames| - 1;
      var t, v, tau := After(frames[..n], i), frames[n].values[i], frames[n].tau;
      Traces(MaxStep(t.maxHold, v, tau), MinStep(t.minHold, v, tau), AverageStep(t.average, n, v, tau))
  }

  ghost predicate AllSteady(frames: seq<Frame>) {
    forall k :: 0 <= k < |frames| ==> Steady(frames[k].tau)
  }

  lemma Product(a: real, b: real)
    requires a >= 0.0 && b >= 0.0
    ensures a * b >= 0.0
  {
  }

  lemma AlphaIs(tau: real)
    requires tau > 0.0
    ensures 0.0 < Alpha(tau)
    ensures Alpha(tau) <= 1.0 <==> tau >= 1.0
  {
    var a := Alpha(tau);
    assert a * tau == 1.0;
    if a <= 1.0 { Product(1.0 - a, tau); }
    if tau >= 1.0 { Product(tau - 1.0, a); }
  }

  /** A step toward a value stays between the two and keeps the order of its starts. */
  lemma TowardIs(from: real, other: real, to: real, alpha: real)
    requires 0.0 <= alpha <= 1.0 && from <= other
    ensures Toward(from, to, alpha) <= Toward(other, to, alpha)
    ensures from <= to ==> from <= Toward(from, to, alpha) <= to
    ensures to <= from ==> to <= Toward(from, to, alpha) <= from
  {
    Product(other - from, 1.0 - alpha);
    assert Toward(other, to, alpha) - Toward(from, to, alpha) == (other - from) * (1.0 - alpha);
    if from <= to {
      Product(to - from, alpha);
      Product(to - from, 1.0 - alpha);
      assert to - Toward(from, to, alpha) == (to - from) * (1.0 - alpha);
    }
    if to <= from {
      Product(from - to, alpha);
      Product(from - to, 1.0 - alpha);
      assert Toward(from, to, alpha) - to == (from - to) * (1.0 - alpha);
      assert from - Toward(from, to, alpha) == (from - to) * alpha;
    }
  }

  lemma AlphaTimes(d: real, tau: real)
    requires tau > 0.0
    ensures (d * Alpha(tau)) * tau == d
  {
    hide Alpha;
    AlphaInverse(tau);
    Scaled(d, Alpha(tau), tau, 1.0);
  }

  lemma AlphaInverse(tau: real)
    requires tau > 0.0
    ensures Alpha(tau) * tau == 1.0
  {
    var a := Alpha(tau);
    assert a * tau == 1.0;
  }

  lemma Scaled(d: real, a: real, b: real, c: real)
    requires a * b == c
    ensures (d * a) * b == d * c
  {
    Regroup(d, a, b);
  }

  lemma Regroup(a: real, b: real, c: real)
    ensures (a * b) * c == a * (b * c) == (a * c) * b
  {
  }

  /** A hold jumps to a value beyond it, and otherwise goes the tau-th part of the way to the value, or
      stays without decay. */
  lemma HoldSteps(h: real, v: real, tau: real)
    ensures v > h ==> MaxStep(At(h), v, tau) == At(v)
    ensures v < h ==> MinStep(At(h), v, tau) == At(v)
    ensures v <= h && tau > 0.0 ==> (MaxStep(At(h), v, tau).value - h) * tau == v - h
    ensures v >= h && tau > 0.0 ==> (MinStep(At(h), v, tau).value - h) * tau == v - h
    ensures v <= h && tau <= 0.0 ==> MaxStep(At(h), v, tau) == At(h)
    ensures v >= h && tau <= 0.0 ==> MinStep(At(h), v, tau) == At(h)
    ensures MaxStep(Unset, v, tau) == At(v) == MinStep(Unset, v, tau)
  {
    if tau > 0.0 { AlphaTimes(v - h, tau); }
  }

  /** The average goes the tau-th part of the way to the value, or without decay the part that one frame
      is of all. */
  lemma AverageSteps(average: real, frameCount: nat, v: real, tau: real)
    ensures frameCount == 0 ==> AverageStep(average, frameCount, v, tau) == v
    ensures frameCount > 0 && tau > 0.0 ==> (AverageStep(average, frameCount, v, tau) - average) * tau == v - average
    ensures frameCount > 0 && tau <= 0.0 ==>
              (AverageStep(average, frameCount, v, tau) - average) * (frameCount + 1) as real == v - average
  {
    if frameCount > 0 {
      if tau > 0.0 {
        AlphaTimes(v - average, tau);
      } else {
        AlphaTimes(v - average, (frameCount + 1) as real);
      }
    }
  }

  function Power(x: real, n: nat): real {
    if n == 0 then 1.0 else x * Power(x, n - 1)
  }

  lemma NextPower(x: real, n: nat)
    requires n > 0
    ensures Power(x, n) == x * Power(x, n - 1)
  {
  }

  lemma NoPower(x: real)
    ensures Power(x, 0) == 1.0
  {
  }

  predicate SameProduct(a: real, b: real, c: real, d: real) {
    a * b == c * d
  }

  lemma SameFactors(a: real, b: real)
    ensures SameProduct(a, b, a, b)
  {
  }

  /** The max hold after n frames of one value. */
  ghost function MaxAfter(hold: Hold, v: real, tau: real, n: nat): Hold {
    if n == 0 then hold else MaxStep(MaxAfter(hold, v, tau, n - 1), v, tau)
  }

  /** Over a steady value below it a hold falls towards the value geometrically, by 1 - 1/tau each frame. */
  lemma {:induction false} HoldFades(h: real, v: real, tau: real, n: nat)
    requires v <= h && tau >= 1.0
    ensures var r := MaxAfter(At(h), v, tau, n);
      r.At? && v <= r.value && SameProduct(r.value - v, Power(tau, n), h - v, Power(tau - 1.0, n))
  {
    hide MaxStep, SameProduct, Power;
    if n == 0 {
      NoPower(tau);
      NoPower(tau - 1.0);
      SameFactors(h - v, 1.0);
    } else {
      HoldFades(h, v, tau, n - 1);
      var x := MaxAfter(At(h), v, tau, n - 1).value;
      assert MaxAfter(At(h), v, tau, n) == MaxStep(At(x), v, tau);
      NextPower(tau, n);
      NextPower(tau - 1.0, n);
      FadeOnce(x, v, tau, Power(tau, n - 1), Power(tau, n), h - v, Power(tau - 1.0, n - 1), Power(tau - 1.0, n));
    }
  }

  lemma FadeOnce(x: real, v: real, tau: real, p: real, p': real, d: real, q: real, q': real)
    requires v <= x && tau >= 1.0 && p' == tau * p && q' == (tau - 1.0) * q && SameProduct(x - v, p, d, q)
    ensures var y := MaxStep(At(x), v, tau).value; v <= y && SameProduct(y - v, p', d, q')
  {
    hide MaxStep;
    StaysAbove(x, v, tau);
    HoldSteps(x, v, tau);
    var y, w := MaxStep(At(x), v, tau).value, tau - 1.0;
    FadeStep(x, y, v, tau, w, p, d, q);
    assert (y - v) * p' == d * q';
  }

  lemma StaysAbove(h: real, v: real, tau: real)
    requires v <= h && tau >= 1.0
    ensures v <= MaxStep(At(h), v, tau).value
  {
    AlphaIs(tau);
    TowardIs(h, h, v, Alpha(tau));
  }

  lemma FadeStep(x: real, y: real, v: real, tau: real, w: real, p: real, d: real, q: real)
    requires (y - x) * tau == v - x && w == tau - 1.0 && SameProduct(x - v, p, d, q)
    ensures (y - v) * (tau * p) == d * (w * q)
  {
    var a, b := y - v, x - v;
    assert a * tau == b * w;
    Regroup(a, tau, p);
    Regroup(b, w, p);
    Regroup(d, q, w);
  }

  ghost predicate Ordered(t: Traces, v: real) {
    && t.maxHold.At? && t.minHold.At?
    && t.minHold.value <= v <= t.maxHold.value
    && t.minHold.value <= t.average <= t.maxHold.value
  }

  lemma OrderedStep(t: Traces, n: nat, v: real, tau: real, last: real)
    requires Steady(tau) && (n == 0 ==> t.maxHold.Unset? && t.minHold.Unset?) && (n > 0 ==> Ordered(t, last))
    ensures Ordered(Traces(MaxStep(t.maxHold, v, tau), MinStep(t.minHold, v, tau), AverageStep(t.average, n, v, tau)), v)
  {
    hide Toward, Alpha;
    if n > 0 {
      if tau > 0.0 { AlphaIs(tau); }
      var a := if tau > 0.0 then Alpha(tau) else 1.0 / (n + 1) as real;
      assert 0.0 <= a <= 1.0;
      TowardIs(t.average, t.maxHold.value, v, a);
      TowardIs(t.minHold.value, t.average, v, a);
      TowardIs(t.maxHold.value, t.maxHold.value, v, a);
    }
  }

  /** After every frame with a steady time constant the holds enclose the current value and the average. */
  lemma {:induction false} HoldsEnclose(frames: seq<Frame>, i: nat)
    requires FramesOf(frames, i + 1) && AllSteady(frames) && frames != []
    ensures Ordered(After(frames, i), frames[|frames| - 1].values[i])
  {
    hide MaxStep, MinStep, AverageStep, Ordered;
    var n := |frames| - 1;
    var front := frames[..n];
    var last := 0.0;
    if n > 0 {
      HoldsEnclose(front, i);
      last := front[n - 1].values[i];
    }
    OrderedStep(After(front, i), n, frames[n].values[i], frames[n].tau, last);
  }

  ghost predicate AllOf(frames: seq<Frame>, tau: real) {
    forall k :: 0 <= k < |frames| ==> frames[k].tau == tau
  }

  /** A time constant strictly between 0 and 1 steps past the current value; only the type of the parameter admits it. */
  lemma Overshoot(tau: real) returns (frames: seq<Frame>)
    requires !Steady(tau)
    ensures FramesOf(frames, 1) && AllOf(frames, tau) && frames != [] && !Ordered(After(frames, 0), frames[|frames| - 1].values[0])
  {
    frames := [Frame([1.0], tau), Frame([0.0], tau)];
    AlphaIs(tau);
    assert frames[..1] == [Frame([1.0], tau)];
    assert [Frame([1.0], tau)][..0] == [];
    assert After(frames[..1], 0).maxHold == At(1.0);
  }

  /** For a fixed time constant the holds enclose the current value and the average in every run exactly
      when the constant does not lie strictly between 0 and 1. */
  lemma HoldsEncloseExactlyWhen(tau: real)
    ensures Steady(tau) <==> forall frames: seq<Frame>, i: nat | FramesOf(frames, i + 1) && AllOf(frames, tau) && frames != [] ::
              Ordered(After(frames, i), frames[|frames| - 1].values[i])
  {
    hide Ordered, After, Steady;
    if Steady(tau) {
      forall frames: seq<Frame>, i: nat | FramesOf(frames, i + 1) && AllOf(frames, tau) && frames != []
        ensures Ordered(After(frames, i), frames[|frames| - 1].values[i])
      {
        HoldsEnclose(frames, i);
      }
    } else {
      var frames := Overshoot(tau);
      assert FramesOf(frames, 0 + 1);
    }
  }

  /** Holds and average stay within the values that were seen. */
  lemma {:induction false} TracesWithin(frames: seq<Frame>, i: nat, lo: real, hi: real)
    requires FramesOf(frames, i + 1) && AllSteady(frames) && frames != []
    requires forall k :: 0 <= k < |frames| ==> lo <= frames[k].values[i] <= hi
    ensures var t := After(frames, i);
      t.maxHold.At? && t.minHold.At? && lo <= t.minHold.value && t.maxHold.value <= hi && lo <= t.average <= hi
  {
    hide Toward, Alpha;
    var n := |frames| - 1;
    var v, tau := frames[n].values[i], frames[n].tau;
    if n > 0 {
      TracesWithin(frames[..n], i, lo, hi);
      var t := After(frames[..n], i);
      if tau > 0.0 { AlphaIs(tau); }
      var a := if tau > 0.0 then Alpha(tau) else 1.0 / (n + 1) as real;
      TowardIs(t.minHold.value, t.minHold.value, v, a);
      TowardIs(t.maxHold.value, t.maxHold.value, v, a);
      TowardIs(t.average, t.average, v, a);
    }
  }

  ghost function Sum(frames: seq<Frame>, i: nat): real
    requires FramesOf(frames, i + 1)
  {
    if frames == [] then 0.0 else Sum(frames[..|frames| - 1], i) + frames[|frames| - 1].values[i]
  }

  lemma MeanStep(average: real, n: nat, v: real, sum: real)
    requires n > 0 && average * n as real == sum
    ensures Toward(average, v, 1.0 / (n + 1) as real) * (n + 1) as real == sum + v
  {
    var m := (n + 1) as real;
    var a := 1.0 / m;
    assert a * m == 1.0;
    assert (average + (v - average) * a) * m == average * m + (v - average) * (a * m);
    assert average * m == average * n as real + average;
  }

  ghost predicate NoDecay(frames: seq<Frame>) {
    forall k :: 0 <= k < |frames| ==> frames[k].tau <= 0.0
  }

  /** Without decay the average is the mean of all frames. */
  lemma {:induction false} MeanWithoutDecay(frames: seq<Frame>, i: nat)
    requires FramesOf(frames, i + 1) && frames != [] && NoDecay(frames)
    ensures After(frames, i).average * |frames| as real == Sum(frames, i)
  {
    hide Toward, MaxStep, MinStep;
    var n := |frames| - 1;
    var front, v := frames[..n], frames[n].values[i];
    if n > 0 {
      MeanWithoutDecay(front, i);
      MeanStep(After(front, i).average, n, v, Sum(front, i));
    }
  }

  /** The value is the extreme of the values seen, by the comparison. */
  ghost predicate IsExtreme(frames: seq<Frame>, i: nat, hold: Hold, greatest: bool)
    requires FramesOf(frames, i + 1)
  {
    && hold.At?
    && (forall k :: 0 <= k < |frames| ==> if greatest then frames[k].values[i] <= hold.value else hold.value <= frames[k].values[i])
    && (exists k :: 0 <= k < |frames| && frames[k].values[i] == hold.value)
  }

  lemma ExtremeStep(frames: seq<Frame>, last: Frame, i: nat, hold: Hold, next: Hold, greatest: bool)
    requires FramesOf(frames, i + 1) && i < |last.values| && last.tau <= 0.0
    requires if frames == [] then hold.Unset? else IsExtreme(frames, i, hold, greatest)
    requires next == if greatest then MaxStep(hold, last.values[i], last.tau) else MinStep(hold, last.values[i], last.tau)
    ensures FramesOf(frames + [last], i + 1) && IsExtreme(frames + [last], i, next, greatest)
  {
    var all := frames + [last];
    assert all[|frames|] == last;
    if frames != [] {
      var k :| 0 <= k < |frames| && frames[k].values[i] == hold.value;
      assert all[k] == frames[k];
    }
  }

  /** Without decay the holds are the exact extremes of all frames. */
  lemma {:induction false} HoldsWithoutDecay(frames: seq<Frame>, i: nat)
    requires FramesOf(frames, i + 1) && frames != [] && NoDecay(frames)
    ensures IsExtreme(frames, i, After(frames, i).maxHold, true) && IsExtreme(frames, i, After(frames, i).minHold, false)
  {
    hide IsExtreme, MaxStep, MinStep, AverageStep;
    var n := |frames| - 1;
    var front, last := frames[..n], frames[n];
    if n > 0 {
      HoldsWithoutDecay(front, i);
    }
    var t, r := After(front, i), After(frames, i);
    ExtremeStep(front, last, i, t.maxHold, r.maxHold, true);
    ExtremeStep(front, last, i, t.minHold, r.minHold, false);
    assert front + [last] == frames;
  }

  class Accumulator {
    var maxHold: array<Hold>
    var minHold: array<Hold>
    var average: array<real>
    var frameCount: nat
    ghost var frames: seq<Frame>  // the enabled frames since the size last changed

    ghost predicate Separate()
      reads this
    {
      maxHold != minHold && minHold.Length == average.Length == maxHold.Length
    }

    ghost predicate Valid()
      reads this, maxHold, minHold, average
    {
      && Separate()
      && frameCount == |frames| && FramesOf(frames, maxHold.Length)
      && forall i :: 0 <= i < maxHold.Length ==> Traces(maxHold[i], minHold[i], average[i]) == After(frames, i)
    }

    constructor ()
      ensures Valid() && frames == [] && maxHold.Length == 0
    {
      maxHold, minHold, average := new Hold[0], new Hold[0], new real[0];
      frameCount, frames := 0, [];
    }

    method Update(current: seq<real>, nBins: nat, tau: real, enabled: bool)
      requires Valid() && nBins <= |current|
      modifies this, maxHold, minHold, average
      ensures Valid() && (enabled ==> maxHold.Length == nBins)
      ensures !enabled ==> frames == old(frames) && maxHold == old(maxHold) && minHold == old(minHold) && average == old(average)
      ensures enabled ==> frames == (if old(maxHold.Length) == nBins then old(frames) else []) + [Frame(current, tau)]
    {
      if !enabled {
        return;
      }
      if maxHold.Length != nBins {
        maxHold, minHold := new Hold[nBins](_ => Unset), new Hold[nBins](_ => Unset);
        average := new real[nBins](_ => 0.0);
        frameCount, frames := 0, [];
      }
      UpdateBins(current, tau);
      ghost var frame := Frame(current, tau);
      assert (frames + [frame])[..|frames|] == frames;
      frameCount, frames := frameCount + 1, frames + [frame];
    }

    method UpdateBins(current: seq<real>, tau: real)
      requires Separate() && maxHold.Length <= |current|
      modifies maxHold, minHold, average
      ensures forall i :: 0 <= i < maxHold.Length ==>
          && maxHold[i] == MaxStep(old(maxHold[i]), current[i], tau)
          && minHold[i] == MinStep(old(minHold[i]), current[i], tau)
          && average[i] == AverageStep(old(average[i]), frameCount, current[i], tau)
    {
      var decay, alpha := tau > 0.0, Alpha(tau);
      for i := 0 to maxHold.Length
        invariant forall k :: 0 <= k < i ==>
            && maxHold[k] == MaxStep(old(maxHold[k]), current[k], tau)
            && minHold[k] == MinStep(old(minHold[k]), current[k], tau)
            && average[k] == AverageStep(old(average[k]), frameCount, current[k], tau)
        invariant forall k :: i <= k < maxHold.Length ==>
            maxHold[k] == old(maxHold[k]) && minHold[k] == old(minHold[k]) && average[k] == old(average[k])
      {
        var val := current[i];
        if maxHold[i].Unset? || val > maxHold[i].value {
          maxHold[i] := At(val);
        } else if decay {
          maxHold[i] := At(Toward(maxHold[i].value, val, alpha));
        }
        if minHold[i].Unset? || val < minHold[i].value {
          minHold[i] := At(val);
        } else if decay {
          minHold[i] := At(Toward(minHold[i].value, val, alpha));
        }
        if frameCount == 0 {
          average[i] := val;
        } else {
          var effectiveAlpha := if decay then alpha else 1.0 / (frameCount + 1) as real;
          average[i] := Toward(average[i], val, effectiveAlpha);
        }
      }
    }

    method Reset()
      requires Valid()
      modifies this
      ensures Valid() && frames == [] && maxHold.Length == 0
    {
      maxHold, minHold, average := new Hold[0], new Hold[0], new real[0];
      frameCount, frames := 0, [];
    }
  }
}
