/** A linear spectrum put onto log-spaced columns: the greatest magnitude of each column, gaps filled
    from below, the leading gap from above (buildLogBinnedRow in src/ui/charts/SpectrumHelper.hpp). */
module LogBinnedRow {

  /** A float, as far as comparisons and isfinite see it. */
  datatype Mag = Finite(value: real) | PosInf | NegInf | NaN

  /** Floating-point less-than: false whenever a NaN is compared. */
  predicate Less(a: Mag, b: Mag) {
    match (a, b)
    case (Finite(x), Finite(y)) => x < y
    case (NegInf, Finite(_)) => true
    case (NegInf, PosInf) => true
    case (Finite(_), PosInf) => true
    case _ => false
  }

  /** std::max: the first argument unless it is less than the second. */
  function Max(a: Mag, b: Mag): Mag {
    if Less(a, b) then b else a
  }

  /** Log-spaced columns between two positive frequencies; the logarithm is any increasing function. */
  datatype Binning = Binning(log: real -> real, fMin: real, fMax: real, nCols: nat) {
    ghost predicate Valid() {
      && 0.0 < fMin < fMax && 0 < nCols
      && forall x, y :: 0.0 < x < y ==> log(x) < log(y)
    }

    predicate InRange(f: real) {
      !(f < fMin || f > fMax)
    }

    /** The column coordinate of a frequency, from 0 at fMin to nCols at fMax. */
    function Position(f: real): (x: real)
      requires Valid() && InRange(f)
      ensures 0.0 <= x <= nCols as real
    {
      var t := (log(f) - log(fMin)) / (log(fMax) - log(fMin));
      Share(log(f) - log(fMin), log(fMax) - log(fMin), nCols as real);
      t * nCols as real
    }

    function Column(f: real): (c: nat)
      requires Valid() && InRange(f)
      ensures c < nCols
    {
      var c := Position(f).Floor;
      if c < nCols then c else nCols - 1
    }
  }

  lemma MulLess(a: real, b: real, w: real)
    requires a < b && w > 0.0
    ensures a * w < b * w
  {
    assert (b - a) * w > 0.0;
  }

  lemma SharesGrow(part: real, other: real, whole: real, n: real)
    requires part <= other && whole > 0.0 && n >= 0.0
    ensures part / whole * n <= other / whole * n
  {
    var s, t := part / whole, other / whole;
    assert s * whole == part && t * whole == other;
    if t < s { MulLess(t, s, whole); }
    assert (t - s) * n >= 0.0;
  }

  lemma NoneAndAll(whole: real, n: real)
    requires whole > 0.0
    ensures 0.0 / whole * n == 0.0 && whole / whole * n == n
  {
    var none, all := 0.0 / whole, whole / whole;
    assert none * whole == 0.0 && all * whole == whole;
    assert none == 0.0 && all == 1.0;
  }

  lemma Share(part: real, whole: real, n: real)
    requires 0.0 <= part <= whole && whole > 0.0 && n >= 0.0
    ensures 0.0 <= part / whole * n <= n
  {
    SharesGrow(0.0, part, whole, n);
    SharesGrow(part, whole, whole, n);
    NoneAndAll(whole, n);
  }

  lemma RoundsDown(x: real, y: real)
    requires x <= y
    ensures x.Floor <= y.Floor
  {
  }

  /** Columns follow the frequencies: in order, the lowest in the first and the highest in the last. */
  lemma ColumnsFollowFrequencies(b: Binning, f: real, g: real)
    requires b.Valid() && b.InRange(f) && b.InRange(g) && f <= g
    ensures b.Column(f) <= b.Column(g)
    ensures b.Column(b.fMin) == 0 && b.Column(b.fMax) == b.nCols - 1
  {
    PositionsInOrder(b, f, g);
    EndPositions(b);
    RoundsDown(b.Position(f), b.Position(g));
  }

  lemma PositionsInOrder(b: Binning, f: real, g: real)
    requires b.Valid() && b.InRange(f) && b.InRange(g) && f <= g
    ensures b.Position(f) <= b.Position(g)
  {
    var span, n := b.log(b.fMax) - b.log(b.fMin), b.nCols as real;
    SharesGrow(b.log(f) - b.log(b.fMin), b.log(g) - b.log(b.fMin), span, n);
  }

  lemma EndPositions(b: Binning)
    requires b.Valid()
    ensures b.Position(b.fMin) == 0.0 && b.Position(b.fMax) == b.nCols as real
  {
    NoneAndAll(b.log(b.fMax) - b.log(b.fMin), b.nCols as real);
  }

  /** The bin is in the range, and the part of the logarithmic span that its frequency has passed is the
      part of the columns before c and not the one after it; the upper end belongs to the last column. */
  ghost predicate In(b: Binning, freqs: seq<real>, k: int, c: nat)
    requires b.Valid() && 0 <= k < |freqs|
  {
    var f, span, n := freqs[k], b.log(b.fMax) - b.log(b.fMin), b.nCols as real;
    && b.fMin <= f <= b.fMax
    && (if f == b.fMax then c == b.nCols - 1
        else c as real * span <= (b.log(f) - b.log(b.fMin)) * n < (c + 1) as real * span)
  }

  lemma FloorIs(x: real, c: int)
    ensures x.Floor == c <==> c as real <= x < (c + 1) as real
  {
  }

  lemma ShareIs(part: real, span: real, n: real, c: real)
    requires span > 0.0
    ensures c <= part / span * n <==> c * span <= part * n
  {
    var t := part / span;
    assert t * span == part;
    assert (t * n) * span == part * n;
    if c <= t * n {
      assert (t * n - c) * span >= 0.0;
    } else {
      MulLess(t * n, c, span);
    }
  }

  /** The column that the code computes is the one between whose limits the frequency lies. */
  lemma ColumnIs(b: Binning, freqs: seq<real>, k: int, c: nat)
    requires b.Valid() && 0 <= k < |freqs|
    ensures In(b, freqs, k, c) <==> b.InRange(freqs[k]) && b.Column(freqs[k]) == c
  {
    var f, span, n := freqs[k], b.log(b.fMax) - b.log(b.fMin), b.nCols as real;
    if b.InRange(f) {
      EndPositions(b);
      var x, part := b.Position(f), b.log(f) - b.log(b.fMin);
      FloorIs(x, c);
      ShareIs(part, span, n, c as real);
      ShareIs(part, span, n, (c + 1) as real);
      if f < b.fMax {
        MulLess(part, span, n);
        ShareIs(part, span, n, n);
      }
    }
  }

  /** x of n columns are at least c columns of the span, and less than c + 1. */
  ghost predicate Between(c: nat, span: real, x: real, n: real) {
    c as real * span <= x * n < (c + 1) as real * span
  }

  /** So equal steps of the logarithm pass equal numbers of columns. */
  lemma EqualSteps(b: Binning, f: real, g: real, m: nat)
    requires b.Valid() && b.InRange(f) && b.InRange(g) && g < b.fMax
    requires (b.log(g) - b.log(f)) * b.nCols as real == m as real * (b.log(b.fMax) - b.log(b.fMin))
    ensures b.Column(g) == b.Column(f) + m
  {
    hide In, Between, Binning.Column;
    var freqs, span, n, low := [f, g], b.log(b.fMax) - b.log(b.fMin), b.nCols as real, b.log(b.fMin);
    var c := b.Column(f);
    BelowEnd(b, f, g, m);
    ColumnIs(b, freqs, 0, c);
    ColumnIs(b, freqs, 1, c + m);
    InMeans(b, freqs, 0, c);
    InMeans(b, freqs, 1, c + m);
    EqualBetween(b.log(f) - low, b.log(g) - low, n, c, m, span);
  }

  lemma InMeans(b: Binning, freqs: seq<real>, k: int, c: nat)
    requires b.Valid() && 0 <= k < |freqs| && b.fMin <= freqs[k] < b.fMax
    ensures In(b, freqs, k, c) <==>
            Between(c, b.log(b.fMax) - b.log(b.fMin), b.log(freqs[k]) - b.log(b.fMin), b.nCols as real)
  {
  }

  lemma BelowEnd(b: Binning, f: real, g: real, m: nat)
    requires b.Valid() && b.InRange(f) && b.InRange(g) && g < b.fMax
    requires (b.log(g) - b.log(f)) * b.nCols as real == m as real * (b.log(b.fMax) - b.log(b.fMin))
    ensures f < b.fMax
  {
    var span := b.log(b.fMax) - b.log(b.fMin);
    assert span > 0.0 && m as real * span >= 0.0;
    if f == b.fMax {
      MulLess(b.log(g) - b.log(f), 0.0, b.nCols as real);
    }
  }

  lemma EqualBetween(p: real, q: real, n: real, c: nat, m: nat, span: real)
    requires (q - p) * n == m as real * span
    ensures Between(c, span, p, n) <==> Between(c + m, span, q, n)
  {
    StepIs(p, q, n, c as real, m as real, span);
    StepIs(p, q, n, (c + 1) as real, m as real, span);
    assert c as real + m as real == (c + m) as real && (c + 1) as real + m as real == (c + m + 1) as real;
  }

  lemma StepIs(p: real, q: real, n: real, c: real, m: real, span: real)
    requires (q - p) * n == m * span
    ensures c * span <= p * n <==> (c + m) * span <= q * n
  {
    assert (c + m) * span == c * span + m * span;
    assert q * n == p * n + (q - p) * n;
  }

  /** What the first loop leaves in a column after k bins. */
  ghost function Aggregate(b: Binning, freqs: seq<real>, mags: seq<Mag>, k: nat, c: nat): Mag
    requires b.Valid() && k <= |freqs| && k <= |mags|
  {
    if k == 0 then NegInf
    else
      var before := Aggregate(b, freqs, mags, k - 1, c);
      if In(b, freqs, k - 1, c) then Max(before, mags[k - 1]) else before
  }

  ghost function Aggregates(b: Binning, freqs: seq<real>, mags: seq<Mag>, k: nat): (row: seq<Mag>)
    requires b.Valid() && k <= |freqs| && k <= |mags|
    ensures |row| == b.nCols && forall c :: 0 <= c < b.nCols ==> row[c] == Aggregate(b, freqs, mags, k, c)
  {
    seq(b.nCols, c requires 0 <= c < b.nCols => Aggregate(b, freqs, mags, k, c))
  }

  /** An aggregate is the greatest magnitude of its column that is not a NaN. */
  lemma {:induction false} AggregateIsPeak(b: Binning, freqs: seq<real>, mags: seq<Mag>, k: nat, c: nat)
    requires b.Valid() && k <= |freqs| && k <= |mags|
    ensures Aggregate(b, freqs, mags, k, c) != NaN
    ensures forall j :: 0 <= j < k && In(b, freqs, j, c) ==> !Less(Aggregate(b, freqs, mags, k, c), mags[j])
    ensures Aggregate(b, freqs, mags, k, c) == NegInf
            || exists j :: 0 <= j < k && In(b, freqs, j, c) && mags[j] == Aggregate(b, freqs, mags, k, c)
  {
    if k > 0 {
      AggregateIsPeak(b, freqs, mags, k - 1, c);
    }
  }

  /** No column from lo to hi is occupied. */
  ghost predicate Gap(row: seq<Mag>, lo: nat, hi: nat)
    requires lo <= hi <= |row|
  {
    forall c :: lo <= c < hi ==> !row[c].Finite?
  }

  /** The greatest occupied column up to c, or -1. */
  ghost function Last(row: seq<Mag>, c: int): (p: int)
    requires -1 <= c < |row|
    ensures -1 <= p <= c && Gap(row, p + 1, c + 1)
    ensures p >= 0 ==> row[p].Finite?
    decreases c + 1
  {
    if c == -1 || row[c].Finite? then c else Last(row, c - 1)
  }

  /** The first occupied column from c on, or the end. */
  ghost function First(row: seq<Mag>, c: nat): (p: nat)
    requires c <= |row|
    ensures c <= p <= |row| && Gap(row, c, p)
    ensures p < |row| ==> row[p].Finite?
    decreases |row| - c
  {
    if c == |row| || row[c].Finite? then c else First(row, c + 1)
  }

  ghost function Filled(row: seq<Mag>, c: nat): Mag
    requires c < |row|
  {
    if Last(row, c) >= 0 then row[Last(row, c)]
    else if First(row, 0) < |row| then row[First(row, 0)]
    else Finite(0.0)
  }

  /** A filled column is finite: the greatest occupied column up to it, else the first occupied one,
      else 0. */
  lemma FilledIs(row: seq<Mag>, c: nat)
    requires c < |row|
    ensures Filled(row, c).Finite?
    ensures forall p :: 0 <= p <= c && row[p].Finite? && Gap(row, p + 1, c + 1) ==> Filled(row, c) == row[p]
    ensures forall p :: c < p < |row| && row[p].Finite? && Gap(row, 0, p) ==> Filled(row, c) == row[p]
    ensures Gap(row, 0, |row|) ==> Filled(row, c) == Finite(0.0)
  {
    forall p | 0 <= p <= c && row[p].Finite? && Gap(row, p + 1, c + 1)
      ensures Last(row, c) == p
    {
    }
    forall p | c < p < |row| && row[p].Finite? && Gap(row, 0, p)
      ensures Last(row, c) == -1 && First(row, 0) == p
    {
    }
  }

  method BuildLogBinnedRow(b: Binning, freqs: seq<real>, mags: seq<Mag>, nBins: nat, out: array<Mag>)
    requires b.Valid() && nBins <= |freqs| && nBins <= |mags| && out.Length == b.nCols
    modifies out
    ensures forall c :: 0 <= c < out.Length ==> out[c].Finite?
    ensures forall c :: 0 <= c < out.Length ==> out[c] == Filled(Aggregates(b, freqs, mags, nBins), c)
  {
    hide In, Binning.Column;
    for c := 0 to out.Length
      invariant forall q :: 0 <= q < c ==> out[q] == NegInf
    {
      out[c] := NegInf;
    }
    for k := 0 to nBins
      invariant out[..] == Aggregates(b, freqs, mags, k)
    {
      forall c: nat
        ensures In(b, freqs, k, c) <==> b.InRange(freqs[k]) && b.Column(freqs[k]) == c
      {
        ColumnIs(b, freqs, k, c);
      }
      if freqs[k] < b.fMin || freqs[k] > b.fMax {
        continue;
      }
      var col := b.Column(freqs[k]);
      out[col] := Max(out[col], mags[k]);
    }
    ghost var row := Aggregates(b, freqs, mags, nBins);
    var haveFirst, firstVal := ForwardFill(out);
    BackFill(out, haveFirst, firstVal, row);
    forall c | 0 <= c < out.Length
      ensures out[c].Finite?
    {
      FilledIs(row, c);
    }
  }

  lemma FillStep(row: seq<Mag>, c: nat)
    requires c < |row|
    ensures Last(row, c) == if row[c].Finite? then c else Last(row, c - 1)
    ensures First(row, c) == if row[c].Finite? then c else First(row, c + 1)
  {
  }

  lemma NothingSeen(row: seq<Mag>)
    ensures Last(row, -1) == -1 && First(row, |row|) == |row|
  {
  }

  /** Copies the last occupied column into the gaps above it. */
  method ForwardFill(out: array<Mag>) returns (haveFirst: bool, firstVal: real)
    modifies out
    ensures forall c :: 0 <= c < out.Length ==>
              out[c] == if Last(old(out[..]), c) >= 0 then old(out[..])[Last(old(out[..]), c)] else old(out[c])
    ensures haveFirst <==> First(old(out[..]), 0) < out.Length
    ensures haveFirst ==> old(out[..])[First(old(out[..]), 0)] == Finite(firstVal)
  {
    hide Gap, Last, First;
    var carry, seen := 0.0, false;
    ghost var row := out[..];
    firstVal, haveFirst := 0.0, false;
    NothingSeen(row);
    for c := 0 to out.Length
      invariant forall q :: c <= q < out.Length ==> out[q] == row[q]
      invariant seen == haveFirst == (Last(row, c - 1) >= 0)
      invariant seen ==> row[Last(row, c - 1)] == Finite(carry) && First(row, 0) < c && row[First(row, 0)] == Finite(firstVal)
      invariant !seen ==> First(row, 0) == First(row, c)
      invariant forall q :: 0 <= q < c ==> out[q] == if Last(row, q) >= 0 then row[Last(row, q)] else row[q]
    {
      FillStep(row, c);
      if out[c].Finite? {
        carry, seen := out[c].value, true;
        if !haveFirst {
          firstVal, haveFirst := out[c].value, true;
        }
      } else if seen {
        out[c] := Finite(carry);
      }
    }
  }

  /** Fills the columns below the first occupied one with its value, or with 0 if there is none. */
  method BackFill(out: array<Mag>, haveFirst: bool, firstVal: real, ghost row: seq<Mag>)
    requires |row| == out.Length
    requires forall c :: 0 <= c < out.Length ==> out[c] == if Last(row, c) >= 0 then row[Last(row, c)] else row[c]
    requires haveFirst <==> First(row, 0) < out.Length
    requires haveFirst ==> row[First(row, 0)] == Finite(firstVal)
    modifies out
    ensures forall c :: 0 <= c < out.Length ==> out[c] == Filled(row, c)
  {
    ghost var end := First(row, 0);
    for c := 0 to out.Length
      invariant c <= end
      invariant forall q :: 0 <= q < c ==> out[q] == Filled(row, q)
      invariant forall q :: c <= q < out.Length ==> out[q] == old(out[q])
    {
      if out[c].Finite? {
        assert c == end;
        forall q | c <= q < out.Length
          ensures Last(row, q) >= 0
        {
          assert !Gap(row, 0, q + 1);
        }
        break;
      }
      assert Last(row, c) < 0;
      out[c] := Finite(if haveFirst then firstVal else 0.0);
    }
  }

  // ---- the peak ----

  /** The greatest finite magnitude of the bins in range. */
  ghost predicate IsPeak(b: Binning, freqs: seq<real>, mags: seq<Mag>, nBins: nat, peak: real)
    requires nBins <= |freqs| && nBins <= |mags|
  {
    && (exists k :: 0 <= k < nBins && b.InRange(freqs[k]) && mags[k] == Finite(peak))
    && (forall k :: 0 <= k < nBins && b.InRange(freqs[k]) && mags[k].Finite? ==> mags[k].value <= peak)
  }

  /** A bin that holds +inf and falls in the column. */
  ghost predicate Overflows(b: Binning, freqs: seq<real>, mags: seq<Mag>, nBins: nat, c: nat)
    requires b.Valid() && nBins <= |freqs| && nBins <= |mags|
  {
    exists j :: 0 <= j < nBins && In(b, freqs, j, c) && mags[j] == PosInf
  }

  /** A column is occupied when it has a finite magnitude and no +inf; with a +inf it reads as a gap. */
  lemma OccupiedColumn(b: Binning, freqs: seq<real>, mags: seq<Mag>, nBins: nat, c: nat)
    requires b.Valid() && nBins <= |freqs| && nBins <= |mags| && c < b.nCols
    ensures Aggregate(b, freqs, mags, nBins, c).Finite? <==>
              !Overflows(b, freqs, mags, nBins, c) && exists j :: 0 <= j < nBins && In(b, freqs, j, c) && mags[j].Finite?
  {
    AggregateIsPeak(b, freqs, mags, nBins, c);
  }

  /** A bin with the peak, in a column without +inf. */
  ghost predicate HasPeak(b: Binning, freqs: seq<real>, mags: seq<Mag>, nBins: nat, peak: real, k: nat, c: nat)
    requires b.Valid() && nBins <= |freqs| && nBins <= |mags|
  {
    k < nBins && c < b.nCols && In(b, freqs, k, c) && mags[k] == Finite(peak) && !Overflows(b, freqs, mags, nBins, c)
  }

  /** The in-range peak is in the row exactly when one of its bins falls in a column without a +inf; or
      when every column is a gap, so that the row is 0, and the peak is 0 itself. */
  lemma PeakKept(b: Binning, freqs: seq<real>, mags: seq<Mag>, nBins: nat, peak: real)
    requires b.Valid() && nBins <= |freqs| && nBins <= |mags| && IsPeak(b, freqs, mags, nBins, peak)
    ensures var row := Aggregates(b, freqs, mags, nBins);
      (exists c :: 0 <= c < |row| && Filled(row, c) == Finite(peak)) <==>
      (exists k, c :: HasPeak(b, freqs, mags, nBins, peak, k, c)) || (peak == 0.0 && Gap(row, 0, |row|))
  {
    hide In;
    var row := Aggregates(b, freqs, mags, nBins);
    forall k, c | HasPeak(b, freqs, mags, nBins, peak, k, c)
      ensures Filled(row, c) == Finite(peak)
    {
      OccupiedColumn(b, freqs, mags, nBins, c);
      AggregateIsPeak(b, freqs, mags, nBins, c);
      InIsInRange(b, freqs, k, c);
      forall j | 0 <= j < nBins && In(b, freqs, j, c)
        ensures b.InRange(freqs[j])
      {
        InIsInRange(b, freqs, j, c);
      }
    }
    forall c | 0 <= c < |row| && Filled(row, c) == Finite(peak) && !Gap(row, 0, |row|)
      ensures exists k, p :: HasPeak(b, freqs, mags, nBins, peak, k, p)
    {
      var p := if Last(row, c) >= 0 then Last(row, c) else First(row, 0);
      AggregateIsPeak(b, freqs, mags, nBins, p);
      OccupiedColumn(b, freqs, mags, nBins, p);
      var j :| 0 <= j < nBins && In(b, freqs, j, p) && mags[j] == row[p];
      assert HasPeak(b, freqs, mags, nBins, peak, j, p);
    }
    if Gap(row, 0, |row|) {
      FilledIs(row, 0);
    }
  }

  lemma InIsInRange(b: Binning, freqs: seq<real>, k: nat, c: nat)
    requires b.Valid() && k < |freqs| && In(b, freqs, k, c)
    ensures b.InRange(freqs[k])
  {
  }

  /** No column is above the in-range peak, unless every column is a gap. */
  lemma NothingAbovePeak(b: Binning, freqs: seq<real>, mags: seq<Mag>, nBins: nat, peak: real, c: nat)
    requires b.Valid() && nBins <= |freqs| && nBins <= |mags| && IsPeak(b, freqs, mags, nBins, peak) && c < b.nCols
    ensures var row := Aggregates(b, freqs, mags, nBins);
      Gap(row, 0, |row|) || (Filled(row, c).Finite? && Filled(row, c).value <= peak)
  {
    var row := Aggregates(b, freqs, mags, nBins);
    if !Gap(row, 0, |row|) {
      var p := if Last(row, c) >= 0 then Last(row, c) else First(row, 0);
      AggregateIsPeak(b, freqs, mags, nBins, p);
    }
  }
}
