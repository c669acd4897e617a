/** The decaying histogram behind a density plot, on the path without a GPU (DensityHistogram in
    src/ui/charts/SpectrumHelper.hpp). */
module DensityHistogram {
  import opened Shared

  /** What the cells are binned by; a change of it starts the histogram anew. */
  datatype Grid = Grid(specBins: nat, ampBins: nat, yMin: real, yMax: real) {
    predicate Valid() { specBins > 0 && ampBins > 0 }
  }

  datatype Frame = Frame(values: seq<real>, tau: real)

  function Clamp(v: real, lo: real, hi: real): real {
    if v < lo then lo else if hi < v then hi else v
  }

  function Decay(tau: real): real {
    if tau > 0.0 then 1.0 - 1.0 / tau else 1.0
  }

  /** Rows per unit of amplitude. */
  function Scale(g: Grid): (s: real)
    requires g.Valid() && g.yMin < g.yMax
    ensures s > 0.0 && (g.yMax - g.yMin) * s == g.ampBins as real
  {
    Quotient(g.ampBins as real, g.yMax - g.yMin);
    g.ampBins as real / (g.yMax - g.yMin)
  }

  lemma Quotient(a: real, b: real)
    requires a > 0.0 && b > 0.0
    ensures a / b > 0.0 && b * (a / b) == a
  {
  }

  /** The row of the clamped coordinate. */
  function RowAt(x: real, n: nat): (row: nat)
    requires n > 0
    ensures row < n
  {
    Clamp(x, 0.0, (n - 1) as real).Floor
  }

  /** The amplitude row of a value; row 0 is at yMax. */
  function BinOf(g: Grid, v: real): (bin: nat)
    requires g.Valid() && g.yMin < g.yMax
    ensures bin < g.ampBins
  {
    RowAt(Coordinate(g, v), g.ampBins)
  }

  function Coordinate(g: Grid, v: real): real
    requires g.Valid() && g.yMin < g.yMax
  {
    (g.yMax - v) * Scale(g)
  }

  lemma ScaleKeepsOrder(a: real, b: real, s: real)
    requires a <= b && s >= 0.0
    ensures a * s <= b * s
  {
    assert (b - a) * s >= 0.0;
  }

  lemma ScaleLess(a: real, b: real, s: real)
    requires a < b && s > 0.0
    ensures a * s < b * s
  {
    assert (b - a) * s > 0.0;
  }

  /** Greater values are in lower rows, and values beyond the limits in the outermost ones. */
  lemma RowsFollowValues(g: Grid, v: real, w: real)
    requires g.Valid() && g.yMin < g.yMax && v <= w
    ensures BinOf(g, w) <= BinOf(g, v)
    ensures v >= g.yMax ==> BinOf(g, v) == 0
    ensures w <= g.yMin ==> BinOf(g, w) == g.ampBins - 1
  {
    hide Coordinate, RowAt;
    CoordinatesInOrder(g, v, w);
    RowsInOrder(Coordinate(g, w), Coordinate(g, v), g.ampBins);
  }

  lemma CoordinatesInOrder(g: Grid, v: real, w: real)
    requires g.Valid() && g.yMin < g.yMax && v <= w
    ensures Coordinate(g, w) <= Coordinate(g, v)
    ensures v >= g.yMax ==> Coordinate(g, v) <= 0.0
    ensures w <= g.yMin ==> Coordinate(g, w) >= g.ampBins as real
  {
    hide Scale;
    var s := Scale(g);
    ScaleKeepsOrder(g.yMax - w, g.yMax - v, s);
    if v >= g.yMax { ScaleKeepsOrder(g.yMax - v, 0.0, s); }
    if w <= g.yMin { ScaleAtLeast(g.yMax - g.yMin, g.yMax - w, s, g.ampBins as real); }
  }

  lemma ScaleAtLeast(a: real, b: real, s: real, c: real)
    requires a <= b && s >= 0.0 && a * s == c
    ensures b * s >= c
  {
    ScaleKeepsOrder(a, b, s);
  }

  lemma RowsInOrder(x: real, y: real, n: nat)
    requires x <= y && n > 0
    ensures RowAt(x, n) <= RowAt(y, n)
    ensures y <= 0.0 ==> RowAt(y, n) == 0
    ensures x >= n as real ==> RowAt(x, n) == n - 1
  {
  }

  lemma RowIs(x: real, n: nat, r: nat)
    requires n > 0
    ensures RowAt(x, n) == r <==> r < n && (r == 0 || r as real <= x) && (r == n - 1 || x < (r + 1) as real)
  {
  }

  lemma ScaledAtMost(d: real, s: real, height: real, n: real, r: real)
    requires height > 0.0 && height * s == n
    ensures r <= d * s <==> r * height <= d * n
  {
    assert d * n == (d * s) * height;
    if r <= d * s {
      ScaleKeepsOrder(r, d * s, height);
    } else {
      ScaleLess(d * s, r, height);
    }
  }

  lemma CoordinateAtMost(g: Grid, v: real, r: real)
    requires g.Valid() && g.yMin < g.yMax
    ensures r <= Coordinate(g, v) <==> r * (g.yMax - g.yMin) <= (g.yMax - v) * g.ampBins as real
  {
    hide Scale;
    ScaledAtMost(g.yMax - v, Scale(g), g.yMax - g.yMin, g.ampBins as real, r);
  }

  /** The rows cut the amplitude range into equal parts, from yMax down; the outermost ones also take what
      lies beyond. */
  lemma BinIs(g: Grid, v: real, r: nat)
    requires g.Valid() && g.yMin < g.yMax
    ensures var height, n := g.yMax - g.yMin, g.ampBins as real;
      BinOf(g, v) == r <==>
        && r < g.ampBins
        && (r == 0 || r as real * height <= (g.yMax - v) * n)
        && (r == g.ampBins - 1 || (g.yMax - v) * n < (r + 1) as real * height)
  {
    hide Scale, RowAt, Coordinate;
    var height, n := g.yMax - g.yMin, g.ampBins as real;
    RowIs(Coordinate(g, v), g.ampBins, r);
    CoordinateAtMost(g, v, r as real);
    CoordinateAtMost(g, v, (r + 1) as real);
  }

  /** The tracker of the greatest possible density: one more with every frame, after the decay. */
  ghost function Peak(frames: seq<Frame>): real {
    if frames == [] then 0.0
    else Peak(frames[..|frames| - 1]) * Decay(frames[|frames| - 1].tau) + 1.0
  }

  ghost predicate FramesOf(g: Grid, frames: seq<Frame>) {
    forall k :: 0 <= k < |frames| ==> g.specBins <= |frames[k].values|
  }

  ghost predicate Hits(g: Grid, f: Frame, b: nat, i: nat)
    requires g.Valid() && i < g.specBins <= |f.values|
  {
    g.yMin < g.yMax && BinOf(g, f.values[i]) == b
  }

  /** The cell in row b of column i after some frames: the frames that hit it, each decayed since. */
  ghost function Density(g: Grid, frames: seq<Frame>, b: nat, i: nat): real
    requires g.Valid() && FramesOf(g, frames) && i < g.specBins
  {
    if frames == [] then 0.0
    else
      var last := frames[|frames| - 1];
      Density(g, frames[..|frames| - 1], b, i) * Decay(last.tau) + (if Hits(g, last, b, i) then 1.0 else 0.0)
  }

  /** The sum of the first k cells of a column. */
  ghost function ColumnSum(g: Grid, frames: seq<Frame>, i: nat, k: nat): real
    requires g.Valid() && FramesOf(g, frames) && i < g.specBins
  {
    if k == 0 then 0.0 else ColumnSum(g, frames, i, k - 1) + Density(g, frames, k - 1, i)
  }

  lemma {:induction false} ColumnSumStep(g: Grid, frames: seq<Frame>, last: Frame, i: nat, k: nat)
    requires g.Valid() && FramesOf(g, frames) && i < g.specBins <= |last.values|
    ensures FramesOf(g, frames + [last])
    ensures ColumnSum(g, frames + [last], i, k) ==
            ColumnSum(g, frames, i, k) * Decay(last.tau) + (if g.yMin < g.yMax && BinOf(g, last.values[i]) < k then 1.0 else 0.0)
  {
    if k > 0 {
      ColumnSumStep(g, frames, last, i, k - 1);
      assert (frames + [last])[..|frames|] == frames;
    }
  }

  /** Every column adds up to the tracker, whatever the time constants were. */
  lemma {:induction false} ColumnIsPeak(g: Grid, frames: seq<Frame>, i: nat)
    requires g.Valid() && FramesOf(g, frames) && i < g.specBins
    ensures ColumnSum(g, frames, i, g.ampBins) == if g.yMin < g.yMax then Peak(frames) else 0.0
  {
    if frames == [] {
      EmptyColumn(g, i, g.ampBins);
    } else {
      var front, last := frames[..|frames| - 1], frames[|frames| - 1];
      ColumnIsPeak(g, front, i);
      ColumnSumStep(g, front, last, i, g.ampBins);
      assert front + [last] == frames;
    }
  }

  lemma {:induction false} EmptyColumn(g: Grid, i: nat, k: nat)
    requires g.Valid() && i < g.specBins
    ensures ColumnSum(g, [], i, k) == 0.0
  {
    if k > 0 {
      EmptyColumn(g, i, k - 1);
    }
  }

  /** Steady time constants are those whose decay is not negative. */
  lemma SteadyIs(tau: real)
    ensures Steady(tau) <==> 0.0 <= Decay(tau)
    ensures Decay(tau) <= 1.0
    ensures tau > 0.0 ==> Decay(tau) * tau == tau - 1.0
  {
    if tau > 0.0 {
      var alpha := 1.0 / tau;
      assert alpha * tau == 1.0;
      if alpha > 1.0 { ScaleLess(1.0, alpha, tau); }
      if alpha < 1.0 { ScaleLess(alpha, 1.0, tau); }
      assert (1.0 - alpha) * tau == tau - 1.0;
    }
  }

  lemma {:induction false} CellBounds(g: Grid, frames: seq<Frame>, b: nat, i: nat)
    requires g.Valid() && FramesOf(g, frames) && i < g.specBins
    requires forall k :: 0 <= k < |frames| ==> Steady(frames[k].tau)
    ensures 0.0 <= Density(g, frames, b, i) <= Peak(frames)
  {
    hide Hits, Decay;
    if frames != [] {
      var front, d := frames[..|frames| - 1], Decay(frames[|frames| - 1].tau);
      CellBounds(g, front, b, i);
      SteadyIs(frames[|frames| - 1].tau);
      ScaleKeepsOrder(0.0, Density(g, front, b, i), d);
      ScaleKeepsOrder(Density(g, front, b, i), Peak(front), d);
    }
  }

  ghost predicate AllOf(frames: seq<Frame>, tau: real) {
    forall k :: 0 <= k < |frames| ==> frames[k].tau == tau
  }

  lemma TwoFrames(g: Grid, f: Frame, h: Frame, b: nat, i: nat)
    requires g.Valid() && i < g.specBins <= |f.values| && g.specBins <= |h.values| && !Hits(g, f, b, i)
    ensures Density(g, [f, h], b, i) == if Hits(g, h, b, i) then 1.0 else 0.0
    ensures Peak([f, h]) == Decay(h.tau) + 1.0
  {
    hide Hits, Decay;
    assert [f, h][..1] == [f] && [f][..0] == [];
    assert Density(g, [f], b, i) == 0.0 * Decay(f.tau);
    assert Peak([f]) == 0.0 * Decay(f.tau) + 1.0;
  }

  /** A frame at the top and one at the bottom: with a negative decay the bottom cell is above the tracker.
      Only the type of the parameter admits such a time constant. */
  lemma NegativeDecay(g: Grid, tau: real) returns (frames: seq<Frame>)
    requires g.Valid() && g.yMin < g.yMax && g.ampBins >= 2 && !Steady(tau)
    ensures FramesOf(g, frames) && AllOf(frames, tau) && Density(g, frames, g.ampBins - 1, 0) > Peak(frames)
  {
    hide BinOf, Decay;
    var top := Frame(seq(g.specBins, _ => g.yMax), tau);
    var bottom := Frame(seq(g.specBins, _ => g.yMin), tau);
    frames := [top, bottom];
    SteadyIs(tau);
    RowsFollowValues(g, g.yMin, g.yMin);
    RowsFollowValues(g, g.yMax, g.yMax);
    TwoFrames(g, top, bottom, g.ampBins - 1, 0);
  }

  /** For a fixed time constant and at least two rows: no cell of any run is above the tracker exactly
      when the constant does not lie strictly between 0 and 1. */
  lemma CellsBoundedExactlyWhen(g: Grid, tau: real)
    requires g.Valid() && g.yMin < g.yMax && g.ampBins >= 2
    ensures Steady(tau) <==> forall frames, b, i | FramesOf(g, frames) && AllOf(frames, tau) && 0 <= b && 0 <= i < g.specBins ::
              Density(g, frames, b, i) <= Peak(frames)
  {
    hide Density, Peak, Steady;
    if Steady(tau) {
      forall frames, b, i | FramesOf(g, frames) && AllOf(frames, tau) && 0 <= b && 0 <= i < g.specBins
        ensures Density(g, frames, b, i) <= Peak(frames)
      {
        CellBounds(g, frames, b, i);
      }
    } else {
      var frames := NegativeDecay(g, tau);
    }
  }

  lemma PeakStep(p: real, d: real, tau: real)
    requires p <= tau && d >= 0.0 && d * tau == tau - 1.0
    ensures p * d + 1.0 <= tau
  {
    ScaleKeepsOrder(p, tau, d);
  }

  /** The tracker never passes a fixed time constant of at least 1, and counts the frames when there is
      no decay. */
  lemma {:induction false} PeakBounds(frames: seq<Frame>, tau: real)
    requires AllOf(frames, tau)
    ensures tau >= 1.0 ==> Peak(frames) <= tau
    ensures tau <= 0.0 ==> Peak(frames) == |frames| as real
    ensures Steady(tau) && frames != [] ==> Peak(frames) >= 1.0
    ensures Steady(tau) ==> Peak(frames) >= 0.0
  {
    if frames != [] {
      var front := frames[..|frames| - 1];
      PeakBounds(front, tau);
      SteadyIs(tau);
      hide Decay;
      var p, d := Peak(front), Decay(tau);
      assert Peak(frames) == p * d + 1.0;
      if tau >= 1.0 { PeakStep(p, d, tau); }
      if Steady(tau) {
        ScaleKeepsOrder(0.0, p, d);
      }
    }
  }

  ghost function HitsIn(g: Grid, frames: seq<Frame>, b: nat, i: nat): nat
    requires g.Valid() && FramesOf(g, frames) && i < g.specBins
  {
    |set k | 0 <= k < |frames| && Hits(g, frames[k], b, i)|
  }

  lemma HitsInStep(g: Grid, frames: seq<Frame>, last: Frame, b: nat, i: nat)
    requires g.Valid() && FramesOf(g, frames) && i < g.specBins <= |last.values|
    ensures FramesOf(g, frames + [last])
    ensures HitsIn(g, frames + [last], b, i) == HitsIn(g, frames, b, i) + if Hits(g, last, b, i) then 1 else 0
  {
    hide Hits;
    var n := |frames|;
    var before := set k | 0 <= k < n && Hits(g, frames[k], b, i);
    var all := set k | 0 <= k < n + 1 && Hits(g, (frames + [last])[k], b, i);
    assert n !in before;
    assert all == if Hits(g, last, b, i) then before + {n} else before;
  }

  /** Without decay a cell counts the frames that hit it. */
  lemma {:induction false} CellCounts(g: Grid, frames: seq<Frame>, b: nat, i: nat)
    requires g.Valid() && FramesOf(g, frames) && i < g.specBins
    requires forall k :: 0 <= k < |frames| ==> frames[k].tau <= 0.0
    ensures Density(g, frames, b, i) == HitsIn(g, frames, b, i) as real
  {
    hide Hits;
    if frames != [] {
      var front, last := frames[..|frames| - 1], frames[|frames| - 1];
      CellCounts(g, front, b, i);
      HitsInStep(g, front, last, b, i);
      assert front + [last] == frames;
    }
  }

  // ---- the cells in memory ----

  function Index(b: nat, i: nat, specBins: nat): nat {
    b * specBins + i
  }

  lemma IndexFits(b: nat, i: nat, specBins: nat, ampBins: nat)
    requires b < ampBins && i < specBins
    ensures Index(b, i, specBins) < ampBins * specBins
  {
    assert (ampBins - 1 - b) * specBins >= 0;
    assert ampBins * specBins == (ampBins - 1 - b) * specBins + b * specBins + specBins;
  }

  lemma IndexBelow(b: nat, i: nat, c: nat, j: nat, specBins: nat)
    requires b < c && i < specBins
    ensures Index(b, i, specBins) < Index(c, j, specBins)
  {
    var d := c - b - 1;
    assert c * specBins == b * specBins + d * specBins + specBins;
    assert d * specBins >= 0;
  }

  lemma IndexApart(b: nat, i: nat, c: nat, j: nat, specBins: nat)
    requires i < specBins && j < specBins && Index(b, i, specBins) == Index(c, j, specBins)
    ensures b == c && i == j
  {
    if b < c {
      IndexBelow(b, i, c, j, specBins);
    } else if c < b {
      IndexBelow(c, j, b, i, specBins);
    }
  }

  /** The flat cells show the densities after the frames. */
  ghost predicate Shows(cells: seq<real>, g: Grid, frames: seq<Frame>)
    requires g.Valid() && FramesOf(g, frames)
  {
    && |cells| == g.ampBins * g.specBins
    && forall b, i {:trigger Density(g, frames, b, i)} {:trigger Index(b, i, g.specBins)} :: 0 <= b < g.ampBins && 0 <= i < g.specBins ==>
         Index(b, i, g.specBins) < |cells| && cells[Index(b, i, g.specBins)] == Density(g, frames, b, i)
  }

  ghost function CellSum(cells: seq<real>, g: Grid, i: nat, k: nat): real
    requires |cells| == g.ampBins * g.specBins && i < g.specBins && k <= g.ampBins
  {
    if k == 0 then 0.0
    else
      IndexFits(k - 1, i, g.specBins, g.ampBins);
      CellSum(cells, g, i, k - 1) + cells[Index(k - 1, i, g.specBins)]
  }

  lemma {:induction false} CellSumShown(cells: seq<real>, g: Grid, frames: seq<Frame>, i: nat, k: nat)
    requires g.Valid() && FramesOf(g, frames) && Shows(cells, g, frames) && i < g.specBins && k <= g.ampBins
    ensures CellSum(cells, g, i, k) == ColumnSum(g, frames, i, k)
  {
    if k > 0 {
      CellSumShown(cells, g, frames, i, k - 1);
    }
  }

  /** The cells of every column add up to the tracker. */
  lemma ColumnsAddUp(cells: seq<real>, g: Grid, frames: seq<Frame>, i: nat)
    requires g.Valid() && FramesOf(g, frames) && Shows(cells, g, frames) && i < g.specBins && g.yMin < g.yMax
    ensures CellSum(cells, g, i, g.ampBins) == Peak(frames)
  {
    CellSumShown(cells, g, frames, i, g.ampBins);
    ColumnIsPeak(g, frames, i);
  }

  lemma FreshShows(cells: seq<real>, g: Grid)
    requires g.Valid() && |cells| == g.ampBins * g.specBins && forall k :: 0 <= k < |cells| ==> cells[k] == 0.0
    ensures Shows(cells, g, [])
  {
    forall b, i | 0 <= b < g.ampBins && 0 <= i < g.specBins
      ensures Index(b, i, g.specBins) < |cells|
    {
      IndexFits(b, i, g.specBins, g.ampBins);
    }
  }

  /** Decaying every cell and adding one hit per column shows one more frame. */
  lemma NextShows(before: seq<real>, after: seq<real>, g: Grid, frames: seq<Frame>, f: Frame)
    requires g.Valid() && FramesOf(g, frames) && Shows(before, g, frames) && g.specBins <= |f.values| && |after| == |before|
    requires forall b, i {:trigger Index(b, i, g.specBins)} :: 0 <= b < g.ampBins && 0 <= i < g.specBins ==>
               Index(b, i, g.specBins) < |after| &&
               after[Index(b, i, g.specBins)] == before[Index(b, i, g.specBins)] * Decay(f.tau) + (if Hits(g, f, b, i) then 1.0 else 0.0)
    ensures FramesOf(g, frames + [f]) && Shows(after, g, frames + [f])
  {
    hide Hits, Decay;
    assert (frames + [f])[..|frames|] == frames;
  }

  class Histogram {
    var specBins: nat
    var ampBins: nat
    var binningYMin: real
    var binningYMax: real
    var cells: array<real>
    ghost var frames: seq<Frame>  // the frames since the cells were last zeroed

    function G(): Grid
      reads this
    {
      Grid(specBins, ampBins, binningYMin, binningYMax)
    }

    ghost predicate Valid()
      reads this, cells
    {
      if specBins == 0 || ampBins == 0 then cells.Length == 0
      else G().Valid() && FramesOf(G(), frames) && Shows(cells[..], G(), frames)
    }

    constructor ()
      ensures Valid() && fresh(cells) && frames == [] && specBins == ampBins == 0
    {
      specBins, ampBins, binningYMin, binningYMax := 0, 0, 0.0, 0.0;
      cells := new real[0];
      frames := [];
    }

    method Zero()
      modifies this`frames, cells
      ensures frames == [] && forall k :: 0 <= k < cells.Length ==> cells[k] == 0.0
    {
      for k := 0 to cells.Length
        modifies cells
        invariant forall j :: 0 <= j < k ==> cells[j] == 0.0
      {
        cells[k] := 0.0;
      }
      frames := [];
    }

    method Fade(factor: real)
      modifies cells
      ensures forall k :: 0 <= k < cells.Length ==> cells[k] == old(cells[k]) * factor
    {
      for k := 0 to cells.Length
        invariant forall j :: 0 <= j < k ==> cells[j] == old(cells[j]) * factor
        invariant forall j :: k <= j < cells.Length ==> cells[j] == old(cells[j])
      {
        cells[k] := cells[k] * factor;
      }
    }

    /** One hit in every column. */
    method AddHits(yValues: seq<real>)
      requires G().Valid() && cells.Length == ampBins * specBins && specBins <= |yValues| && binningYMin < binningYMax
      modifies cells
      ensures forall b, i {:trigger Index(b, i, specBins)} :: 0 <= b < ampBins && 0 <= i < specBins ==>
                Index(b, i, specBins) < cells.Length &&
                cells[Index(b, i, specBins)] == old(cells[Index(b, i, specBins)]) + (if BinOf(G(), yValues[i]) == b then 1.0 else 0.0)
    {
      hide Index, BinOf;
      forall b, i | 0 <= b < ampBins && 0 <= i < specBins
        ensures Index(b, i, specBins) < cells.Length
      {
        IndexFits(b, i, specBins, ampBins);
      }
      for n := 0 to specBins
        invariant forall b, i {:trigger Index(b, i, specBins)} :: 0 <= b < ampBins && 0 <= i < specBins ==>
          cells[Index(b, i, specBins)] == old(cells[Index(b, i, specBins)]) + (if i < n && BinOf(G(), yValues[i]) == b then 1.0 else 0.0)
      {
        var bin := BinOf(G(), yValues[n]);
        forall b, i | 0 <= b < ampBins && 0 <= i < specBins && Index(b, i, specBins) == Index(bin, n, specBins)
          ensures b == bin && i == n
        {
          IndexApart(b, i, bin, n, specBins);
        }
        cells[Index(bin, n, specBins)] := cells[Index(bin, n, specBins)] + 1.0;
      }
    }

    /** One frame: a change of the size or of the limits empties the histogram first. */
    method CpuUpdate(yValues: seq<real>, nBins: nat, ampBins: nat, decayTau: real, yMin: real, yMax: real)
      requires Valid() && 0 < nBins <= |yValues| && 0 < ampBins
      modifies this, cells
      ensures Valid() && G() == Grid(nBins, ampBins, yMin, yMax) && (cells == old(cells) || fresh(cells))
      ensures frames == (if old(G()) == G() then old(frames) else []) + [Frame(yValues, decayTau)]
    {
      hide Shows, Index, Density, BinOf, Decay;
      if specBins != nBins || this.ampBins != ampBins {
        cells := new real[ampBins * nBins](_ => 0.0);
        specBins, this.ampBins, frames := nBins, ampBins, [];
        binningYMin, binningYMax := yMin, yMax;
        FreshShows(cells[..], G());
      }
      if binningYMin != yMin || binningYMax != yMax {
        ShownSize(cells[..], G(), frames);
        Zero();
        binningYMin, binningYMax := yMin, yMax;
        FreshShows(cells[..], G());
      }
      ShownSize(cells[..], G(), frames);
      Accumulate(yValues, decayTau);
    }

    method Accumulate(yValues: seq<real>, decayTau: real)
      requires Valid() && G().Valid() && specBins <= |yValues|
      modifies this`frames, cells
      ensures Valid() && frames == old(frames) + [Frame(yValues, decayTau)]
    {
      hide Density, BinOf, Decay, Index;
      ghost var before := cells[..];
      ghost var f := Frame(yValues, decayTau);
      Fade(Decay(decayTau));
      if binningYMax - binningYMin > 0.0 {
        AddHits(yValues);
      }
      NextShows(before, cells[..], G(), frames, f);
      frames := frames + [f];
    }
  }

  lemma ShownSize(cells: seq<real>, g: Grid, frames: seq<Frame>)
    requires g.Valid() && FramesOf(g, frames) && Shows(cells, g, frames)
    ensures |cells| == g.ampBins * g.specBins
  {
  }
}
