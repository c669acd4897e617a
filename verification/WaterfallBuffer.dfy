/** The resizable ring of spectrum rows behind a waterfall plot, and its three read-outs
    (WaterfallBuffer in src/ui/charts/SpectrumHelper.hpp). */
module WaterfallBuffer {
  import opened Shared

  /** One row of cells with the time at which it was pushed. */
  datatype Entry<T> = Entry(row: seq<T>, time: real)

  /** The first n cells, padded with blanks to the width. */
  function Padded<T>(cells: seq<T>, n: nat, width: nat, blank: T): seq<T>
    requires n <= |cells| && n <= width
  {
    cells[..n] + seq(width - n, _ => blank)
  }

  /** A queue that drops its oldest element when it is full. */
  function Pushed<T>(q: seq<T>, capacity: nat, e: T): seq<T> {
    if |q| < capacity then q + [e] else if |q| == 0 then [] else q[1..] + [e]
  }

  /** The newest n elements. */
  function Newest<T>(q: seq<T>, n: nat): seq<T> {
    if n < |q| then q[|q| - n..] else q
  }

  lemma WrapIs(x: nat, h: nat)
    requires 0 < h && x < 2 * h
    ensures x % h == if x < h then x else x - h
  {
    if x >= h {
      assert x == h + (x - h);
      assert (x - h) % h == x - h;
    }
  }

  lemma RowFits(r: nat, width: nat, height: nat)
    requires r < height
    ensures 0 <= r * width && r * width + width <= width * height
  {
    var d := height - 1 - r;
    assert width * height == r * width + width + d * width;
    assert d * width >= 0;
  }

  lemma RowsApart(r: nat, s: nat, width: nat)
    requires r < s
    ensures r * width + width <= s * width
  {
    var d := s - 1 - r;
    assert s * width == r * width + width + d * width;
    assert d * width >= 0;
  }

  /** The table row that holds the i-th oldest of `filled` entries. */
  function Slot(height: nat, writeRow: nat, filled: nat, i: nat): (r: nat)
    requires filled <= height && i < filled
    ensures r < height
  {
    (writeRow + height - filled + i) % height
  }

  lemma SlotIs(height: nat, writeRow: nat, filled: nat, i: nat)
    requires filled <= height && i < filled && writeRow < height
    ensures Slot(height, writeRow, filled, i) ==
            if writeRow + i < filled then writeRow + height - filled + i else writeRow - filled + i
  {
    WrapIs(writeRow + height - filled + i, height);
  }

  /** A table of rows read as a ring, from the oldest entry to the newest. */
  function ReadRing<T>(table: seq<T>, writeRow: nat, filled: nat): (q: seq<T>)
    requires filled <= |table|
    ensures |q| == filled && forall i :: 0 <= i < filled ==> q[i] == table[Slot(|table|, writeRow, filled, i)]
  {
    seq(filled, i requires 0 <= i < filled => table[Slot(|table|, writeRow, filled, i)])
  }

  /** Writing at the write row and moving on is a push to the bounded queue. */
  lemma RingPush<T>(table: seq<T>, writeRow: nat, filled: nat, e: T)
    requires filled <= |table| && writeRow < |table|
    ensures var h := |table|;
      ReadRing(table[writeRow := e], (writeRow + 1) % h, Min(filled + 1, h)) == Pushed(ReadRing(table, writeRow, filled), h, e)
  {
    var h, filled' := |table|, Min(filled + 1, |table|);
    var writeRow' := (writeRow + 1) % h;
    WrapIs(writeRow + 1, h);
    var q, q' := ReadRing(table, writeRow, filled), ReadRing(table[writeRow := e], writeRow', filled');
    var dropped := if filled < h then 0 else 1;
    forall i | 0 <= i < filled'
      ensures q'[i] == if i == filled' - 1 then e else q[i + dropped]
    {
      SlotIs(h, writeRow', filled', i);
      if i < filled' - 1 {
        SlotIs(h, writeRow, filled, i + dropped);
      }
    }
  }

  ghost predicate Fits<T>(cells: array<T>, timestamps: array<real>, width: nat, height: nat) {
    cells.Length == width * height && timestamps.Length == height && cells as object != timestamps
  }

  ghost function RowOf<T>(cells: array<T>, width: nat, height: nat, r: nat): (row: seq<T>)
    requires cells.Length == width * height && r < height
    reads cells
    ensures |row| == width
  {
    RowFits(r, width, height);
    cells[r * width..r * width + width]
  }

  /** The flat cells and the timestamps as a table of entries. */
  ghost function TableOf<T>(cells: array<T>, timestamps: array<real>, width: nat, height: nat): (t: seq<Entry<T>>)
    requires Fits(cells, timestamps, width, height)
    reads cells, timestamps
    ensures |t| == height && forall r :: 0 <= r < height ==> t[r] == Entry(RowOf(cells, width, height, r), timestamps[r])
  {
    seq(height, r requires 0 <= r < height && Fits(cells, timestamps, width, height) reads cells, timestamps =>
      Entry(RowOf(cells, width, height, r), timestamps[r]))
  }

  /** The entries that remain after a resize, read in the new ring. */
  lemma RingResize<T>(table: seq<Entry<T>>, writeRow: nat, filled: nat, resized: seq<Entry<T>>)
    requires filled <= |table| && (|table| == 0 || writeRow < |table|)
    requires Copied(table, writeRow, resized, Min(filled, |resized|), Min(filled, |resized|))
    ensures ReadRing(resized, 0, Min(filled, |resized|)) == Newest(ReadRing(table, writeRow, filled), |resized|)
  {
    var m := Min(filled, |resized|);
    forall k | 0 <= k < m
      ensures Slot(|table|, writeRow, m, k) == Slot(|table|, writeRow, filled, filled - m + k)
    {
      SlotIs(|table|, writeRow, m, k);
      SlotIs(|table|, writeRow, filled, filled - m + k);
    }
  }

  /** Copying to a fresh table from its start: no two entries go to the same row. */
  lemma SlotsDiffer(height: nat, m: nat, i: nat)
    requires i < m <= height
    ensures Slot(height, 0, m, i) == height - m + i
    ensures forall k :: 0 <= k < i ==> Slot(height, 0, m, k) != Slot(height, 0, m, i)
  {
    SlotIs(height, 0, m, i);
    forall k | 0 <= k < i
      ensures Slot(height, 0, m, k) != Slot(height, 0, m, i)
    {
      SlotIs(height, 0, m, k);
    }
  }

  /** Copies n magnitudes to the cells from `base` on, and blanks up to the width. */
  method FillCells<T>(cells: array<T>, base: nat, magnitudes: seq<T>, n: nat, width: nat, blank: T)
    requires base + width <= cells.Length && n <= |magnitudes| && n <= width
    modifies cells
    ensures cells[base..base + width] == Padded(magnitudes, n, width, blank)
    ensures cells[..base] == old(cells[..base]) && cells[base + width..] == old(cells[base + width..])
  {
    for i := 0 to n
      invariant cells[base..base + i] == magnitudes[..i]
      invariant cells[..base] == old(cells[..base]) && cells[base + width..] == old(cells[base + width..])
    {
      cells[base + i] := magnitudes[i];
    }
    for i := n to width
      invariant cells[base..base + n] == magnitudes[..n]
      invariant forall k :: base + n <= k < base + i ==> cells[k] == blank
      invariant cells[..base] == old(cells[..base]) && cells[base + width..] == old(cells[base + width..])
    {
      cells[base + i] := blank;
    }
  }

  lemma SliceSame<T>(a: seq<T>, b: seq<T>, base: nat, width: nat, lo: nat)
    requires |a| == |b| && base + width <= |a| && lo + width <= |a|
    requires a[..base] == b[..base] && a[base + width..] == b[base + width..]
    requires lo + width <= base || base + width <= lo
    ensures a[lo..lo + width] == b[lo..lo + width]
  {
    if lo + width <= base {
      assert a[lo..lo + width] == a[..base][lo..lo + width];
      assert b[lo..lo + width] == b[..base][lo..lo + width];
    } else {
      var d := lo - base - width;
      assert a[lo..lo + width] == a[base + width..][d..d + width];
      assert b[lo..lo + width] == b[base + width..][d..d + width];
    }
  }

  /** Overwrites one row of a flat table; the others stay. */
  method CopyRow<T>(cells: array<T>, width: nat, height: nat, r: nat, row: seq<T>, blank: T)
    requires cells.Length == width * height && r < height && |row| == width
    modifies cells
    ensures RowOf(cells, width, height, r) == row
    ensures forall s :: 0 <= s < height && s != r ==> RowOf(cells, width, height, s) == old(RowOf(cells, width, height, s))
  {
    hide Padded;
    ghost var before := cells[..];
    RowFits(r, width, height);
    FillCells(cells, r * width, row, width, width, blank);
    WholeRow(row, width, blank);
    forall s | 0 <= s < height && s != r
      ensures RowOf(cells, width, height, s) == old(RowOf(cells, width, height, s))
    {
      OtherRow(before, cells[..], width, height, r, s);
      assert RowOf(cells, width, height, s) == cells[..][s * width..s * width + width];
      assert old(RowOf(cells, width, height, s)) == before[s * width..s * width + width];
    }
  }

  lemma WholeRow<T>(row: seq<T>, width: nat, blank: T)
    requires |row| == width
    ensures Padded(row, width, width, blank) == row
  {
  }

  /** What is outside row r is the same in every other row. */
  lemma OtherRow<T>(before: seq<T>, after: seq<T>, width: nat, height: nat, r: nat, s: nat)
    requires |before| == |after| == width * height && r < height && s < height && r != s
    requires 0 <= r * width && r * width + width <= width * height
    requires before[..r * width] == after[..r * width] && before[r * width + width..] == after[r * width + width..]
    ensures 0 <= s * width && s * width + width <= width * height
    ensures before[s * width..s * width + width] == after[s * width..s * width + width]
  {
    RowFits(s, width, height);
    if s < r { RowsApart(s, r, width); } else { RowsApart(r, s, width); }
    SliceSame(before, after, r * width, width, s * width);
  }

  /** Replaces one entry of the table by a padded row of magnitudes. */
  method SetEntry<T>(cells: array<T>, timestamps: array<real>, width: nat, height: nat, r: nat, magnitudes: seq<T>,
                     n: nat, timestamp: real, blank: T)
    requires Fits(cells, timestamps, width, height) && r < height && n <= |magnitudes| && n <= width
    modifies cells, timestamps
    ensures TableOf(cells, timestamps, width, height) ==
            old(TableOf(cells, timestamps, width, height))[r := Entry(Padded(magnitudes, n, width, blank), timestamp)]
  {
    hide Padded;
    ghost var before, table := cells[..], TableOf(cells, timestamps, width, height);
    RowFits(r, width, height);
    FillCells(cells, r * width, magnitudes, n, width, blank);
    forall s | 0 <= s < height && s != r
      ensures RowOf(cells, width, height, s) == table[s].row
    {
      OtherRow(before, cells[..], width, height, r, s);
      assert RowOf(cells, width, height, s) == cells[..][s * width..s * width + width];
      assert table[s].row == before[s * width..s * width + width];
    }
    timestamps[r] := timestamp;
    assert RowOf(cells, width, height, r) == Padded(magnitudes, n, width, blank);
  }

  /** Copies one entry of a table to another table. */
  method CopyEntry<T>(cells: array<T>, timestamps: array<real>, height: nat, srcRow: nat, newCells: array<T>,
                      newTimestamps: array<real>, newHeight: nat, dstRow: nat, width: nat)
    requires Fits(cells, timestamps, width, height) && Fits(newCells, newTimestamps, width, newHeight)
    requires srcRow < height && dstRow < newHeight
    requires width > 0 && cells != newCells && timestamps != newTimestamps
    requires cells as object != newTimestamps && timestamps as object != newCells
    modifies newCells, newTimestamps
    ensures TableOf(newCells, newTimestamps, width, newHeight) ==
            old(TableOf(newCells, newTimestamps, width, newHeight))[dstRow := TableOf(cells, timestamps, width, height)[srcRow]]
  {
    RowFits(srcRow, width, height);
    var row := cells[srcRow * width..srcRow * width + width];
    assert Padded(row, width, width, row[0]) == row;
    SetEntry(newCells, newTimestamps, width, newHeight, dstRow, row, width, timestamps[srcRow], row[0]);
  }

  /** The first i of the m newest entries are where a fresh ring has them. */
  ghost predicate Copied<T>(table: seq<Entry<T>>, writeRow: nat, copy: seq<Entry<T>>, m: nat, i: nat)
    requires i <= m && m <= |table| && m <= |copy|
  {
    forall k :: 0 <= k < i ==> copy[Slot(|copy|, 0, m, k)] == table[Slot(|table|, writeRow, m, k)]
  }

  lemma NothingCopied<T>(table: seq<Entry<T>>, writeRow: nat, copy: seq<Entry<T>>, m: nat)
    requires m <= |table| && m <= |copy|
    ensures Copied(table, writeRow, copy, m, 0)
  {
  }

  lemma CopiedStep<T>(table: seq<Entry<T>>, writeRow: nat, copy: seq<Entry<T>>, m: nat, i: nat)
    requires i < m && m <= |table| && m <= |copy| && Copied(table, writeRow, copy, m, i)
    ensures Copied(table, writeRow, copy[Slot(|copy|, 0, m, i) := table[Slot(|table|, writeRow, m, i)]], m, i + 1)
  {
    hide Slot;
    SlotsDiffer(|copy|, m, i);
  }

  /** New buffers of another height that hold the newest entries in order. */
  method CopyNewest<T>(cells: array<T>, timestamps: array<real>, height: nat, writeRow: nat, filled: nat, width: nat,
                       newHeight: nat, blank: T) returns (newCells: array<T>, newTimestamps: array<real>)
    requires Fits(cells, timestamps, width, height) && width > 0
    requires filled <= height && (height == 0 || writeRow < height)
    ensures fresh(newCells) && fresh(newTimestamps) && Fits(newCells, newTimestamps, width, newHeight)
    ensures ReadRing(TableOf(newCells, newTimestamps, width, newHeight), 0, Min(filled, newHeight)) ==
            Newest(ReadRing(TableOf(cells, timestamps, width, height), writeRow, filled), newHeight)
  {
    hide ReadRing, Newest, Slot, TableOf, Copied;
    var rowsToCopy := Min(filled, newHeight);
    newCells := new T[width * newHeight](_ => blank);
    newTimestamps := new real[newHeight](_ => 0.0);
    ghost var table := TableOf(cells, timestamps, width, height);
    NothingCopied(table, writeRow, TableOf(newCells, newTimestamps, width, newHeight), rowsToCopy);
    for i := 0 to rowsToCopy
      modifies newCells, newTimestamps
      invariant Copied(table, writeRow, TableOf(newCells, newTimestamps, width, newHeight), rowsToCopy, i)
    {
      var srcRow := Slot(height, writeRow, rowsToCopy, i);
      var dstRow := Slot(newHeight, 0, rowsToCopy, i);
      CopiedStep(table, writeRow, TableOf(newCells, newTimestamps, width, newHeight), rowsToCopy, i);
      CopyEntry(cells, timestamps, height, srcRow, newCells, newTimestamps, newHeight, dstRow, width);
    }
    RingResize(table, writeRow, filled, TableOf(newCells, newTimestamps, width, newHeight));
  }

  // ---- read-outs ----

  /** Row i of the vertical read-out: the i-th newest entry, or the i-th oldest. */
  function VerticalEntry<T>(q: seq<Entry<T>>, newestLeading: bool, i: nat): Entry<T>
    requires i < |q|
  {
    if newestLeading then q[|q| - 1 - i] else q[i]
  }

  ghost predicate Wide<T>(q: seq<Entry<T>>, width: nat) {
    forall i :: 0 <= i < |q| ==> |q[i].row| == width
  }

  /** One frequency column over time: a row of the horizontal read-out. */
  ghost function Column<T>(q: seq<Entry<T>>, newestLeading: bool, width: nat, freqCol: nat): (column: seq<T>)
    requires Wide(q, width) && freqCol < width
    ensures |column| == |q| && forall c :: 0 <= c < |q| ==> column[c] == VerticalEntry(q, newestLeading, |q| - 1 - c).row[freqCol]
  {
    seq(|q|, c requires 0 <= c < |q| => VerticalEntry(q, newestLeading, |q| - 1 - c).row[freqCol])
  }

  /** The rows of the horizontal read-out: frequency downwards from the highest. */
  ghost function Horizontal<T>(q: seq<Entry<T>>, newestLeading: bool, width: nat): (rows: seq<seq<T>>)
    requires Wide(q, width)
    ensures |rows| == width && forall r :: 0 <= r < width ==> rows[r] == Column(q, newestLeading, width, width - 1 - r)
  {
    seq(width, r requires 0 <= r < width => Column(q, newestLeading, width, width - 1 - r))
  }

  /** The rows of the vertical read-out. */
  ghost function Vertical<T>(q: seq<Entry<T>>, newestLeading: bool): (rows: seq<seq<T>>)
    ensures |rows| == |q| && forall i :: 0 <= i < |q| ==> rows[i] == VerticalEntry(q, newestLeading, i).row
  {
    seq(|q|, i requires 0 <= i < |q| => VerticalEntry(q, newestLeading, i).row)
  }

  /** The horizontal read-out is the vertical one, transposed and turned round both ways, for both
      values of the flag. */
  lemma ReadOutsAgree<T>(q: seq<Entry<T>>, newestLeading: bool, width: nat, r: nat, c: nat)
    requires Wide(q, width) && r < width && c < |q|
    ensures var h, v := Horizontal(q, newestLeading, width), Vertical(q, newestLeading);
      && |h[r]| == |q| && |v[|q| - 1 - c]| == width
      && h[r][c] == v[|q| - 1 - c][width - 1 - r]
  {
    var column := Column(q, newestLeading, width, width - 1 - r);
  }

  /** A flat table of rows. */
  ghost predicate Sized<T>(cells: array<T>, width: nat, height: nat) {
    cells.Length == width * height
  }

  /** The first n rows of a flat table are these rows. */
  ghost predicate RowsAre<T>(cells: array<T>, width: nat, height: nat, rows: seq<seq<T>>, n: nat)
    requires Sized(cells, width, height) && n <= |rows| == height
    reads cells
  {
    forall i :: 0 <= i < n ==> RowOf(cells, width, height, i) == rows[i]
  }

  lemma NoRows<T>(cells: array<T>, width: nat, height: nat, rows: seq<seq<T>>)
    requires cells.Length == width * height && |rows| == height
    ensures Sized(cells, width, height) && RowsAre(cells, width, height, rows, 0)
  {
  }

  /** Writes the next row of a read-out. */
  method AppendRow<T>(cells: array<T>, width: nat, height: nat, n: nat, row: seq<T>, blank: T, ghost rows: seq<seq<T>>)
    requires Sized(cells, width, height) && n < |rows| == height && |row| == width && row == rows[n]
    requires RowsAre(cells, width, height, rows, n)
    modifies cells
    ensures RowsAre(cells, width, height, rows, n + 1)
  {
    CopyRow(cells, width, height, n, row, blank);
  }

  /** The texture coordinates of the newest and the oldest row, at the middle of their texels. */
  function VNewest(height: nat, writeRow: nat): real
    requires height > 0
  {
    (writeRow as real - 0.5) / height as real
  }

  function VOldest(height: nat, writeRow: nat, filled: nat): real
    requires height > 0
  {
    (writeRow as real - filled as real + 0.5) / height as real
  }

  /** The i-th of `filled` evenly spaced coordinates from the top of the plot to the bottom. */
  function VAt(height: nat, writeRow: nat, filled: nat, newestLeading: bool, i: nat): real
    requires height > 0 && i < filled
  {
    var newest, oldest := VNewest(height, writeRow), VOldest(height, writeRow, filled);
    var vTop := if newestLeading then newest else oldest;
    var vBottom := if newestLeading then oldest else newest;
    if filled == 1 then vTop else vTop + (vBottom - vTop) * (i as real / (filled - 1) as real)
  }

  /** The texel row that a coordinate selects when the texture repeats. */
  function Texel(height: nat, v: real): int
    requires height > 0
  {
    ((v - v.Floor as real) * height as real).Floor
  }

  lemma TexelOf(height: nat, k: int, v: real)
    requires height > 0 && 0 <= k + height && k < height && v * height as real == k as real + 0.5
    ensures Texel(height, v) == if k >= 0 then k else k + height
  {
    var whole := if k >= 0 then 0 else -1;
    Between(v, k, whole, height);
    assert v.Floor == whole;
    NextTexel(v, whole as real, height as real);
    assert whole as real * height as real == if k >= 0 then 0.0 else -(height as real);
  }

  lemma NextTexel(v: real, whole: real, h: real)
    ensures (v - whole) * h == v * h - whole * h
  {
  }

  lemma Between(v: real, k: int, whole: int, height: nat)
    requires height > 0 && v * height as real == k as real + 0.5
    requires if whole == 0 then 0 <= k < height else whole == -1 && 0 <= k + height && k < 0
    ensures whole as real < v < whole as real + 1.0
  {
    var h := height as real;
    var lo, hi := whole as real, whole as real + 1.0;
    assert lo * h == if whole == 0 then 0.0 else -h;
    assert hi * h == if whole == 0 then h else 0.0;
    if v <= lo { MulLe(v, lo, h); }
    if hi <= v { MulLe(hi, v, h); }
  }

  lemma MulLe(a: real, b: real, h: real)
    requires a <= b && h > 0.0
    ensures a * h <= b * h
  {
  }

  /** The coordinates step by one row each. */
  lemma VAtStep(height: nat, writeRow: nat, filled: nat, newestLeading: bool, i: nat)
    requires height > 0 && i < filled
    ensures VAt(height, writeRow, filled, newestLeading, i) * height as real
            == (if newestLeading then writeRow - 1 - i else writeRow - filled + i) as real + 0.5
  {
    var h, newest, oldest := height as real, VNewest(height, writeRow), VOldest(height, writeRow, filled);
    var vTop, vBottom := if newestLeading then newest else oldest, if newestLeading then oldest else newest;
    assert newest * h == writeRow as real - 0.5;
    assert oldest * h == writeRow as real - filled as real + 0.5;
    if filled > 1 {
      var n := (filled - 1) as real;
      var t, step := i as real / n, if newestLeading then -n else n;
      assert t * n == i as real;
      EvenStep(vTop, vBottom, h, t, step);
      assert step * t == if newestLeading then -(t * n) else t * n;
    }
  }

  lemma EvenStep(first: real, last: real, h: real, t: real, d: real)
    requires last * h - first * h == d
    ensures (first + (last - first) * t) * h == first * h + d * t
  {
    assert ((last - first) * t) * h == ((last - first) * h) * t;
  }

  /** The texture read-out selects the rows of the vertical read-out, from top to bottom, for both values of the flag. */
  lemma TextureSelects<T>(table: seq<Entry<T>>, writeRow: nat, filled: nat, newestLeading: bool, i: nat)
    requires writeRow < |table| && filled <= |table| && i < filled
    ensures var texel := Texel(|table|, VAt(|table|, writeRow, filled, newestLeading, i));
      0 <= texel < |table| && table[texel].row == Vertical(ReadRing(table, writeRow, filled), newestLeading)[i]
  {
    hide VAt, Texel, Slot;
    var height, k := |table|, if newestLeading then writeRow - 1 - i else writeRow - filled + i;
    VAtStep(height, writeRow, filled, newestLeading, i);
    TexelOf(height, k, VAt(height, writeRow, filled, newestLeading, i));
    SlotIs(height, writeRow, filled, if newestLeading then filled - 1 - i else i);
  }

  // ---- whole runs ----

  datatype Op<T> = Push(magnitudes: seq<T>, time: real) | Resize(newHeight: nat) | ClearAll

  /** What a run of operations leaves: everything pushed since the last clear, how much of it is
      still held, and the capacity. */
  datatype Held<T> = Held(pushed: seq<Entry<T>>, kept: nat, capacity: nat)

  ghost function AfterOp<T>(s: Held<T>, op: Op<T>, width: nat, blank: T): (r: Held<T>)
    requires s.kept <= |s.pushed|
    ensures r.kept <= |r.pushed|
  {
    match op
    case Push(m, time) =>
      Held(s.pushed + [Entry(Padded(m, Min(|m|, width), width, blank), time)], Min(s.kept + 1, s.capacity), s.capacity)
    case Resize(h) => Held(s.pushed, Min(s.kept, h), h)
    case ClearAll => Held([], 0, s.capacity)
  }

  ghost function AfterOps<T>(s: Held<T>, ops: seq<Op<T>>, width: nat, blank: T): (r: Held<T>)
    requires s.kept <= |s.pushed|
    ensures r.kept <= |r.pushed|
  {
    if ops == [] then s else AfterOp(AfterOps(s, ops[..|ops| - 1], width, blank), ops[|ops| - 1], width, blank)
  }

  lemma PushedIsNewest<T>(s: Held<T>, op: Op<T>, width: nat, blank: T)
    requires s.kept <= |s.pushed| && s.kept <= s.capacity && op.Push?
    ensures var s' := AfterOp(s, op, width, blank);
      Newest(s'.pushed, s'.kept) == Pushed(Newest(s.pushed, s.kept), s.capacity, s'.pushed[|s'.pushed| - 1])
    ensures s.capacity == 0 ==> Newest(AfterOp(s, op, width, blank).pushed, 0) == Newest(s.pushed, s.kept)
  {
  }

  lemma NewestOfNewest<T>(q: seq<T>, m: nat, n: nat)
    ensures Newest(Newest(q, m), n) == Newest(q, Min(m, n))
  {
  }

  lemma NothingIsHeld<T>()
    ensures Newest<T>([], 0) == []
  {
  }

  class Ring<T> {
    const blank: T
    var width: nat
    var height: nat
    var writeRow: nat
    var filledRows: nat
    var cells: array<T>  // row after row: colours, or magnitudes if there is no texture
    var timestamps: array<real>

    ghost predicate Valid()
      reads this
    {
      && Fits(cells, timestamps, width, height)
      && filledRows <= height
      && (if height == 0 then writeRow == 0 else writeRow < height)
    }

    ghost function Table(): (t: seq<Entry<T>>)
      requires Valid()
      reads this, cells, timestamps
    {
      TableOf(cells, timestamps, width, height)
    }

    /** The entries from the oldest to the newest. */
    ghost function Rows(): (q: seq<Entry<T>>)
      requires Valid()
      reads this, cells, timestamps
      ensures |q| == filledRows && Wide(q, width)
    {
      ReadRing(Table(), writeRow, filledRows)
    }

    constructor (width: nat, height: nat, blank: T)
      ensures Valid() && this.width == width && this.height == height && this.blank == blank
      ensures Rows() == [] && fresh(cells) && fresh(timestamps)
    {
      this.blank, this.width, this.height := blank, width, height;
      writeRow, filledRows := 0, 0;
      cells := new T[width * height](_ => blank);
      timestamps := new real[height](_ => 0.0);
    }

    method PushRow(magnitudes: seq<T>, count: nat, timestamp: real)
      requires Valid() && count <= |magnitudes|
      modifies this, cells, timestamps
      ensures Valid() && width == old(width) && height == old(height) && cells == old(cells) && timestamps == old(timestamps)
      ensures Rows() == if width == 0 || height == 0 then old(Rows())
                        else Pushed(old(Rows()), height, Entry(Padded(magnitudes, Min(count, width), width, blank), timestamp))
    {
      if width == 0 || height == 0 {
        return;
      }
      var n := Min(count, width);
      hide Slot, ReadRing, Pushed, Padded;
      RingPush(Table(), writeRow, filledRows, Entry(Padded(magnitudes, n, width, blank), timestamp));
      SetEntry(cells, timestamps, width, height, writeRow, magnitudes, n, timestamp, blank);
      ghost var table := Table();
      writeRow := (writeRow + 1) % height;
      if filledRows < height {
        filledRows := filledRows + 1;
      }
      assert Table() == table;
    }

    /** Keeps the newest rows that fit into the new height, in order. */
    method ResizeHistory(newHeight: nat)
      requires Valid()
      modifies this
      ensures Valid() && width == old(width) && (cells == old(cells) || fresh(cells)) && (timestamps == old(timestamps) || fresh(timestamps))
      ensures width > 0 ==> height == newHeight
      ensures width == 0 ==> height == old(height)
      ensures width > 0 ==> Rows() == Newest(old(Rows()), newHeight)
      ensures width == 0 ==> Rows() == old(Rows())
    {
      if newHeight == height || width == 0 {
        return;
      }
      hide ReadRing, Newest, TableOf;
      var newCells, newTimestamps := CopyNewest(cells, timestamps, height, writeRow, filledRows, width, newHeight, blank);
      cells, timestamps := newCells, newTimestamps;
      height, filledRows, writeRow := newHeight, Min(filledRows, newHeight), 0;
    }

    method Clear()
      requires Valid()
      modifies this, cells, timestamps
      ensures Valid() && Rows() == [] && width == old(width) && height == old(height)
      ensures cells == old(cells) && timestamps == old(timestamps)
      ensures forall k :: 0 <= k < cells.Length ==> cells[k] == blank
      ensures forall k :: 0 <= k < timestamps.Length ==> timestamps[k] == 0.0
    {
      for k := 0 to cells.Length
        modifies cells
        invariant forall j :: 0 <= j < k ==> cells[j] == blank
      {
        cells[k] := blank;
      }
      for k := 0 to timestamps.Length
        modifies timestamps
        invariant forall j :: 0 <= j < k ==> timestamps[j] == 0.0
      {
        timestamps[k] := 0.0;
      }
      writeRow, filledRows := 0, 0;
    }

    /** The times of the oldest and the newest row, as a range that is never empty. */
    method RawTimeBounds() returns (low: real, high: real)
      requires Valid()
      ensures filledRows == 0 ==> low == high == 0.0
      ensures filledRows > 0 ==> low < high && low == Rows()[0].time
      ensures filledRows > 0 && Rows()[0].time < Rows()[filledRows - 1].time ==> high == Rows()[filledRows - 1].time
      ensures filledRows > 0 && Rows()[0].time >= Rows()[filledRows - 1].time ==> high == low + filledRows as real
    {
      if filledRows == 0 {
        return 0.0, 0.0;
      }
      low := timestamps[(writeRow + height - filledRows) % height];
      high := timestamps[(writeRow + height - 1) % height];
      if high <= low {
        high := low + filledRows as real;
      }
    }

    /** Both ways of drawing show the same rows: the texture's i-th row is the i-th of the read-out by the processor. */
    lemma TextureAgrees(newestLeading: bool, i: nat)
      requires Valid() && i < filledRows
      ensures var texel := Texel(height, VAt(height, writeRow, filledRows, newestLeading, i));
        0 <= texel < height && Table()[texel].row == Vertical(Rows(), newestLeading)[i]
    {
      TextureSelects(Table(), writeRow, filledRows, newestLeading, i);
    }

    /** The cells of one ring row. */
    method ReadRow(srcRow: nat) returns (row: seq<T>)
      requires Valid() && srcRow < height
      ensures row == Table()[srcRow].row && |row| == width
    {
      RowFits(srcRow, width, height);
      row := cells[srcRow * width..srcRow * width + width];
    }

    /** The i-th row of the vertical read-out. */
    method ReadVertical(i: nat, newestLeading: bool) returns (row: seq<T>)
      requires Valid() && i < filledRows
      ensures row == VerticalEntry(Rows(), newestLeading, i).row && |row| == width
    {
      hide TableOf, RowOf, Fits;
      var srcRow := if newestLeading then (writeRow + height - 1 - i) % height else (writeRow + height - filledRows + i) % height;
      assert srcRow == Slot(height, writeRow, filledRows, if newestLeading then filledRows - 1 - i else i);
      row := ReadRow(srcRow);
    }

    /** renderCpu: the rows, the newest or the oldest first. */
    method RenderCpu(newestLeading: bool) returns (linearized: array<T>)
      requires Valid()
      ensures fresh(linearized) && Sized(linearized, width, filledRows)
      ensures RowsAre(linearized, width, filledRows, Vertical(Rows(), newestLeading), filledRows)
    {
      hide TableOf, RowOf, VerticalEntry, Vertical, RowsAre, Sized, Fits, Table, Rows;
      linearized := new T[width * filledRows](_ => blank);
      ghost var rows := Vertical(Rows(), newestLeading);
      NoRows(linearized, width, filledRows, rows);
      for i := 0 to filledRows
        modifies linearized
        invariant unchanged(this, cells, timestamps)
        invariant RowsAre(linearized, width, filledRows, rows, i)
      {
        var row := ReadVertical(i, newestLeading);
        AppendRow(linearized, width, filledRows, i, row, blank, rows);
      }
    }

    /** One row of the horizontal read-out: one frequency, from left to right. */
    method ReadColumn(freqCol: nat, newestLeading: bool) returns (column: seq<T>)
      requires Valid() && freqCol < width
      ensures column == Column(Rows(), newestLeading, width, freqCol)
    {
      hide TableOf, RowOf, Fits, Column;
      column := [];
      for c := 0 to filledRows
        invariant |column| == c
        invariant forall k :: 0 <= k < c ==> column[k] == VerticalEntry(Rows(), newestLeading, filledRows - 1 - k).row[freqCol]
      {
        var order := if newestLeading then c else filledRows - 1 - c;
        var srcRow := (writeRow + height - filledRows + order) % height;
        assert srcRow == Slot(height, writeRow, filledRows, order);
        var row := ReadRow(srcRow);
        column := column + [row[freqCol]];
      }
    }

    /** renderCpuHorizontal: frequency downwards from the highest, time from left to right. */
    method RenderCpuHorizontal(newestLeading: bool) returns (linearized: array<T>)
      requires Valid()
      ensures fresh(linearized) && Sized(linearized, filledRows, width)
      ensures RowsAre(linearized, filledRows, width, Horizontal(Rows(), newestLeading, width), width)
    {
      hide TableOf, RowOf, Column, Horizontal, RowsAre, Sized, Fits, Table, Rows;
      linearized := new T[filledRows * width](_ => blank);
      ghost var rows := Horizontal(Rows(), newestLeading, width);
      NoRows(linearized, filledRows, width, rows);
      for r := 0 to width
        modifies linearized
        invariant unchanged(this, cells, timestamps)
        invariant RowsAre(linearized, filledRows, width, rows, r)
      {
        var column := ReadColumn(width - 1 - r, newestLeading);
        AppendRow(linearized, filledRows, width, r, column, blank, rows);
      }
    }

    /** Over any run the ring holds exactly the newest entries that no push and no shrink dropped. */
    method Run(ops: seq<Op<T>>) returns (ghost held: Held<T>)
      requires Valid() && width > 0 && Rows() == []
      modifies this, cells, timestamps
      ensures Valid() && held == AfterOps(Held([], 0, old(height)), ops, width, blank) && width == old(width)
      ensures Rows() == Newest(held.pushed, held.kept) && height == held.capacity
    {
      hide Slot, ReadRing, TableOf, Padded, Fits, Newest, Pushed;
      ghost var start := Held([], 0, height);
      NothingIsHeld<Entry<T>>();
      held := start;
      for i := 0 to |ops|
        invariant Valid() && width == old(width)
        invariant cells == old(cells) || fresh(cells)
        invariant timestamps == old(timestamps) || fresh(timestamps)
        invariant held == AfterOps(start, ops[..i], width, blank) && held.kept <= held.capacity == height
        invariant Rows() == Newest(held.pushed, held.kept)
      {
        assert ops[..i + 1][..i] == ops[..i];
        ghost var next := AfterOp(held, ops[i], width, blank);
        match ops[i] {
          case Push(m, time) =>
            PushRow(m, |m|, time);
            PushedIsNewest(held, ops[i], width, blank);
          case Resize(h) =>
            ResizeHistory(h);
            NewestOfNewest(held.pushed, held.kept, h);
          case ClearAll =>
            Clear();
            NothingIsHeld<Entry<T>>();
        }
        held := next;
      }
      assert ops[..|ops|] == ops;
    }
  }
}
