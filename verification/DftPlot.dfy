/** The reordering of the bins and the columns of the text plot. */
module DftPlot {

  /** `iround`: half away from zero, by truncation. */
  function IRound(x: real): int {
    if x > 0.0 then (x + 0.5).Floor else -(-(x - 0.5)).Floor
  }

  /** The bins that are plotted: an even count loses its last bin. */
  function NumBins(size: nat): (n: nat)
    requires size > 0
    ensures n == if size % 2 == 1 then size else size - 1
    ensures 0 < n <= size
  {
    size - 1 + size % 2
  }

  function Scale(b: real, s: real, d: real): real
    requires d > 0.0
  {
    b * s / d
  }

  /** The right end of column `b`, before clamping. */
  function Edge(b: real, bins: nat, width: nat): real
    requires width > 1
  {
    Scale(b, bins as real - 1.0, width as real - 1.0)
  }

  function ColumnStart(b: nat, bins: nat, width: nat): nat
    requires width > 1
  {
    var r := IRound(Edge(b as real - 0.5, bins, width));
    if r < 0 then 0 else r
  }

  function ColumnStop(b: nat, bins: nat, width: nat): int
    requires width > 1
  {
    var r := IRound(Edge(b as real + 0.5, bins, width));
    if bins < r then bins else r
  }

  function Max(a: real, b: real): real {
    if a < b then b else a
  }

  /** The largest element. */
  function Maximum(s: seq<real>): (m: real)
    requires s != []
    ensures m in s && forall x :: x in s ==> x <= m
  {
    if |s| == 1 then s[0]
    else
      var rest := Maximum(s[..|s| - 1]);
      assert forall x :: x in s <==> x in s[..|s| - 1] || x == s[|s| - 1];
      Max(rest, s[|s| - 1])
  }

  /** The bins column `b` is the maximum of: its range, and always its first bin. */
  function ColumnBins(dft: seq<real>, b: nat, width: nat): (s: seq<real>)
    requires dft != [] && b < width && width > 1
    ensures s != []
  {
    ColumnInRange(b, |dft|, width);
    var start, stop := ColumnStart(b, |dft|, width), ColumnStop(b, |dft|, width);
    [dft[start]] + dft[start..stop]
  }

  // ------------------------------------------------------------------
  // Rounding
  // ------------------------------------------------------------------

  lemma RoundMonotone(x: real, y: real)
    requires x <= y
    ensures IRound(x) <= IRound(y)
  {}

  lemma RoundWithin(x: real, k: int)
    requires k as real - 0.5 < x < k as real + 0.5
    ensures IRound(x) == k
  {}

  lemma RoundAtLeast(x: real, k: nat)
    requires k > 0 && k as real - 0.5 <= x
    ensures IRound(x) >= k
  {}

  lemma ScaleMonotone(a: real, b: real, s: real, d: real)
    requires a <= b && s >= 0.0 && d > 0.0
    ensures Scale(a, s, d) <= Scale(b, s, d)
  {
    assert a * s <= b * s;
  }

  lemma EdgeMonotone(a: real, b: real, bins: nat, width: nat)
    requires a <= b && bins > 0 && width > 1
    ensures Edge(a, bins, width) <= Edge(b, bins, width)
    ensures IRound(Edge(a, bins, width)) <= IRound(Edge(b, bins, width))
  {
    assert bins as real >= 1.0 && width as real >= 2.0;
    ScaleMonotone(a, b, bins as real - 1.0, width as real - 1.0);
    RoundMonotone(Edge(a, bins, width), Edge(b, bins, width));
  }

  lemma DivideProduct(q: real, d: real)
    requires d > 0.0
    ensures q * d / d == q
  {}

  /** Half a column past and before the full width. */
  lemma HalfPast(s: real, d: real)
    requires d > 0.0
    ensures Scale(d + 0.5, s, d) == s + Scale(0.5, s, d)
    ensures Scale(d - 0.5, s, d) == s - Scale(0.5, s, d)
    ensures Scale(0.0, s, d) == 0.0
    ensures Scale(0.5, s, d) >= 0.5 <==> s >= d
    ensures s >= 0.0 ==> Scale(0.5, s, d) >= 0.0
  {
    var half := 0.5 * s / d;
    assert half * d == 0.5 * s;
    assert (d + 0.5) * s == (s + half) * d;
    assert (d - 0.5) * s == (s - half) * d;
    DivideProduct(s + half, d);
    DivideProduct(s - half, d);
  }

  /** Where the last column begins and ends, before rounding. */
  lemma LastEdge(bins: nat, width: nat)
    requires bins > 0 && width > 1
    ensures var half := Edge(0.5, bins, width);
            && Edge(width as real - 0.5, bins, width) == bins as real - 1.0 + half
            && Edge(width as real - 1.5, bins, width) == bins as real - 1.0 - half
            && (half >= 0.5 <==> bins >= width) && half >= 0.0
  {
    var s, d := bins as real - 1.0, width as real - 1.0;
    assert s >= 0.0 && d >= 1.0;
    assert width as real - 0.5 == d + 0.5 && width as real - 1.5 == d - 0.5;
    HalfPast(s, d);
  }

  lemma FirstEdge(bins: nat, width: nat)
    requires bins > 0 && width > 1
    ensures Edge(0.0, bins, width) == 0.0 && IRound(0.0) == 0
  {
    assert width as real >= 2.0;
    HalfPast(bins as real - 1.0, width as real - 1.0);
  }

  // ------------------------------------------------------------------
  // Columns
  // ------------------------------------------------------------------

  lemma RoundInt(k: nat)
    ensures IRound(k as real) == k
  {}

  /** A column reads only bins that exist, for every plot at least two wide. */
  lemma ColumnInRange(b: nat, bins: nat, width: nat)
    requires bins > 0 && b < width && width > 1
    ensures ColumnStart(b, bins, width) < bins
    ensures ColumnStart(b, bins, width) <= ColumnStop(b, bins, width) <= bins
  {
    var lo, hi := IRound(Edge(b as real - 0.5, bins, width)), IRound(Edge(b as real + 0.5, bins, width));
    assert lo <= hi by {
      EdgeMonotone(b as real - 0.5, b as real + 0.5, bins, width);
    }
    assert hi >= 0 by {
      EdgeMonotone(0.0, b as real + 0.5, bins, width);
      FirstEdge(bins, width);
    }
    assert lo <= bins - 1 by {
      EdgeMonotone(b as real - 0.5, width as real - 1.5, bins, width);
      LastEdge(bins, width);
      RoundMonotone(Edge(width as real - 1.5, bins, width), (bins - 1) as real);
      RoundInt(bins - 1);
    }
  }

  /** The columns follow each other without gap or overlap, from the first bin. */
  lemma ColumnsMeet(b: nat, bins: nat, width: nat)
    requires bins > 0 && width > 1
    ensures ColumnStart(0, bins, width) == 0
    ensures b + 1 < width ==> ColumnStop(b, bins, width) == ColumnStart(b + 1, bins, width)
  {
    FirstEdge(bins, width);
    EdgeMonotone(-0.5, 0.0, bins, width);
    if b + 1 < width {
      ColumnInRange(b + 1, bins, width);
      EdgeMonotone(0.0, b as real + 0.5, bins, width);
      assert (b + 1) as real - 0.5 == b as real + 0.5;
    }
  }

  /** The ranges reach the last bin exactly when there are at least as many bins
      as columns. With fewer, the last range stops one short, and the last bin
      is what the last column starts from. */
  lemma RangesReachEnd(bins: nat, width: nat)
    requires bins > 0 && width > 1
    ensures ColumnStop(width - 1, bins, width) == bins <==> bins >= width
    ensures bins < width ==>
      && ColumnStop(width - 1, bins, width) == bins - 1
      && ColumnStart(width - 1, bins, width) == bins - 1
  {
    LastEdge(bins, width);
    assert (width - 1) as real + 0.5 == width as real - 0.5;
    assert (width - 1) as real - 0.5 == width as real - 1.5;
    if bins >= width {
      RoundAtLeast(Edge(width as real - 0.5, bins, width), bins);
    } else {
      RoundWithin(Edge(width as real - 0.5, bins, width), bins - 1);
      RoundWithin(Edge(width as real - 1.5, bins, width), bins - 1);
    }
  }

  /** The column whose range holds bin `n`, searching from column `b`. */
  lemma ColumnHolding(n: nat, b: nat, bins: nat, width: nat) returns (c: nat)
    requires n < bins && b < width && width > 1
    requires ColumnStart(b, bins, width) <= n
    ensures c < width
    ensures ColumnStart(c, bins, width) <= n < ColumnStop(c, bins, width) || ColumnStart(c, bins, width) == n
    decreases width - b
  {
    if n < ColumnStop(b, bins, width) {
      c := b;
    } else if b + 1 < width {
      ColumnsMeet(b, bins, width);
      c := ColumnHolding(n, b + 1, bins, width);
    } else {
      RangesReachEnd(bins, width);
      c := b;
    }
  }

  /** No bin is lost and none is counted twice when there is one per column. */
  lemma ColumnsPartition(n: nat, bins: nat, width: nat)
    requires n < bins && width > 1 && bins >= width
    ensures exists c :: 0 <= c < width && ColumnStart(c, bins, width) <= n < ColumnStop(c, bins, width)
    ensures forall c, d ::
      0 <= c < d < width ==> ColumnStop(c, bins, width) <= ColumnStart(d, bins, width)
  {
    ColumnsMeet(0, bins, width);
    RangesReachEnd(bins, width);
    var c := HoldingColumn(n, 0, bins, width);
    assert ColumnStart(c, bins, width) <= n < ColumnStop(c, bins, width);
    forall c, d | 0 <= c < d < width ensures ColumnStop(c, bins, width) <= ColumnStart(d, bins, width) {
      ColumnsOrdered(c, d, bins, width);
    }
  }

  lemma HoldingColumn(n: nat, b: nat, bins: nat, width: nat) returns (c: nat)
    requires n < bins && b < width && width > 1 && bins >= width
    requires ColumnStart(b, bins, width) <= n
    ensures c < width && ColumnStart(c, bins, width) <= n < ColumnStop(c, bins, width)
    decreases width - b
  {
    RangesReachEnd(bins, width);
    if n < ColumnStop(b, bins, width) {
      c := b;
    } else {
      ColumnsMeet(b, bins, width);
      c := HoldingColumn(n, b + 1, bins, width);
    }
  }

  lemma ColumnsOrdered(c: nat, d: nat, bins: nat, width: nat)
    requires c < d < width && bins > 0 && width > 1
    ensures ColumnStop(c, bins, width) <= ColumnStart(d, bins, width)
  {
    ColumnsMeet(c, bins, width);
    EdgeMonotone((c + 1) as real - 0.5, d as real - 0.5, bins, width);
  }

  function ColumnValue(dft: seq<real>, b: nat, width: nat): real
    requires dft != [] && b < width && width > 1
  {
    Maximum(ColumnBins(dft, b, width))
  }

  /** What each column shows. */
  function ColumnValues(dft: seq<real>, width: nat): seq<real>
    requires dft != [] && width > 1
  {
    seq(width, b requires 0 <= b < width => ColumnValue(dft, b, width))
  }

  /** Which bins are in the range of a column: bin `n` lies from half a column left of
      column `b` to half a column right of it, with bins and columns counted from
      zero and both scales ending at their last. */
  lemma ColumnHolds(n: nat, b: nat, bins: nat, width: nat)
    requires bins > 0 && b < width && width > 1
    ensures ColumnStart(b, bins, width) <= n <==>
              (b as real - 0.5) * (bins as real - 1.0) / (width as real - 1.0) < n as real + 0.5
    ensures n < ColumnStop(b, bins, width) <==>
              n < bins && n as real + 0.5 <= (b as real + 0.5) * (bins as real - 1.0) / (width as real - 1.0)
  {
    RoundAtMostIff((b as real - 0.5) * (bins as real - 1.0) / (width as real - 1.0), n);
    RoundAtMostIff((b as real + 0.5) * (bins as real - 1.0) / (width as real - 1.0), n);
  }

  lemma RoundAtMostIff(x: real, n: nat)
    ensures IRound(x) <= n <==> x < n as real + 0.5
  {}

  /** No bin of a column's range is above what the column shows, and that is one of
      them, or the first bin where the range is empty. */
  lemma ColumnShows(dft: seq<real>, b: nat, width: nat)
    requires dft != [] && b < width && width > 1
    ensures var start, stop := ColumnStart(b, |dft|, width), ColumnStop(b, |dft|, width);
            && start < |dft| && stop <= |dft|
            && (forall n :: start <= n < stop ==> dft[n] <= ColumnValues(dft, width)[b])
            && (exists n :: start <= n < (if start < stop then stop else start + 1)
                            && dft[n] == ColumnValues(dft, width)[b])
  {
    ColumnInRange(b, |dft|, width);
    var start, stop := ColumnStart(b, |dft|, width), ColumnStop(b, |dft|, width);
    var bins := ColumnBins(dft, b, width);
    forall n | start <= n < stop ensures dft[n] <= ColumnValues(dft, width)[b] {
      assert bins[n - start + 1] == dft[n];
      assert dft[n] in bins;
    }
    var k :| 0 <= k < |bins| && bins[k] == Maximum(bins);
    var n := if k == 0 then start else start + k - 1;
    assert dft[n] == ColumnValues(dft, width)[b];
  }

  /** However many columns there are, the highest column is the highest bin. */
  lemma PeakIsShown(dft: seq<real>, width: nat)
    requires dft != [] && width > 1
    ensures Maximum(ColumnValues(dft, width)) == Maximum(dft)
  {
    var cols, bins := ColumnValues(dft, width), |dft|;
    var peak := Maximum(dft);
    var n :| 0 <= n < bins && dft[n] == peak;
    ColumnsMeet(0, bins, width);
    var c := ColumnHolding(n, 0, bins, width);
    ColumnInRange(c, bins, width);
    var start, stop := ColumnStart(c, bins, width), ColumnStop(c, bins, width);
    assert peak in ColumnBins(dft, c, width) by {
      if start <= n < stop { assert dft[start..stop][n - start] == peak; }
    }
    assert cols[c] == ColumnValue(dft, c, width) >= peak;
    assert cols[c] in cols;
    var top := Maximum(cols);
    var b :| 0 <= b < width && cols[b] == top;
    ColumnInRange(b, bins, width);
    assert top in ColumnBins(dft, b, width);
    assert top in dft;
  }

  // ------------------------------------------------------------------
  // The loops
  // ------------------------------------------------------------------

  lemma WrapOnce(x: nat, n: nat)
    requires n > 0 && x < 2 * n
    ensures x % n == if x < n then x else x - n
  {
    if x >= n {
      assert x == n * 1 + (x - n);
    }
  }

  /** The first `n` bins, the later half first. */
  function Rotated(bins: seq<real>, n: nat): (r: seq<real>)
    requires n <= |bins|
    ensures |r| == n
  {
    bins[n / 2..n] + bins[..n / 2]
  }

  /** The bins in the order of the plot. */
  function Plotted(bins: seq<real>): (r: seq<real>)
    requires bins != []
    ensures r != []
  {
    Rotated(bins, NumBins(|bins|))
  }

  /** The bin that goes to each place. */
  method Reorder(bins: seq<real>) returns (dft: seq<real>)
    requires bins != []
    ensures dft == Plotted(bins)
  {
    var n := NumBins(|bins|);
    var all := Rotated(bins, n);
    dft := [];
    var i := 0;
    while i < n
      invariant 0 <= i <= n
      invariant dft == all[..i]
    {
      WrapOnce(i + n / 2, n);
      assert bins[(i + n / 2) % n] == all[i];
      dft := dft + [bins[(i + n / 2) % n]];
      i := i + 1;
    }
  }

  /** The rotation loses no bin, and it puts the first bin, which is the one at
      zero frequency, one place right of the middle: it is in the middle only
      when there is a single bin. */
  lemma ReorderKeepsBins(bins: seq<real>)
    requires bins != []
    ensures var n := NumBins(|bins|);
            && |Rotated(bins, n)| == n && n % 2 == 1
            && multiset(Rotated(bins, n)) == multiset(bins[..n])
            && Rotated(bins, n)[(n / 2 + 1) % n] == bins[0]
            && ((n / 2 + 1) % n == n / 2 <==> n == 1)
  {
    var n := NumBins(|bins|);
    assert bins[..n] == bins[..n / 2] + bins[n / 2..n];
    WrapOnce(n / 2 + 1, n);
  }

  /** The bin at each place. The place right of the middle has bin zero, and the place
      `k` to the right or left of that has the bin `k` above or below it, where bins
      below zero are counted from the end. */
  lemma BinAtPlace(bins: seq<real>, place: nat)
    requires bins != [] && place < |Plotted(bins)|
    ensures var n := if |bins| % 2 == 1 then |bins| else |bins| - 1;
            |Plotted(bins)| == n && Plotted(bins)[place] == bins[(place - (n / 2 + 1)) % n]
  {
    var n := NumBins(|bins|);
    WrapAround(place - (n / 2 + 1), n);
  }

  lemma WrapAround(d: int, n: nat)
    requires 0 <= d + n && d < n
    ensures d % n == if d < 0 then d + n else d
  {
    var q, r := if d < 0 then -1 else 0, if d < 0 then d + n else d;
    assert d == n * q + r;
  }

  /** An even count loses its last bin, which is the one next to DC, so the plot
      shows the highest of all bins exactly when the count is odd or another bin
      is as high as the last. */
  lemma PeakOfAllIsShownIff(bins: seq<real>, width: nat)
    requires bins != [] && width > 1
    ensures var n := |bins| - 1;
            Maximum(ColumnValues(Plotted(bins), width)) == Maximum(bins) <==>
              |bins| % 2 == 1 || exists k :: 0 <= k < n && bins[k] >= bins[n]
  {
    var n := NumBins(|bins|);
    PeakIsShown(Plotted(bins), width);
    RotatedMaximum(bins, n);
    KeptMaximum(bins, n);
  }

  lemma KeptMaximum(bins: seq<real>, n: nat)
    requires 0 < n <= |bins| <= n + 1
    ensures Maximum(bins[..n]) == Maximum(bins) <==> n == |bins| || exists k :: 0 <= k < n && bins[k] >= bins[n]
  {
    var kept := bins[..n];
    if n == |bins| {
      assert kept == bins;
    } else {
      assert bins == kept + [bins[n]];
      MaximumSnoc(kept, bins[n]);
      MaximumReaches(kept, bins[n]);
      assert forall k :: 0 <= k < n ==> kept[k] == bins[k];
    }
  }

  lemma RotatedMaximum(bins: seq<real>, n: nat)
    requires 0 < n <= |bins|
    ensures Maximum(Rotated(bins, n)) == Maximum(bins[..n])
  {
    var rotated, kept := Rotated(bins, n), bins[..n];
    assert kept == bins[..n / 2] + bins[n / 2..n];
    assert forall x :: x in rotated <==> x in kept;
    assert Maximum(rotated) in kept && Maximum(kept) in rotated;
  }

  lemma MaximumReaches(s: seq<real>, x: real)
    requires s != []
    ensures Maximum(s) >= x <==> exists k :: 0 <= k < |s| && s[k] >= x
  {
    var k :| 0 <= k < |s| && s[k] == Maximum(s);
    assert forall j :: 0 <= j < |s| ==> s[j] in s;
  }

  /** Four bins of which the last is the peak. */
  lemma PeakLostExample(width: nat)
    requires width > 1
    ensures var bins := [0.0, 0.0, 0.0, 9.0];
            Maximum(ColumnValues(Plotted(bins), width)) == 0.0 && Maximum(bins) == 9.0
  {
    FourBins();
    PeakIsShown(Plotted([0.0, 0.0, 0.0, 9.0]), width);
  }

  lemma FourBins()
    ensures var bins := [0.0, 0.0, 0.0, 9.0];
            Maximum(Plotted(bins)) == 0.0 && Maximum(bins) == 9.0
  {
    var bins := [0.0, 0.0, 0.0, 9.0];
    assert bins[3] in bins;
    assert forall x :: x in Plotted(bins) ==> x == 0.0;
  }

  lemma MaximumSnoc(s: seq<real>, x: real)
    requires s != []
    ensures Maximum(s + [x]) == Max(Maximum(s), x)
  {
    assert (s + [x])[..|s|] == s;
  }

  /** The inner loop: the largest of a column's bins. */
  method RangeMax(dft: seq<real>, start: nat, stop: nat) returns (val: real)
    requires start < |dft| && start <= stop <= |dft|
    ensures val == Maximum([dft[start]] + dft[start..stop])
  {
    val := dft[start];
    var n := start;
    while n < stop
      invariant start <= n <= stop
      invariant val == Maximum([dft[start]] + dft[start..n])
    {
      MaximumSnoc([dft[start]] + dft[start..n], dft[n]);
      assert [dft[start]] + dft[start..n + 1] == [dft[start]] + dft[start..n] + [dft[n]];
      val := Max(val, dft[n]);
      n := n + 1;
    }
  }

  method ColumnMax(dft: seq<real>, b: nat, width: nat) returns (val: real)
    requires dft != [] && b < width && width > 1
    ensures val == ColumnValue(dft, b, width)
  {
    ColumnInRange(b, |dft|, width);
    val := RangeMax(dft, ColumnStart(b, |dft|, width), ColumnStop(b, |dft|, width));
  }

  /** The reorder loop and the column loop of `dft_to_plot`. */
  method PlotColumns(bins: seq<real>, width: nat) returns (cols: seq<real>)
    requires bins != [] && width > 1
    ensures cols == ColumnValues(Plotted(bins), width)
  {
    var dft := Reorder(bins);
    cols := [];
    var b := 0;
    while b < width
      invariant 0 <= b <= width && |cols| == b
      invariant forall c :: 0 <= c < b ==> cols[c] == ColumnValue(dft, c, width)
    {
      var val := ColumnMax(dft, b, width);
      cols := cols + [val];
      b := b + 1;
    }
  }
}
