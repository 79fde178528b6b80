/** The integer and index logic of the Visualizer: the moving average the
    bars and rings are drawn from (smoothFrequencyData), the split of the
    spectrum into bass, mid and treble thirds that animate() computes its
    targets from, and the maps from a bar or ring point to the frequency bin
    it shows. Canvas drawing, lerp smoothing and particle motion are not
    part of this model. */
module Visualizer {

  /** One entry of a Uint8Array: the analyser's frequency magnitudes. */
  type uint8 = x: int | 0 <= x < 256

  // ---------------------------------------------------------------------
  // Sums
  // ---------------------------------------------------------------------

  /** `reduce((a, b) => a + b, 0)` over a byte sequence. */
  function Sum(s: seq<uint8>): (r: nat)
    ensures r <= 255 * |s|
  {
    if s == [] then 0 else Sum(s[..|s| - 1]) + s[|s| - 1]
  }

  lemma {:induction false} SumConcat(a: seq<uint8>, b: seq<uint8>)
    ensures Sum(a + b) == Sum(a) + Sum(b)
    decreases |b|
  {
    if b == [] {
      assert a + b == a;
    } else {
      assert (a + b)[..|a + b| - 1] == a + b[..|b| - 1];
      SumConcat(a, b[..|b| - 1]);
    }
  }

  /** Bounds on every element bound the sum. */
  lemma {:induction false} SumBounds(s: seq<uint8>, lo: int, hi: int)
    requires forall k :: 0 <= k < |s| ==> lo <= s[k] <= hi
    ensures lo * |s| <= Sum(s) <= hi * |s|
  {
    if s != [] {
      SumBounds(s[..|s| - 1], lo, hi);
      assert lo * |s| == lo * (|s| - 1) + lo;
      assert hi * |s| == hi * (|s| - 1) + hi;
    }
  }

  lemma MulMono(a: int, b: int, d: int)
    requires d >= 0
    ensures a <= b ==> a * d <= b * d
  {
    if a <= b {
      assert b * d - a * d == (b - a) * d;
    }
  }

  lemma DivFloor(x: int, d: int)
    requires d > 0
    ensures (x / d) * d <= x < (x / d) * d + d
  {
    assert x == (x / d) * d + x % d;
  }

  /** Bounds lo * d <= x < (hi + 1) * d keep x / d between lo and hi. */
  lemma DivBetween(x: int, d: int, lo: int, hi: int)
    requires d > 0 && lo * d <= x < hi * d + d
    ensures lo <= x / d <= hi
  {
    var q := x / d;
    DivFloor(x, d);
    MulMono(hi + 1, q, d);
    MulMono(q + 1, lo, d);
    assert (hi + 1) * d == hi * d + d;
    assert (q + 1) * d == q * d + d;
  }

  // ---------------------------------------------------------------------
  // smoothFrequencyData
  // ---------------------------------------------------------------------

  /** The window around bin i is clipped to the array: it runs from
      WindowStart to WindowEnd, exclusive. */
  function WindowStart(i: int, w: nat): int {
    if i - w < 0 then 0 else i - w
  }

  function WindowEnd(i: int, w: nat, len: nat): int {
    if i + w + 1 < len then i + w + 1 else len
  }

  /** The window of bin i holds bin i itself and at most w neighbours on
      either side. */
  lemma WindowHoldsBin(i: nat, w: nat, len: nat)
    requires i < len
    ensures 0 <= WindowStart(i, w) <= i < WindowEnd(i, w, len) <= len
    ensures 1 <= WindowEnd(i, w, len) - WindowStart(i, w) <= 2 * w + 1
  {
  }

  /** The value stored for bin i: the window's sum divided by the number of
      bins in it, truncated as a Uint8Array store truncates. */
  function WindowMean(data: seq<uint8>, i: nat, w: nat): (r: uint8)
    requires i < |data|
    ensures var lo, hi := WindowStart(i, w), WindowEnd(i, w, |data|);
      0 <= lo < hi && r as int * (hi - lo) <= Sum(data[lo..hi]) < (r as int + 1) * (hi - lo)
  {
    WindowHoldsBin(i, w, |data|);
    var lo := WindowStart(i, w);
    var hi := WindowEnd(i, w, |data|);
    var total, n := Sum(data[lo..hi]), hi - lo;
    DivBetween(total, n, 0, 255);
    DivFloor(total, n);
    total / n
  }

  /** The array smoothFrequencyData returns, as a value. */
  function Smoothed(data: seq<uint8>, w: nat): (r: seq<uint8>)
    ensures |r| == |data|
  {
    seq(|data|, i requires 0 <= i < |data| => WindowMean(data, i, w))
  }

  /** How far the inner loop has summed after visiting offsets below j:
      the part of the window that lies at indices below i + j. */
  function Reach(i: int, j: int, lo: int, len: nat): int {
    var e := if i + j < len then i + j else len;
    if e < lo then lo else e
  }

  /** The inner loop of smoothFrequencyData for bin i: visits the offsets
      -windowSize..windowSize, adding up and counting the bins that exist. */
  method SumWindow(data: array<uint8>, i: nat, windowSize: nat) returns (sum: nat, count: nat)
    requires i < data.Length
    ensures count == WindowEnd(i, windowSize, data.Length) - WindowStart(i, windowSize)
    ensures sum == Sum(data[WindowStart(i, windowSize)..WindowEnd(i, windowSize, data.Length)])
  {
    ghost var lo := WindowStart(i, windowSize);
    sum, count := 0, 0;
    var j: int := -(windowSize as int);
    while j <= windowSize
      invariant -(windowSize as int) <= j <= windowSize + 1
      invariant lo <= Reach(i, j, lo, data.Length) <= data.Length
      invariant sum == Sum(data[lo..Reach(i, j, lo, data.Length)])
      invariant count == Reach(i, j, lo, data.Length) - lo
    {
      var idx := i + j;
      if 0 <= idx < data.Length {
        assert data[lo..idx + 1][..idx - lo] == data[lo..idx];
        sum := sum + data[idx];
        count := count + 1;
      }
      j := j + 1;
    }
    assert Reach(i, j, lo, data.Length) == WindowEnd(i, windowSize, data.Length);
  }

  /** What the loop stores for bin i is entry i of the smoothed spectrum. */
  lemma StoredMean(data: seq<uint8>, i: nat, w: nat, sum: nat, count: nat)
    requires i < |data|
    requires count == WindowEnd(i, w, |data|) - WindowStart(i, w)
    requires sum == Sum(data[WindowStart(i, w)..WindowEnd(i, w, |data|)])
    ensures sum / count == Smoothed(data, w)[i]
  {
  }

  /** Fills a fresh array with the clipped moving average of radius
      windowSize: entry i is the mean of the bins within windowSize of i,
      truncated to an integer. */
  method SmoothFrequencyData(data: array<uint8>, windowSize: nat) returns (smoothed: array<uint8>)
    ensures fresh(smoothed)
    ensures smoothed[..] == Smoothed(data[..], windowSize)
  {
    smoothed := new uint8[data.Length];
    ghost var want := Smoothed(data[..], windowSize);
    var i := 0;
    while i < data.Length
      invariant 0 <= i <= data.Length
      invariant smoothed[..i] == want[..i]
    {
      var sum, count := SumWindow(data, i, windowSize);
      StoredMean(data[..], i, windowSize, sum, count);
      smoothed[i] := sum / count;
      assert smoothed[..i + 1] == smoothed[..i] + [want[i]];
      i := i + 1;
    }
    assert smoothed[..] == smoothed[..i];
  }

  /** Each smoothed value lies within any bounds the bins of its window
      respect: between the window's smallest and largest magnitude. */
  lemma SmoothedWithinWindow(data: seq<uint8>, w: nat, i: nat, lo: int, hi: int)
    requires i < |data|
    requires forall k :: WindowStart(i, w) <= k < WindowEnd(i, w, |data|) ==> lo <= data[k] <= hi
    ensures lo <= Smoothed(data, w)[i] <= hi
  {
    WindowHoldsBin(i, w, |data|);
    var a := WindowStart(i, w);
    var b := WindowEnd(i, w, |data|);
    var win := data[a..b];
    assert forall k :: 0 <= k < |win| ==> win[k] == data[a + k];
    SumBounds(win, lo, hi);
    DivBetween(Sum(win), |win|, lo, hi);
  }

  /** A flat spectrum comes back unchanged. */
  lemma SmoothedConstant(data: seq<uint8>, w: nat, c: uint8)
    requires forall k :: 0 <= k < |data| ==> data[k] == c
    ensures Smoothed(data, w) == data
  {
    forall i | 0 <= i < |data| ensures Smoothed(data, w)[i] == data[i] {
      SmoothedWithinWindow(data, w, i, c, c);
    }
  }

  /** With a window of radius 0 every bin is its own average. */
  lemma SmoothedRadiusZero(data: seq<uint8>)
    ensures Smoothed(data, 0) == data
  {
    forall i | 0 <= i < |data| ensures Smoothed(data, 0)[i] == data[i] {
      SmoothedWithinWindow(data, 0, i, data[i], data[i]);
    }
  }

  // ---------------------------------------------------------------------
  // Band thirds in animate()
  // ---------------------------------------------------------------------

  /** `Math.floor(frequencyData.length / 3)`. */
  function Third(len: nat): nat {
    len / 3
  }

  function Bass(data: seq<uint8>): seq<uint8> {
    data[..Third(|data|)]
  }

  function Mid(data: seq<uint8>): seq<uint8> {
    data[Third(|data|)..2 * Third(|data|)]
  }

  function Treble(data: seq<uint8>): seq<uint8> {
    data[2 * Third(|data|)..]
  }

  /** The three slices cover the spectrum in order with no gap or overlap;
      bass and mid hold `third` bins each, treble the remaining
      third, third + 1 or third + 2. */
  lemma BandsPartition(data: seq<uint8>)
    ensures Bass(data) + Mid(data) + Treble(data) == data
    ensures |Bass(data)| == |Mid(data)| == Third(|data|)
    ensures Third(|data|) <= |Treble(data)| <= Third(|data|) + 2
    ensures Sum(Bass(data)) + Sum(Mid(data)) + Sum(Treble(data)) == Sum(data)
  {
    assert Bass(data) + Mid(data) + Treble(data) == data;
    SumConcat(Bass(data), Mid(data));
    SumConcat(Bass(data) + Mid(data), Treble(data));
  }

  /** A JavaScript number as far as the targets need one. */
  datatype Level = Finite(value: real) | Infinity | NaN

  /** `sum / n / 255`: dividing by zero yields Infinity for a positive sum
      and NaN for a zero one. */
  function Ratio(sum: nat, n: nat): Level {
    if n > 0 then Finite(sum as real / n as real / 255.0)
    else if sum > 0 then Infinity
    else NaN
  }

  datatype Targets = Targets(intensity: Level, bass: Level, mid: Level, treble: Level)

  /** The four targets animate() computes before smoothing them: all zero
      unless there is spectrum data and the player is playing; otherwise the
      mean magnitude of the whole spectrum and of each band, scaled by 255,
      with every band divided by `third`. */
  function BandTargets(data: seq<uint8>, isPlaying: bool): (r: Targets)
    ensures r.intensity.Finite? && r.intensity.value >= 0.0
  {
    if |data| > 0 && isPlaying then
      var t := Third(|data|);
      Targets(Ratio(Sum(data), |data|), Ratio(Sum(Bass(data)), t),
              Ratio(Sum(Mid(data)), t), Ratio(Sum(Treble(data)), t))
    else
      Targets(Finite(0.0), Finite(0.0), Finite(0.0), Finite(0.0))
  }

  lemma RatioBound(sum: nat, n: nat, m: nat)
    requires n > 0 && sum <= 255 * m
    ensures Ratio(sum, n).Finite?
    ensures 0.0 <= Ratio(sum, n).value <= m as real / n as real
  {
    var x := sum as real / n as real;
    assert x * n as real == sum as real;
    assert sum as real <= 255.0 * m as real;
    assert x <= 255.0 * (m as real / n as real);
  }

  lemma RatioAtMostOne(sum: nat, n: nat)
    requires n > 0 && sum <= 255 * n
    ensures Ratio(sum, n).Finite? && 0.0 <= Ratio(sum, n).value <= 1.0
  {
    RatioBound(sum, n, n);
  }

  /** With at least three bins the intensity, bass and mid targets lie in
      [0, 1]. The treble target is still divided by `third` although its
      slice may be two bins longer, so it is only bounded by
      |treble| / third, which reaches 3 at five bins. */
  lemma TargetsBounds(data: seq<uint8>)
    requires |data| >= 3
    ensures var t := BandTargets(data, true);
      t.intensity.Finite? && 0.0 <= t.intensity.value <= 1.0 &&
      t.bass.Finite? && 0.0 <= t.bass.value <= 1.0 &&
      t.mid.Finite? && 0.0 <= t.mid.value <= 1.0 &&
      t.treble.Finite? && 0.0 <= t.treble.value <= |Treble(data)| as real / Third(|data|) as real
  {
    var third := Third(|data|);
    var bass, mid, treble := Sum(Bass(data)), Sum(Mid(data)), Sum(Treble(data));
    assert BandTargets(data, true) ==
      Targets(Ratio(Sum(data), |data|), Ratio(bass, third), Ratio(mid, third), Ratio(treble, third));
    BandsPartition(data);
    RatioAtMostOne(Sum(data), |data|);
    RatioAtMostOne(bass, third);
    RatioAtMostOne(mid, third);
    RatioBound(treble, third, |Treble(data)|);
  }

  /** Five loud bins: the treble slice has three bins but is divided by
      one, so its target is 3. */
  lemma TrebleTargetCanExceedOne()
    ensures BandTargets([255, 255, 255, 255, 255], true).treble == Finite(3.0)
  {
    var d: seq<uint8> := [255, 255, 255, 255, 255];
    assert Treble(d) == [255, 255, 255];
    assert Sum(Treble(d)) == 765 by {
      assert Treble(d)[..2] == [255, 255];
      assert Treble(d)[..2][..1] == [255];
      assert Treble(d)[..2][..1][..0] == [];
    }
  }

  /** With one or two bins `third` is 0: the bass and mid targets are NaN
      (0 / 0) and the treble target is Infinity or NaN. */
  lemma ShortSpectrumTargets(data: seq<uint8>)
    requires 0 < |data| < 3
    ensures var t := BandTargets(data, true);
      t.intensity.Finite? && t.bass == NaN && t.mid == NaN && !t.treble.Finite?
  {
  }

  /** No data or a paused player: every target is zero. */
  lemma SilentTargets(data: seq<uint8>, isPlaying: bool)
    requires |data| == 0 || !isPlaying
    ensures BandTargets(data, isPlaying) == Targets(Finite(0.0), Finite(0.0), Finite(0.0), Finite(0.0))
  {
  }

  // ---------------------------------------------------------------------
  // Bars in drawBars() and ring points in drawAlbumArtWaves()
  // ---------------------------------------------------------------------

  const BarWidth: nat := 6
  const BarGap: nat := 3
  /** Points sampled around each ring. */
  const RingPoints: nat := 100

  /** `Math.floor(width / (barWidth + barGap))`. */
  function BarCount(width: int): (r: int)
    ensures width >= 0 ==> r >= 0 && TotalBarsWidth(r) < width
  {
    width / (BarWidth + BarGap)
  }

  /** `barCount * barWidth + (barCount - 1) * barGap`. */
  function TotalBarsWidth(barCount: int): int {
    barCount * BarWidth + (barCount - 1) * BarGap
  }

  /** Once one bar fits, the bars fill the drawing width up to a margin
      of 3 to 11 pixels, split evenly on both sides. */
  lemma BarsFit(width: int)
    requires width >= BarWidth + BarGap
    ensures BarCount(width) >= 1
    ensures 3 <= width - TotalBarsWidth(BarCount(width)) <= 11
  {
  }

  /** `Math.floor((i / count) * len)`: the bin shown by bar or point i of
      count. */
  function BinIndex(i: nat, count: nat, len: nat): (r: nat)
    requires count > 0
    ensures r * count <= i * len < r * count + count
  {
    DivFloor(i * len, count);
    (i * len) / count
  }

  lemma BinIndexInRange(i: nat, count: nat, len: nat)
    requires i < count && len > 0
    ensures BinIndex(i, count, len) < len
  {
    MulMono(i + 1, count, len);
    assert (i + 1) * len == i * len + len;
    MulMono(len, len, count);
    assert count * len == (len - 1) * count + count;
    DivBetween(i * len, count, 0, len - 1);
  }

  /** Bars further right show higher bins. */
  lemma BinIndexMonotone(i: nat, j: nat, count: nat, len: nat)
    requires i <= j && count > 0
    ensures BinIndex(i, count, len) <= BinIndex(j, count, len)
  {
    var x, y := i * len, j * len;
    MulMono(i, j, len);
    DivFloor(x, count);
    DivFloor(y, count);
    DivBetween(y, count, x / count, y / count);
  }

  /** With no more bars than bins, no two bars show the same bin. */
  lemma BinIndexStrictlyMonotone(i: nat, j: nat, count: nat, len: nat)
    requires i < j && 0 < count <= len
    ensures BinIndex(i, count, len) < BinIndex(j, count, len)
  {
    var x, y := i * len, j * len;
    MulMono(i + 1, j, len);
    assert (i + 1) * len == x + len;
    var q := x / count;
    DivFloor(x, count);
    DivFloor(y, count);
    assert (q + 1) * count == q * count + count;
    DivBetween(y, count, q + 1, y / count);
  }

  /** `smoothedData[dataIndex] || 0`: the magnitude bar i shows, 0 when
      the index falls outside the data. */
  function BinValue(data: seq<uint8>, i: nat, count: nat): (r: uint8)
    requires count > 0
    ensures |data| == 0 ==> r == 0
    ensures BinIndex(i, count, |data|) < |data| ==> r == data[BinIndex(i, count, |data|)]
  {
    var k := BinIndex(i, count, |data|);
    if k < |data| then data[k] else 0
  }

  /** Every bar reads a real bin; the `|| 0` fallback only serves an empty
      spectrum. */
  lemma BinValueReadsBin(data: seq<uint8>, i: nat, count: nat)
    requires i < count
    ensures |data| > 0 ==> BinIndex(i, count, |data|) < |data| &&
                           BinValue(data, i, count) == data[BinIndex(i, count, |data|)]
    ensures |data| == 0 ==> BinValue(data, i, count) == 0
  {
    if |data| > 0 {
      BinIndexInRange(i, count, |data|);
    }
  }

  /** The ring points of drawAlbumArtWaves, `Math.floor((i / points) *
      smoothedData.length)`: each point reads a bin inside a non-empty
      spectrum, points further round read no lower bins, and once there are
      at least as many bins as points (the analyser gives 256) no two points
      read the same bin. */
  lemma RingPointBins(data: seq<uint8>, i: nat, j: nat)
    requires i < j < RingPoints && |data| > 0
    ensures BinIndex(i, RingPoints, |data|) < |data| && BinIndex(j, RingPoints, |data|) < |data|
    ensures BinValue(data, i, RingPoints) == data[BinIndex(i, RingPoints, |data|)]
    ensures BinIndex(i, RingPoints, |data|) <= BinIndex(j, RingPoints, |data|)
    ensures |data| >= RingPoints ==> BinIndex(i, RingPoints, |data|) < BinIndex(j, RingPoints, |data|)
  {
    BinValueReadsBin(data, i, RingPoints);
    BinIndexInRange(j, RingPoints, |data|);
    BinIndexMonotone(i, j, RingPoints, |data|);
    if |data| >= RingPoints {
      BinIndexStrictlyMonotone(i, j, RingPoints, |data|);
    }
  }
}
