/**
 * The line chart's geometry: how GraphView places each history sample in
 * its bounds. Samples are spread evenly across the width, oldest at the
 * left; the height keeps a 5% margin at top and bottom, with one scaling
 * rule for CPU (linear over 0..100) and one for RAM (only 80..100 is shown,
 * anything lower sits on the baseline).
 */
module Chart {

  /** The two y-scaling rules; the widget picks one by the graph's colour. */
  datatype Scaling = Linear | RamWindow

  /** A projected chart point in the view's coordinates. */
  datatype Point = Point(x: real, y: real)

  /** max(lo, min(v, hi)). */
  function Clamp(v: real, lo: real, hi: real): (r: real)
    requires lo <= hi
    ensures lo <= r <= hi
    ensures lo <= v <= hi ==> r == v
    ensures v < lo ==> r == lo
    ensures hi < v ==> r == hi
  {
    if v < lo then lo else if v > hi then hi else v
  }

  /** A normalised height n in [0, 1] placed in a view of height h with 5% padding. */
  function Pad(n: real, h: real): real {
    n * h * 0.9 + h * 0.05
  }

  /** CPU rule: the sample as a fraction of 100, padded. */
  function CpuY(v: real, h: real): real {
    v / 100.0 * h * 0.9 + h * 0.05
  }

  /**
   * RAM rule: the sample clamped to 0..100, then 80..100 stretched over the
   * padded height; a clamped sample below 80 is put on the baseline.
   */
  function RamY(v: real, h: real): real {
    var clampedValue := Clamp(v, 0.0, 100.0);
    var normalized := (clampedValue - 80.0) / 20.0;
    var y := Clamp(normalized, 0.0, 1.0) * h * 0.9 + h * 0.05;
    if clampedValue < 80.0 then h * 0.05 else y
  }

  function PointY(s: Scaling, v: real, h: real): real {
    match s
    case Linear => CpuY(v, h)
    case RamWindow => RamY(v, h)
  }

  /** Horizontal distance between neighbouring samples. */
  function StepX(count: nat, width: real): real {
    width / (if count - 1 > 1 then count - 1 else 1) as real
  }

  function ProjectX(i: nat, count: nat, width: real): real {
    (i as real) * StepX(count, width)
  }

  /**
   * The points the graph is drawn through: none for fewer than two samples,
   * otherwise one per sample, in order.
   */
  function Points(data: seq<real>, s: Scaling, width: real, height: real): seq<Point> {
    if |data| <= 1 then []
    else seq(|data|, i requires 0 <= i < |data| => Point(ProjectX(i, |data|, width), PointY(s, data[i], height)))
  }

  /** The drawing loop of GraphView.draw, producing the points it moves and lines to. */
  method Project(data: seq<real>, s: Scaling, width: real, height: real) returns (pts: seq<Point>)
    ensures pts == Points(data, s, width, height)
  {
    if |data| <= 1 {
      return [];
    }
    var stepX := StepX(|data|, width);
    pts := [];
    var i := 0;
    while i < |data|
      invariant 0 <= i <= |data|
      invariant |pts| == i
      invariant forall k :: 0 <= k < i ==> pts[k] == Points(data, s, width, height)[k]
    {
      var x := (i as real) * stepX;
      var y := PointY(s, data[i], height);
      pts := pts + [Point(x, y)];
      i := i + 1;
    }
  }

  /** Every sample of `data` is a percentage in [0, 100]. */
  predicate InPercentRange(data: seq<real>) {
    forall k :: 0 <= k < |data| ==> 0.0 <= data[k] <= 100.0
  }

  /** A fraction of a non-negative height lies between 0 and that height. */
  lemma FractionOfHeight(n: real, h: real)
    requires 0.0 <= n <= 1.0 && h >= 0.0
    ensures 0.0 <= n * h <= h
  {
    assert h - n * h == (1.0 - n) * h;
  }

  /** Padding keeps every normalised height inside [0.05h, 0.95h]. */
  lemma PadWithin(n: real, h: real)
    requires 0.0 <= n <= 1.0 && h >= 0.0
    ensures 0.05 * h <= Pad(n, h) <= 0.95 * h
  {
    FractionOfHeight(n, h);
  }

  /** The CPU rule is the padding of v / 100, so percentages land inside the margins. */
  lemma CpuYWithin(v: real, h: real)
    requires 0.0 <= v <= 100.0 && h >= 0.0
    ensures 0.05 * h <= CpuY(v, h) <= 0.95 * h
  {
    PadWithin(v / 100.0, h);
  }

  /** A taller sample is drawn higher on the CPU graph. */
  lemma CpuYIncreasing(v: real, w: real, h: real)
    requires v < w && h > 0.0
    ensures CpuY(v, h) < CpuY(w, h)
  {
    assert CpuY(w, h) - CpuY(v, h) == (w - v) / 100.0 * h * 0.9;
    MulPositive((w - v) / 100.0, h);
  }

  lemma MulPositive(a: real, b: real)
    requires a > 0.0 && b > 0.0
    ensures a * b > 0.0
  {
  }

  /** With a height of 100, CPU samples 0, 50 and 100 are drawn at 5, 50 and 95. */
  lemma CpuYExamples()
    ensures CpuY(0.0, 100.0) == 5.0
    ensures CpuY(50.0, 100.0) == 50.0
    ensures CpuY(100.0, 100.0) == 95.0
  {
  }

  /**
   * The -1 that a failed CPU read records falls below the bottom margin:
   * the 5% padding holds only for samples in [0, 100].
   */
  lemma CpuSentinelBelowMargin(h: real)
    requires h > 0.0
    ensures CpuY(-1.0, h) < 0.05 * h
  {
  }

  /**
   * The RAM rule agrees on every input with the windowed clamp onto 80..100:
   * normalise (v - 80) / 20, clamp it to [0, 1], pad it.
   */
  lemma RamYIsWindowedClamp(v: real, h: real)
    ensures RamY(v, h) == Pad(Clamp((v - 80.0) / 20.0, 0.0, 1.0), h)
  {
    if v < 80.0 {
      assert (v - 80.0) / 20.0 < 0.0;
    } else if v > 100.0 {
      assert (v - 80.0) / 20.0 > 1.0;
    }
  }

  /** Every RAM sample, whatever its value, lands inside the margins. */
  lemma RamYWithin(v: real, h: real)
    requires h >= 0.0
    ensures 0.05 * h <= RamY(v, h) <= 0.95 * h
  {
    RamYIsWindowedClamp(v, h);
    PadWithin(Clamp((v - 80.0) / 20.0, 0.0, 1.0), h);
  }

  /** Below 80 the RAM graph is flat on the baseline; from 100 up it is flat at the top. */
  lemma RamYFlatOutsideWindow(v: real, h: real)
    ensures v < 80.0 ==> RamY(v, h) == 0.05 * h
    ensures v >= 100.0 ==> RamY(v, h) == 0.95 * h
  {
    RamYIsWindowedClamp(v, h);
  }

  /** RAM samples 90 and 100 are drawn at half and at 95% of the height. */
  lemma RamYExamples(h: real)
    ensures RamY(70.0, h) == 0.05 * h
    ensures RamY(90.0, h) == 0.5 * h
    ensures RamY(100.0, h) == 0.95 * h
  {
  }

  /** A higher RAM sample is never drawn lower. */
  lemma RamYMonotone(v: real, w: real, h: real)
    requires v <= w && h >= 0.0
    ensures RamY(v, h) <= RamY(w, h)
  {
    RamYIsWindowedClamp(v, h);
    RamYIsWindowedClamp(w, h);
    var a, b := Clamp((v - 80.0) / 20.0, 0.0, 1.0), Clamp((w - 80.0) / 20.0, 0.0, 1.0);
    assert a <= b;
    assert Pad(b, h) - Pad(a, h) == (b - a) * h * 0.9;
    if a < b && h > 0.0 {
      MulPositive(b - a, h);
    }
  }

  /** Fewer than two samples draw nothing; otherwise there is one point per sample. */
  lemma PointsCount(data: seq<real>, s: Scaling, width: real, height: real)
    ensures |data| < 2 ==> Points(data, s, width, height) == []
    ensures |data| >= 2 ==> |Points(data, s, width, height)| == |data|
  {
  }

  /** The oldest sample is drawn at the left edge, the newest at the right edge. */
  lemma PointsSpanWidth(data: seq<real>, s: Scaling, width: real, height: real)
    requires |data| >= 2
    ensures Points(data, s, width, height)[0].x == 0.0
    ensures Points(data, s, width, height)[|data| - 1].x == width
  {
    var n := (|data| - 1) as real;
    assert StepX(|data|, width) == width / n;
    assert n * (width / n) == width;
  }

  /** On a view of positive width, x grows strictly with the sample's age rank. */
  lemma PointsIncreasingX(data: seq<real>, s: Scaling, width: real, height: real, i: nat, j: nat)
    requires |data| >= 2 && i < j < |data| && width > 0.0
    ensures Points(data, s, width, height)[i].x < Points(data, s, width, height)[j].x
  {
    var step := StepX(|data|, width);
    assert step > 0.0;
    assert (j as real) * step - (i as real) * step == ((j - i) as real) * step;
    MulPositive((j - i) as real, step);
  }

  /**
   * On a view of non-negative height every point stays within the 5% margins:
   * always for the RAM rule, and for the CPU rule when the samples are percentages.
   */
  lemma PointsWithinMargins(data: seq<real>, s: Scaling, width: real, height: real, i: nat)
    requires |data| >= 2 && i < |data| && height >= 0.0
    requires s == Linear ==> InPercentRange(data)
    ensures 0.05 * height <= Points(data, s, width, height)[i].y <= 0.95 * height
  {
    match s
    case Linear => CpuYWithin(data[i], height);
    case RamWindow => RamYWithin(data[i], height);
  }
}
